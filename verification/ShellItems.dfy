/** Simple commands as the user writes them: arguments and redirections in any order, blanks in between. */
module ShellItems {
  import opened ShellSpec
  import opened Texts

  type Tree = Cmd<string>

  const BLANKS := {' ', '\t', '\r', '\n', '\U{0b}'}

  const SYMBOLS := {'<', '|', '>', '&', ';', '(', ')'}

  predicate WordOk(w: string) {
    w != "" && forall k | 0 <= k < |w| :: w[k] !in BLANKS && w[k] !in SYMBOLS && w[k] != '\0'
  }

  predicate AllBlank(b: string) { forall k | 0 <= k < |b| :: b[k] in BLANKS }

  /** An argument, or a redirection by one of the symbols <, > and >>. */
  datatype Item = Arg(pre: string, word: string) | File(pre: string, sym: string, mid: string, name: string)

  predicate ItemOk(it: Item) {
    match it
    case Arg(pre, w) => AllBlank(pre) && WordOk(w)
    case File(pre, sym, mid, f) =>
      AllBlank(pre) && (sym == "<" || sym == ">" || sym == ">>") && AllBlank(mid) && WordOk(f)
  }

  /** Blanks keep an argument apart from the word before it, if there is one. */
  predicate ItemsOk(items: seq<Item>, word: bool) {
    items != [] ==> ItemOk(items[0]) && (items[0].Arg? && word ==> items[0].pre != "") && ItemsOk(items[1..], true)
  }

  function ItemText(it: Item): string {
    match it
    case Arg(pre, w) => pre + w
    case File(pre, sym, mid, f) => pre + (sym + (mid + f))
  }

  function ItemsText(items: seq<Item>): string {
    if items == [] then "" else ItemText(items[0]) + ItemsText(items[1..])
  }

  /** The arguments, in order. */
  function Words(items: seq<Item>): seq<string> {
    if items == [] then [] else (if items[0].Arg? then [items[0].word] else []) + Words(items[1..])
  }

  /** The redirections, in order: the file, and whether it is read. */
  function Files(items: seq<Item>): seq<(string, bool)> {
    if items == [] then []
    else (if items[0].File? then [(items[0].name, items[0].sym == "<")] else []) + Files(items[1..])
  }

  /** Redirections around a command, the first innermost. */
  function Wrap(t: Tree, rs: seq<(string, bool)>): Tree
    decreases |rs|
  {
    if rs == [] then t else Wrap(Redir(t, rs[0].0, rs[0].1), rs[1..])
  }

  // What a parsed command says

  function Slice(s: string, w: Span): string { if w.start <= w.end <= |s| then s[w.start..w.end] else "" }

  function Slices(s: string, ws: seq<Span>): seq<string> {
    seq(|ws|, i requires 0 <= i < |ws| => Slice(s, ws[i]))
  }

  function Show(s: string, c: Cmd<Span>): Tree {
    match c
    case Exec(args) => Exec(Slices(s, args))
    case Redir(d, f, i) => Redir(Show(s, d), Slice(s, f), i)
    case Pipe(l, r) => Pipe(Show(s, l), Show(s, r))
    case List(l, r) => List(Show(s, l), Show(s, r))
    case Back(d) => Back(Show(s, d))
  }

  // Texts in the line

  /** After position e, blanks aside, the line ends or goes on with one of these. */
  predicate Follows(s: string, e: nat, toks: set<char>) {
    e <= |s| && (SkipBlanks(s, e) == |s| || s[SkipBlanks(s, e)] in toks)
  }

  const STOPS := {'|', ')', '&', ';'}

  /** A word does not run into what follows it. */
  predicate Breaks(s: string, e: nat) { e <= |s| && (e < |s| ==> !WordChar(s[e])) }

  lemma StopBreaks(s: string, e: nat)
    requires Follows(s, e, STOPS)
    ensures Breaks(s, e)
  {
  }

  lemma {:induction false} BlanksAt(s: string, p: nat, b: string, q: nat)
    requires Has(s, p, b) && AllBlank(b) && q == p + |b|
    ensures q <= |s| && SkipBlanks(s, p) == SkipBlanks(s, q)
    decreases |b|
  {
    if b != "" {
      assert s[p + 0] == b[0];
      HasSplit(s, p, b[..1], b[1..], p + 1);
      BlanksAt(s, p + 1, b[1..], q);
    }
  }

  lemma {:induction false} SkipWordTo(s: string, p: nat, e: nat)
    requires p <= e <= |s| && Breaks(s, e) && forall k | p <= k < e :: WordChar(s[k])
    ensures SkipWord(s, p) == e
    decreases e - p
  {
    if p < e {
      SkipWordTo(s, p + 1, e);
    }
  }

  lemma WordChars(w: string)
    requires WordOk(w)
    ensures forall k | 0 <= k < |w| :: WordChar(w[k])
  {
    forall k | 0 <= k < |w|
      ensures WordChar(w[k])
    {
      var c := w[k];
      assert c !in BLANKS && c !in SYMBOLS;
    }
  }

  /** Blanks and a word: gettoken returns the word. */
  lemma WordAt(s: string, p: nat, pre: string, w: string, q: nat, e: nat)
    requires Has(s, p, pre + w) && AllBlank(pre) && WordOk(w) && q == p + |pre| && e == q + |w| && Breaks(s, e)
    ensures SkipBlanks(s, p) == q < e <= |s| && WordChar(s[q])
    ensures GetToken(s, p) == Token('a', Span(q, e), SkipBlanks(s, e)) && Slice(s, Span(q, e)) == w
  {
    HasSplit(s, p, pre, w, q);
    BlanksAt(s, p, pre, q);
    WordChars(w);
    assert s[q + 0] == w[0];
    assert SkipBlanks(s, q) == q;
    forall k | q <= k < e
      ensures WordChar(s[k])
    {
      assert s[q + (k - q)] == w[k - q];
    }
    SkipWordTo(s, q, e);
    assert s[q..e] == w;
  }

  /** A symbol at p: gettoken takes it. A '>' must not be doubled. */
  lemma SymbolAt(s: string, p: nat)
    requires p < |s| && s[p] in SYMBOLS && (s[p] == '>' ==> At(s, p + 1) != '>')
    ensures SkipBlanks(s, p) == p && GetToken(s, p) == Token(s[p], Span(p, p + 1), SkipBlanks(s, p + 1))
  {
    var c := s[p];
    assert Symbol(c) && !Blank(c);
  }

  // Skipping blanks first changes nothing

  lemma RedirsSkip(s: string, p: nat, q: nat, c: Cmd<Span>)
    requires p <= |s| && q == SkipBlanks(s, p)
    ensures Redirs(s, q, c) == Redirs(s, p, c)
  {
    TokenSkip(s, p, q);
  }

  // parseexec, item by item

  /** parseredirs, and then parseexec's loop. */
  function Rest(s: string, p: nat, c: Cmd<Span>, n: nat): Parse
    requires p <= |s|
  {
    match Redirs(s, p, c)
    case Panic => Panic
    case Ok(d, q) => Args(s, q, d, n)
  }

  lemma RestSkip(s: string, p: nat, q: nat, c: Cmd<Span>, n: nat)
    requires p <= |s| && q == SkipBlanks(s, p)
    ensures Rest(s, q, c, n) == Rest(s, p, c, n)
  {
    RedirsSkip(s, p, q, c);
  }

  lemma RestEnd(s: string, p: nat, c: Cmd<Span>, n: nat)
    requires Follows(s, p, STOPS)
    ensures Rest(s, p, c, n) == Ok(c, SkipBlanks(s, p))
  {
    TokenSkip(s, p, SkipBlanks(s, p));
  }

  /** A word is one more argument, unless there are nine already. */
  lemma RestWord(s: string, p: nat, c: Cmd<Span>, n: nat, q: nat, t: Token)
    requires p <= |s| && q == SkipBlanks(s, p) < |s| && WordChar(s[q]) && t == GetToken(s, p) && t.kind == 'a'
    ensures Rest(s, p, c, n) == if n + 1 >= MAXARGS then Panic else Rest(s, t.next, AddArg(c, t.span), n + 1)
  {
    TokenSkip(s, p, q);
  }

  /** What a symbol stands for. */
  lemma RedirSymbol(s: string, p: nat, sym: string, m: nat)
    requires Has(s, p, sym) && (sym == "<" || sym == ">" || sym == ">>") && m == p + |sym|
    requires sym == ">" ==> At(s, m) != '>'
    ensures Peek(s, p, {'<', '>'}) && GetToken(s, p).next == SkipBlanks(s, m)
    ensures GetToken(s, p).kind == '<' <==> sym == "<"
  {
    assert s[p + 0] == sym[0];
    if sym == ">>" {
      assert s[p + 1] == sym[1];
    }
  }

  /** A symbol and a file name, blanks before each. */
  lemma RedirAt(s: string, p: nat, c: Cmd<Span>, it: Item, b: nat, m: nat, q: nat, e: nat)
    requires it.File? && ItemOk(it) && Has(s, p, ItemText(it)) && Breaks(s, e)
    requires b == p + |it.pre| && m == b + |it.sym| && q == m + |it.mid| && e == q + |it.name|
    ensures e <= |s| && Slice(s, Span(q, e)) == it.name
    ensures Redirs(s, p, c) == Redirs(s, e, Redir(c, Span(q, e), it.sym == "<"))
  {
    HasSplit(s, p, it.pre, it.sym + (it.mid + it.name), b);
    HasSplit(s, b, it.sym, it.mid + it.name, m);
    BlanksAt(s, p, it.pre, b);
    NoSecond(s, m, it.mid, it.name);
    RedirSymbol(s, b, it.sym, m);
    WordAt(s, m, it.mid, it.name, q, e);
    TokenSkip(s, m, SkipBlanks(s, m));
    TokenSkip(s, p, SkipBlanks(s, p));
    TokenSkip(s, b, SkipBlanks(s, b));
    OneRedir(s, b, c, it.sym == "<", m, Span(q, e), e);
    RedirsSkip(s, p, SkipBlanks(s, p), c);
    RedirsSkip(s, b, SkipBlanks(s, b), c);
    RedirsSkip(s, e, SkipBlanks(s, e), Redir(c, Span(q, e), it.sym == "<"));
  }

  lemma OneRedir(s: string, b: nat, c: Cmd<Span>, input: bool, m: nat, f: Span, e: nat)
    requires b <= |s| && m <= |s| && e <= |s| && Peek(s, b, {'<', '>'}) && GetToken(s, b).next == SkipBlanks(s, m)
    requires GetToken(s, b).kind == '<' <==> input
    requires GetToken(s, SkipBlanks(s, m)) == Token('a', f, SkipBlanks(s, e))
    ensures Redirs(s, b, c) == Redirs(s, SkipBlanks(s, e), Redir(c, f, input))
  {
  }

  lemma NoSecond(s: string, m: nat, mid: string, f: string)
    requires Has(s, m, mid + f) && AllBlank(mid) && WordOk(f)
    ensures At(s, m) != '>'
  {
    var text := mid + f;
    assert s[m + 0] == text[0];
    if mid != "" {
      assert text[0] == mid[0] && mid[0] in BLANKS;
    } else {
      assert text[0] == f[0] && f[0] !in SYMBOLS;
    }
  }

  lemma {:induction false} WrapLast(t: Tree, rs: seq<(string, bool)>, f: string, i: bool)
    ensures Wrap(t, rs + [(f, i)]) == Redir(Wrap(t, rs), f, i)
    decreases |rs|
  {
    var all := rs + [(f, i)];
    if rs == [] {
      assert all[1..] == [];
    } else {
      assert all[0] == rs[0] && all[1..] == rs[1..] + [(f, i)];
      WrapLast(Redir(t, rs[0].0, rs[0].1), rs[1..], f, i);
    }
  }

  /** An argument goes to the command inside the redirections. */
  lemma {:induction false} ArgShown(s: string, c: Cmd<Span>, a: Span, done: seq<string>, files: seq<(string, bool)>)
    requires Show(s, c) == Wrap(Exec(done), files)
    ensures Show(s, AddArg(c, a)) == Wrap(Exec(done + [Slice(s, a)]), files)
    decreases |files|
  {
    if files == [] {
      assert Slices(s, c.args + [a]) == Slices(s, c.args) + [Slice(s, a)];
    } else {
      var last := |files| - 1;
      var first, x := files[..last], files[last];
      assert files == first + [(x.0, x.1)];
      WrapLast(Exec(done), first, x.0, x.1);
      WrapLast(Exec(done + [Slice(s, a)]), first, x.0, x.1);
      ArgShown(s, c.cmd, a, done, first);
    }
  }

  /** What follows an item does not run into its last word. */
  lemma ItemBreaks(s: string, e: nat, items: seq<Item>, end: nat)
    requires ItemsOk(items, true) && Has(s, e, ItemsText(items)) && end == e + |ItemsText(items)|
    requires Follows(s, end, STOPS)
    ensures Breaks(s, e)
  {
    if items == [] {
      StopBreaks(s, e);
    } else {
      var it, text := items[0], ItemsText(items);
      assert s[e + 0] == text[0];
      if it.pre != "" {
        assert text[0] == it.pre[0] && it.pre[0] in BLANKS;
      } else {
        assert it.File? && text[0] == it.sym[0];
      }
    }
  }

  /** The items from p on, with `done` arguments and `files` redirections before them. */
  lemma {:induction false} ItemsAt(s: string, p: nat, c: Cmd<Span>, n: nat, items: seq<Item>, word: bool, end: nat,
                                   done: seq<string>, files: seq<(string, bool)>)
    returns (d: Cmd<Span>)
    requires ItemsOk(items, word) && Has(s, p, ItemsText(items)) && end == p + |ItemsText(items)|
    requires Follows(s, end, STOPS) && Show(s, c) == Wrap(Exec(done), files) && |done| == n < MAXARGS
    ensures if n + |Words(items)| < MAXARGS
            then Rest(s, p, c, n) == Ok(d, SkipBlanks(s, end))
                 && Show(s, d) == Wrap(Exec(done + Words(items)), files + Files(items))
            else Rest(s, p, c, n) == Panic
    decreases |items|, 0
  {
    if items == [] {
      d := c;
      RestEnd(s, p, c, n);
      assert done + Words(items) == done && files + Files(items) == files;
    } else {
      var it, rest := items[0], items[1..];
      var e := p + |ItemText(it)|;
      HasSplit(s, p, ItemText(it), ItemsText(rest), e);
      ItemBreaks(s, e, rest, end);
      if it.Arg? {
        d := ArgItem(s, p, c, n, it, rest, e, end, done, files);
      } else {
        d := FileItem(s, p, c, n, it, rest, e, end, done, files);
      }
      Regrouped(done, files, items, it, rest);
    }
  }

  lemma Regrouped(done: seq<string>, files: seq<(string, bool)>, items: seq<Item>, it: Item, rest: seq<Item>)
    requires items != [] && it == items[0] && rest == items[1..]
    ensures it.Arg? ==> (done + [it.word]) + Words(rest) == done + Words(items) && Files(items) == Files(rest)
    ensures it.File? ==> (files + [(it.name, it.sym == "<")]) + Files(rest) == files + Files(items)
    ensures it.File? ==> Words(items) == Words(rest)
  {
  }

  lemma {:induction false} ArgItem(s: string, p: nat, c: Cmd<Span>, n: nat, it: Item, rest: seq<Item>, e: nat, end: nat,
                                   done: seq<string>, files: seq<(string, bool)>)
    returns (d: Cmd<Span>)
    requires it.Arg? && ItemOk(it) && Has(s, p, ItemText(it)) && e == p + |ItemText(it)| && Breaks(s, e)
    requires ItemsOk(rest, true) && Has(s, e, ItemsText(rest)) && end == e + |ItemsText(rest)|
    requires Follows(s, end, STOPS) && Show(s, c) == Wrap(Exec(done), files) && |done| == n < MAXARGS
    ensures if n + 1 + |Words(rest)| < MAXARGS
            then Rest(s, p, c, n) == Ok(d, SkipBlanks(s, end))
                 && Show(s, d) == Wrap(Exec((done + [it.word]) + Words(rest)), files + Files(rest))
            else Rest(s, p, c, n) == Panic
    decreases |rest|, 2
  {
    var q := p + |it.pre|;
    d := c;
    WordAt(s, p, it.pre, it.word, q, e);
    var t := GetToken(s, p);
    RestWord(s, p, c, n, q, t);
    if n + 1 < MAXARGS {
      d := ArgRest(s, c, n, n + 1, it.word, t, rest, e, end, done, done + [it.word], files);
    }
  }

  lemma {:induction false} ArgRest(s: string, c: Cmd<Span>, n: nat, next: nat, w: string, t: Token, rest: seq<Item>,
                                   e: nat, end: nat, done: seq<string>, done': seq<string>, files: seq<(string, bool)>)
    returns (d: Cmd<Span>)
    requires e <= |s| && t.next == SkipBlanks(s, e) && Slice(s, t.span) == w && done' == done + [w]
    requires ItemsOk(rest, true) && Has(s, e, ItemsText(rest)) && end == e + |ItemsText(rest)|
    requires Follows(s, end, STOPS) && Show(s, c) == Wrap(Exec(done), files) && |done| == n && next == n + 1 < MAXARGS
    ensures if next + |Words(rest)| < MAXARGS
            then Rest(s, t.next, AddArg(c, t.span), next) == Ok(d, SkipBlanks(s, end))
                 && Show(s, d) == Wrap(Exec(done' + Words(rest)), files + Files(rest))
            else Rest(s, t.next, AddArg(c, t.span), next) == Panic
    decreases |rest|, 1
  {
    var c1 := AddArg(c, t.span);
    ArgShown(s, c, t.span, done, files);
    RestSkip(s, e, t.next, c1, next);
    d := ItemsAt(s, e, c1, next, rest, true, end, done', files);
  }

  lemma {:induction false} FileItem(s: string, p: nat, c: Cmd<Span>, n: nat, it: Item, rest: seq<Item>, e: nat,
                                    end: nat, done: seq<string>, files: seq<(string, bool)>)
    returns (d: Cmd<Span>)
    requires it.File? && ItemOk(it) && Has(s, p, ItemText(it)) && e == p + |ItemText(it)| && Breaks(s, e)
    requires ItemsOk(rest, true) && Has(s, e, ItemsText(rest)) && end == e + |ItemsText(rest)|
    requires Follows(s, end, STOPS) && Show(s, c) == Wrap(Exec(done), files) && |done| == n < MAXARGS
    ensures if n + |Words(rest)| < MAXARGS
            then Rest(s, p, c, n) == Ok(d, SkipBlanks(s, end))
                 && Show(s, d) == Wrap(Exec(done + Words(rest)), (files + [(it.name, it.sym == "<")]) + Files(rest))
            else Rest(s, p, c, n) == Panic
    decreases |rest|, 2
  {
    var b := p + |it.pre|;
    var m := b + |it.sym|;
    var q := m + |it.mid|;
    RedirAt(s, p, c, it, b, m, q, e);
    var c1 := Redir(c, Span(q, e), it.sym == "<");
    WrapLast(Exec(done), files, it.name, it.sym == "<");
    d := ItemsAt(s, e, c1, n, rest, true, end, done, files + [(it.name, it.sym == "<")]);
  }

  /** Main result: parseexec reads arguments and redirections in any order. The command gets exactly the arguments, in
      their order, and the redirections stand around it in theirs, the last outermost; with ten arguments or more the
      parser panics. */
  lemma AnyOrder(s: string, p: nat, items: seq<Item>, end: nat) returns (d: Cmd<Span>)
    requires ItemsOk(items, false) && Has(s, p, ItemsText(items)) && end == p + |ItemsText(items)|
    requires Follows(s, end, STOPS)
    ensures if |Words(items)| < 10
            then ParseExec(s, p) == Ok(d, SkipBlanks(s, end))
                 && Show(s, d) == Wrap(Exec(Words(items)), Files(items))
            else ParseExec(s, p) == Panic
  {
    assert Show(s, Exec([])) == Wrap(Exec([]), []);
    d := ItemsAt(s, p, Exec([]), 0, items, false, end, [], []);
    assert [] + Words(items) == Words(items) && [] + Files(items) == Files(items);
    NoBlock(s, p, items, end);
  }

  /** It does not begin like a block. */
  lemma NoBlock(s: string, p: nat, items: seq<Item>, end: nat)
    requires ItemsOk(items, false) && Has(s, p, ItemsText(items)) && end == p + |ItemsText(items)|
    requires Follows(s, end, STOPS)
    ensures !Peek(s, p, {'('})
  {
    if items != [] {
      var it := items[0];
      var e := p + |ItemText(it)|;
      HasSplit(s, p, ItemText(it), ItemsText(items[1..]), e);
      ItemBreaks(s, e, items[1..], end);
      if it.Arg? {
        WordAt(s, p, it.pre, it.word, p + |it.pre|, e);
      } else {
        var b := p + |it.pre|;
        HasSplit(s, p, it.pre, it.sym + (it.mid + it.name), b);
        BlanksAt(s, p, it.pre, b);
        var text := it.sym + (it.mid + it.name);
        assert s[b + 0] == text[0] == it.sym[0];
      }
    }
  }
}
