/** Commands written as lines, and read back by the parser. */
module ShellPrint {
  import opened ShellItems
  import opened ShellSpec
  import opened Texts

  predicate WordsOk(ws: seq<string>) { forall i | 0 <= i < |ws| :: WordOk(ws[i]) }

  /** Any tree of commands with words for words, and at most nine arguments each. */
  predicate TreeOk(t: Tree) {
    match t
    case Exec(args) => |args| < MAXARGS && WordsOk(args)
    case Redir(c, f, _) => TreeOk(c) && WordOk(f)
    case Pipe(l, r) => TreeOk(l) && TreeOk(r)
    case List(l, r) => TreeOk(l) && TreeOk(r)
    case Back(c) => TreeOk(c)
  }

  // The text

  function ArgsText(args: seq<string>): string {
    if args == [] then "" else " " + args[0] + ArgsText(args[1..])
  }

  function RedirText(f: string, input: bool): string { (if input then "<" else ">") + " " + f }

  /** A simple command with its redirections, or anything else in parentheses. */
  function UnitText(t: Tree): string
    decreases t, 3
  {
    match t
    case Exec(args) => ArgsText(args)
    case Redir(c, f, i) => UnitText(c) + RedirText(f, i)
    case _ => "(" + LineText(t) + ")"
  }

  function PipeText(t: Tree): string
    decreases t, if t.Pipe? then 0 else 4
  {
    if t.Pipe? then UnitText(t.left) + "|" + PipeText(t.right) else UnitText(t)
  }

  function BackText(t: Tree): string
    decreases t, if t.Back? || t.Pipe? then 1 else 5
  {
    if t.Back? then BackText(t.cmd) + "&" else PipeText(t)
  }

  function LineText(t: Tree): string
    decreases t, if t.List? then 0 else if t.Back? || t.Pipe? then 2 else 6
  {
    if t.List? then BackText(t.left) + ";" + LineText(t.right) else BackText(t)
  }

  lemma Assoc(a: string, b: string, c: string)
    ensures (a + b) + c == a + (b + c)
  {
  }

  // Skipping blanks first changes nothing

  lemma LineSkip(s: string, p: nat, q: nat)
    requires p <= |s| && q == SkipBlanks(s, p)
    ensures ParseExec(s, q) == ParseExec(s, p) && ParsePipe(s, q) == ParsePipe(s, p)
    ensures ParseLine(s, q) == ParseLine(s, p)
  {
    TokenSkip(s, p, q);
    RedirsSkip(s, p, q, Exec([]));
  }

  // Simple commands: arguments, then redirections

  function RedirsText(rs: seq<(string, bool)>): string {
    if rs == [] then "" else RedirText(rs[0].0, rs[0].1) + RedirsText(rs[1..])
  }

  predicate FilesOk(rs: seq<(string, bool)>) { forall i | 0 <= i < |rs| :: WordOk(rs[i].0) }

  function FileItem(f: string, input: bool): Item { File("", if input then "<" else ">", " ", f) }

  function FileItems(rs: seq<(string, bool)>): seq<Item> {
    if rs == [] then [] else [FileItem(rs[0].0, rs[0].1)] + FileItems(rs[1..])
  }

  function AllItems(args: seq<string>, rs: seq<(string, bool)>): seq<Item> {
    if args == [] then FileItems(rs) else [Arg(" ", args[0])] + AllItems(args[1..], rs)
  }

  lemma {:induction false} FileItemsAre(rs: seq<(string, bool)>, word: bool)
    requires FilesOk(rs)
    ensures ItemsOk(FileItems(rs), word) && ItemsText(FileItems(rs)) == RedirsText(rs)
    ensures Words(FileItems(rs)) == [] && Files(FileItems(rs)) == rs
  {
    if rs != [] {
      FileItemsAre(rs[1..], true);
      assert FileItems(rs)[1..] == FileItems(rs[1..]);
      assert ItemText(FileItem(rs[0].0, rs[0].1)) == RedirText(rs[0].0, rs[0].1);
    }
  }

  lemma {:induction false} AllItemsAre(args: seq<string>, rs: seq<(string, bool)>, word: bool)
    requires WordsOk(args) && FilesOk(rs)
    ensures ItemsOk(AllItems(args, rs), word) && ItemsText(AllItems(args, rs)) == ArgsText(args) + RedirsText(rs)
    ensures Words(AllItems(args, rs)) == args && Files(AllItems(args, rs)) == rs
  {
    if args == [] {
      FileItemsAre(rs, word);
    } else {
      AllItemsAre(args[1..], rs, true);
      assert AllItems(args, rs)[1..] == AllItems(args[1..], rs);
      Assoc(" " + args[0], ArgsText(args[1..]), RedirsText(rs));
    }
  }

  /** A simple command. */
  lemma ExecAt(s: string, p: nat, args: seq<string>, rs: seq<(string, bool)>, end: nat) returns (d: Cmd<Span>)
    requires WordsOk(args) && |args| < MAXARGS && FilesOk(rs) && Has(s, p, ArgsText(args) + RedirsText(rs))
    requires end == p + |ArgsText(args) + RedirsText(rs)| && Follows(s, end, STOPS)
    ensures ParseExec(s, p) == Ok(d, SkipBlanks(s, end)) && Show(s, d) == Wrap(Exec(args), rs)
  {
    AllItemsAre(args, rs, false);
    d := AnyOrder(s, p, AllItems(args, rs), end);
  }

  /** Redirections after a block. */
  lemma {:induction false} RedirsAt(s: string, p: nat, c: Cmd<Span>, rs: seq<(string, bool)>, e: nat)
    returns (d: Cmd<Span>)
    requires Has(s, p, RedirsText(rs)) && FilesOk(rs) && e == p + |RedirsText(rs)| && Follows(s, e, STOPS)
    ensures Redirs(s, p, c) == Ok(d, SkipBlanks(s, e)) && Show(s, d) == Wrap(Show(s, c), rs)
    decreases |rs|
  {
    if rs == [] {
      d := c;
    } else {
      var it, rest := FileItem(rs[0].0, rs[0].1), rs[1..];
      var q := p + 2;
      var e1 := q + |it.name|;
      assert ItemText(it) == RedirText(rs[0].0, rs[0].1);
      HasSplit(s, p, ItemText(it), RedirsText(rest), e1);
      FileItemsAre(rest, true);
      ItemBreaks(s, e1, FileItems(rest), e);
      RedirAt(s, p, c, it, p, p + 1, q, e1);
      d := RedirsAt(s, e1, Redir(c, Span(q, e1), rs[0].1), rest, e);
    }
  }

  // Any command

  function Size(t: Tree): nat {
    match t
    case Exec(_) => 1
    case Redir(c, _, _) => 1 + Size(c)
    case Pipe(l, r) => 1 + Size(l) + Size(r)
    case List(l, r) => 1 + Size(l) + Size(r)
    case Back(c) => 1 + Size(c)
  }

  /** A command without its redirections, and they, the first innermost. */
  function BaseOf(t: Tree): Tree { if t.Redir? then BaseOf(t.cmd) else t }

  function FilesOf(t: Tree): seq<(string, bool)> { if t.Redir? then FilesOf(t.cmd) + [(t.file, t.input)] else [] }

  lemma {:induction false} TextLast(rs: seq<(string, bool)>, f: string, i: bool)
    ensures RedirsText(rs + [(f, i)]) == RedirsText(rs) + RedirText(f, i)
    decreases |rs|
  {
    var all := rs + [(f, i)];
    if rs == [] {
      assert all[1..] == [];
    } else {
      assert all[0] == rs[0] && all[1..] == rs[1..] + [(f, i)];
      TextLast(rs[1..], f, i);
    }
  }

  lemma {:induction false} UnitParts(t: Tree)
    requires TreeOk(t)
    ensures !BaseOf(t).Redir? && TreeOk(BaseOf(t)) && FilesOk(FilesOf(t)) && Wrap(BaseOf(t), FilesOf(t)) == t
    ensures UnitText(t) == UnitText(BaseOf(t)) + RedirsText(FilesOf(t))
    ensures if t.Redir? then Size(BaseOf(t)) < Size(t) else BaseOf(t) == t
  {
    if t.Redir? {
      UnitParts(t.cmd);
      WrapLast(BaseOf(t), FilesOf(t.cmd), t.file, t.input);
      TextLast(FilesOf(t.cmd), t.file, t.input);
      Assoc(UnitText(BaseOf(t)), RedirsText(FilesOf(t.cmd)), RedirText(t.file, t.input));
    } else {
      assert UnitText(t) + RedirsText([]) == UnitText(t);
    }
  }

  lemma {:induction false} UnitAt(s: string, p: nat, t: Tree, e: nat) returns (d: Cmd<Span>)
    requires TreeOk(t) && Has(s, p, UnitText(t)) && e == p + |UnitText(t)| && Follows(s, e, STOPS)
    ensures ParseExec(s, p) == Ok(d, SkipBlanks(s, e)) && Show(s, d) == t
    decreases Size(t), 4
  {
    UnitParts(t);
    var b, rs := BaseOf(t), FilesOf(t);
    var m := p + |UnitText(b)|;
    HasSplit(s, p, UnitText(b), RedirsText(rs), m);
    if b.Exec? {
      d := ExecAt(s, p, b.args, rs, e);
    } else {
      d := BlockAt(s, p, b, rs, m, e);
    }
  }

  lemma {:induction false} BlockAt(s: string, p: nat, b: Tree, rs: seq<(string, bool)>, m: nat, e: nat)
    returns (d: Cmd<Span>)
    requires TreeOk(b) && !b.Exec? && !b.Redir? && Has(s, p, UnitText(b)) && m == p + |UnitText(b)|
    requires Has(s, m, RedirsText(rs)) && FilesOk(rs) && e == m + |RedirsText(rs)| && Follows(s, e, STOPS)
    ensures ParseExec(s, p) == Ok(d, SkipBlanks(s, e)) && Show(s, d) == Wrap(b, rs)
    decreases Size(b), 3
  {
    var q := p + 1;
    var z := q + |LineText(b)|;
    assert UnitText(b) == "(" + (LineText(b) + ")");
    HasSplit(s, p, "(", LineText(b) + ")", q);
    HasSplit(s, q, LineText(b), ")", z);
    assert s[p + 0] == "("[0] && s[z + 0] == ")"[0];
    TokenSkip(s, z, SkipBlanks(s, z));
    var c := LineAt(s, q, b, z);
    d := RedirsAt(s, m, c, rs, e);
    BlockIs(s, p, q, z, m, c);
  }

  /** parseblock, once the line inside is parsed. */
  lemma BlockIs(s: string, p: nat, q: nat, z: nat, m: nat, c: Cmd<Span>)
    requires p < |s| && s[p] == '(' && q == p + 1 <= z < |s| && s[z] == ')' && m == z + 1 && ParseLine(s, q) == Ok(c, z)
    ensures ParseExec(s, p) == Redirs(s, m, c)
  {
    SymbolAt(s, p);
    InsideIs(s, p, SkipBlanks(s, q), q, z, m, c);
  }

  lemma InsideIs(s: string, p: nat, b: nat, q: nat, z: nat, m: nat, c: Cmd<Span>)
    requires p < q <= z < |s| && Peek(s, p, {'('}) && b == GetToken(s, p).next == SkipBlanks(s, q)
    requires ParseLine(s, q) == Ok(c, z)
    requires s[z] == ')' && m == z + 1
    ensures ParseBlock(s, p) == Redirs(s, m, c)
  {
    LineSkip(s, q, b);
    SymbolAt(s, z);
    RedirsSkip(s, m, SkipBlanks(s, m), c);
  }

  lemma {:induction false} PipeAt(s: string, p: nat, t: Tree, e: nat) returns (d: Cmd<Span>)
    requires TreeOk(t) && Has(s, p, PipeText(t)) && e == p + |PipeText(t)| && Follows(s, e, {')', '&', ';'})
    ensures ParsePipe(s, p) == Ok(d, SkipBlanks(s, e)) && Show(s, d) == t
    decreases Size(t), if t.Pipe? then 0 else 5
  {
    if t.Pipe? {
      var m := p + |UnitText(t.left)|;
      var q := m + 1;
      assert PipeText(t) == UnitText(t.left) + ("|" + PipeText(t.right));
      HasSplit(s, p, UnitText(t.left), "|" + PipeText(t.right), m);
      HasSplit(s, m, "|", PipeText(t.right), q);
      assert s[m + 0] == "|"[0];
      SymbolAt(s, m);
      var c := UnitAt(s, p, t.left, m);
      LineSkip(s, q, SkipBlanks(s, q));
      var r := PipeAt(s, q, t.right, e);
      d := Pipe(c, r);
    } else {
      d := UnitAt(s, p, t, e);
      TokenSkip(s, e, SkipBlanks(s, e));
    }
  }

  /** A command without its '&'s, and how many there are. */
  function CoreOf(t: Tree): Tree { if t.Back? then CoreOf(t.cmd) else t }

  function Depth(t: Tree): nat { if t.Back? then 1 + Depth(t.cmd) else 0 }

  function Backed<W>(c: Cmd<W>, n: nat): Cmd<W> { if n == 0 then c else Back(Backed(c, n - 1)) }

  function Amps(n: nat): string { if n == 0 then "" else Amps(n - 1) + "&" }

  lemma {:induction false} BackParts(t: Tree)
    requires TreeOk(t)
    ensures !CoreOf(t).Back? && TreeOk(CoreOf(t)) && Backed(CoreOf(t), Depth(t)) == t
    ensures BackText(t) == PipeText(CoreOf(t)) + Amps(Depth(t))
    ensures if t.Back? then Size(CoreOf(t)) < Size(t) else CoreOf(t) == t
  {
    if t.Back? {
      BackParts(t.cmd);
      Assoc(PipeText(CoreOf(t)), Amps(Depth(t.cmd)), "&");
    } else {
      assert PipeText(t) + Amps(0) == PipeText(t);
    }
  }

  lemma {:induction false} AmpsAre(n: nat)
    ensures |Amps(n)| == n && forall k | 0 <= k < n :: Amps(n)[k] == '&'
  {
    if n > 0 {
      AmpsAre(n - 1);
    }
  }

  predicate AmpsAt(s: string, p: nat, n: nat)
    decreases n
  {
    n == 0 || (p < |s| && s[p] == '&' && AmpsAt(s, p + 1, n - 1))
  }

  lemma {:induction false} AmpsThere(s: string, p: nat, n: nat)
    requires p + n <= |s| && forall k | p <= k < p + n :: s[k] == '&'
    ensures AmpsAt(s, p, n)
    decreases n
  {
    if n > 0 {
      AmpsThere(s, p + 1, n - 1);
    }
  }

  /** n '&'s from p on, before something else. */
  lemma {:induction false} BacksAt(s: string, p: nat, c: Cmd<Span>, n: nat, e: nat)
    requires e == p + n && AmpsAt(s, p, n) && Follows(s, e, {')', ';'})
    ensures Backs(s, p, c) == Ok(Backed(c, n), SkipBlanks(s, e))
    decreases n
  {
    if n > 0 {
      BacksStep(s, p, c, p + 1);
      BacksAt(s, p + 1, Back(c), n - 1, e);
      BackedIn(c, n - 1);
    }
  }

  lemma BacksStep(s: string, p: nat, c: Cmd<Span>, q: nat)
    requires p < |s| && s[p] == '&' && q == p + 1
    ensures Backs(s, p, c) == Backs(s, q, Back(c))
  {
    SymbolAt(s, p);
    BacksSkip(s, q, SkipBlanks(s, q), Back(c));
  }

  lemma {:induction false} BackedIn(c: Cmd<Span>, n: nat)
    ensures Backed(Back(c), n) == Back(Backed(c, n))
  {
    if n > 0 {
      BackedIn(c, n - 1);
    }
  }

  lemma {:induction false} BackedShow(s: string, c: Cmd<Span>, n: nat)
    ensures Show(s, Backed(c, n)) == Backed(Show(s, c), n)
  {
    if n > 0 {
      BackedShow(s, c, n - 1);
    }
  }

  lemma BacksSkip(s: string, p: nat, q: nat, c: Cmd<Span>)
    requires p <= |s| && q == SkipBlanks(s, p)
    ensures Backs(s, q, c) == Backs(s, p, c)
  {
    TokenSkip(s, p, q);
  }

  /** The part of a line up to ';': parsepipe and the loop over '&'. */
  lemma {:induction false} BackAt(s: string, p: nat, t: Tree, e: nat) returns (c: Cmd<Span>, q: nat, d: Cmd<Span>)
    requires TreeOk(t) && Has(s, p, BackText(t)) && e == p + |BackText(t)| && Follows(s, e, {')', ';'})
    ensures q <= |s| && ParsePipe(s, p) == Ok(c, q) && Backs(s, q, c) == Ok(d, SkipBlanks(s, e)) && Show(s, d) == t
    decreases Size(t), if t.Back? || t.Pipe? then 1 else 6
  {
    BackParts(t);
    var u, n := CoreOf(t), Depth(t);
    var m := p + |PipeText(u)|;
    HasSplit(s, p, PipeText(u), Amps(n), m);
    AmpsAre(n);
    forall k | m <= k < e
      ensures s[k] == '&'
    {
      assert s[m + (k - m)] == Amps(n)[k - m];
    }
    AmpsThere(s, m, n);
    c := PipeAt(s, p, u, m);
    q := SkipBlanks(s, m);
    BacksAt(s, m, c, n, e);
    BacksSkip(s, m, q, c);
    d := Backed(c, n);
    BackedShow(s, c, n);
  }

  lemma {:induction false} LineAt(s: string, p: nat, t: Tree, e: nat) returns (d: Cmd<Span>)
    requires TreeOk(t) && Has(s, p, LineText(t)) && e == p + |LineText(t)| && Follows(s, e, {')'})
    ensures ParseLine(s, p) == Ok(d, SkipBlanks(s, e)) && Show(s, d) == t
    decreases Size(t), if t.List? then 0 else if t.Back? || t.Pipe? then 2 else 7
  {
    if t.List? {
      var m := p + |BackText(t.left)|;
      var q := m + 1;
      assert LineText(t) == BackText(t.left) + (";" + LineText(t.right));
      HasSplit(s, p, BackText(t.left), ";" + LineText(t.right), m);
      HasSplit(s, m, ";", LineText(t.right), q);
      assert s[m + 0] == ";"[0];
      SymbolAt(s, m);
      var c, z, l := BackAt(s, p, t.left, m);
      LineSkip(s, q, SkipBlanks(s, q));
      var r := LineAt(s, q, t.right, e);
      d := List(l, r);
    } else {
      var c, z;
      c, z, d := BackAt(s, p, t, e);
      TokenSkip(s, e, SkipBlanks(s, e));
    }
  }

  /** Parsing the text of any command gives that command. */
  lemma RoundTrip(t: Tree)
    requires TreeOk(t)
    ensures ParseCmd(LineText(t)).Ok? && Show(LineText(t), ParseCmd(LineText(t)).cmd) == t
  {
    var s := LineText(t);
    var d := LineAt(s, 0, t, |s|);
  }
}
