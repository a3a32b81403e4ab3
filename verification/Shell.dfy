/** sh.c working in place: the parsers advance a position, and nulterminate writes into the line. */
module Shell {
  import opened ShellSpec

  // The words of a parsed line

  /** A word as gettoken finds it: word characters, as many as there are. */
  predicate IsWord(s: string, w: Span) {
    && w.start < w.end <= |s| && (forall k | w.start <= k < w.end :: WordChar(s[k]))
    && (w.end < |s| ==> !WordChar(s[w.end]))
  }

  predicate Words(s: string, c: Cmd<Span>) {
    match c
    case Exec(args) => forall i | 0 <= i < |args| :: IsWord(s, args[i])
    case Redir(d, f, _) => Words(s, d) && IsWord(s, f)
    case Pipe(l, r) => Words(s, l) && Words(s, r)
    case List(l, r) => Words(s, l) && Words(s, r)
    case Back(d) => Words(s, d)
  }

  lemma {:induction false} SkipWordChars(s: string, p: nat)
    requires p <= |s|
    ensures forall k | p <= k < SkipWord(s, p) :: WordChar(s[k])
    decreases |s| - p
  {
    if p < |s| && WordChar(s[p]) {
      SkipWordChars(s, p + 1);
    }
  }

  lemma TokenIsWord(s: string, p: nat)
    requires p <= |s|
    ensures GetToken(s, p).kind == 'a' ==> IsWord(s, GetToken(s, p).span)
  {
    SkipWordChars(s, SkipBlanks(s, p));
  }

  lemma {:induction false} RedirsWords(s: string, p: nat, c: Cmd<Span>)
    requires p <= |s| && Words(s, c)
    ensures Redirs(s, p, c).Ok? ==> Words(s, Redirs(s, p, c).cmd)
    decreases |s| - p
  {
    if Peek(s, p, {'<', '>'}) {
      var t := GetToken(s, p);
      var f := GetToken(s, t.next);
      TokenIsWord(s, t.next);
      if f.kind == 'a' {
        RedirsWords(s, f.next, Redir(c, f.span, t.kind == '<'));
      }
    }
  }

  lemma {:induction false} AddArgWords(s: string, c: Cmd<Span>, a: Span)
    requires Words(s, c) && IsWord(s, a)
    ensures Words(s, AddArg(c, a))
  {
    match c {
      case Redir(d, _, _) => AddArgWords(s, d, a);
      case _ =>
    }
  }

  lemma {:induction false} ArgsWords(s: string, p: nat, c: Cmd<Span>, n: nat)
    requires p <= |s| && Words(s, c)
    ensures Args(s, p, c, n).Ok? ==> Words(s, Args(s, p, c, n).cmd)
    decreases |s| - p
  {
    var t := GetToken(s, p);
    if !Peek(s, p, {'|', ')', '&', ';'}) && t.kind == 'a' && n + 1 < MAXARGS {
      TokenIsWord(s, p);
      AddArgWords(s, c, t.span);
      RedirsWords(s, t.next, AddArg(c, t.span));
      match Redirs(s, t.next, AddArg(c, t.span)) {
        case Panic =>
        case Ok(d, q) => ArgsWords(s, q, d, n + 1);
      }
    }
  }

  lemma {:induction false} BacksWords(s: string, p: nat, c: Cmd<Span>)
    requires p <= |s| && Words(s, c)
    ensures Words(s, Backs(s, p, c).cmd)
    decreases |s| - p
  {
    if Peek(s, p, {'&'}) {
      BacksWords(s, GetToken(s, p).next, Back(c));
    }
  }

  lemma {:induction false} ExecWords(s: string, p: nat)
    requires p <= |s|
    ensures ParseExec(s, p).Ok? ==> Words(s, ParseExec(s, p).cmd)
    decreases |s| - p, 1
  {
    if Peek(s, p, {'('}) {
      var q := GetToken(s, p).next;
      LineWords(s, q);
      match ParseLine(s, q) {
        case Panic =>
        case Ok(c, r) =>
          if Peek(s, r, {')'}) {
            RedirsWords(s, GetToken(s, r).next, c);
          }
      }
    } else {
      RedirsWords(s, p, Exec([]));
      match Redirs(s, p, Exec([])) {
        case Panic =>
        case Ok(c, q) => ArgsWords(s, q, c, 0);
      }
    }
  }

  lemma {:induction false} PipeWords(s: string, p: nat)
    requires p <= |s|
    ensures ParsePipe(s, p).Ok? ==> Words(s, ParsePipe(s, p).cmd)
    decreases |s| - p, 2
  {
    ExecWords(s, p);
    match ParseExec(s, p) {
      case Panic =>
      case Ok(c, q) =>
        if Peek(s, q, {'|'}) {
          PipeWords(s, GetToken(s, q).next);
        }
    }
  }

  /** Every word of a parsed command is a whole word of the line. */
  lemma {:induction false} LineWords(s: string, p: nat)
    requires p <= |s|
    ensures ParseLine(s, p).Ok? ==> Words(s, ParseLine(s, p).cmd)
    decreases |s| - p, 3
  {
    PipeWords(s, p);
    match ParsePipe(s, p) {
      case Panic =>
      case Ok(c, q) =>
        BacksWords(s, q, c);
        var b := Backs(s, q, c);
        if Peek(s, b.pos, {';'}) {
          LineWords(s, GetToken(s, b.pos).next);
        }
    }
  }

  // Reading the words as C strings

  /** The characters from p up to the next NUL. */
  function CString(b: seq<char>, p: nat): string
    requires p <= |b|
    decreases |b| - p
  {
    if p == |b| || b[p] == '\0' then "" else [b[p]] + CString(b, p + 1)
  }

  lemma {:induction false} CStringIs(b: seq<char>, p: nat, e: nat)
    requires p <= e < |b| && b[e] == '\0' && forall k | p <= k < e :: b[k] != '\0'
    ensures CString(b, p) == b[p..e]
    decreases e - p
  {
    if p < e {
      CStringIs(b, p + 1, e);
      assert b[p..e] == [b[p]] + b[p + 1..e];
    }
  }

  /** Where nulterminate writes. */
  function Ends(c: Cmd<Span>): set<nat> {
    match c
    case Exec(args) => set i | 0 <= i < |args| :: args[i].end
    case Redir(d, f, _) => Ends(d) + {f.end}
    case Pipe(l, r) => Ends(l) + Ends(r)
    case List(l, r) => Ends(l) + Ends(r)
    case Back(d) => Ends(d)
  }

  /** Those places are between words: none lies inside a word. */
  lemma {:induction false} EndsOutside(s: string, c: Cmd<Span>, k: nat)
    requires Words(s, c) && k in Ends(c)
    ensures k <= |s| && (k < |s| ==> !WordChar(s[k]))
  {
    match c {
      case Exec(args) =>
      case Redir(d, f, _) =>
        if k in Ends(d) {
          EndsOutside(s, d, k);
        }
      case Pipe(l, r) =>
        if k in Ends(l) {
          EndsOutside(s, l, k);
        } else {
          EndsOutside(s, r, k);
        }
      case List(l, r) =>
        if k in Ends(l) {
          EndsOutside(s, l, k);
        } else {
          EndsOutside(s, r, k);
        }
      case Back(d) => EndsOutside(s, d, k);
    }
  }

  /** A word of the command. */
  predicate WordOf(c: Cmd<Span>, w: Span) {
    match c
    case Exec(args) => w in args
    case Redir(d, f, _) => WordOf(d, w) || w == f
    case Pipe(l, r) => WordOf(l, w) || WordOf(r, w)
    case List(l, r) => WordOf(l, w) || WordOf(r, w)
    case Back(d) => WordOf(d, w)
  }

  lemma {:induction false} WordOfIs(s: string, c: Cmd<Span>, w: Span)
    requires Words(s, c) && WordOf(c, w)
    ensures IsWord(s, w) && w.end in Ends(c)
  {
    match c {
      case Exec(args) =>
        var i :| 0 <= i < |args| && args[i] == w;
      case Redir(d, f, _) =>
        if WordOf(d, w) {
          WordOfIs(s, d, w);
        }
      case Pipe(l, r) =>
        if WordOf(l, w) {
          WordOfIs(s, l, w);
        } else {
          WordOfIs(s, r, w);
        }
      case List(l, r) =>
        if WordOf(l, w) {
          WordOfIs(s, l, w);
        } else {
          WordOfIs(s, r, w);
        }
      case Back(d) => WordOfIs(s, d, w);
    }
  }

  /** The line with its NUL, after nulterminate. */
  predicate Terminated(s: string, c: Cmd<Span>, b: seq<char>) {
    |b| == |s| + 1 && forall k | 0 <= k <= |s| :: b[k] == if k in Ends(c) || k == |s| then '\0' else s[k]
  }

  lemma WordUntouched(s: string, c: Cmd<Span>, w: Span, k: nat)
    requires Words(s, c) && IsWord(s, w) && w.start <= k < w.end
    ensures k !in Ends(c)
  {
    if k in Ends(c) {
      EndsOutside(s, c, k);
    }
  }

  /** Every argument and file name now reads as exactly its word. */
  lemma WordsReadBack(s: string, c: Cmd<Span>, b: seq<char>, w: Span)
    requires Words(s, c) && '\0' !in s && Terminated(s, c, b) && WordOf(c, w)
    ensures w.start <= w.end <= |s| && CString(b, w.start) == s[w.start..w.end]
  {
    WordOfIs(s, c, w);
    forall k | w.start <= k < w.end
      ensures b[k] == s[k] && s[k] != '\0'
    {
      WordUntouched(s, c, w, k);
    }
    CStringIs(b, w.start, w.end);
    SameSlice(b, s, w.start, w.end);
  }

  lemma SameSlice(b: seq<char>, s: string, p: nat, e: nat)
    requires p <= e <= |s| && e <= |b| && forall k | p <= k < e :: b[k] == s[k]
    ensures b[p..e] == s[p..e]
  {
  }

  // The parser

  /** A turn of parseexec's loop. */
  lemma ArgsStep(s: string, p: nat, c: Cmd<Span>, n: nat, next: nat, t: Token, d: Cmd<Span>, q: nat)
    requires p <= |s| && !Peek(s, p, {'|', ')', '&', ';'}) && t == GetToken(s, p) && t.kind == 'a'
    requires next == n + 1 < MAXARGS
    requires Redirs(s, t.next, AddArg(c, t.span)) == Ok(d, q)
    ensures q <= |s| && Args(s, p, c, n) == Args(s, SkipBlanks(s, q), d, next)
  {
    ArgsSkip(s, q, SkipBlanks(s, q), d, next);
  }

  lemma ArgsPanic(s: string, p: nat, c: Cmd<Span>, n: nat, t: Token)
    requires p <= |s| && !Peek(s, p, {'|', ')', '&', ';'}) && t == GetToken(s, p) && t.kind != '\0'
    requires t.kind != 'a' || n + 1 >= MAXARGS || Redirs(s, t.next, AddArg(c, t.span)).Panic?
    ensures Args(s, p, c, n) == Panic
  {
  }

  /** The line and the position *ps. */
  class Parser {
    const s: string
    var pos: nat

    constructor (line: string)
      ensures s == line && pos == 0
    {
      s := line;
      pos := 0;
    }

    method SkipSpace()
      requires pos <= |s|
      modifies this
      ensures pos == SkipBlanks(s, old(pos))
    {
      while pos < |s| && Blank(s[pos])
        invariant pos <= |s| && SkipBlanks(s, pos) == SkipBlanks(s, old(pos))
      {
        pos := pos + 1;
      }
    }

    /** peek */
    method Look(toks: set<char>) returns (r: bool)
      requires pos <= |s|
      modifies this
      ensures pos == SkipBlanks(s, old(pos)) && r == Peek(s, old(pos), toks)
    {
      SkipSpace();
      return pos < |s| && s[pos] in toks;
    }

    /** gettoken */
    method Next() returns (t: Token)
      requires pos <= |s|
      modifies this
      ensures t == GetToken(s, old(pos)) && pos == t.next
    {
      SkipSpace();
      var q := pos;
      var kind := if pos < |s| then s[pos] else '\0';
      if pos == |s| {
      } else if kind == '>' {
        pos := pos + 1;
        if pos < |s| && s[pos] == '>' {
          kind := '+';
          pos := pos + 1;
        }
      } else if Symbol(kind) {
        pos := pos + 1;
      } else {
        kind := 'a';
        while pos < |s| && WordChar(s[pos])
          invariant q <= pos <= |s| && SkipWord(s, pos) == SkipWord(s, q)
        {
          pos := pos + 1;
        }
      }
      var e := pos;
      SkipSpace();
      return Token(kind, Span(q, e), pos);
    }

    /** parseredirs */
    method ReadRedirs(cmd: Cmd<Span>) returns (ok: bool, c: Cmd<Span>)
      requires pos <= |s|
      modifies this
      ensures Redirs(s, old(pos), cmd) == if ok then Ok(c, pos) else Panic
      ensures ok ==> pos <= |s|
    {
      c := cmd;
      var more := Look({'<', '>'});
      while more
        invariant pos <= |s| && more == Peek(s, pos, {'<', '>'}) && pos == SkipBlanks(s, pos)
        invariant Redirs(s, pos, c) == Redirs(s, old(pos), cmd)
        decreases |s| - pos
      {
        var t := Next();
        var f := Next();
        if f.kind != 'a' {
          return false, c;
        }
        c := Redir(c, f.span, t.kind == '<');
        more := Look({'<', '>'});
      }
      return true, c;
    }

    /** parseexec's loop. */
    method ReadArgs(cmd: Cmd<Span>) returns (ok: bool, c: Cmd<Span>)
      requires pos <= |s|
      modifies this
      ensures Args(s, old(pos), cmd, 0) == if ok then Ok(c, pos) else Panic
      ensures ok ==> pos <= |s|
    {
      c := cmd;
      var argc := 0;
      ArgsSkip(s, pos, SkipBlanks(s, pos), c, argc);
      var stop := Look({'|', ')', '&', ';'});
      while !stop
        invariant pos <= |s| && stop == Peek(s, pos, {'|', ')', '&', ';'}) && pos == SkipBlanks(s, pos)
        invariant Args(s, pos, c, argc) == Args(s, old(pos), cmd, 0)
        decreases |s| - pos
      {
        ghost var p, d := pos, c;
        var t := Next();
        if t.kind == '\0' {
          return true, c;
        }
        if t.kind != 'a' {
          ArgsPanic(s, p, d, argc, t);
          return false, c;
        }
        c := AddArg(c, t.span);
        var next := argc + 1;
        if next >= MAXARGS {
          ArgsPanic(s, p, d, argc, t);
          return false, c;
        }
        ok, c := ReadRedirs(c);
        if !ok {
          ArgsPanic(s, p, d, argc, t);
          return;
        }
        ArgsStep(s, p, d, argc, next, t, c, pos);
        argc := next;
        stop := Look({'|', ')', '&', ';'});
      }
      return true, c;
    }

    /** parseexec */
    method ReadExec() returns (ok: bool, c: Cmd<Span>)
      requires pos <= |s|
      modifies this
      ensures ParseExec(s, old(pos)) == if ok then Ok(c, pos) else Panic
      ensures ok ==> old(pos) <= pos <= |s|
      decreases |s| - pos, 1
    {
      var block := Look({'('});
      if block {
        ok, c := ReadBlock();
        return;
      }
      ok, c := ReadRedirs(Exec([]));
      if ok {
        ok, c := ReadArgs(c);
      }
    }

    /** parseblock */
    method ReadBlock() returns (ok: bool, c: Cmd<Span>)
      requires pos <= |s|
      modifies this
      ensures ParseBlock(s, old(pos)) == if ok then Ok(c, pos) else Panic
      ensures ok ==> old(pos) <= pos <= |s|
      decreases |s| - pos, 0
    {
      c := Exec([]);
      ok := Look({'('});
      if !ok {
        return;
      }
      var t := Next();
      ok, c := ReadLine();
      if !ok {
        return;
      }
      ok := Look({')'});
      if !ok {
        return;
      }
      t := Next();
      ok, c := ReadRedirs(c);
    }

    /** parsepipe */
    method ReadPipe() returns (ok: bool, c: Cmd<Span>)
      requires pos <= |s|
      modifies this
      ensures ParsePipe(s, old(pos)) == if ok then Ok(c, pos) else Panic
      ensures ok ==> old(pos) <= pos <= |s|
      decreases |s| - pos, 2
    {
      ok, c := ReadExec();
      if !ok {
        return;
      }
      var more := Look({'|'});
      if more {
        var t := Next();
        var d;
        ok, d := ReadPipe();
        c := Pipe(c, d);
      }
    }

    /** parseline */
    method ReadLine() returns (ok: bool, c: Cmd<Span>)
      requires pos <= |s|
      modifies this
      ensures ParseLine(s, old(pos)) == if ok then Ok(c, pos) else Panic
      ensures ok ==> old(pos) <= pos <= |s|
      decreases |s| - pos, 3
    {
      ok, c := ReadPipe();
      if !ok {
        return;
      }
      c := ReadBacks(c);
      var more := Look({';'});
      if more {
        var t := Next();
        var d;
        ok, d := ReadLine();
        c := List(c, d);
      }
    }

    /** parseline's loop over '&'. */
    method ReadBacks(cmd: Cmd<Span>) returns (c: Cmd<Span>)
      requires pos <= |s|
      modifies this
      ensures Backs(s, old(pos), cmd) == Ok(c, pos)
    {
      c := cmd;
      var more := Look({'&'});
      while more
        invariant pos <= |s| && more == Peek(s, pos, {'&'}) && pos == SkipBlanks(s, pos)
        invariant Backs(s, pos, c) == Backs(s, old(pos), cmd)
        decreases |s| - pos
      {
        var t := Next();
        c := Back(c);
        more := Look({'&'});
      }
    }
  }

  /** nulterminate */
  method NulTerminate(b: array<char>, c: Cmd<Span>)
    requires forall k | k in Ends(c) :: k < b.Length
    modifies b
    ensures forall k | 0 <= k < b.Length :: b[k] == if k in Ends(c) then '\0' else old(b[k])
    decreases c
  {
    match c {
      case Exec(args) =>
        for i := 0 to |args|
          invariant forall k | 0 <= k < b.Length ::
                      b[k] == if exists j | 0 <= j < i :: args[j].end == k then '\0' else old(b[k])
        {
          assert args[i].end in Ends(c);
          b[args[i].end] := '\0';
        }
      case Redir(d, f, _) =>
        assert f.end in Ends(c) && forall k | k in Ends(d) :: k in Ends(c);
        NulTerminate(b, d);
        b[f.end] := '\0';
      case Pipe(l, r) =>
        assert forall k | k in Ends(l) + Ends(r) :: k in Ends(c);
        NulTerminate(b, l);
        NulTerminate(b, r);
      case List(l, r) =>
        assert forall k | k in Ends(l) + Ends(r) :: k in Ends(c);
        NulTerminate(b, l);
        NulTerminate(b, r);
      case Back(d) =>
        assert forall k | k in Ends(d) :: k in Ends(c);
        NulTerminate(b, d);
    }
  }

  /** parsecmd on a line and its NUL: a command all of whose words read back from the buffer. */
  method ParseCommand(b: array<char>, n: nat) returns (ok: bool, c: Cmd<Span>)
    requires n + 1 == b.Length && b[n] == '\0' && '\0' !in b[..n]
    modifies b
    ensures ParseCmd(old(b[..n])) == if ok then Ok(c, n) else Panic
    ensures !ok ==> b[..] == old(b[..])
    ensures ok ==> forall w: Span | WordOf(c, w) ::
                     w.start <= w.end <= n && CString(b[..], w.start) == old(b[..n])[w.start..w.end]
  {
    ghost var s := b[..n];
    var p := new Parser(b[..n]);
    ok, c := p.ReadLine();
    if !ok {
      return;
    }
    var rest := p.Look({});
    if p.pos != n {
      return false, c;
    }
    LineWords(s, 0);
    forall k | k in Ends(c)
      ensures k <= n
    {
      EndsOutside(s, c, k);
    }
    NulTerminate(b, c);
    assert Terminated(s, c, b[..]);
    forall w: Span | WordOf(c, w)
      ensures w.start <= w.end <= n && CString(b[..], w.start) == s[w.start..w.end]
    {
      WordsReadBack(s, c, b[..], w);
    }
  }
}
