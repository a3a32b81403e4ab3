/** Nothing on a line is lost: what parsecmd builds accounts for every token of the line, once. */
module ShellTally {
  import opened ShellSpec

  /** What is counted: a word at its place, an operator, or how far the parentheses are open. */
  datatype Mark = Word(span: Span) | Less | Greater | Bar | Semicolon | Ampersand | Depth

  function One(b: bool): int { if b then 1 else 0 }

  function InToken(t: Token, m: Mark): int {
    match m
    case Word(w) => One(t.kind == 'a' && t.span == w)
    case Less => One(t.kind == '<')
    case Greater => One(t.kind == '>' || t.kind == '+')
    case Bar => One(t.kind == '|')
    case Semicolon => One(t.kind == ';')
    case Ampersand => One(t.kind == '&')
    case Depth => One(t.kind == '(') - One(t.kind == ')')
  }

  /** How often m occurs from p to the end of the line. */
  function InLine(s: string, p: nat, m: Mark): int
    requires p <= |s|
    decreases |s| - p
  {
    var t := GetToken(s, p);
    if t.kind == '\0' then 0 else InToken(t, m) + InLine(s, t.next, m)
  }

  function InWords(args: seq<Span>, m: Mark): int {
    if args == [] then 0 else InWords(args[..|args| - 1], m) + One(m == Word(args[|args| - 1]))
  }

  /** How often m occurs in a command; parentheses leave nothing. */
  function InCmd(c: Cmd<Span>, m: Mark): int {
    match c
    case Exec(args) => InWords(args, m)
    case Redir(d, f, input) => InCmd(d, m) + One(m == Word(f)) + One(m == if input then Less else Greater)
    case Pipe(l, r) => InCmd(l, m) + One(m == Bar) + InCmd(r, m)
    case List(l, r) => InCmd(l, m) + One(m == Semicolon) + InCmd(r, m)
    case Back(d) => InCmd(d, m) + One(m == Ampersand)
  }

  lemma SkipTally(s: string, p: nat, m: Mark)
    requires p <= |s|
    ensures InLine(s, SkipBlanks(s, p), m) == InLine(s, p, m)
  {
    TokenSkip(s, p, SkipBlanks(s, p));
  }

  /** What a parser read from p on went into what it built from c. */
  predicate Balanced(s: string, p: nat, c: Cmd<Span>, r: Parse, m: Mark)
    requires p <= |s|
  {
    r.Ok? ==> r.pos <= |s| && InLine(s, p, m) + InCmd(c, m) == InLine(s, r.pos, m) + InCmd(r.cmd, m)
  }

  lemma Chain(s: string, p: nat, c: Cmd<Span>, q: nat, d: Cmd<Span>, r: Parse, m: Mark)
    requires p <= |s| && q <= |s| && Balanced(s, p, c, Ok(d, q), m) && Balanced(s, q, d, r, m)
    ensures Balanced(s, p, c, r, m)
  {
  }

  /** One redirection read. */
  lemma RedirTally(s: string, p: nat, c: Cmd<Span>, m: Mark, t: Token, f: Token)
    requires p <= |s| && Peek(s, p, {'<', '>'}) && t == GetToken(s, p) && f == GetToken(s, t.next) && f.kind == 'a'
    ensures Balanced(s, p, c, Ok(Redir(c, f.span, t.kind == '<'), f.next), m)
  {
    assert InLine(s, p, m) == InToken(t, m) + InLine(s, t.next, m);
  }

  lemma {:induction false} RedirsTally(s: string, p: nat, c: Cmd<Span>, m: Mark)
    requires p <= |s|
    ensures Balanced(s, p, c, Redirs(s, p, c), m)
    decreases |s| - p
  {
    if !Peek(s, p, {'<', '>'}) {
      SkipTally(s, p, m);
    } else {
      var t := GetToken(s, p);
      var f := GetToken(s, t.next);
      if f.kind == 'a' {
        var d := Redir(c, f.span, t.kind == '<');
        RedirTally(s, p, c, m, t, f);
        RedirsTally(s, f.next, d, m);
        Chain(s, p, c, f.next, d, Redirs(s, f.next, d), m);
      }
    }
  }

  /** A simple command: redirections around its arguments. */
  predicate Simple(c: Cmd<Span>) { c.Exec? || (c.Redir? && Simple(c.cmd)) }

  lemma {:induction false} RedirsSimple(s: string, p: nat, c: Cmd<Span>)
    requires p <= |s| && Simple(c)
    ensures Redirs(s, p, c).Ok? ==> Simple(Redirs(s, p, c).cmd)
    decreases |s| - p
  {
    if Peek(s, p, {'<', '>'}) {
      var t := GetToken(s, p);
      var f := GetToken(s, t.next);
      if f.kind == 'a' {
        RedirsSimple(s, f.next, Redir(c, f.span, t.kind == '<'));
      }
    }
  }

  lemma {:induction false} AddArgTally(c: Cmd<Span>, a: Span, m: Mark)
    requires Simple(c)
    ensures Simple(AddArg(c, a)) && InCmd(AddArg(c, a), m) == InCmd(c, m) + One(m == Word(a))
  {
    match c {
      case Exec(args) => assert (args + [a])[..|args|] == args;
      case Redir(d, _, _) => AddArgTally(d, a, m);
    }
  }

  /** One more argument read. */
  lemma ArgTally(s: string, p: nat, c: Cmd<Span>, m: Mark, t: Token, r: Parse)
    requires p <= |s| && Simple(c) && t == GetToken(s, p) && t.kind == 'a' && r == Redirs(s, t.next, AddArg(c, t.span))
    ensures Balanced(s, p, c, r, m) && (r.Ok? ==> Simple(r.cmd))
  {
    AddArgTally(c, t.span, m);
    RedirsTally(s, t.next, AddArg(c, t.span), m);
    RedirsSimple(s, t.next, AddArg(c, t.span));
    assert InToken(t, m) == One(m == Word(t.span));
  }

  lemma StopTally(s: string, p: nat, c: Cmd<Span>, n: nat, m: Mark)
    requires p <= |s| && (Peek(s, p, {'|', ')', '&', ';'}) || GetToken(s, p).kind == '\0')
    ensures Balanced(s, p, c, Args(s, p, c, n), m)
  {
    SkipTally(s, p, m);
  }

  lemma {:induction false} ArgsTally(s: string, p: nat, c: Cmd<Span>, n: nat, m: Mark)
    requires p <= |s| && Simple(c)
    ensures Balanced(s, p, c, Args(s, p, c, n), m)
    decreases |s| - p
  {
    var t := GetToken(s, p);
    if Peek(s, p, {'|', ')', '&', ';'}) || t.kind == '\0' {
      StopTally(s, p, c, n, m);
    } else if t.kind == 'a' && n + 1 < MAXARGS {
      var r := Redirs(s, t.next, AddArg(c, t.span));
      ArgTally(s, p, c, m, t, r);
      if r.Ok? {
        var k := n + 1;
        ArgsTally(s, r.pos, r.cmd, k, m);
        Chain(s, p, c, r.pos, r.cmd, Args(s, r.pos, r.cmd, k), m);
      }
    }
  }

  lemma {:induction false} BacksTally(s: string, p: nat, c: Cmd<Span>, m: Mark)
    requires p <= |s|
    ensures Balanced(s, p, c, Backs(s, p, c), m)
    decreases |s| - p
  {
    SkipTally(s, p, m);
    if Peek(s, p, {'&'}) {
      BacksTally(s, GetToken(s, p).next, Back(c), m);
    }
  }

  lemma {:induction false} ExecTally(s: string, p: nat, m: Mark)
    requires p <= |s|
    ensures Balanced(s, p, Exec([]), ParseExec(s, p), m)
    decreases |s| - p, 1
  {
    if Peek(s, p, {'('}) {
      BlockTally(s, p, m);
    } else {
      RedirsTally(s, p, Exec([]), m);
      RedirsSimple(s, p, Exec([]));
      match Redirs(s, p, Exec([])) {
        case Panic =>
        case Ok(c, q) => ArgsTally(s, q, c, 0, m);
      }
    }
  }

  lemma {:induction false} BlockTally(s: string, p: nat, m: Mark)
    requires p <= |s|
    ensures Balanced(s, p, Exec([]), ParseBlock(s, p), m)
    decreases |s| - p, 0
  {
    if Peek(s, p, {'('}) {
      var q := GetToken(s, p).next;
      LineTally(s, q, m);
      match ParseLine(s, q) {
        case Panic =>
        case Ok(c, r) =>
          if Peek(s, r, {')'}) {
            RedirsTally(s, GetToken(s, r).next, c, m);
          }
      }
    }
  }

  lemma {:induction false} PipeTally(s: string, p: nat, m: Mark)
    requires p <= |s|
    ensures Balanced(s, p, Exec([]), ParsePipe(s, p), m)
    decreases |s| - p, 2
  {
    ExecTally(s, p, m);
    match ParseExec(s, p) {
      case Panic =>
      case Ok(c, q) =>
        SkipTally(s, q, m);
        if Peek(s, q, {'|'}) {
          PipeTally(s, GetToken(s, q).next, m);
        }
    }
  }

  lemma {:induction false} LineTally(s: string, p: nat, m: Mark)
    requires p <= |s|
    ensures Balanced(s, p, Exec([]), ParseLine(s, p), m)
    decreases |s| - p, 3
  {
    PipeTally(s, p, m);
    match ParsePipe(s, p) {
      case Panic =>
      case Ok(c, q) =>
        BacksTally(s, q, c, m);
        var b := Backs(s, q, c);
        SkipTally(s, b.pos, m);
        if Peek(s, b.pos, {';'}) {
          LineTally(s, GetToken(s, b.pos).next, m);
        }
    }
  }

  /** Every word of an accepted line, by its place, is exactly one argument or file name; every operator is exactly one
      node of its kind; and the parentheses match in number. */
  lemma NothingLost(s: string, m: Mark)
    ensures ParseCmd(s).Ok? ==> InLine(s, 0, m) == InCmd(ParseCmd(s).cmd, m)
    ensures ParseCmd(s).Ok? ==> InLine(s, 0, Depth) == 0
  {
    LineTally(s, 0, m);
    LineTally(s, 0, Depth);
    match ParseLine(s, 0) {
      case Panic =>
      case Ok(c, q) =>
        SkipTally(s, q, m);
        SkipTally(s, q, Depth);
        if SkipBlanks(s, q) == |s| {
          NoDepth(c);
        }
    }
  }

  lemma {:induction false} NoDepth(c: Cmd<Span>)
    ensures InCmd(c, Depth) == 0
  {
    match c {
      case Exec(args) => NoDepthWords(args);
      case Redir(d, _, _) => NoDepth(d);
      case Pipe(l, r) => NoDepth(l); NoDepth(r);
      case List(l, r) => NoDepth(l); NoDepth(r);
      case Back(d) => NoDepth(d);
    }
  }

  lemma {:induction false} NoDepthWords(args: seq<Span>)
    ensures InWords(args, Depth) == 0
  {
    if args != [] {
      NoDepthWords(args[..|args| - 1]);
    }
  }
}
