/** sh.c's grammar: tokens and the recursive-descent parser as functions of the line and a position. */
module ShellSpec {

  /** A token's place in the line. */
  datatype Span = Span(start: nat, end: nat)

  /** A command; its words are spans of the line, or strings. A Redir reads its file, or writes it. */
  datatype Cmd<W> =
    | Exec(args: seq<W>)
    | Redir(cmd: Cmd<W>, file: W, input: bool)
    | Pipe(left: Cmd<W>, right: Cmd<W>)
    | List(left: Cmd<W>, right: Cmd<W>)
    | Back(cmd: Cmd<W>)

  const MAXARGS := 10

  predicate Blank(c: char) { c == ' ' || c == '\t' || c == '\r' || c == '\n' || c == '\U{0b}' }

  predicate Symbol(c: char) { c == '<' || c == '|' || c == '>' || c == '&' || c == ';' || c == '(' || c == ')' }

  predicate WordChar(c: char) { !Blank(c) && !Symbol(c) }

  /** The character at p; NUL at the end. */
  function At(s: string, p: nat): char { if p < |s| then s[p] else '\0' }

  function SkipBlanks(s: string, p: nat): (q: nat)
    requires p <= |s|
    ensures p <= q <= |s| && (q < |s| ==> !Blank(s[q]))
    decreases |s| - p
  {
    if p < |s| && Blank(s[p]) then SkipBlanks(s, p + 1) else p
  }

  function SkipWord(s: string, p: nat): (q: nat)
    requires p <= |s|
    ensures p <= q <= |s| && (q < |s| ==> !WordChar(s[q]))
    decreases |s| - p
  {
    if p < |s| && WordChar(s[p]) then SkipWord(s, p + 1) else p
  }

  /** A token: what gettoken returns ('a' for a word, '+' for >>, NUL at the end), its span, and where the next
      begins. */
  datatype Token = Token(kind: char, span: Span, next: nat)

  /** Where the token that begins at p ends. */
  function TokenEnd(s: string, p: nat): (e: nat)
    requires p <= |s|
    ensures p <= e <= |s| && (p < |s| && !Blank(s[p]) ==> p < e)
  {
    var c := At(s, p);
    if p == |s| then p
    else if c == '>' && At(s, p + 1) == '>' then p + 2
    else if Symbol(c) then p + 1
    else SkipWord(s, p)
  }

  /** gettoken */
  function GetToken(s: string, p: nat): (t: Token)
    requires p <= |s|
    ensures p <= t.span.start <= t.span.end <= t.next <= |s| && (t.kind != '\0' ==> p < t.next)
  {
    var q := SkipBlanks(s, p);
    var e := TokenEnd(s, q);
    var c := At(s, q);
    var kind := if q == |s| then '\0' else if c == '>' && e == q + 2 then '+' else if Symbol(c) then c else 'a';
    Token(kind, Span(q, e), SkipBlanks(s, e))
  }

  /** peek: the first character that is not blank is one of toks. */
  predicate Peek(s: string, p: nat, toks: set<char>)
    requires p <= |s|
  {
    SkipBlanks(s, p) < |s| && s[SkipBlanks(s, p)] in toks
  }

  /** A parse: a command and where it stopped, or one of the parser's panics. */
  datatype Parse = Ok(cmd: Cmd<Span>, pos: nat) | Panic

  /** parseredirs' loop. */
  function Redirs(s: string, p: nat, cmd: Cmd<Span>): (r: Parse)
    requires p <= |s|
    ensures r.Ok? ==> p <= r.pos <= |s|
    decreases |s| - p
  {
    if !Peek(s, p, {'<', '>'}) then Ok(cmd, SkipBlanks(s, p))
    else
      var t := GetToken(s, p);
      var f := GetToken(s, t.next);
      if f.kind != 'a' then Panic
      else Redirs(s, f.next, Redir(cmd, f.span, t.kind == '<'))
  }

  /** One more argument for the command inside the redirections. */
  function AddArg(cmd: Cmd<Span>, a: Span): Cmd<Span> {
    match cmd
    case Exec(args) => Exec(args + [a])
    case Redir(c, f, i) => Redir(AddArg(c, a), f, i)
    case _ => cmd
  }

  /** parseexec's loop, with n arguments so far. */
  function Args(s: string, p: nat, cmd: Cmd<Span>, n: nat): (r: Parse)
    requires p <= |s|
    ensures r.Ok? ==> p <= r.pos <= |s|
    decreases |s| - p
  {
    if Peek(s, p, {'|', ')', '&', ';'}) then Ok(cmd, SkipBlanks(s, p))
    else
      var t := GetToken(s, p);
      if t.kind == '\0' then Ok(cmd, t.next)
      else if t.kind != 'a' || n + 1 >= MAXARGS then Panic
      else
        match Redirs(s, t.next, AddArg(cmd, t.span))
        case Panic => Panic
        case Ok(c, q) => Args(s, q, c, n + 1)
  }

  /** parseexec */
  function ParseExec(s: string, p: nat): (r: Parse)
    requires p <= |s|
    ensures r.Ok? ==> p <= r.pos <= |s|
    decreases |s| - p, 1
  {
    if Peek(s, p, {'('}) then ParseBlock(s, p)
    else
      match Redirs(s, p, Exec([]))
      case Panic => Panic
      case Ok(c, q) => Args(s, q, c, 0)
  }

  /** parseblock */
  function ParseBlock(s: string, p: nat): (r: Parse)
    requires p <= |s|
    ensures r.Ok? ==> p <= r.pos <= |s|
    decreases |s| - p, 0
  {
    if !Peek(s, p, {'('}) then Panic
    else
      match ParseLine(s, GetToken(s, p).next)
      case Panic => Panic
      case Ok(c, q) => if Peek(s, q, {')'}) then Redirs(s, GetToken(s, q).next, c) else Panic
  }

  /** parsepipe */
  function ParsePipe(s: string, p: nat): (r: Parse)
    requires p <= |s|
    ensures r.Ok? ==> p <= r.pos <= |s|
    decreases |s| - p, 2
  {
    match ParseExec(s, p)
    case Panic => Panic
    case Ok(c, q) =>
      if Peek(s, q, {'|'}) then
        match ParsePipe(s, GetToken(s, q).next)
        case Panic => Panic
        case Ok(d, r) => Ok(Pipe(c, d), r)
      else Ok(c, SkipBlanks(s, q))
  }

  /** parseline's loop over '&'. */
  function Backs(s: string, p: nat, cmd: Cmd<Span>): (r: Parse)
    requires p <= |s|
    ensures r.Ok? && p <= r.pos <= |s|
    decreases |s| - p
  {
    if Peek(s, p, {'&'}) then Backs(s, GetToken(s, p).next, Back(cmd)) else Ok(cmd, SkipBlanks(s, p))
  }

  /** parseline */
  function ParseLine(s: string, p: nat): (r: Parse)
    requires p <= |s|
    ensures r.Ok? ==> p <= r.pos <= |s|
    decreases |s| - p, 3
  {
    match ParsePipe(s, p)
    case Panic => Panic
    case Ok(c, q) =>
      var b := Backs(s, q, c);
      if Peek(s, b.pos, {';'}) then
        match ParseLine(s, GetToken(s, b.pos).next)
        case Panic => Panic
        case Ok(d, r) => Ok(List(b.cmd, d), r)
      else Ok(b.cmd, SkipBlanks(s, b.pos))
  }

  /** parsecmd, up to nulterminate. */
  function ParseCmd(s: string): Parse {
    match ParseLine(s, 0)
    case Panic => Panic
    case Ok(c, q) => if SkipBlanks(s, q) == |s| then Ok(c, |s|) else Panic
  }

  // Skipping blanks first changes nothing

  lemma TokenSkip(s: string, p: nat, q: nat)
    requires p <= |s| && q == SkipBlanks(s, p)
    ensures SkipBlanks(s, q) == q && GetToken(s, q) == GetToken(s, p)
  {
  }

  lemma ArgsSkip(s: string, p: nat, q: nat, c: Cmd<Span>, n: nat)
    requires p <= |s| && q == SkipBlanks(s, p)
    ensures Args(s, q, c, n) == Args(s, p, c, n)
  {
    TokenSkip(s, p, q);
  }
}
