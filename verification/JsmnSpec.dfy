/** jsmn.h, default build, as a machine that takes one step per turn of jsmn_parse's loop. */
module JsmnSpec {

  datatype Type = Object | Array | String | Primitive

  datatype Tok = Tok(ty: Type, start: int, end: int, size: nat)

  /** The parser and the tokens made so far. */
  datatype St = St(pos: nat, toks: seq<Tok>, super: int) {
    predicate Valid() { -1 <= super < |toks| }
  }

  datatype Result = Count(n: nat) | NoMem | Inval | Part

  /** What one turn of the loop does: go on, or return an error with the parser as it was. */
  datatype Turn = Go(st: St) | Halt(error: Result)

  predicate IsOpen(t: Tok) { t.start != -1 && t.end == -1 }

  predicate IsContainer(t: Tok) { t.ty == Object || t.ty == Array }

  /** The last open token below n, or -1. */
  function LastOpen(toks: seq<Tok>, n: nat): (i: int)
    requires n <= |toks|
    ensures -1 <= i < n
    ensures i >= 0 ==> IsOpen(toks[i])
    ensures forall k | i < k < n :: !IsOpen(toks[k])
  {
    if n == 0 then -1 else if IsOpen(toks[n - 1]) then n - 1 else LastOpen(toks, n - 1)
  }

  /** The last open object or array, or -1. */
  function LastOpenContainer(toks: seq<Tok>, n: nat): (i: int)
    requires n <= |toks|
    ensures -1 <= i < n
  {
    if n == 0 then -1 else if IsContainer(toks[n - 1]) && IsOpen(toks[n - 1]) then n - 1
      else LastOpenContainer(toks, n - 1)
  }

  /** One more child for the superior token. */
  function Bump(toks: seq<Tok>, super: int): (r: seq<Tok>)
    requires -1 <= super < |toks|
    ensures |r| == |toks|
  {
    if super == -1 then toks else toks[super := toks[super].(size := toks[super].size + 1)]
  }

  // Strings

  datatype Scan = Close(at: nat) | BadChar | Cut

  predicate Hex(c: char) { '0' <= c <= '9' || 'A' <= c <= 'F' || 'a' <= c <= 'f' }

  predicate SimpleEscape(c: char) {
    c == '"' || c == '/' || c == '\\' || c == 'b' || c == 'f' || c == 'r' || c == 'n' || c == 't'
  }

  /** The hexadecimal digits of \uXXXX from i on, n of them still to come: where they stop, or a bad one. */
  function HexDigits(js: string, i: nat, n: nat): (r: Scan)
    requires i <= |js|
    ensures r.Close? ==> i <= r.at <= |js|
    decreases n
  {
    if n == 0 || i == |js| || js[i] == '\0' then Close(i)
    else if Hex(js[i]) then HexDigits(js, i + 1, n - 1)
    else BadChar
  }

  /** jsmn_parse_string's loop from i on, inside a string: its closing quote, or why there is none. */
  function ScanString(js: string, i: nat): (r: Scan)
    requires i <= |js|
    ensures r.Close? ==> i <= r.at < |js| && js[r.at] == '"'
    decreases |js| - i
  {
    if i == |js| || js[i] == '\0' then Cut
    else if js[i] == '"' then Close(i)
    else if js[i] == '\\' && i + 1 < |js| then
      if SimpleEscape(js[i + 1]) then ScanString(js, i + 2)
      else if js[i + 1] == 'u' then
        var h := HexDigits(js, i + 2, 4);
        if h.Close? then ScanString(js, h.at) else BadChar
      else BadChar
    else ScanString(js, i + 1)
  }

  // Primitives

  predicate Delimiter(c: char) {
    c == ':' || c == '\t' || c == '\r' || c == '\n' || c == ' ' || c == ',' || c == ']' || c == '}'
  }

  predicate Printable(c: char) { ' ' <= c <= '~' }

  /** jsmn_parse_primitive's loop from i on. */
  function ScanPrimitive(js: string, i: nat): (r: Scan)
    requires i <= |js|
    ensures r.Close? ==> i <= r.at <= |js|
    decreases |js| - i
  {
    if i == |js| || js[i] == '\0' || Delimiter(js[i]) then Close(i)
    else if !Printable(js[i]) then BadChar
    else ScanPrimitive(js, i + 1)
  }

  // The machine

  predicate Space(c: char) { c == '\t' || c == '\r' || c == '\n' || c == ' ' }

  predicate Punctuation(c: char) {
    c == '{' || c == '[' || c == '}' || c == ']' || c == '"' || Space(c) || c == ':' || c == ','
  }

  function OpenTurn(cap: nat, st: St, ty: Type): Turn
    requires st.Valid()
  {
    if |st.toks| >= cap then Halt(NoMem)
    else Go(St(st.pos + 1, Bump(st.toks, st.super) + [Tok(ty, st.pos, -1, 0)], |st.toks|))
  }

  function CloseTurn(st: St, ty: Type): Turn
    requires st.Valid()
  {
    var i := LastOpen(st.toks, |st.toks|);
    if i == -1 || st.toks[i].ty != ty then Halt(Inval)
    else Go(St(st.pos + 1, st.toks[i := st.toks[i].(end := st.pos + 1)], LastOpen(st.toks, i)))
  }

  /** A token that is complete as soon as it is made; `next` is where the loop goes on. */
  function LeafTurn(cap: nat, st: St, ty: Type, start: nat, end: nat, next: nat): Turn
    requires st.Valid()
  {
    if |st.toks| >= cap then Halt(NoMem)
    else Go(St(next, Bump(st.toks, st.super) + [Tok(ty, start, end, 0)], st.super))
  }

  function StringTurn(js: string, cap: nat, st: St): Turn
    requires st.Valid() && st.pos < |js|
  {
    match ScanString(js, st.pos + 1)
    case Close(e) => LeafTurn(cap, st, String, st.pos + 1, e, e + 1)
    case BadChar => Halt(Inval)
    case Cut => Halt(Part)
  }

  function PrimitiveTurn(js: string, cap: nat, st: St): Turn
    requires st.Valid() && st.pos < |js|
  {
    match ScanPrimitive(js, st.pos)
    case Close(e) => LeafTurn(cap, st, Primitive, st.pos, e, e)
    case BadChar => Halt(Inval)
    case Cut => Halt(Part)
  }

  function CommaTurn(st: St): Turn
    requires st.Valid()
  {
    var i := LastOpenContainer(st.toks, |st.toks|);
    if st.super != -1 && !IsContainer(st.toks[st.super]) && i != -1 then Go(St(st.pos + 1, st.toks, i))
    else Go(St(st.pos + 1, st.toks, st.super))
  }

  function Step(js: string, cap: nat, st: St): Turn
    requires st.Valid() && st.pos < |js|
  {
    var c := js[st.pos];
    if c == '{' then OpenTurn(cap, st, Object)
    else if c == '[' then OpenTurn(cap, st, Array)
    else if c == '}' then CloseTurn(st, Object)
    else if c == ']' then CloseTurn(st, Array)
    else if c == '"' then StringTurn(js, cap, st)
    else if Space(c) then Go(St(st.pos + 1, st.toks, st.super))
    else if c == ':' then Go(St(st.pos + 1, st.toks, |st.toks| - 1))
    else if c == ',' then CommaTurn(st)
    else PrimitiveTurn(js, cap, st)
  }

  /** The loop's guard. */
  predicate More(js: string, pos: nat) { pos < |js| && js[pos] != '\0' }

  lemma StepAdvances(js: string, cap: nat, st: St)
    requires st.Valid() && More(js, st.pos)
    ensures Step(js, cap, st).Go? ==>
              var st' := Step(js, cap, st).st;
              st'.Valid() && st.pos < st'.pos <= |js| && |st'.toks| <= |st.toks| + 1
  {
  }

  /** jsmn_parse from a given state: its result and the state it leaves. */
  function Run(js: string, cap: nat, st: St): (r: (Result, St))
    requires st.Valid()
    decreases |js| - st.pos
  {
    if More(js, st.pos) then
      StepAdvances(js, cap, st);
      match Step(js, cap, st)
      case Go(st') => Run(js, cap, st')
      case Halt(e) => (e, st)
    else if LastOpen(st.toks, |st.toks|) != -1 then (Part, st)
    else (Count(|st.toks|), st)
  }

  const INIT := St(0, [], -1)
}
