/** JSON values written as text, with white space wherever JSON allows it, and what jsmn makes of them. */
module JsonText {
  import opened JsmnSpec
  import opened Texts

  /** A JSON value and the white space around its parts. */
  datatype Json =
    | Prim(text: string)
    | Str(body: string)
    | Arr(inner: string, elems: Elems)
    | Obj(inner: string, members: Members)

  datatype Elems = NoElems | Elem(pre: string, value: Json, post: string, rest: Elems)

  datatype Members = NoMembers | Member(pre: string, key: string, mid: string, aft: string, value: Json, post: string,
    rest: Members)

  // Which values can be written

  /** White space, by section 2 of RFC 8259. */
  const SPACES := {' ', '\t', '\n', '\r'}

  predicate AllSpace(s: string) { forall i | 0 <= i < |s| :: s[i] in SPACES }

  /** Anything unquoted that does not start like something else: numbers, true, false and null among it. */
  predicate PrimOk(text: string) {
    && text != [] && text[0] !in {'{', '[', '"'}
    && forall i | 0 <= i < |text| :: PrimChar(text[i])
  }

  /** A visible ASCII character that ends no primitive. */
  predicate PrimChar(c: char) { '!' <= c <= '~' && c !in {':', ',', ']', '}'} }

  /** The characters that may follow a backslash, by section 7 of RFC 8259, apart from u. */
  const ESCAPES := {'"', '\\', '/', 'b', 'f', 'n', 'r', 't'}

  const HEX_DIGITS := {'0', '1', '2', '3', '4', '5', '6', '7', '8', '9',
                       'A', 'B', 'C', 'D', 'E', 'F', 'a', 'b', 'c', 'd', 'e', 'f'}

  /** \uXXXX, and what follows it. */
  predicate HexEscape(s: string) {
    |s| >= 6 && s[1] == 'u' && s[2] in HEX_DIGITS && s[3] in HEX_DIGITS && s[4] in HEX_DIGITS && s[5] in HEX_DIGITS
  }

  /** The inside of a string, with the escapes of section 7 of RFC 8259. */
  predicate BodyOk(s: string) {
    if s == [] then true
    else if s[0] == '\\' then
      (|s| >= 2 && s[1] in ESCAPES && BodyOk(s[2..])) || (HexEscape(s) && BodyOk(s[6..]))
    else s[0] != '"' && s[0] != '\0' && BodyOk(s[1..])
  }

  /** The tokenizer's tests are the RFC's. */
  lemma SameChars(c: char)
    ensures Space(c) <==> c in SPACES
    ensures SimpleEscape(c) <==> c in ESCAPES
    ensures Hex(c) <==> c in HEX_DIGITS
    ensures PrimChar(c) <==> Printable(c) && !Delimiter(c)
    ensures Punctuation(c) <==> c in SPACES || c in {'{', '}', '[', ']', '"', ':', ','}
  {
  }

  predicate Ok(v: Json) {
    match v
    case Prim(t) => PrimOk(t)
    case Str(b) => BodyOk(b)
    case Arr(inner, es) => AllSpace(inner) && ElemsOk(es)
    case Obj(inner, ms) => AllSpace(inner) && MembersOk(ms)
  }

  predicate ElemsOk(es: Elems) {
    es.NoElems? || (AllSpace(es.pre) && Ok(es.value) && AllSpace(es.post) && ElemsOk(es.rest))
  }

  predicate MembersOk(ms: Members) {
    ms.NoMembers? || (AllSpace(ms.pre) && BodyOk(ms.key) && AllSpace(ms.mid) && AllSpace(ms.aft) && Ok(ms.value)
      && AllSpace(ms.post) && MembersOk(ms.rest))
  }

  // The text

  function Text(v: Json): string {
    match v
    case Prim(t) => t
    case Str(b) => Quoted(b)
    case Arr(inner, es) => "[" + (if es.NoElems? then inner else ElemsText(es)) + "]"
    case Obj(inner, ms) => "{" + (if ms.NoMembers? then inner else MembersText(ms)) + "}"
  }

  function Quoted(b: string): string { "\"" + b + "\"" }

  function ElemsText(es: Elems): string
    decreases es, 0
  {
    if es.NoElems? then ""
    else es.pre + (Text(es.value) + (es.post + ElemsRest(es.rest)))
  }

  function ElemsRest(es: Elems): string
    decreases es, 1
  {
    if es.NoElems? then "" else "," + ElemsText(es)
  }

  function MembersText(ms: Members): string
    decreases ms, 0
  {
    if ms.NoMembers? then ""
    else ms.pre + (Quoted(ms.key) + (ms.mid + (":" + (ms.aft + (Text(ms.value) + (ms.post + MembersRest(ms.rest)))))))
  }

  function MembersRest(ms: Members): string
    decreases ms, 1
  {
    if ms.NoMembers? then "" else "," + MembersText(ms)
  }

  // The tokens, in pre-order

  function Length(es: Elems): nat { if es.NoElems? then 0 else 1 + Length(es.rest) }

  function Keys(ms: Members): nat { if ms.NoMembers? then 0 else 1 + Keys(ms.rest) }

  /** A container counts its elements or keys, a key counts its one value. */
  function Toks(v: Json, off: nat): (r: seq<Tok>)
    ensures forall i | 0 <= i < |r| :: !IsOpen(r[i])
  {
    match v
    case Prim(t) => [Tok(Primitive, off, off + |t|, 0)]
    case Str(b) => [Tok(String, off + 1, off + 1 + |b|, 0)]
    case Arr(_, es) => [Tok(Array, off, off + |Text(v)|, Length(es))] + ElemToks(es, off + 1)
    case Obj(_, ms) => [Tok(Object, off, off + |Text(v)|, Keys(ms))] + MemberToks(ms, off + 1)
  }

  function ElemToks(es: Elems, off: nat): (r: seq<Tok>)
    ensures forall i | 0 <= i < |r| :: !IsOpen(r[i])
  {
    if es.NoElems? then []
    else
      var o := off + |es.pre|;
      Toks(es.value, o) + ElemToks(es.rest, o + |Text(es.value)| + |es.post| + 1)
  }

  function MemberToks(ms: Members, off: nat): (r: seq<Tok>)
    ensures forall i | 0 <= i < |r| :: !IsOpen(r[i])
  {
    if ms.NoMembers? then []
    else
      var k := off + |ms.pre|;
      var o := k + |ms.key| + 2 + |ms.mid| + 1 + |ms.aft|;
      [Tok(String, k + 1, k + 1 + |ms.key|, 1)] + Toks(ms.value, o)
        + MemberToks(ms.rest, o + |Text(ms.value)| + |ms.post| + 1)
  }

  // Texts inside texts

  lemma AtHead(js: string, off: nat, s: string, next: nat)
    requires Has(js, off, s) && s != [] && next == off + 1
    ensures js[off] == s[0] && Has(js, next, s[1..])
  {
    assert js[off + 0] == s[0];
    forall k | 0 <= k < |s| - 1
      ensures js[next + k] == s[1..][k]
    {
      assert js[off + (k + 1)] == s[k + 1];
    }
  }

  // Scanning

  lemma {:induction false} HexAt(js: string, i: nat, n: nat)
    requires i + n <= |js| && forall k | i <= k < i + n :: Hex(js[k])
    ensures HexDigits(js, i, n) == Close(i + n)
    decreases n
  {
    if n > 0 {
      HexAt(js, i + 1, n - 1);
    }
  }

  /** An escape is scanned as a whole. */
  lemma EscapeAt(js: string, off: nat, s: string, n: nat)
    requires Has(js, off, s) && 2 <= n <= |s| && s[0] == '\\'
    requires (n == 2 && SimpleEscape(s[1])) || (n == 6 && s[1] == 'u' && Hex(s[2]) && Hex(s[3]) && Hex(s[4])
             && Hex(s[5]))
    ensures Has(js, off + n, s[n..]) && ScanString(js, off) == ScanString(js, off + n)
  {
    assert s == s[..n] + s[n..];
    HasSplit(js, off, s[..n], s[n..], off + n);
    assert forall k | 0 <= k < n :: js[off + k] == s[k];
    if n == 6 {
      HexAt(js, off + 2, 4);
    }
  }

  /** The scan of a string that can be written stops at its closing quote. */
  lemma {:induction false} BodyAt(js: string, off: nat, s: string)
    requires BodyOk(s) && Has(js, off, s) && off + |s| < |js| && js[off + |s|] == '"'
    ensures ScanString(js, off) == Close(off + |s|)
    decreases |s|
  {
    if s == [] {
    } else if s[0] == '\\' {
      var n := if SimpleEscape(s[1]) then 2 else 6;
      EscapeAt(js, off, s, n);
      BodyAt(js, off + n, s[n..]);
    } else {
      AtHead(js, off, s, off + 1);
      BodyAt(js, off + 1, s[1..]);
    }
  }

  predicate Ends(js: string, i: nat) { i == |js| || (i < |js| && Delimiter(js[i])) }

  lemma {:induction false} PrimAt(js: string, off: nat, s: string)
    requires Has(js, off, s) && Ends(js, off + |s|) && forall i | 0 <= i < |s| :: Printable(s[i]) && !Delimiter(s[i])
    ensures ScanPrimitive(js, off) == Close(off + |s|)
    decreases |s|
  {
    if s != [] {
      AtHead(js, off, s, off + 1);
      PrimAt(js, off + 1, s[1..]);
    }
  }

  // The machine on texts

  /** One turn at a time. */
  lemma Takes(js: string, cap: nat, st: St, st': St)
    requires st.Valid() && More(js, st.pos) && Step(js, cap, st) == Go(st')
    ensures st'.Valid() && Run(js, cap, st) == Run(js, cap, st')
  {
    StepAdvances(js, cap, st);
  }

  lemma {:induction false} SkipSpace(js: string, cap: nat, st: St, ws: string, st': St)
    requires st.Valid() && AllSpace(ws) && Has(js, st.pos, ws) && st' == St(st.pos + |ws|, st.toks, st.super)
    ensures Run(js, cap, st) == Run(js, cap, st')
    decreases |ws|
  {
    if ws != [] {
      AtHead(js, st.pos, ws, st.pos + 1);
      var st1 := St(st.pos + 1, st.toks, st.super);
      Takes(js, cap, st, st1);
      SkipSpace(js, cap, st1, ws[1..], st');
    }
  }

  lemma {:induction false} LastOpenSame(toks: seq<Tok>, toks': seq<Tok>, n: nat)
    requires n <= |toks| && n <= |toks'| && forall i | 0 <= i < n :: IsOpen(toks'[i]) == IsOpen(toks[i])
    ensures LastOpen(toks', n) == LastOpen(toks, n)
  {
    if n > 0 {
      LastOpenSame(toks, toks', n - 1);
    }
  }

  lemma {:induction false} LastOpenIs(toks: seq<Tok>, n: nat, i: nat)
    requires i < n <= |toks| && IsOpen(toks[i]) && forall k | i < k < n :: !IsOpen(toks[k])
    ensures LastOpen(toks, n) == i
    ensures IsContainer(toks[i]) ==> LastOpenContainer(toks, n) == i
  {
    if n - 1 > i {
      LastOpenIs(toks, n - 1, i);
    }
  }

  /** The parser inside container a: a is open, and everything after it is closed. */
  predicate Inside(st: St, a: nat) {
    && st.Valid() && a < |st.toks| && IsContainer(st.toks[a]) && IsOpen(st.toks[a])
    && forall k | a < k < |st.toks| :: !IsOpen(st.toks[k])
  }

  /** The container's size grows by n. */
  function Grow(toks: seq<Tok>, a: nat, n: nat): (r: seq<Tok>)
    requires a < |toks|
    ensures |r| == |toks|
  {
    toks[a := toks[a].(size := toks[a].size + n)]
  }

  /** What follows the container's last child: its bracket, which ends it. */
  function Finish(toks: seq<Tok>, a: nat, n: nat, end: nat): (r: seq<Tok>)
    requires a < |toks|
    ensures |r| == |toks|
  {
    toks[a := toks[a].(size := toks[a].size + n, end := end)]
  }

  lemma CloseAt(js: string, cap: nat, st: St, a: nat)
    requires Inside(st, a) && st.pos < |js|
    requires js[st.pos] == if st.toks[a].ty == Object then '}' else ']'
    ensures Run(js, cap, st) == Run(js, cap, St(st.pos + 1, Finish(st.toks, a, 0, st.pos + 1), LastOpen(st.toks, a)))
  {
    LastOpenIs(st.toks, |st.toks|, a);
    Takes(js, cap, st, St(st.pos + 1, Finish(st.toks, a, 0, st.pos + 1), LastOpen(st.toks, a)));
  }

  /** Where the parser stands after a value: a container takes it back to the innermost open token. */
  function After(v: Json, st: St): int
    requires st.Valid()
  {
    if v.Prim? || v.Str? then st.super else LastOpen(st.toks, |st.toks|)
  }

  function Done(v: Json, st: St): St
    requires st.Valid()
  {
    St(st.pos + |Text(v)|, Bump(st.toks, st.super) + Toks(v, st.pos), After(v, st))
  }

  lemma RunStr(js: string, cap: nat, st: St, b: string, st': St)
    requires st.Valid() && BodyOk(b) && Has(js, st.pos, Quoted(b)) && |st.toks| < cap
    requires st' == St(st.pos + |b| + 2, Bump(st.toks, st.super) + [Tok(String, st.pos + 1, st.pos + 1 + |b|, 0)],
             st.super)
    ensures Run(js, cap, st) == Run(js, cap, st')
  {
    assert Quoted(b) == "\"" + (b + "\"");
    var p := st.pos + 1;
    var q := p + |b|;
    HasSplit(js, st.pos, "\"", b + "\"", p);
    HasSplit(js, p, b, "\"", q);
    AtHead(js, st.pos, "\"", p);
    AtHead(js, q, "\"", q + 1);
    BodyAt(js, p, b);
    Takes(js, cap, st, st');
  }

  lemma RunPrim(js: string, cap: nat, st: St, t: string, st': St)
    requires st.Valid() && PrimOk(t) && Has(js, st.pos, t) && Ends(js, st.pos + |t|) && |st.toks| < cap
    requires st' == St(st.pos + |t|, Bump(st.toks, st.super) + [Tok(Primitive, st.pos, st.pos + |t|, 0)], st.super)
    ensures Run(js, cap, st) == Run(js, cap, st')
  {
    AtHead(js, st.pos, t, st.pos + 1);
    PrimAt(js, st.pos, t);
    Takes(js, cap, st, st');
  }

  // Lists and their closing brackets

  lemma Regroup(a: string, b: string, c: string, d: string, e: string)
    ensures (a + (b + (c + d))) + e == a + (b + (c + (d + e)))
  {
  }

  /** A value, the white space after it, and what comes then: v, p and q are where they stand. */
  lemma AtValue(js: string, v: nat, p: nat, q: nat, text: string, post: string, more: string)
    requires Has(js, v, text + (post + more)) && p == v + |text| && q == p + |post| && more != []
    ensures Has(js, v, text) && Has(js, p, post) && q < |js| && js[q] == more[0] && Has(js, q + 1, more[1..])
  {
    HasSplit(js, v, text, post + more, p);
    HasSplit(js, p, post, more, q);
    AtHead(js, q, more, q + 1);
  }

  /** An element's place in the text of an array, after its opening bracket. */
  lemma AtElem(js: string, off: nat, v: nat, p: nat, q: nat, es: Elems)
    requires es.Elem? && Has(js, off, ElemsText(es) + "]") && v == off + |es.pre| && p == v + |Text(es.value)|
    requires q == p + |es.post|
    ensures Has(js, off, es.pre) && Has(js, v, Text(es.value)) && Has(js, p, es.post) && q < |js|
    ensures es.rest.NoElems? ==> js[q] == ']'
    ensures es.rest.Elem? ==> js[q] == ',' && Has(js, q + 1, ElemsText(es.rest) + "]")
  {
    var more := ElemsRest(es.rest) + "]";
    Regroup(es.pre, Text(es.value), es.post, ElemsRest(es.rest), "]");
    HasSplit(js, off, es.pre, Text(es.value) + (es.post + more), v);
    AtValue(js, v, p, q, Text(es.value), es.post, more);
    if es.rest.Elem? {
      assert more[1..] == ElemsText(es.rest) + "]";
    }
  }

  /** A member's value. */
  lemma AtMemberValue(js: string, v: nat, p: nat, q: nat, ms: Members)
    requires ms.Member? && Has(js, v, Text(ms.value) + (ms.post + (MembersRest(ms.rest) + "}")))
    requires p == v + |Text(ms.value)| && q == p + |ms.post|
    ensures Has(js, v, Text(ms.value)) && Has(js, p, ms.post) && q < |js|
    ensures ms.rest.NoMembers? ==> js[q] == '}'
    ensures ms.rest.Member? ==> js[q] == ',' && Has(js, q + 1, MembersText(ms.rest) + "}")
  {
    var more := MembersRest(ms.rest) + "}";
    AtValue(js, v, p, q, Text(ms.value), ms.post, more);
    if ms.rest.Member? {
      assert more[1..] == MembersText(ms.rest) + "}";
    }
  }

  /** A member's key and colon. */
  lemma AtMember(js: string, off: nat, k: nat, e: nat, c: nat, v: nat, ms: Members)
    requires ms.Member? && Has(js, off, MembersText(ms) + "}")
    requires k == off + |ms.pre| && e == k + |ms.key| + 2 && c == e + |ms.mid| && v == c + 1 + |ms.aft|
    ensures Has(js, off, ms.pre) && Has(js, k, Quoted(ms.key)) && Has(js, e, ms.mid) && c < |js| && js[c] == ':'
    ensures Has(js, c + 1, ms.aft) && Has(js, v, Text(ms.value) + (ms.post + (MembersRest(ms.rest) + "}")))
  {
    var tail := Text(ms.value) + (ms.post + (MembersRest(ms.rest) + "}"));
    assert MembersText(ms) + "}" == ms.pre + (Quoted(ms.key) + (ms.mid + (":" + (ms.aft + tail))));
    HasSplit(js, off, ms.pre, Quoted(ms.key) + (ms.mid + (":" + (ms.aft + tail))), k);
    HasSplit(js, k, Quoted(ms.key), ms.mid + (":" + (ms.aft + tail)), e);
    HasSplit(js, e, ms.mid, ":" + (ms.aft + tail), c);
    AtHead(js, c, ":" + (ms.aft + tail), c + 1);
    assert (":" + (ms.aft + tail))[1..] == ms.aft + tail;
    HasSplit(js, c + 1, ms.aft, tail, v);
  }

  /** A value is followed by white space or punctuation, so a primitive ends there. */
  lemma ValueEnds(js: string, p: nat, post: string, q: nat)
    requires AllSpace(post) && Has(js, p, post) && q == p + |post| < |js| && Delimiter(js[q])
    ensures Ends(js, p)
  {
    if post != [] {
      AtHead(js, p, post, p + 1);
    }
  }

  lemma FinishGrown(toks: seq<Tok>, a: nat, more: seq<Tok>, n: nat, end: nat)
    requires a < |toks|
    ensures Finish(Grow(toks, a, 1) + more, a, n, end) == Finish(toks, a, n + 1, end) + more
  {
  }

  function ElemsEnd(st: St, a: nat, es: Elems): St
    requires a < |st.toks|
  {
    var end := st.pos + |ElemsText(es)| + 1;
    St(end, Finish(st.toks, a, Length(es), end) + ElemToks(es, st.pos), LastOpen(st.toks, a))
  }

  function MembersEnd(st: St, a: nat, ms: Members): St
    requires a < |st.toks|
  {
    var end := st.pos + |MembersText(ms)| + 1;
    St(end, Finish(st.toks, a, Keys(ms), end) + MemberToks(ms, st.pos), LastOpen(st.toks, a))
  }

  lemma StillInside(st: St, a: nat, st': St, more: seq<Tok>)
    requires Inside(st, a) && st'.toks == Grow(st.toks, a, 1) + more && st'.Valid()
    requires forall i | 0 <= i < |more| :: !IsOpen(more[i])
    ensures Inside(st', a) && LastOpen(st'.toks, a) == LastOpen(st.toks, a) && st'.toks[a].ty == st.toks[a].ty
  {
    LastOpenSame(st.toks, st'.toks, a);
  }

  lemma {:induction false} RunValue(js: string, cap: nat, st: St, v: Json)
    requires st.Valid() && Ok(v) && Has(js, st.pos, Text(v)) && (v.Prim? ==> Ends(js, st.pos + |Text(v)|))
    requires |st.toks| + |Toks(v, st.pos)| <= cap
    ensures Run(js, cap, st) == Run(js, cap, Done(v, st))
    decreases v, 0
  {
    match v {
      case Prim(t) => RunPrim(js, cap, st, t, Done(v, st));
      case Str(b) => RunStr(js, cap, st, b, Done(v, st));
      case Arr(inner, es) => RunArr(js, cap, st, v);
      case Obj(inner, ms) => RunObj(js, cap, st, v);
    }
  }

  /** The opening bracket: a new open token, the innermost. */
  lemma OpenAt(js: string, cap: nat, st: St, ty: Type, st': St)
    requires st.Valid() && st.pos < |js| && |st.toks| < cap
    requires (ty == Object && js[st.pos] == '{') || (ty == Array && js[st.pos] == '[')
    requires st' == St(st.pos + 1, Bump(st.toks, st.super) + [Tok(ty, st.pos, -1, 0)], |st.toks|)
    ensures Run(js, cap, st) == Run(js, cap, st') && Inside(st', |st.toks|)
    ensures LastOpen(st'.toks, |st.toks|) == LastOpen(st.toks, |st.toks|)
  {
    Takes(js, cap, st, st');
    LastOpenSame(st.toks, st'.toks, |st.toks|);
  }

  /** An empty container's end. */
  lemma EmptyEnd(st: St, v: Json, st2: St, ty: Type)
    requires (v.Arr? && v.elems.NoElems? && ty == Array) || (v.Obj? && v.members.NoMembers? && ty == Object)
    requires st.Valid() && st2.toks == Bump(st.toks, st.super) + [Tok(ty, st.pos, -1, 0)]
    requires st2.pos == st.pos + 1 + |v.inner|
    requires LastOpen(st2.toks, |st.toks|) == LastOpen(st.toks, |st.toks|)
    ensures St(st2.pos + 1, Finish(st2.toks, |st.toks|, 0, st2.pos + 1), LastOpen(st2.toks, |st.toks|)) == Done(v, st)
  {
    assert Finish(st2.toks, |st.toks|, 0, st2.pos + 1) == Bump(st.toks, st.super) + [Tok(ty, st.pos, st2.pos + 1, 0)];
    assert Toks(v, st.pos) == [Tok(ty, st.pos, st2.pos + 1, 0)];
  }

  lemma ArrEnd(st: St, v: Json, st1: St)
    requires st.Valid() && v.Arr? && v.elems.Elem?
    requires st1 == St(st.pos + 1, Bump(st.toks, st.super) + [Tok(Array, st.pos, -1, 0)], |st.toks|)
    requires LastOpen(st1.toks, |st.toks|) == LastOpen(st.toks, |st.toks|)
    ensures ElemsEnd(st1, |st.toks|, v.elems) == Done(v, st)
  {
    var b, end := Bump(st.toks, st.super), st1.pos + |ElemsText(v.elems)| + 1;
    assert Finish(st1.toks, |st.toks|, Length(v.elems), end) == b + [Tok(Array, st.pos, end, Length(v.elems))];
  }

  lemma ArrText(js: string, off: nat, v: Json, p: nat, q: nat)
    requires v.Arr? && Has(js, off, Text(v)) && p == off + 1 && q == p + |v.inner|
    ensures js[off] == '['
    ensures v.elems.NoElems? ==> Has(js, p, v.inner) && q < |js| && js[q] == ']'
    ensures v.elems.Elem? ==> Has(js, p, ElemsText(v.elems) + "]")
  {
    var body := (if v.elems.NoElems? then v.inner else ElemsText(v.elems)) + "]";
    assert Text(v) == "[" + body;
    AtHead(js, off, "[" + body, p);
    assert ("[" + body)[1..] == body;
    if v.elems.NoElems? {
      HasSplit(js, p, v.inner, "]", q);
      AtHead(js, q, "]", q + 1);
    }
  }

  lemma {:induction false} RunArr(js: string, cap: nat, st: St, v: Json)
    requires st.Valid() && Ok(v) && v.Arr? && Has(js, st.pos, Text(v)) && |st.toks| + |Toks(v, st.pos)| <= cap
    ensures Run(js, cap, st) == Run(js, cap, Done(v, st))
    decreases v.elems, 2
  {
    var a := |st.toks|;
    var p := st.pos + 1;
    var q := p + |v.inner|;
    var st1 := St(p, Bump(st.toks, st.super) + [Tok(Array, st.pos, -1, 0)], a);
    ArrText(js, st.pos, v, p, q);
    OpenAt(js, cap, st, Array, st1);
    if v.elems.NoElems? {
      var st2 := St(q, st1.toks, a);
      SkipSpace(js, cap, st1, v.inner, st2);
      CloseAt(js, cap, st2, a);
      EmptyEnd(st, v, st2, Array);
    } else {
      RunElems(js, cap, st1, a, v.elems);
      ArrEnd(st, v, st1);
    }
  }

  lemma LastElemEnd(st: St, a: nat, es: Elems, v: nat, st3: St)
    requires Inside(st, a) && es.Elem? && es.rest.NoElems? && v == st.pos + |es.pre|
    requires st3.pos == v + |Text(es.value)| + |es.post| && st3.toks == Grow(st.toks, a, 1) + Toks(es.value, v)
    requires LastOpen(st3.toks, a) == LastOpen(st.toks, a)
    ensures St(st3.pos + 1, Finish(st3.toks, a, 0, st3.pos + 1), LastOpen(st3.toks, a)) == ElemsEnd(st, a, es)
  {
    FinishGrown(st.toks, a, Toks(es.value, v), 0, st3.pos + 1);
    assert ElemToks(es, st.pos) == Toks(es.value, v);
    assert st.pos + |ElemsText(es)| == st3.pos && Length(es) == 1;
  }

  lemma NextElemEnd(st: St, a: nat, es: Elems, v: nat, st4: St)
    requires Inside(st, a) && es.Elem? && es.rest.Elem? && v == st.pos + |es.pre|
    requires st4.pos == v + |Text(es.value)| + |es.post| + 1 && st4.toks == Grow(st.toks, a, 1) + Toks(es.value, v)
    requires LastOpen(st4.toks, a) == LastOpen(st.toks, a)
    ensures ElemsEnd(st4, a, es.rest) == ElemsEnd(st, a, es)
  {
    var end := st4.pos + |ElemsText(es.rest)| + 1;
    FinishGrown(st.toks, a, Toks(es.value, v), Length(es.rest), end);
    assert ElemToks(es, st.pos) == Toks(es.value, v) + ElemToks(es.rest, st4.pos);
    assert end == st.pos + |ElemsText(es)| + 1;
  }

  lemma ElemRoom(es: Elems, off: nat, v: nat, next: nat)
    requires es.Elem? && v == off + |es.pre| && next == v + |Text(es.value)| + |es.post| + 1
    ensures |ElemToks(es, off)| == |Toks(es.value, v)| + |ElemToks(es.rest, next)|
  {
  }

  lemma {:induction false} RunElems(js: string, cap: nat, st: St, a: nat, es: Elems)
    requires Inside(st, a) && st.super == a && st.toks[a].ty == Array && es.Elem? && ElemsOk(es)
    requires Has(js, st.pos, ElemsText(es) + "]") && |st.toks| + |ElemToks(es, st.pos)| <= cap
    ensures Run(js, cap, st) == Run(js, cap, ElemsEnd(st, a, es))
    decreases es, 1
  {
    var v := st.pos + |es.pre|;
    var p := v + |Text(es.value)|;
    var q := p + |es.post|;
    var next := q + 1;
    AtElem(js, st.pos, v, p, q, es);
    ElemRoom(es, st.pos, v, next);
    var toks := Grow(st.toks, a, 1) + Toks(es.value, v);
    var st3 := St(q, toks, a);
    RunElem(js, cap, st, a, es, v, p, q, st3);
    StillInside(st, a, st3, Toks(es.value, v));
    if es.rest.NoElems? {
      CloseAt(js, cap, st3, a);
      LastElemEnd(st, a, es, v, st3);
    } else {
      var st4 := St(next, toks, a);
      CommaAt(js, cap, st3, a, st4);
      RunElems(js, cap, st4, a, es.rest);
      NextElemEnd(st, a, es, v, st4);
    }
  }

  lemma {:induction false} RunElem(js: string, cap: nat, st: St, a: nat, es: Elems, v: nat, p: nat, q: nat, st3: St)
    requires Inside(st, a) && st.super == a && es.Elem? && ElemsOk(es)
    requires v == st.pos + |es.pre| && p == v + |Text(es.value)| && q == p + |es.post|
    requires Has(js, st.pos, es.pre) && Has(js, v, Text(es.value)) && Has(js, p, es.post) && q < |js|
    requires Delimiter(js[q])
    requires |st.toks| + |Toks(es.value, v)| <= cap && st3 == St(q, Grow(st.toks, a, 1) + Toks(es.value, v), a)
    ensures Run(js, cap, st) == Run(js, cap, st3)
    decreases es, 0
  {
    var st1 := St(v, st.toks, a);
    SkipSpace(js, cap, st, es.pre, st1);
    ValueEnds(js, p, es.post, q);
    RunValue(js, cap, st1, es.value);
    LastOpenIs(st.toks, |st.toks|, a);
    var st2 := St(p, Grow(st.toks, a, 1) + Toks(es.value, v), a);
    assert Done(es.value, st1) == st2;
    SkipSpace(js, cap, st2, es.post, st3);
  }

  lemma ObjText(js: string, off: nat, v: Json, p: nat, q: nat)
    requires v.Obj? && Has(js, off, Text(v)) && p == off + 1 && q == p + |v.inner|
    ensures js[off] == '{'
    ensures v.members.NoMembers? ==> Has(js, p, v.inner) && q < |js| && js[q] == '}'
    ensures v.members.Member? ==> Has(js, p, MembersText(v.members) + "}")
  {
    var body := (if v.members.NoMembers? then v.inner else MembersText(v.members)) + "}";
    assert Text(v) == "{" + body;
    AtHead(js, off, "{" + body, p);
    assert ("{" + body)[1..] == body;
    if v.members.NoMembers? {
      HasSplit(js, p, v.inner, "}", q);
      AtHead(js, q, "}", q + 1);
    }
  }

  lemma ObjEnd(st: St, v: Json, st1: St)
    requires st.Valid() && v.Obj? && v.members.Member?
    requires st1 == St(st.pos + 1, Bump(st.toks, st.super) + [Tok(Object, st.pos, -1, 0)], |st.toks|)
    requires LastOpen(st1.toks, |st.toks|) == LastOpen(st.toks, |st.toks|)
    ensures MembersEnd(st1, |st.toks|, v.members) == Done(v, st)
  {
    var b, end := Bump(st.toks, st.super), st1.pos + |MembersText(v.members)| + 1;
    assert Finish(st1.toks, |st.toks|, Keys(v.members), end) == b + [Tok(Object, st.pos, end, Keys(v.members))];
  }

  lemma {:induction false} RunObj(js: string, cap: nat, st: St, v: Json)
    requires st.Valid() && Ok(v) && v.Obj? && Has(js, st.pos, Text(v)) && |st.toks| + |Toks(v, st.pos)| <= cap
    ensures Run(js, cap, st) == Run(js, cap, Done(v, st))
    decreases v.members, 2
  {
    var a := |st.toks|;
    var p := st.pos + 1;
    var q := p + |v.inner|;
    var st1 := St(p, Bump(st.toks, st.super) + [Tok(Object, st.pos, -1, 0)], a);
    ObjText(js, st.pos, v, p, q);
    OpenAt(js, cap, st, Object, st1);
    if v.members.NoMembers? {
      RunEmptyObj(js, cap, st, v, st1, a, q);
    } else {
      RunMembers(js, cap, st1, a, v.members);
      ObjEnd(st, v, st1);
    }
  }

  lemma RunEmptyObj(js: string, cap: nat, st: St, v: Json, st1: St, a: nat, q: nat)
    requires st.Valid() && Ok(v) && v.Obj? && v.members.NoMembers? && a == |st.toks| && q == st.pos + 1 + |v.inner|
    requires st1 == St(st.pos + 1, Bump(st.toks, st.super) + [Tok(Object, st.pos, -1, 0)], a)
    requires Inside(st1, a) && LastOpen(st1.toks, a) == LastOpen(st.toks, a)
    requires Has(js, st1.pos, v.inner) && q < |js| && js[q] == '}'
    ensures Run(js, cap, st1) == Run(js, cap, Done(v, st))
  {
    var st2 := St(q, st1.toks, a);
    SkipSpace(js, cap, st1, v.inner, st2);
    CloseAt(js, cap, st2, a);
    EmptyEnd(st, v, st2, Object);
  }

  /** What a member adds: its key, with its one value counted, and the value's tokens. */
  function MemberAdds(ms: Members, k: nat, v: nat): (r: seq<Tok>)
    requires ms.Member?
    ensures forall i | 0 <= i < |r| :: !IsOpen(r[i])
  {
    [Tok(String, k + 1, k + 1 + |ms.key|, 1)] + Toks(ms.value, v)
  }

  lemma LastMemberEnd(st: St, a: nat, ms: Members, k: nat, v: nat, st3: St)
    requires Inside(st, a) && ms.Member? && ms.rest.NoMembers? && k == st.pos + |ms.pre|
    requires v == k + |ms.key| + 2 + |ms.mid| + 1 + |ms.aft|
    requires st3.pos == v + |Text(ms.value)| + |ms.post| && st3.toks == Grow(st.toks, a, 1) + MemberAdds(ms, k, v)
    requires LastOpen(st3.toks, a) == LastOpen(st.toks, a)
    ensures St(st3.pos + 1, Finish(st3.toks, a, 0, st3.pos + 1), LastOpen(st3.toks, a)) == MembersEnd(st, a, ms)
  {
    FinishGrown(st.toks, a, MemberAdds(ms, k, v), 0, st3.pos + 1);
    assert MemberToks(ms, st.pos) == MemberAdds(ms, k, v);
    assert st.pos + |MembersText(ms)| == st3.pos && Keys(ms) == 1;
  }

  lemma NextMemberEnd(st: St, a: nat, ms: Members, k: nat, v: nat, st4: St)
    requires Inside(st, a) && ms.Member? && ms.rest.Member? && k == st.pos + |ms.pre|
    requires v == k + |ms.key| + 2 + |ms.mid| + 1 + |ms.aft|
    requires st4.pos == v + |Text(ms.value)| + |ms.post| + 1 && st4.toks == Grow(st.toks, a, 1) + MemberAdds(ms, k, v)
    requires LastOpen(st4.toks, a) == LastOpen(st.toks, a)
    ensures MembersEnd(st4, a, ms.rest) == MembersEnd(st, a, ms)
  {
    var end := st4.pos + |MembersText(ms.rest)| + 1;
    FinishGrown(st.toks, a, MemberAdds(ms, k, v), Keys(ms.rest), end);
    assert MemberToks(ms, st.pos) == MemberAdds(ms, k, v) + MemberToks(ms.rest, st4.pos);
    assert end == st.pos + |MembersText(ms)| + 1;
  }

  lemma MemberRoom(ms: Members, off: nat, k: nat, v: nat, next: nat)
    requires ms.Member? && k == off + |ms.pre| && v == k + |ms.key| + 2 + |ms.mid| + 1 + |ms.aft|
    requires next == v + |Text(ms.value)| + |ms.post| + 1
    ensures |MemberToks(ms, off)| == 1 + |Toks(ms.value, v)| + |MemberToks(ms.rest, next)|
  {
  }

  lemma {:induction false} RunMembers(js: string, cap: nat, st: St, a: nat, ms: Members)
    requires Inside(st, a) && st.super == a && st.toks[a].ty == Object && ms.Member? && MembersOk(ms)
    requires Has(js, st.pos, MembersText(ms) + "}") && |st.toks| + |MemberToks(ms, st.pos)| <= cap
    ensures Run(js, cap, st) == Run(js, cap, MembersEnd(st, a, ms))
    decreases ms, 1
  {
    var k := st.pos + |ms.pre|;
    var e := k + |ms.key| + 2;
    var c := e + |ms.mid|;
    var v := c + 1 + |ms.aft|;
    var p := v + |Text(ms.value)|;
    var q := p + |ms.post|;
    AtMember(js, st.pos, k, e, c, v, ms);
    AtMemberValue(js, v, p, q, ms);
    var next := q + 1;
    MemberRoom(ms, st.pos, k, v, next);
    var st2 := RunKey(js, cap, st, a, ms, k, e, c, v);
    var st3 := RunMemberValue(js, cap, st, st2, a, ms, k, v, p, q);
    StillInside(st, a, st3, MemberAdds(ms, k, v));
    if ms.rest.NoMembers? {
      CloseAt(js, cap, st3, a);
      LastMemberEnd(st, a, ms, k, v, st3);
    } else {
      var st4 := St(next, st3.toks, a);
      CommaAt(js, cap, st3, a, st4);
      RunMembers(js, cap, st4, a, ms.rest);
      NextMemberEnd(st, a, ms, k, v, st4);
    }
  }

  /** A comma takes the parser back to the container. */
  lemma CommaAt(js: string, cap: nat, st: St, a: nat, st': St)
    requires Inside(st, a) && st.pos < |js| && js[st.pos] == ',' && st' == St(st.pos + 1, st.toks, a)
    requires st.super == a || (st.super >= 0 && !IsContainer(st.toks[st.super]))
    ensures Run(js, cap, st) == Run(js, cap, st') && Inside(st', a)
  {
    LastOpenIs(st.toks, |st.toks|, a);
    Takes(js, cap, st, st');
  }

  /** The key, the colon and the white space around them: the key is the superior token now. */
  lemma RunKey(js: string, cap: nat, st: St, a: nat, ms: Members, k: nat, e: nat, c: nat, v: nat) returns (st2: St)
    requires Inside(st, a) && st.super == a && ms.Member? && MembersOk(ms) && |st.toks| < cap
    requires k == st.pos + |ms.pre| && e == k + |ms.key| + 2 && c == e + |ms.mid| && v == c + 1 + |ms.aft|
    requires Has(js, st.pos, ms.pre) && Has(js, k, Quoted(ms.key)) && Has(js, e, ms.mid) && c < |js|
    requires js[c] == ':' && Has(js, c + 1, ms.aft)
    ensures st2 == St(v, Grow(st.toks, a, 1) + [Tok(String, k + 1, k + 1 + |ms.key|, 0)], |st.toks|)
    ensures Run(js, cap, st) == Run(js, cap, st2)
  {
    var toks := Grow(st.toks, a, 1) + [Tok(String, k + 1, k + 1 + |ms.key|, 0)];
    var s1, s2 := St(k, st.toks, a), St(e, toks, a);
    SkipSpace(js, cap, st, ms.pre, s1);
    RunStr(js, cap, s1, ms.key, s2);
    st2 := St(v, toks, |st.toks|);
    RunColon(js, cap, s2, ms.mid, ms.aft, c, st2);
  }

  lemma RunColon(js: string, cap: nat, st: St, mid: string, aft: string, c: nat, st': St)
    requires st.Valid() && st.toks != [] && AllSpace(mid) && AllSpace(aft) && c == st.pos + |mid|
    requires Has(js, st.pos, mid) && c < |js| && js[c] == ':' && Has(js, c + 1, aft)
    requires st' == St(c + 1 + |aft|, st.toks, |st.toks| - 1)
    ensures Run(js, cap, st) == Run(js, cap, st')
  {
    var s1, s2 := St(c, st.toks, st.super), St(c + 1, st.toks, |st.toks| - 1);
    SkipSpace(js, cap, st, mid, s1);
    Takes(js, cap, s1, s2);
    SkipSpace(js, cap, s2, aft, st');
  }

  /** The value, counted as the key's one child. */
  lemma {:induction false} RunMemberValue(js: string, cap: nat, st: St, st2: St, a: nat, ms: Members, k: nat, v: nat,
                                          p: nat, q: nat)
    returns (st3: St)
    requires Inside(st, a) && ms.Member? && MembersOk(ms) && p == v + |Text(ms.value)| && q == p + |ms.post|
    requires st2 == St(v, Grow(st.toks, a, 1) + [Tok(String, k + 1, k + 1 + |ms.key|, 0)], |st.toks|)
    requires Has(js, v, Text(ms.value)) && Has(js, p, ms.post) && q < |js| && Delimiter(js[q])
    requires |st.toks| + 1 + |Toks(ms.value, v)| <= cap
    ensures st3.Valid() && st3.pos == q && st3.toks == Grow(st.toks, a, 1) + MemberAdds(ms, k, v)
    ensures st3.super == a || (st3.super >= 0 && !IsContainer(st3.toks[st3.super]))
    ensures Run(js, cap, st2) == Run(js, cap, st3)
    decreases ms, 0
  {
    ValueEnds(js, p, ms.post, q);
    RunValue(js, cap, st2, ms.value);
    st3 := MemberDone(js, cap, st, st2, a, ms, k, v, p, q);
  }

  /** The white space after a member's value, and where the parser stands then. */
  lemma MemberDone(js: string, cap: nat, st: St, st2: St, a: nat, ms: Members, k: nat, v: nat, p: nat, q: nat)
    returns (st3: St)
    requires Inside(st, a) && ms.Member? && MembersOk(ms) && p == v + |Text(ms.value)| && q == p + |ms.post|
    requires st2 == St(v, Grow(st.toks, a, 1) + [Tok(String, k + 1, k + 1 + |ms.key|, 0)], |st.toks|)
    requires Has(js, p, ms.post)
    ensures st3.Valid() && st3.pos == q && st3.toks == Grow(st.toks, a, 1) + MemberAdds(ms, k, v)
    ensures st3.super == a || (st3.super >= 0 && !IsContainer(st3.toks[st3.super]))
    ensures Run(js, cap, Done(ms.value, st2)) == Run(js, cap, st3)
  {
    LastOpenIs(st2.toks, |st2.toks|, a);
    var d := Done(ms.value, st2);
    KeyCounts(st, st2, a, ms, k, v);
    st3 := St(q, d.toks, d.super);
    SkipSpace(js, cap, d, ms.post, st3);
  }

  lemma KeyCounts(st: St, st2: St, a: nat, ms: Members, k: nat, v: nat)
    requires a < |st.toks| && ms.Member?
    requires st2 == St(v, Grow(st.toks, a, 1) + [Tok(String, k + 1, k + 1 + |ms.key|, 0)], |st.toks|)
    ensures Bump(st2.toks, st2.super) + Toks(ms.value, v) == Grow(st.toks, a, 1) + MemberAdds(ms, k, v)
  {
    assert Bump(st2.toks, st2.super) == Grow(st.toks, a, 1) + [Tok(String, k + 1, k + 1 + |ms.key|, 1)];
  }

  /** Tokenizing the text of a value, with any white space around it and enough tokens, gives its tokens in
      pre-order. */
  lemma RoundTrip(v: Json, pre: string, post: string, cap: nat)
    requires Ok(v) && AllSpace(pre) && AllSpace(post) && |Toks(v, |pre|)| <= cap
    ensures var js := pre + Text(v) + post;
            Run(js, cap, INIT) == (Count(|Toks(v, |pre|)|), St(|js|, Toks(v, |pre|), -1))
  {
    var js := pre + Text(v) + post;
    var p := |pre| + |Text(v)|;
    var st1 := St(|pre|, [], -1);
    SkipSpace(js, cap, INIT, pre, st1);
    if post != [] {
      assert js[p] == post[0];
    }
    RunValue(js, cap, st1, v);
    var st2 := Done(v, st1);
    assert st2 == St(p, Toks(v, |pre|), -1);
    var st3 := St(|js|, Toks(v, |pre|), -1);
    SkipSpace(js, cap, st2, post, st3);
  }
}
