/** What jsmn_parse's tokens are like, on every input. */
module JsmnFacts {
  import opened JsmnSpec

  // Structure

  predicate Opener(c: char, ty: Type) { (c == '{' && ty == Object) || (c == '[' && ty == Array) }

  predicate Closer(c: char, ty: Type) { (c == '}' && ty == Object) || (c == ']' && ty == Array) }

  /** A token made from js[..pos]: where it lies and what stands at its ends. */
  predicate TokOk(js: string, t: Tok, pos: nat) {
    && 0 <= t.start < pos <= |js|
    && (t.end != -1 ==> t.start <= t.end <= pos)
    && match t.ty {
         case String => 0 < t.start && t.end != -1 && t.end < |js| && js[t.start - 1] == '"' && js[t.end] == '"'
         case Primitive => t.start < t.end && forall k | t.start <= k < t.end :: !Delimiter(js[k]) && Printable(js[k])
         case _ => Opener(js[t.start], t.ty) && (t.end != -1 ==> t.start < t.end - 1 && Closer(js[t.end - 1], t.ty))
       }
  }

  /** Token a comes before token b: it starts first, and b lies after it or inside it. */
  predicate Before(a: Tok, b: Tok) {
    a.start < b.start && (a.end != -1 ==> a.end <= b.start || (b.end != -1 && b.end <= a.end))
  }

  predicate Inv(js: string, st: St) {
    && st.Valid() && st.pos <= |js|
    && (forall i | 0 <= i < |st.toks| :: TokOk(js, st.toks[i], st.pos))
    && (forall i, j | 0 <= i < j < |st.toks| :: Before(st.toks[i], st.toks[j]))
  }

  lemma Later(js: string, t: Tok, pos: nat, pos': nat)
    requires TokOk(js, t, pos) && pos <= pos' <= |js|
    ensures TokOk(js, t, pos')
  {
  }

  /** Appending a token that starts at or after pos. */
  lemma InvAppend(js: string, st: St, t: Tok, pos': nat, super': int)
    requires Inv(js, st) && TokOk(js, t, pos') && st.pos <= pos' && st.pos <= t.start
    requires -1 <= super' <= |st.toks|
    ensures Inv(js, St(pos', Bump(st.toks, st.super) + [t], super'))
  {
    var b := Bump(st.toks, st.super);
    forall i | 0 <= i < |b|
      ensures TokOk(js, b[i], pos') && Before(b[i], t)
    {
      assert TokOk(js, st.toks[i], st.pos);
    }
    forall i, j | 0 <= i < j < |b|
      ensures Before(b[i], b[j])
    {
      assert Before(st.toks[i], st.toks[j]);
    }
  }

  lemma InvMove(js: string, st: St, pos': nat, super': int)
    requires Inv(js, st) && st.pos <= pos' <= |js| && -1 <= super' < |st.toks|
    ensures Inv(js, St(pos', st.toks, super'))
  {
    forall i | 0 <= i < |st.toks|
      ensures TokOk(js, st.toks[i], pos')
    {
      Later(js, st.toks[i], st.pos, pos');
    }
  }

  /** A closing bracket ends the innermost open token: all later ones lie inside it. */
  lemma InvClose(js: string, st: St, ty: Type)
    requires Inv(js, st) && st.pos < |js| && Closer(js[st.pos], ty) && CloseTurn(st, ty).Go?
    ensures Inv(js, CloseTurn(st, ty).st)
  {
    var i := LastOpen(st.toks, |st.toks|);
    var st' := CloseTurn(st, ty).st;
    forall k | 0 <= k < |st'.toks|
      ensures TokOk(js, st'.toks[k], st'.pos)
    {
      assert TokOk(js, st.toks[k], st.pos);
    }
    forall j, k | 0 <= j < k < |st'.toks|
      ensures Before(st'.toks[j], st'.toks[k])
    {
      assert Before(st.toks[j], st.toks[k]) && TokOk(js, st.toks[k], st.pos);
    }
  }

  lemma {:induction false} PrimitiveChars(js: string, i: nat)
    requires i <= |js| && ScanPrimitive(js, i).Close?
    ensures forall k | i <= k < ScanPrimitive(js, i).at :: !Delimiter(js[k]) && Printable(js[k])
    decreases |js| - i
  {
    if !(i == |js| || js[i] == '\0' || Delimiter(js[i])) {
      PrimitiveChars(js, i + 1);
    }
  }

  lemma InvStep(js: string, cap: nat, st: St)
    requires Inv(js, st) && More(js, st.pos) && Step(js, cap, st).Go?
    ensures Inv(js, Step(js, cap, st).st)
  {
    var c, st' := js[st.pos], Step(js, cap, st).st;
    if c == '{' || c == '[' {
      InvAppend(js, st, Tok(if c == '{' then Object else Array, st.pos, -1, 0), st.pos + 1, |st.toks|);
    } else if c == '}' || c == ']' {
      InvClose(js, st, if c == '}' then Object else Array);
    } else if c == '"' {
      var e := ScanString(js, st.pos + 1).at;
      InvAppend(js, st, Tok(String, st.pos + 1, e, 0), e + 1, st.super);
    } else if Space(c) || c == ':' || c == ',' {
      InvMove(js, st, st'.pos, st'.super);
    } else {
      PrimitiveChars(js, st.pos);
      var e := ScanPrimitive(js, st.pos).at;
      InvAppend(js, st, Tok(Primitive, st.pos, e, 0), e, st.super);
    }
  }

  lemma {:induction false} RunInv(js: string, cap: nat, st: St)
    requires Inv(js, st)
    ensures Inv(js, Run(js, cap, st).1)
    decreases |js| - st.pos
  {
    if More(js, st.pos) {
      StepAdvances(js, cap, st);
      if Step(js, cap, st).Go? {
        InvStep(js, cap, st);
        RunInv(js, cap, Step(js, cap, st).st);
      }
    }
  }

  /** A successful result counts the tokens, and none is left open. */
  lemma {:induction false} RunCounts(js: string, cap: nat, st: St)
    requires st.Valid()
    ensures Run(js, cap, st).0.Count? ==>
              var (r, f) := Run(js, cap, st); r.n == |f.toks| && forall i | 0 <= i < |f.toks| :: !IsOpen(f.toks[i])
    decreases |js| - st.pos
  {
    if More(js, st.pos) {
      StepAdvances(js, cap, st);
      if Step(js, cap, st).Go? {
        RunCounts(js, cap, Step(js, cap, st).st);
      }
    }
  }

  /** The tokens of a successful parse: starts increase, spans lie in the input and nest, and each object or
      array goes from its opening bracket to the matching closing one. */
  lemma TokensWellFormed(js: string, cap: nat)
    requires Run(js, cap, INIT).0.Count?
    ensures var (r, f) := Run(js, cap, INIT);
            && r == Count(|f.toks|)
            && (forall i | 0 <= i < |f.toks| :: TokOk(js, f.toks[i], |js|) && f.toks[i].end != -1)
            && (forall i, j | 0 <= i < j < |f.toks| ::
                  f.toks[i].start < f.toks[j].start
                  && (f.toks[i].end <= f.toks[j].start || f.toks[j].end <= f.toks[i].end))
  {
    var f := Run(js, cap, INIT).1;
    RunInv(js, cap, INIT);
    RunCounts(js, cap, INIT);
    forall i | 0 <= i < |f.toks|
      ensures TokOk(js, f.toks[i], |js|) && f.toks[i].end != -1
    {
      assert TokOk(js, f.toks[i], f.pos) && !IsOpen(f.toks[i]);
    }
    forall i, j | 0 <= i < j < |f.toks|
      ensures f.toks[i].start < f.toks[j].start && (f.toks[i].end <= f.toks[j].start || f.toks[j].end <= f.toks[i].end)
    {
      assert Before(f.toks[i], f.toks[j]) && f.toks[i].end != -1;
    }
  }

  /** Of the brackets still open, the one a closing bracket ends is the innermost, and of its type. */
  lemma ClosesInnermost(js: string, cap: nat, st: St, ty: Type)
    requires Inv(js, st) && More(js, st.pos) && Closer(js[st.pos], ty) && Step(js, cap, st).Go?
    ensures exists i | 0 <= i < |st.toks| ::
              && IsOpen(st.toks[i]) && st.toks[i].ty == ty && (forall k | i < k < |st.toks| :: !IsOpen(st.toks[k]))
              && Step(js, cap, st).st.toks == st.toks[i := st.toks[i].(end := st.pos + 1)]
  {
    var i := LastOpen(st.toks, |st.toks|);
    assert IsOpen(st.toks[i]) && Step(js, cap, st).st.toks == st.toks[i := st.toks[i].(end := st.pos + 1)];
  }

  // Sizes

  function SumSizes(toks: seq<Tok>): nat {
    if toks == [] then 0 else SumSizes(toks[..|toks| - 1]) + toks[|toks| - 1].size
  }

  /** How many tokens the parser makes while it has a superior token. */
  function Children(js: string, cap: nat, st: St): nat
    requires st.Valid()
    decreases |js| - st.pos
  {
    if More(js, st.pos) then
      StepAdvances(js, cap, st);
      match Step(js, cap, st)
      case Go(st') => (if |st'.toks| > |st.toks| && st.super != -1 then 1 else 0) + Children(js, cap, st')
      case Halt(_) => 0
    else 0
  }

  lemma {:induction false} SumUpdate(toks: seq<Tok>, i: nat, t: Tok)
    requires i < |toks|
    ensures SumSizes(toks[i := t]) == SumSizes(toks) - toks[i].size + t.size
  {
    var n := |toks| - 1;
    if i == n {
      assert toks[i := t][..n] == toks[..n];
    } else {
      assert toks[i := t][..n] == toks[..n][i := t];
      SumUpdate(toks[..n], i, t);
    }
  }

  lemma SumAppend(toks: seq<Tok>, t: Tok)
    ensures SumSizes(toks + [t]) == SumSizes(toks) + t.size
  {
    assert (toks + [t])[..|toks|] == toks;
  }

  lemma SumStep(js: string, cap: nat, st: St)
    requires st.Valid() && More(js, st.pos) && Step(js, cap, st).Go?
    ensures var st' := Step(js, cap, st).st;
            SumSizes(st'.toks) == SumSizes(st.toks) + if |st'.toks| > |st.toks| && st.super != -1 then 1 else 0
  {
    var st' := Step(js, cap, st).st;
    var c := js[st.pos];
    if |st'.toks| > |st.toks| {
      var b := Bump(st.toks, st.super);
      if st.super != -1 {
        SumUpdate(st.toks, st.super, b[st.super]);
      }
      SumAppend(b, st'.toks[|b|]);
      assert st'.toks == b + [st'.toks[|b|]];
    } else if c == '}' || c == ']' {
      var i := LastOpen(st.toks, |st.toks|);
      SumUpdate(st.toks, i, st'.toks[i]);
    }
  }

  /** Every token made with a superior token is counted in exactly one size. */
  lemma {:induction false} SizesCountChildren(js: string, cap: nat, st: St)
    requires st.Valid()
    ensures SumSizes(Run(js, cap, st).1.toks) == SumSizes(st.toks) + Children(js, cap, st)
    decreases |js| - st.pos
  {
    if More(js, st.pos) {
      StepAdvances(js, cap, st);
      if Step(js, cap, st).Go? {
        SumStep(js, cap, st);
        SizesCountChildren(js, cap, Step(js, cap, st).st);
      }
    }
  }

  // Running out of tokens

  /** A larger array changes nothing but whether there is room. */
  lemma StepMoreRoom(js: string, cap: nat, cap': nat, st: St)
    requires st.Valid() && More(js, st.pos) && cap <= cap' && Step(js, cap, st) != Halt(NoMem)
    ensures Step(js, cap', st) == Step(js, cap, st)
  {
  }

  /** After running out of tokens the parser can be called again with a larger array that holds the same tokens:
      it does what one call with that array would have done. Without running out, the size does not matter. */
  lemma {:induction false} Resumable(js: string, cap: nat, cap': nat, st: St)
    requires st.Valid() && cap <= cap'
    ensures Run(js, cap, st).1.Valid()
    ensures Run(js, cap, st).0 == NoMem ==> Run(js, cap', Run(js, cap, st).1) == Run(js, cap', st)
    ensures Run(js, cap, st).0 != NoMem ==> Run(js, cap', st) == Run(js, cap, st)
    decreases |js| - st.pos
  {
    if More(js, st.pos) {
      StepAdvances(js, cap, st);
      if Step(js, cap, st) != Halt(NoMem) {
        StepMoreRoom(js, cap, cap', st);
        if Step(js, cap, st).Go? {
          Resumable(js, cap, cap', Step(js, cap, st).st);
        }
      }
    }
  }

  /** The array never overflows, and a parse that runs out has filled it. */
  lemma {:induction false} UsesRoom(js: string, cap: nat, st: St)
    requires st.Valid() && |st.toks| <= cap
    ensures |Run(js, cap, st).1.toks| <= cap
    ensures Run(js, cap, st).0 == NoMem ==> |Run(js, cap, st).1.toks| == cap
    decreases |js| - st.pos
  {
    if More(js, st.pos) {
      StepAdvances(js, cap, st);
      if Step(js, cap, st).Go? {
        UsesRoom(js, cap, Step(js, cap, st).st);
      }
    }
  }

  // Counting only

  datatype CountTurn = CountGo(pos: nat, count: nat) | CountHalt(error: Result)

  /** A turn of the loop when tokens is NULL: brackets are not matched, only counted. */
  function CountStep(js: string, pos: nat, count: nat): (r: CountTurn)
    requires More(js, pos)
    ensures r.CountGo? ==> pos < r.pos <= |js|
  {
    var c := js[pos];
    if c == '{' || c == '[' then CountGo(pos + 1, count + 1)
    else if c == '"' then
      match ScanString(js, pos + 1)
      case Close(e) => CountGo(e + 1, count + 1)
      case BadChar => CountHalt(Inval)
      case Cut => CountHalt(Part)
    else if c == '}' || c == ']' || Space(c) || c == ':' || c == ',' then CountGo(pos + 1, count)
    else
      match ScanPrimitive(js, pos)
      case Close(e) => CountGo(e, count + 1)
      case BadChar => CountHalt(Inval)
      case Cut => CountHalt(Part)
  }

  function RunCount(js: string, pos: nat, count: nat): Result
    decreases |js| - pos
  {
    if More(js, pos) then
      match CountStep(js, pos, count)
      case CountGo(p, n) => RunCount(js, p, n)
      case CountHalt(e) => e
    else Count(count)
  }

  /** A turn that makes tokens advances and counts just as one that only counts. */
  lemma CountStepAgrees(js: string, cap: nat, st: St)
    requires st.Valid() && More(js, st.pos) && Step(js, cap, st).Go?
    ensures CountStep(js, st.pos, |st.toks|) == CountGo(Step(js, cap, st).st.pos, |Step(js, cap, st).st.toks|)
  {
  }

  /** Whenever the full parse succeeds, counting alone gives the same number. */
  lemma {:induction false} CountOnlyAgrees(js: string, cap: nat, st: St)
    requires st.Valid() && Run(js, cap, st).0.Count?
    ensures RunCount(js, st.pos, |st.toks|) == Run(js, cap, st).0
    decreases |js| - st.pos
  {
    if More(js, st.pos) {
      StepAdvances(js, cap, st);
      CountStepAgrees(js, cap, st);
      CountOnlyAgrees(js, cap, Step(js, cap, st).st);
    }
  }

  /** The count never goes down, and a turn that lacks a token would have counted one. */
  lemma {:induction false} CountGrows(js: string, pos: nat, count: nat, n: nat)
    requires RunCount(js, pos, count) == Count(n)
    ensures count <= n
    decreases |js| - pos
  {
    if More(js, pos) {
      var turn := CountStep(js, pos, count);
      CountGrows(js, turn.pos, turn.count, n);
    }
  }

  lemma NoMemCounts(js: string, cap: nat, st: St)
    requires st.Valid() && More(js, st.pos) && Step(js, cap, st) == Halt(NoMem)
    ensures cap <= |st.toks| && CountStep(js, st.pos, |st.toks|).CountGo?
    ensures CountStep(js, st.pos, |st.toks|).count == |st.toks| + 1
  {
  }

  /** And an array of the size counted is large enough: the parse may fail, but not for want of tokens. */
  lemma {:induction false} CountedFits(js: string, cap: nat, st: St)
    requires st.Valid() && RunCount(js, st.pos, |st.toks|) == Count(cap)
    ensures Run(js, cap, st).0 != NoMem
    decreases |js| - st.pos
  {
    if More(js, st.pos) {
      var turn := CountStep(js, st.pos, |st.toks|);
      CountGrows(js, turn.pos, turn.count, cap);
      if Step(js, cap, st) == Halt(NoMem) {
        NoMemCounts(js, cap, st);
      } else if Step(js, cap, st).Go? {
        StepAdvances(js, cap, st);
        CountStepAgrees(js, cap, st);
        CountedFits(js, cap, Step(js, cap, st).st);
      }
    }
  }
}
