/** A JSON text cut short: jsmn_parse answers PART, and not INVAL, so that the caller may go on reading. */
module JsonPrefix {
  import opened JsmnSpec
  import opened JsmnFacts
  import opened JsonText
  import opened JsonScan

  // Tokens keep their type and start, and once closed their end

  lemma StepKeeps(js: string, cap: nat, st: St, x: nat)
    requires st.Valid() && More(js, st.pos) && Step(js, cap, st).Go? && x < |st.toks|
    ensures var st' := Step(js, cap, st).st;
            && x < |st'.toks| && st'.toks[x].ty == st.toks[x].ty && st'.toks[x].start == st.toks[x].start
            && (st'.toks[x].end == st.toks[x].end || (IsOpen(st.toks[x]) && st'.toks[x].end == st.pos + 1))
  {
  }

  lemma {:induction false} RunKeeps(js: string, cap: nat, st: St, x: nat)
    requires st.Valid() && x < |st.toks|
    ensures var f := Run(js, cap, st).1;
            && x < |f.toks| && f.toks[x].ty == st.toks[x].ty && f.toks[x].start == st.toks[x].start
            && (st.toks[x].end != -1 ==> f.toks[x].end == st.toks[x].end)
    decreases |js| - st.pos
  {
    if More(js, st.pos) {
      StepAdvances(js, cap, st);
      if Step(js, cap, st).Go? {
        StepKeeps(js, cap, st, x);
        RunKeeps(js, cap, Step(js, cap, st).st, x);
      }
    }
  }

  // The scanners on a shorter text

  lemma BadEscapeLonger(js: string, n: nat, k: nat)
    requires n <= |js| && BadEscape(js[..n], k)
    ensures BadEscape(js, k)
  {
    var s := js[..n];
    if s[k + 1] == 'u' {
      var d :| BadDigit(s, k + 2, d);
      assert BadDigit(js, k + 2, d);
    }
  }

  /** A string that closes behind the cut is found cut short. */
  lemma StringCut(js: string, i: nat, n: nat)
    requires i <= n <= |js| && ScanString(js, i).Close?
    ensures var e := ScanString(js, i).at; ScanString(js[..n], i) == if e < n then Close(e) else Cut
  {
    var s, e := js[..n], ScanString(js, i).at;
    StringExactly(js, i, e);
    if e < n {
      SamePart(js, n, i, e);
      StringExactly(s, i, e);
    } else {
      match ScanString(s, i)
      case Close(a) =>
        StringExactly(s, i, a);
        SamePart(js, n, i, a);
        StringExactly(js, i, a);
      case BadChar =>
        var k := FindBad(s, i);
        BadEscapeLonger(js, n, k);
        SamePart(js, n, i, k);
        RefusedExactly(js, i);
      case Cut =>
    }
  }

  lemma SamePart(js: string, n: nat, i: nat, e: nat)
    requires i <= e <= n <= |js|
    ensures js[..n][i..e] == js[i..e] && (e < n ==> js[..n][e] == js[e])
  {
  }

  lemma PrimitiveCut(js: string, i: nat, n: nat)
    requires i <= n <= |js| && ScanPrimitive(js, i).Close?
    ensures var e := ScanPrimitive(js, i).at; ScanPrimitive(js[..n], i) == Close(if e < n then e else n)
  {
    var s, e := js[..n], ScanPrimitive(js, i).at;
    PrimitiveChars(js, i);
    forall k | i <= k < e
      ensures PrimChar(js[k])
    {
      SameChars(js[k]);
    }
    PrimScanned(js, i, e);
    PrimScanned(s, i, if e < n then e else n);
  }

  /** A step that stays before the cut is the same on both texts. */
  lemma SameStep(js: string, cap: nat, st: St, n: nat)
    requires st.Valid() && st.pos < n <= |js| && More(js, st.pos) && Step(js, cap, st).Go?
    requires Step(js, cap, st).st.pos <= n
    ensures Step(js[..n], cap, st) == Step(js, cap, st)
  {
    var c := js[st.pos];
    if c == '"' {
      StringCut(js, st.pos + 1, n);
    } else if !Punctuation(c) {
      PrimitiveCut(js, st.pos, n);
    }
  }

  /** A step across the cut: a string is cut short, a primitive ends there. */
  lemma CrossStep(js: string, cap: nat, st: St, n: nat)
    requires st.Valid() && st.pos < n <= |js| && More(js, st.pos) && Step(js, cap, st).Go?
    requires n < Step(js, cap, st).st.pos
    ensures var turn := Step(js[..n], cap, st);
            || turn == Halt(Part)
            || (turn.Go? && turn.st.pos == n && |turn.st.toks| == |st.toks| + 1
                && forall x | 0 <= x < |st.toks| :: IsOpen(turn.st.toks[x]) == IsOpen(st.toks[x]))
  {
    var c := js[st.pos];
    if c == '"' {
      StringCut(js, st.pos + 1, n);
    } else if !Punctuation(c) {
      PrimitiveCut(js, st.pos, n);
    }
  }

  lemma OpenIsPart(js: string, cap: nat, st: St, x: nat)
    requires st.Valid() && st.pos == |js| && x < |st.toks| && IsOpen(st.toks[x])
    ensures Run(js, cap, st).0 == Part
  {
  }

  /** From a state in which token x is open, and is closed only behind the cut. */
  lemma {:induction false} CutInside(js: string, cap: nat, st: St, n: nat, x: nat)
    requires st.Valid() && st.pos <= n <= |js| && x < |st.toks| && IsOpen(st.toks[x]) && Run(js, cap, st).0.Count?
    requires x < |Run(js, cap, st).1.toks| && Run(js, cap, st).1.toks[x].end > n
    ensures Run(js[..n], cap, st).0 == Part
    decreases |js| - st.pos
  {
    var s := js[..n];
    if st.pos == n {
      OpenIsPart(s, cap, st, x);
    } else {
      assert More(js, st.pos) && Step(js, cap, st).Go?;
      StepAdvances(js, cap, st);
      var st' := Step(js, cap, st).st;
      if st'.pos <= n {
        SameStep(js, cap, st, n);
        StepKeeps(js, cap, st, x);
        RunKeeps(js, cap, st', x);
        CutInside(js, cap, st', n, x);
      } else {
        CrossStep(js, cap, st, n);
        if Step(s, cap, st).Go? {
          StepAdvances(s, cap, st);
          OpenIsPart(s, cap, Step(s, cap, st).st, x);
        }
      }
    }
  }

  /** From a state without tokens. */
  lemma {:induction false} CutBefore(js: string, cap: nat, st: St, n: nat)
    requires Inv(js, st) && st.toks == [] && n <= |js| && Run(js, cap, st).0.Count?
    requires var f := Run(js, cap, st).1; f.toks != [] && IsContainer(f.toks[0]) && f.toks[0].start < n < f.toks[0].end
    ensures st.pos <= n && Run(js[..n], cap, st).0 == Part
    decreases |js| - st.pos
  {
    assert More(js, st.pos) && Step(js, cap, st).Go?;
    StepAdvances(js, cap, st);
    InvStep(js, cap, st);
    var st' := Step(js, cap, st).st;
    if st'.toks == [] {
      CutBefore(js, cap, st', n);
      SameStep(js, cap, st, n);
    } else {
      RunKeeps(js, cap, st', 0);
      SameStep(js, cap, st, n);
      CutInside(js, cap, st', n, 0);
    }
  }

  /** Any text jsmn accepts that begins with an object or array, cut anywhere inside it. */
  lemma CutIsPart(js: string, cap: nat, n: nat)
    requires Run(js, cap, INIT).0.Count? && n <= |js|
    requires var f := Run(js, cap, INIT).1;
             f.toks != [] && IsContainer(f.toks[0]) && f.toks[0].start < n < f.toks[0].end
    ensures Run(js[..n], cap, INIT).0 == Part
  {
    CutBefore(js, cap, INIT, n);
  }

  /** Main result: every proper prefix of a JSON object or array, from its first bracket on, gives PART. */
  lemma PrefixIsPart(v: Json, pre: string, cap: nat, n: nat)
    requires (v.Arr? || v.Obj?) && Ok(v) && AllSpace(pre) && |Toks(v, |pre|)| <= cap
    requires |pre| < n < |pre| + |Text(v)|
    ensures Run((pre + Text(v))[..n], cap, INIT).0 == Part
  {
    var js := pre + Text(v);
    assert js + "" == js;
    RoundTrip(v, pre, "", cap);
    CutIsPart(js, cap, n);
  }
}
