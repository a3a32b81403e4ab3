/** Which texts jsmn's two scanners accept, reject and find cut short, in the characters of RFC 8259. */
module JsonScan {
  import opened JsmnSpec
  import opened JsonText

  // Strings

  /** A first piece of a string's inside: a character, a simple escape, or \uXXXX. */
  function PieceLength(s: string): nat {
    if s == [] || s[0] != '\\' then 1 else if HexEscape(s) then 6 else 2
  }

  lemma BodyFirst(s: string)
    requires BodyOk(s) && s != []
    ensures PieceLength(s) <= |s| && BodyOk(s[PieceLength(s)..])
    ensures s[0] != '"' && s[0] != '\0' && (s[0] == '\\' ==> |s| >= 2 && (s[1] in ESCAPES || HexEscape(s)))
  {
  }

  lemma {:induction false} DigitsAll(js: string, i: nat, n: nat)
    requires i + n <= |js| && forall k | i <= k < i + n :: js[k] in HEX_DIGITS
    ensures HexDigits(js, i, n) == Close(i + n)
    decreases n
  {
    if n > 0 {
      SameChars(js[i]);
      DigitsAll(js, i + 1, n - 1);
    }
  }

  /** The digits of \uXXXX that are there: all of them, or up to the end of the input. */
  lemma {:induction false} DigitsClose(js: string, i: nat, n: nat)
    requires i <= |js| && HexDigits(js, i, n).Close?
    ensures var e := HexDigits(js, i, n).at;
            && i <= e <= i + n && (forall k | i <= k < e :: js[k] in HEX_DIGITS)
            && (e < i + n ==> e == |js| || js[e] == '\0')
    decreases n
  {
    if n > 0 && i < |js| && js[i] != '\0' {
      SameChars(js[i]);
      DigitsClose(js, i + 1, n - 1);
    }
  }

  /** The scan goes on behind a first piece. */
  lemma ScanPiece(js: string, i: nat, e: nat, n: nat)
    requires i < e <= |js| && BodyOk(js[i..e]) && n == PieceLength(js[i..e])
    ensures i + n <= e && BodyOk(js[i + n..e]) && ScanString(js, i) == ScanString(js, i + n)
  {
    var s := js[i..e];
    BodyFirst(s);
    assert s[n..] == js[i + n..e];
    if s[0] == '\\' {
      assert js[i + 1] == s[1];
      SameChars(js[i + 1]);
      if HexEscape(s) {
        forall k | i + 2 <= k < i + 6
          ensures js[k] in HEX_DIGITS
        {
          assert js[k] == s[k - i];
        }
        DigitsAll(js, i + 2, 4);
      }
    }
  }

  lemma {:induction false} BodyScanned(js: string, i: nat, e: nat)
    requires i <= e <= |js| && BodyOk(js[i..e])
    ensures ScanString(js, i) == ScanString(js, e)
    decreases e - i
  {
    if i < e {
      var n := PieceLength(js[i..e]);
      ScanPiece(js, i, e, n);
      BodyScanned(js, i + n, e);
    }
  }

  /** Putting a piece in front. */
  lemma BodyMore(js: string, i: nat, n: nat, e: nat)
    requires i + n <= e <= |js| && BodyOk(js[i + n..e])
    requires if js[i..e] != [] && js[i] == '\\'
             then (n == 2 && js[i + 1] in ESCAPES) || (n == 6 && HexEscape(js[i..e]))
             else n == 1 && js[i] != '"' && js[i] != '\0'
    ensures BodyOk(js[i..e])
  {
    var s := js[i..e];
    assert s[n..] == js[i + n..e];
  }

  /** A string ends at its first quote, if and only if everything before it is well formed. */
  lemma {:induction false} ClosesAt(js: string, i: nat)
    requires i <= |js| && ScanString(js, i).Close?
    ensures BodyOk(js[i..ScanString(js, i).at])
    decreases |js| - i
  {
    var e := ScanString(js, i).at;
    if js[i] == '"' {
      assert js[i..e] == [];
    } else if js[i] == '\\' && i + 1 < |js| {
      SameChars(js[i + 1]);
      if SimpleEscape(js[i + 1]) {
        ClosesAt(js, i + 2);
        BodyMore(js, i, 2, e);
      } else {
        DigitsClose(js, i + 2, 4);
        var h := HexDigits(js, i + 2, 4).at;
        ClosesAt(js, h);
        HexPiece(js, i, h, e);
        BodyMore(js, i, 6, e);
      }
    } else {
      ClosesAt(js, i + 1);
      BodyMore(js, i, 1, e);
    }
  }

  lemma HexPiece(js: string, i: nat, h: nat, e: nat)
    requires i + 2 <= h <= e < |js| && h <= i + 6 && js[i] == '\\' && js[i + 1] == 'u' && js[h] != '\0'
    requires (forall k | i + 2 <= k < h :: js[k] in HEX_DIGITS) && (h < i + 6 ==> h == |js| || js[h] == '\0')
    ensures h == i + 6 && HexEscape(js[i..e])
  {
    var s := js[i..e];
    assert s[1] == js[i + 1] && s[2] == js[i + 2] && s[3] == js[i + 3] && s[4] == js[i + 4] && s[5] == js[i + 5];
  }

  lemma StringExactly(js: string, i: nat, e: nat)
    requires i <= |js|
    ensures ScanString(js, i) == Close(e) <==> i <= e < |js| && js[e] == '"' && BodyOk(js[i..e])
  {
    if ScanString(js, i) == Close(e) {
      ClosesAt(js, i);
    }
    if i <= e < |js| && js[e] == '"' && BodyOk(js[i..e]) {
      BodyScanned(js, i, e);
    }
  }

  /** At k a backslash stands before a character that makes no escape, or before u and fewer than four digits and then
      something else. */
  ghost predicate BadEscape(js: string, k: nat) {
    && k + 1 < |js| && js[k] == '\\'
    && if js[k + 1] == 'u' then BadDigits(js, k + 2) else js[k + 1] !in ESCAPES
  }

  /** The first d characters from i on are digits, the next is not, and the input has not ended. */
  predicate BadDigit(js: string, i: nat, d: nat) {
    d < 4 && i + d < |js| && js[i + d] !in HEX_DIGITS && js[i + d] != '\0'
    && forall k | i <= k < i + d :: js[k] in HEX_DIGITS
  }

  ghost predicate BadDigits(js: string, i: nat) { exists d :: BadDigit(js, i, d) }

  lemma {:induction false} DigitsBad(js: string, i: nat, n: nat, d: nat)
    requires d < n && i + d < |js| && js[i + d] !in HEX_DIGITS && js[i + d] != '\0'
    requires forall k | i <= k < i + d :: js[k] in HEX_DIGITS
    ensures HexDigits(js, i, n) == BadChar
    decreases n
  {
    SameChars(js[i]);
    if d > 0 {
      DigitsBad(js, i + 1, n - 1, d - 1);
    }
  }

  lemma {:induction false} DigitsFind(js: string, i: nat, n: nat) returns (d: nat)
    requires i <= |js| && HexDigits(js, i, n) == BadChar
    ensures d < n && i + d < |js| && js[i + d] !in HEX_DIGITS && js[i + d] != '\0'
    ensures forall k | i <= k < i + d :: js[k] in HEX_DIGITS
    decreases n
  {
    SameChars(js[i]);
    if Hex(js[i]) {
      d := DigitsFind(js, i + 1, n - 1);
      d := d + 1;
    } else {
      d := 0;
    }
  }

  lemma BadEscapeBad(js: string, k: nat)
    requires BadEscape(js, k)
    ensures ScanString(js, k) == BadChar
  {
    SameChars(js[k + 1]);
    if js[k + 1] == 'u' {
      var d :| BadDigit(js, k + 2, d);
      DigitsBad(js, k + 2, 4, d);
    }
  }

  lemma {:induction false} FindBad(js: string, i: nat) returns (k: nat)
    requires i <= |js| && ScanString(js, i) == BadChar
    ensures i <= k <= |js| && BodyOk(js[i..k]) && BadEscape(js, k)
    decreases |js| - i
  {
    if js[i] == '\\' && i + 1 < |js| {
      SameChars(js[i + 1]);
      if SimpleEscape(js[i + 1]) {
        k := FindBad(js, i + 2);
        BodyMore(js, i, 2, k);
      } else if js[i + 1] == 'u' {
        if HexDigits(js, i + 2, 4).Close? {
          DigitsClose(js, i + 2, 4);
          var h := HexDigits(js, i + 2, 4).at;
          k := FindBad(js, h);
          HexPiece(js, i, h, k);
          BodyMore(js, i, 6, k);
        } else {
          var d := DigitsFind(js, i + 2, 4);
          assert BadDigit(js, i + 2, d);
          k := i;
          assert js[i..k] == [];
        }
      } else {
        k := i;
        assert js[i..k] == [];
      }
    } else {
      k := FindBad(js, i + 1);
      BodyMore(js, i, 1, k);
    }
  }

  /** A string is refused if and only if what comes before some bad escape is well formed. Otherwise, if it does not
      close, the input ends in it. */
  lemma RefusedExactly(js: string, i: nat)
    requires i <= |js|
    ensures ScanString(js, i) == BadChar <==> exists k: nat :: i <= k <= |js| && BodyOk(js[i..k]) && BadEscape(js, k)
  {
    if ScanString(js, i) == BadChar {
      var k := FindBad(js, i);
    }
    if k: nat :| i <= k <= |js| && BodyOk(js[i..k]) && BadEscape(js, k) {
      BodyScanned(js, i, k);
      BadEscapeBad(js, k);
    }
  }

  /** So jsmn_parse answers INVAL, wherever in a text the string stands. */
  lemma BadEscapeInval(js: string, cap: nat, st: St, k: nat)
    requires st.Valid() && st.pos < k <= |js| && js[st.pos] == '"' && BodyOk(js[st.pos + 1..k]) && BadEscape(js, k)
    ensures Run(js, cap, st) == (Inval, st)
  {
    BodyScanned(js, st.pos + 1, k);
    BadEscapeBad(js, k);
  }

  // Primitives

  const PRIM_ENDS := {' ', '\t', '\r', '\n', ':', ',', ']', '}'}

  lemma EndChars(c: char)
    ensures Delimiter(c) <==> c in PRIM_ENDS
    ensures PrimChar(c) ==> c !in PRIM_ENDS && c != '\0'
  {
  }

  lemma {:induction false} PrimScanned(js: string, i: nat, e: nat)
    requires i <= e <= |js| && forall k | i <= k < e :: PrimChar(js[k])
    ensures ScanPrimitive(js, i) == ScanPrimitive(js, e)
    decreases e - i
  {
    if i < e {
      SameChars(js[i]);
      PrimScanned(js, i + 1, e);
    }
  }

  /** A primitive goes up to the first character that is none of its own, and is refused exactly if that is neither one
      of those that may follow nor the end. */
  lemma PrimitiveExactly(js: string, i: nat, e: nat)
    requires i <= e <= |js| && (forall k | i <= k < e :: PrimChar(js[k])) && (e == |js| || !PrimChar(js[e]))
    ensures ScanPrimitive(js, i) == if e == |js| || js[e] == '\0' || js[e] in PRIM_ENDS then Close(e) else BadChar
  {
    PrimScanned(js, i, e);
    if e < |js| {
      SameChars(js[e]);
      EndChars(js[e]);
    }
  }

  /** And then jsmn_parse answers INVAL. */
  lemma BadPrimitiveInval(js: string, cap: nat, st: St, e: nat)
    requires st.Valid() && st.pos <= e < |js| && (forall k | st.pos <= k < e :: PrimChar(js[k])) && !PrimChar(js[e])
    requires js[st.pos] !in {'{', '[', '}', ']', '"', ' ', '\t', '\r', '\n', ':', ','}
    requires js[e] != '\0' && js[e] !in PRIM_ENDS
    ensures Run(js, cap, st) == (Inval, st)
  {
    PrimitiveExactly(js, st.pos, e);
    assert js[st.pos] != '\0' by {
      EndChars(js[st.pos]);
    }
  }
}
