/** grep.c's matcher against the language of its patterns. A C string is the sequence of its characters before the
    NUL. */
module Grep {

  // The language

  /** One character, or any number of them; '.' stands for any character. */
  datatype Item = One(c: char) | Star(c: char)

  /** What a pattern says after an optional '^': items, and whether a '$' ends it. */
  datatype Pattern = Pattern(items: seq<Item>, atEnd: bool)

  predicate Fits(c: char, x: char) { c == '.' || c == x }

  /** A '*' binds the character before it, whatever that is; a '$' counts only as the last character. */
  function Parse(re: string): (p: Pattern) {
    if re == "" then Pattern([], false)
    else if |re| >= 2 && re[1] == '*' then
      var p := Parse(re[2..]);
      Pattern([Star(re[0])] + p.items, p.atEnd)
    else if re == "$" then Pattern([], true)
    else
      var p := Parse(re[1..]);
      Pattern([One(re[0])] + p.items, p.atEnd)
  }

  /** The strings a sequence of items stands for. */
  ghost predicate InLanguage(items: seq<Item>, s: string) {
    if items == [] then s == ""
    else
      match items[0]
      case One(c) => s != "" && Fits(c, s[0]) && InLanguage(items[1..], s[1..])
      case Star(c) => exists k | 0 <= k <= |s| :: AllFit(c, s[..k]) && InLanguage(items[1..], s[k..])
  }

  predicate AllFit(c: char, s: string) { forall i | 0 <= i < |s| :: Fits(c, s[i]) }

  /** Some prefix of the text is in the pattern's language, all of it if the pattern ends in '$'. */
  ghost predicate HasPrefix(p: Pattern, text: string) {
    exists j | 0 <= j <= |text| :: (p.atEnd ==> j == |text|) && InLanguage(p.items, text[..j])
  }

  /** grep's promise: some substring is, a prefix if the pattern starts with '^', a suffix if it ends in '$'. */
  ghost predicate Matches(re: string, text: string) {
    if re != "" && re[0] == '^' then HasPrefix(Parse(re[1..]), text)
    else exists i | 0 <= i <= |text| :: HasPrefix(Parse(re), text[i..])
  }

  // Unfolding the language one step along the text

  lemma PrefixNil(atEnd: bool, text: string)
    ensures HasPrefix(Pattern([], atEnd), text) <==> !atEnd || text == ""
  {
    if !atEnd || text == "" {
      assert InLanguage([], text[..0]);
    }
  }

  lemma PrefixOne(c: char, items: seq<Item>, atEnd: bool, text: string)
    ensures HasPrefix(Pattern([One(c)] + items, atEnd), text)
       <==> text != "" && Fits(c, text[0]) && HasPrefix(Pattern(items, atEnd), text[1..])
  {
    var all := [One(c)] + items;
    assert all[1..] == items;
    if HasPrefix(Pattern(all, atEnd), text) {
      var j :| 0 <= j <= |text| && (atEnd ==> j == |text|) && InLanguage(all, text[..j]);
      assert text[..j][1..] == text[1..][..j - 1];
    }
    if text != "" && Fits(c, text[0]) && HasPrefix(Pattern(items, atEnd), text[1..]) {
      var j :| 0 <= j <= |text[1..]| && (atEnd ==> j == |text[1..]|) && InLanguage(items, text[1..][..j]);
      assert text[..j + 1][1..] == text[1..][..j];
      assert InLanguage(all, text[..j + 1]);
    }
  }

  /** A star matches nothing, or one character and then again. */
  lemma PrefixStar(c: char, items: seq<Item>, atEnd: bool, text: string)
    ensures HasPrefix(Pattern([Star(c)] + items, atEnd), text)
       <==> HasPrefix(Pattern(items, atEnd), text)
            || (text != "" && Fits(c, text[0]) && HasPrefix(Pattern([Star(c)] + items, atEnd), text[1..]))
  {
    if HasPrefix(Pattern([Star(c)] + items, atEnd), text) {
      StarUnfolds(c, items, atEnd, text);
    }
    if HasPrefix(Pattern(items, atEnd), text) {
      StarNone(c, items, atEnd, text);
    }
    if text != "" && Fits(c, text[0]) && HasPrefix(Pattern([Star(c)] + items, atEnd), text[1..]) {
      StarMore(c, items, atEnd, text);
    }
  }

  lemma StarUnfolds(c: char, items: seq<Item>, atEnd: bool, text: string)
    requires HasPrefix(Pattern([Star(c)] + items, atEnd), text)
    ensures HasPrefix(Pattern(items, atEnd), text)
            || (text != "" && Fits(c, text[0]) && HasPrefix(Pattern([Star(c)] + items, atEnd), text[1..]))
  {
    var all := [Star(c)] + items;
    assert all[1..] == items;
    var j :| 0 <= j <= |text| && (atEnd ==> j == |text|) && InLanguage(all, text[..j]);
    var s := text[..j];
    var k :| 0 <= k <= |s| && AllFit(c, s[..k]) && InLanguage(items, s[k..]);
    if k == 0 {
      assert s[0..] == s;
    } else {
      var t := text[1..][..j - 1];
      assert s[..k][0] == text[0];
      assert t[..k - 1] == s[..k][1..] && t[k - 1..] == s[k..];
      assert InLanguage(all, t);
    }
  }

  lemma StarNone(c: char, items: seq<Item>, atEnd: bool, text: string)
    requires HasPrefix(Pattern(items, atEnd), text)
    ensures HasPrefix(Pattern([Star(c)] + items, atEnd), text)
  {
    var all := [Star(c)] + items;
    assert all[1..] == items;
    var j :| 0 <= j <= |text| && (atEnd ==> j == |text|) && InLanguage(items, text[..j]);
    assert text[..j][0..] == text[..j] && AllFit(c, text[..j][..0]);
    assert InLanguage(all, text[..j]);
  }

  lemma StarMore(c: char, items: seq<Item>, atEnd: bool, text: string)
    requires text != "" && Fits(c, text[0]) && HasPrefix(Pattern([Star(c)] + items, atEnd), text[1..])
    ensures HasPrefix(Pattern([Star(c)] + items, atEnd), text)
  {
    var all := [Star(c)] + items;
    assert all[1..] == items;
    var j :| 0 <= j <= |text[1..]| && (atEnd ==> j == |text[1..]|) && InLanguage(all, text[1..][..j]);
    var t := text[1..][..j];
    var k :| 0 <= k <= |t| && AllFit(c, t[..k]) && InLanguage(items, t[k..]);
    var s := text[..j + 1];
    Shifted(text, j, k);
    assert AllFit(c, s[..k + 1]);
    assert InLanguage(all, s);
  }

  lemma Shifted(text: string, j: nat, k: nat)
    requires k <= j < |text|
    ensures text[..j + 1][..k + 1] == [text[0]] + text[1..][..j][..k]
    ensures text[..j + 1][k + 1..] == text[1..][..j][k..]
  {
    assert text[..j + 1][..k + 1] == text[..k + 1] && text[1..][..j][..k] == text[1..k + 1];
    assert text[..j + 1][k + 1..] == text[k + 1..j + 1] && text[1..][..j][k..] == text[k + 1..j + 1];
  }

  // What the patterns mean, without the language

  /** Neither a repetition nor an anchor. */
  predicate Plain(re: string) { forall i | 0 <= i < |re| :: re[i] != '*' && re[i] != '^' && re[i] != '$' }

  /** Equal but for the dots. */
  predicate Like(re: string, s: string) {
    |s| == |re| && forall i | 0 <= i < |re| :: re[i] == '.' || re[i] == s[i]
  }

  lemma {:induction false} PlainItems(re: string, s: string)
    requires Plain(re)
    ensures !Parse(re).atEnd && (InLanguage(Parse(re).items, s) <==> Like(re, s))
  {
    if re != "" {
      var items, rest := Parse(re).items, Parse(re[1..]).items;
      assert items == [One(re[0])] + rest && items[1..] == rest;
      if s != "" {
        PlainItems(re[1..], s[1..]);
        assert Like(re, s) ==> Like(re[1..], s[1..]) && (re[0] == '.' || re[0] == s[0]);
        assert Like(re[1..], s[1..]) && Fits(re[0], s[0]) ==> Like(re, s) by {
          LikeMore(re, s);
        }
      } else {
        PlainItems(re[1..], "");
      }
    }
  }

  lemma LikeMore(re: string, s: string)
    requires re != "" && s != ""
    ensures Like(re[1..], s[1..]) && (re[0] == '.' || re[0] == s[0]) ==> Like(re, s)
  {
    if Like(re[1..], s[1..]) && (re[0] == '.' || re[0] == s[0]) {
      forall i | 0 <= i < |re|
        ensures re[i] == '.' || re[i] == s[i]
      {
        if i > 0 {
          assert re[1..][i - 1] == re[i] && s[1..][i - 1] == s[i];
        }
      }
    }
  }

  /** Without '*', '^' and '$' a pattern is looked for as it stands, a dot standing for any one character. */
  lemma PlainMatches(re: string, text: string)
    requires Plain(re)
    ensures Matches(re, text) <==> exists i: nat, j: nat :: i <= j <= |text| && Like(re, text[i..j])
  {
    var p := Parse(re);
    PlainItems(re, "");
    if i :| 0 <= i <= |text| && HasPrefix(p, text[i..]) {
      var j :| 0 <= j <= |text[i..]| && InLanguage(p.items, text[i..][..j]);
      PlainItems(re, text[i..][..j]);
      assert text[i..][..j] == text[i..i + j];
      assert Like(re, text[i..i + j]);
    }
    if i: nat, j: nat :| i <= j <= |text| && Like(re, text[i..j]) {
      assert text[i..][..j - i] == text[i..j];
      PlainItems(re, text[i..j]);
      assert InLanguage(p.items, text[i..][..j - i]);
    }
  }

  /** "^c*$": nothing but c, or anything if c is a dot. */
  lemma StarMatches(c: char, text: string)
    ensures Matches(['^', c, '*', '$'], text) <==> forall k | 0 <= k < |text| :: c == '.' || text[k] == c
  {
    var re := ['^', c, '*', '$'];
    assert re[1..] == [c, '*', '$'] && re[1..][2..] == "$" && Parse("$") == Pattern([], true);
    var p := Parse(re[1..]);
    assert p.items == [Star(c)] && p.atEnd && p.items[1..] == [];
    assert text[..|text|] == text;
    if HasPrefix(p, text) {
      var k :| 0 <= k <= |text| && AllFit(c, text[..k]) && InLanguage([], text[k..]);
      assert k == |text|;
    }
    if forall k | 0 <= k < |text| :: c == '.' || text[k] == c {
      assert text[..|text|] == text && text[|text|..] == "" && AllFit(c, text[..|text|]);
      assert InLanguage(p.items, text);
    }
  }

  // The matcher

  /** matchhere */
  method MatchHere(re: string, text: string) returns (r: bool)
    ensures r <==> HasPrefix(Parse(re), text)
    decreases |re|, |text|
  {
    if re == "" {
      PrefixNil(false, text);
      return true;
    }
    if |re| >= 2 && re[1] == '*' {
      r := MatchStar(re[0], re[2..], text);
      return;
    }
    if re[0] == '$' && |re| == 1 {
      PrefixNil(true, text);
      return text == "";
    }
    var p := Parse(re[1..]);
    PrefixOne(re[0], p.items, p.atEnd, text);
    if text != "" && (re[0] == '.' || re[0] == text[0]) {
      r := MatchHere(re[1..], text[1..]);
      return;
    }
    return false;
  }

  /** matchstar */
  method MatchStar(c: char, re: string, text: string) returns (r: bool)
    ensures r <==> HasPrefix(Pattern([Star(c)] + Parse(re).items, Parse(re).atEnd), text)
    decreases |re| + 1, |text|
  {
    var t := text;
    ghost var p := Parse(re);
    ghost var starred := Pattern([Star(c)] + p.items, p.atEnd);
    while true
      invariant |t| <= |text| && (HasPrefix(starred, text) <==> HasPrefix(starred, t))
      decreases |t|
    {
      PrefixStar(c, p.items, p.atEnd, t);
      r := MatchHere(re, t);
      if r {
        return;
      }
      if t == "" || !(t[0] == c || c == '.') {
        return false;
      }
      t := t[1..];
    }
  }

  /** match */
  method Match(re: string, text: string) returns (r: bool)
    ensures r <==> Matches(re, text)
  {
    if re != "" && re[0] == '^' {
      r := MatchHere(re[1..], text);
      return;
    }
    var i := 0;
    while true
      invariant 0 <= i <= |text| && forall k | 0 <= k < i :: !HasPrefix(Parse(re), text[k..])
      decreases |text| - i
    {
      r := MatchHere(re, text[i..]);
      if r || i == |text| {
        return;
      }
      i := i + 1;
    }
  }
}
