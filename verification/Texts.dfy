/** A text inside a longer one. */
module Texts {

  predicate Has(s: string, off: nat, text: string) {
    off + |text| <= |s| && forall k | 0 <= k < |text| :: s[off + k] == text[k]
  }

  lemma HasSplit(s: string, off: nat, a: string, b: string, mid: nat)
    requires Has(s, off, a + b) && mid == off + |a|
    ensures Has(s, off, a) && Has(s, mid, b)
  {
    forall k | 0 <= k < |a|
      ensures s[off + k] == a[k]
    {
      assert (a + b)[k] == a[k];
    }
    forall k | 0 <= k < |b|
      ensures s[mid + k] == b[k]
    {
      assert (a + b)[|a| + k] == b[k];
    }
  }
}
