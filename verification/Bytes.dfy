/** Bytes as numbers, and slices of sequences. */
module Bytes {
  type byte = b: int | 0 <= b < 256

  lemma Subslice<T>(s: seq<T>, lo: nat, hi: nat, a: nat, b: nat)
    requires a <= b && lo + b <= hi <= |s|
    ensures s[lo..hi][a..b] == s[lo + a..lo + b]
  {
    var t := s[lo..hi];
    assert forall i :: a <= i < b ==> t[i] == s[lo + i];
  }
}
