/** Facts about collections that several components need. */
module Collections {
  /** The elements of a sequence are at most as many as its places. */
  lemma {:induction false} SetOfSeq<T>(s: seq<T>)
    ensures |set x | x in s| <= |s|
  {
    if s == [] {
    } else {
      SetOfSeq(s[1..]);
      assert (set x | x in s) == (set x | x in s[1..]) + {s[0]};
    }
  }
}
