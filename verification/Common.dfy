/** 64-bit signed integers. */
module Int64 {
  const MIN_INT64 := -9223372036854775808
  const MAX_INT64 := 9223372036854775807

  predicate IsInt64(v: int) { MIN_INT64 <= v <= MAX_INT64 }

  /** The value an int64 addition or subtraction stores. */
  function Wrap(x: int): (r: int)
    ensures IsInt64(r) && (IsInt64(x) ==> r == x)
  {
    if IsInt64(x) then x else (x - MIN_INT64) % 0x1_0000_0000_0000_0000 + MIN_INT64
  }
}

/** Facts about sizes used by several parts. */
module Counting {
  ghost predicate Distinct<T>(s: seq<T>) { forall i, j :: 0 <= i < j < |s| ==> s[i] != s[j] }

  function Min(a: nat, b: nat): nat { if a < b then a else b }

  lemma SubsetCount<T>(a: set<T>, b: set<T>)
    requires a <= b
    ensures |a| <= |b|
  {
    assert b == a + (b - a);
  }
}
