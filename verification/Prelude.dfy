/** Vocabulary shared by every model: optional values, fallible results,
    the unsigned 32-bit range and the saturating clock difference. */
module Prelude {

  datatype Option<+T> = None | Some(value: T)

  datatype Result<+T, +E> = Ok(value: T) | Err(error: E)

  const U32_SIZE := 0x1_0000_0000

  type u32 = x: int | 0 <= x < U32_SIZE

  /** What a release build stores when a u32 addition overflows. */
  function WrapU32(x: nat): u32 { x % U32_SIZE }

  function Max(a: int, b: int): int { if a < b then b else a }

  function Min(a: int, b: int): int { if a < b then a else b }

  /** `now.duration_since(earlier)`: zero when the readings are out of order. */
  function Elapsed(now: nat, earlier: nat): nat { if now < earlier then 0 else now - earlier }

  ghost predicate Distinct<T>(s: seq<T>) {
    forall i, j :: 0 <= i < j < |s| ==> s[i] != s[j]
  }

  /** A distinct sequence has as many elements as the set of its elements. */
  lemma {:induction false} DistinctCardinality<T>(s: seq<T>)
    requires Distinct(s)
    ensures |set x | x in s| == |s|
  {
    if s == [] {
      assert (set x | x in s) == {};
    } else {
      var n := |s| - 1;
      DistinctCardinality(s[..n]);
      assert (set x | x in s) == (set x | x in s[..n]) + {s[n]};
    }
  }

  /** A distinct sequence drawn from a set is no longer than the set. */
  lemma DistinctFits<T>(s: seq<T>, all: set<T>)
    requires Distinct(s) && forall x :: x in s ==> x in all
    ensures |s| <= |all|
  {
    DistinctCardinality(s);
    SubsetCardinality((set x | x in s), all);
  }

  lemma SubsetCardinality<T>(a: set<T>, b: set<T>)
    requires a <= b
    ensures |a| <= |b|
  {
    assert b == a + (b - a);
  }
}
