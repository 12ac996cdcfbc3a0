/** Small shared vocabulary: optional values, results with an error, and masks. */
module Basics {

  /** A cell or value that may be missing (pandas NaN, NaT or NA). */
  datatype Option<+T> = None | Some(value: T)

  /** The outcome of a step that either produces a value or raises. */
  datatype Result<+T, +E> = Ok(value: T) | Err(error: E)

  /** The positions of the `true` flags in a boolean mask. */
  function TruePositions(mask: seq<bool>): set<nat>
  {
    set i: nat | i < |mask| && mask[i]
  }

  /** Appending a flag adds its position exactly when the flag is set. */
  lemma TruePositionsSnoc(mask: seq<bool>, b: bool)
    ensures TruePositions(mask + [b]) == TruePositions(mask) + (if b then {|mask|} else {})
    ensures |mask| !in TruePositions(mask)
  {
    var m := mask + [b];
    forall i: nat | i < |mask| ensures m[i] == mask[i] { }
  }

  /** Number of `true` flags in a boolean mask (pandas `mask.sum()`). */
  function CountTrue(mask: seq<bool>): (n: nat)
    ensures n <= |mask|
    decreases |mask|
  {
    if mask == [] then 0
    else CountTrue(mask[..|mask| - 1]) + (if mask[|mask| - 1] then 1 else 0)
  }

  /** The count of `true` flags is the number of flagged positions. */
  lemma {:induction false} CountTruePositions(mask: seq<bool>)
    ensures CountTrue(mask) == |TruePositions(mask)|
    decreases |mask|
  {
    if mask == [] {
      assert TruePositions(mask) == {};
    } else {
      var p := mask[..|mask| - 1];
      assert mask == p + [mask[|mask| - 1]];
      CountTruePositions(p);
      TruePositionsSnoc(p, mask[|mask| - 1]);
    }
  }

  /** The set of values occurring in a sequence. */
  function Elements<T>(s: seq<T>): set<T>
  {
    set x | x in s
  }

  /** Appending a value adds it to the values of a sequence. */
  lemma ElementsSnoc<T>(s: seq<T>, x: T)
    ensures Elements(s + [x]) == Elements(s) + {x}
    ensures x in Elements(s) <==> x in s
  {
  }

  /** No value occurs twice. */
  predicate NoDuplicates<T(==)>(s: seq<T>)
  {
    forall i, j :: 0 <= i < j < |s| ==> s[i] != s[j]
  }

  /** `a` can be obtained from `b` by deleting elements, keeping the order of the rest. */
  predicate IsSubsequence<T(==)>(a: seq<T>, b: seq<T>)
    decreases |b|
  {
    if b == [] then a == []
    else
      IsSubsequence(a, b[..|b| - 1])
      || (a != [] && a[|a| - 1] == b[|b| - 1] && IsSubsequence(a[..|a| - 1], b[..|b| - 1]))
  }

  /** A sequence without repetitions has as many elements as distinct values. */
  lemma {:induction false} DistinctCardinality<T>(s: seq<T>)
    requires NoDuplicates(s)
    ensures |Elements(s)| == |s|
    decreases |s|
  {
    if s != [] {
      var n := |s| - 1;
      DistinctCardinality(s[..n]);
      assert Elements(s) == Elements(s[..n]) + {s[n]} by {
        assert s == s[..n] + [s[n]];
      }
      assert forall k :: 0 <= k < n ==> s[..n][k] != s[n];
      assert s[n] !in Elements(s[..n]);
    }
  }
}
