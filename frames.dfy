/** Whole-row operations of a pandas DataFrame, seen as a sequence of rows:
    positional row removal, `duplicated()` and `drop_duplicates()` (keep="first"). */
module Frames {
  import opened Basics

  /** The rows whose `drop` flag is false, in their original order. */
  function Without<T>(rows: seq<T>, drop: seq<bool>): (r: seq<T>)
    requires |drop| == |rows|
    ensures |r| == |rows| - CountTrue(drop)
    decreases |rows|
  {
    if rows == [] then []
    else
      var n := |rows| - 1;
      Without(rows[..n], drop[..n]) + (if drop[n] then [] else [rows[n]])
  }

  /** Appending one row and its flag extends the kept rows by that row unless it is dropped. */
  lemma WithoutSnoc<T>(rows: seq<T>, drop: seq<bool>, x: T, b: bool)
    requires |drop| == |rows|
    ensures Without(rows + [x], drop + [b]) == Without(rows, drop) + (if b then [] else [x])
  {
    assert (rows + [x])[..|rows|] == rows;
    assert (drop + [b])[..|rows|] == drop;
  }

  /** One more row of the input decides one more row of the output. */
  lemma WithoutPrefixStep<T>(rows: seq<T>, drop: seq<bool>, i: nat)
    requires |drop| == |rows| && i < |rows|
    ensures Without(rows[..i + 1], drop[..i + 1])
         == Without(rows[..i], drop[..i]) + (if drop[i] then [] else [rows[i]])
  {
    assert rows[..i + 1][..i] == rows[..i];
    assert drop[..i + 1][..i] == drop[..i];
  }

  /** Removing rows never adds a row and never reorders the remaining ones. */
  lemma {:induction false} WithoutIsSubsequence<T>(rows: seq<T>, drop: seq<bool>)
    requires |drop| == |rows|
    ensures IsSubsequence(Without(rows, drop), rows)
    decreases |rows|
  {
    if rows != [] {
      var n := |rows| - 1;
      WithoutIsSubsequence(rows[..n], drop[..n]);
      var prefix := Without(rows[..n], drop[..n]);
      if drop[n] {
        assert Without(rows, drop) == prefix;
      } else {
        var r := prefix + [rows[n]];
        assert Without(rows, drop) == r;
        assert r[..|r| - 1] == prefix;
      }
    }
  }

  /** Every row whose flag is false survives. */
  lemma {:induction false} WithoutKeeps<T>(rows: seq<T>, drop: seq<bool>, i: nat)
    requires |drop| == |rows| && i < |rows| && !drop[i]
    ensures rows[i] in Without(rows, drop)
    decreases |rows|
  {
    var n := |rows| - 1;
    if i < n {
      WithoutKeeps(rows[..n], drop[..n], i);
    }
  }

  /** Every kept row is a row whose flag is false. */
  lemma {:induction false} WithoutMember<T>(rows: seq<T>, drop: seq<bool>, x: T)
    requires |drop| == |rows| && x in Without(rows, drop)
    ensures exists i :: 0 <= i < |rows| && !drop[i] && rows[i] == x
    decreases |rows|
  {
    var n := |rows| - 1;
    if x in Without(rows[..n], drop[..n]) {
      WithoutMember(rows[..n], drop[..n], x);
      var i :| 0 <= i < n && !drop[..n][i] && rows[..n][i] == x;
      assert !drop[i] && rows[i] == x;
    } else {
      assert !drop[n] && rows[n] == x;
    }
  }

  /** Removing rows from rows without repetitions leaves rows without repetitions. */
  lemma {:induction false} WithoutDistinct<T>(rows: seq<T>, drop: seq<bool>)
    requires |drop| == |rows| && NoDuplicates(rows)
    ensures NoDuplicates(Without(rows, drop))
    decreases |rows|
  {
    if rows != [] {
      var n := |rows| - 1;
      assert NoDuplicates(rows[..n]);
      WithoutDistinct(rows[..n], drop[..n]);
      var w := Without(rows[..n], drop[..n]);
      forall j | 0 <= j < |w| ensures w[j] != rows[n] {
        WithoutMember(rows[..n], drop[..n], w[j]);
      }
      if !drop[n] {
        assert Without(rows, drop) == w + [rows[n]];
      }
    }
  }

  /** pandas `duplicated()` with keep="first": row i is flagged when it equals an earlier row. */
  function DuplicatedMask<T(==)>(rows: seq<T>): (m: seq<bool>)
    ensures |m| == |rows|
  {
    seq(|rows|, i requires 0 <= i < |rows| => rows[i] in rows[..i])
  }

  /** pandas `drop_duplicates()` with keep="first": the rows that `duplicated()` does not flag. */
  function Dedup<T(==)>(rows: seq<T>): (r: seq<T>)
    ensures |r| <= |rows|
  {
    Without(rows, DuplicatedMask(rows))
  }

  /** Adding a row at the end keeps it exactly when no equal row came before. */
  lemma DedupSnoc<T>(rows: seq<T>, x: T)
    ensures Dedup(rows + [x]) == Dedup(rows) + (if x in rows then [] else [x])
  {
    var s := rows + [x];
    assert DuplicatedMask(s) == DuplicatedMask(rows) + [x in rows] by {
      forall i | 0 <= i < |s|
        ensures DuplicatedMask(s)[i] == (DuplicatedMask(rows) + [x in rows])[i]
      {
        assert s[..i] == if i < |rows| then rows[..i] else rows;
      }
    }
    WithoutSnoc(rows, DuplicatedMask(rows), x, x in rows);
  }

  /** Duplicate removal keeps every distinct value and invents none. */
  lemma {:induction false} DedupKeepsEveryValue<T>(rows: seq<T>)
    ensures forall x :: x in Dedup(rows) <==> x in rows
    decreases |rows|
  {
    if rows != [] {
      var n := |rows| - 1;
      DedupKeepsEveryValue(rows[..n]);
      DedupSnoc(rows[..n], rows[n]);
      assert rows == rows[..n] + [rows[n]];
    }
  }

  /** After duplicate removal no two rows are identical. */
  lemma {:induction false} DedupNoDuplicates<T>(rows: seq<T>)
    ensures NoDuplicates(Dedup(rows))
    decreases |rows|
  {
    if rows != [] {
      var n := |rows| - 1;
      DedupNoDuplicates(rows[..n]);
      DedupSnoc(rows[..n], rows[n]);
      DedupKeepsEveryValue(rows[..n]);
      assert rows == rows[..n] + [rows[n]];
    }
  }

  /** The kept rows appear in the input, in the input's order. */
  lemma DedupIsSubsequence<T>(rows: seq<T>)
    ensures IsSubsequence(Dedup(rows), rows)
  {
    WithoutIsSubsequence(rows, DuplicatedMask(rows));
  }

  /** A frame without duplicates is left as it is. */
  lemma {:induction false} DedupOfDistinct<T>(rows: seq<T>)
    requires NoDuplicates(rows)
    ensures Dedup(rows) == rows
    decreases |rows|
  {
    if rows != [] {
      var n := |rows| - 1;
      DedupOfDistinct(rows[..n]);
      DedupSnoc(rows[..n], rows[n]);
      assert forall k :: 0 <= k < n ==> rows[..n][k] != rows[n];
      assert rows == rows[..n] + [rows[n]];
    }
  }

  /** Dropping duplicates twice is the same as dropping them once. */
  lemma DedupIdempotent<T>(rows: seq<T>)
    ensures Dedup(Dedup(rows)) == Dedup(rows)
  {
    DedupNoDuplicates(rows);
    DedupOfDistinct(Dedup(rows));
  }

  /** The number of flagged duplicates is the number of rows minus the number of distinct rows. */
  lemma DuplicateCount<T>(rows: seq<T>)
    ensures CountTrue(DuplicatedMask(rows)) == |rows| - |Dedup(rows)|
    ensures |Dedup(rows)| == |Elements(rows)|
  {
    DedupNoDuplicates(rows);
    DistinctCardinality(Dedup(rows));
    DedupKeepsEveryValue(rows);
    assert Elements(Dedup(rows)) == Elements(rows);
  }

  /** A DataFrame whose rows are updated in place. */
  class Frame<T(==)> {
    var rows: seq<T>

    constructor (rows: seq<T>)
      ensures this.rows == rows
    {
      this.rows := rows;
    }

    /** `drop_duplicates(inplace=True)`: one pass remembering the rows already seen. */
    method DropDuplicates()
      modifies this
      ensures rows == Dedup(old(rows))
    {
      var s := rows;
      var kept: seq<T> := [];
      var seen: set<T> := {};
      var i := 0;
      while i < |s|
        invariant 0 <= i <= |s|
        invariant kept == Dedup(s[..i])
        invariant seen == Elements(s[..i])
      {
        DedupSnoc(s[..i], s[i]);
        ElementsSnoc(s[..i], s[i]);
        assert s[..i + 1] == s[..i] + [s[i]];
        if s[i] !in seen {
          kept := kept + [s[i]];
          seen := seen + {s[i]};
        }
        i := i + 1;
      }
      assert s[..i] == s;
      rows := kept;
    }

    /** `duplicated().sum()`: the number of rows equal to an earlier row. */
    method CountDuplicates() returns (n: nat)
      ensures n == |rows| - |Dedup(rows)|
      ensures n == |rows| - |Elements(rows)|
    {
      var s := rows;
      n := 0;
      var seen: set<T> := {};
      var i := 0;
      while i < |s|
        invariant 0 <= i <= |s|
        invariant n == i - |Dedup(s[..i])|
        invariant seen == Elements(s[..i])
      {
        DedupSnoc(s[..i], s[i]);
        ElementsSnoc(s[..i], s[i]);
        assert s[..i + 1] == s[..i] + [s[i]];
        if s[i] in seen {
          n := n + 1;
        } else {
          seen := seen + {s[i]};
        }
        i := i + 1;
      }
      assert s[..i] == s;
      DuplicateCount(s);
    }

    /** `drop(labels, inplace=True)` with the labels read positionally: removes the rows
        whose flag is set. */
    method DropRows(drop: seq<bool>)
      requires |drop| == |rows|
      modifies this
      ensures rows == Without(old(rows), drop)
    {
      var s := rows;
      var kept: seq<T> := [];
      var i := 0;
      while i < |s|
        invariant |drop| == |s|
        invariant 0 <= i <= |s|
        invariant kept == Without(s[..i], drop[..i])
      {
        WithoutPrefixStep(s, drop, i);
        if !drop[i] {
          kept := kept + [s[i]];
        }
        i := i + 1;
      }
      assert s[..i] == s && drop[..i] == drop;
      rows := kept;
    }
  }
}
