/** `_find_free_rows`: scan the streaming table from `start_index` and
    collect the indices of rows that `np.allclose(row, 0.0)` calls free,
    stopping once `count` have been found. */
module FreeRows {
  import opened Wrappers
  import opened PySeq

  /** `np.allclose(row, 0.0)` with the default tolerances: every entry is
      within `atol = 1e-8` of zero (`rtol * |0|` adds nothing). */
  const Atol: real := 0.00000001

  predicate RowFree(table: array2<real>, row: nat)
    reads table
    requires row < table.Length0
  {
    forall j :: 0 <= j < table.Length1 ==> -Atol <= table[row, j] <= Atol
  }

  /** Row index `idx` as Python reads `streaming_table[idx]`. */
  predicate Free(table: array2<real>, idx: int)
    reads table
    requires -table.Length0 <= idx < table.Length0
  {
    RowFree(table, Index(idx, table.Length0).value)
  }

  /** The free indices in `a` … `b - 1`, ascending. */
  function FreeIn(table: array2<real>, a: int, b: int): (r: seq<int>)
    reads table
    requires -table.Length0 <= a && b <= table.Length0
    decreases b - a
  {
    if b <= a then []
    else FreeIn(table, a, b - 1) + (if Free(table, b - 1) then [b - 1] else [])
  }

  /** Every free index in the range, and nothing else, in strictly
      increasing order. */
  lemma {:induction false} FreeInSpec(table: array2<real>, a: int, b: int)
    requires -table.Length0 <= a && b <= table.Length0
    ensures forall k :: 0 <= k < |FreeIn(table, a, b)| ==>
      a <= FreeIn(table, a, b)[k] < b && Free(table, FreeIn(table, a, b)[k])
    ensures forall k, l :: 0 <= k < l < |FreeIn(table, a, b)| ==> FreeIn(table, a, b)[k] < FreeIn(table, a, b)[l]
    ensures forall i :: a <= i < b && Free(table, i) ==> i in FreeIn(table, a, b)
    decreases b - a
  {
    if a < b {
      FreeInSpec(table, a, b - 1);
      var p := FreeIn(table, a, b - 1);
      var r := FreeIn(table, a, b);
      if Free(table, b - 1) {
        assert r == p + [b - 1];
        forall k | 0 <= k < |r| ensures a <= r[k] < b && Free(table, r[k]) {
          if k < |p| {
            assert r[k] == p[k];
          }
        }
        forall k, l | 0 <= k < l < |r| ensures r[k] < r[l] {
          assert r[k] == p[k];
          if l < |p| {
            assert r[l] == p[l];
          }
        }
      } else {
        assert r == p;
      }
    }
  }

  /** Scanning further only adds indices at the end. */
  lemma {:induction false} FreeInPrefix(table: array2<real>, a: int, b: int, c: int)
    requires -table.Length0 <= a <= b <= c <= table.Length0
    ensures FreeIn(table, a, b) <= FreeIn(table, a, c)
    decreases c - b
  {
    if b < c {
      FreeInPrefix(table, a, b, c - 1);
    }
  }

  /** What the scan returns: with `count >= 1`, the first `count` free rows
      (all of them when there are fewer). With `count == 0` the early exit
      is only taken on the first row when that row is not free; otherwise
      the length never equals `count` again and every free row is
      returned, as it is for a negative `count`. */
  function Expected(table: array2<real>, start: int, count: int): (r: seq<int>)
    reads table
    requires -table.Length0 <= start
  {
    var n := table.Length0;
    var all := if start < n then FreeIn(table, start, n) else [];
    if count >= 1 then (if |all| <= count then all else all[..count])
    else if count == 0 && start < n && !Free(table, start) then []
    else all
  }

  /** `IndexError` of `streaming_table[idx]` for a start before the first row. */
  datatype IndexError = RowOutOfRange

  method FindFreeRows(table: array2<real>, start: int, count: int) returns (r: Result<seq<int>, IndexError>)
    ensures r.Failure? <==> start < -table.Length0
    ensures r.Success? ==> r.value == Expected(table, start, count)
  {
    var n := table.Length0;
    if start < -n {
      return Failure(RowOutOfRange);
    }
    var free: seq<int> := [];
    var idx := start;
    while idx < n
      invariant start <= idx && (start < n ==> idx <= n)
      invariant free == if start < n then FreeIn(table, start, idx) else []
      invariant count >= 1 ==> |free| < count
      invariant count == 0 && idx > start ==> |free| > 0 && Free(table, start)
      decreases n - idx
    {
      if Free(table, idx) {
        free := free + [idx];
      }
      if |free| == count {
        FreeInPrefix(table, start, idx + 1, n);
        return Success(free);
      }
      idx := idx + 1;
    }
    return Success(free);
  }

  /** The guarantees the scan gives: strictly increasing free indices, no
      smaller than `start`, at most `count` of them when `count >= 1`, and no
      free row skipped before the last one returned. */
  lemma ExpectedSpec(table: array2<real>, start: int, count: int)
    requires -table.Length0 <= start
    ensures var r := Expected(table, start, count);
      && (forall k :: 0 <= k < |r| ==> start <= r[k] < table.Length0 && Free(table, r[k]))
      && (forall k, l :: 0 <= k < l < |r| ==> r[k] < r[l])
      && (count >= 1 ==> |r| <= count)
      && (|r| > 0 ==> forall i :: start <= i < r[|r| - 1] && Free(table, i) ==> i in r)
      && ((count >= 1 && |r| < count) || count < 0 ==>
            forall i :: start <= i < table.Length0 && Free(table, i) ==> i in r)
  {
    var n := table.Length0;
    if start < n {
      FreeInSpec(table, start, n);
      var all := FreeIn(table, start, n);
      var r := Expected(table, start, count);
      assert r <= all;
      forall i | start <= i < n && Free(table, i) && |r| > 0 && i < r[|r| - 1]
        ensures i in r
      {
        var k :| 0 <= k < |all| && all[k] == i;
        assert all[|r| - 1] == r[|r| - 1];
      }
    }
  }
}
