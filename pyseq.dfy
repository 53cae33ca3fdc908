/** Python slicing with clamped bounds and negative indices. */
module PySeq {
  import opened Wrappers

  /** The position `s[i]` reads in a sequence of length `n`: negative indices
      count from the end; `None` is the `IndexError`. */
  function Index(i: int, n: nat): (r: Option<nat>)
    ensures r.Some? <==> -(n as int) <= i < n
    ensures r.Some? ==> r.value < n && (r.value == i || r.value == n + i)
  {
    if 0 <= i < n then Some(i)
    else if -(n as int) <= i < 0 then Some(n + i)
    else None
  }
  /** `s[:n]` */
  function SliceTo<T>(s: seq<T>, n: int): (r: seq<T>)
    ensures |r| == if n >= 0 then (if n <= |s| then n else |s|) else (if |s| + n >= 0 then |s| + n else 0)
    ensures forall i :: 0 <= i < |r| ==> r[i] == s[i]
  {
    var m := if n >= 0 then n else |s| + n;
    s[..if m < 0 then 0 else if m > |s| then |s| else m]
  }

  /** `s[a:b]` for `0 <= a`, `0 <= b` (bounds past the end are clamped). */
  function Slice<T>(s: seq<T>, a: nat, b: nat): (r: seq<T>)
    ensures |r| == if a <= b && a <= |s| then (if b <= |s| then b else |s|) - a else 0
    ensures forall i :: 0 <= i < |r| ==> r[i] == s[a + i]
  {
    var hi := if b <= |s| then b else |s|;
    if a <= hi then s[a..hi] else []
  }
}
