/** `OrderFlowBuffer`: a fixed-capacity circular buffer of tick rows. */
module OrderFlowBuffers {
  import opened Wrappers
  import opened Ticks

  datatype ConfigError = NonPositiveCapacity   // ValueError("capacity must be positive")

  function Min(a: int, b: int): int { if a <= b then a else b }

  /** A row no reader ever sees: the content of a slot not yet written. */
  const BlankRow := TickRow(0.0, 0, 0, Unset)

  class OrderFlowBuffer {
    const capacity: nat
    const data: array<TickRow>
    var writeIdx: nat
    var size: nat
    /** Every row ever appended, oldest first. */
    ghost var appended: seq<TickRow>

    /** The slot `k % capacity` holds the `k`-th appended row for each of the
        last `size` rows; the cursor is the slot of the next row. */
    ghost predicate Valid()
      reads this, data
    {
      && capacity > 0
      && data.Length == capacity
      && writeIdx == |appended| % capacity
      && size == Min(|appended|, capacity)
      && forall k :: |appended| - size <= k < |appended| ==> data[k % capacity] == appended[k]
    }

    /** `__init__` for a positive capacity. */
    constructor (capacity: nat)
      requires capacity > 0
      ensures Valid() && fresh(data)
      ensures this.capacity == capacity && appended == []
      ensures size == 0 && writeIdx == 0
    {
      this.capacity := capacity;
      data := new TickRow[capacity](_ => BlankRow);
      writeIdx, size := 0, 0;
      appended := [];
    }

    /** `OrderFlowBuffer(capacity)`: fails when `capacity <= 0`. */
    static method Create(capacity: int) returns (r: Result<OrderFlowBuffer, ConfigError>)
      ensures capacity <= 0 <==> r.Failure?
      ensures r.Success? ==>
        && fresh(r.value) && fresh(r.value.data) && r.value.Valid()
        && r.value.capacity == capacity && r.value.appended == []
        && r.value.size == 0 && r.value.writeIdx == 0
    {
      if capacity <= 0 {
        return Failure(NonPositiveCapacity);
      }
      var b := new OrderFlowBuffer(capacity);
      return Success(b);
    }

    /** `append`: writes the row at the cursor, advances the cursor modulo the
        capacity and grows `size` up to the capacity. `now` is the clock reading. */
    method Append(tickerId: int, tickType: int, snapshot: Snapshot, now: real)
      requires Valid()
      modifies this, data
      ensures Valid()
      ensures appended == old(appended) + [TickRow(now, tickerId, tickType, snapshot)]
      ensures data[old(writeIdx)] == TickRow(now, tickerId, tickType, snapshot)
      ensures forall i :: 0 <= i < data.Length && i != old(writeIdx) ==> data[i] == old(data[i])
      ensures writeIdx == (old(writeIdx) + 1) % capacity
      ensures size == Min(old(size) + 1, capacity)
    {
      var row := TickRow(now, tickerId, tickType, snapshot);
      ghost var n := |appended|;
      data[writeIdx] := row;
      ModSucc(n, capacity);
      writeIdx := (writeIdx + 1) % capacity;
      if size < capacity {
        size := size + 1;
      }
      appended := appended + [row];
      forall k | n + 1 - size <= k < n + 1
        ensures data[k % capacity] == appended[k]
      {
        if k < n {
          ModDistinct(k, n, capacity);
        }
      }
    }

    /** `to_array`: the stored rows, oldest first; exactly the last
        `min(N, capacity)` of the `N` rows appended, in append order. */
    function ToArray(): (r: seq<TickRow>)
      reads this, data
      requires Valid()
      ensures |r| == size == Min(|appended|, capacity)
      ensures r == appended[|appended| - size..]
      ensures size == 0 ==> r == []
    {
      if size == 0 then []
      else
        var idx := (writeIdx - size) % capacity;
        if idx + size <= capacity then
          ToArrayContiguous(idx);
          data[idx..idx + size]
        else
          ToArrayWrapped(idx);
          data[idx..] + data[..writeIdx]
    }

    /** `tail(n)`: the last `min(n, size)` rows, oldest first; empty when
        `n <= 0` or the buffer is empty. */
    function Tail(n: int): (r: seq<TickRow>)
      reads this, data
      requires Valid()
      ensures n <= 0 || size == 0 ==> r == []
      ensures n > 0 ==> |r| == Min(n, size) && r == appended[|appended| - Min(n, size)..]
      ensures n > 0 ==> r == ToArray()[size - Min(n, size)..]
    {
      if n <= 0 || size == 0 then [] else Newest(Min(n, size))
    }

    /** The `m` rows behind the cursor, read slot by slot. */
    function Newest(m: int): (r: seq<TickRow>)
      reads this, data
      requires Valid() && 0 < m <= size
      ensures r == appended[|appended| - m..]
    {
      var r := seq(m, j requires 0 <= j < m reads this, data => data[(writeIdx - m + j) % capacity]);
      assert r == appended[|appended| - m..] by {
        forall j | 0 <= j < m ensures r[j] == appended[|appended| - m + j] {
          TailSlot(m, j);
        }
      }
      r
    }

    /** Walking back `m` slots from the cursor reaches the row `m` places
        before the newest. */
    lemma TailSlot(m: int, j: int)
      requires Valid() && 0 <= j < m <= size
      ensures data[(writeIdx - m + j) % capacity] == appended[|appended| - m + j]
    {
      var k := |appended| - m + j;
      ModShift(|appended|, writeIdx, j - m, capacity);
      assert data[k % capacity] == appended[k];
    }

    /** The two slices `to_array` concatenates are the last `size` rows:
        one slice when they do not wrap around the end of the array, ... */
    lemma ToArrayContiguous(idx: int)
      requires Valid() && size > 0 && idx == (writeIdx - size) % capacity
      requires idx + size <= capacity
      ensures data[idx..idx + size] == appended[|appended| - size..]
    {
      var t := appended[|appended| - size..];
      var r := data[idx..idx + size];
      forall j | 0 <= j < size ensures r[j] == t[j] {
        Slot(j);
        ModSmall(idx + j, capacity);
      }
    }

    /** ... and the slots from the oldest to the end, then the slots before
        the cursor, when they do. */
    lemma ToArrayWrapped(idx: int)
      requires Valid() && size > 0 && idx == (writeIdx - size) % capacity
      requires idx + size > capacity
      ensures data[idx..] + data[..writeIdx] == appended[|appended| - size..]
    {
      var t := appended[|appended| - size..];
      var r := data[idx..] + data[..writeIdx];
      ModShift(writeIdx - size, idx, size, capacity);
      ModSmall(writeIdx, capacity);
      assert idx + size == writeIdx + capacity by {
        ModMinus(idx + size, capacity);
        ModSmall(idx + size - capacity, capacity);
      }
      forall j | 0 <= j < size ensures r[j] == t[j] {
        Slot(j);
        if j < capacity - idx {
          ModSmall(idx + j, capacity);
        } else {
          ModSmall(idx + j - capacity, capacity);
          ModMinus(idx + j, capacity);
        }
      }
    }

    /** The `j`-th stored row, counted from the oldest, sits in slot
        `(write_idx - size + j) % capacity`. */
    lemma Slot(j: int)
      requires Valid() && 0 <= j < size
      ensures data[((writeIdx - size) % capacity + j) % capacity] == appended[|appended| - size + j]
    {
      var k := |appended| - size + j;
      SlotIndex(|appended|, writeIdx, size, j, capacity);
      assert data[k % capacity] == appended[k];
    }
  }

  lemma SlotIndex(n: int, w: int, size: int, j: int, c: int)
    requires c > 0 && w == n % c
    ensures ((w - size) % c + j) % c == (n - size + j) % c
  {
    ModShift(w - size, (w - size) % c, j, c);
    ModShift(n, w, j - size, c);
  }

  lemma ModSucc(n: int, c: int)
    requires c > 0
    ensures (n % c + 1) % c == (n + 1) % c
  {
    ModShift(n, n % c, 1, c);
  }

  /** A residue shifted by `d` is the residue of the shifted number. */
  lemma ModShift(n: int, w: int, d: int, c: int)
    requires c > 0 && w == n % c
    ensures (w + d) % c == (n + d) % c
  {
    var q := n / c;
    assert n == q * c + w;
    ModMultiple(q, w + d, c);
  }

  lemma ModMultiple(q: int, x: int, c: int)
    requires c > 0
    ensures (q * c + x) % c == x % c
  {
    var qx := x / c;
    assert x == qx * c + x % c;
    assert q * c + x == (q + qx) * c + x % c;
    ModUnique(q * c + x, q + qx, x % c, c);
  }

  /** The remainder is the only value in `[0, c)` congruent to `x`. */
  lemma ModUnique(x: int, q: int, r: int, c: int)
    requires c > 0 && 0 <= r < c && x == q * c + r
    ensures x % c == r
  {
    var q', r' := x / c, x % c;
    assert x == q' * c + r';
    assert (q - q') * c == r' - r;
    MulBound(q - q', c, r' - r);
  }

  /** A multiple of `c` strictly between `-c` and `c` is zero. */
  lemma MulBound(d: int, c: int, p: int)
    requires c > 0 && d * c == p && -c < p < c
    ensures d == 0 && p == 0
  {
    if d >= 1 {
      assert d * c == c + (d - 1) * c;
      MulNonNeg(d - 1, c);
    } else if d <= -1 {
      assert d * c == -c - (-d - 1) * c;
      MulNonNeg(-d - 1, c);
    }
  }

  lemma MulNonNeg(a: int, b: int)
    requires a >= 0 && b >= 0
    ensures a * b >= 0
  {
  }

  lemma ModSmall(x: int, c: int)
    requires 0 <= x < c
    ensures x % c == x
  {
  }

  lemma ModMinus(x: int, c: int)
    requires c > 0
    ensures x % c == (x - c) % c
  {
    ModMultiple(-1, x, c);
  }

  /** Two numbers less than `c` apart fall in different slots. */
  lemma ModDistinct(a: int, b: int, c: int)
    requires c > 0 && a < b < a + c
    ensures a % c != b % c
  {
    var qa, qb := a / c, b / c;
    assert a == qa * c + a % c;
    assert b == qb * c + b % c;
    if a % c == b % c {
      assert (qb - qa) * c == b - a;
      MulBound(qb - qa, c, b - a);
    }
  }
}
