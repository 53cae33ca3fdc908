/** The flat streaming matrix of the reference trading script: one row
    per streamed instrument (stocks first, then options, then trade slots)
    and six columns (0 last or close price, 1 bid, 2 ask, 3 volume, 4 summed
    bid sizes, 5 summed ask sizes). `tickPrice` and `tickSize` write into it
    in place; the streamed-stock selection reads it. */
module TgStreaming {
  import opened Wrappers
  import opened PySeq
  import opened PyNum

  /** The six columns `np.zeros((rows, 6))` gives the matrix. */
  const Columns := 6

  /** `IndexError` of `streaming_STK_OPT_TRADE[reqId, c]`. */
  datatype IndexError = RowOutOfRange

  // ------------------------------------------------------------ tickPrice

  /** The column `tickPrice` writes the price to: bid (type 1) and ask (type
      2) on every row, last (type 4) and close (type 9) only on the first
      `stkNb` (stock) rows. */
  function PriceColumn(reqId: int, stkNb: int, tickType: int): (c: Option<nat>)
  {
    if reqId < stkNb then
      if tickType == 1 then Some(1)
      else if tickType == 2 then Some(2)
      else if tickType == 4 || tickType == 9 then Some(0)
      else None
    else
      if tickType == 1 then Some(1)
      else if tickType == 2 then Some(2)
      else None
  }

  /** The cell a tick writes, if any: its column together with the row
      Python's indexing makes of `reqId`. */
  function Cell(reqId: int, rows: nat, column: Option<nat>): Option<(nat, nat)>
  {
    match column
    case None => None
    case Some(c) =>
      match Index(reqId, rows)
      case None => None
      case Some(row) => Some((row, c))
  }

  /** Bid and ask prices land in columns 1 and 2 of any row; the price
      column 0 only ever receives last or close prices of stock rows; no
      other tick type writes. */
  lemma PriceColumnSpec(reqId: int, stkNb: int, tickType: int)
    ensures PriceColumn(reqId, stkNb, tickType).Some? <==>
      tickType == 1 || tickType == 2 || ((tickType == 4 || tickType == 9) && reqId < stkNb)
    ensures tickType == 1 || tickType == 2 ==> PriceColumn(reqId, stkNb, tickType) == Some(tickType)
    ensures PriceColumn(reqId, stkNb, tickType) == Some(0) <==> (tickType == 4 || tickType == 9) && reqId < stkNb
    ensures PriceColumn(reqId, stkNb, tickType).Some? ==> PriceColumn(reqId, stkNb, tickType).value < 3
  {
  }

  /** Store `v` at row `reqId` (Python indexing), column `c`. */
  method Store(m: array2<real>, reqId: int, c: nat, v: real) returns (r: Result<(), IndexError>)
    requires c < m.Length1
    modifies m
    ensures r.Failure? <==> Index(reqId, m.Length0).None?
    ensures forall i, j :: 0 <= i < m.Length0 && 0 <= j < m.Length1 ==>
      m[i, j] == if Cell(reqId, m.Length0, Some(c)) == Some((i, j)) then v else old(m[i, j])
  {
    match Index(reqId, m.Length0)
    case None =>
      return Failure(RowOutOfRange);
    case Some(row) =>
      m[row, c] := v;
      return Success(());
  }

  /** `tickPrice`: writes the price into the one cell `PriceColumn` names
      and changes nothing else; a row outside the matrix raises. */
  method TickPrice(m: array2<real>, stkNb: int, reqId: int, tickType: int, price: real)
    returns (r: Result<(), IndexError>)
    requires m.Length1 == Columns
    modifies m
    ensures r.Failure? <==> PriceColumn(reqId, stkNb, tickType).Some? && Index(reqId, m.Length0).None?
    ensures forall i, j :: 0 <= i < m.Length0 && 0 <= j < m.Length1 ==>
      m[i, j] == if Cell(reqId, m.Length0, PriceColumn(reqId, stkNb, tickType)) == Some((i, j))
                 then price else old(m[i, j])
  {
    r := Success(());
    if reqId < stkNb {
      if tickType == 1 {
        r := Store(m, reqId, 1, price);
      }
      if tickType == 2 {
        r := Store(m, reqId, 2, price);
      }
      if tickType == 4 {
        r := Store(m, reqId, 0, price);
      } else if tickType == 9 {
        r := Store(m, reqId, 0, price);
      }
    }
    if reqId >= stkNb {
      if tickType == 1 {
        r := Store(m, reqId, 1, price);
      }
      if tickType == 2 {
        r := Store(m, reqId, 2, price);
      }
    }
  }

  // ------------------------------------------------------------ tickSize

  /** The column `tickSize` updates: on stock rows only, volume (type 8) in
      column 3, bid size (type 0) in column 4, ask size (type 3) in column 5. */
  function SizeColumn(reqId: int, stkNb: int, tickType: int): (c: Option<nat>)
  {
    if reqId < stkNb then
      if tickType == 8 then Some(3)
      else if tickType == 0 then Some(4)
      else if tickType == 3 then Some(5)
      else None
    else None
  }

  /** The new content of the updated cell: the volume is overwritten, the
      bid and ask sizes accumulate `int(size)`. */
  function SizeValue(column: nat, current: real, size: real): real {
    if column == 3 then size else current + Trunc(size) as real
  }

  /** Only stock rows and the three size tick types are touched, each in
      its own column. */
  lemma SizeColumnSpec(reqId: int, stkNb: int, tickType: int)
    ensures SizeColumn(reqId, stkNb, tickType).Some? <==>
      reqId < stkNb && (tickType == 0 || tickType == 3 || tickType == 8)
    ensures SizeColumn(reqId, stkNb, tickType).Some? ==>
      3 <= SizeColumn(reqId, stkNb, tickType).value < Columns
  {
  }

  /** Successive bid or ask size ticks add up their truncated sizes, and a
      volume tick forgets what was there. */
  lemma SizesAccumulate(column: nat, current: real, a: real, b: real)
    ensures column != 3 ==>
      SizeValue(column, SizeValue(column, current, a), b) == current + (Trunc(a) + Trunc(b)) as real
    ensures column == 3 ==> SizeValue(column, SizeValue(column, current, a), b) == b
  {
  }

  /** Add `int(size)` to the cell at row `reqId`, column `c`. */
  method Accumulate(m: array2<real>, reqId: int, c: nat, size: real) returns (r: Result<(), IndexError>)
    requires c < m.Length1 && c != 3
    modifies m
    ensures r.Failure? <==> Index(reqId, m.Length0).None?
    ensures forall i, j :: 0 <= i < m.Length0 && 0 <= j < m.Length1 ==>
      m[i, j] == if Cell(reqId, m.Length0, Some(c)) == Some((i, j))
                 then SizeValue(c, old(m[i, j]), size) else old(m[i, j])
  {
    match Index(reqId, m.Length0)
    case None =>
      return Failure(RowOutOfRange);
    case Some(row) =>
      m[row, c] := m[row, c] + Trunc(size) as real;
      return Success(());
  }

  /** `tickSize`: updates the one cell `SizeColumn` names as `SizeValue`
      says and changes nothing else; a row outside the matrix raises. */
  method TickSize(m: array2<real>, stkNb: int, reqId: int, tickType: int, size: real)
    returns (r: Result<(), IndexError>)
    requires m.Length1 == Columns
    modifies m
    ensures r.Failure? <==> SizeColumn(reqId, stkNb, tickType).Some? && Index(reqId, m.Length0).None?
    ensures forall i, j :: 0 <= i < m.Length0 && 0 <= j < m.Length1 ==>
      m[i, j] == if Cell(reqId, m.Length0, SizeColumn(reqId, stkNb, tickType)) == Some((i, j))
                 then SizeValue(j, old(m[i, j]), size) else old(m[i, j])
  {
    r := Success(());
    if reqId < stkNb {
      if tickType == 8 {
        r := Store(m, reqId, 3, size);
      }
      if tickType == 0 {
        r := Accumulate(m, reqId, 4, size);
      }
      if tickType == 3 {
        r := Accumulate(m, reqId, 5, size);
      }
    }
  }

  // ------------------------------------------------------------ selection

  /** A stock row is streaming when its price, bid and volume cells are all
      non-zero. */
  predicate Streamed(m: array2<real>, i: nat)
    reads m
    requires i < m.Length0 && m.Length1 == Columns
  {
    m[i, 0] != 0.0 && m[i, 1] != 0.0 && m[i, 3] != 0.0
  }

  /** The streaming rows among the first `n`, ascending. */
  function StreamedIn(m: array2<real>, n: nat): seq<nat>
    reads m
    requires n <= m.Length0 && m.Length1 == Columns
  {
    if n == 0 then []
    else StreamedIn(m, n - 1) + (if Streamed(m, n - 1) then [n - 1] else [])
  }

  /** Exactly the streaming rows below `n`, in strictly increasing order. */
  lemma {:induction false} StreamedInSpec(m: array2<real>, n: nat)
    requires n <= m.Length0 && m.Length1 == Columns
    ensures forall k :: 0 <= k < |StreamedIn(m, n)| ==>
      StreamedIn(m, n)[k] < n && Streamed(m, StreamedIn(m, n)[k])
    ensures forall k, l :: 0 <= k < l < |StreamedIn(m, n)| ==> StreamedIn(m, n)[k] < StreamedIn(m, n)[l]
    ensures forall i :: 0 <= i < n && Streamed(m, i) ==> i in StreamedIn(m, n)
  {
    if n > 0 {
      StreamedInSpec(m, n - 1);
      var p := StreamedIn(m, n - 1);
      var r := StreamedIn(m, n);
      if Streamed(m, n - 1) {
        assert r == p + [n - 1];
        forall k | 0 <= k < |r| ensures r[k] < n && Streamed(m, r[k]) {
          if k < |p| {
            assert r[k] == p[k];
          }
        }
        forall k, l | 0 <= k < l < |r| ensures r[k] < r[l] {
          assert r[k] == p[k];
          if l < |p| {
            assert r[l] == p[l];
          }
        }
      } else {
        assert r == p;
      }
    }
  }

  /** The selection loop over the stock symbols: the indices of the
      streaming stock rows in ascending order, with their symbols. The stock
      rows come first in the matrix, so there are at least as many rows as
      stock symbols. */
  method SelectStreamed(m: array2<real>, symbols: seq<string>) returns (names: seq<string>, indices: seq<nat>)
    requires |symbols| <= m.Length0 && m.Length1 == Columns
    ensures indices == StreamedIn(m, |symbols|)
    ensures |names| == |indices|
    ensures forall k :: 0 <= k < |indices| ==> indices[k] < |symbols| && names[k] == symbols[indices[k]]
  {
    names, indices := [], [];
    StreamedInSpec(m, |symbols|);
    for i := 0 to |symbols|
      invariant indices == StreamedIn(m, i)
      invariant |names| == |indices|
      invariant forall k :: 0 <= k < |indices| ==> indices[k] < i && names[k] == symbols[indices[k]]
    {
      StreamedInSpec(m, i);
      if m[i, 0] != 0.0 && m[i, 1] != 0.0 && m[i, 3] != 0.0 {
        names := names + [symbols[i]];
        indices := indices + [i];
      }
    }
  }
}
