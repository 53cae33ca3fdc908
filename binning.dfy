/** Python floats as exact reals, and the price-bin key of the order-flow windows. */
module PyNum {
  import opened Wrappers

  /** A float that may be NaN: `None` is NaN ("unset"). */
  type Num = Option<real>

  /** Python `int(x)` for a float: truncation toward zero. */
  function Trunc(x: real): (r: int)
    ensures r as real <= x < r as real + 1.0 || r as real - 1.0 < x <= r as real
    ensures x >= 0.0 ==> 0 <= r && r as real <= x < r as real + 1.0
    ensures x <= 0.0 ==> r <= 0 && r as real - 1.0 < x <= r as real
  {
    if x >= 0.0 then x.Floor else -((-x).Floor)
  }
}

module Binning {
  import opened Wrappers
  import opened PyNum

  datatype BinError =
    | NanPrice      // ValueError("Price cannot be NaN ...")
    | ZeroBinSize   // ZeroDivisionError from price / bin_size

  /** `_bin_key`: `floor(price / bin_size) * bin_size`; NaN is rejected. */
  function BinKey(price: Num, binSize: real): (r: Result<real, BinError>)
    ensures price.None? ==> r == Failure(NanPrice)
    ensures price.Some? && binSize == 0.0 ==> r == Failure(ZeroBinSize)
    ensures price.Some? && binSize != 0.0 ==> r.Success? && r.value == BinIndex(price.value, binSize) as real * binSize
  {
    match price
    case None => Failure(NanPrice)
    case Some(p) =>
      if binSize == 0.0 then Failure(ZeroBinSize)
      else Success(BinIndex(p, binSize) as real * binSize)
  }

  /** The number of the bin holding `price`: `floor(price / bin_size)`. */
  function BinIndex(price: real, binSize: real): int
    requires binSize != 0.0
  {
    (price / binSize).Floor
  }

  /** The bin of a price contains it: `key <= price < key + bin_size`. */
  lemma BinKeyBounds(price: real, binSize: real)
    requires binSize > 0.0
    ensures BinKey(Some(price), binSize).Success?
    ensures var key := BinKey(Some(price), binSize).value;
      key <= price < key + binSize
  {
    var f := BinIndex(price, binSize) as real;
    ScaleBounds(f, price / binSize, f + 1.0, binSize);
    DivMul(price, binSize);
    assert BinKey(Some(price), binSize).value == f * binSize;
  }

  /** Scaling `f <= q < g = f + 1` by a positive `b`. */
  lemma ScaleBounds(f: real, q: real, g: real, b: real)
    requires f <= q < g && g == f + 1.0 && b > 0.0
    ensures f * b <= q * b && q * b < g * b && g * b == f * b + b
  {
    MulMono(f, q, b);
    MulMonoStrict(q, g, b);
  }

  lemma DivMul(p: real, b: real)
    requires b != 0.0
    ensures (p / b) * b == p
  {
  }

  /** The bin is the only multiple of `binSize` whose interval holds the price. */
  lemma BinKeyUnique(price: real, binSize: real, n: int)
    requires binSize > 0.0
    requires n as real * binSize <= price < (n + 1) as real * binSize
    ensures BinKey(Some(price), binSize).Success?
    ensures BinKey(Some(price), binSize).value == n as real * binSize
  {
    var q := price / binSize;
    assert q * binSize == price;
    if q < n as real {
      MulMonoStrict(q, n as real, binSize);
    }
    if q >= (n + 1) as real {
      MulMono((n + 1) as real, q, binSize);
    }
    assert n as real <= q < (n + 1) as real;
    assert q.Floor == n;
  }

  lemma MulMono(a: real, b: real, c: real)
    requires a <= b && c > 0.0
    ensures a * c <= b * c
  {
    assert b * c - a * c == (b - a) * c;
  }

  lemma MulMonoStrict(a: real, b: real, c: real)
    requires a < b && c > 0.0
    ensures a * c < b * c
  {
    assert b * c - a * c == (b - a) * c;
  }
}
