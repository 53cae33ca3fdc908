/** `SlidingHistogram`: traded volume per price bin over a sliding time window. */
module SlidingHistograms {
  import opened Wrappers
  import opened PyNum
  import opened PyDict
  import opened PySeq
  import opened Binning
  import opened TimeWindows

  /** `(timestamp, bin_key, value)` */
  type FlowEvent = Event<real, real>

  /** The summed value of the events carrying key `k`. */
  function KeySum(s: seq<FlowEvent>, k: real): real {
    if s == [] then 0.0
    else (if s[0].key == k then s[0].value else 0.0) + KeySum(s[1..], k)
  }

  /** The keys of the events in `s`. */
  function KeysOf(s: seq<FlowEvent>): set<real> {
    if s == [] then {} else {s[0].key} + KeysOf(s[1..])
  }

  lemma {:induction false} KeySumAppend(s: seq<FlowEvent>, e: FlowEvent, k: real)
    ensures KeySum(s + [e], k) == KeySum(s, k) + (if e.key == k then e.value else 0.0)
    ensures KeysOf(s + [e]) == KeysOf(s) + {e.key}
  {
    if s != [] {
      assert (s + [e])[1..] == s[1..] + [e];
      KeySumAppend(s[1..], e, k);
    }
  }

  /** A key no queued event carries sums to zero. */
  lemma {:induction false} KeySumOutside(s: seq<FlowEvent>, k: real)
    requires k !in KeysOf(s)
    ensures KeySum(s, k) == 0.0
  {
    if s != [] {
      KeySumOutside(s[1..], k);
    }
  }

  /** `hist` holds, for each bin, the sum of the events of that bin, and has
      an entry only for bins some event carries. */
  ghost predicate Tracks(hist: Dict<real, real>, events: seq<FlowEvent>) {
    && DistinctKeys(hist)
    && (forall k :: Get(hist, k).GetOr(0.0) == KeySum(events, k))
    && (forall k :: Get(hist, k).Some? ==> k in KeysOf(events))
  }

  /** `hist[bin_key] += value` for a newly queued event. */
  function Credit(hist: Dict<real, real>, e: FlowEvent): Dict<real, real> {
    Set(hist, e.key, Get(hist, e.key).GetOr(0.0) + e.value)
  }

  /** `hist[bin_key] -= val`, deleting the bin when it reaches zero. */
  function Debit(hist: Dict<real, real>, e: FlowEvent): Dict<real, real>
    requires DistinctKeys(hist)
  {
    var v := Get(hist, e.key).GetOr(0.0) - e.value;
    if v == 0.0 then Delete(hist, e.key) else Set(hist, e.key, v)
  }

  lemma CreditTracks(hist: Dict<real, real>, events: seq<FlowEvent>, e: FlowEvent)
    requires Tracks(hist, events)
    ensures Tracks(Credit(hist, e), events + [e])
  {
    SetDistinct(hist, e.key, Get(hist, e.key).GetOr(0.0) + e.value);
    forall k ensures KeySum(events + [e], k) == KeySum(events, k) + (if e.key == k then e.value else 0.0)
      && KeysOf(events + [e]) == KeysOf(events) + {e.key}
    {
      KeySumAppend(events, e, k);
    }
  }

  lemma DebitTracks(hist: Dict<real, real>, events: seq<FlowEvent>)
    requires Tracks(hist, events) && events != []
    ensures Tracks(Debit(hist, events[0]), events[1..])
    ensures Get(Debit(hist, events[0]), events[0].key).Some? ==>
      Get(Debit(hist, events[0]), events[0].key).value != 0.0
    ensures forall k :: k != events[0].key ==> Get(Debit(hist, events[0]), k) == Get(hist, k)
  {
    var e := events[0];
    var v := Get(hist, e.key).GetOr(0.0) - e.value;
    if v != 0.0 {
      SetDistinct(hist, e.key, v);
    }
    forall k ensures Get(Debit(hist, e), k).GetOr(0.0) == KeySum(events[1..], k)
      ensures Get(Debit(hist, e), k).Some? ==> k in KeysOf(events[1..])
    {
      DebitAt(hist, events, k);
    }
  }

  /** One bin's entry after `Debit`: it sums the remaining events. */
  lemma DebitAt(hist: Dict<real, real>, events: seq<FlowEvent>, k: real)
    requires Tracks(hist, events) && events != []
    ensures Get(Debit(hist, events[0]), k).GetOr(0.0) == KeySum(events[1..], k)
    ensures Get(Debit(hist, events[0]), k).Some? ==> k in KeysOf(events[1..])
  {
    var e, rest := events[0], events[1..];
    assert KeySum(events, k) == (if e.key == k then e.value else 0.0) + KeySum(rest, k);
    assert KeysOf(events) == {e.key} + KeysOf(rest);
    if k == e.key && Get(Debit(hist, e), k).Some? && k !in KeysOf(rest) {
      KeySumOutside(rest, k);
    }
  }

  /** The event `add` queues for a tick: none for an unset price or value,
      a zero value or a zero bin size; otherwise one event in the price's bin. */
  function Accepted(ts: real, price: Num, value: Num, binSize: real): (r: seq<FlowEvent>)
    ensures |r| <= 1
    ensures r != [] <==> price.Some? && value.Some? && value.value != 0.0 && binSize != 0.0
    ensures r != [] ==> r[0].ts == ts && r[0].value == value.value
    ensures r != [] && binSize > 0.0 ==> r[0].key <= price.value < r[0].key + binSize
  {
    if price.None? || value.None? || value.value == 0.0 || binSize == 0.0 then []
    else
      assert binSize > 0.0 ==> BinKey(price, binSize).value <= price.value < BinKey(price, binSize).value + binSize by {
        if binSize > 0.0 {
          BinKeyBounds(price.value, binSize);
        }
      }
      [Event(ts, BinKey(price, binSize).value, value.value)]
  }

  /** The `while` loop of `_expire`: pops from the front every event older
      than `threshold`, updating the map for each. */
  method Drain(events: seq<FlowEvent>, m: Dict<real, real>, ghost added: seq<FlowEvent>, ghost popped: nat, threshold: real)
    returns (queue: seq<FlowEvent>, sums: Dict<real, real>, ghost n: nat)
    requires Queue(added, popped, events) && Tracks(m, events)
    requires forall j :: 0 <= j < popped ==> added[j].ts < threshold
    ensures popped <= n <= |added| && Queue(added, n, queue) && Tracks(sums, queue)
    ensures SplitAt(added, n, threshold)
    ensures queue == events[n - popped..]
    ensures forall k :: k in KeysOf(events[..n - popped]) && Get(sums, k).Some? ==> Get(sums, k).value != 0.0
  {
    queue, sums, n := events, m, popped;
    while queue != [] && queue[0].ts < threshold
      invariant popped <= n <= |added|
      invariant Queue(added, n, queue) && Tracks(sums, queue)
      invariant n - popped <= |events| && queue == events[n - popped..]
      invariant forall j :: 0 <= j < n ==> added[j].ts < threshold
      invariant forall k :: k in KeysOf(events[..n - popped]) && Get(sums, k).Some? ==> Get(sums, k).value != 0.0
      decreases |queue|
    {
      assert events[..n - popped + 1] == events[..n - popped] + [queue[0]];
      KeySumAppend(events[..n - popped], queue[0], queue[0].key);
      DebitTracks(sums, queue);
      sums := Debit(sums, queue[0]);
      queue := queue[1..];
      n := n + 1;
    }
    forall j | n <= j < |added| ensures added[j].ts >= threshold {
      assert added[n].ts <= added[j].ts;
    }
  }

  class SlidingHistogram {
    const windowSeconds: real
    const binSize: real
    var events: seq<FlowEvent>
    var hist: Dict<real, real>
    /** Every event the window accepted; the first `popped` have expired. */
    ghost var added: seq<FlowEvent>
    ghost var popped: nat

    /** Each bin's entry is the sum over the queued events of that bin, and
        only bins with queued events have an entry. */
    ghost predicate Inv()
      reads this
    {
      Queue(added, popped, events) && Tracks(hist, events)
    }

    /** `Inv`, with every queued event inside the window of the latest one. */
    ghost predicate Valid()
      reads this
    {
      Inv() && Windowed(added, popped, windowSeconds)
    }

    constructor (windowSeconds: real, binSize: real)
      ensures Valid()
      ensures this.windowSeconds == windowSeconds && this.binSize == binSize
      ensures events == [] && hist == [] && added == []
    {
      this.windowSeconds := windowSeconds;
      this.binSize := binSize;
      events, hist := [], [];
      added, popped := [], 0;
    }

    /** Whether an event stamped `t` keeps the queue in time order. */
    ghost predicate AcceptsAt(t: real)
      reads this
    {
      InOrder(added, t)
    }

    /** `add`: ignores an unset price or value and a zero value; otherwise
        queues the event, adds the value to its bin and expires old events.
        A zero bin size raises before anything changes. */
    method Add(timestamp: real, price: Num, value: Num) returns (err: Option<BinError>)
      requires Valid() && AcceptsAt(timestamp)
      modifies this
      ensures Valid()
      ensures Accepted(timestamp, price, value, binSize) == [] ==> unchanged(this)
      ensures added == old(added) + Accepted(timestamp, price, value, binSize)
      ensures err.Some? <==> price.Some? && value.Some? && value.value != 0.0 && binSize == 0.0
      ensures err.Some? ==> err.value == ZeroBinSize
      ensures old(popped) <= popped <= old(popped) + |old(events) + Accepted(timestamp, price, value, binSize)|
      ensures forall k ::
        k in KeysOf((old(events) + Accepted(timestamp, price, value, binSize))[..popped - old(popped)]) && Get(hist, k).Some? ==>
        Get(hist, k).value != 0.0
    {
      if price.None? || value.None? || value.value == 0.0 {
        return None;
      }
      var key := BinKey(price, binSize);
      if key.Failure? {
        return Some(key.error);
      }
      var e := Event(timestamp, key.value, value.value);
      SortedAppend(added, e);
      CreditTracks(hist, events, e);
      assert (added + [e])[popped..] == events + [e];
      hist := Credit(hist, e);
      events := events + [e];
      added := added + [e];
      Expire(timestamp);
      return None;
    }

    /** `_expire`: pops the events older than `currentTime - window`, taking
        each one's value off its bin and dropping a bin whose sum reaches zero. */
    method Expire(currentTime: real)
      requires Inv() && added != [] && currentTime == added[|added| - 1].ts
      requires forall j :: 0 <= j < popped ==> added[j].ts < currentTime - windowSeconds
      modifies this
      ensures Valid()
      ensures added == old(added) && old(popped) <= popped
      ensures events == old(events)[popped - old(popped)..]
      ensures forall k :: k in KeysOf(old(events)[..popped - old(popped)]) && Get(hist, k).Some? ==>
        Get(hist, k).value != 0.0
    {
      var queue, sums; ghost var n;
      queue, sums, n := Drain(events, hist, added, popped, currentTime - windowSeconds);
      events, hist, popped := queue, sums, n;
    }

    /** `snapshot`: a copy of the bin sums. */
    function Snapshot(): (r: Dict<real, real>)
      reads this
      requires Valid()
      ensures DistinctKeys(r)
      ensures forall k :: Get(r, k).GetOr(0.0) == KeySum(events, k)
      ensures forall k :: Get(r, k).Some? ==> k in KeysOf(events)
    {
      hist
    }

    /** `top_bins(n)`: the `(bin, sum)` pairs sorted by decreasing sum, cut
        to `[:n]`; `n` defaults to 5. */
    function TopBins(n: int := 5): (r: seq<(real, real)>)
      reads this
      requires Valid()
      ensures |r| == |SliceTo(hist, n)|
      ensures forall i, j :: 0 <= i < j < |r| ==> r[i].1 >= r[j].1
      ensures multiset(r) <= multiset(hist)
      ensures forall i, p :: 0 <= i < |r| && p in multiset(hist) - multiset(r) ==> p.1 <= r[i].1
    {
      var s := SortDesc(hist);
      SortDescSpec(hist);
      var r := SliceTo(s, n);
      TopPrefix(s, |r|);
      r
    }
  }

  /** Places `x` before the first element whose value is not larger, so that
      equal values keep their input order. */
  function Insert<K>(x: (K, real), s: seq<(K, real)>): seq<(K, real)> {
    if s == [] then [x]
    else if s[0].1 <= x.1 then [x] + s
    else [s[0]] + Insert(x, s[1..])
  }

  /** `sorted(items, key=value, reverse=True)`: stable, by decreasing value. */
  function SortDesc<K>(s: seq<(K, real)>): seq<(K, real)> {
    if s == [] then [] else Insert(s[0], SortDesc(s[1..]))
  }

  ghost predicate Descending<K>(s: seq<(K, real)>) {
    forall i, j :: 0 <= i < j < |s| ==> s[i].1 >= s[j].1
  }

  ghost predicate AtMost<K>(s: seq<(K, real)>, b: real) {
    forall i :: 0 <= i < |s| ==> s[i].1 <= b
  }

  lemma {:induction false} InsertSpec<K>(x: (K, real), s: seq<(K, real)>)
    requires Descending(s)
    ensures Descending(Insert(x, s))
    ensures multiset(Insert(x, s)) == multiset(s) + multiset{x}
    ensures |Insert(x, s)| == |s| + 1
  {
    InsertPerm(x, s);
    if s != [] && s[0].1 > x.1 {
      var t := Insert(x, s[1..]);
      InsertSpec(x, s[1..]);
      assert AtMost(s[1..], s[0].1);
      InsertAtMost(x, s[1..], s[0].1);
      forall i, j | 0 <= i < j < |[s[0]] + t| ensures ([s[0]] + t)[i].1 >= ([s[0]] + t)[j].1 {
        if i > 0 {
          assert ([s[0]] + t)[i] == t[i - 1];
        }
      }
    }
  }

  lemma {:induction false} InsertPerm<K>(x: (K, real), s: seq<(K, real)>)
    ensures multiset(Insert(x, s)) == multiset(s) + multiset{x}
    ensures |Insert(x, s)| == |s| + 1
  {
    if s != [] && s[0].1 > x.1 {
      InsertPerm(x, s[1..]);
      assert s == [s[0]] + s[1..];
    }
  }

  lemma {:induction false} InsertAtMost<K>(x: (K, real), s: seq<(K, real)>, b: real)
    requires AtMost(s, b) && x.1 <= b
    ensures AtMost(Insert(x, s), b)
  {
    if s != [] && s[0].1 > x.1 {
      assert AtMost(s[1..], b);
      InsertAtMost(x, s[1..], b);
    }
  }

  lemma {:induction false} SortDescSpec<K>(s: seq<(K, real)>)
    ensures Descending(SortDesc(s))
    ensures multiset(SortDesc(s)) == multiset(s)
    ensures |SortDesc(s)| == |s|
  {
    if s != [] {
      SortDescSpec(s[1..]);
      InsertSpec(s[0], SortDesc(s[1..]));
      assert s == [s[0]] + s[1..];
    }
  }

  /** A prefix of a descending sequence holds its largest values. */
  lemma TopPrefix<K>(s: seq<(K, real)>, m: nat)
    requires Descending(s) && m <= |s|
    ensures forall i, p :: 0 <= i < m && p in multiset(s) - multiset(s[..m]) ==> p.1 <= s[i].1
    ensures multiset(s[..m]) <= multiset(s)
  {
    assert s == s[..m] + s[m..];
    assert multiset(s) - multiset(s[..m]) == multiset(s[m..]);
    forall i, p | 0 <= i < m && p in multiset(s) - multiset(s[..m]) ensures p.1 <= s[i].1 {
      assert p in multiset(s[m..]);
      var j :| 0 <= j < |s[m..]| && s[m..][j] == p;
      assert s[i].1 >= s[m + j].1;
    }
  }
}
