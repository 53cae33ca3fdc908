/** `BookWindow`: the latest best bid/ask size per `(side, bin)` over a
    sliding time window. */
module BookWindows {
  import opened Wrappers
  import opened PyNum
  import opened PyDict
  import opened Binning
  import opened TimeWindows

  /** The side strings `"bid"` and `"ask"`. */
  datatype Side = Bid | Ask

  type BookKey = (Side, real)

  /** `(timestamp, (side, bin_key), size)` */
  type BookEvent = Event<BookKey, real>

  /** The index of the last event carrying `k`, or -1 when none does. */
  function LastIndex(s: seq<BookEvent>, k: BookKey): (r: int)
    ensures -1 <= r < |s|
    ensures r >= 0 ==> s[r].key == k
    ensures forall j :: r < j < |s| ==> s[j].key != k
  {
    if s == [] then -1
    else if s[|s| - 1].key == k then |s| - 1
    else LastIndex(s[..|s| - 1], k)
  }

  lemma LastIndexAppend(s: seq<BookEvent>, e: BookEvent, k: BookKey)
    ensures LastIndex(s + [e], k) == if e.key == k then |s| else LastIndex(s, k)
  {
    assert (s + [e])[..|s|] == s;
  }

  /** Whether the entry of `k` survives: its last write is still queued and no
      expired write of `k` shares that write's timestamp. */
  ghost predicate Live(added: seq<BookEvent>, popped: int, k: BookKey)
  {
    var i := LastIndex(added, k);
    && 0 <= popped <= i
    && forall j :: 0 <= j < popped && added[j].key == k ==> added[j].ts != added[i].ts
  }

  /** `latest` holds `(timestamp, size)` of the last write of each live key,
      and nothing else. */
  ghost predicate Tracks(latest: Dict<BookKey, (real, real)>, added: seq<BookEvent>, popped: int)
  {
    && DistinctKeys(latest)
    && (forall k :: Get(latest, k).Some? <==> Live(added, popped, k))
    && (forall k :: Get(latest, k).Some? ==>
          Live(added, popped, k) &&
          Get(latest, k).value == (added[LastIndex(added, k)].ts, added[LastIndex(added, k)].value))
  }

  /** `latest[key] = (timestamp, size)`: overwrites, never sums. */
  function Record(latest: Dict<BookKey, (real, real)>, e: BookEvent): Dict<BookKey, (real, real)> {
    Set(latest, e.key, (e.ts, e.value))
  }

  /** The expiry of `e` deletes its key only when the recorded write carries
      `e`'s timestamp. */
  function Expiry(latest: Dict<BookKey, (real, real)>, e: BookEvent): Dict<BookKey, (real, real)>
    requires DistinctKeys(latest)
  {
    var entry := Get(latest, e.key);
    if entry.Some? && entry.value.0 == e.ts then Delete(latest, e.key) else latest
  }

  lemma RecordTracks(latest: Dict<BookKey, (real, real)>, added: seq<BookEvent>, popped: int, e: BookEvent)
    requires 0 <= popped <= |added| && Tracks(latest, added, popped)
    requires forall j :: 0 <= j < popped ==> added[j].ts < e.ts
    ensures Tracks(Record(latest, e), added + [e], popped)
  {
    SetDistinct(latest, e.key, (e.ts, e.value));
    var a := added + [e];
    forall k ensures Live(a, popped, k) <==> (k == e.key || Live(added, popped, k))
      ensures k != e.key ==> LastIndex(a, k) == LastIndex(added, k)
    {
      LastIndexAppend(added, e, k);
      if k == e.key {
        assert LastIndex(a, k) == |added|;
      } else {
        assert forall j :: 0 <= j < popped ==> a[j] == added[j];
      }
    }
  }

  lemma ExpiryTracks(latest: Dict<BookKey, (real, real)>, added: seq<BookEvent>, popped: int)
    requires 0 <= popped < |added| && Tracks(latest, added, popped)
    ensures Tracks(Expiry(latest, added[popped]), added, popped + 1)
  {
    var p := added[popped];
    var r := Expiry(latest, p);
    forall k ensures Get(r, k).Some? <==> Live(added, popped + 1, k)
      ensures Get(r, k).Some? ==> Get(r, k) == Get(latest, k)
    {
      if k == p.key {
        ExpiryOwnKey(latest, added, popped);
      } else {
        ExpiryOtherKey(latest, added, popped, k);
      }
    }
  }

  lemma ExpiryOwnKey(latest: Dict<BookKey, (real, real)>, added: seq<BookEvent>, popped: int)
    requires 0 <= popped < |added| && Tracks(latest, added, popped)
    ensures var p := added[popped];
      var r := Expiry(latest, p);
      (Get(r, p.key).Some? <==> Live(added, popped + 1, p.key))
      && (Get(r, p.key).Some? ==> Get(r, p.key) == Get(latest, p.key))
  {
    var p := added[popped];
    var i := LastIndex(added, p.key);
    assert i >= popped;
    if i > popped && Live(added, popped, p.key) {
      assert Live(added, popped + 1, p.key) <==> added[i].ts != p.ts;
    }
  }

  lemma ExpiryOtherKey(latest: Dict<BookKey, (real, real)>, added: seq<BookEvent>, popped: int, k: BookKey)
    requires 0 <= popped < |added| && Tracks(latest, added, popped) && k != added[popped].key
    ensures var r := Expiry(latest, added[popped]);
      (Get(r, k).Some? <==> Live(added, popped + 1, k))
      && Get(r, k) == Get(latest, k)
  {
    var i := LastIndex(added, k);
    assert Live(added, popped + 1, k) <==> Live(added, popped, k) by {
      if i >= popped + 1 {
        assert forall j :: 0 <= j < popped + 1 && added[j].key == k ==> j < popped;
      }
    }
  }

  /** At a window boundary no expired write can share a timestamp with a
      queued one, so a key is live exactly when its last write is queued. */
  lemma LiveIsQueued(added: seq<BookEvent>, popped: int, threshold: real, k: BookKey)
    requires 0 <= popped <= |added| && SplitAt(added, popped, threshold)
    ensures Live(added, popped, k) <==> LastIndex(added, k) >= popped
  {
    var i := LastIndex(added, k);
    if i >= popped {
      forall j | 0 <= j < popped && added[j].key == k ensures added[j].ts != added[i].ts {
        assert added[j].ts < threshold <= added[i].ts;
      }
    }
  }

  /** The event `add` queues for a tick: none for an unset price or size, a
      negative size or a zero bin size; otherwise one write to `(side, bin)`. */
  function Accepted(ts: real, side: Side, price: Num, size: Num, binSize: real): (r: seq<BookEvent>)
    ensures |r| <= 1
    ensures r != [] <==> price.Some? && size.Some? && size.value >= 0.0 && binSize != 0.0
    ensures r != [] ==> r[0].ts == ts && r[0].key.0 == side && r[0].value == size.value
    ensures r != [] && binSize > 0.0 ==> r[0].key.1 <= price.value < r[0].key.1 + binSize
  {
    if price.None? || size.None? || size.value < 0.0 || binSize == 0.0 then []
    else
      assert binSize > 0.0 ==> BinKey(price, binSize).value <= price.value < BinKey(price, binSize).value + binSize by {
        if binSize > 0.0 {
          BinKeyBounds(price.value, binSize);
        }
      }
      [Event(ts, (side, BinKey(price, binSize).value), size.value)]
  }

  /** The `while` loop of `_expire`: pops from the front every event older
      than `threshold`, updating the map for each. */
  method Drain(events: seq<BookEvent>, m: Dict<BookKey, (real, real)>, ghost added: seq<BookEvent>, ghost popped: nat, threshold: real)
    returns (queue: seq<BookEvent>, book: Dict<BookKey, (real, real)>, ghost n: nat)
    requires Queue(added, popped, events) && Tracks(m, added, popped)
    requires forall j :: 0 <= j < popped ==> added[j].ts < threshold
    ensures popped <= n <= |added| && Queue(added, n, queue) && Tracks(book, added, n)
    ensures SplitAt(added, n, threshold)
    ensures queue == events[n - popped..]
  {
    queue, book, n := events, m, popped;
    while queue != [] && queue[0].ts < threshold
      invariant popped <= n <= |added|
      invariant Queue(added, n, queue) && Tracks(book, added, n)
      invariant n - popped <= |events| && queue == events[n - popped..]
      invariant forall j :: 0 <= j < n ==> added[j].ts < threshold
      decreases |queue|
    {
      ExpiryTracks(book, added, n);
      book := Expiry(book, queue[0]);
      queue := queue[1..];
      n := n + 1;
    }
    forall j | n <= j < |added| ensures added[j].ts >= threshold {
      assert added[n].ts <= added[j].ts;
    }
  }

  class BookWindow {
    const windowSeconds: real
    const binSize: real
    var events: seq<BookEvent>
    var latest: Dict<BookKey, (real, real)>
    /** Every event the window accepted; the first `popped` have expired. */
    ghost var added: seq<BookEvent>
    ghost var popped: nat

    ghost predicate Inv()
      reads this
    {
      windowSeconds >= 0.0 && Queue(added, popped, events) && Tracks(latest, added, popped)
    }

    /** `Inv`, with every queued event inside the window of the latest one. */
    ghost predicate Valid()
      reads this
    {
      Inv() && Windowed(added, popped, windowSeconds)
    }

    constructor (windowSeconds: real, binSize: real)
      requires windowSeconds >= 0.0
      ensures Valid()
      ensures this.windowSeconds == windowSeconds && this.binSize == binSize
      ensures events == [] && latest == [] && added == []
    {
      this.windowSeconds := windowSeconds;
      this.binSize := binSize;
      events, latest := [], [];
      added, popped := [], 0;
    }

    ghost predicate AcceptsAt(t: real)
      reads this
    {
      InOrder(added, t)
    }

    /** `add`: ignores an unset price or size and a negative size; otherwise
        queues the write, records it as the key's latest and expires old
        events. A zero bin size raises before anything changes. */
    method Add(timestamp: real, side: Side, price: Num, size: Num) returns (err: Option<BinError>)
      requires Valid() && AcceptsAt(timestamp)
      modifies this
      ensures Valid()
      ensures Accepted(timestamp, side, price, size, binSize) == [] ==> unchanged(this)
      ensures added == old(added) + Accepted(timestamp, side, price, size, binSize)
      ensures err.Some? <==> price.Some? && size.Some? && size.value >= 0.0 && binSize == 0.0
      ensures err.Some? ==> err.value == ZeroBinSize
    {
      if price.None? || size.None? || size.value < 0.0 {
        return None;
      }
      var bin := BinKey(price, binSize);
      if bin.Failure? {
        return Some(bin.error);
      }
      var e := Event(timestamp, (side, bin.value), size.value);
      SortedAppend(added, e);
      RecordTracks(latest, added, popped, e);
      assert (added + [e])[popped..] == events + [e];
      latest := Record(latest, e);
      events := events + [e];
      added := added + [e];
      Expire(timestamp);
      return None;
    }

    /** `_expire`: pops the events older than `currentTime - window`, deleting
        a key when the popped event's timestamp is the recorded one. */
    method Expire(currentTime: real)
      requires Inv() && added != [] && currentTime == added[|added| - 1].ts
      requires forall j :: 0 <= j < popped ==> added[j].ts < currentTime - windowSeconds
      modifies this
      ensures Valid()
      ensures added == old(added) && old(popped) <= popped
      ensures events == old(events)[popped - old(popped)..]
    {
      var queue, book; ghost var n;
      queue, book, n := Drain(events, latest, added, popped, currentTime - windowSeconds);
      events, latest, popped := queue, book, n;
    }

    /** `snapshot`: each key whose last write is still queued, with that
        write's size. */
    function Snapshot(): (r: Dict<BookKey, real>)
      reads this
      requires Valid()
      ensures DistinctKeys(r)
      ensures forall k :: Get(r, k).Some? <==> LastIndex(added, k) >= popped
      ensures forall k :: Get(r, k).Some? ==> Get(r, k).value == added[LastIndex(added, k)].value
    {
      var r := MapValues(latest, (w: (real, real)) => w.1);
      forall k ensures Get(r, k).Some? <==> LastIndex(added, k) >= popped {
        if added != [] {
          LiveIsQueued(added, popped, added[|added| - 1].ts - windowSeconds, k);
        }
      }
      MapValuesDistinct(latest, (w: (real, real)) => w.1);
      r
    }
  }
}
