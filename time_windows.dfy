/** What the two sliding windows share: a queue of time-stamped events that
    grows at the back, expires from the front, and sees non-decreasing
    timestamps. */
module TimeWindows {
  /** A queued `(timestamp, key, value)` tuple. */
  datatype Event<K, V> = Event(ts: real, key: K, value: V)

  ghost predicate Sorted<K, V>(s: seq<Event<K, V>>) {
    forall i, j :: 0 <= i < j < |s| ==> s[i].ts <= s[j].ts
  }

  /** The queue is what is left of all accepted events once the first
      `popped` have expired, and those events came in time order. */
  ghost predicate Queue<K, V>(added: seq<Event<K, V>>, popped: int, events: seq<Event<K, V>>) {
    && 0 <= popped <= |added|
    && events == added[popped..]
    && Sorted(added)
  }

  /** A window may take an event stamped `t` once `t` is not older than
      anything it took before. */
  predicate InOrder<K, V>(added: seq<Event<K, V>>, t: real) {
    added == [] || added[|added| - 1].ts <= t
  }

  /** Every expired event is older than `threshold` and every queued one is not. */
  ghost predicate SplitAt<K, V>(added: seq<Event<K, V>>, popped: int, threshold: real)
    requires 0 <= popped <= |added|
  {
    && (forall j :: 0 <= j < popped ==> added[j].ts < threshold)
    && (forall j :: popped <= j < |added| ==> added[j].ts >= threshold)
  }

  /** After expiry at the latest timestamp: `now - window` splits the events. */
  ghost predicate Windowed<K, V>(added: seq<Event<K, V>>, popped: int, window: real)
    requires 0 <= popped <= |added|
  {
    added != [] ==> SplitAt(added, popped, added[|added| - 1].ts - window)
  }

  lemma SortedAppend<K, V>(s: seq<Event<K, V>>, e: Event<K, V>)
    requires Sorted(s) && InOrder(s, e.ts)
    ensures Sorted(s + [e])
  {
    var t := s + [e];
    forall i, j | 0 <= i < j < |t| ensures t[i].ts <= t[j].ts {
      if j == |s| && i < |s| - 1 {
        assert s[i].ts <= s[|s| - 1].ts;
      }
    }
  }
}
