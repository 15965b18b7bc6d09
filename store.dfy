/**
  The process-wide event store and the three request handlers that use it:
  ingest appends a validated event and evicts; the metrics and report reads
  evict and then aggregate what is left.
*/
module Store {
  import opened Events
  import opened Window
  import opened Aggregation

  /** The handler's answer to an ingest request. */
  datatype Reply = Received | BadRequest(reason: Rejection)

  /** The snapshot a read at `now` returns, computed without touching the
      store: the non-mutating form of the read path. */
  function SnapshotAt(s: seq<Event>, now: int): (r: Snapshot)
    ensures r.totalEvents <= MAX_EVENTS
    ensures r.totalEvents == 0 <==> r == ZeroState
  {
    Aggregate(Retained(s, now))
  }

  /** A read after every stored event has aged past the window reports the
      zero state. */
  lemma StaleStoreReadsZero(s: seq<Event>, now: int)
    requires forall i :: 0 <= i < |s| ==> !InWindow(s[i], now)
    ensures SnapshotAt(s, now) == ZeroState
  {
    TimeBound(s, now);
  }

  /** Reading twice at the same instant gives the same snapshot, and it is the
      one the mutating read path would report from the pruned store. */
  lemma ReadIsStable(s: seq<Event>, now: int)
    ensures SnapshotAt(Retained(s, now), now) == SnapshotAt(s, now)
  {
    CleanUpIdempotent(s, now);
  }

  class EventStore {
    /** The stored events, in arrival order. */
    var events: seq<Event>

    /** The between-requests invariant: every mutation ends with an eviction
        pass, so the count bound holds whenever a handler starts. A rejected
        ingest leaves the store as it found it, which is why the handlers
        require it in order to ensure it. */
    ghost predicate Valid()
      reads this
    {
      |events| <= MAX_EVENTS
    }

    constructor ()
      ensures Valid() && events == []
    {
      events := [];
    }

    /** The eviction pass at instant `now`: filter by age, keep the newest
        MAX_EVENTS of what passes, and replace the contents with the result. */
    method CleanUp(now: int)
      modifies this
      ensures Valid()
      ensures events == Retained(old(events), now)
      ensures forall i :: 0 <= i < |events| ==> InWindow(events[i], now)
    {
      var recent := FilterRecent(events, now);
      if |recent| > MAX_EVENTS {
        recent := recent[|recent| - MAX_EVENTS..];
      }
      events := [];
      events := events + recent;
    }

    /** The ingest handler: a rejected body leaves the store as it was; an
        accepted one is appended and the store is evicted at `now`. */
    method Ingest(p: Payload, now: int) returns (reply: Reply)
      requires Valid()
      modifies this
      ensures Valid()
      ensures Validate(p).Err? ==> reply == BadRequest(Validate(p).error) && events == old(events)
      ensures Validate(p).Ok? ==> reply == Received && events == Retained(old(events) + [Validate(p).value], now)
    {
      var v := Validate(p);
      if v.Err? {
        return BadRequest(v.error);
      }
      events := events + [v.value];
      CleanUp(now);
      reply := Received;
    }

    /** The metrics and report handlers: evict at `now`, then reduce the
        retained events to a snapshot. */
    method Query(now: int) returns (snap: Snapshot)
      requires Valid()
      modifies this
      ensures Valid()
      ensures events == Retained(old(events), now)
      ensures snap == Aggregate(events) && snap == SnapshotAt(old(events), now)
    {
      CleanUp(now);
      snap := Aggregate(events);
    }
  }

  /** A fresh store that receives, at an instant `now` less than five minutes
      after 2024-05-01T12:00:00.000Z, the three events of the worked example
      stamped with that instant reports them all, with mean latency 200, error
      rate one third and mean confidence 0.7. */
  method ExampleSession(now: int) returns (snap: Snapshot)
    requires now - 1714564800000 < TIME_WINDOW_MS
    ensures snap == Snapshot(3, 200.0, 1.0 / 3.0, 0.7)
  {
    var store := new EventStore();
    // The timestamp text and the instant in milliseconds it parses to.
    var stamp, t := "2024-05-01T12:00:00.000Z", 1714564800000;
    var e1 := Event(t, "s1", "greet", 100.0, true, 0.9);
    var e2 := Event(t, "s1", "greet", 200.0, false, 0.5);
    var e3 := Event(t, "s1", "greet", 300.0, true, 0.7);
    var reply := store.Ingest(Encode(e1, stamp), now);
    ValidateEncode(e1, stamp);
    FilterAllInWindow([e1], now);
    assert store.events == [e1];
    reply := store.Ingest(Encode(e2, stamp), now);
    ValidateEncode(e2, stamp);
    FilterAllInWindow([e1, e2], now);
    assert store.events == [e1, e2];
    reply := store.Ingest(Encode(e3, stamp), now);
    ValidateEncode(e3, stamp);
    FilterAllInWindow([e1, e2, e3], now);
    assert store.events == [e1, e2, e3];
    snap := store.Query(now);
    CleanUpIdempotent([e1, e2, e3], now);
    ThreeEventExample(t, "s1", "greet");
  }
}
