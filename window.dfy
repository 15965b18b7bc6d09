/**
  The dual retention policy of the event store: an event is current when it is
  younger than the time window and, among the events that are, one of the
  newest MAX_EVENTS in arrival order.
*/
module Window {
  import opened Events

  const MAX_EVENTS: nat := 30
  const TIME_WINDOW_MS: int := 5 * 60 * 1000

  /** The time bound, with `now` the instant of the eviction pass. */
  predicate InWindow(e: Event, now: int) {
    now - e.timestamp < TIME_WINDOW_MS
  }

  /** The order-preserving time filter. */
  function FilterRecent(s: seq<Event>, now: int): (r: seq<Event>)
    ensures |r| <= |s|
    ensures forall i :: 0 <= i < |r| ==> InWindow(r[i], now)
  {
    if s == [] then []
    else
      var last := s[|s| - 1];
      var init := FilterRecent(s[..|s| - 1], now);
      if InWindow(last, now) then init + [last] else init
  }

  /** The time filter keeps every in-window event of `s` as often as `s`
      holds it, and nothing else. */
  lemma {:induction false} FilterCounts(s: seq<Event>, now: int)
    ensures forall e :: multiset(FilterRecent(s, now))[e] == if InWindow(e, now) then multiset(s)[e] else 0
    decreases |s|
  {
    if s != [] {
      FilterCounts(s[..|s| - 1], now);
      assert s == s[..|s| - 1] + [s[|s| - 1]];
    }
  }

  /** The last `n` elements of `s`, or all of `s` when it is no longer. */
  function MostRecent(s: seq<Event>, n: nat): seq<Event> {
    if |s| > n then s[|s| - n..] else s
  }

  /** The events the store keeps after an eviction pass at `now`. */
  function Retained(s: seq<Event>, now: int): (r: seq<Event>)
    ensures |r| <= MAX_EVENTS
    ensures forall i :: 0 <= i < |r| ==> InWindow(r[i], now)
    ensures |FilterRecent(s, now)| <= MAX_EVENTS ==> r == FilterRecent(s, now)
    ensures |FilterRecent(s, now)| > MAX_EVENTS ==> |r| == MAX_EVENTS
  {
    MostRecent(FilterRecent(s, now), MAX_EVENTS)
  }

  /** `a` is `b` with some elements left out, the rest in their order. */
  ghost predicate SubsequenceOf(a: seq<Event>, b: seq<Event>)
    decreases |b|
  {
    if a == [] then true
    else if b == [] then false
    else if a[|a| - 1] == b[|b| - 1] then SubsequenceOf(a[..|a| - 1], b[..|b| - 1])
    else SubsequenceOf(a, b[..|b| - 1])
  }

  /** The time filter never reorders the store. */
  lemma {:induction false} FilterIsSubsequence(s: seq<Event>, now: int)
    ensures SubsequenceOf(FilterRecent(s, now), s)
    decreases |s|
  {
    if s != [] {
      var last := s[|s| - 1];
      var init := FilterRecent(s[..|s| - 1], now);
      FilterIsSubsequence(s[..|s| - 1], now);
      if InWindow(last, now) {
        assert (init + [last])[..|init + [last]| - 1] == init;
      } else if init != [] {
        assert InWindow(init[|init| - 1], now);
      }
    }
  }

  /** Dropping a prefix of a subsequence leaves a subsequence. */
  lemma {:induction false} SuffixOfSubsequence(a: seq<Event>, b: seq<Event>, k: nat)
    requires k <= |a|
    requires SubsequenceOf(a, b)
    ensures SubsequenceOf(a[k..], b)
    decreases |b|
  {
    if a[k..] != [] && b != [] {
      if a[|a| - 1] == b[|b| - 1] {
        SuffixOfSubsequence(a[..|a| - 1], b[..|b| - 1], k);
        assert a[k..][..|a[k..]| - 1] == a[..|a| - 1][k..];
      } else {
        SuffixOfSubsequence(a, b[..|b| - 1], k);
      }
    }
  }

  /** Eviction keeps arrival order, and what it keeps is the newest part of
      the time-filtered store: exactly its last min(n, MAX_EVENTS) events. */
  lemma RetainedIsNewestInWindow(s: seq<Event>, now: int)
    ensures var f, r := FilterRecent(s, now), Retained(s, now);
      && (|r| == if |f| <= MAX_EVENTS then |f| else MAX_EVENTS)
      && f == f[..|f| - |r|] + r
      && SubsequenceOf(r, s)
  {
    var f := FilterRecent(s, now);
    FilterIsSubsequence(s, now);
    SuffixOfSubsequence(f, s, |f| - |Retained(s, now)|);
  }

  /** Filtering distributes over concatenation. */
  lemma {:induction false} FilterConcat(a: seq<Event>, b: seq<Event>, now: int)
    ensures FilterRecent(a + b, now) == FilterRecent(a, now) + FilterRecent(b, now)
    decreases |b|
  {
    if b == [] {
      assert a + b == a;
    } else {
      var b' := b[..|b| - 1];
      assert (a + b)[..|a + b| - 1] == a + b';
      FilterConcat(a, b', now);
    }
  }

  /** A store whose events are all in the window passes the time filter whole. */
  lemma {:induction false} FilterAllInWindow(s: seq<Event>, now: int)
    requires forall i :: 0 <= i < |s| ==> InWindow(s[i], now)
    ensures FilterRecent(s, now) == s
    decreases |s|
  {
    if s != [] {
      FilterAllInWindow(s[..|s| - 1], now);
      assert s == s[..|s| - 1] + [s[|s| - 1]];
    }
  }

  /** Truncating before appending does not change the newest `n`. */
  lemma MostRecentAppend(x: seq<Event>, y: seq<Event>, n: nat)
    ensures MostRecent(MostRecent(x, n) + y, n) == MostRecent(x + y, n)
  {
    if |x| > n {
      var m := x[|x| - n..];
      assert (m + y)[|m + y| - n..] == (x + y)[|x + y| - n..];
    }
  }

  /** Eager eviction agrees with lazy eviction: pruning the store at `now`
      before appending `t` leaves the same store as pruning once after. */
  lemma EagerEqualsLazy(s: seq<Event>, t: seq<Event>, now: int)
    ensures Retained(Retained(s, now) + t, now) == Retained(s + t, now)
  {
    var r := Retained(s, now);
    FilterConcat(r, t, now);
    FilterAllInWindow(r, now);
    FilterConcat(s, t, now);
    MostRecentAppend(FilterRecent(s, now), FilterRecent(t, now), MAX_EVENTS);
  }

  /** Eviction is idempotent at a fixed `now`. */
  lemma CleanUpIdempotent(s: seq<Event>, now: int)
    ensures Retained(Retained(s, now), now) == Retained(s, now)
  {
    EagerEqualsLazy(s, [], now);
    assert Retained(s, now) + [] == Retained(s, now);
    assert s + [] == s;
  }

  /** Appending an in-window event extends the filtered store by that event. */
  lemma FilterAppendInWindow(s: seq<Event>, e: Event, now: int)
    requires InWindow(e, now)
    ensures FilterRecent(s + [e], now) == FilterRecent(s, now) + [e]
  {
    assert (s + [e])[..|s|] == s;
  }

  /** The newest `n` after appending `e` are `e` and the newest `n - 1` before. */
  lemma MostRecentSnoc(f: seq<Event>, e: Event, n: nat)
    requires n > 0
    ensures MostRecent(f + [e], n) == MostRecent(f, n - 1) + [e]
  {
    var g := f + [e];
    if |g| > n {
      assert g[|g| - n..] == f[|f| - (n - 1)..] + [e];
    }
  }

  /** An in-window event just ingested is the newest retained event, and the
      others are the newest in-window events that came before it. */
  lemma IngestInWindowIsNewest(s: seq<Event>, e: Event, now: int)
    requires InWindow(e, now)
    ensures var r := Retained(s + [e], now);
      |r| > 0 && r[|r| - 1] == e && r[..|r| - 1] == MostRecent(FilterRecent(s, now), MAX_EVENTS - 1)
  {
    FilterAppendInWindow(s, e, now);
    MostRecentSnoc(FilterRecent(s, now), e, MAX_EVENTS);
    var p := MostRecent(FilterRecent(s, now), MAX_EVENTS - 1);
    assert (p + [e])[..|p|] == p;
  }

  /** An event already outside the window is accepted but leaves no trace:
      the store ends as if it had never arrived. */
  lemma IngestStaleLeavesNoTrace(s: seq<Event>, e: Event, now: int)
    requires !InWindow(e, now)
    ensures Retained(s + [e], now) == Retained(s, now)
    ensures e !in Retained(s + [e], now)
  {
    FilterConcat(s, [e], now);
    assert FilterRecent([e], now) == [] by {
      assert [e][..0] == [];
    }
    assert FilterRecent(s, now) + [] == FilterRecent(s, now);
  }

  /** The count bound alone: when every event is in the window, the store keeps
      exactly the newest MAX_EVENTS (all of them when there are no more). */
  lemma CountBound(s: seq<Event>, now: int)
    requires forall i :: 0 <= i < |s| ==> InWindow(s[i], now)
    ensures |Retained(s, now)| == if |s| <= MAX_EVENTS then |s| else MAX_EVENTS
    ensures |s| <= MAX_EVENTS ==> Retained(s, now) == s
    ensures |s| > MAX_EVENTS ==> Retained(s, now) == s[|s| - MAX_EVENTS..]
  {
    FilterAllInWindow(s, now);
  }

  /** The time bound alone: once every event has aged past the window, the
      store is empty after eviction. */
  lemma TimeBound(s: seq<Event>, now: int)
    requires forall i :: 0 <= i < |s| ==> !InWindow(s[i], now)
    ensures Retained(s, now) == []
  {
    var f := FilterRecent(s, now);
    FilterCounts(s, now);
  }

  /** A run of ingests at one instant, each appending one event and evicting. */
  function Replay(s: seq<Event>, evs: seq<Event>, now: int): seq<Event>
    decreases |evs|
  {
    if evs == [] then s else Replay(Retained(s + [evs[0]], now), evs[1..], now)
  }

  /** Ingesting one event at a time with eviction after each ends in the same
      store as appending them all and evicting once. */
  lemma {:induction false} ReplayIsLazy(s: seq<Event>, evs: seq<Event>, now: int)
    ensures Replay(Retained(s, now), evs, now) == Retained(s + evs, now)
    decreases |evs|
  {
    if evs == [] {
      assert s + evs == s;
    } else {
      EagerEqualsLazy(s, [evs[0]], now);
      ReplayIsLazy(s + [evs[0]], evs[1..], now);
      assert s + [evs[0]] + evs[1..] == s + evs;
    }
  }

  /** A run of ingests into an empty store ends in the eviction of the run. */
  lemma ReplayFromEmpty(evs: seq<Event>, now: int)
    ensures Replay([], evs, now) == Retained(evs, now)
  {
    var empty: seq<Event> := [];
    assert Retained(empty, now) == empty;
    ReplayIsLazy(empty, evs, now);
    assert empty + evs == evs;
  }

  /** Starting from an empty store, N in-window ingests leave min(N, MAX_EVENTS)
      events, the newest ones in arrival order: none lost, none duplicated. */
  lemma IngestRunFromEmpty(evs: seq<Event>, now: int)
    requires forall i :: 0 <= i < |evs| ==> InWindow(evs[i], now)
    ensures var r := Replay([], evs, now);
      && |r| == (if |evs| <= MAX_EVENTS then |evs| else MAX_EVENTS)
      && r == evs[|evs| - |r|..]
  {
    ReplayFromEmpty(evs, now);
    CountBound(evs, now);
  }
}
