/**
  The reduction of the retained events to the four figures that both the
  metrics and the report views publish.
*/
module Aggregation {
  import opened Events

  /** The two numeric measurements that are averaged. */
  datatype Field = Latency | Confidence

  function Value(e: Event, f: Field): real {
    match f
    case Latency => e.latencyMs
    case Confidence => e.confidence
  }

  /** The sum of one measurement over a sequence of events. */
  function Sum(s: seq<Event>, f: Field): real {
    if s == [] then 0.0 else Value(s[0], f) + Sum(s[1..], f)
  }

  /** The number of successful events. */
  function SuccessCount(s: seq<Event>): (c: nat)
    ensures c <= |s|
    ensures c == |s| <==> forall i :: 0 <= i < |s| ==> s[i].success
    ensures c == 0 <==> forall i :: 0 <= i < |s| ==> !s[i].success
  {
    if s == [] then 0
    else
      assert forall i :: 1 <= i < |s| ==> s[1..][i - 1] == s[i];
      (if s[0].success then 1 else 0) + SuccessCount(s[1..])
  }

  /** The derived statistics of one retained set. */
  datatype Snapshot = Snapshot(totalEvents: nat, avgLatencyMs: real, errorRate: real, avgConfidence: real)

  /** The explicit result for an empty retained set. */
  const ZeroState := Snapshot(0, 0.0, 0.0, 0.0)

  /** A quotient of a sum bounded by `n * lo` and `n * hi` lies in [lo, hi]. */
  lemma QuotientBounds(sum: real, n: real, lo: real, hi: real)
    requires n > 0.0
    requires n * lo <= sum <= n * hi
    ensures lo <= sum / n <= hi
  {
    assert sum / n * n == sum;
  }

  /** Division by a positive `n` is undone by multiplying by `n`. */
  lemma QuotientScales(x: real, n: real)
    requires n > 0.0
    ensures x / n * n == x
  {
  }

  /** A quotient by a positive `n` is one exactly for `n` itself and zero
      exactly for zero. */
  lemma QuotientExtremes(c: real, n: real)
    requires n > 0.0
    ensures c / n == 1.0 <==> c == n
    ensures c / n == 0.0 <==> c == 0.0
  {
    assert c / n * n == c;
  }

  /** The complement of `rate == 1 - c / n`, scaled back by `n`, is `c`. */
  lemma ComplementScales(rate: real, c: real, n: real)
    requires n > 0.0 && rate == 1.0 - c / n
    ensures (1.0 - rate) * n == c
  {
    assert 1.0 - rate == c / n;
    assert c / n * n == c;
  }

  /** The four figures of `n > 0` events with the given sums and `c` successes. */
  function Figures(n: nat, latency: real, c: nat, confidence: real): (r: Snapshot)
    requires 0 < n && c <= n
    ensures r.totalEvents == n && r != ZeroState
    ensures 0.0 <= r.errorRate <= 1.0
    ensures r.errorRate == 1.0 - c as real / n as real
    ensures r.avgLatencyMs * n as real == latency
    ensures r.avgConfidence * n as real == confidence
  {
    var m := n as real;
    QuotientBounds(c as real, m, 0.0, 1.0);
    QuotientScales(latency, m);
    QuotientScales(confidence, m);
    Snapshot(n, latency / m, 1.0 - c as real / m, confidence / m)
  }

  /** Count, mean latency, error rate and mean confidence of `s`; the empty set
      gives the zero state and no division takes place. */
  function Aggregate(s: seq<Event>): (r: Snapshot)
    ensures r.totalEvents == |s|
    ensures r == ZeroState <==> s == []
    ensures 0.0 <= r.errorRate <= 1.0
    ensures s != [] ==> r.errorRate == 1.0 - SuccessCount(s) as real / |s| as real
    ensures s != [] ==> r.avgLatencyMs * |s| as real == Sum(s, Latency)
    ensures s != [] ==> r.avgConfidence * |s| as real == Sum(s, Confidence)
  {
    if s == [] then ZeroState
    else Figures(|s|, Sum(s, Latency), SuccessCount(s), Sum(s, Confidence))
  }

  /** The error rate of a non-empty set is the share of failed events: one
      minus it, times the count, is the number of successes. */
  lemma ErrorRateIsFailureShare(s: seq<Event>)
    requires s != []
    ensures (1.0 - Aggregate(s).errorRate) * |s| as real == SuccessCount(s) as real
  {
    ComplementScales(Aggregate(s).errorRate, SuccessCount(s) as real, |s| as real);
  }

  /** The error rate is zero exactly when every retained event succeeded, and
      one exactly when a non-empty set holds no success. */
  lemma ErrorRateExtremes(s: seq<Event>)
    ensures Aggregate(s).errorRate == 0.0 <==> forall i :: 0 <= i < |s| ==> s[i].success
    ensures s != [] ==> (Aggregate(s).errorRate == 1.0 <==> forall i :: 0 <= i < |s| ==> !s[i].success)
  {
    if s != [] {
      QuotientExtremes(SuccessCount(s) as real, |s| as real);
    }
  }

  /** Sums split over concatenation. */
  lemma {:induction false} SumConcat(a: seq<Event>, b: seq<Event>, f: Field)
    ensures Sum(a + b, f) == Sum(a, f) + Sum(b, f)
    decreases |a|
  {
    if a == [] {
      assert a + b == b;
    } else {
      assert (a + b)[1..] == a[1..] + b;
      SumConcat(a[1..], b, f);
    }
  }

  /** Success counts split over concatenation. */
  lemma {:induction false} SuccessCountConcat(a: seq<Event>, b: seq<Event>)
    ensures SuccessCount(a + b) == SuccessCount(a) + SuccessCount(b)
    decreases |a|
  {
    if a == [] {
      assert a + b == b;
    } else {
      assert (a + b)[1..] == a[1..] + b;
      SuccessCountConcat(a[1..], b);
    }
  }

  /** Taking one event out of a sequence takes its share out of the sums. */
  lemma RemoveOne(b: seq<Event>, i: nat, f: Field)
    requires i < |b|
    ensures Sum(b, f) == Value(b[i], f) + Sum(b[..i] + b[i + 1..], f)
    ensures SuccessCount(b) == (if b[i].success then 1 else 0) + SuccessCount(b[..i] + b[i + 1..])
  {
    var x := b[i];
    assert b == b[..i] + [x] + b[i + 1..];
    SumConcat(b[..i] + [x], b[i + 1..], f);
    SumConcat(b[..i], [x], f);
    SumConcat(b[..i], b[i + 1..], f);
    SuccessCountConcat(b[..i] + [x], b[i + 1..]);
    SuccessCountConcat(b[..i], [x]);
    SuccessCountConcat(b[..i], b[i + 1..]);
  }

  /** The first event of `a` occurs in any `b` with the same multiset, and
      what remains of the two on either side still has the same multiset. */
  lemma MatchFirst(a: seq<Event>, b: seq<Event>) returns (i: nat)
    requires a != [] && multiset(a) == multiset(b)
    ensures i < |b| && b[i] == a[0]
    ensures multiset(a[1..]) == multiset(b[..i] + b[i + 1..])
  {
    var x := a[0];
    assert x in multiset(b);
    i :| 0 <= i < |b| && b[i] == x;
    assert b == b[..i] + [x] + b[i + 1..];
    assert a == [x] + a[1..];
    assert multiset(a[1..]) == multiset(a) - multiset{x};
  }

  /** Sums depend only on the multiset of events, not on their order. */
  lemma {:induction false} SumPermutation(a: seq<Event>, b: seq<Event>, f: Field)
    requires multiset(a) == multiset(b)
    ensures Sum(a, f) == Sum(b, f)
    ensures SuccessCount(a) == SuccessCount(b)
    decreases |a|
  {
    if a != [] {
      var i := MatchFirst(a, b);
      var rest := b[..i] + b[i + 1..];
      RemoveOne(b, i, f);
      SumPermutation(a[1..], rest, f);
    }
  }

  /** The snapshot is a function of the retained multiset: arrival order does
      not affect it. */
  lemma AggregateOrderIndependent(a: seq<Event>, b: seq<Event>)
    requires multiset(a) == multiset(b)
    ensures Aggregate(a) == Aggregate(b)
  {
    SumPermutation(a, b, Latency);
    SumPermutation(a, b, Confidence);
    assert |a| == |multiset(a)| == |b|;
  }

  /** One more value between `lo` and `hi` moves the bounds of a sum by one step. */
  lemma StepBounds(m: real, v: real, rest: real, lo: real, hi: real)
    requires m * lo <= rest <= m * hi
    requires lo <= v <= hi
    ensures (m + 1.0) * lo <= v + rest <= (m + 1.0) * hi
  {
    assert (m + 1.0) * lo == lo + m * lo;
    assert (m + 1.0) * hi == hi + m * hi;
  }

  /** A sum of values between `lo` and `hi` lies between `n * lo` and `n * hi`. */
  lemma {:induction false} SumBounds(s: seq<Event>, f: Field, lo: real, hi: real)
    requires forall i :: 0 <= i < |s| ==> lo <= Value(s[i], f) <= hi
    ensures |s| as real * lo <= Sum(s, f) <= |s| as real * hi
    decreases |s|
  {
    if s != [] {
      var tail := s[1..];
      var m, v, rest := |tail| as real, Value(s[0], f), Sum(tail, f);
      assert forall i :: 0 <= i < |tail| ==> tail[i] == s[i + 1];
      SumBounds(tail, f, lo, hi);
      StepBounds(m, v, rest, lo, hi);
      assert Sum(s, f) == v + rest;
      assert |s| as real == m + 1.0;
    }
  }

  /** Each average lies between the least and greatest bound of the values it
      averages; in particular confidences in [0, 1] average into [0, 1] and
      non-negative latencies give a non-negative mean. */
  lemma AverageWithinBounds(s: seq<Event>, f: Field, lo: real, hi: real)
    requires s != []
    requires forall i :: 0 <= i < |s| ==> lo <= Value(s[i], f) <= hi
    ensures var avg := if f == Latency then Aggregate(s).avgLatencyMs else Aggregate(s).avgConfidence;
      lo <= avg <= hi
  {
    SumBounds(s, f, lo, hi);
    QuotientBounds(Sum(s, f), |s| as real, lo, hi);
  }

  /** The worked example: latencies 100, 200, 300, outcomes true, false, true
      and confidences 0.9, 0.5, 0.7 give three events, a mean latency of 200,
      an error rate of one third and a mean confidence of 0.7. */
  lemma ThreeEventExample(t: int, id: string, intent: string)
    ensures Aggregate([
        Event(t, id, intent, 100.0, true, 0.9),
        Event(t, id, intent, 200.0, false, 0.5),
        Event(t, id, intent, 300.0, true, 0.7)])
      == Snapshot(3, 200.0, 1.0 / 3.0, 0.7)
  {
    var e1, e2, e3 := Event(t, id, intent, 100.0, true, 0.9),
                      Event(t, id, intent, 200.0, false, 0.5),
                      Event(t, id, intent, 300.0, true, 0.7);
    var s, s1, s2 := [e1, e2, e3], [e2, e3], [e3];
    assert s[1..] == s1;
    assert s1[1..] == s2;
    assert s2[1..] == [];
    assert Sum(s2, Latency) == 300.0;
    assert Sum(s2, Confidence) == 0.7;
    assert Sum(s1, Latency) == 500.0;
    assert Sum(s1, Confidence) == 1.2;
    assert Sum(s, Latency) == 600.0;
    assert Sum(s, Confidence) == 2.1;
    assert SuccessCount(s2) == 1;
    assert SuccessCount(s1) == 1;
    assert SuccessCount(s) == 2;
  }
}
