# Windowed event store of the ingest service

This project models the core of the ingest service of LLMmonitoring
(`ingest-service/src/index.ts`). The service keeps recent voice-interaction
events in one in-memory array and serves two read views of it.

- **Ingest** (`POST /ingest`) checks the request body. A body that fails the check
  is rejected with a client error and the store is left as it was. An accepted
  body is appended to the store, and then the store is evicted.
- **Eviction** (`cleanUpEvents`) applies a dual retention policy against the
  current instant. It first keeps the events younger than `TIME_WINDOW_MS`
  (five minutes). Of those it keeps only the newest `MAX_EVENTS` (30), in arrival
  order. The result replaces the array contents.
- **Reads** (`GET /metrics` and `GET /report`) evict first. They then reduce the
  retained events to four figures: the event count, the mean latency, the error
  rate `1 - successes / count` and the mean confidence. An empty store gives an
  explicit all-zero answer.

The Dafny modules follow these parts:

- `Events` (events.dfy) holds the event record, the request body, and the
  validation with its JavaScript truthiness tests.
- `Window` (window.dfy) holds the retention policy as pure functions
  (`FilterRecent`, `Retained`) and the lemmas about it.
- `Aggregation` (aggregation.dfy) holds the snapshot reduction, written once
  (the source repeats it in both read handlers).
- `Store` (store.dfy) holds the class `EventStore`. Its `events` field is the
  module-level array. Its methods `CleanUp`, `Ingest` and `Query` change it in
  place.

Modelling choices:

- Timestamps are already-parsed integers, in milliseconds.
- The clock (`Date.now()`) is an explicit `now` parameter.
- Date parsing of the timestamp text is the payload field `parsedTimestamp`.
  It is `None` when the text does not parse, which is the NaN case.
- Latency and confidence are `real`s, so sums and averages are exact.
- The source's validation rejects a latency or a confidence of `0`, because
  JavaScript treats `0` as falsy. The model keeps this behaviour on purpose
  (`ZeroMeasurementRejected`).
- `success` is rejected only when it is absent. Any other falsy value passes,
  and is then counted as a failure.
- An event whose timestamp lies in the future has a negative age, so it counts
  as inside the window. This matches the source's comparison.

## Model

| member | source | states |
|---|---|---|
| Events.Validate | ingest-service/src/index.ts:41-49 | A missing or falsy field gives "invalid payload" before the timestamp is looked at. "Invalid timestamp format" is the answer exactly when every field is present and the timestamp does not parse. A body with every field present and a parsing timestamp is accepted. An accepted event has non-empty ids, non-zero latency and confidence, and the parsed timestamp and the success flag of the body |
| Events.ValidateEncode | ingest-service/src/index.ts:42-49 | Round trip: validating the body of an event yields the same event exactly when the event passes the truthiness tests; otherwise the body is rejected as an invalid payload |
| Events.ValidateDecodes | ingest-service/src/index.ts:39-51 | Every accepted body is the encoding of the event that is stored, so nothing but the timestamp's text form is lost |
| Events.ZeroMeasurementRejected | ingest-service/src/index.ts:42 | A latency or confidence of exactly 0 is rejected as an invalid payload |
| Window.FilterRecent | ingest-service/src/index.ts:26 | The time filter never grows the store, and every event it keeps satisfies `now - timestamp < TIME_WINDOW_MS` |
| Window.FilterCounts | ingest-service/src/index.ts:26 | The time filter keeps each in-window event exactly as often as the store holds it, and keeps no out-of-window event |
| Window.FilterIsSubsequence | ingest-service/src/index.ts:26 | The time filter keeps arrival order: its result is a subsequence of the store |
| Window.Retained | ingest-service/src/index.ts:25-31 | After eviction there are at most MAX_EVENTS events and all of them are in the window. A time-filtered set of at most MAX_EVENTS events is kept whole; a larger one is cut to exactly MAX_EVENTS |
| Window.RetainedIsNewestInWindow | ingest-service/src/index.ts:26-31 | The retained events are exactly the last min(n, MAX_EVENTS) of the n time-filtered events. Only the oldest in-window events are dropped, and the result is a subsequence of the old store |
| Window.CleanUpIdempotent | ingest-service/src/index.ts:22-36 | Two eviction passes at the same instant leave the same store as one |
| Window.EagerEqualsLazy | ingest-service/src/index.ts:51-52 | Evicting before an append and again after leaves the same store as evicting once after the append, at the same instant |
| Window.IngestInWindowIsNewest | ingest-service/src/index.ts:51-52 | After an in-window event is appended and the store evicted, that event is the last retained event. The events before it are the newest MAX_EVENTS - 1 in-window events from before |
| Window.IngestStaleLeavesNoTrace | ingest-service/src/index.ts:51-52 | An event already outside the window is accepted but does not remain: the store ends as if it had not arrived |
| Window.CountBound | ingest-service/src/index.ts:29-31 | When every event is in the window, eviction keeps exactly the newest min(n, MAX_EVENTS); so with MAX_EVENTS + k events the oldest k are dropped |
| Window.TimeBound | ingest-service/src/index.ts:26 | When every event has aged past the window, eviction leaves the store empty |
| Window.ReplayIsLazy | ingest-service/src/index.ts:51-52 | A run of ingests at one instant, each appending and evicting, ends in the same store as one eviction of all the appended events |
| Window.IngestRunFromEmpty | ingest-service/src/index.ts:17-31 | From an empty store, N in-window ingests leave exactly min(N, MAX_EVENTS) events, the newest ones in arrival order, with none lost or duplicated |
| Aggregation.SuccessCount | ingest-service/src/index.ts:71 | The success count is at most the event count. It equals the count exactly when every event succeeded, and is zero exactly when none did |
| Aggregation.Aggregate | ingest-service/src/index.ts:60-73 | `totalEvents` is the number of retained events. The all-zero state is returned exactly for the empty set. For a non-empty set the error rate is one minus the share of successful events, and it lies in [0, 1]. Each average times the count is the sum of its field |
| Aggregation.ErrorRateIsFailureShare | ingest-service/src/index.ts:71-72 | For a non-empty set, one minus the error rate, times the count, is the number of successful events |
| Aggregation.ErrorRateExtremes | ingest-service/src/index.ts:71-72 | The error rate is 0 exactly when every event succeeded; for a non-empty set it is 1 exactly when none did |
| Aggregation.SumPermutation | ingest-service/src/index.ts:70-73 | The latency and confidence sums and the success count depend only on the multiset of events |
| Aggregation.AggregateOrderIndependent | ingest-service/src/index.ts:70-73 | Two retained sets with the same events in any order give the same snapshot |
| Aggregation.AverageWithinBounds | ingest-service/src/index.ts:70-73 | When every value of a field lies in [lo, hi], its average does too. So confidences in [0, 1] average into [0, 1] |
| Aggregation.ThreeEventExample | ingest-service/src/index.ts:70-73 | Latencies 100, 200 and 300, outcomes true, false and true, and confidences 0.9, 0.5 and 0.7 give 3 events, a mean latency of 200, an error rate of 1/3 and a mean confidence of 0.7 |
| Store.SnapshotAt | ingest-service/src/index.ts:85-100 | A read reports at most MAX_EVENTS events, and it reports zero events exactly when it returns the all-zero state |
| Store.StaleStoreReadsZero | ingest-service/src/index.ts:85-94 | A read after every stored event has aged past the window returns the all-zero state |
| Store.ReadIsStable | ingest-service/src/index.ts:57-60 | Reading the pruned store again at the same instant gives the same snapshot |
| Store.EventStore.constructor | ingest-service/src/index.ts:17 | The store starts empty |
| Store.EventStore.CleanUp | ingest-service/src/index.ts:22-36 | The new contents are the retained events of the old contents at `now`. All of them are in the window, and the count bound holds |
| Store.EventStore.Ingest | ingest-service/src/index.ts:38-55 | A rejected body gets its client error and leaves the store unchanged. An accepted one gets "received", and the store becomes the retained events of the old store plus the new event |
| Store.EventStore.Query | ingest-service/src/index.ts:57-73 | The `/metrics` read, and equally the `/report` read at lines 84-100: the store is evicted at `now`, and the snapshot of what remains is returned. It equals the non-mutating `SnapshotAt` of the old store |
| Store.ExampleSession | ingest-service/src/index.ts:38-100 | A fresh store that ingests the three events of the worked example, stamped 2024-05-01T12:00:00.000Z, at an instant less than five minutes later, reports 3 events, a mean latency of 200, an error rate of 1/3 and a mean confidence of 0.7 |

## Left out

- The HTTP layer is not modelled: the Express app, JSON body parsing, routing, status codes, response texts beyond the rejection reason, and `app.listen` with the port from the environment. It is transport only.
- The presentation of the figures is not modelled: `toFixed(2)` in the metrics text and `parseFloat(toFixed(2))` in the report. It is floating-point text formatting; the model returns the exact figures.
- `Date.now()` is not modelled. The clock is the `now` parameter.
- `new Date(...).getTime()` is not modelled. Parsing is replaced by the already-parsed `parsedTimestamp` of the payload and the integer `timestamp` of an event. The source parses the stored text again on every eviction pass; this gives the same value every time, so the model parses once.
- JavaScript number semantics are not modelled (doubles, NaN in sums, rounding of the division). Latency and confidence are exact reals. A NaN field is treated as absent, since it is falsy and so rejected.
- A body whose fields have the wrong JSON types (for example a latency sent as text) is outside the model. The payload fields are already typed.
- Concurrency is not modelled. The source runs every handler to completion on one event loop, so the class methods run one at a time.
- The simulator service is not part of this model. It generates events with an external language-model client, random numbers and a timer, and posts them over HTTP.
