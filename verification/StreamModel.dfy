/**
 * The replay stream as its full published history. Nothing is ever dropped here: retention shows
 * only in which cursors a poll can still serve.
 */
module StreamModel {
  import opened Core
  import opened PublicEvents

  const MAX_EVENT_STREAM_BOUND: u32 := 4096

  datatype StreamConfig = StreamConfig(retainedEvents: u32, maxSubscriptions: u32, maxBatchSize: u32)

  predicate ValidBound(value: u32) {
    0 < value <= MAX_EVENT_STREAM_BOUND
  }

  predicate ValidConfig(config: StreamConfig) {
    ValidBound(config.retainedEvents) && ValidBound(config.maxSubscriptions) && ValidBound(config.maxBatchSize)
  }

  type Config = c: StreamConfig | ValidConfig(c) witness StreamConfig(64, 64, 64)

  datatype SubscriptionStart = Latest | EarliestAvailable

  datatype PollQuery = PollQuery(
    streamId: Identifier, subscriptionId: Identifier, afterSequence: u64, requestedLimit: u32)

  type PollEvents = q: PollQuery | ValidBound(q.requestedLimit) witness PollQuery("a", "a", 0, 1)

  datatype StreamSnapshot = StreamSnapshot(
    streamId: Identifier,
    config: Config,
    oldestAvailableSequence: Option<u64>,
    latestSequence: u64,
    retainedEventCount: nat,
    activeSubscriptionCount: nat)

  datatype OpenResult = OpenResult(
    streamId: Identifier, subscriptionId: Identifier, initialAfterSequence: u64, snapshot: StreamSnapshot)

  datatype CloseResult = CloseResult(streamId: Identifier, subscriptionId: Identifier, snapshot: StreamSnapshot)

  datatype EventBatch = EventBatch(
    streamId: Identifier,
    subscriptionId: Identifier,
    afterSequence: u64,
    throughSequence: u64,
    records: seq<PublicEventRecord>)

  datatype GapReason = StreamRestarted | CursorEvicted

  datatype EventGap = EventGap(
    reason: GapReason,
    requestedStreamId: Identifier,
    currentStreamId: Identifier,
    subscriptionId: Identifier,
    requestedAfterSequence: u64,
    oldestAvailableSequence: Option<u64>,
    latestSequence: u64,
    resetBarrier: u64,
    replacementResources: seq<ResyncResource>)

  datatype PollResult = Events(batch: EventBatch) | ResyncRequired(gap: EventGap)

  /** Record k of the history (counting from one) carries sequence k. */
  datatype StreamState = StreamState(
    streamId: Identifier,
    config: Config,
    history: seq<PublicEventRecord>,
    subscriptions: set<Identifier>)

  ghost predicate WellFormed(s: StreamState) {
    && |s.history| <= U64_MAX
    && |s.subscriptions| <= s.config.maxSubscriptions
    && forall i :: 0 <= i < |s.history| ==> s.history[i].sequence == i + 1
  }

  /** Every record is the one built from its own valid event, under this stream's identity. */
  ghost predicate Authentic(s: StreamState) {
    forall i :: 0 <= i < |s.history| ==>
      ValidEvent(s.history[i].event) && s.history[i] == RecordOf(s.streamId, s.history[i].sequence, s.history[i].event)
  }

  function EmptyStream(streamId: Identifier, config: Config): StreamState {
    StreamState(streamId, config, [], {})
  }

  /** How many of the oldest records can no longer be replayed. */
  function Evicted(s: StreamState): nat {
    if |s.history| <= s.config.retainedEvents then 0 else |s.history| - s.config.retainedEvents
  }

  function Oldest(s: StreamState): Option<u64>
    requires |s.history| <= U64_MAX
  {
    if s.history == [] then None else Some(Evicted(s) + 1)
  }

  function Observed(s: StreamState): StreamSnapshot
    requires |s.history| <= U64_MAX
  {
    StreamSnapshot(s.streamId, s.config, Oldest(s), |s.history|, |s.history| - Evicted(s), |s.subscriptions|)
  }

  function Opened(s: StreamState, id: Identifier, start: SubscriptionStart): (StreamState, Result<OpenResult>)
    requires |s.history| <= U64_MAX
  {
    if id in s.subscriptions then (s, Err(Conflict))
    else if |s.subscriptions| >= s.config.maxSubscriptions then (s, Err(ResourceExhausted))
    else
      var next := s.(subscriptions := s.subscriptions + {id});
      var cursor := if start.Latest? then |s.history| else Evicted(s);
      (next, Ok(OpenResult(s.streamId, id, cursor, Observed(next))))
  }

  function Closed(s: StreamState, streamId: Identifier, id: Identifier): (StreamState, Result<CloseResult>)
    requires |s.history| <= U64_MAX
  {
    if streamId != s.streamId then (s, Err(Conflict))
    else if id !in s.subscriptions then (s, Err(NotFound))
    else
      var next := s.(subscriptions := s.subscriptions - {id});
      (next, Ok(CloseResult(s.streamId, id, Observed(next))))
  }

  function Published(s: StreamState, event: PublicApiEvent): (StreamState, Result<PublicEventRecord>)
    requires |s.history| <= U64_MAX
  {
    if !ValidEvent(event) then (s, Err(CorruptData))
    else if |s.history| == U64_MAX then (s, Err(ResourceExhausted))
    else
      var record := RecordOf(s.streamId, |s.history| + 1, event);
      (s.(history := s.history + [record]), Ok(record))
  }

  function GapFor(s: StreamState, reason: GapReason, q: PollEvents): EventGap
    requires |s.history| <= U64_MAX
  {
    EventGap(reason, q.streamId, s.streamId, q.subscriptionId, q.afterSequence, Oldest(s), |s.history|,
             |s.history|, Manifest())
  }

  /** A gap exactly when the next record the cursor needs was evicted, otherwise the next slice of history. */
  function Polled(s: StreamState, q: PollEvents): Result<PollResult>
    requires |s.history| <= U64_MAX
  {
    if q.streamId != s.streamId then Ok(ResyncRequired(GapFor(s, StreamRestarted, q)))
    else if q.subscriptionId !in s.subscriptions then Err(NotFound)
    else if q.afterSequence > |s.history| then Err(InvalidInput)
    else if q.afterSequence < Evicted(s) then Ok(ResyncRequired(GapFor(s, CursorEvicted, q)))
    else
      var through := Min(|s.history|, q.afterSequence + Min(q.requestedLimit, s.config.maxBatchSize));
      Ok(Events(EventBatch(s.streamId, q.subscriptionId, q.afterSequence, through,
                           s.history[q.afterSequence..through])))
  }

  lemma PublishKeepsWellFormed(s: StreamState, event: PublicApiEvent)
    requires WellFormed(s)
    ensures WellFormed(Published(s, event).0)
  {
  }

  lemma PublishKeepsAuthentic(s: StreamState, event: PublicApiEvent)
    requires WellFormed(s) && Authentic(s)
    ensures Authentic(Published(s, event).0)
  {
  }
}
