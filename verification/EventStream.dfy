/** The bounded replay broker: a queue of recent records with caller-held cursors. */
module EventStream {
  import opened Core
  import opened PublicEvents
  import opened StreamModel
  import opened Replay

  function SequenceOf(record: PublicEventRecord): u64 {
    record.sequence
  }

  lemma TakeIsSlice(history: seq<PublicEventRecord>, cursor: nat, limit: nat)
    requires cursor <= |history|
    ensures Take(history[cursor..], limit) == history[cursor..Min(|history|, cursor + limit)]
  {
    var rest := history[cursor..];
    if |rest| <= limit {
      assert rest == history[cursor..|history|];
    } else {
      assert rest[..limit] == history[cursor..cursor + limit];
    }
  }

  /** Filtering the bounded queue past a served cursor yields the slice of the whole history. */
  lemma SuffixOfQueue(history: seq<PublicEventRecord>, evicted: nat, cursor: u64, limit: nat)
    requires forall i :: 0 <= i < |history| ==> history[i].sequence == i + 1
    requires evicted <= cursor <= |history| && limit > 0
    ensures var batch := Take(After(SequenceOf, history[evicted..], cursor), limit);
            var through := Min(|history|, cursor + limit);
            && batch == history[cursor..through]
            && (if batch == [] then cursor else batch[|batch| - 1].sequence) == through
  {
    var records, through := history[evicted..], Min(|history|, cursor + limit);
    AfterDropsPrefix(SequenceOf, records, cursor, cursor - evicted);
    assert records[cursor - evicted..] == history[cursor..];
    TakeIsSlice(history, cursor, limit);
    if cursor < through {
      assert history[cursor..through][through - cursor - 1] == history[through - 1];
    }
  }

  /** The last `bound` records, or all of them. */
  function Trimmed(records: seq<PublicEventRecord>, bound: nat): seq<PublicEventRecord> {
    if |records| <= bound then records else records[|records| - bound..]
  }

  /** Pushing one record and trimming to the bound keeps the queue the retained suffix of the history. */
  lemma QueueAfterPublish(s: StreamState, record: PublicEventRecord)
    ensures var next := s.(history := s.history + [record]);
            Trimmed(s.history[Evicted(s)..] + [record], s.config.retainedEvents) == next.history[Evicted(next)..]
  {
  }

  class EventStreamApi {
    const streamId: Identifier
    const config: Config
    var lastSequence: u64
    var records: seq<PublicEventRecord>
    var subscriptions: set<Identifier>
    ghost var history: seq<PublicEventRecord>

    ghost function State(): StreamState
      reads this
    {
      StreamState(streamId, config, history, subscriptions)
    }

    /** The queue is exactly the last `min(lastSequence, retainedEvents)` records ever published. */
    ghost predicate Valid()
      reads this
    {
      && WellFormed(State())
      && lastSequence == |history|
      && records == history[Evicted(State())..]
    }

    constructor (streamId: Identifier, config: Config)
      ensures Valid() && State() == EmptyStream(streamId, config)
    {
      this.streamId := streamId;
      this.config := config;
      lastSequence := 0;
      records := [];
      subscriptions := {};
      history := [];
    }

    function OldestSequence(): (oldest: Option<u64>)
      requires Valid()
      reads this
      ensures oldest == Oldest(State())
    {
      if records == [] then None else
        assert records[0] == history[Evicted(State())];
        Some(records[0].sequence)
    }

    function NextSequence(): (next: Result<u64>)
      requires Valid()
      reads this
      ensures next.Err? <==> |history| == U64_MAX
      ensures next.Ok? ==> next.value == |history| + 1
    {
      match CheckedAdd(lastSequence, 1)
      case None => Err(ResourceExhausted)
      case Some(n) => Ok(n)
    }

    function Snapshot(): (snapshot: StreamSnapshot)
      requires Valid()
      reads this
      ensures snapshot == Observed(State())
      ensures snapshot.retainedEventCount <= MAX_EVENT_STREAM_BOUND
      ensures snapshot.activeSubscriptionCount <= MAX_EVENT_STREAM_BOUND
    {
      StreamSnapshot(streamId, config, OldestSequence(), lastSequence, |records|, |subscriptions|)
    }

    method Open(id: Identifier, start: SubscriptionStart) returns (r: Result<OpenResult>)
      requires Valid()
      modifies this
      ensures Valid()
      ensures (State(), r) == Opened(old(State()), id, start)
    {
      if id in subscriptions {
        return Err(Conflict);
      }
      if |subscriptions| >= config.maxSubscriptions {
        return Err(ResourceExhausted);
      }
      var cursor: u64;
      match start {
        case Latest => cursor := lastSequence;
        case EarliestAvailable =>
          match OldestSequence() {
            case None => cursor := lastSequence;
            case Some(sequence) => cursor := SaturatingSub(sequence, 1);
          }
      }
      subscriptions := subscriptions + {id};
      r := Ok(OpenResult(streamId, id, cursor, Snapshot()));
    }

    method Close(requestedStreamId: Identifier, id: Identifier) returns (r: Result<CloseResult>)
      requires Valid()
      modifies this
      ensures Valid()
      ensures (State(), r) == Closed(old(State()), requestedStreamId, id)
      ensures records == old(records)
    {
      if requestedStreamId != streamId {
        return Err(Conflict);
      }
      if id !in subscriptions {
        return Err(NotFound);
      }
      subscriptions := subscriptions - {id};
      r := Ok(CloseResult(streamId, id, Snapshot()));
    }

    /** Pops the front while the queue is over its bound. */
    method EvictOldest()
      modifies `records
      ensures records == Trimmed(old(records), config.retainedEvents)
    {
      ghost var all := records;
      while |records| > config.retainedEvents
        invariant |records| <= |all| && records == all[|all| - |records|..]
        invariant |records| >= Min(|all|, config.retainedEvents)
      {
        records := records[1..];
      }
    }

    method Publish(event: PublicApiEvent) returns (r: Result<PublicEventRecord>)
      requires Valid()
      modifies this
      ensures Valid()
      ensures (State(), r) == Published(old(State()), event)
      ensures r.Err? ==> lastSequence == old(lastSequence) && records == old(records)
    {
      if !ValidEvent(event) {
        return Err(CorruptData);
      }
      var next := NextSequence();
      if next.Err? {
        return Err(next.error);
      }
      var record := RecordOf(streamId, next.value, event);
      ghost var published := Published(State(), event).0;
      PublishKeepsWellFormed(State(), event);
      QueueAfterPublish(State(), record);
      lastSequence := next.value;
      records := records + [record];
      history := history + [record];
      assert State() == published;
      EvictOldest();
      return Ok(record);
    }

    /** Read-only, so a retry of the same query is answered identically until the stream changes. */
    function Poll(query: PollEvents): (r: Result<PollResult>)
      requires Valid()
      reads this
      ensures r == Polled(State(), query)
    {
      if query.streamId != streamId then Ok(ResyncRequired(Gap(StreamRestarted, query)))
      else if query.subscriptionId !in subscriptions then Err(NotFound)
      else if query.afterSequence > lastSequence then Err(InvalidInput)
      else
        var oldest := OldestSequence();
        if oldest.Some? && SaturatingAdd(query.afterSequence, 1) < oldest.value then
          Ok(ResyncRequired(Gap(CursorEvicted, query)))
        else
          Ok(Events(NextBatch(query)))
    }

    function NextBatch(query: PollEvents): (batch: EventBatch)
      requires Valid() && Evicted(State()) <= query.afterSequence <= |history|
      reads this
      ensures var through := Min(|history|, query.afterSequence + Min(query.requestedLimit, config.maxBatchSize));
              batch == EventBatch(streamId, query.subscriptionId, query.afterSequence, through,
                                  history[query.afterSequence..through])
    {
      var limit := Min(query.requestedLimit, config.maxBatchSize);
      var batch := Take(After(SequenceOf, records, query.afterSequence), limit);
      var through := if batch == [] then query.afterSequence else batch[|batch| - 1].sequence;
      SuffixOfQueue(history, Evicted(State()), query.afterSequence, limit);
      EventBatch(streamId, query.subscriptionId, query.afterSequence, through, batch)
    }

    function Gap(reason: GapReason, query: PollEvents): (gap: EventGap)
      requires Valid()
      reads this
      ensures gap == GapFor(State(), reason, query)
    {
      EventGap(reason, query.streamId, streamId, query.subscriptionId, query.afterSequence,
               OldestSequence(), lastSequence, lastSequence, Manifest())
    }
  }
}
