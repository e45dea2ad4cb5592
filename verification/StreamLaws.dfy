/** What one broker operation answers, said without the functions that compute it. */
module StreamLaws {
  import opened Core
  import opened PublicEvents
  import opened StreamModel

  /** The count is no more than any of three bounds, and reaches one of them. */
  predicate SmallestOf(count: int, a: int, b: int, c: int) {
    && count <= a && count <= b && count <= c
    && (count == a || count == b || count == c)
  }

  /** The record that a cursor needs next is older than the last `retainedEvents` records. */
  predicate NeedsEvicted(s: StreamState, cursor: nat) {
    cursor + s.config.retainedEvents < |s.history|
  }

  /** A gap tells both identities, the cursor, the retained window, and every resource to refresh. */
  predicate DescribesGap(s: StreamState, q: PollEvents, gap: EventGap) {
    && gap.requestedStreamId == q.streamId && gap.currentStreamId == s.streamId
    && gap.reason == (if q.streamId == s.streamId then CursorEvicted else StreamRestarted)
    && gap.subscriptionId == q.subscriptionId && gap.requestedAfterSequence == q.afterSequence
    && gap.latestSequence == |s.history| && gap.resetBarrier == |s.history|
    && IsOldestRetained(s, gap.oldestAvailableSequence)
    && gap.replacementResources == Manifest()
  }

  /** The first of the last `retainedEvents` sequences, if anything was published. */
  predicate IsOldestRetained(s: StreamState, oldest: Option<u64>) {
    match oldest
    case None => s.history == []
    case Some(k) => 1 <= k <= |s.history| && (k == 1 || k + s.config.retainedEvents == |s.history| + 1)
                    && |s.history| - k < s.config.retainedEvents
  }

  /**
   * A poll fails for an unknown subscription or a future cursor, reports a gap for another stream or an
   * evicted record, and otherwise hands out the records after the cursor: as many as there are, as were
   * asked for, and as the stream's own maximum allows, whichever is least.
   */
  lemma PollDecides(s: StreamState, q: PollEvents)
    requires WellFormed(s)
    ensures var live, known, n := q.streamId == s.streamId, q.subscriptionId in s.subscriptions, |s.history|;
            match Polled(s, q)
            case Err(e) =>
              live && ((e == NotFound && !known) || (e == InvalidInput && known && q.afterSequence > n))
            case Ok(ResyncRequired(gap)) =>
              && (live ==> known && NeedsEvicted(s, q.afterSequence))
              && DescribesGap(s, q, gap)
            case Ok(Events(batch)) =>
              && live && known && q.afterSequence <= n && !NeedsEvicted(s, q.afterSequence)
              && batch.streamId == s.streamId && batch.subscriptionId == q.subscriptionId
              && batch.afterSequence == q.afterSequence
              && batch.throughSequence == q.afterSequence + |batch.records| <= n
              && SmallestOf(|batch.records|, q.requestedLimit, s.config.maxBatchSize, n - q.afterSequence)
              && forall i :: 0 <= i < |batch.records| ==>
                   && batch.records[i] == s.history[q.afterSequence + i]
                   && batch.records[i].sequence == q.afterSequence + 1 + i
  {
  }

  /** The control snapshot counts what is retained, never more than the bound, and what is registered. */
  lemma SnapshotShowsWindow(s: StreamState)
    requires WellFormed(s)
    ensures var seen := Observed(s);
            && seen.streamId == s.streamId && seen.config == s.config
            && seen.latestSequence == |s.history| && seen.activeSubscriptionCount == |s.subscriptions|
            && IsOldestRetained(s, seen.oldestAvailableSequence)
            && seen.retainedEventCount ==
                 (if s.history == [] then 0 else |s.history| + 1 - seen.oldestAvailableSequence.value)
  {
  }

  /** Everything but the registry is as before. */
  predicate OnlyRegistry(s: StreamState, next: StreamState) {
    next == s.(subscriptions := next.subscriptions)
  }

  /**
   * Opening adds exactly the identity, refused for a registered one or at the bound. The cursor it hands
   * out skips everything published for `Latest` and nothing retained for `EarliestAvailable`.
   */
  lemma OpenDecides(s: StreamState, id: Identifier, start: SubscriptionStart)
    requires WellFormed(s)
    ensures var (next, r) := Opened(s, id, start);
            && OnlyRegistry(s, next) && WellFormed(next)
            && match r
               case Err(e) =>
                 && next == s
                 && ((e == Conflict && id in s.subscriptions)
                     || (e == ResourceExhausted && id !in s.subscriptions
                         && |s.subscriptions| == s.config.maxSubscriptions))
               case Ok(result) =>
                 && id !in s.subscriptions && next.subscriptions == s.subscriptions + {id}
                 && result.streamId == s.streamId && result.subscriptionId == id && result.snapshot == Observed(next)
                 && match start
                    case Latest => result.initialAfterSequence == |s.history|
                    case EarliestAvailable =>
                      if s.history == [] then result.initialAfterSequence == 0
                      else IsOldestRetained(s, Some(result.initialAfterSequence + 1))
  {
  }

  /** Closing removes exactly the identity, and reopening is possible afterwards. */
  lemma CloseDecides(s: StreamState, streamId: Identifier, id: Identifier, start: SubscriptionStart)
    requires WellFormed(s)
    ensures var (next, r) := Closed(s, streamId, id);
            && OnlyRegistry(s, next) && WellFormed(next)
            && match r
               case Err(e) =>
                 && next == s
                 && ((e == Conflict && streamId != s.streamId)
                     || (e == NotFound && streamId == s.streamId && id !in s.subscriptions))
               case Ok(closed) =>
                 && streamId == s.streamId && id in s.subscriptions
                 && id !in next.subscriptions && next.subscriptions + {id} == s.subscriptions
                 && closed == CloseResult(s.streamId, id, Observed(next))
                 && Opened(next, id, start).1.Ok? && Opened(next, id, start).0 == s
  {
    var (next, r) := Closed(s, streamId, id);
    if r.Ok? {
      assert |next.subscriptions| < |s.subscriptions|;
      assert next.subscriptions + {id} == s.subscriptions;
    }
  }

  /** Publishing appends exactly one record, of this stream and this event, under the next sequence. */
  lemma PublishDecides(s: StreamState, event: PublicApiEvent)
    requires WellFormed(s)
    ensures var (next, r) := Published(s, event);
            match r
            case Err(e) =>
              && next == s
              && ((e == CorruptData && !ValidEvent(event))
                  || (e == ResourceExhausted && ValidEvent(event) && |s.history| == U64_MAX))
            case Ok(record) =>
              && ValidEvent(event) && next == s.(history := s.history + [record])
              && record.streamId == s.streamId && record.sequence == |next.history| && record.event == event
              && ValidRecord(record)
  {
  }
}
