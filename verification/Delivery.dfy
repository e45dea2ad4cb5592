/** Whole runs: many subscribers polling one stream while it publishes and evicts. */
module Delivery {
  import opened Core
  import opened PublicEvents
  import opened StreamModel
  import opened Rounding

  /** Records received in a row: after opening, or after one gap and before the next. */
  datatype Segment = Segment(start: nat, records: seq<PublicEventRecord>)

  /** What one subscriber holds: the cursor it persists and everything it was ever handed. */
  datatype Subscriber = Subscriber(cursor: nat, segments: seq<Segment>)

  datatype World = World(stream: StreamState, subscribers: map<Identifier, Subscriber>)

  datatype Action =
    | Open(id: Identifier, start: SubscriptionStart)
    | Close(streamId: Identifier, id: Identifier)
    | Publish(event: PublicApiEvent)
    | Poll(id: Identifier, limit: u32)

  function Receive(sub: Subscriber, r: Result<PollResult>): Subscriber
    requires sub.segments != []
  {
    match r
    case Err(_) => sub
    case Ok(Events(batch)) => Extend(sub, batch.records, batch.throughSequence)
    case Ok(ResyncRequired(gap)) => StartOver(sub, gap.resetBarrier)
  }

  function Extend(sub: Subscriber, records: seq<PublicEventRecord>, through: nat): Subscriber
    requires sub.segments != []
  {
    var n := |sub.segments| - 1;
    Subscriber(through, sub.segments[..n] + [Segment(sub.segments[n].start, sub.segments[n].records + records)])
  }

  function StartOver(sub: Subscriber, barrier: nat): Subscriber {
    Subscriber(barrier, sub.segments + [Segment(barrier, [])])
  }

  function QueryOf(w: World, id: Identifier, limit: u32): PollEvents
    requires id in w.subscribers && w.subscribers[id].cursor <= U64_MAX && ValidBound(limit)
  {
    PollQuery(w.stream.streamId, id, w.subscribers[id].cursor, limit)
  }

  function Step(w: World, action: Action): World
    requires Consistent(w)
  {
    match action
    case Open(id, start) =>
      var (stream, r) := Opened(w.stream, id, start);
      if r.Err? then w
      else
        var cursor := r.value.initialAfterSequence;
        World(stream, w.subscribers[id := Subscriber(cursor, [Segment(cursor, [])])])
    case Close(streamId, id) => w.(stream := Closed(w.stream, streamId, id).0)
    case Publish(event) => w.(stream := Published(w.stream, event).0)
    case Poll(id, limit) =>
      if id !in w.subscribers || !ValidBound(limit) then w
      else
        assert ExactSegments(w.stream.history, w.subscribers[id]);
        w.(subscribers := w.subscribers[id := Receive(w.subscribers[id], Polled(w.stream, QueryOf(w, id, limit)))])
  }

  function Run(w: World, actions: seq<Action>): World
    requires Consistent(w)
    decreases |actions|
  {
    if actions == [] then w
    else
      StepKeepsConsistent(w, actions[0]);
      Run(Step(w, actions[0]), actions[1..])
  }

  // ----- Exactly-once, contiguous, ordered delivery -----

  predicate ExactSegment(history: seq<PublicEventRecord>, segment: Segment) {
    && segment.start + |segment.records| <= |history|
    && segment.records == history[segment.start..segment.start + |segment.records|]
  }

  function End(segment: Segment): nat {
    segment.start + |segment.records|
  }

  /**
   * Every segment is a contiguous slice of the published history, later segments start where or after
   * earlier ones ended, and the cursor is where the last one ends.
   */
  predicate ExactSegments(history: seq<PublicEventRecord>, sub: Subscriber) {
    && sub.segments != []
    && (forall k :: 0 <= k < |sub.segments| ==> ExactSegment(history, sub.segments[k]))
    && (forall j, k :: 0 <= j < k < |sub.segments| ==> End(sub.segments[j]) <= sub.segments[k].start)
    && sub.cursor == End(sub.segments[|sub.segments| - 1])
  }

  ghost predicate Consistent(w: World) {
    && WellFormed(w.stream)
    && forall id :: id in w.subscribers ==> ExactSegments(w.stream.history, w.subscribers[id])
  }

  lemma HistoryGrows(s: StreamState, event: PublicApiEvent, sub: Subscriber)
    requires WellFormed(s) && ExactSegments(s.history, sub)
    ensures ExactSegments(Published(s, event).0.history, sub)
  {
    var longer := Published(s, event).0.history;
    assert s.history <= longer;
    forall k | 0 <= k < |sub.segments| ensures ExactSegment(longer, sub.segments[k]) {
      assert ExactSegment(s.history, sub.segments[k]);
    }
  }

  lemma ExtendIsExact(history: seq<PublicEventRecord>, sub: Subscriber, through: nat)
    requires ExactSegments(history, sub) && sub.cursor <= through <= |history|
    ensures ExactSegments(history, Extend(sub, history[sub.cursor..through], through))
  {
    var n, after := |sub.segments| - 1, Extend(sub, history[sub.cursor..through], through);
    assert ExactSegment(history, sub.segments[n]);
    assert after.segments[n].records == history[sub.segments[n].start..through];
    forall k | 0 <= k < n ensures ExactSegment(history, after.segments[k]) {
      assert ExactSegment(history, sub.segments[k]);
    }
  }

  lemma StartOverIsExact(history: seq<PublicEventRecord>, sub: Subscriber, barrier: nat)
    requires ExactSegments(history, sub) && sub.cursor <= barrier <= |history|
    ensures ExactSegments(history, StartOver(sub, barrier))
  {
    var n, after := |sub.segments|, StartOver(sub, barrier);
    forall k | 0 <= k < n ensures ExactSegment(history, after.segments[k]) && End(after.segments[k]) <= barrier {
      assert ExactSegment(history, sub.segments[k]);
    }
  }

  lemma ReceivingIsExact(s: StreamState, q: PollEvents, sub: Subscriber)
    requires WellFormed(s) && ExactSegments(s.history, sub) && q.afterSequence == sub.cursor
    ensures ExactSegments(s.history, Receive(sub, Polled(s, q)))
  {
    assert ExactSegment(s.history, sub.segments[|sub.segments| - 1]);
    match Polled(s, q) {
      case Err(_) =>
      case Ok(ResyncRequired(gap)) => StartOverIsExact(s.history, sub, gap.resetBarrier);
      case Ok(Events(batch)) => ExtendIsExact(s.history, sub, batch.throughSequence);
    }
  }

  lemma PublishKeepsConsistent(w: World, event: PublicApiEvent)
    requires Consistent(w)
    ensures Consistent(Step(w, Publish(event)))
  {
    PublishKeepsWellFormed(w.stream, event);
    forall id | id in w.subscribers
      ensures ExactSegments(Step(w, Publish(event)).stream.history, w.subscribers[id])
    {
      HistoryGrows(w.stream, event, w.subscribers[id]);
    }
  }

  lemma PollKeepsConsistent(w: World, id: Identifier, limit: u32)
    requires Consistent(w)
    ensures Consistent(Step(w, Poll(id, limit)))
  {
    if id in w.subscribers && ValidBound(limit) {
      assert ExactSegments(w.stream.history, w.subscribers[id]);
      ReceivingIsExact(w.stream, QueryOf(w, id, limit), w.subscribers[id]);
    }
  }

  lemma NewSubscriberIsExact(history: seq<PublicEventRecord>, cursor: nat)
    requires cursor <= |history|
    ensures ExactSegments(history, Subscriber(cursor, [Segment(cursor, [])]))
  {
  }

  lemma RegistryKeepsConsistent(w: World, action: Action)
    requires Consistent(w) && (action.Open? || action.Close?)
    ensures Consistent(Step(w, action))
  {
    var history := w.stream.history;
    NewSubscriberIsExact(history, |history|);
    NewSubscriberIsExact(history, Evicted(w.stream));
    assert Step(w, action).stream.history == history && WellFormed(Step(w, action).stream);
  }

  lemma StepOnlyAppends(w: World, action: Action)
    requires Consistent(w)
    ensures w.stream.history <= Step(w, action).stream.history
    ensures w.stream.config == Step(w, action).stream.config && w.stream.streamId == Step(w, action).stream.streamId
  {
  }

  lemma StepKeepsConsistent(w: World, action: Action)
    requires Consistent(w)
    ensures Consistent(Step(w, action))
    ensures w.stream.history <= Step(w, action).stream.history
    ensures w.stream.config == Step(w, action).stream.config && w.stream.streamId == Step(w, action).stream.streamId
  {
    StepOnlyAppends(w, action);
    match action {
      case Open(_, _) => RegistryKeepsConsistent(w, action);
      case Close(_, _) => RegistryKeepsConsistent(w, action);
      case Publish(event) => PublishKeepsConsistent(w, event);
      case Poll(id, limit) => PollKeepsConsistent(w, id, limit);
    }
  }

  /**
   * In every interleaving of publishes with any subscribers' opens, closes, and polls, what each
   * subscriber received is a list of contiguous slices of the published history, never overlapping.
   */
  lemma {:induction false} DeliveryIsExact(w: World, actions: seq<Action>)
    requires Consistent(w)
    ensures Consistent(Run(w, actions))
    ensures w.stream.history <= Run(w, actions).stream.history
    ensures w.stream.config == Run(w, actions).stream.config && w.stream.streamId == Run(w, actions).stream.streamId
    decreases |actions|
  {
    if actions != [] {
      StepKeepsConsistent(w, actions[0]);
      DeliveryIsExact(Step(w, actions[0]), actions[1..]);
    }
  }

  lemma StepKeepsAuthentic(w: World, action: Action)
    requires Consistent(w) && Authentic(w.stream)
    ensures Authentic(Step(w, action).stream)
  {
    if action.Publish? {
      PublishKeepsAuthentic(w.stream, action.event);
    } else {
      assert Step(w, action).stream.history == w.stream.history;
    }
  }

  /** Every record in every reachable history is the one built from its own valid event. */
  lemma {:induction false} HistoryIsAuthentic(w: World, actions: seq<Action>)
    requires Consistent(w) && Authentic(w.stream)
    ensures Authentic(Run(w, actions).stream)
    decreases |actions|
  {
    if actions != [] {
      StepKeepsConsistent(w, actions[0]);
      StepKeepsAuthentic(w, actions[0]);
      HistoryIsAuthentic(Step(w, actions[0]), actions[1..]);
    }
  }

  /** Within and across segments, later records carry later sequences. */
  lemma SegmentsAreOrdered(history: seq<PublicEventRecord>, sub: Subscriber, j: nat, k: nat, a: nat, b: nat)
    requires ExactSegments(history, sub)
    requires forall i :: 0 <= i < |history| ==> history[i].sequence == i + 1
    requires j <= k < |sub.segments| && a < |sub.segments[j].records| && b < |sub.segments[k].records|
    requires j == k ==> a < b
    ensures sub.segments[j].records[a].sequence < sub.segments[k].records[b].sequence
  {
    var first, second := sub.segments[j], sub.segments[k];
    assert ExactSegment(history, first) && ExactSegment(history, second);
    assert first.records[a] == history[first.start + a];
    assert second.records[b] == history[second.start + b];
  }

  /** No record reaches one subscription twice, and records arrive in sequence order, across gaps too. */
  lemma NothingIsDeliveredTwice(w: World, actions: seq<Action>, id: Identifier, j: nat, k: nat, a: nat, b: nat)
    requires Consistent(w) && id in Run(w, actions).subscribers
    requires var segments := Run(w, actions).subscribers[id].segments;
             j <= k < |segments| && a < |segments[j].records| && b < |segments[k].records| && (j == k ==> a < b)
    ensures var segments := Run(w, actions).subscribers[id].segments;
            segments[j].records[a].sequence < segments[k].records[b].sequence
  {
    DeliveryIsExact(w, actions);
    var final := Run(w, actions);
    SegmentsAreOrdered(final.stream.history, final.subscribers[id], j, k, a, b);
  }

  // ----- Other subscribers are invisible -----

  predicate Concerns(action: Action, id: Identifier) {
    action.Publish? || action.id == id
  }

  function Project(actions: seq<Action>, id: Identifier): seq<Action> {
    if actions == [] then []
    else (if Concerns(actions[0], id) then [actions[0]] else []) + Project(actions[1..], id)
  }

  /** Two worlds look the same to one subscriber and to publishers. */
  predicate Agree(v: World, w: World, id: Identifier) {
    && v.stream.streamId == w.stream.streamId && v.stream.config == w.stream.config
    && v.stream.history == w.stream.history
    && (id in v.stream.subscriptions <==> id in w.stream.subscriptions)
    && (id in v.subscribers <==> id in w.subscribers)
    && (id in v.subscribers ==> v.subscribers[id] == w.subscribers[id])
  }

  lemma SameAnswer(s: StreamState, t: StreamState, q: PollEvents)
    requires WellFormed(s) && WellFormed(t)
    requires s.streamId == t.streamId && s.config == t.config && s.history == t.history
    requires q.subscriptionId in s.subscriptions <==> q.subscriptionId in t.subscriptions
    ensures Polled(s, q) == Polled(t, q)
  {
  }

  predicate Full(w: World) {
    |w.stream.subscriptions| >= w.stream.config.maxSubscriptions
  }

  /** The only step of one subscriber that depends on the others: opening looks at the registry bound. */
  predicate OpensAlike(v: World, w: World, action: Action, id: Identifier) {
    action.Open? && action.id == id ==> id in v.stream.subscriptions || (Full(v) <==> Full(w))
  }

  lemma OwnPollAgrees(v: World, w: World, id: Identifier, limit: u32)
    requires Consistent(v) && Consistent(w) && Agree(v, w, id)
    ensures Agree(Step(v, Poll(id, limit)), Step(w, Poll(id, limit)), id)
  {
    if id in v.subscribers && ValidBound(limit) {
      assert ExactSegments(v.stream.history, v.subscribers[id]);
      SameAnswer(v.stream, w.stream, QueryOf(v, id, limit));
    }
  }

  lemma OwnOpenAgrees(v: World, w: World, id: Identifier, start: SubscriptionStart)
    requires Consistent(v) && Consistent(w) && Agree(v, w, id)
    ensures Agree(Step(v, Open(id, start)), Step(w, Open(id, start)), id) <==> OpensAlike(v, w, Open(id, start), id)
  {
  }

  lemma OwnStepAgrees(v: World, w: World, action: Action, id: Identifier)
    requires Consistent(v) && Consistent(w) && Agree(v, w, id) && Concerns(action, id)
    ensures Agree(Step(v, action), Step(w, action), id) <==> OpensAlike(v, w, action, id)
  {
    match action {
      case Poll(_, limit) => OwnPollAgrees(v, w, id, limit);
      case Open(_, start) => OwnOpenAgrees(v, w, id, start);
      case _ =>
    }
  }

  lemma OtherStepAgrees(v: World, w: World, action: Action, id: Identifier)
    requires Consistent(v) && Agree(v, w, id) && !Concerns(action, id)
    ensures Agree(Step(v, action), w, id)
  {
  }

  /** This action does not open the subscriber's own subscription while the registry is full of others. */
  predicate NotCrowdedOut(w: World, action: Action, id: Identifier) {
    action.Open? && action.id == id ==> id in w.stream.subscriptions || !Full(w)
  }

  /** No opening by this subscriber is refused because others filled the registry. */
  predicate NeverCrowdedOut(w: World, actions: seq<Action>, id: Identifier)
    requires Consistent(w)
    decreases |actions|
  {
    actions == [] ||
    (StepKeepsConsistent(w, actions[0]);
     NotCrowdedOut(w, actions[0], id) && NeverCrowdedOut(Step(w, actions[0]), actions[1..], id))
  }

  lemma OnlyItself(w: World, action: Action, id: Identifier)
    requires Consistent(w) && w.stream.subscriptions <= {id} && Concerns(action, id)
    ensures Step(w, action).stream.subscriptions <= {id}
    ensures id in w.stream.subscriptions || !Full(w)
  {
    assert id !in w.stream.subscriptions ==> w.stream.subscriptions == {};
  }

  lemma ProjectionStep(actions: seq<Action>, id: Identifier)
    requires actions != []
    ensures Concerns(actions[0], id) ==>
              Project(actions, id) != [] && Project(actions, id)[0] == actions[0]
              && Project(actions, id)[1..] == Project(actions[1..], id)
    ensures !Concerns(actions[0], id) ==> Project(actions, id) == Project(actions[1..], id)
  {
  }

  /**
   * A subscriber that is never crowded out of the registry sees exactly what it would see alone:
   * erasing every other subscriber and all their steps changes nothing for it or for the history.
   */
  lemma {:induction false} OthersAreInvisible(v: World, w: World, actions: seq<Action>, id: Identifier)
    requires Consistent(v) && Consistent(w) && Agree(v, w, id)
    requires w.stream.subscriptions <= {id} && NeverCrowdedOut(v, actions, id)
    ensures Agree(Run(v, actions), Run(w, Project(actions, id)), id)
    decreases |actions|
  {
    if actions != [] {
      var first := actions[0];
      StepKeepsConsistent(v, first);
      StepKeepsConsistent(w, first);
      ProjectionStep(actions, id);
      if Concerns(first, id) {
        OnlyItself(w, first, id);
        OwnStepAgrees(v, w, first, id);
        OthersAreInvisible(Step(v, first), Step(w, first), actions[1..], id);
      } else {
        OtherStepAgrees(v, w, first, id);
        OthersAreInvisible(Step(v, first), w, actions[1..], id);
      }
    }
  }

  // ----- When a gap is reported -----

  /** A gap on the live stream means precisely that the next needed record is no longer retained. */
  lemma GapIffNextRecordEvicted(s: StreamState, q: PollEvents)
    requires WellFormed(s) && q.streamId == s.streamId && q.subscriptionId in s.subscriptions
    requires q.afterSequence <= |s.history|
    ensures Polled(s, q).Ok?
    ensures Polled(s, q).value.ResyncRequired? <==>
            q.afterSequence < |s.history| &&
            forall i :: Evicted(s) <= i < |s.history| ==> s.history[i].sequence != q.afterSequence + 1
  {
    if Evicted(s) <= q.afterSequence < |s.history| {
      assert s.history[q.afterSequence].sequence == q.afterSequence + 1;
    }
  }

  /** Answering the same query again later extends the earlier answer. */
  lemma ReplayIsStable(w: World, actions: seq<Action>, q: PollEvents)
    requires Consistent(w)
    requires Polled(w.stream, q).Ok? && Polled(w.stream, q).value.Events?
    ensures WellFormed(Run(w, actions).stream)
    ensures var later := Polled(Run(w, actions).stream, q);
            later.Ok? && later.value.Events? ==>
            Polled(w.stream, q).value.batch.records <= later.value.batch.records
  {
    DeliveryIsExact(w, actions);
  }

  /** Retention outruns the subscriber exactly when it lags by more than the retained count. */
  function Lag(w: World, id: Identifier): int
    requires id in w.subscribers
  {
    |w.stream.history| - w.subscribers[id].cursor
  }

  /**
   * The subscriber stays registered, polls with an effective batch of at least `batch`, and sees at
   * most `batch` publish attempts between consecutive polls (`used` so far).
   */
  predicate Paced(config: Config, actions: seq<Action>, id: Identifier, batch: nat, used: nat)
    decreases |actions|
  {
    used <= batch &&
    (actions == [] ||
     match actions[0]
     case Publish(_) => Paced(config, actions[1..], id, batch, used + 1)
     case Poll(poller, limit) =>
       if poller != id then Paced(config, actions[1..], id, batch, used)
       else ValidBound(limit) && Min(limit, config.maxBatchSize) >= batch && Paced(config, actions[1..], id, batch, 0)
     case Open(_, _) => Paced(config, actions[1..], id, batch, used)
     case Close(_, other) => other != id && Paced(config, actions[1..], id, batch, used))
  }

  ghost predicate KeepsUp(w: World, id: Identifier, batch: nat, used: nat) {
    && id in w.subscribers && id in w.stream.subscriptions
    && used <= batch <= w.stream.config.retainedEvents
    && Lag(w, id) <= w.stream.config.retainedEvents - batch + used
  }

  function Spent(action: Action, id: Identifier, used: nat): nat {
    if action.Publish? then used + 1
    else if action.Poll? && action.id == id then 0
    else used
  }

  /** A registered subscriber that lags by no more than the retained count is handed the next records. */
  lemma PollWithoutGap(w: World, id: Identifier, limit: u32)
    requires Consistent(w) && id in w.subscribers && id in w.stream.subscriptions && ValidBound(limit)
    requires Lag(w, id) <= w.stream.config.retainedEvents
    ensures var after := Step(w, Poll(id, limit));
            && after.stream == w.stream && id in after.subscribers
            && |after.subscribers[id].segments| == |w.subscribers[id].segments|
            && after.subscribers[id].cursor
               == Min(|w.stream.history|, w.subscribers[id].cursor + Min(limit, w.stream.config.maxBatchSize))
  {
    var sub := w.subscribers[id];
    assert ExactSegments(w.stream.history, sub);
    assert ExactSegment(w.stream.history, sub.segments[|sub.segments| - 1]);
  }

  lemma PacedStep(w: World, action: Action, id: Identifier, batch: nat, used: nat)
    requires Consistent(w) && KeepsUp(w, id, batch, used)
    requires Spent(action, id, used) <= batch
    requires action.Close? ==> action.id != id
    requires action.Poll? && action.id == id ==>
               ValidBound(action.limit) && Min(action.limit, w.stream.config.maxBatchSize) >= batch
    ensures KeepsUp(Step(w, action), id, batch, Spent(action, id, used))
    ensures |Step(w, action).subscribers[id].segments| == |w.subscribers[id].segments|
  {
    if action.Poll? && action.id == id {
      PollWithoutGap(w, id, action.limit);
    } else {
      assert Step(w, action).subscribers[id] == w.subscribers[id];
    }
  }

  /** A subscriber that starts close enough and keeps pace never receives a gap, however long the run. */
  lemma {:induction false} PacedSubscriberNeverGaps(w: World, actions: seq<Action>, id: Identifier, batch: nat, used: nat)
    requires Consistent(w) && KeepsUp(w, id, batch, used)
    requires Paced(w.stream.config, actions, id, batch, used)
    ensures id in Run(w, actions).subscribers && id in Run(w, actions).stream.subscriptions
    ensures |Run(w, actions).subscribers[id].segments| == |w.subscribers[id].segments|
    ensures Lag(Run(w, actions), id) <= w.stream.config.retainedEvents
    decreases |actions|
  {
    if actions != [] {
      var first := actions[0];
      StepKeepsConsistent(w, first);
      PacedStep(w, first, id, batch, used);
      PacedSubscriberNeverGaps(Step(w, first), actions[1..], id, batch, Spent(first, id, used));
    }
  }

  function Repeat(event: PublicApiEvent, n: nat): (actions: seq<Action>)
    ensures |actions| == n
  {
    if n == 0 then [] else [Publish(event)] + Repeat(event, n - 1)
  }

  lemma {:induction false} RepeatPublishes(w: World, event: PublicApiEvent, n: nat)
    requires Consistent(w) && ValidEvent(event) && |w.stream.history| + n <= U64_MAX
    ensures var later := Run(w, Repeat(event, n));
            && |later.stream.history| == |w.stream.history| + n
            && later.stream.subscriptions == w.stream.subscriptions && later.subscribers == w.subscribers
            && later.stream.config == w.stream.config
    decreases n
  {
    if n > 0 {
      StepKeepsConsistent(w, Publish(event));
      RepeatPublishes(Step(w, Publish(event)), event, n - 1);
      assert Repeat(event, n)[1..] == Repeat(event, n - 1);
    }
  }

  /** A registered subscriber that lags by more than the retained count receives a gap. */
  lemma PollPastRetention(w: World, id: Identifier, limit: u32)
    requires Consistent(w) && id in w.subscribers && id in w.stream.subscriptions && ValidBound(limit)
    requires Lag(w, id) > w.stream.config.retainedEvents
    ensures var after := Step(w, Poll(id, limit));
            id in after.subscribers && |after.subscribers[id].segments| == |w.subscribers[id].segments| + 1
  {
    assert ExactSegments(w.stream.history, w.subscribers[id]);
    assert ExactSegment(w.stream.history, w.subscribers[id].segments[|w.subscribers[id].segments| - 1]);
  }

  /** The bound is tight: one more record of starting lag and the same pace can force a gap. */
  lemma PaceBoundIsTight(w: World, id: Identifier, batch: nat, event: PublicApiEvent, limit: u32)
    requires Consistent(w) && id in w.subscribers && id in w.stream.subscriptions
    requires ValidEvent(event) && ValidBound(limit) && |w.stream.history| + batch <= U64_MAX
    requires Lag(w, id) == w.stream.config.retainedEvents - batch + 1
    ensures id in Run(w, Repeat(event, batch) + [Poll(id, limit)]).subscribers
    ensures |Run(w, Repeat(event, batch) + [Poll(id, limit)]).subscribers[id].segments|
            == |w.subscribers[id].segments| + 1
  {
    RepeatPublishes(w, event, batch);
    RunConcat(w, Repeat(event, batch), [Poll(id, limit)]);
    var later := Run(w, Repeat(event, batch));
    PollPastRetention(later, id, limit);
    RunOne(later, Poll(id, limit));
  }

  lemma RunOne(w: World, action: Action)
    requires Consistent(w)
    ensures Run(w, [action]) == Step(w, action)
  {
    StepKeepsConsistent(w, action);
    assert [action][1..] == [];
    assert Run(Step(w, action), []) == Step(w, action);
  }

  lemma {:induction false} RunConcat(w: World, a: seq<Action>, b: seq<Action>)
    requires Consistent(w)
    ensures Consistent(Run(w, a)) && Run(w, a + b) == Run(Run(w, a), b)
    decreases |a|
  {
    DeliveryIsExact(w, a);
    if a == [] {
      assert a + b == b;
    } else {
      assert (a + b)[1..] == a[1..] + b;
      StepKeepsConsistent(w, a[0]);
      RunConcat(Step(w, a[0]), a[1..], b);
    }
  }

  // ----- Catching up -----

  /** Polls with one limit, feeding each cursor back, until an empty batch. */
  function Drain(s: StreamState, q: PollEvents): (batches: seq<EventBatch>)
    requires WellFormed(s) && q.streamId == s.streamId && q.subscriptionId in s.subscriptions
    requires Evicted(s) <= q.afterSequence <= |s.history|
    decreases |s.history| - q.afterSequence
  {
    var batch := Polled(s, q).value.batch;
    if batch.records == [] then []
    else [batch] + Drain(s, q.(afterSequence := batch.throughSequence))
  }

  function Flatten(batches: seq<EventBatch>): seq<PublicEventRecord> {
    if batches == [] then [] else batches[0].records + Flatten(batches[1..])
  }

  /** Without publishes, a servable cursor reaches the end in exactly ceil(lag / batch) nonempty polls. */
  lemma {:induction false} DrainReachesTheEnd(s: StreamState, q: PollEvents)
    requires WellFormed(s) && q.streamId == s.streamId && q.subscriptionId in s.subscriptions
    requires Evicted(s) <= q.afterSequence <= |s.history|
    ensures Flatten(Drain(s, q)) == s.history[q.afterSequence..]
    ensures |Drain(s, q)| == CeilDiv(|s.history| - q.afterSequence, Min(q.requestedLimit, s.config.maxBatchSize))
    decreases |s.history| - q.afterSequence
  {
    var limit := Min(q.requestedLimit, s.config.maxBatchSize);
    var batch := Polled(s, q).value.batch;
    if batch.records == [] {
      assert q.afterSequence == |s.history|;
      CeilDivOfNone(limit);
    } else {
      var next := q.(afterSequence := batch.throughSequence);
      DrainReachesTheEnd(s, next);
      CeilDivStep(|s.history| - q.afterSequence, limit);
      assert s.history[q.afterSequence..] == batch.records + s.history[batch.throughSequence..];
    }
  }

  /** Every cursor the broker itself hands out can be served without a gap. */
  lemma HandedOutCursorsAreServable(s: StreamState, id: Identifier, start: SubscriptionStart, q: PollEvents)
    requires WellFormed(s)
    ensures var (next, r) := Opened(s, id, start);
            r.Ok? ==> WellFormed(next) && id in next.subscriptions
                      && Evicted(next) <= r.value.initialAfterSequence <= |next.history|
                      && (start.EarliestAvailable? ==>
                            next.history[r.value.initialAfterSequence..] == next.history[Evicted(next)..])
    ensures Polled(s, q).Ok? && Polled(s, q).value.ResyncRequired? ==>
              Evicted(s) <= Polled(s, q).value.gap.resetBarrier <= |s.history|
              && Polled(s, q).value.gap.currentStreamId == s.streamId
  {
  }
}
