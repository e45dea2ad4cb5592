/**
 * A client that applies replacement events and recovers through the manifest, against a server that
 * publishes, evicts, restarts, and drops registrations at any moment.
 */
module Convergence {
  import opened Core
  import opened PublicEvents
  import opened StreamModel
  import opened Rounding

  datatype Phase =
    | Idle
    | Following
    | Handling(next: nat, through: u64, inbox: seq<PublicEventRecord>)
    | Refreshing(target: Identifier, barrier: u64, stale: set<string>)

  datatype Position = Position(streamId: Identifier, cursor: u64)

  /** `saved` is the position that survives a crash, `view` the resource states the client holds. */
  datatype Client = Client(phase: Phase, saved: Option<Position>, view: map<string, Snapshot>)

  /** `live` is the server's current state of each resource, `used` every stream identity so far. */
  datatype World = World(
    me: Identifier, stream: StreamState, live: map<string, Snapshot>, used: set<Identifier>, client: Client)

  datatype Action =
    | Publish(event: PublicApiEvent)
    | ChangeQuietly(resource: string, state: Snapshot)
    | Restart(streamId: Identifier, live: map<string, Snapshot>)
    | Register(id: Identifier, start: SubscriptionStart)
    | Unregister(id: Identifier)
    | ClientOpen(start: SubscriptionStart)
    | ClientClose
    | ClientReattach
    | ClientPoll(limit: u32)
    | ClientApply
    | ClientPersist
    | ClientRefresh(resource: string)
    | ClientResume
    | ClientCrash

  function Names(entries: seq<ResyncResource>): set<string> {
    set i | 0 <= i < |entries| :: entries[i].resource
  }

  /** The resources that events replace. */
  function Tracked(): set<string> {
    Names(Manifest()) - EVENTLESS
  }

  /** One step of the server or its environment. An action that is not enabled changes nothing. */
  function Step(w: World, action: Action): World
    requires WellFormed(w.stream)
  {
    match action
    case Publish(event) =>
      var (stream, r) := Published(w.stream, event);
      if r.Err? then w else w.(stream := stream, live := w.live[ResourceOf(event) := event.snapshot])
    case ChangeQuietly(resource, state) =>
      if resource in EVENTLESS then w.(live := w.live[resource := state]) else w
    case Restart(streamId, live) =>
      if streamId in w.used || !(Names(Manifest()) <= live.Keys) then w
      else w.(stream := EmptyStream(streamId, w.stream.config), live := live, used := w.used + {streamId})
    case Register(id, start) => w.(stream := Opened(w.stream, id, start).0)
    case Unregister(id) => w.(stream := Closed(w.stream, w.stream.streamId, id).0)
    case ClientOpen(start) =>
      var (stream, r) := Opened(w.stream, w.me, start);
      if r.Err? || !w.client.phase.Idle? then w
      else
        w.(stream := stream, client := w.client.(phase :=
          Refreshing(r.value.streamId, r.value.initialAfterSequence, Names(Manifest()))))
    case ClientClose =>
      w.(stream := Closed(w.stream, w.stream.streamId, w.me).0, client := w.client.(phase := Idle))
    case _ => w.(client := ClientStep(w.me, w.stream, w.live, w.client, action))
  }

  /** One step of the client alone. */
  function ClientStep(
    me: Identifier, stream: StreamState, live: map<string, Snapshot>, c: Client, action: Action): Client
    requires WellFormed(stream)
  {
    match (action, c.phase)
    case (ClientReattach, Idle) => if c.saved.Some? then c.(phase := Following) else c
    case (ClientPoll(limit), Following) =>
      if c.saved.None? || !ValidBound(limit) then c
      else
        var at := c.saved.value;
        c.(phase := AfterPoll(at.cursor, Polled(stream, PollQuery(at.streamId, me, at.cursor, limit))))
    case (ClientApply, Handling(next, through, inbox)) =>
      if inbox == [] then c
      else
        c.(view := c.view[Key(inbox[0]) := inbox[0].event.snapshot],
           phase := Handling(next + 1, through, inbox[1..]))
    case (ClientPersist, Handling(_, through, inbox)) =>
      if inbox != [] || c.saved.None? then c
      else c.(phase := Following, saved := Some(Position(c.saved.value.streamId, through)))
    case (ClientRefresh(resource), Refreshing(target, barrier, stale)) =>
      if resource !in live then c
      else
        c.(view := c.view[resource := live[resource]],
           phase := Refreshing(target, barrier, stale - {resource}))
    case (ClientResume, Refreshing(target, barrier, stale)) =>
      if stale != {} then c
      else c.(phase := Following, saved := Some(Position(target, barrier)))
    case (ClientCrash, _) => c.(phase := Idle)
    case _ => c
  }

  function AfterPoll(cursor: u64, r: Result<PollResult>): Phase {
    match r
    case Err(_) => Idle
    case Ok(Events(batch)) => Handling(cursor, batch.throughSequence, batch.records)
    case Ok(ResyncRequired(gap)) =>
      Refreshing(gap.currentStreamId, gap.resetBarrier, Names(gap.replacementResources))
  }

  // ----- The invariant -----

  /** The resource that a record replaces, by its own descriptor. */
  function Key(record: PublicEventRecord): string {
    record.replacement.descriptor.resource
  }

  /** No record from `cursor` on concerns the resource. */
  predicate QuietSince(history: seq<PublicEventRecord>, resource: string, cursor: nat) {
    forall k :: cursor <= k < |history| ==> Key(history[k]) != resource
  }

  predicate Holds(w: World, resource: string) {
    resource in w.client.view && resource in w.live && w.client.view[resource] == w.live[resource]
  }

  /** Resources with no event after the cursor are already right; the rest have an event coming. */
  ghost predicate Settled(w: World, cursor: nat, except: set<string>) {
    && cursor <= |w.stream.history|
    && forall r :: r in Tracked() - except && QuietSince(w.stream.history, r, cursor) ==> Holds(w, r)
  }

  /** The live state of a resource is its latest published event, once there is one. */
  ghost predicate LiveIsLatest(w: World) {
    var h := w.stream.history;
    forall k :: 0 <= k < |h| && QuietSince(h, Key(h[k]), k + 1) ==>
      Key(h[k]) in w.live && w.live[Key(h[k])] == h[k].event.snapshot
  }

  ghost predicate OnlyTracked(history: seq<PublicEventRecord>) {
    forall k :: 0 <= k < |history| ==> Key(history[k]) in Tracked()
  }

  ghost predicate SafeServer(w: World) {
    && WellFormed(w.stream) && w.stream.streamId in w.used
    && Names(Manifest()) <= w.live.Keys
    && LiveIsLatest(w) && OnlyTracked(w.stream.history)
  }

  ghost predicate SafeSaved(w: World) {
    w.client.saved.Some? ==>
      && w.client.saved.value.streamId in w.used
      && (w.client.saved.value.streamId == w.stream.streamId ==> Settled(w, w.client.saved.value.cursor, {}))
  }

  ghost predicate SafePhase(w: World) {
    match w.client.phase
    case Idle => true
    case Following => w.client.saved.Some?
    case Handling(next, through, inbox) =>
      && w.client.saved.Some?
      && (w.client.saved.value.streamId == w.stream.streamId ==>
            && w.client.saved.value.cursor <= next <= through <= |w.stream.history|
            && inbox == w.stream.history[next..through]
            && Settled(w, next, {}))
    case Refreshing(target, barrier, stale) =>
      && target in w.used
      && (target == w.stream.streamId ==> Settled(w, barrier, stale))
  }

  ghost predicate Safe(w: World) {
    SafeServer(w) && SafeSaved(w) && SafePhase(w)
  }

  ghost predicate Initial(w: World) {
    && w.stream == EmptyStream(w.stream.streamId, w.stream.config)
    && w.used == {w.stream.streamId}
    && Names(Manifest()) <= w.live.Keys
    && w.client.phase == Idle && w.client.saved == None
  }

  lemma EventsAreTracked(event: PublicApiEvent)
    ensures ResourceOf(event) in Tracked()
  {
    ManifestListsEveryEvent(event);
    EventResourcesAreNotEventless(event);
  }

  /** The record that publishing appends concerns exactly the event's resource. */
  lemma PublishAppends(w: World, event: PublicApiEvent)
    requires Safe(w) && Step(w, Publish(event)) != w
    ensures var next, n := Step(w, Publish(event)), |w.stream.history|;
            && |next.stream.history| == n + 1 && next.stream.history[..n] == w.stream.history
            && next.stream.history[n].event == event && Key(next.stream.history[n]) in Tracked()
            && next.live == w.live[Key(next.stream.history[n]) := event.snapshot]
            && WellFormed(next.stream)
            && next.client == w.client && next.used == w.used && next.stream.streamId == w.stream.streamId
  {
    PublishKeepsWellFormed(w.stream, event);
    EventsAreTracked(event);
  }

  /** One more record keeps every settled cursor settled: its own resource now has an event coming. */
  lemma AppendKeepsSettled(w: World, next: World, cursor: nat, except: set<string>)
    requires Settled(w, cursor, except)
    requires var n := |w.stream.history|;
             && |next.stream.history| == n + 1 && next.stream.history[..n] == w.stream.history
             && next.live == w.live[Key(next.stream.history[n]) := next.stream.history[n].event.snapshot]
             && next.client == w.client
    ensures Settled(next, cursor, except)
  {
    var n, h := |w.stream.history|, next.stream.history;
    assert forall k :: 0 <= k < n ==> h[k] == w.stream.history[k];
    forall r | r in Tracked() - except && QuietSince(h, r, cursor) ensures Holds(next, r) {
      assert r != Key(h[n]);
      assert QuietSince(w.stream.history, r, cursor);
    }
  }

  lemma AppendKeepsLive(w: World, next: World)
    requires LiveIsLatest(w) && OnlyTracked(w.stream.history)
    requires var n := |w.stream.history|;
             && |next.stream.history| == n + 1 && next.stream.history[..n] == w.stream.history
             && next.live == w.live[Key(next.stream.history[n]) := next.stream.history[n].event.snapshot]
             && Key(next.stream.history[n]) in Tracked()
    ensures LiveIsLatest(next) && OnlyTracked(next.stream.history)
  {
    var n, h := |w.stream.history|, next.stream.history;
    assert forall k :: 0 <= k < n ==> h[k] == w.stream.history[k];
    forall k | 0 <= k < n && QuietSince(h, Key(h[k]), k + 1)
      ensures Key(h[k]) in w.live && next.live[Key(h[k])] == h[k].event.snapshot
    {
      assert Key(h[n]) != Key(h[k]);
      assert QuietSince(w.stream.history, Key(h[k]), k + 1);
    }
  }

  lemma PublishIsSafe(w: World, event: PublicApiEvent)
    requires Safe(w)
    ensures Safe(Step(w, Publish(event)))
  {
    var next := Step(w, Publish(event));
    if next != w {
      PublishAppends(w, event);
      AppendKeepsLive(w, next);
      AppendKeepsClient(w, next);
    }
  }

  lemma AppendKeepsClient(w: World, next: World)
    requires SafeSaved(w) && SafePhase(w) && next.client == w.client && next.used == w.used
    requires next.stream.streamId == w.stream.streamId
    requires var n := |w.stream.history|;
             && |next.stream.history| == n + 1 && next.stream.history[..n] == w.stream.history
             && next.live == w.live[Key(next.stream.history[n]) := next.stream.history[n].event.snapshot]
    ensures SafeSaved(next) && SafePhase(next)
  {
    forall cursor: nat, except | Settled(w, cursor, except) ensures Settled(next, cursor, except) {
      AppendKeepsSettled(w, next, cursor, except);
    }
    if w.client.phase.Handling? && w.client.saved.value.streamId == w.stream.streamId {
      var from, to := w.client.phase.next, w.client.phase.through;
      assert next.stream.history[..|w.stream.history|][from..to] == next.stream.history[from..to];
    }
  }

  lemma QuietChangeIsSafe(w: World, resource: string, state: Snapshot)
    requires Safe(w)
    ensures Safe(Step(w, ChangeQuietly(resource, state)))
  {
  }

  /** Applying the next record of a batch settles the cursor one further. */
  lemma ApplyKeepsSettled(w: World, after: World, next: nat)
    requires LiveIsLatest(w) && Settled(w, next, {}) && next < |w.stream.history|
    requires var record := w.stream.history[next];
             after.stream == w.stream && after.live == w.live
             && after.client.view == w.client.view[Key(record) := record.event.snapshot]
    ensures Settled(after, next + 1, {})
  {
    var h := w.stream.history;
    forall r | r in Tracked() && QuietSince(h, r, next + 1) ensures Holds(after, r) {
      if r != Key(h[next]) {
        assert QuietSince(h, r, next);
      }
    }
  }

  lemma EarlierCursorIsSettled(w: World, cursor: nat, next: nat)
    requires Settled(w, next, {}) && cursor <= next
    ensures Settled(w, cursor, {})
  {
    assert forall r :: QuietSince(w.stream.history, r, cursor) ==> QuietSince(w.stream.history, r, next);
  }

  lemma ApplyIsSafe(w: World)
    requires Safe(w)
    ensures Safe(Step(w, ClientApply))
  {
    var after, phase := Step(w, ClientApply), w.client.phase;
    if phase.Handling? && phase.inbox != [] && w.client.saved.value.streamId == w.stream.streamId {
      assert phase.inbox[0] == w.stream.history[phase.next];
      ApplyKeepsSettled(w, after, phase.next);
      EarlierCursorIsSettled(after, w.client.saved.value.cursor, phase.next + 1);
    }
  }

  lemma SameViewSameSettled(w: World, after: World)
    requires after.stream.history == w.stream.history && after.live == w.live && after.client.view == w.client.view
    ensures forall cursor: nat, except :: Settled(w, cursor, except) ==> Settled(after, cursor, except)
  {
    assert forall r :: Holds(w, r) ==> Holds(after, r);
  }

  /** Registry changes and restarts leave what the client holds about the live stream alone. */
  lemma StreamStepIsSafe(w: World, action: Action)
    requires Safe(w) && (action.Register? || action.Unregister? || action.Restart?)
    ensures Safe(Step(w, action))
  {
    var after := Step(w, action);
    assert after.client == w.client;
    if !action.Restart? {
      assert after.stream.history == w.stream.history && after.live == w.live;
      SameViewSameSettled(w, after);
      assert WellFormed(after.stream);
    }
  }

  lemma OpenAndCloseAreSafe(w: World, action: Action)
    requires Safe(w) && (action.ClientOpen? || action.ClientClose?)
    ensures Safe(Step(w, action))
  {
    var after := Step(w, action);
    assert after.stream.history == w.stream.history && after.live == w.live && after.client.view == w.client.view;
    SameViewSameSettled(w, after);
  }

  /** A batch is exactly the next slice of history; a gap makes every tracked resource stale. */
  lemma PollIsSafe(w: World, limit: u32)
    requires Safe(w)
    ensures Safe(Step(w, ClientPoll(limit)))
  {
    var after := Step(w, ClientPoll(limit));
    SameViewSameSettled(w, after);
  }

  lemma RefreshIsSafe(w: World, resource: string)
    requires Safe(w)
    ensures Safe(Step(w, ClientRefresh(resource)))
  {
    var after := Step(w, ClientRefresh(resource));
    assert forall r :: Holds(w, r) ==> Holds(after, r);
    assert forall cursor: nat, except :: Settled(w, cursor, except) ==> Settled(after, cursor, except);
    if after != w {
      assert Holds(after, resource);
    }
  }

  lemma BookkeepingIsSafe(w: World, action: Action)
    requires Safe(w)
    requires action.ClientPersist? || action.ClientResume? || action.ClientCrash? || action.ClientReattach?
    ensures Safe(Step(w, action))
  {
    var after := Step(w, action);
    assert after.client.view == w.client.view && after.stream == w.stream && after.live == w.live;
    SameViewSameSettled(w, after);
  }

  lemma StepIsSafe(w: World, action: Action)
    requires Safe(w)
    ensures Safe(Step(w, action))
  {
    match action {
      case Publish(event) => PublishIsSafe(w, event);
      case ChangeQuietly(resource, state) => QuietChangeIsSafe(w, resource, state);
      case Restart(_, _) => StreamStepIsSafe(w, action);
      case Register(_, _) => StreamStepIsSafe(w, action);
      case Unregister(_) => StreamStepIsSafe(w, action);
      case ClientOpen(_) => OpenAndCloseAreSafe(w, action);
      case ClientClose => OpenAndCloseAreSafe(w, action);
      case ClientPoll(limit) => PollIsSafe(w, limit);
      case ClientApply => ApplyIsSafe(w);
      case ClientRefresh(resource) => RefreshIsSafe(w, resource);
      case _ => BookkeepingIsSafe(w, action);
    }
  }

  // ----- Runs -----

  function Run(w: World, actions: seq<Action>): World
    requires Safe(w)
    decreases |actions|
  {
    if actions == [] then w
    else
      StepIsSafe(w, actions[0]);
      Run(Step(w, actions[0]), actions[1..])
  }

  lemma {:induction false} RunIsSafe(w: World, actions: seq<Action>)
    requires Safe(w)
    ensures Safe(Run(w, actions))
    decreases |actions|
  {
    if actions != [] {
      StepIsSafe(w, actions[0]);
      RunIsSafe(Step(w, actions[0]), actions[1..]);
    }
  }

  /** The client follows the live stream and has handled everything published so far. */
  predicate Drained(w: World) {
    && w.client.phase.Following? && w.client.saved.Some?
    && w.client.saved.value.streamId == w.stream.streamId
    && w.client.saved.value.cursor == |w.stream.history|
  }

  /**
   * Whatever was published, evicted, restarted, closed, retried, or crashed on the way, a drained
   * client holds the server's current state of every resource that events replace.
   */
  lemma DrainedClientHasConverged(w: World, actions: seq<Action>)
    requires Initial(w)
    ensures Safe(w)
    ensures Drained(Run(w, actions)) ==> forall r :: r in Tracked() ==> Holds(Run(w, actions), r)
    ensures LiveIsLatest(Run(w, actions))
  {
    RunIsSafe(w, actions);
    var final := Run(w, actions);
    if Drained(final) {
      assert Settled(final, |final.stream.history|, {});
    }
  }

  /** The stream cannot carry changes to the other manifest resources, so a drained client can be stale. */
  lemma QuietChangesAreMissed(w: World, resource: string, state: Snapshot)
    requires Safe(w) && Drained(w) && resource in EVENTLESS
    requires resource in w.client.view ==> w.client.view[resource] != state
    ensures Drained(Step(w, ChangeQuietly(resource, state)))
    ensures !Holds(Step(w, ChangeQuietly(resource, state)), resource)
  {
  }

  // ----- Recovery is always possible -----

  predicate ClientOnly(actions: seq<Action>) {
    forall i :: 0 <= i < |actions| ==>
      actions[i].ClientOpen? || actions[i].ClientClose? || actions[i].ClientRefresh? || actions[i].ClientResume?
  }

  lemma {:induction false} RunConcat(w: World, a: seq<Action>, b: seq<Action>)
    requires Safe(w)
    ensures Safe(Run(w, a)) && Run(w, a + b) == Run(Run(w, a), b)
    decreases |a|
  {
    RunIsSafe(w, a);
    if a == [] {
      assert a + b == b;
    } else {
      assert (a + b)[1..] == a[1..] + b;
      StepIsSafe(w, a[0]);
      RunConcat(Step(w, a[0]), a[1..], b);
    }
  }

  lemma {:induction false} RefreshEverything(w: World) returns (actions: seq<Action>)
    requires Safe(w) && w.client.phase.Refreshing? && w.client.phase.stale <= w.live.Keys
    ensures ClientOnly(actions)
    ensures var after := Run(w, actions);
            after == w.(client := after.client) && after.client.phase == w.client.phase.(stale := {})
    decreases |w.client.phase.stale|
  {
    if w.client.phase.stale == {} {
      return [];
    }
    var resource :| resource in w.client.phase.stale;
    var next := Step(w, ClientRefresh(resource));
    StepIsSafe(w, ClientRefresh(resource));
    var rest := RefreshEverything(next);
    actions := [ClientRefresh(resource)] + rest;
    assert actions[1..] == rest;
  }

  lemma TwoSteps(w: World, a: Action, b: Action)
    requires Safe(w)
    ensures Safe(Step(w, a)) && Safe(Run(w, [a, b])) && Run(w, [a, b]) == Step(Step(w, a), b)
  {
    StepIsSafe(w, a);
    StepIsSafe(Step(w, a), b);
    assert [a, b][1..] == [b];
    assert Run(Step(w, a), [b]) == Step(Step(w, a), b);
  }

  lemma ReopenStartsOver(w: World)
    requires Safe(w)
    requires w.me in w.stream.subscriptions || |w.stream.subscriptions| < w.stream.config.maxSubscriptions
    ensures var after := Run(w, [ClientClose, ClientOpen(Latest)]);
            && Safe(after) && after.stream.history == w.stream.history && after.live == w.live
            && after.stream.streamId == w.stream.streamId
            && after.client.phase == Refreshing(w.stream.streamId, |w.stream.history|, Names(Manifest()))
  {
    TwoSteps(w, ClientClose, ClientOpen(Latest));
  }

  lemma ResumeDrains(w: World)
    requires Safe(w) && w.client.phase == Refreshing(w.stream.streamId, |w.stream.history|, {})
    ensures var after := Run(w, [ClientResume]);
            after == w.(client := after.client) && Drained(after) && forall r :: r in Tracked() ==> Holds(after, r)
  {
    StepIsSafe(w, ClientResume);
    var after := Step(w, ClientResume);
    assert Run(w, [ClientResume]) == after;
    assert Settled(after, |after.stream.history|, {});
  }

  /** From any reachable world with room in the registry, the client's own steps lead to convergence. */
  lemma ClientCanAlwaysConverge(w: World) returns (actions: seq<Action>)
    requires Safe(w)
    requires w.me in w.stream.subscriptions || |w.stream.subscriptions| < w.stream.config.maxSubscriptions
    ensures ClientOnly(actions)
    ensures Run(w, actions).stream.history == w.stream.history && Run(w, actions).live == w.live
    ensures Drained(Run(w, actions))
    ensures forall r :: r in Tracked() ==> Holds(Run(w, actions), r)
  {
    var reopen := [ClientClose, ClientOpen(Latest)];
    ReopenStartsOver(w);
    var reopened := Run(w, reopen);
    var refreshes := RefreshEverything(reopened);
    RunIsSafe(reopened, refreshes);
    ResumeDrains(Run(reopened, refreshes));
    RunConcat(reopened, refreshes, [ClientResume]);
    RunConcat(w, reopen, refreshes + [ClientResume]);
    actions := reopen + (refreshes + [ClientResume]);
  }

  // ----- Catching up without a refresh -----

  /** Ordinary following: no opening, no refreshing. */
  predicate FollowingOnly(actions: seq<Action>) {
    forall i :: 0 <= i < |actions| ==>
      actions[i].ClientPoll? || actions[i].ClientApply? || actions[i].ClientPersist?
  }

  function PollCount(actions: seq<Action>): nat {
    if actions == [] then 0
    else PollCount(actions[..|actions| - 1]) + (if actions[|actions| - 1].ClientPoll? then 1 else 0)
  }

  lemma {:induction false} PollCountConcat(a: seq<Action>, b: seq<Action>)
    ensures PollCount(a + b) == PollCount(a) + PollCount(b)
  {
    if b == [] {
      assert a + b == a;
    } else {
      assert (a + b)[..|a + b| - 1] == a + b[..|b| - 1];
      PollCountConcat(a, b[..|b| - 1]);
    }
  }

  /** The client is registered, holds a saved position on this stream, and needs no evicted record. */
  ghost predicate WithinRetention(w: World) {
    && w.client.saved.Some? && w.client.saved.value.streamId == w.stream.streamId
    && w.me in w.stream.subscriptions
    && Evicted(w.stream) <= w.client.saved.value.cursor <= |w.stream.history|
  }

  /** Only the client moved: it follows the live stream from a saved cursor. */
  ghost predicate Reached(w: World, after: World, cursor: nat) {
    && after == w.(client := after.client) && after.client.phase.Following?
    && after.client.saved.Some? && after.client.saved.value.streamId == w.stream.streamId
    && after.client.saved.value.cursor == cursor
  }

  lemma OneStep(w: World, action: Action)
    requires Safe(w)
    ensures Safe(Step(w, action)) && Run(w, [action]) == Step(w, action)
  {
    StepIsSafe(w, action);
    assert [action][1..] == [];
    assert Run(Step(w, action), []) == Step(w, action);
  }

  /** Applying a whole batch and saving its end. */
  lemma {:induction false} FinishBatch(w: World) returns (actions: seq<Action>)
    requires Safe(w) && w.client.phase.Handling?
    requires w.client.saved.Some? && w.client.saved.value.streamId == w.stream.streamId
    ensures FollowingOnly(actions) && PollCount(actions) == 0
    ensures Reached(w, Run(w, actions), w.client.phase.through)
    decreases |w.client.phase.inbox|
  {
    if w.client.phase.inbox == [] {
      actions := [ClientPersist];
      OneStep(w, ClientPersist);
      assert [ClientPersist][..0] == [];
    } else {
      OneStep(w, ClientApply);
      var rest := FinishBatch(Step(w, ClientApply));
      actions := [ClientApply] + rest;
      RunConcat(w, [ClientApply], rest);
      PollCountConcat([ClientApply], rest);
      assert [ClientApply][..0] == [];
    }
  }

  /** One poll hands out the next batch, which is applied and saved. */
  lemma FollowOnce(w: World, limit: u32) returns (actions: seq<Action>)
    requires Safe(w) && w.client.phase.Following? && WithinRetention(w) && ValidBound(limit)
    ensures FollowingOnly(actions) && PollCount(actions) == 1
    ensures var next := Min(|w.stream.history|, w.client.saved.value.cursor + Min(limit, w.stream.config.maxBatchSize));
            Safe(Run(w, actions)) && Reached(w, Run(w, actions), next)
  {
    OneStep(w, ClientPoll(limit));
    var polled := Step(w, ClientPoll(limit));
    var rest := FinishBatch(polled);
    actions := [ClientPoll(limit)] + rest;
    RunConcat(w, [ClientPoll(limit)], rest);
    RunIsSafe(w, actions);
    PollCountConcat([ClientPoll(limit)], rest);
    assert [ClientPoll(limit)][..0] == [];
  }

  lemma {:induction false} FollowToTheEnd(w: World, limit: u32) returns (actions: seq<Action>)
    requires Safe(w) && w.client.phase.Following? && WithinRetention(w) && ValidBound(limit)
    ensures FollowingOnly(actions)
    ensures PollCount(actions) ==
            Rounds(|w.stream.history| - w.client.saved.value.cursor, Min(limit, w.stream.config.maxBatchSize))
    ensures Reached(w, Run(w, actions), |w.stream.history|)
    decreases |w.stream.history| - w.client.saved.value.cursor
  {
    var lag, batch := |w.stream.history| - w.client.saved.value.cursor, Min(limit, w.stream.config.maxBatchSize);
    if lag == 0 {
      return [];
    }
    var first := FollowOnce(w, limit);
    var rest := FollowToTheEnd(Run(w, first), limit);
    actions := first + rest;
    RunConcat(w, first, rest);
    PollCountConcat(first, rest);
  }

  /**
   * A registered client within retention converges by polling, applying, and saving alone, in exactly
   * ceil(lag / batch) polls.
   */
  lemma FollowerCatchesUp(w: World, limit: u32) returns (actions: seq<Action>)
    requires Safe(w) && w.client.phase.Following? && WithinRetention(w) && ValidBound(limit)
    ensures FollowingOnly(actions)
    ensures PollCount(actions) ==
            CeilDiv(|w.stream.history| - w.client.saved.value.cursor, Min(limit, w.stream.config.maxBatchSize))
    ensures var after := Run(w, actions);
            after == w.(client := after.client) && Drained(after) && forall r :: r in Tracked() ==> Holds(after, r)
  {
    actions := FollowToTheEnd(w, limit);
    RoundsRoundUp(|w.stream.history| - w.client.saved.value.cursor, Min(limit, w.stream.config.maxBatchSize));
    RunIsSafe(w, actions);
    assert Settled(Run(w, actions), |w.stream.history|, {});
  }
}
