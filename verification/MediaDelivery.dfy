/** Media capability events from their owner, through the broker, to any number of subscribers. */
module MediaDelivery {
  import opened Core
  import opened PublicEvents
  import opened StreamModel
  import opened Synchronizers
  import Delivery

  /** The broker with its subscribers, and the media snapshot that its owner holds. */
  datatype System = System(world: Delivery.World, media: MediaSnapshot)

  /** The media owner observes the engine, or anything else happens around the broker. */
  datatype Action =
    | SyncMedia(engine: MediaState)
    | Other(action: Delivery.Action)

  function EventFor(s: MediaSnapshot): PublicApiEvent {
    MediaCapabilitiesChanged(Snapshot(s.schemaVersion, s.revision, 0, s.state.backends + s.state.operations))
  }

  /** Only the media owner produces media events. */
  predicate Allowed(action: Action) {
    action.Other? && action.action.Publish? ==> !action.action.event.MediaCapabilitiesChanged?
  }

  function Step(s: System, action: Action): System
    requires Delivery.Consistent(s.world)
  {
    match action
    case SyncMedia(engine) =>
      var (next, r) := MediaSync(s.media, engine);
      if r.Ok? && r.value.Some? then System(Delivery.Step(s.world, Delivery.Publish(EventFor(r.value.value))), next)
      else s.(media := next)
    case Other(a) => s.(world := Delivery.Step(s.world, a))
  }

  function MediaRevisions(records: seq<PublicEventRecord>): seq<u64> {
    if records == [] then []
    else MediaRevisions(records[..|records| - 1]) + RevisionIn(records[|records| - 1].event)
  }

  function RevisionIn(event: PublicApiEvent): seq<u64> {
    if event.MediaCapabilitiesChanged? then [event.snapshot.revision] else []
  }

  predicate ConsecutiveFrom(revisions: seq<u64>, first: int) {
    forall i :: 0 <= i < |revisions| ==> revisions[i] == first + i
  }

  /** Published media revisions continue from the base without holes, up to the held one or a full stream. */
  ghost predicate Continues(history: seq<PublicEventRecord>, media: MediaSnapshot, base: u64) {
    && media.schemaVersion == MEDIA_CAPABILITIES_VERSION
    && ConsecutiveFrom(MediaRevisions(history), base + 1)
    && (|history| == U64_MAX || base + |MediaRevisions(history)| == media.revision)
  }

  ghost predicate Invariant(s: System, base: u64) {
    Delivery.Consistent(s.world) && Continues(s.world.stream.history, s.media, base)
  }

  /** Publishing adds exactly the event's own revision, and only while sequences last. */
  lemma PublishAddsRevision(s: StreamState, event: PublicApiEvent)
    requires WellFormed(s)
    ensures var next := Published(s, event).0;
            MediaRevisions(next.history) ==
              MediaRevisions(s.history) + (if Published(s, event).1.Ok? then RevisionIn(event) else [])
  {
    var longer := Published(s, event).0.history;
    if longer != s.history {
      assert longer[..|longer| - 1] == s.history;
    } else {
      assert MediaRevisions(s.history) + [] == MediaRevisions(s.history);
    }
  }

  lemma SyncContinues(s: StreamState, media: MediaSnapshot, engine: MediaState, base: u64)
    requires WellFormed(s) && Continues(s.history, media, base)
    requires MediaSync(media, engine).0 != media
    ensures var next := MediaSync(media, engine).0; Continues(Published(s, EventFor(next)).0.history, next, base)
  {
    PublishAddsRevision(s, EventFor(MediaSync(media, engine).0));
  }

  lemma OnlyPublishAppends(w: Delivery.World, action: Delivery.Action)
    requires Delivery.Consistent(w) && !action.Publish?
    ensures Delivery.Step(w, action).stream.history == w.stream.history
  {
  }

  lemma OthersContinue(w: Delivery.World, media: MediaSnapshot, action: Delivery.Action, base: u64)
    requires Delivery.Consistent(w) && Continues(w.stream.history, media, base) && Allowed(Other(action))
    ensures Continues(Delivery.Step(w, action).stream.history, media, base)
  {
    if action.Publish? {
      PublishAddsRevision(w.stream, action.event);
      assert RevisionIn(action.event) == [];
    } else {
      OnlyPublishAppends(w, action);
    }
  }

  lemma StepKeepsInvariant(s: System, action: Action, base: u64)
    requires Invariant(s, base) && Allowed(action)
    ensures Invariant(Step(s, action), base)
  {
    match action {
      case SyncMedia(engine) =>
        var next := MediaSync(s.media, engine).0;
        if next != s.media {
          Delivery.StepKeepsConsistent(s.world, Delivery.Publish(EventFor(next)));
          SyncContinues(s.world.stream, s.media, engine, base);
        }
      case Other(a) =>
        Delivery.StepKeepsConsistent(s.world, a);
        OthersContinue(s.world, s.media, a, base);
    }
  }

  function Run(s: System, actions: seq<Action>, base: u64): System
    requires Invariant(s, base)
    requires forall i :: 0 <= i < |actions| ==> Allowed(actions[i])
    decreases |actions|
  {
    if actions == [] then s
    else
      StepKeepsInvariant(s, actions[0], base);
      Run(Step(s, actions[0]), actions[1..], base)
  }

  lemma {:induction false} RunKeepsInvariant(s: System, actions: seq<Action>, base: u64)
    requires Invariant(s, base)
    requires forall i :: 0 <= i < |actions| ==> Allowed(actions[i])
    ensures Invariant(Run(s, actions, base), base)
    decreases |actions|
  {
    if actions != [] {
      StepKeepsInvariant(s, actions[0], base);
      RunKeepsInvariant(Step(s, actions[0]), actions[1..], base);
    }
  }

  // ----- Slices of a consecutive history -----

  lemma {:induction false} MediaRevisionsConcat(a: seq<PublicEventRecord>, b: seq<PublicEventRecord>)
    ensures MediaRevisions(a + b) == MediaRevisions(a) + MediaRevisions(b)
  {
    if b == [] {
      assert a + b == a;
    } else {
      assert (a + b)[..|a + b| - 1] == a + b[..|b| - 1];
      MediaRevisionsConcat(a, b[..|b| - 1]);
    }
  }

  lemma MiddleIsConsecutive(a: seq<u64>, b: seq<u64>, c: seq<u64>, first: int)
    requires ConsecutiveFrom(a + b + c, first)
    ensures ConsecutiveFrom(b, first + |a|)
  {
    assert forall i :: 0 <= i < |b| ==> (a + b + c)[|a| + i] == b[i];
  }

  lemma RevisionsInThree(a: seq<PublicEventRecord>, b: seq<PublicEventRecord>, c: seq<PublicEventRecord>)
    ensures MediaRevisions(a + b + c) == MediaRevisions(a) + MediaRevisions(b) + MediaRevisions(c)
  {
    MediaRevisionsConcat(a + b, c);
    MediaRevisionsConcat(a, b);
  }

  lemma SliceIsConsecutive(history: seq<PublicEventRecord>, first: int, from: nat, to: nat)
    requires ConsecutiveFrom(MediaRevisions(history), first) && from <= to <= |history|
    ensures ConsecutiveFrom(MediaRevisions(history[from..to]), first + |MediaRevisions(history[..from])|)
  {
    var before, slice, rest := history[..from], history[from..to], history[to..];
    assert history[..to] == before + slice && history == before + slice + rest;
    RevisionsInThree(before, slice, rest);
    MiddleIsConsecutive(MediaRevisions(before), MediaRevisions(slice), MediaRevisions(rest), first);
  }

  // ----- What subscribers receive -----

  /** The segment's media revisions go on from those published before it began. */
  predicate CarriesOn(history: seq<PublicEventRecord>, segment: Delivery.Segment, base: u64) {
    && segment.start <= |history|
    && ConsecutiveFrom(MediaRevisions(segment.records), base + 1 + |MediaRevisions(history[..segment.start])|)
  }

  lemma ExactSegmentCarriesOn(history: seq<PublicEventRecord>, segment: Delivery.Segment, base: u64)
    requires ConsecutiveFrom(MediaRevisions(history), base + 1) && Delivery.ExactSegment(history, segment)
    ensures CarriesOn(history, segment, base)
  {
    SliceIsConsecutive(history, base + 1, segment.start, segment.start + |segment.records|);
  }

  /**
   * In every interleaving of media observations, other publishes, openings, closings, and polls, what any
   * subscriber receives between two gaps carries consecutive media revisions, going on from those
   * published before.
   */
  lemma SegmentsCarryConsecutiveRevisions(s: System, actions: seq<Action>, base: u64, id: Identifier, k: nat)
    requires Invariant(s, base)
    requires forall i :: 0 <= i < |actions| ==> Allowed(actions[i])
    requires id in Run(s, actions, base).world.subscribers
    requires k < |Run(s, actions, base).world.subscribers[id].segments|
    ensures var world := Run(s, actions, base).world;
            CarriesOn(world.stream.history, world.subscribers[id].segments[k], base)
  {
    RunKeepsInvariant(s, actions, base);
    var world := Run(s, actions, base).world;
    assert Delivery.ExactSegments(world.stream.history, world.subscribers[id]);
    ExactSegmentCarriesOn(world.stream.history, world.subscribers[id].segments[k], base);
  }

  /** A new stream beside a media owner at any revision is where such runs begin. */
  lemma FreshSystemContinues(streamId: Identifier, config: Config, media: MediaSnapshot)
    requires media.schemaVersion == MEDIA_CAPABILITIES_VERSION
    ensures Invariant(System(Delivery.World(EmptyStream(streamId, config), map[]), media), media.revision)
  {
  }
}
