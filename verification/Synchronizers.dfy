/** Owners of replacement snapshots: they emit one full event exactly when visible state changes. */
module Synchronizers {
  import opened Core
  import opened Settings
  import opened PublicEvents

  // ----- Media capabilities -----

  /** What the engine reports, already projected to its public form. */
  datatype MediaState = MediaState(backends: string, operations: string)

  datatype MediaSnapshot = MediaSnapshot(schemaVersion: SemanticVersion, revision: u64, state: MediaState)

  function PublicMedia(engine: MediaState, revision: u64): MediaSnapshot {
    MediaSnapshot(MEDIA_CAPABILITIES_VERSION, revision, engine)
  }

  predicate SameMedia(a: MediaSnapshot, b: MediaSnapshot) {
    a.schemaVersion == b.schemaVersion && a.state == b.state
  }

  function MediaSync(held: MediaSnapshot, engine: MediaState): (MediaSnapshot, Result<Option<MediaSnapshot>>) {
    if SameMedia(held, PublicMedia(engine, held.revision)) then (held, Ok(None))
    else if held.revision == U64_MAX then (held, Err(Internal))
    else
      var next := PublicMedia(engine, held.revision + 1);
      (next, Ok(Some(next)))
  }

  class MediaCapabilitiesApi {
    var snapshot: MediaSnapshot

    constructor (engine: MediaState)
      ensures snapshot == PublicMedia(engine, 0)
    {
      snapshot := PublicMedia(engine, 0);
    }

    method Synchronize(engine: MediaState) returns (r: Result<Option<MediaSnapshot>>)
      modifies this
      ensures (snapshot, r) == MediaSync(old(snapshot), engine)
    {
      var next := PublicMedia(engine, snapshot.revision);
      if SameMedia(snapshot, next) {
        return Ok(None);
      }
      var revision := CheckedAdd(snapshot.revision, 1);
      if revision.None? {
        return Err(Internal);
      }
      next := next.(revision := revision.value);
      snapshot := next;
      return Ok(Some(next));
    }
  }

  function MediaHeld(held: MediaSnapshot, engines: seq<MediaState>): MediaSnapshot
    decreases |engines|
  {
    if engines == [] then held else MediaHeld(MediaSync(held, engines[0]).0, engines[1..])
  }

  function MediaEmitted(held: MediaSnapshot, engines: seq<MediaState>): seq<MediaSnapshot>
    decreases |engines|
  {
    if engines == [] then []
    else
      var (next, r) := MediaSync(held, engines[0]);
      (if r.Ok? && r.value.Some? then [r.value.value] else []) + MediaEmitted(next, engines[1..])
  }

  /** How many observations differ from the one before them. */
  function Changes(state: MediaState, engines: seq<MediaState>): nat
    decreases |engines|
  {
    if engines == [] then 0
    else (if engines[0] == state then 0 else 1) + Changes(engines[0], engines[1..])
  }

  /**
   * Over any run: one event per visible change for as long as revisions last, numbered consecutively,
   * and the held snapshot is the last event. Refused changes leave no trace, and while none is refused
   * the held state is the last observation.
   */
  lemma {:induction false} MediaEventsFollowState(held: MediaSnapshot, engines: seq<MediaState>)
    requires held.schemaVersion == MEDIA_CAPABILITIES_VERSION
    ensures var final, events, changes := MediaHeld(held, engines), MediaEmitted(held, engines), Changes(held.state, engines);
            && |events| == Min(changes, U64_MAX - held.revision)
            && final.revision == held.revision + |events|
            && (forall i :: 0 <= i < |events| ==> events[i].revision == held.revision + 1 + i)
            && final == (if events == [] then held else events[|events| - 1])
            && (engines != [] && held.revision + changes <= U64_MAX ==> final.state == engines[|engines| - 1])
    decreases |engines|
  {
    if engines != [] {
      var (next, r) := MediaSync(held, engines[0]);
      if r.Err? {
        ExhaustedMediaIsFrozen(held, engines[1..]);
      } else {
        MediaEventsFollowState(next, engines[1..]);
      }
    }
  }

  /** At the end of the revision space, changes are refused and nothing moves. */
  lemma {:induction false} ExhaustedMediaIsFrozen(held: MediaSnapshot, engines: seq<MediaState>)
    requires held.revision == U64_MAX
    ensures MediaHeld(held, engines) == held && MediaEmitted(held, engines) == []
    decreases |engines|
  {
    if engines != [] {
      ExhaustedMediaIsFrozen(held, engines[1..]);
    }
  }

  // ----- Engine introspection -----

  datatype EngineState = EngineState(media: MediaState, rest: string)

  datatype EngineSnapshot = EngineSnapshot(schemaVersion: SemanticVersion, revision: u64, media: MediaSnapshot, rest: string)

  function PublicEngine(engine: EngineState, revision: u64, mediaRevision: u64): EngineSnapshot {
    EngineSnapshot(V1, revision, PublicMedia(engine.media, mediaRevision), engine.rest)
  }

  predicate SameEngine(a: EngineSnapshot, b: EngineSnapshot) {
    a.schemaVersion == b.schemaVersion && a.media == b.media && a.rest == b.rest
  }

  function EngineSync(held: EngineSnapshot, engine: EngineState): (EngineSnapshot, Result<Option<EngineSnapshot>>) {
    var mediaChanged := !SameMedia(held.media, PublicMedia(engine.media, held.media.revision));
    if mediaChanged && held.media.revision == U64_MAX then (held, Err(Internal))
    else
      var mediaRevision := if mediaChanged then held.media.revision + 1 else held.media.revision;
      if SameEngine(held, PublicEngine(engine, held.revision, mediaRevision)) then (held, Ok(None))
      else if held.revision == U64_MAX then (held, Err(Internal))
      else
        var next := PublicEngine(engine, held.revision + 1, mediaRevision);
        (next, Ok(Some(next)))
  }

  class EngineIntrospectionApi {
    var snapshot: EngineSnapshot

    constructor (engine: EngineState)
      ensures snapshot == PublicEngine(engine, 0, 0)
    {
      snapshot := PublicEngine(engine, 0, 0);
    }

    method Synchronize(engine: EngineState) returns (r: Result<Option<EngineSnapshot>>)
      modifies this
      ensures (snapshot, r) == EngineSync(old(snapshot), engine)
    {
      var next := PublicEngine(engine, snapshot.revision, snapshot.media.revision);
      if !SameMedia(snapshot.media, next.media) {
        var mediaRevision := CheckedAdd(snapshot.media.revision, 1);
        if mediaRevision.None? {
          return Err(Internal);
        }
        next := next.(media := next.media.(revision := mediaRevision.value));
      }
      if SameEngine(snapshot, next) {
        return Ok(None);
      }
      var revision := CheckedAdd(snapshot.revision, 1);
      if revision.None? {
        return Err(Internal);
      }
      next := next.(revision := revision.value);
      snapshot := next;
      return Ok(Some(next));
    }
  }

  ghost predicate EngineInvariant(held: EngineSnapshot) {
    && held.schemaVersion == V1 && held.media.schemaVersion == MEDIA_CAPABILITIES_VERSION
    && held.media.revision <= held.revision
  }

  /** The public state that an engine snapshot shows, without revisions. */
  function Visible(s: EngineSnapshot): EngineState {
    EngineState(s.media.state, s.rest)
  }

  function EngineHeld(held: EngineSnapshot, engines: seq<EngineState>): EngineSnapshot
    decreases |engines|
  {
    if engines == [] then held else EngineHeld(EngineSync(held, engines[0]).0, engines[1..])
  }

  function EngineEmitted(held: EngineSnapshot, engines: seq<EngineState>): seq<EngineSnapshot>
    decreases |engines|
  {
    if engines == [] then []
    else
      var (next, r) := EngineSync(held, engines[0]);
      (if r.Ok? && r.value.Some? then [r.value.value] else []) + EngineEmitted(next, engines[1..])
  }

  function EngineChanges(state: EngineState, engines: seq<EngineState>): nat
    decreases |engines|
  {
    if engines == [] then 0
    else (if engines[0] == state then 0 else 1) + EngineChanges(engines[0], engines[1..])
  }

  /** One step: an event exactly on a visible change; the nested revision moves exactly with media. */
  lemma EngineStepFollowsState(held: EngineSnapshot, engine: EngineState)
    requires EngineInvariant(held)
    ensures var (next, r) := EngineSync(held, engine);
            && EngineInvariant(next)
            && (r.Err? ==> next == held)
            && (r.Err? <==> engine != Visible(held) && held.revision == U64_MAX)
            && (r.Ok? ==> Visible(next) == engine
                          && (r.value.Some? <==> engine != Visible(held))
                          && (r.value.Some? ==> r.value.value == next)
                          && next.revision == held.revision + (if r.value.Some? then 1 else 0)
                          && next.media.revision
                             == held.media.revision + (if engine.media != held.media.state then 1 else 0))
  {
  }

  /** At the end of the revision space, changes are refused and nothing moves. */
  lemma {:induction false} ExhaustedEngineIsFrozen(held: EngineSnapshot, engines: seq<EngineState>)
    requires EngineInvariant(held) && held.revision == U64_MAX
    ensures EngineHeld(held, engines) == held && EngineEmitted(held, engines) == []
    decreases |engines|
  {
    if engines != [] {
      EngineStepFollowsState(held, engines[0]);
      ExhaustedEngineIsFrozen(held, engines[1..]);
    }
  }

  /** Consecutive outer revisions, with the nested media revision never above the enclosing one. */
  predicate NestedFrom(events: seq<EngineSnapshot>, first: int) {
    forall i :: 0 <= i < |events| ==> events[i].revision == first + i && events[i].media.revision <= events[i].revision
  }

  /** What a run over `engines` leaves held and emitted. */
  ghost predicate FollowsEngine(
    held: EngineSnapshot, engines: seq<EngineState>, final: EngineSnapshot, events: seq<EngineSnapshot>)
  {
    var changes := EngineChanges(Visible(held), engines);
    && EngineInvariant(final)
    && |events| == Min(changes, U64_MAX - held.revision)
    && final.revision == held.revision + |events|
    && NestedFrom(events, held.revision + 1)
    && final == (if events == [] then held else events[|events| - 1])
    && (engines != [] && held.revision + changes <= U64_MAX ==> Visible(final) == engines[|engines| - 1])
  }

  lemma OneMoreObservation(
    held: EngineSnapshot, engines: seq<EngineState>, final: EngineSnapshot, events: seq<EngineSnapshot>)
    requires EngineInvariant(held) && engines != []
    requires var (next, r) := EngineSync(held, engines[0]); r.Ok? && FollowsEngine(next, engines[1..], final, events)
    ensures var (next, r) := EngineSync(held, engines[0]);
            FollowsEngine(held, engines, final, if r.value.Some? then [next] + events else events)
  {
    EngineStepFollowsState(held, engines[0]);
  }

  /** The same over whole runs; the nested media revision never overtakes the enclosing one. */
  lemma {:induction false} EngineEventsFollowState(held: EngineSnapshot, engines: seq<EngineState>)
    requires EngineInvariant(held)
    ensures FollowsEngine(held, engines, EngineHeld(held, engines), EngineEmitted(held, engines))
    decreases |engines|
  {
    if engines != [] {
      var (next, r) := EngineSync(held, engines[0]);
      EngineStepFollowsState(held, engines[0]);
      if r.Err? {
        ExhaustedEngineIsFrozen(held, engines[1..]);
      } else {
        EngineEventsFollowState(next, engines[1..]);
        OneMoreObservation(held, engines, EngineHeld(next, engines[1..]), EngineEmitted(next, engines[1..]));
      }
    }
  }

  // ----- Extension registry: the engine supplies the revision -----

  datatype RegistrySnapshot = RegistrySnapshot(schemaVersion: SemanticVersion, revision: u64, registrations: string)

  predicate SameRegistry(a: RegistrySnapshot, b: RegistrySnapshot) {
    a.schemaVersion == b.schemaVersion && a.registrations == b.registrations
  }

  function RegistrySync(held: RegistrySnapshot, next: RegistrySnapshot): (RegistrySnapshot, Result<Option<RegistrySnapshot>>) {
    if SameRegistry(held, next) then (held, Ok(None))
    else if next.revision <= held.revision then (held, Err(CorruptData))
    else (next, Ok(Some(next)))
  }

  class ExtensionRegistryApi {
    var snapshot: RegistrySnapshot

    constructor (engine: RegistrySnapshot)
      ensures snapshot == engine
    {
      snapshot := engine;
    }

    method Synchronize(engine: RegistrySnapshot) returns (r: Result<Option<RegistrySnapshot>>)
      modifies this
      ensures (snapshot, r) == RegistrySync(old(snapshot), engine)
    {
      if SameRegistry(snapshot, engine) {
        return Ok(None);
      }
      if engine.revision <= snapshot.revision {
        return Err(CorruptData);
      }
      snapshot := engine;
      return Ok(Some(engine));
    }
  }

  /** What clients see of a registry; its revision only orders it. */
  predicate Differs(a: RegistrySnapshot, b: RegistrySnapshot) {
    a.schemaVersion != b.schemaVersion || a.registrations != b.registrations
  }

  /**
   * One step: a changed state under a later revision is taken over and emitted whole, a changed state
   * without one is refused as corrupt, and an unchanged state does nothing, whatever its revision.
   */
  lemma RegistryStepFollowsState(held: RegistrySnapshot, engine: RegistrySnapshot)
    ensures var (next, r) := RegistrySync(held, engine);
            match r
            case Err(e) => e == CorruptData && Differs(held, engine) && engine.revision <= held.revision && next == held
            case Ok(None) => !Differs(held, engine) && next == held
            case Ok(Some(emitted)) =>
              Differs(held, engine) && engine.revision > held.revision && next == engine && emitted == engine
  {
  }

  function RegistryEmitted(held: RegistrySnapshot, engines: seq<RegistrySnapshot>): seq<RegistrySnapshot>
    decreases |engines|
  {
    if engines == [] then []
    else
      var (next, r) := RegistrySync(held, engines[0]);
      (if r.Ok? && r.value.Some? then [next] else []) + RegistryEmitted(next, engines[1..])
  }

  function RegistryHeld(held: RegistrySnapshot, engines: seq<RegistrySnapshot>): RegistrySnapshot
    decreases |engines|
  {
    if engines == [] then held else RegistryHeld(RegistrySync(held, engines[0]).0, engines[1..])
  }

  /** The engine raises its revision whenever the state it shows changes. */
  predicate RaisesRevisions(held: RegistrySnapshot, engines: seq<RegistrySnapshot>)
    decreases |engines|
  {
    engines == [] ||
    if Differs(held, engines[0]) then held.revision < engines[0].revision && RaisesRevisions(engines[0], engines[1..])
    else RaisesRevisions(held, engines[1..])
  }

  function RegistryChanges(held: RegistrySnapshot, engines: seq<RegistrySnapshot>): nat
    decreases |engines|
  {
    if engines == [] then 0
    else (if Differs(held, engines[0]) then 1 else 0) + RegistryChanges(engines[0], engines[1..])
  }

  lemma {:induction false} ChangesIgnoreRevision(a: RegistrySnapshot, b: RegistrySnapshot, engines: seq<RegistrySnapshot>)
    requires !Differs(a, b)
    ensures RegistryChanges(a, engines) == RegistryChanges(b, engines)
  {
  }

  /** With such an engine every change is emitted, and the held state is always the last one observed. */
  lemma {:induction false} RegistryFollowsEngine(held: RegistrySnapshot, engines: seq<RegistrySnapshot>)
    requires RaisesRevisions(held, engines)
    ensures |RegistryEmitted(held, engines)| == RegistryChanges(held, engines)
    ensures engines != [] ==> !Differs(RegistryHeld(held, engines), engines[|engines| - 1])
    decreases |engines|
  {
    if engines != [] {
      RegistryStepFollowsState(held, engines[0]);
      if Differs(held, engines[0]) {
        RegistryFollowsEngine(engines[0], engines[1..]);
      } else {
        RegistryFollowsEngine(held, engines[1..]);
        ChangesIgnoreRevision(held, engines[0], engines[1..]);
      }
    }
  }

  predicate IncreasingAfter(revision: u64, events: seq<RegistrySnapshot>) {
    && (forall i :: 0 <= i < |events| ==> revision < events[i].revision)
    && (forall i, j :: 0 <= i < j < |events| ==> events[i].revision < events[j].revision)
  }

  /**
   * Emitted registry revisions strictly increase, whatever order the engine's snapshots arrive in, and
   * the held snapshot is always the last one emitted.
   */
  lemma {:induction false} RegistryRevisionsIncrease(held: RegistrySnapshot, engines: seq<RegistrySnapshot>)
    ensures IncreasingAfter(held.revision, RegistryEmitted(held, engines))
    ensures var events := RegistryEmitted(held, engines);
            RegistryHeld(held, engines) == if events == [] then held else events[|events| - 1]
    decreases |engines|
  {
    if engines != [] {
      var next := RegistrySync(held, engines[0]).0;
      RegistryRevisionsIncrease(next, engines[1..]);
      var rest := RegistryEmitted(next, engines[1..]);
      assert RegistryEmitted(held, engines) == if next == held then rest else [next] + rest;
    }
  }
}
