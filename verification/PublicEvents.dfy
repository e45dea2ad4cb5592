/** The closed vocabulary of replacement events, their records, and the recovery manifest. */
module PublicEvents {
  import opened Core
  import opened Text
  import opened Settings

  const MAX_IDENTIFIER_BYTES: nat := 128

  predicate IdentifierChar(c: char) {
    IsAsciiLower(c) || IsAsciiDigit(c) || c == '.' || c == '_' || c == '-' || c == ':'
  }

  /** Stream and subscriber identities. Every accepted character is one byte. */
  predicate IsIdentifier(value: string) {
    && 0 < |value| <= MAX_IDENTIFIER_BYTES
    && IsAsciiLower(value[0])
    && forall i :: 0 <= i < |value| ==> IdentifierChar(value[i])
  }

  type Identifier = value: string | IsIdentifier(value) witness "a"

  datatype MethodKind = Command | Query

  datatype ResyncResource = ResyncResource(
    resource: string, refreshMethod: string, methodKind: MethodKind, schemaVersion: SemanticVersion)

  datatype EventReplacementResource = EventReplacementResource(
    descriptor: ResyncResource, revision: u64, projectRevision: Option<u64>)

  datatype Correlation =
    | CommandCorrelation(sourceEventSequence: u64, commandSequence: u64, transactionId: string)
    | Observation(revision: u64)

  /**
   * One complete replacement state. `revision` is the primary revision of the owning resource,
   * `projectRevision` the second revision where the resource carries one, and `body` the rest.
   */
  datatype Snapshot = Snapshot(schemaVersion: SemanticVersion, revision: u64, projectRevision: u64, body: string)

  datatype CommandSource = CommandSource(sequence: u64, commandSequence: u64, transactionId: string)

  datatype PublicApiEvent =
    | ProjectStateChanged(source: CommandSource, projectRevision: u64, commandLogSequence: u64, snapshot: Snapshot)
    | AsyncJobsChanged(source: CommandSource, jobsRevision: u64, snapshot: Snapshot)
    | ProjectRecoveryChanged(source: CommandSource, projectRevision: u64, catalogRevision: u64, snapshot: Snapshot)
    | AudioAutomationChanged(source: CommandSource, audioAutomationRevision: u64, snapshot: Snapshot)
    | ProjectSettingsChanged(source: CommandSource, projectRevision: u64, snapshot: Snapshot)
    | MediaCapabilitiesChanged(snapshot: Snapshot)
    | EngineIntrospectionChanged(snapshot: Snapshot)
    | ExtensionsChanged(snapshot: Snapshot)
    | ScenarioStateChanged(source: CommandSource, projectRevision: u64, snapshot: Snapshot)

  const V1: SemanticVersion := Release(1, 0, 0)
  const PROJECT_EDITOR_VERSION: SemanticVersion := Release(1, 7, 0)
  const MEDIA_CAPABILITIES_VERSION: SemanticVersion := Release(2, 0, 0)

  function EventName(event: PublicApiEvent): string {
    match event
    case ProjectStateChanged(_, _, _, _) => "superi.project.state.changed"
    case AsyncJobsChanged(_, _, _) => "superi.jobs.changed"
    case ProjectRecoveryChanged(_, _, _, _) => "superi.project.recovery.changed"
    case AudioAutomationChanged(_, _, _) => "superi.audio.automation.changed"
    case ProjectSettingsChanged(_, _, _) => "superi.project.settings.changed"
    case MediaCapabilitiesChanged(_) => "superi.media.capabilities.changed"
    case EngineIntrospectionChanged(_) => "superi.engine.introspection.changed"
    case ExtensionsChanged(_) => "superi.extensions.changed"
    case ScenarioStateChanged(_, _, _) => "superi.slice.scenario.state.changed"
  }

  function EventSchemaVersion(event: PublicApiEvent): SemanticVersion {
    match event
    case ProjectStateChanged(_, _, _, _) => PROJECT_EDITOR_VERSION
    case MediaCapabilitiesChanged(_) => MEDIA_CAPABILITIES_VERSION
    case _ => V1
  }

  function EventCorrelation(event: PublicApiEvent): Correlation {
    match event
    case MediaCapabilitiesChanged(s) => Observation(s.revision)
    case EngineIntrospectionChanged(s) => Observation(s.revision)
    case ExtensionsChanged(s) => Observation(s.revision)
    case _ =>
      CommandCorrelation(event.source.sequence, event.source.commandSequence, event.source.transactionId)
  }

  function Replacement(event: PublicApiEvent): EventReplacementResource {
    match event
    case ProjectStateChanged(_, projectRevision, commandLogSequence, _) =>
      EventReplacementResource(
        ResyncResource("superi.project.history", "superi.project.command.execute", Command, PROJECT_EDITOR_VERSION),
        commandLogSequence, Some(projectRevision))
    case AsyncJobsChanged(_, revision, _) =>
      EventReplacementResource(ResyncResource("superi.jobs", "superi.jobs.get", Query, V1), revision, None)
    case ProjectRecoveryChanged(_, projectRevision, catalogRevision, _) =>
      EventReplacementResource(
        ResyncResource("superi.project.recovery", "superi.project.recovery.get", Query, V1),
        catalogRevision, Some(projectRevision))
    case AudioAutomationChanged(_, revision, _) =>
      EventReplacementResource(
        ResyncResource("superi.audio.automation", "superi.audio.automation.get", Query, V1), revision, None)
    case ProjectSettingsChanged(_, revision, _) =>
      EventReplacementResource(
        ResyncResource("superi.project.settings", "superi.project.settings.get", Query, V1), revision, None)
    case MediaCapabilitiesChanged(s) =>
      EventReplacementResource(
        ResyncResource("superi.media.capabilities", "superi.media.capabilities.get", Query, MEDIA_CAPABILITIES_VERSION),
        s.revision, None)
    case EngineIntrospectionChanged(s) =>
      EventReplacementResource(
        ResyncResource("superi.engine.introspection", "superi.engine.introspection.get", Query, V1), s.revision, None)
    case ExtensionsChanged(s) =>
      EventReplacementResource(
        ResyncResource("superi.extensions", "superi.extensions.get", Query, V1), s.revision, None)
    case ScenarioStateChanged(_, revision, _) =>
      EventReplacementResource(
        ResyncResource("superi.slice.scenario.state", "superi.slice.scenario.action.execute", Command, V1),
        revision, None)
  }

  function ResourceOf(event: PublicApiEvent): string {
    Replacement(event).descriptor.resource
  }

  predicate ValidSource(source: CommandSource) {
    && source.sequence != 0 && source.commandSequence != 0
    && !Chars(IsWhitespace, source.transactionId)
  }

  predicate ValidEvent(event: PublicApiEvent) {
    match event
    case ProjectStateChanged(source, projectRevision, commandLogSequence, s) =>
      ValidSource(source) && projectRevision == s.projectRevision && commandLogSequence == s.revision
      && s.schemaVersion == PROJECT_EDITOR_VERSION
    case AsyncJobsChanged(source, revision, s) =>
      ValidSource(source) && revision == s.revision && s.schemaVersion == V1
    case ProjectRecoveryChanged(source, projectRevision, catalogRevision, s) =>
      ValidSource(source) && projectRevision == s.projectRevision && catalogRevision == s.revision
      && s.schemaVersion == V1
    case AudioAutomationChanged(source, revision, s) =>
      ValidSource(source) && revision == s.revision && s.schemaVersion == V1
    case ProjectSettingsChanged(source, revision, s) =>
      ValidSource(source) && revision == s.revision && s.schemaVersion == V1
    case MediaCapabilitiesChanged(s) => s.schemaVersion == MEDIA_CAPABILITIES_VERSION
    case EngineIntrospectionChanged(s) => s.schemaVersion == V1
    case ExtensionsChanged(s) => s.schemaVersion == V1
    case ScenarioStateChanged(source, revision, s) =>
      ValidSource(source) && revision == s.revision && s.schemaVersion == V1
  }

  /** Every resource that a client refreshes after a gap, in canonical name order. */
  function Manifest(): seq<ResyncResource> {
    [ ResyncResource("superi.audio.automation", "superi.audio.automation.get", Query, V1),
      ResyncResource("superi.editor.state", "superi.editor.state.get", Query, V1),
      ResyncResource("superi.engine.integration.validation", "superi.engine.integration.validation.get", Query, V1),
      ResyncResource("superi.engine.introspection", "superi.engine.introspection.get", Query, V1),
      ResyncResource("superi.extensions", "superi.extensions.get", Query, V1),
      ResyncResource("superi.jobs", "superi.jobs.get", Query, V1),
      ResyncResource("superi.media.capabilities", "superi.media.capabilities.get", Query, MEDIA_CAPABILITIES_VERSION),
      ResyncResource("superi.project.command_log", "superi.project.command_log.get", Query, V1),
      ResyncResource("superi.project.history", "superi.project.command.execute", Command, PROJECT_EDITOR_VERSION),
      ResyncResource("superi.project.recovery", "superi.project.recovery.get", Query, V1),
      ResyncResource("superi.project.settings", "superi.project.settings.get", Query, V1),
      ResyncResource("superi.slice.scenario.state", "superi.slice.scenario.action.execute", Command, V1) ]
  }

  /** Manifest resources that no event variant replaces. */
  const EVENTLESS: set<string> :=
    {"superi.editor.state", "superi.engine.integration.validation", "superi.project.command_log"}

  /** The exact refresh descriptor of every event is listed, so recovery can restore its resource. */
  lemma ManifestListsEveryEvent(event: PublicApiEvent)
    ensures Replacement(event).descriptor in Manifest()
  {
    var m := Manifest();
    match event {
      case ProjectStateChanged(_, _, _, _) => assert Replacement(event).descriptor == m[8];
      case AsyncJobsChanged(_, _, _) => assert Replacement(event).descriptor == m[5];
      case ProjectRecoveryChanged(_, _, _, _) => assert Replacement(event).descriptor == m[9];
      case AudioAutomationChanged(_, _, _) => assert Replacement(event).descriptor == m[0];
      case ProjectSettingsChanged(_, _, _) => assert Replacement(event).descriptor == m[10];
      case MediaCapabilitiesChanged(_) => assert Replacement(event).descriptor == m[6];
      case EngineIntrospectionChanged(_) => assert Replacement(event).descriptor == m[3];
      case ExtensionsChanged(_) => assert Replacement(event).descriptor == m[4];
      case ScenarioStateChanged(_, _, _) => assert Replacement(event).descriptor == m[11];
    }
  }

  predicate FromCommand(event: PublicApiEvent) {
    !event.MediaCapabilitiesChanged? && !event.EngineIntrospectionChanged? && !event.ExtensionsChanged?
  }

  /**
   * An event is valid exactly when its metadata is its own snapshot's, and, if a command caused it, both
   * of the command's sequences are set and its transaction identity is not blank.
   */
  lemma EventIsValidIff(event: PublicApiEvent)
    ensures ValidEvent(event) <==>
            && EventSchemaVersion(event) == event.snapshot.schemaVersion
            && Replacement(event).revision == event.snapshot.revision
            && (Replacement(event).projectRevision in {None, Some(event.snapshot.projectRevision)})
            && (FromCommand(event) ==>
                  && event.source.sequence > 0 && event.source.commandSequence > 0
                  && exists i :: 0 <= i < |event.source.transactionId| && !IsWhitespace(event.source.transactionId[i]))
  {
  }

  /** Events correlate with the command that caused them, or with the revision that was observed. */
  lemma EventsCorrelate(event: PublicApiEvent)
    ensures match EventCorrelation(event)
            case CommandCorrelation(source, command, transaction) =>
              FromCommand(event) && event.source == CommandSource(source, command, transaction)
            case Observation(revision) => !FromCommand(event) && revision == event.snapshot.revision
    ensures Replacement(event).projectRevision.Some? <==> event.ProjectStateChanged? || event.ProjectRecoveryChanged?
  {
  }

  /** Resources are read through their own query, or inspected through a command for history and scenario. */
  lemma MethodsFollowResources(event: PublicApiEvent)
    ensures var d := Replacement(event).descriptor;
            if event.ProjectStateChanged? then d.methodKind == Command && d.refreshMethod == "superi.project.command.execute"
            else if event.ScenarioStateChanged? then
              d.methodKind == Command && d.refreshMethod == "superi.slice.scenario.action.execute"
            else d.methodKind == Query && d.refreshMethod == d.resource + ".get"
  {
    match event {
      case AsyncJobsChanged(_, _, _) => assert "superi.jobs" + ".get" == "superi.jobs.get";
      case ProjectRecoveryChanged(_, _, _, _) => assert "superi.project.recovery" + ".get" == "superi.project.recovery.get";
      case AudioAutomationChanged(_, _, _) => assert "superi.audio.automation" + ".get" == "superi.audio.automation.get";
      case ProjectSettingsChanged(_, _, _) => assert "superi.project.settings" + ".get" == "superi.project.settings.get";
      case MediaCapabilitiesChanged(_) => assert "superi.media.capabilities" + ".get" == "superi.media.capabilities.get";
      case EngineIntrospectionChanged(_) =>
        assert "superi.engine.introspection" + ".get" == "superi.engine.introspection.get";
      case ExtensionsChanged(_) => assert "superi.extensions" + ".get" == "superi.extensions.get";
      case _ =>
    }
  }

  /** An event is named after its resource, except that history is announced as a change of project state. */
  lemma NamesFollowResources(event: PublicApiEvent)
    ensures EventName(event) ==
            (if event.ProjectStateChanged? then "superi.project.state" else ResourceOf(event)) + ".changed"
  {
    match event {
      case ProjectStateChanged(_, _, _, _) => assert "superi.project.state" + ".changed" == "superi.project.state.changed";
      case AsyncJobsChanged(_, _, _) => assert "superi.jobs" + ".changed" == "superi.jobs.changed";
      case ProjectRecoveryChanged(_, _, _, _) =>
        assert "superi.project.recovery" + ".changed" == "superi.project.recovery.changed";
      case AudioAutomationChanged(_, _, _) =>
        assert "superi.audio.automation" + ".changed" == "superi.audio.automation.changed";
      case ProjectSettingsChanged(_, _, _) =>
        assert "superi.project.settings" + ".changed" == "superi.project.settings.changed";
      case MediaCapabilitiesChanged(_) =>
        assert "superi.media.capabilities" + ".changed" == "superi.media.capabilities.changed";
      case EngineIntrospectionChanged(_) =>
        assert "superi.engine.introspection" + ".changed" == "superi.engine.introspection.changed";
      case ExtensionsChanged(_) => assert "superi.extensions" + ".changed" == "superi.extensions.changed";
      case ScenarioStateChanged(_, _, _) =>
        assert "superi.slice.scenario.state" + ".changed" == "superi.slice.scenario.state.changed";
    }
  }

  function SampleEvent(index: nat): PublicApiEvent {
    var source := CommandSource(1, 1, "t");
    match index
    case 0 => AudioAutomationChanged(source, 0, Snapshot(V1, 0, 0, ""))
    case 3 => EngineIntrospectionChanged(Snapshot(V1, 0, 0, ""))
    case 4 => ExtensionsChanged(Snapshot(V1, 0, 0, ""))
    case 5 => AsyncJobsChanged(source, 0, Snapshot(V1, 0, 0, ""))
    case 6 => MediaCapabilitiesChanged(Snapshot(MEDIA_CAPABILITIES_VERSION, 0, 0, ""))
    case 8 => ProjectStateChanged(source, 0, 0, Snapshot(PROJECT_EDITOR_VERSION, 0, 0, ""))
    case 9 => ProjectRecoveryChanged(source, 0, 0, Snapshot(V1, 0, 0, ""))
    case 10 => ProjectSettingsChanged(source, 0, Snapshot(V1, 0, 0, ""))
    case _ => ScenarioStateChanged(source, 0, Snapshot(V1, 0, 0, ""))
  }

  lemma SampleCarriesItsResource(i: nat)
    requires i < 12 && i !in {1, 2, 7}
    ensures ValidEvent(SampleEvent(i)) && ResourceOf(SampleEvent(i)) == Manifest()[i].resource
  {
    assert !IsWhitespace("t"[0]);
    match i {
      case 0 => case 3 => case 4 => case 5 => case 6 => case 8 => case 9 => case 10 => case _ => assert i == 11;
    }
  }

  /** The listed resources are exactly the event-borne ones and the three that no event carries. */
  lemma ManifestIsEventsAndThreeOthers(entry: ResyncResource)
    requires entry in Manifest()
    ensures entry.resource in EVENTLESS <==> !(exists event :: ValidEvent(event) && ResourceOf(event) == entry.resource)
  {
    var i :| 0 <= i < |Manifest()| && Manifest()[i] == entry;
    if i in {1, 2, 7} {
      assert entry.resource in EVENTLESS;
    } else {
      SampleCarriesItsResource(i);
    }
    forall event ensures ResourceOf(event) !in EVENTLESS {
      EventResourcesAreNotEventless(event);
    }
  }

  lemma EventResourcesAreNotEventless(event: PublicApiEvent)
    ensures ResourceOf(event) !in EVENTLESS
  {
    assert |ResourceOf(event)| !in {19, 26, 36};
    assert forall name :: name in EVENTLESS ==> |name| in {19, 26, 36};
  }

  // ----- Records -----

  datatype PublicEventRecord = PublicEventRecord(
    streamId: Identifier,
    sequence: u64,
    eventName: string,
    schemaVersion: SemanticVersion,
    correlation: Correlation,
    replacement: EventReplacementResource,
    event: PublicApiEvent)

  function RecordOf(streamId: Identifier, sequence: u64, event: PublicApiEvent): PublicEventRecord {
    PublicEventRecord(streamId, sequence, EventName(event), EventSchemaVersion(event),
                      EventCorrelation(event), Replacement(event), event)
  }

  predicate ValidRecord(record: PublicEventRecord) {
    && ValidEvent(record.event)
    && record.eventName == EventName(record.event)
    && record.schemaVersion == EventSchemaVersion(record.event)
    && record.correlation == EventCorrelation(record.event)
    && record.replacement == Replacement(record.event)
  }

  /** For a valid event, the record's own schema metadata and revisions agree with its snapshot. */
  lemma RecordMetadataDescribesSnapshot(record: PublicEventRecord)
    requires ValidRecord(record)
    ensures record.schemaVersion == record.event.snapshot.schemaVersion
    ensures record.replacement.descriptor.schemaVersion == record.event.snapshot.schemaVersion
    ensures record.replacement.revision == record.event.snapshot.revision
    ensures record.replacement.projectRevision.Some? ==>
              record.replacement.projectRevision.value == record.event.snapshot.projectRevision
    ensures record == RecordOf(record.streamId, record.sequence, record.event)
  {
  }
}
