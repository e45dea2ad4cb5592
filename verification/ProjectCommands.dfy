/** Permission derivation for compound project commands. */
module ProjectCommands {
  import opened Core
  import opened Settings
  import opened Paths
  import opened PathLaws
  import opened Permissions

  datatype MediaPath =
    | RelativeMedia(path: string)
    | AbsoluteMedia(platform: Platform, path: string)

  datatype MediaMutation =
    | SetPath(path: MediaPath)
    | MarkMissing
    | ConsiderRelink(path: MediaPath)

  datatype ExtensionMutation =
    | Upsert(extensionId: string, grantedCapabilities: seq<string>)
    | Remove(extensionId: string)
    | SetLifecycle(extensionId: string)
    | SetGrantedCapabilities(extensionId: string, capabilities: seq<string>)
    | RecordFailure(extensionId: string)
    | ClearFailure(extensionId: string)

  /** Actions that touch no protected subsystem. */
  datatype UnprotectedAction =
    | SelectRootTimeline | EditTimeline | MutateTracks | MutateMarkers | MutateMulticam | MutateCaptions
    | PlaceNestedSequence | CreateCompoundClip | MutateGraph | MutateClipMix

  datatype ProjectAction =
    | MutateMedia(media: MediaMutation)
    | ImportMedia(sources: seq<seq<MediaPath>>)
    | MutateExtension(mutation: ExtensionMutation)
    | Unprotected(action: UnprotectedAction)

  datatype ProjectCommand =
    | Apply(actions: seq<ProjectAction>)
    | Undo
    | Redo
    | Inspect

  function PermissionPath(path: MediaPath): Result<FilesystemPath> {
    match path
    case RelativeMedia(text) => NewProjectRelative(text)
    case AbsoluteMedia(platform, text) => NewAbsolute(platform, text)
  }

  /** Concatenated results in order, or the first failure. */
  function Gather<T, U>(each: T -> Result<seq<U>>, items: seq<T>): Result<seq<U>> {
    if items == [] then Ok([])
    else
      var front :- Gather(each, items[..|items| - 1]);
      var last :- each(items[|items| - 1]);
      Ok(front + last)
  }

  function ReadRequirement(path: MediaPath): Result<seq<Requirement>> {
    var target :- PermissionPath(path);
    Ok([FilesystemRequirement(Read, target)])
  }

  function SourceRequirements(paths: seq<MediaPath>): Result<seq<Requirement>> {
    Gather(ReadRequirement, paths)
  }

  function ImportRequirements(sources: seq<seq<MediaPath>>): Result<seq<Requirement>> {
    Gather(SourceRequirements, sources)
  }

  function ExtensionRequirements(mutation: ExtensionMutation): Result<seq<Requirement>> {
    match mutation
    case Upsert(id, granted) =>
      var state :- NewPluginRequirement(ManageState, id);
      var lifecycle :- NewPluginRequirement(ManageLifecycle, id);
      if granted == [] then Ok([state, lifecycle])
      else
        var delegation :- NewPluginDelegation(id, granted);
        Ok([state, lifecycle, delegation])
    case SetLifecycle(id) =>
      var lifecycle :- NewPluginRequirement(ManageLifecycle, id);
      Ok([lifecycle])
    case SetGrantedCapabilities(id, capabilities) =>
      var delegation :- NewPluginDelegation(id, capabilities);
      Ok([delegation])
    case _ =>
      var state :- NewPluginRequirement(ManageState, mutation.extensionId);
      Ok([state])
  }

  /** What one action alone requires. */
  function ActionRequirements(action: ProjectAction): Result<seq<Requirement>> {
    match action
    case MutateMedia(MarkMissing) => Ok([])
    case MutateMedia(SetPath(path)) => ReadRequirement(path)
    case MutateMedia(ConsiderRelink(path)) => ReadRequirement(path)
    case ImportMedia(sources) => ImportRequirements(sources)
    case MutateExtension(mutation) => ExtensionRequirements(mutation)
    case Unprotected(_) => Ok([])
  }

  function ActionsRequirements(actions: seq<ProjectAction>): Result<seq<Requirement>> {
    Gather(ActionRequirements, actions)
  }

  function CommandRequirements(command: ProjectCommand): Result<seq<Requirement>> {
    match command
    case Apply(actions) =>
      var requirements :- ActionsRequirements(actions);
      NewRequirements(requirements)
    case _ => Ok([])
  }

  // ----- The appending derivation -----

  /** One more item either fails the gathering of any longer list or extends it. */
  lemma GatherNext<T, U>(each: T -> Result<seq<U>>, items: seq<T>, i: nat, front: seq<U>)
    requires i < |items| && Gather(each, items[..i]) == Ok(front)
    ensures each(items[i]).Err? ==> Gather(each, items) == Err(each(items[i]).error)
    ensures each(items[i]).Ok? ==> Gather(each, items[..i + 1]) == Ok(front + each(items[i]).value)
  {
    assert items[..i + 1][..i] == items[..i];
    if each(items[i]).Err? {
      GatherStopsAt(each, items, i);
    }
  }

  lemma {:induction false} GatherStopsAt<T, U>(each: T -> Result<seq<U>>, items: seq<T>, i: nat)
    requires i < |items| && Gather(each, items[..i]).Ok? && each(items[i]).Err?
    ensures Gather(each, items) == Err(each(items[i]).error)
    decreases |items|
  {
    var front := items[..|items| - 1];
    if i < |front| {
      assert front[..i] == items[..i];
      GatherStopsAt(each, front, i);
    } else {
      assert front == items[..i];
    }
  }

  function Appended(before: seq<Requirement>, own: Result<seq<Requirement>>): Result<seq<Requirement>> {
    match own
    case Err(e) => Err(e)
    case Ok(more) => Ok(before + more)
  }

  /** One more item pushed behind what is already there, or the failure of the whole gathering. */
  lemma AppendNext<T>(
    each: T -> Result<seq<Requirement>>, items: seq<T>, i: nat, before: seq<Requirement>, own: seq<Requirement>)
    requires i < |items| && Gather(each, items[..i]) == Ok(own)
    ensures each(items[i]).Err? ==> Appended(before, Gather(each, items)) == Err(each(items[i]).error)
    ensures each(items[i]).Ok? ==>
              && Gather(each, items[..i + 1]) == Ok(own + each(items[i]).value)
              && before + own + each(items[i]).value == before + (own + each(items[i]).value)
  {
    GatherNext(each, items, i, own);
  }

  method AppendSource(paths: seq<MediaPath>, before: seq<Requirement>) returns (r: Result<seq<Requirement>>)
    ensures r == Appended(before, SourceRequirements(paths))
  {
    ghost var own: seq<Requirement> := [];
    var requirements := before;
    for i := 0 to |paths|
      invariant Gather(ReadRequirement, paths[..i]) == Ok(own) && requirements == before + own
    {
      AppendNext(ReadRequirement, paths, i, before, own);
      var target :- PermissionPath(paths[i]);
      own := own + ReadRequirement(paths[i]).value;
      requirements := requirements + [FilesystemRequirement(Read, target)];
    }
    assert paths[..|paths|] == paths;
    return Ok(requirements);
  }

  method AppendImport(sources: seq<seq<MediaPath>>, before: seq<Requirement>) returns (r: Result<seq<Requirement>>)
    ensures r == Appended(before, ImportRequirements(sources))
  {
    ghost var own: seq<Requirement> := [];
    var requirements := before;
    for i := 0 to |sources|
      invariant Gather(SourceRequirements, sources[..i]) == Ok(own) && requirements == before + own
    {
      AppendNext(SourceRequirements, sources, i, before, own);
      requirements :- AppendSource(sources[i], requirements);
      own := own + SourceRequirements(sources[i]).value;
    }
    assert sources[..|sources|] == sources;
    return Ok(requirements);
  }

  /** Pushes the requirements of one extension mutation in source order, stopping at the first malformed identity. */
  method AppendExtension(mutation: ExtensionMutation, before: seq<Requirement>) returns (r: Result<seq<Requirement>>)
    ensures r == Appended(before, ExtensionRequirements(mutation))
  {
    var requirements := before;
    match mutation {
      case Upsert(id, granted) =>
        var state :- NewPluginRequirement(ManageState, id);
        requirements := requirements + [state];
        var lifecycle :- NewPluginRequirement(ManageLifecycle, id);
        requirements := requirements + [lifecycle];
        if granted != [] {
          var delegation :- NewPluginDelegation(id, granted);
          requirements := requirements + [delegation];
          assert before + [state, lifecycle, delegation] == requirements;
        }
        assert granted == [] ==> before + [state, lifecycle] == requirements;
      case SetLifecycle(id) =>
        var lifecycle :- NewPluginRequirement(ManageLifecycle, id);
        requirements := requirements + [lifecycle];
      case SetGrantedCapabilities(id, capabilities) =>
        var delegation :- NewPluginDelegation(id, capabilities);
        requirements := requirements + [delegation];
      case _ =>
        var state :- NewPluginRequirement(ManageState, mutation.extensionId);
        requirements := requirements + [state];
    }
    return Ok(requirements);
  }

  method AppendAction(action: ProjectAction, before: seq<Requirement>) returns (r: Result<seq<Requirement>>)
    ensures r == Appended(before, ActionRequirements(action))
  {
    var requirements := before;
    match action {
      case MutateMedia(MarkMissing) => assert before + [] == before;
      case MutateMedia(SetPath(path)) =>
        var target :- PermissionPath(path);
        requirements := requirements + [FilesystemRequirement(Read, target)];
      case MutateMedia(ConsiderRelink(path)) =>
        var target :- PermissionPath(path);
        requirements := requirements + [FilesystemRequirement(Read, target)];
      case ImportMedia(sources) => requirements :- AppendImport(sources, requirements);
      case MutateExtension(mutation) => requirements :- AppendExtension(mutation, requirements);
      case Unprotected(_) => assert before + [] == before;
    }
    return Ok(requirements);
  }

  /** One growing vector over all actions, canonicalized at the end. */
  method PermissionRequirements(command: ProjectCommand) returns (r: Result<seq<Requirement>>)
    ensures r == CommandRequirements(command)
  {
    if !command.Apply? {
      return Ok([]);
    }
    var actions := command.actions;
    var requirements: seq<Requirement> := [];
    for i := 0 to |actions|
      invariant Gather(ActionRequirements, actions[..i]) == Ok(requirements)
    {
      var extended := AppendAction(actions[i], requirements);
      GatherNext(ActionRequirements, actions, i, requirements);
      if extended.Err? {
        return extended;
      }
      requirements := extended.value;
    }
    assert actions[..|actions|] == actions;
    return NewRequirements(requirements);
  }

  // ----- Authorizing a command -----

  /** The decision for a whole command: derive, canonicalize, then evaluate. */
  ghost function CommandDecision(context: PermissionContext, command: ProjectCommand): Result<()> {
    var requirements :- CommandRequirements(command);
    Decision(context, requirements)
  }

  method AuthorizeCommand(context: PermissionContext, command: ProjectCommand) returns (r: Result<()>)
    requires ValidContext(context)
    ensures r == CommandDecision(context, command)
  {
    var requirements := PermissionRequirements(command);
    if requirements.Err? {
      return Err(requirements.error);
    }
    r := Authorize(context, requirements.value);
  }

  predicate AllValid(requirements: seq<Requirement>) {
    forall i :: 0 <= i < |requirements| ==> ValidRequirement(requirements[i])
  }

  lemma {:induction false} GatheredRequirementsAreValid<T(!new)>(each: T -> Result<seq<Requirement>>, items: seq<T>)
    requires forall item :: each(item).Ok? ==> AllValid(each(item).value)
    ensures Gather(each, items).Ok? ==> AllValid(Gather(each, items).value)
  {
    if items != [] {
      GatheredRequirementsAreValid(each, items[..|items| - 1]);
    }
  }

  lemma ReadRequirementIsValid(path: MediaPath)
    ensures ReadRequirement(path).Ok? ==> AllValid(ReadRequirement(path).value)
  {
    ConstructorsBuildValidPaths(if path.AbsoluteMedia? then path.platform else Unix, path.path);
  }

  lemma SourceRequirementsAreValid(paths: seq<MediaPath>)
    ensures SourceRequirements(paths).Ok? ==> AllValid(SourceRequirements(paths).value)
  {
    forall path ensures ReadRequirement(path).Ok? ==> AllValid(ReadRequirement(path).value) {
      ReadRequirementIsValid(path);
    }
    GatheredRequirementsAreValid(ReadRequirement, paths);
  }

  lemma ImportRequirementsAreValid(sources: seq<seq<MediaPath>>)
    ensures ImportRequirements(sources).Ok? ==> AllValid(ImportRequirements(sources).value)
  {
    forall paths ensures SourceRequirements(paths).Ok? ==> AllValid(SourceRequirements(paths).value) {
      SourceRequirementsAreValid(paths);
    }
    GatheredRequirementsAreValid(SourceRequirements, sources);
  }

  lemma ActionRequirementsAreValid(action: ProjectAction)
    ensures ActionRequirements(action).Ok? ==> AllValid(ActionRequirements(action).value)
  {
    match action {
      case MutateMedia(SetPath(path)) => ReadRequirementIsValid(path);
      case MutateMedia(ConsiderRelink(path)) => ReadRequirementIsValid(path);
      case ImportMedia(sources) => ImportRequirementsAreValid(sources);
      case MutateExtension(Upsert(id, granted)) =>
        BuiltPluginRequirementIsValid(ManageState, id, granted);
        BuiltPluginRequirementIsValid(ManageLifecycle, id, granted);
      case MutateExtension(SetGrantedCapabilities(id, capabilities)) =>
        BuiltPluginRequirementIsValid(ManageState, id, capabilities);
      case _ =>
    }
  }

  lemma ActionsRequirementsAreValid(actions: seq<ProjectAction>)
    ensures ActionsRequirements(actions).Ok? ==> AllValid(ActionsRequirements(actions).value)
  {
    forall action ensures ActionRequirements(action).Ok? ==> AllValid(ActionRequirements(action).value) {
      ActionRequirementsAreValid(action);
    }
    GatheredRequirementsAreValid(ActionRequirements, actions);
  }

  /** Every requirement that a well-formed command derives is valid, so canonicalization cannot fail. */
  lemma DerivedRequirementsAreAuthorizable(context: PermissionContext, actions: seq<ProjectAction>)
    ensures CommandDecision(context, Apply(actions)).Ok? <==>
            ActionsRequirements(actions).Ok? && AllGranted(context.rules, ActionsRequirements(actions).value)
    ensures ActionsRequirements(actions).Ok? ==> CommandRequirements(Apply(actions)).Ok?
  {
    if ActionsRequirements(actions).Ok? {
      var derived := ActionsRequirements(actions).value;
      ActionsRequirementsAreValid(actions);
      BuiltRequirementsAreValid(derived);
      assert forall x :: x in derived ==> ValidRequirement(x);
    }
  }

  lemma SingleAction(action: ProjectAction)
    ensures ActionsRequirements([action]) == ActionRequirements(action)
  {
    assert [action][..0] == [];
    assert Gather(ActionRequirements, []) == Ok([]);
    assert Gather(ActionRequirements, [action][..0]) == Ok([]);
    if ActionRequirements(action).Ok? {
      assert [] + ActionRequirements(action).value == ActionRequirements(action).value;
    }
  }

  ghost predicate Authorized(context: PermissionContext, actions: seq<ProjectAction>) {
    CommandDecision(context, Apply(actions)).Ok?
  }

  lemma CompoundStep(context: PermissionContext, front: seq<ProjectAction>, last: ProjectAction)
    ensures Authorized(context, front + [last]) <==> Authorized(context, front) && Authorized(context, [last])
  {
    var actions := front + [last];
    assert actions[..|actions| - 1] == front;
    DerivedRequirementsAreAuthorizable(context, actions);
    DerivedRequirementsAreAuthorizable(context, front);
    DerivedRequirementsAreAuthorizable(context, [last]);
    SingleAction(last);
    if ActionsRequirements(front).Ok? && ActionRequirements(last).Ok? {
      DecisionSplits(context, ActionsRequirements(front).value, ActionRequirements(last).value);
    }
  }

  lemma EmptyCommandIsAuthorized(context: PermissionContext)
    ensures Authorized(context, [])
  {
    DerivedRequirementsAreAuthorizable(context, []);
  }

  lemma {:induction false} EachIsAuthorized(context: PermissionContext, actions: seq<ProjectAction>)
    ensures Authorized(context, actions) <==> forall action :: action in actions ==> Authorized(context, [action])
  {
    if actions == [] {
      EmptyCommandIsAuthorized(context);
    } else {
      var front, last := actions[..|actions| - 1], actions[|actions| - 1];
      assert actions == front + [last];
      EachIsAuthorized(context, front);
      CompoundStep(context, front, last);
    }
  }

  /** A compound command is authorized exactly when each of its actions would be authorized alone. */
  lemma CompoundIsConjunction(context: PermissionContext, actions: seq<ProjectAction>)
    ensures CommandDecision(context, Apply(actions)).Ok? <==>
            forall action :: action in actions ==> CommandDecision(context, Apply([action])).Ok?
  {
    EachIsAuthorized(context, actions);
    assert forall action :: Authorized(context, [action]) <==> CommandDecision(context, Apply([action])).Ok?;
  }
}
