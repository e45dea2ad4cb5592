/** What authorizes each project action, said on requirements as values instead of their derivation. */
module CommandAuthority {
  import opened Core
  import opened Orders
  import opened Settings
  import opened Paths
  import opened Permissions
  import opened ProjectCommands

  // ----- What each action demands -----

  /** The canonical filesystem target that a media path names, if the path is accepted. */
  function Target(path: MediaPath): Option<FilesystemPath> {
    match path
    case RelativeMedia(text) =>
      var n := NormalizeRelative(text);
      if n.Ok? then Some(ProjectRelative(n.value.canonical)) else None
    case AbsoluteMedia(platform, text) =>
      var n := NormalizeAbsolute(platform, text);
      if n.Ok? then Some(Absolute(platform, n.value.canonical)) else None
  }

  /** The strictly ordered list of a set of capability names. */
  ghost predicate OrderedSetOf(sorted: seq<string>, capabilities: seq<string>) {
    Sorted(StringLess, sorted) && forall c :: c in sorted <==> c in capabilities
  }

  ghost predicate Malformed(action: ProjectAction) {
    match action
    case MutateMedia(MarkMissing) => false
    case MutateMedia(SetPath(path)) => Target(path).None?
    case MutateMedia(ConsiderRelink(path)) => Target(path).None?
    case ImportMedia(sources) => exists paths, path :: paths in sources && path in paths && Target(path).None?
    case MutateExtension(mutation) =>
      || !IsCanonicalName(mutation.extensionId)
      || (mutation.Upsert? && exists c :: c in mutation.grantedCapabilities && !IsCanonicalName(c))
      || (mutation.SetGrantedCapabilities? && exists c :: c in mutation.capabilities && !IsCanonicalName(c))
    case Unprotected(_) => false
  }

  /** The action needs exactly these permissions. */
  ghost predicate Demands(action: ProjectAction, q: Requirement) {
    match action
    case MutateMedia(MarkMissing) => false
    case MutateMedia(SetPath(path)) => ReadOf(path, q)
    case MutateMedia(ConsiderRelink(path)) => ReadOf(path, q)
    case ImportMedia(sources) => exists paths, path :: paths in sources && path in paths && ReadOf(path, q)
    case MutateExtension(Upsert(id, granted)) =>
      || q == PluginRequirement(ManageState, id, [])
      || q == PluginRequirement(ManageLifecycle, id, [])
      || (granted != [] && DelegationOf(id, granted, q))
    case MutateExtension(SetLifecycle(id)) => q == PluginRequirement(ManageLifecycle, id, [])
    case MutateExtension(SetGrantedCapabilities(id, capabilities)) => DelegationOf(id, capabilities, q)
    case MutateExtension(mutation) => q == PluginRequirement(ManageState, mutation.extensionId, [])
    case Unprotected(_) => false
  }

  ghost predicate ReadOf(path: MediaPath, q: Requirement) {
    Target(path).Some? && q == FilesystemRequirement(Read, Target(path).value)
  }

  ghost predicate DelegationOf(id: string, capabilities: seq<string>, q: Requirement) {
    && q.PluginRequirement? && q.operation == DelegateCapabilities && q.extensionId == id
    && OrderedSetOf(q.delegatedCapabilities, capabilities)
  }

  // ----- The derivation meets exactly these demands -----

  lemma {:induction false} GatheredMembers<T(!new), U(!new)>(each: T -> Result<seq<U>>, items: seq<T>)
    ensures Gather(each, items).Ok? <==> forall item :: item in items ==> each(item).Ok?
    ensures Gather(each, items).Ok? ==>
              forall x :: x in Gather(each, items).value <==> exists item :: item in items && x in each(item).value
  {
    if items != [] {
      var front, last := items[..|items| - 1], items[|items| - 1];
      GatheredMembers(each, front);
      assert items == front + [last];
      assert forall item :: item in items <==> item in front || item == last;
    }
  }

  lemma ReadMembers(path: MediaPath)
    ensures ReadRequirement(path).Ok? <==> Target(path).Some?
    ensures ReadRequirement(path).Ok? ==> forall q :: q in ReadRequirement(path).value <==> ReadOf(path, q)
  {
  }

  lemma SourceMembers(paths: seq<MediaPath>)
    ensures SourceRequirements(paths).Ok? <==> forall path :: path in paths ==> Target(path).Some?
    ensures SourceRequirements(paths).Ok? ==>
              forall q :: q in SourceRequirements(paths).value <==> exists path :: path in paths && ReadOf(path, q)
  {
    GatheredMembers(ReadRequirement, paths);
    forall path
      ensures ReadRequirement(path).Ok? <==> Target(path).Some?
      ensures ReadRequirement(path).Ok? ==> forall q :: q in ReadRequirement(path).value <==> ReadOf(path, q)
    {
      ReadMembers(path);
    }
  }

  lemma ImportMembers(sources: seq<seq<MediaPath>>)
    ensures ImportRequirements(sources).Err? <==> Malformed(ImportMedia(sources))
    ensures ImportRequirements(sources).Ok? ==>
              forall q :: q in ImportRequirements(sources).value <==> Demands(ImportMedia(sources), q)
  {
    GatheredMembers(SourceRequirements, sources);
    forall paths
      ensures SourceRequirements(paths).Ok? <==> forall path :: path in paths ==> Target(path).Some?
      ensures SourceRequirements(paths).Ok? ==>
                forall q :: q in SourceRequirements(paths).value <==> exists path :: path in paths && ReadOf(path, q)
    {
      SourceMembers(paths);
    }
  }

  /** A delegation is built for well-formed names only, and carries them as an ordered set. */
  lemma DelegationMembers(id: string, capabilities: seq<string>, q: Requirement)
    ensures NewPluginDelegation(id, capabilities).Ok? <==>
            IsCanonicalName(id) && forall c :: c in capabilities ==> IsCanonicalName(c)
    ensures NewPluginDelegation(id, capabilities).Ok? ==>
              (q == NewPluginDelegation(id, capabilities).value <==> DelegationOf(id, capabilities, q))
  {
    StringLessIsTotal();
    var values := Collect(StringLess, capabilities);
    CollectIsSorted(StringLess, capabilities);
    if q.PluginRequirement? && OrderedSetOf(q.delegatedCapabilities, capabilities) {
      SortedIsUnique(StringLess, values, q.delegatedCapabilities);
    }
    assert ValidCapabilities(values) <==> forall c :: c in values ==> IsCanonicalName(c);
  }

  lemma ExtensionMembers(mutation: ExtensionMutation, q: Requirement)
    ensures ExtensionRequirements(mutation).Err? <==> Malformed(MutateExtension(mutation))
    ensures ExtensionRequirements(mutation).Ok? ==>
              (q in ExtensionRequirements(mutation).value <==> Demands(MutateExtension(mutation), q))
  {
    match mutation {
      case Upsert(id, granted) => DelegationMembers(id, granted, q);
      case SetGrantedCapabilities(id, capabilities) => DelegationMembers(id, capabilities, q);
      case _ =>
    }
  }

  /** The derivation fails exactly for malformed actions, and otherwise lists exactly what they demand. */
  lemma ActionMembers(action: ProjectAction, q: Requirement)
    ensures ActionRequirements(action).Err? <==> Malformed(action)
    ensures ActionRequirements(action).Ok? ==> (q in ActionRequirements(action).value <==> Demands(action, q))
  {
    match action {
      case MutateMedia(SetPath(path)) => ReadMembers(path);
      case MutateMedia(ConsiderRelink(path)) => ReadMembers(path);
      case ImportMedia(sources) => ImportMembers(sources);
      case MutateExtension(mutation) => ExtensionMembers(mutation, q);
      case _ =>
    }
  }

  // ----- Who may run a command -----

  /** The action is well formed, and everything it demands is granted. */
  ghost predicate Permitted(rules: seq<Rule>, action: ProjectAction) {
    !Malformed(action) && forall q :: Demands(action, q) ==> Granted(rules, q)
  }

  lemma ActionAuthorizedIff(context: PermissionContext, action: ProjectAction)
    ensures CommandDecision(context, Apply([action])).Ok? <==> Permitted(context.rules, action)
  {
    DerivedRequirementsAreAuthorizable(context, [action]);
    SingleAction(action);
    forall q ensures ActionRequirements(action).Ok? ==> (q in ActionRequirements(action).value <==> Demands(action, q)) {
      ActionMembers(action, q);
    }
    ActionMembers(action, DestructiveRequirement(CancelAsyncJob));
  }

  /** Every failure while deriving requirements is a malformed input. */
  lemma {:induction false} GatherFailsAsInvalid<T(!new), U>(each: T -> Result<seq<U>>, items: seq<T>)
    requires forall item :: each(item).Err? ==> each(item).error == InvalidInput
    ensures Gather(each, items).Err? ==> Gather(each, items).error == InvalidInput
  {
    if items != [] {
      GatherFailsAsInvalid(each, items[..|items| - 1]);
    }
  }

  lemma ActionFailsAsInvalid(action: ProjectAction)
    ensures ActionRequirements(action).Err? ==> ActionRequirements(action).error == InvalidInput
  {
    if action.ImportMedia? {
      forall path ensures ReadRequirement(path).Err? ==> ReadRequirement(path).error == InvalidInput {
      }
      forall paths ensures SourceRequirements(paths).Err? ==> SourceRequirements(paths).error == InvalidInput {
        GatherFailsAsInvalid(ReadRequirement, paths);
      }
      GatherFailsAsInvalid(SourceRequirements, action.sources);
    }
  }

  /**
   * A command runs if and only if all its actions are permitted. It is invalid input if one of them is
   * malformed, and denied otherwise. Undo, redo, and inspection need no permission.
   */
  lemma CommandDecides(context: PermissionContext, command: ProjectCommand)
    ensures CommandDecision(context, command) ==
            (if !command.Apply? then Ok(())
             else if exists action :: action in command.actions && Malformed(action) then Err(InvalidInput)
             else if forall action :: action in command.actions ==> Permitted(context.rules, action) then Ok(())
             else Err(PermissionDenied))
  {
    if command.Apply? {
      CompoundDecides(context, command.actions);
    } else {
      assert Collect(RequirementLess, []) == [];
      assert ValidRequirements([]);
    }
  }

  lemma CompoundDecides(context: PermissionContext, actions: seq<ProjectAction>)
    ensures CommandDecision(context, Apply(actions)) ==
            (if exists action :: action in actions && Malformed(action) then Err(InvalidInput)
             else if forall action :: action in actions ==> Permitted(context.rules, action) then Ok(())
             else Err(PermissionDenied))
  {
    CompoundIsConjunction(context, actions);
    forall action
      ensures CommandDecision(context, Apply([action])).Ok? <==> Permitted(context.rules, action)
      ensures ActionRequirements(action).Err? <==> Malformed(action)
      ensures ActionRequirements(action).Err? ==> ActionRequirements(action).error == InvalidInput
    {
      ActionAuthorizedIff(context, action);
      ActionMembers(action, DestructiveRequirement(CancelAsyncJob));
      ActionFailsAsInvalid(action);
    }
    GatheredMembers(ActionRequirements, actions);
    GatherFailsAsInvalid(ActionRequirements, actions);
    DecisionCategory(context, actions);
  }

  lemma DecisionCategory(context: PermissionContext, actions: seq<ProjectAction>)
    ensures ActionsRequirements(actions).Err? ==>
              CommandDecision(context, Apply(actions)) == Err(ActionsRequirements(actions).error)
    ensures ActionsRequirements(actions).Ok? ==>
              CommandDecision(context, Apply(actions)) in {Ok(()), Err(PermissionDenied)}
  {
    if ActionsRequirements(actions).Ok? {
      DerivedRequirementsAreAuthorizable(context, actions);
      BuiltRequirementsAreValid(ActionsRequirements(actions).value);
    }
  }
}
