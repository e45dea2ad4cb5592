/** Which rules, contexts, and requirements are accepted, and in which order requirements stand. */
module PolicyLaws {
  import opened Core
  import opened Orders
  import opened Settings
  import opened Names
  import opened Paths
  import opened PathLaws
  import opened Scopes
  import opened Permissions

  // ----- Names and paths -----

  /** Canonical names in strict order. */
  ghost predicate StrictNames(names: seq<string>) {
    && (forall i, j :: 0 <= i < j < |names| ==> StringLess(names[i], names[j]))
    && forall name :: name in names ==> DottedLowercase(name)
  }

  ghost predicate CanonicalPath(path: FilesystemPath) {
    exists root, components :: Canonical(root, components) && path == ToPath(root, components)
  }

  lemma CapabilitiesMeaning(names: seq<string>)
    ensures AreCanonicalCapabilities(names) <==> StrictNames(names)
  {
    StringLessIsTotal();
    CollectFixesExactlySorted(StringLess, names);
    forall name ensures IsCanonicalName(name) <==> DottedLowercase(name) {
      CanonicalNameByCharacters(name);
    }
    assert forall i :: 0 <= i < |names| ==> names[i] in names;
  }

  /** The same names in strict order, or a refusal if one is not canonical. */
  lemma CanonicalCapabilitiesMeaning(names: seq<string>)
    ensures CanonicalCapabilities(names).Ok? <==> forall name :: name in names ==> DottedLowercase(name)
    ensures CanonicalCapabilities(names).Ok? ==>
              var values := CanonicalCapabilities(names).value;
              StrictNames(values) && forall name :: name in values <==> name in names
    ensures CanonicalCapabilities(names).Err? ==> CanonicalCapabilities(names).error == InvalidInput
  {
    CollectedCapabilitiesAreCanonical(names);
    var values := Collect(StringLess, names);
    CapabilitiesMeaning(values);
    forall name ensures IsCanonicalName(name) <==> DottedLowercase(name) {
      CanonicalNameByCharacters(name);
    }
    assert forall i :: 0 <= i < |values| ==> values[i] in values;
  }

  // ----- Rules -----

  predicate GoodPlugins(plugins: PluginScope) {
    plugins.ExactPlugin? ==> DottedLowercase(plugins.extensionId)
  }

  /**
   * Scopes are canonical. Only delegation rules carry a ceiling, an ordered set of names, and an allowing
   * one must.
   */
  ghost predicate GoodRule(rule: Rule) {
    match rule
    case FilesystemRule(_, _, Exact(path)) => CanonicalPath(path)
    case FilesystemRule(_, _, Recursive(root)) => CanonicalPath(root)
    case PluginRule(Allow, DelegateCapabilities, plugins, ceiling) =>
      GoodPlugins(plugins) && ceiling.Some? && StrictNames(ceiling.value)
    case PluginRule(Deny, DelegateCapabilities, plugins, ceiling) =>
      GoodPlugins(plugins) && (ceiling.Some? ==> StrictNames(ceiling.value))
    case PluginRule(_, _, plugins, ceiling) => GoodPlugins(plugins) && ceiling.None?
    case DestructiveRule(_, _) => true
  }

  lemma RuleAcceptedIff(rule: Rule)
    ensures ValidRule(rule) <==> GoodRule(rule)
  {
    match rule {
      case FilesystemRule(_, _, scope) => ValidPathsAreTheCanonicalOnes(ScopePath(scope));
      case PluginRule(_, _, plugins, ceiling) =>
        if plugins.ExactPlugin? {
          CanonicalNameByCharacters(plugins.extensionId);
        }
        if ceiling.Some? {
          CapabilitiesMeaning(ceiling.value);
        }
      case DestructiveRule(_, _) =>
    }
  }

  /** A context is built exactly for a canonical principal and good rules, and holds them as given. */
  lemma ContextAcceptedIff(principal: string, rules: seq<Rule>)
    ensures NewContext(principal, rules) ==
            (if DottedLowercase(principal) && forall rule :: rule in rules ==> GoodRule(rule)
             then Ok(PermissionContext(principal, rules)) else Err(InvalidInput))
  {
    CanonicalNameByCharacters(principal);
    forall rule ensures ValidRule(rule) <==> GoodRule(rule) {
      RuleAcceptedIff(rule);
    }
    assert forall i :: 0 <= i < |rules| ==> rules[i] in rules;
  }

  /**
   * The plugin rules that validate are exactly the ones that the three constructors build: plain rules
   * for the operation asked for, delegation up to a set of names, and denial of all delegation.
   */
  lemma PluginRulesAreTheBuiltOnes(rule: Rule)
    requires rule.PluginRule?
    ensures ValidRule(rule) <==>
            || Ok(rule) == NewPluginRule(rule.effect, rule.operation, rule.plugins)
            || Ok(rule) == DenyAllPluginDelegation(rule.plugins)
            || (exists names :: Ok(rule) == NewPluginDelegationRule(rule.effect, rule.plugins, names))
  {
    if ValidRule(rule) && rule.ceiling.Some? {
      assert CanonicalCapabilities(rule.ceiling.value) == Ok(rule.ceiling.value);
      assert Ok(rule) == NewPluginDelegationRule(rule.effect, rule.plugins, rule.ceiling.value);
    }
    forall names | Ok(rule) == NewPluginDelegationRule(rule.effect, rule.plugins, names) ensures ValidRule(rule) {
      CollectedCapabilitiesAreCanonical(names);
    }
  }

  // ----- What a rule covers -----

  /** The target is the root's path, or the root's path continued by further components. */
  ghost predicate WithinRoot(path: FilesystemPath, target: FilesystemPath) {
    exists root, components, rest ::
      Canonical(root, components) && Canonical(root, components + rest)
      && path == ToPath(root, components) && target == ToPath(root, components + rest)
  }

  lemma RecursiveMeansWithin(path: FilesystemPath, target: FilesystemPath)
    requires ValidPath(path) && ValidPath(target)
    ensures ScopeMatches(Recursive(path), target) == Ok(WithinRoot(path, target))
    ensures ScopeMatches(Exact(path), target) == Ok(path == target)
  {
    MatchingIsBoundaryPrefix(Exact(path), target);
    var n, t := Normalized(path).value, Normalized(target).value;
    ParseIsCanonical(path, n);
    ParseIsCanonical(target, t);
    if n.root == t.root && n.components <= t.components {
      var rest := t.components[|n.components|..];
      assert t.components == n.components + rest;
      assert WithinRoot(path, target);
    }
    forall root, components, rest
      | && Canonical(root, components) && Canonical(root, components + rest)
        && path == ToPath(root, components) && target == ToPath(root, components + rest)
      ensures n.root == t.root && n.components <= t.components
    {
      ParseOfPrint(root, components);
      ParseOfPrint(root, components + rest);
    }
  }

  /** A filesystem rule covers its own access, at its own target or, recursively, within its root. */
  lemma FilesystemRuleCovers(
    effect: Effect, access: FilesystemAccess, path: FilesystemPath, required: FilesystemAccess, target: FilesystemPath)
    requires ValidPath(path) && ValidPath(target)
    ensures Matches(FilesystemRule(effect, access, Exact(path)), FilesystemRequirement(required, target))
            == Ok(access == required && path == target)
    ensures Matches(FilesystemRule(effect, access, Recursive(path)), FilesystemRequirement(required, target))
            == Ok(access == required && WithinRoot(path, target))
  {
    RecursiveMeansWithin(path, target);
  }

  /**
   * A plugin rule covers its own operation for its own plugins. A delegation must lie within its ceiling,
   * and a delegation rule without one denies everything.
   */
  lemma PluginRuleCovers(rule: Rule, operation: PluginOperation, extensionId: string, names: seq<string>)
    requires rule.PluginRule? && ValidRule(rule)
    ensures Matches(rule, PluginRequirement(operation, extensionId, names)) ==
            Ok(&& rule.operation == operation
               && (rule.plugins == AllPlugins || rule.plugins == ExactPlugin(extensionId))
               && (operation == DelegateCapabilities && rule.ceiling.Some? ==>
                     forall name :: name in names ==> name in rule.ceiling.value))
  {
    if rule.ceiling.Some? {
      ContainsAllIsSubset(rule.ceiling.value, names);
    }
  }

  /** A destructive rule covers its own operation, and no rule covers a requirement of another kind. */
  lemma OtherRulesCover(rule: Rule, q: Requirement, effect: Effect, a: DestructiveOperation, b: DestructiveOperation)
    ensures Matches(DestructiveRule(effect, a), DestructiveRequirement(b)) == Ok(a == b)
    ensures || (rule.FilesystemRule? && !q.FilesystemRequirement?)
            || (rule.PluginRule? && !q.PluginRequirement?)
            || (rule.DestructiveRule? && !q.DestructiveRequirement?)
            ==> Matches(rule, q) == Ok(false)
  {
  }

  /** One valid requirement is granted exactly when some allow rule covers it and no deny rule does. */
  lemma DecisionIsCoverage(context: PermissionContext, q: Requirement)
    requires ValidContext(context) && ValidRequirement(q)
    ensures Decision(context, [q]) ==
            (if && (exists rule :: rule in context.rules && rule.effect == Allow && Matches(rule, q) == Ok(true))
                && (forall rule :: rule in context.rules && rule.effect == Deny ==> Matches(rule, q) == Ok(false))
             then Ok(()) else Err(PermissionDenied))
  {
    OneRequirementIsDecided(context, q);
    forall rule | rule in context.rules ensures Matches(rule, q) == Ok(Applies(rule, q)) {
      MatchingIsApplying(rule, q);
    }
  }

  // ----- Requirements -----

  /** Targets are canonical, identities are names, and only delegations carry names, as an ordered set. */
  ghost predicate GoodRequirement(q: Requirement) {
    match q
    case FilesystemRequirement(_, target) => CanonicalPath(target)
    case PluginRequirement(DelegateCapabilities, extensionId, names) => DottedLowercase(extensionId) && StrictNames(names)
    case PluginRequirement(_, extensionId, names) => DottedLowercase(extensionId) && names == []
    case DestructiveRequirement(_) => true
  }

  lemma RequirementAcceptedIff(q: Requirement)
    ensures ValidRequirement(q) <==> GoodRequirement(q)
  {
    match q {
      case FilesystemRequirement(_, target) => ValidPathsAreTheCanonicalOnes(target);
      case PluginRequirement(_, extensionId, names) =>
        CanonicalNameByCharacters(extensionId);
        CapabilitiesMeaning(names);
      case DestructiveRequirement(_) =>
    }
  }

  /** A plugin requirement is for exactly the operation and identity asked for, and covered by rules for both. */
  lemma PluginRequirementIsAsAsked(operation: PluginOperation, extensionId: string, rule: Rule)
    requires rule.PluginRule?
    ensures NewPluginRequirement(operation, extensionId).Ok? <==>
            operation != DelegateCapabilities && DottedLowercase(extensionId)
    ensures NewPluginRequirement(operation, extensionId).Ok? ==>
              (Applies(rule, NewPluginRequirement(operation, extensionId).value) <==>
               rule.operation == operation && rule.plugins in {AllPlugins, ExactPlugin(extensionId)})
  {
    CanonicalNameByCharacters(extensionId);
  }

  // ----- The order of requirements -----

  predicate AccessBefore(a: FilesystemAccess, b: FilesystemAccess) {
    (a == Read && b != Read) || (a == Write && b == Delete)
  }

  predicate OperationBefore(a: PluginOperation, b: PluginOperation) {
    (a == ManageState && b != ManageState) || (a == ManageLifecycle && b == DelegateCapabilities)
  }

  /** Relative targets first, then Unix ones, then Windows ones, each by text. */
  predicate TargetBefore(a: FilesystemPath, b: FilesystemPath) {
    match (a, b)
    case (ProjectRelative(p), ProjectRelative(q)) => StringLess(p, q)
    case (ProjectRelative(_), Absolute(_, _)) => true
    case (Absolute(_, _), ProjectRelative(_)) => false
    case (Absolute(pa, p), Absolute(pb, q)) => (pa == Unix && pb == Windows) || (pa == pb && StringLess(p, q))
  }

  function DestructiveIndex(operation: DestructiveOperation): nat {
    match operation
    case CancelAsyncJob => 0
    case RemoveAsyncJob => 1
    case RestoreProjectRecovery => 2
    case DismissProjectRecovery => 3
    case RemoveAudioAutomation => 4
  }

  /** Filesystem, then plugin, then destructive; within a kind the fields decide in declared order. */
  predicate DeclaredBefore(a: Requirement, b: Requirement) {
    match (a, b)
    case (FilesystemRequirement(access, target), FilesystemRequirement(otherAccess, otherTarget)) =>
      AccessBefore(access, otherAccess) || (access == otherAccess && TargetBefore(target, otherTarget))
    case (PluginRequirement(operation, id, names), PluginRequirement(otherOperation, otherId, otherNames)) =>
      || OperationBefore(operation, otherOperation)
      || (operation == otherOperation && StringLess(id, otherId))
      || (operation == otherOperation && id == otherId && KeyLess(names, otherNames))
    case (DestructiveRequirement(operation), DestructiveRequirement(other)) =>
      DestructiveIndex(operation) < DestructiveIndex(other)
    case (FilesystemRequirement(_, _), _) => true
    case (PluginRequirement(_, _, _), DestructiveRequirement(_)) => true
    case _ => false
  }

  lemma KeysByHead(a: seq<string>, b: seq<string>)
    requires a != [] && b != []
    ensures KeyLess(a, b) <==> StringLess(a[0], b[0]) || (a[0] == b[0] && KeyLess(a[1..], b[1..]))
  {
    assert a == [a[0]] + a[1..] && b == [b[0]] + b[1..];
    KeyLessByHead(a[0], a[1..], b[0], b[1..]);
  }

  lemma RanksByDigit(a: string, b: string)
    requires |a| == 1 && |b| == 1
    ensures StringLess(a, b) <==> a[0] < b[0]
    ensures a == b <==> a[0] == b[0]
  {
    assert a == [a[0]] && b == [b[0]];
    RankLess(a[0], b[0]);
  }

  lemma TargetOrder(a: FilesystemPath, b: FilesystemPath, x: seq<string>, y: seq<string>)
    requires x == RequirementKey(FilesystemRequirement(Read, a))[2..] && y == RequirementKey(FilesystemRequirement(Read, b))[2..]
    ensures KeyLess(x, y) <==> TargetBefore(a, b)
  {
    StringLessIsTotal();
    KeysByHead(x, y);
    RanksByDigit(x[0], y[0]);
    KeysByHead(x[1..], y[1..]);
    if a.Absolute? && b.Absolute? {
      RanksByDigit(x[1..][0], y[1..][0]);
      KeysByHead(x[1..][1..], y[1..][1..]);
    }
  }

  lemma FilesystemKey(q: Requirement)
    requires q.FilesystemRequirement?
    ensures var key := RequirementKey(q);
            && |key| >= 4 && key[0] == "0" && key[1..][0] == AccessRank(q.access)
            && key[1..][1..] == RequirementKey(FilesystemRequirement(Read, q.target))[2..]
  {
  }

  lemma FilesystemOrder(a: Requirement, b: Requirement)
    requires a.FilesystemRequirement? && b.FilesystemRequirement?
    ensures RequirementLess(a, b) <==> DeclaredBefore(a, b)
  {
    var x, y := RequirementKey(a), RequirementKey(b);
    KeysByHead(x, y);
    RanksByDigit(x[0], y[0]);
    KeysByHead(x[1..], y[1..]);
    RanksByDigit(x[1..][0], y[1..][0]);
    FilesystemKey(a);
    FilesystemKey(b);
    TargetOrder(a.target, b.target, x[1..][1..], y[1..][1..]);
  }

  lemma PluginOrder(a: Requirement, b: Requirement)
    requires a.PluginRequirement? && b.PluginRequirement?
    ensures RequirementLess(a, b) <==> DeclaredBefore(a, b)
  {
    var x, y := RequirementKey(a), RequirementKey(b);
    KeysByHead(x, y);
    RanksByDigit(x[0], y[0]);
    KeysByHead(x[1..], y[1..]);
    RanksByDigit(x[1..][0], y[1..][0]);
    KeysByHead(x[1..][1..], y[1..][1..]);
    assert x[1..][1..][1..] == a.delegatedCapabilities && y[1..][1..][1..] == b.delegatedCapabilities;
  }

  lemma DestructiveOrder(a: Requirement, b: Requirement)
    requires a.DestructiveRequirement? && b.DestructiveRequirement?
    ensures RequirementLess(a, b) <==> DeclaredBefore(a, b)
  {
    var x, y := RequirementKey(a), RequirementKey(b);
    KeysByHead(x, y);
    RanksByDigit(x[0], y[0]);
    KeysByHead(x[1..], y[1..]);
    RanksByDigit(x[1..][0], y[1..][0]);
    assert x[1..][1..] == [] && y[1..][1..] == [];
  }

  lemma OrderIsDeclared(a: Requirement, b: Requirement)
    ensures RequirementLess(a, b) <==> DeclaredBefore(a, b)
  {
    match (a, b) {
      case (FilesystemRequirement(_, _), FilesystemRequirement(_, _)) => FilesystemOrder(a, b);
      case (PluginRequirement(_, _, _), PluginRequirement(_, _, _)) => PluginOrder(a, b);
      case (DestructiveRequirement(_), DestructiveRequirement(_)) => DestructiveOrder(a, b);
      case _ =>
        var x, y := RequirementKey(a), RequirementKey(b);
        KeysByHead(x, y);
        RanksByDigit(x[0], y[0]);
    }
  }

  /** A requirement set is exactly a list of good requirements in strictly increasing declared order. */
  lemma RequirementSetsAreOrdered(requirements: seq<Requirement>)
    ensures ValidRequirements(requirements) <==>
            && (forall q :: q in requirements ==> GoodRequirement(q))
            && forall i, j :: 0 <= i < j < |requirements| ==> DeclaredBefore(requirements[i], requirements[j])
  {
    RequirementLessIsTotal();
    CollectFixesExactlySorted(RequirementLess, requirements);
    forall a, b ensures RequirementLess(a, b) <==> DeclaredBefore(a, b) {
      OrderIsDeclared(a, b);
    }
    forall q ensures ValidRequirement(q) <==> GoodRequirement(q) {
      RequirementAcceptedIff(q);
    }
    assert forall i :: 0 <= i < |requirements| ==> requirements[i] in requirements;
  }
}
