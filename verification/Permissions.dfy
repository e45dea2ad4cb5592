/** Typed requirements, allow and deny rules, and the deny-precedence evaluator. */
module Permissions {
  import opened Core
  import opened Orders
  import opened Text
  import opened Settings
  import opened Paths
  import opened PathLaws
  import opened Scopes

  datatype Effect = Allow | Deny

  datatype FilesystemAccess = Read | Write | Delete

  datatype PluginOperation = ManageState | ManageLifecycle | DelegateCapabilities

  datatype PluginScope = ExactPlugin(extensionId: string) | AllPlugins

  datatype DestructiveOperation =
    | CancelAsyncJob
    | RemoveAsyncJob
    | RestoreProjectRecovery
    | DismissProjectRecovery
    | RemoveAudioAutomation

  datatype Requirement =
    | FilesystemRequirement(access: FilesystemAccess, target: FilesystemPath)
    | PluginRequirement(operation: PluginOperation, extensionId: string, delegatedCapabilities: seq<string>)
    | DestructiveRequirement(destructive: DestructiveOperation)

  datatype Rule =
    | FilesystemRule(effect: Effect, access: FilesystemAccess, scope: FilesystemScope)
    | PluginRule(effect: Effect, operation: PluginOperation, plugins: PluginScope, ceiling: Option<seq<string>>)
    | DestructiveRule(effect: Effect, destructive: DestructiveOperation)

  // ----- Canonical capability lists -----

  predicate ValidCapabilities(capabilities: seq<string>) {
    forall i :: 0 <= i < |capabilities| ==> IsCanonicalName(capabilities[i])
  }

  function CanonicalCapabilities(capabilities: seq<string>): Result<seq<string>> {
    var values := Collect(StringLess, capabilities);
    if ValidCapabilities(values) then Ok(values) else Err(InvalidInput)
  }

  predicate AreCanonicalCapabilities(capabilities: seq<string>) {
    ValidCapabilities(capabilities) && Collect(StringLess, capabilities) == capabilities
  }

  predicate ContainsAll(ceiling: seq<string>, required: seq<string>) {
    forall i :: 0 <= i < |required| ==> BinarySearch(StringLess, ceiling, required[i])
  }

  lemma ContainsAllIsSubset(ceiling: seq<string>, required: seq<string>)
    requires AreCanonicalCapabilities(ceiling)
    ensures ContainsAll(ceiling, required) <==> forall c :: c in required ==> c in ceiling
  {
    StringLessIsTotal();
    CollectFixesExactlySorted(StringLess, ceiling);
    forall c ensures BinarySearch(StringLess, ceiling, c) <==> c in ceiling {
      BinarySearchIsMembership(StringLess, ceiling, c);
    }
  }

  // ----- Canonical requirement sets -----

  /** Fields in declaration order, each rendered so that string order is the derived order. */
  function RequirementKey(requirement: Requirement): seq<string> {
    match requirement
    case FilesystemRequirement(access, ProjectRelative(path)) => ["0", AccessRank(access), "0", path]
    case FilesystemRequirement(access, Absolute(platform, path)) =>
      ["0", AccessRank(access), "1", if platform == Unix then "0" else "1", path]
    case PluginRequirement(operation, extensionId, capabilities) =>
      ["1", PluginRank(operation), extensionId] + capabilities
    case DestructiveRequirement(operation) => ["2", DestructiveRank(operation)]
  }

  function AccessRank(access: FilesystemAccess): string {
    match access case Read => "0" case Write => "1" case Delete => "2"
  }

  function PluginRank(operation: PluginOperation): string {
    match operation case ManageState => "0" case ManageLifecycle => "1" case DelegateCapabilities => "2"
  }

  function DestructiveRank(operation: DestructiveOperation): string {
    match operation
    case CancelAsyncJob => "0"
    case RemoveAsyncJob => "1"
    case RestoreProjectRecovery => "2"
    case DismissProjectRecovery => "3"
    case RemoveAudioAutomation => "4"
  }

  predicate RequirementLess(a: Requirement, b: Requirement) {
    KeyLess(RequirementKey(a), RequirementKey(b))
  }

  lemma RequirementKeyIsInjective(a: Requirement, b: Requirement)
    requires RequirementKey(a) == RequirementKey(b)
    ensures a == b
  {
    var x, y := RequirementKey(a), RequirementKey(b);
    assert x[0] == y[0] && x[1] == y[1];
    if a.FilesystemRequirement? {
      assert x[2] == y[2] && x[3] == y[3] && x[|x| - 1] == y[|y| - 1];
    } else if a.PluginRequirement? {
      assert x[2] == y[2] && x[3..] == a.delegatedCapabilities && y[3..] == b.delegatedCapabilities;
    }
  }

  lemma RequirementLessIsTotal()
    ensures StrictTotalOrder(RequirementLess)
  {
    KeyLessIsTotal();
    forall a, b ensures a == b || RequirementLess(a, b) || RequirementLess(b, a) {
      if RequirementKey(a) == RequirementKey(b) {
        RequirementKeyIsInjective(a, b);
      }
    }
  }

  predicate ValidRequirement(requirement: Requirement) {
    match requirement
    case FilesystemRequirement(_, target) => ValidPath(target)
    case PluginRequirement(operation, extensionId, capabilities) =>
      && IsCanonicalName(extensionId)
      && AreCanonicalCapabilities(capabilities)
      && (operation == DelegateCapabilities || capabilities == [])
    case DestructiveRequirement(_) => true
  }

  function NewRequirements(requirements: seq<Requirement>): Result<seq<Requirement>> {
    var canonical := Collect(RequirementLess, requirements);
    if forall i :: 0 <= i < |canonical| ==> ValidRequirement(canonical[i]) then Ok(canonical) else Err(InvalidInput)
  }

  predicate ValidRequirements(requirements: seq<Requirement>) {
    NewRequirements(requirements) == Ok(requirements)
  }

  /** The order and multiplicity in which requirements are collected never matter. */
  lemma RequirementsIgnoreOrderAndRepeats(a: seq<Requirement>, b: seq<Requirement>)
    requires forall x :: x in a <==> x in b
    ensures NewRequirements(a) == NewRequirements(b)
  {
    RequirementLessIsTotal();
    CollectIgnoresOrderAndRepeats(RequirementLess, a, b);
  }

  /** A built set passes its own validation, and is built exactly when every member is valid. */
  lemma BuiltRequirementsAreValid(requirements: seq<Requirement>)
    ensures NewRequirements(requirements).Ok? <==> forall x :: x in requirements ==> ValidRequirement(x)
    ensures NewRequirements(requirements).Ok? ==>
              ValidRequirements(NewRequirements(requirements).value)
              && forall x :: x in NewRequirements(requirements).value <==> x in requirements
  {
    RequirementLessIsTotal();
    var canonical := Collect(RequirementLess, requirements);
    CollectIsSorted(RequirementLess, requirements);
    CollectFixesExactlySorted(RequirementLess, canonical);
    assert forall x :: x in canonical <==> x in requirements;
  }

  function NewPluginRequirement(operation: PluginOperation, extensionId: string): Result<Requirement> {
    if operation == DelegateCapabilities || !IsCanonicalName(extensionId) then Err(InvalidInput)
    else Ok(PluginRequirement(operation, extensionId, []))
  }

  function NewPluginDelegation(extensionId: string, capabilities: seq<string>): Result<Requirement> {
    if !IsCanonicalName(extensionId) then Err(InvalidInput)
    else
      var delegated :- CanonicalCapabilities(capabilities);
      Ok(PluginRequirement(DelegateCapabilities, extensionId, delegated))
  }

  lemma CollectedCapabilitiesAreCanonical(capabilities: seq<string>)
    ensures CanonicalCapabilities(capabilities).Ok? ==> AreCanonicalCapabilities(CanonicalCapabilities(capabilities).value)
  {
    StringLessIsTotal();
    var values := Collect(StringLess, capabilities);
    CollectIsSorted(StringLess, capabilities);
    CollectFixesExactlySorted(StringLess, values);
  }

  lemma BuiltPluginRequirementIsValid(operation: PluginOperation, extensionId: string, capabilities: seq<string>)
    ensures NewPluginRequirement(operation, extensionId).Ok? ==>
              ValidRequirement(NewPluginRequirement(operation, extensionId).value)
    ensures NewPluginDelegation(extensionId, capabilities).Ok? ==>
              ValidRequirement(NewPluginDelegation(extensionId, capabilities).value)
  {
    CollectedCapabilitiesAreCanonical(capabilities);
  }

  /**
   * Every requirement constructor yields one that validates: plugin operations and delegations by their
   * own checks, destructive operations always, and filesystem access exactly for a valid target, which
   * every path constructor builds.
   */
  lemma BuiltRequirementIsValid(
    operation: PluginOperation, extensionId: string, capabilities: seq<string>, destructive: DestructiveOperation,
    access: FilesystemAccess, target: FilesystemPath, platform: Platform, text: string)
    ensures NewPluginRequirement(operation, extensionId).Ok? ==>
              ValidRequirement(NewPluginRequirement(operation, extensionId).value)
    ensures NewPluginDelegation(extensionId, capabilities).Ok? ==>
              ValidRequirement(NewPluginDelegation(extensionId, capabilities).value)
    ensures ValidRequirement(DestructiveRequirement(destructive))
    ensures ValidRequirement(FilesystemRequirement(access, target)) <==> ValidPath(target)
    ensures Ok(target) in {NewProjectRelative(text), NewAbsolute(platform, text), NewNative(platform, text)} ==>
              ValidPath(target)
  {
    BuiltPluginRequirementIsValid(operation, extensionId, capabilities);
    ConstructorsBuildValidPaths(platform, text);
  }

  // ----- Rules -----

  predicate ValidPluginScope(scope: PluginScope) {
    scope.ExactPlugin? ==> IsCanonicalName(scope.extensionId)
  }

  predicate ValidRule(rule: Rule) {
    match rule
    case FilesystemRule(_, _, scope) => ValidScope(scope)
    case PluginRule(effect, operation, plugins, ceiling) =>
      && ValidPluginScope(plugins)
      && (ceiling.Some? ==> AreCanonicalCapabilities(ceiling.value))
      && (if operation == DelegateCapabilities then effect == Deny || ceiling.Some? else ceiling.None?)
    case DestructiveRule(_, _) => true
  }

  function NewPluginRule(effect: Effect, operation: PluginOperation, plugins: PluginScope): Result<Rule> {
    if operation == DelegateCapabilities || !ValidPluginScope(plugins) then Err(InvalidInput)
    else Ok(PluginRule(effect, operation, plugins, None))
  }

  function NewPluginDelegationRule(effect: Effect, plugins: PluginScope, capabilities: seq<string>): Result<Rule> {
    if !ValidPluginScope(plugins) then Err(InvalidInput)
    else
      var ceiling :- CanonicalCapabilities(capabilities);
      Ok(PluginRule(effect, DelegateCapabilities, plugins, Some(ceiling)))
  }

  function DenyAllPluginDelegation(plugins: PluginScope): Result<Rule> {
    if !ValidPluginScope(plugins) then Err(InvalidInput)
    else Ok(PluginRule(Deny, DelegateCapabilities, plugins, None))
  }

  predicate PluginScopeMatches(scope: PluginScope, extensionId: string) {
    scope.ExactPlugin? ==> scope.extensionId == extensionId
  }

  function Matches(rule: Rule, requirement: Requirement): Result<bool> {
    match (rule, requirement)
    case (FilesystemRule(_, access, scope), FilesystemRequirement(required, target)) =>
      if access != required then Ok(false) else ScopeMatches(scope, target)
    case (PluginRule(effect, operation, plugins, ceiling), PluginRequirement(required, extensionId, delegated)) =>
      if operation != required || !PluginScopeMatches(plugins, extensionId) then Ok(false)
      else if operation != DelegateCapabilities then Ok(true)
      else if ceiling.None? then Ok(effect == Deny)
      else Ok(ContainsAll(ceiling.value, delegated))
    case (DestructiveRule(_, operation), DestructiveRequirement(required)) => Ok(operation == required)
    case _ => Ok(false)
  }

  /** What one valid rule covers, said without paths being parsed or lists being searched. */
  ghost predicate Applies(rule: Rule, requirement: Requirement) {
    match (rule, requirement)
    case (FilesystemRule(_, access, Exact(path)), FilesystemRequirement(required, target)) =>
      access == required && target == path
    case (FilesystemRule(_, access, Recursive(root)), FilesystemRequirement(required, target)) =>
      access == required && AtOrBelow(root, target)
    case (PluginRule(effect, operation, plugins, ceiling), PluginRequirement(required, extensionId, delegated)) =>
      && operation == required
      && (plugins == AllPlugins || plugins == ExactPlugin(extensionId))
      && (operation == DelegateCapabilities ==>
            if ceiling.None? then effect == Deny else forall c :: c in delegated ==> c in ceiling.value)
    case (DestructiveRule(_, operation), DestructiveRequirement(required)) => operation == required
    case _ => false
  }

  lemma MatchingIsApplying(rule: Rule, requirement: Requirement)
    requires ValidRule(rule) && ValidRequirement(requirement)
    ensures Matches(rule, requirement) == Ok(Applies(rule, requirement))
  {
    match (rule, requirement) {
      case (FilesystemRule(_, access, scope), FilesystemRequirement(required, target)) =>
        MatchingIsBoundaryPrefix(scope, target);
      case (PluginRule(effect, operation, plugins, ceiling), PluginRequirement(required, extensionId, delegated)) =>
        if ceiling.Some? {
          ContainsAllIsSubset(ceiling.value, delegated);
        }
      case _ =>
    }
  }

  // ----- Contexts and decisions -----

  datatype PermissionContext = PermissionContext(principal: string, rules: seq<Rule>)

  predicate ValidContext(context: PermissionContext) {
    IsCanonicalName(context.principal) && forall i :: 0 <= i < |context.rules| ==> ValidRule(context.rules[i])
  }

  function NewContext(principal: string, rules: seq<Rule>): Result<PermissionContext> {
    var context := PermissionContext(principal, rules);
    if ValidContext(context) then Ok(context) else Err(InvalidInput)
  }

  ghost predicate SomeRule(rules: seq<Rule>, effect: Effect, requirement: Requirement) {
    exists rule :: rule in rules && rule.effect == effect && Applies(rule, requirement)
  }

  /** Some rule allows it and no rule denies it. */
  ghost predicate Granted(rules: seq<Rule>, requirement: Requirement) {
    SomeRule(rules, Allow, requirement) && !SomeRule(rules, Deny, requirement)
  }

  ghost predicate AllGranted(rules: seq<Rule>, requirements: seq<Requirement>) {
    forall requirement :: requirement in requirements ==> Granted(rules, requirement)
  }

  /** The decision an authorization must reach, stated declaratively. */
  ghost function Decision(context: PermissionContext, requirements: seq<Requirement>): Result<()> {
    if !ValidRequirements(requirements) then Err(InvalidInput)
    else if AllGranted(context.rules, requirements) then Ok(())
    else Err(PermissionDenied)
  }

  lemma OneMoreRule(rules: seq<Rule>, j: nat, effect: Effect, requirement: Requirement)
    requires j < |rules|
    ensures SomeRule(rules[..j + 1], effect, requirement) <==>
            SomeRule(rules[..j], effect, requirement) || (rules[j].effect == effect && Applies(rules[j], requirement))
  {
    assert rules[..j + 1] == rules[..j] + [rules[j]];
    assert rules[j] in rules[..j + 1];
  }

  /** The inner loop over all rules for one requirement, leaving at the first denial. */
  method Evaluate(rules: seq<Rule>, requirement: Requirement) returns (granted: bool)
    requires forall i :: 0 <= i < |rules| ==> ValidRule(rules[i])
    requires ValidRequirement(requirement)
    ensures granted <==> Granted(rules, requirement)
  {
    var allowed := false;
    for j := 0 to |rules|
      invariant allowed <==> SomeRule(rules[..j], Allow, requirement)
      invariant !SomeRule(rules[..j], Deny, requirement)
    {
      var rule := rules[j];
      OneMoreRule(rules, j, Allow, requirement);
      OneMoreRule(rules, j, Deny, requirement);
      MatchingIsApplying(rule, requirement);
      match Matches(rule, requirement) {
        case Err(_) => assert false;
        case Ok(covered) => if !covered { continue; }
      }
      match rule.effect {
        case Deny =>
          assert rule in rules;
          return false;
        case Allow => allowed := true;
      }
    }
    assert rules[..|rules|] == rules;
    return allowed;
  }

  /** The outer loop over all requirements, leaving at the first that is denied or not covered. */
  method EvaluateAll(rules: seq<Rule>, requirements: seq<Requirement>) returns (granted: bool)
    requires forall i :: 0 <= i < |rules| ==> ValidRule(rules[i])
    requires forall i :: 0 <= i < |requirements| ==> ValidRequirement(requirements[i])
    ensures granted <==> AllGranted(rules, requirements)
  {
    for i := 0 to |requirements|
      invariant forall k :: 0 <= k < i ==> Granted(rules, requirements[k])
    {
      var one := Evaluate(rules, requirements[i]);
      if !one {
        assert requirements[i] in requirements;
        return false;
      }
    }
    return true;
  }

  /** Canonical requirements are evaluated in turn, anything else is refused before evaluation. */
  method Authorize(context: PermissionContext, requirements: seq<Requirement>) returns (r: Result<()>)
    requires ValidContext(context)
    ensures r == Decision(context, requirements)
  {
    var canonical := ValidRequirements(requirements);
    if !canonical {
      return Err(InvalidInput);
    }
    ValidSetsHaveValidMembers(requirements);
    var granted := EvaluateAll(context.rules, requirements);
    return if granted then Ok(()) else Err(PermissionDenied);
  }

  lemma ValidSetsHaveValidMembers(requirements: seq<Requirement>)
    requires ValidRequirements(requirements)
    ensures forall i :: 0 <= i < |requirements| ==> ValidRequirement(requirements[i])
  {
    BuiltRequirementsAreValid(requirements);
    forall i | 0 <= i < |requirements| ensures ValidRequirement(requirements[i]) {
      assert requirements[i] in requirements;
    }
  }

  /** With inputs from the constructors, authorization fails only by denial, and exactly when one is not granted. */
  lemma BuiltInputsAreDecided(principal: string, rules: seq<Rule>, given: seq<Requirement>)
    requires NewContext(principal, rules).Ok? && NewRequirements(given).Ok?
    ensures ValidContext(NewContext(principal, rules).value)
    ensures Decision(NewContext(principal, rules).value, NewRequirements(given).value)
            == if AllGranted(rules, given) then Ok(()) else Err(PermissionDenied)
  {
    BuiltRequirementsAreValid(given);
    var built := NewRequirements(given).value;
    assert forall x :: x in built <==> x in given;
    assert AllGranted(rules, built) <==> AllGranted(rules, given);
  }

  // ----- What decisions do not depend on -----

  /** Permuting or repeating rules, or the inputs that requirements are built from, changes no decision. */
  lemma DecisionIgnoresOrder(a: PermissionContext, b: PermissionContext, x: seq<Requirement>, y: seq<Requirement>)
    requires forall rule :: rule in a.rules <==> rule in b.rules
    requires forall q :: q in x <==> q in y
    requires NewRequirements(x).Ok?
    ensures NewRequirements(y).Ok?
    ensures Decision(a, NewRequirements(x).value) == Decision(b, NewRequirements(y).value)
  {
    RequirementsIgnoreOrderAndRepeats(x, y);
    forall q ensures Granted(a.rules, q) <==> Granted(b.rules, q) {
    }
  }

  /** Adding an allow rule anywhere never revokes, and adding a deny rule anywhere never grants. */
  lemma RulesAreMonotone(principal: string, before: seq<Rule>, rule: Rule, after: seq<Rule>, q: seq<Requirement>)
    ensures var less := Decision(PermissionContext(principal, before + after), q);
            var more := Decision(PermissionContext(principal, before + [rule] + after), q);
            && (rule.effect == Allow && less.Ok? ==> more.Ok?)
            && (rule.effect == Deny && more.Ok? ==> less.Ok?)
  {
    var small, large := before + after, before + [rule] + after;
    assert forall r :: r in large <==> r in small || r == rule;
    forall requirement
      ensures rule.effect == Allow && Granted(small, requirement) ==> Granted(large, requirement)
      ensures rule.effect == Deny && Granted(large, requirement) ==> Granted(small, requirement)
    {
    }
  }

  /** A set is granted exactly when each of its members is granted alone. */
  lemma DecisionSplits(context: PermissionContext, x: seq<Requirement>, y: seq<Requirement>)
    ensures AllGranted(context.rules, x + y) <==> AllGranted(context.rules, x) && AllGranted(context.rules, y)
  {
    assert forall q :: q in x + y <==> q in x || q in y;
  }

  /** With no rules, exactly the empty requirement set is granted. */
  lemma DefaultDeniesEverything(context: PermissionContext, requirements: seq<Requirement>)
    requires context.rules == [] && ValidRequirements(requirements)
    ensures Decision(context, requirements).Ok? <==> requirements == []
  {
    if requirements != [] {
      assert requirements[0] in requirements;
    }
  }

  // ----- Shrinking a delegation -----

  function Delegation(extensionId: string, capabilities: seq<string>): Requirement {
    PluginRequirement(DelegateCapabilities, extensionId, capabilities)
  }

  /** A deny rule with a ceiling for delegations by this plugin. */
  predicate DeniesBelowCeiling(rule: Rule, extensionId: string) {
    && rule.PluginRule? && rule.effect == Deny && rule.operation == DelegateCapabilities
    && PluginScopeMatches(rule.plugins, extensionId) && rule.ceiling.Some?
  }

  predicate SubsetOf(small: seq<string>, large: seq<string>) {
    forall c :: c in small ==> c in large
  }

  /**
   * Asking for fewer capabilities than were granted stays granted exactly when no deny rule for the
   * plugin has a ceiling that holds everything still asked for.
   */
  lemma ShrinkingKeepsGrantIff(rules: seq<Rule>, extensionId: string, large: seq<string>, small: seq<string>)
    requires SubsetOf(small, large) && Granted(rules, Delegation(extensionId, large))
    ensures Granted(rules, Delegation(extensionId, small)) <==>
            forall rule :: rule in rules && DeniesBelowCeiling(rule, extensionId) ==> !SubsetOf(small, rule.ceiling.value)
  {
    forall rule | rule in rules
      ensures rule.effect == Allow && Applies(rule, Delegation(extensionId, large)) ==>
                Applies(rule, Delegation(extensionId, small))
      ensures rule.effect == Deny ==>
                (Applies(rule, Delegation(extensionId, small)) <==>
                 DeniesBelowCeiling(rule, extensionId) && SubsetOf(small, rule.ceiling.value))
    {
      assert rule.effect == Deny ==> !Applies(rule, Delegation(extensionId, large));
    }
  }

  /** Every canonical subset of a granted canonical delegation of this plugin is granted too. */
  ghost predicate ClosedUnderShrinking(rules: seq<Rule>, extensionId: string) {
    forall large, small ::
      AreCanonicalCapabilities(large) && AreCanonicalCapabilities(small) && SubsetOf(small, large)
      && Granted(rules, Delegation(extensionId, large))
      ==> Granted(rules, Delegation(extensionId, small))
  }

  /** Where anything is granted, grants are closed under shrinking exactly without deny ceilings. */
  lemma GrantsShrinkIffNoDenyCeiling(rules: seq<Rule>, extensionId: string, granted: seq<string>)
    requires AreCanonicalCapabilities(granted) && Granted(rules, Delegation(extensionId, granted))
    ensures ClosedUnderShrinking(rules, extensionId) <==>
            forall rule :: rule in rules ==> !DeniesBelowCeiling(rule, extensionId)
  {
    assert AreCanonicalCapabilities([]);
    ShrinkingKeepsGrantIff(rules, extensionId, granted, []);
    forall large, small | SubsetOf(small, large) && Granted(rules, Delegation(extensionId, large))
      ensures (forall rule :: rule in rules ==> !DeniesBelowCeiling(rule, extensionId)) ==>
                Granted(rules, Delegation(extensionId, small))
    {
      ShrinkingKeepsGrantIff(rules, extensionId, large, small);
    }
  }

  lemma OneRequirementIsDecided(context: PermissionContext, requirement: Requirement)
    requires ValidRequirement(requirement)
    ensures ValidRequirements([requirement])
    ensures Decision(context, [requirement]) ==
            if Granted(context.rules, requirement) then Ok(()) else Err(PermissionDenied)
  {
    assert [requirement][..0] == [];
    assert Collect(RequirementLess, [requirement][..0]) == [];
    assert Collect(RequirementLess, [requirement]) == [requirement];
    assert AllGranted(context.rules, [requirement]) <==> Granted(context.rules, requirement);
  }

  lemma LetterPairIsCanonicalName(a: char, b: char)
    requires IsAsciiLower(a) && IsAsciiLower(b)
    ensures IsCanonicalName([a, '.', b])
  {
    SplitOfJoin([[a], [b]], '.');
    assert Join([[a], [b]], '.') == [a] + ['.'] + Join([[b]], '.');
    assert Join([[a], [b]], '.') == [a, '.', b];
  }

  lemma LaterNameIsLess(a: char, b: char, c: char)
    requires b < c
    ensures StringLess([a, '.', b], [a, '.', c])
  {
    assert LexLess(CharLess, [b], [c]);
    assert LexLess(CharLess, ['.', b], ['.', c]) by {
      assert ['.', b][1..] == [b] && ['.', c][1..] == [c];
    }
    assert [a, '.', b][1..] == ['.', b] && [a, '.', c][1..] == ['.', c];
  }

  lemma SampleNames()
    ensures IsCanonicalName("x.y") && IsCanonicalName("a.b") && IsCanonicalName("a.c")
    ensures AreCanonicalCapabilities(["a.b"]) && AreCanonicalCapabilities(["a.b", "a.c"])
  {
    LetterPairIsCanonicalName('x', 'y');
    LetterPairIsCanonicalName('a', 'b');
    LetterPairIsCanonicalName('a', 'c');
    LaterNameIsLess('a', 'b', 'c');
    StringLessIsTotal();
    CollectFixesExactlySorted(StringLess, ["a.b"]);
    CollectFixesExactlySorted(StringLess, ["a.b", "a.c"]);
  }

  /** Delegation allowed below one ceiling and denied below another, for every plugin. */
  function TwoCeilings(principal: string, allowed: seq<string>, denied: seq<string>): PermissionContext {
    PermissionContext(principal, [
      PluginRule(Allow, DelegateCapabilities, AllPlugins, Some(allowed)),
      PluginRule(Deny, DelegateCapabilities, AllPlugins, Some(denied))])
  }

  lemma TwoCeilingsDecide(context: PermissionContext, id: string, allowed: seq<string>, denied: seq<string>, asked: seq<string>)
    requires context == TwoCeilings(context.principal, allowed, denied)
    ensures Granted(context.rules, Delegation(id, asked)) <==> SubsetOf(asked, allowed) && !SubsetOf(asked, denied)
  {
    assert context.rules[0] in context.rules && context.rules[1] in context.rules;
    assert Applies(context.rules[0], Delegation(id, asked)) <==> SubsetOf(asked, allowed);
    assert Applies(context.rules[1], Delegation(id, asked)) <==> SubsetOf(asked, denied);
  }

  /** The context grants a valid delegation to one plugin and denies a smaller valid one. */
  ghost predicate CutByShrinking(context: PermissionContext, id: string, large: seq<string>, small: seq<string>) {
    && ValidContext(context) && SubsetOf(small, large)
    && ValidRequirements([Delegation(id, large)]) && ValidRequirements([Delegation(id, small)])
    && Decision(context, [Delegation(id, large)]) == Ok(())
    && Decision(context, [Delegation(id, small)]) == Err(PermissionDenied)
  }

  lemma TwoCeilingsCut(principal: string, id: string, first: string, second: string)
    requires IsCanonicalName(principal) && IsCanonicalName(id) && first != second
    requires AreCanonicalCapabilities([first]) && AreCanonicalCapabilities([first, second])
    ensures CutByShrinking(TwoCeilings(principal, [first, second], [first]), id, [first, second], [first])
  {
    var context, large, small := TwoCeilings(principal, [first, second], [first]), [first, second], [first];
    assert second in large && second !in small;
    TwoCeilingsDecide(context, id, large, small, large);
    TwoCeilingsDecide(context, id, large, small, small);
    OneRequirementIsDecided(context, Delegation(id, large));
    OneRequirementIsDecided(context, Delegation(id, small));
  }

  /** Such contexts exist: a concrete one, with concrete requests. */
  lemma ShrinkingDelegationCanDeny() returns (context: PermissionContext, id: string, large: seq<string>, small: seq<string>)
    ensures CutByShrinking(context, id, large, small)
  {
    SampleNames();
    var first, second := "a.b", "a.c";
    id, large, small := "x.y", [first, second], [first];
    context := TwoCeilings(id, large, small);
    TwoCeilingsCut(id, id, first, second);
  }

  /**
   * A recursive allow rule, undisturbed by deny rules for the same access, grants every target that an
   * accepted relative path names below its root, `..` segments included.
   */
  lemma RecursiveAllowGrantsDescendants(
    rules: seq<Rule>, access: FilesystemAccess, root: FilesystemPath, relative: string, target: FilesystemPath)
    requires FilesystemRule(Allow, access, Recursive(root)) in rules && ValidPath(root)
    requires forall rule :: rule in rules && rule.FilesystemRule? && rule.access == access ==> rule.effect == Allow
    requires RelativeComponents(relative).Ok?
    requires Normalized(Extend(root, relative)).Ok? ==>
               target == Extend(root, relative).(path := Normalized(Extend(root, relative)).value.canonical)
    ensures Normalized(Extend(root, relative)).Ok? && ValidPath(target)
    ensures Granted(rules, FilesystemRequirement(access, target))
  {
    var n := Normalized(root).value;
    Containment(root, n, relative, RelativeComponents(relative).value);
    var child := Extend(root, relative);
    CanonicalIsFixed(child, Normalized(child).value);
    var rule, requirement := FilesystemRule(Allow, access, Recursive(root)), FilesystemRequirement(access, target);
    assert Normalized(target) == Normalized(child);
    MatchingIsApplying(rule, requirement);
    assert Applies(rule, requirement);
    assert forall other :: other in rules && other.effect == Deny ==> !Applies(other, requirement);
  }
}
