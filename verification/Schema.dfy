/** Construction of the canonical public API catalog. */
module Schema {
  import opened Core
  import opened Orders
  import opened Settings
  import opened Paths
  import opened Permissions

  const STABLE_PRIMITIVE_SCHEMA_REVISION: u32 := 1

  datatype SchemaReference = SchemaReference(name: string, version: SemanticVersion, primitiveRevision: u32)

  datatype RequirementMode = NoRequirement | Static | PayloadDependent

  datatype PermissionKind = Filesystem | Plugin | Destructive

  datatype MethodPermission = MethodPermission(mode: RequirementMode, kinds: seq<PermissionKind>)

  /** A catalog entry: its permanent name and the rest of its descriptor. */
  datatype Named<+B> = Named(name: string, body: B)

  datatype MethodBody = MethodBody(request: SchemaReference, response: SchemaReference, permission: MethodPermission)

  type MethodSchema = Named<MethodBody>
  type PayloadSchema = Named<SchemaReference>

  // ----- The vocabularies that every snapshot must repeat unchanged -----

  datatype CategoryCode =
    | InvalidInputCode | NotFoundCode | ConflictCode | UnsupportedCode | PermissionDeniedCode
    | ResourceExhaustedCode | UnavailableCode | TimeoutCode | CancelledCode | CorruptDataCode | InternalCode

  datatype RecoverabilityCode = Retryable | Degraded | UserCorrectable | Terminal

  datatype AvailabilityCode = Available | Disabled | Unsupported | Unavailable

  datatype ErrorVocabulary = ErrorVocabulary(
    schema: SchemaReference, applicationCode: int, categories: seq<CategoryCode>,
    recoverabilities: seq<RecoverabilityCode>, contextFieldPolicy: string)

  datatype CapabilityVocabulary = CapabilityVocabulary(
    schema: SchemaReference, capabilityId: string, semanticVersion: string,
    availability: seq<AvailabilityCode>, requiredCapabilities: string)

  datatype PermissionVocabulary = PermissionVocabulary(
    schema: SchemaReference, modes: seq<RequirementMode>, kinds: seq<PermissionKind>, effects: seq<Effect>,
    accesses: seq<FilesystemAccess>, platforms: seq<Platform>, pathKinds: seq<string>, scopeKinds: seq<string>,
    pluginOperations: seq<PluginOperation>, pluginScopeKinds: seq<string>,
    destructiveOperations: seq<DestructiveOperation>)

  datatype Preamble = Preamble(
    schemaVersion: SemanticVersion, primitiveRevision: u32, jsonRpcVersion: string,
    error: ErrorVocabulary, capability: CapabilityVocabulary, permission: PermissionVocabulary)

  const PUBLIC_API_VERSION: SemanticVersion := Release(1, 9, 0)

  const CURRENT_ERRORS: ErrorVocabulary :=
    ErrorVocabulary(
      SchemaReference("superi.api.error", Release(1, 0, 0), STABLE_PRIMITIVE_SCHEMA_REVISION), -32000,
      [ InvalidInputCode, NotFoundCode, ConflictCode, UnsupportedCode, PermissionDeniedCode, ResourceExhaustedCode,
        UnavailableCode, TimeoutCode, CancelledCode, CorruptDataCode, InternalCode ],
      [Retryable, Degraded, UserCorrectable, Terminal], "user_safe_only")

  const CURRENT_CAPABILITIES: CapabilityVocabulary :=
    CapabilityVocabulary(
      SchemaReference("superi.api.capability", PUBLIC_API_VERSION, STABLE_PRIMITIVE_SCHEMA_REVISION),
      "superi.core.capability_id", "superi.core.semantic_version",
      [Available, Disabled, Unsupported, Unavailable], "superi.core.capability_set")

  const CURRENT_PERMISSIONS: PermissionVocabulary :=
    PermissionVocabulary(
      SchemaReference("superi.api.permission", PUBLIC_API_VERSION, STABLE_PRIMITIVE_SCHEMA_REVISION),
      [NoRequirement, Static, PayloadDependent], [Filesystem, Plugin, Destructive], [Allow, Deny],
      [Read, Write, Delete], [Unix, Windows], ["project_relative", "absolute"], ["exact", "recursive"],
      [ManageState, ManageLifecycle, DelegateCapabilities], ["exact", "all"],
      [ CancelAsyncJob, RemoveAsyncJob, RestoreProjectRecovery, DismissProjectRecovery, RemoveAudioAutomation ])

  const CURRENT: Preamble :=
    Preamble(PUBLIC_API_VERSION, STABLE_PRIMITIVE_SCHEMA_REVISION, "2.0",
             CURRENT_ERRORS, CURRENT_CAPABILITIES, CURRENT_PERMISSIONS)

  datatype Catalog = Catalog(
    preamble: Preamble,
    commands: seq<MethodSchema>,
    queries: seq<MethodSchema>,
    events: seq<PayloadSchema>,
    resources: seq<PayloadSchema>)

  predicate ValidReference(r: SchemaReference) {
    IsCanonicalName(r.name) && r.primitiveRevision == STABLE_PRIMITIVE_SCHEMA_REVISION
  }

  function KindRank(kind: PermissionKind): nat {
    match kind case Filesystem => 0 case Plugin => 1 case Destructive => 2
  }

  predicate KindLess(a: PermissionKind, b: PermissionKind) {
    KindRank(a) < KindRank(b)
  }

  predicate ValidPermission(p: MethodPermission) {
    Collect(KindLess, p.kinds) == p.kinds && (p.mode == NoRequirement <==> p.kinds == [])
  }

  /** Accepted kind lists are exactly the ordered ones, so a set of kinds has one spelling. */
  lemma ValidPermissionIsOrdered(p: MethodPermission)
    ensures ValidPermission(p) <==> Sorted(KindLess, p.kinds) && (p.mode == NoRequirement <==> p.kinds == [])
  {
    assert StrictTotalOrder(KindLess);
    CollectFixesExactlySorted(KindLess, p.kinds);
  }

  predicate ValidMethod(m: MethodSchema) {
    && IsCanonicalName(m.name)
    && ValidReference(m.body.request) && ValidReference(m.body.response) && ValidPermission(m.body.permission)
  }

  predicate ValidPayload(p: PayloadSchema) {
    IsCanonicalName(p.name) && ValidReference(p.body)
  }

  predicate AllMethods(s: seq<MethodSchema>) {
    forall m :: m in s ==> ValidMethod(m)
  }

  predicate AllPayloads(s: seq<PayloadSchema>) {
    forall p :: p in s ==> ValidPayload(p)
  }

  function NamesOf<B>(s: seq<Named<B>>): (names: seq<string>) {
    if s == [] then [] else [s[0].name] + NamesOf(s[1..])
  }

  predicate NoRepeats<T(==)>(s: seq<T>) {
    forall i, j :: 0 <= i < j < |s| ==> s[i] != s[j]
  }

  predicate NameLess<B>(a: Named<B>, b: Named<B>) {
    StringLess(a.name, b.name)
  }

  function SortByName<B>(s: seq<Named<B>>): (r: seq<Named<B>>)
    ensures multiset(r) == multiset(s)
  {
    SortStable(NameLess, s)
  }

  /** What acceptance means for the descriptors, whatever order they are given in. */
  predicate Acceptable(c: Catalog) {
    && c.preamble == CURRENT
    && AllMethods(c.commands) && AllMethods(c.queries) && AllPayloads(c.events) && AllPayloads(c.resources)
    && NoRepeats(NamesOf(c.commands + c.queries)) && NoRepeats(NamesOf(c.events)) && NoRepeats(NamesOf(c.resources))
  }

  function SortedCatalog(c: Catalog): Catalog {
    Catalog(c.preamble, SortByName(c.commands), SortByName(c.queries), SortByName(c.events), SortByName(c.resources))
  }

  function NewCatalog(given: Catalog): Result<Catalog> {
    if Acceptable(given) then Ok(SortedCatalog(given)) else Err(InvalidInput)
  }

  /** The duplicate check with a growing set of names already seen. */
  method RejectDuplicateNames(names: seq<string>) returns (distinct: bool)
    ensures distinct <==> NoRepeats(names)
  {
    var seen: set<string> := {};
    for i := 0 to |names|
      invariant NoRepeats(names[..i])
      invariant forall name :: name in seen <==> name in names[..i]
    {
      if names[i] in seen {
        assert exists k :: 0 <= k < i && names[k] == names[i];
        return false;
      }
      seen := seen + {names[i]};
    }
    assert names[..|names|] == names;
    return true;
  }

  /** Validates, sorts each list by name, then looks for duplicates within and across the lists. */
  method TryNew(given: Catalog) returns (r: Result<Catalog>)
    ensures r == NewCatalog(given)
  {
    var p := given.preamble;
    if p.schemaVersion != CURRENT.schemaVersion || p.primitiveRevision != CURRENT.primitiveRevision
       || p.jsonRpcVersion != CURRENT.jsonRpcVersion {
      return Err(InvalidInput);
    }
    if !AllMethods(given.commands) || !AllMethods(given.queries)
       || !AllPayloads(given.events) || !AllPayloads(given.resources) {
      return Err(InvalidInput);
    }
    if p.error != CURRENT.error || p.capability != CURRENT.capability || p.permission != CURRENT.permission {
      return Err(InvalidInput);
    }
    var commands := SortByName(given.commands);
    var queries := SortByName(given.queries);
    var events := SortByName(given.events);
    var resources := SortByName(given.resources);
    DistinctIgnoresOrder(commands + queries, given.commands + given.queries);
    DistinctIgnoresOrder(events, given.events);
    DistinctIgnoresOrder(resources, given.resources);
    DistinctConcat(commands, queries);
    var ok := RejectDuplicateNames(NamesOf(commands));
    if !ok {
      return Err(InvalidInput);
    }
    ok := RejectDuplicateNames(NamesOf(queries));
    if !ok {
      return Err(InvalidInput);
    }
    ok := RejectDuplicateNames(NamesOf(events));
    if !ok {
      return Err(InvalidInput);
    }
    ok := RejectDuplicateNames(NamesOf(resources));
    if !ok {
      return Err(InvalidInput);
    }
    var commandNames := set name | name in NamesOf(commands);
    if exists name :: name in NamesOf(queries) && name in commandNames {
      return Err(InvalidInput);
    }
    return Ok(Catalog(given.preamble, commands, queries, events, resources));
  }

  // ----- Distinctness is about the collection, not its order -----

  lemma {:induction false} NamesOfConcat<B>(a: seq<Named<B>>, b: seq<Named<B>>)
    ensures NamesOf(a + b) == NamesOf(a) + NamesOf(b)
  {
    if a == [] {
      assert a + b == b;
    } else {
      assert (a + b)[1..] == a[1..] + b;
      NamesOfConcat(a[1..], b);
    }
  }

  lemma DistinctConcat<B>(a: seq<Named<B>>, b: seq<Named<B>>)
    ensures NoRepeats(NamesOf(a + b)) <==>
            NoRepeats(NamesOf(a)) && NoRepeats(NamesOf(b)) && forall name :: name in NamesOf(a) ==> name !in NamesOf(b)
  {
    NamesOfConcat(a, b);
    DistinctAppend(NamesOf(a), NamesOf(b));
  }

  lemma DistinctAppend(x: seq<string>, y: seq<string>)
    ensures NoRepeats(x + y) <==> NoRepeats(x) && NoRepeats(y) && forall name :: name in x ==> name !in y
  {
    var whole := x + y;
    if NoRepeats(whole) {
      forall i, j | 0 <= i < j < |y| ensures y[i] != y[j] {
        assert whole[|x| + i] != whole[|x| + j];
      }
      forall i, j | 0 <= i < |x| && 0 <= j < |y| ensures x[i] != y[j] {
        assert whole[i] != whole[|x| + j];
      }
      forall i, j | 0 <= i < j < |x| ensures x[i] != x[j] {
        assert whole[i] != whole[j];
      }
    } else {
      var i, j :| 0 <= i < j < |whole| && whole[i] == whole[j];
      assert i < |x| <= j ==> x[i] in x && y[j - |x|] in y;
      assert j < |x| ==> x[i] == x[j];
      assert |x| <= i ==> y[i - |x|] == y[j - |x|];
    }
  }

  lemma {:induction false} NamesOfAt<B>(s: seq<Named<B>>)
    ensures |NamesOf(s)| == |s| && forall i :: 0 <= i < |s| ==> NamesOf(s)[i] == s[i].name
  {
    if s != [] {
      NamesOfAt(s[1..]);
    }
  }

  lemma {:induction false} MultiplicityOfDistinct<T(!new)>(s: seq<T>)
    ensures NoRepeats(s) <==> forall x :: multiset(s)[x] <= 1
  {
    if s != [] {
      var rest := s[1..];
      assert s == [s[0]] + rest;
      MultiplicityOfDistinct(rest);
      if s[0] in rest {
        assert s[0] in multiset(rest) && multiset(s)[s[0]] > 1;
      } else if NoRepeats(rest) {
        assert s[0] !in multiset(rest);
      } else {
        var x :| multiset(rest)[x] > 1;
        assert multiset(s)[x] > 1;
        var i, j :| 0 <= i < j < |rest| && rest[i] == rest[j];
        assert s[i + 1] == s[j + 1];
      }
    }
  }

  /** No entry occurs twice, and different entries have different names. */
  lemma DistinctMeaning<B(!new)>(s: seq<Named<B>>)
    ensures NoRepeats(NamesOf(s)) <==>
            (forall x :: multiset(s)[x] <= 1) && forall x, y :: x in s && y in s && x.name == y.name ==> x == y
  {
    NamesOfAt(s);
    MultiplicityOfDistinct(s);
    if NoRepeats(NamesOf(s)) {
      forall i, j | 0 <= i < j < |s| ensures s[i].name != s[j].name {
        assert NamesOf(s)[i] != NamesOf(s)[j];
      }
    }
  }

  lemma SameMembers<T>(a: seq<T>, b: seq<T>)
    requires multiset(a) == multiset(b)
    ensures forall x :: x in a <==> x in b
  {
    forall x ensures x in a <==> x in b {
      assert x in a <==> x in multiset(a);
      assert x in b <==> x in multiset(b);
    }
  }

  lemma DistinctIgnoresOrder<B(!new)>(a: seq<Named<B>>, b: seq<Named<B>>)
    requires multiset(a) == multiset(b)
    ensures NoRepeats(NamesOf(a)) <==> NoRepeats(NamesOf(b))
  {
    DistinctMeaning(a);
    DistinctMeaning(b);
    SameMembers(a, b);
  }

  // ----- Canonicity -----

  lemma NameLessIsWeakOrder<B(!new)>()
    ensures StrictWeakOrder(NameLess<B>)
  {
    StringLessIsTotal();
    forall a: Named<B>, b: Named<B>, c: Named<B>
      ensures !NameLess(a, a)
      ensures NameLess(a, b) && NameLess(b, c) ==> NameLess(a, c)
      ensures NameLess(a, c) ==> NameLess(a, b) || NameLess(b, c)
    {
    }
  }

  /** With distinct names, sorting leaves a strictly ordered list. */
  lemma SortIsStrict<B(!new)>(s: seq<Named<B>>)
    requires NoRepeats(NamesOf(s))
    ensures Sorted(NameLess, SortByName(s))
  {
    var r := SortByName(s);
    NameLessIsWeakOrder<B>();
    StringLessIsTotal();
    SortStableSorts(NameLess, s);
    DistinctIgnoresOrder(r, s);
    NamesOfAt(r);
    forall i, j | 0 <= i < j < |r| ensures NameLess(r[i], r[j]) {
      assert NamesOf(r)[i] != NamesOf(r)[j];
      assert !NameLess(r[j], r[i]);
    }
  }

  lemma SortForgetsOrder<B(!new)>(a: seq<Named<B>>, b: seq<Named<B>>)
    requires multiset(a) == multiset(b) && NoRepeats(NamesOf(a))
    ensures SortByName(a) == SortByName(b)
  {
    DistinctIgnoresOrder(a, b);
    SortIsStrict(a);
    SortIsStrict(b);
    NameLessIsWeakOrder<B>();
    forall x ensures x in SortByName(a) <==> x in SortByName(b) {
      assert x in SortByName(a) <==> x in multiset(SortByName(a));
      assert x in SortByName(b) <==> x in multiset(SortByName(b));
    }
    SortedIsUnique(NameLess, SortByName(a), SortByName(b));
  }

  ghost predicate Permuted(a: Catalog, b: Catalog) {
    && a.preamble == b.preamble
    && multiset(a.commands) == multiset(b.commands) && multiset(a.queries) == multiset(b.queries)
    && multiset(a.events) == multiset(b.events) && multiset(a.resources) == multiset(b.resources)
  }

  lemma MembersDecideMethods(a: seq<MethodSchema>, b: seq<MethodSchema>)
    requires multiset(a) == multiset(b)
    ensures AllMethods(a) <==> AllMethods(b)
  {
    SameMembers(a, b);
  }

  lemma MembersDecidePayloads(a: seq<PayloadSchema>, b: seq<PayloadSchema>)
    requires multiset(a) == multiset(b)
    ensures AllPayloads(a) <==> AllPayloads(b)
  {
    SameMembers(a, b);
  }

  lemma AcceptanceIgnoresOrder(a: Catalog, b: Catalog)
    requires Permuted(a, b)
    ensures Acceptable(a) <==> Acceptable(b)
  {
    MembersDecideMethods(a.commands, b.commands);
    MembersDecideMethods(a.queries, b.queries);
    MembersDecidePayloads(a.events, b.events);
    MembersDecidePayloads(a.resources, b.resources);
    DistinctIgnoresOrder(a.commands + a.queries, b.commands + b.queries);
    DistinctIgnoresOrder(a.events, b.events);
    DistinctIgnoresOrder(a.resources, b.resources);
  }

  /** The order in which descriptors are given changes neither acceptance nor the catalog. */
  lemma CatalogIgnoresOrder(a: Catalog, b: Catalog)
    requires Permuted(a, b)
    ensures NewCatalog(a) == NewCatalog(b)
  {
    AcceptanceIgnoresOrder(a, b);
    if Acceptable(a) {
      DistinctConcat(a.commands, a.queries);
      SortForgetsOrder(a.commands, b.commands);
      SortForgetsOrder(a.queries, b.queries);
      SortForgetsOrder(a.events, b.events);
      SortForgetsOrder(a.resources, b.resources);
    }
  }

  /** An accepted catalog rebuilds from its own fields to itself, in strict name order, names unique. */
  lemma CatalogIsCanonical(given: Catalog, catalog: Catalog)
    requires NewCatalog(given) == Ok(catalog)
    ensures NewCatalog(catalog) == Ok(catalog)
    ensures Sorted(NameLess, catalog.commands) && Sorted(NameLess, catalog.queries)
    ensures Sorted(NameLess, catalog.events) && Sorted(NameLess, catalog.resources)
    ensures NoRepeats(NamesOf(catalog.commands + catalog.queries))
  {
    CatalogIgnoresOrder(catalog, given);
    DistinctConcat(given.commands, given.queries);
    SortIsStrict(given.commands);
    SortIsStrict(given.queries);
    SortIsStrict(given.events);
    SortIsStrict(given.resources);
  }
}
