/** Validation of the extension registry snapshot, and the capability chain it guarantees. */
module Extensions {
  import opened Core
  import opened Orders
  import opened Text
  import opened Settings

  const MAX_REGISTRATIONS: nat := 4096
  const MAX_CAPABILITIES: nat := 1024
  const MAX_FEATURES: nat := 1024
  const EXTENSIONS_SCHEMA_VERSION: SemanticVersion := Release(1, 0, 0)

  datatype Identity =
    | Versioned(producer: string)
    | NativeAudio(provider: string, format: string, vendor: string, identifier: string, version: string)

  datatype Lifecycle = Registered | Disabled | Ready | Faulted | Quarantined | Unavailable

  datatype Recoverability = Retryable | Degraded | UserCorrectable | Terminal

  datatype UserAction = Retry | ContinueDegraded | CorrectConfiguration | Stop

  datatype Failure = Failure(
    recoverability: Recoverability, stage: string, totalFailures: u64, consecutiveFailures: u32, action: UserAction)

  datatype Availability = Available | NotAvailable

  datatype Feature = Feature(id: string, version: SemanticVersion, availability: Availability, required: seq<string>)

  datatype Discovery = Discovery(
    schemaVersion: SemanticVersion, producer: string, capabilities: seq<string>, features: seq<Feature>)

  datatype ControlOperation =
    Upsert | Remove | SetLifecycle | SetGrantedCapabilities | RecordFailure | ClearFailure

  datatype Control = Control(
    extensionId: string, commandMethod: string, stateResource: string, operations: seq<ControlOperation>)

  datatype Registration = Registration(
    identity: Identity,
    displayName: string,
    requested: seq<string>,
    granted: seq<string>,
    discovery: Discovery,
    lifecycle: Lifecycle,
    failure: Option<Failure>,
    control: Control)

  datatype Registry = Registry(schemaVersion: SemanticVersion, revision: u64, registrations: seq<Registration>)

  // ----- Producers: a component, an at sign, and a semantic version -----

  predicate IsIdentifierList(text: string, rejectLeadingZero: bool) {
    var parts := Split(text, '.');
    forall i :: 0 <= i < |parts| ==>
      && parts[i] != ""
      && Chars(c => IsAsciiAlphabetic(c) || IsAsciiDigit(c) || c == '-', parts[i])
      && (rejectLeadingZero && |parts[i]| > 1 && Numeric(parts[i]) ==> parts[i][0] != '0')
  }

  predicate IsCoreNumber(text: string) {
    CanonicalNumber(text) && Value(text) <= U64_MAX
  }

  predicate IsCoreVersion(text: string) {
    var parts := Split(text, '.');
    |parts| == 3 && IsCoreNumber(parts[0]) && IsCoreNumber(parts[1]) && IsCoreNumber(parts[2])
  }

  /** The text before the first separator, and the text after it if there is one. */
  function SplitOnce(text: string, sep: char): (string, Option<string>) {
    var parts := Split(text, sep);
    (parts[0], if |parts| == 1 then None else Some(Join(parts[1..], sep)))
  }

  predicate IsVersionText(text: string) {
    var (withoutBuild, build) := SplitOnce(text, '+');
    var (core, preRelease) := SplitOnce(withoutBuild, '-');
    && (build.Some? ==> '+' !in build.value && IsIdentifierList(build.value, false))
    && (preRelease.Some? ==> IsIdentifierList(preRelease.value, true))
    && IsCoreVersion(core)
  }

  predicate IsVersionIdentifier(text: string) {
    var (component, version) := SplitOnce(text, '@');
    version.Some? && IsCanonicalName(component) && IsVersionText(version.value)
  }

  // ----- Validation -----

  function Producer(identity: Identity): string {
    if identity.Versioned? then identity.producer else identity.provider
  }

  predicate ValidIdentity(identity: Identity) {
    && IsVersionIdentifier(Producer(identity))
    && (identity.NativeAudio? ==>
          && identity.format in {"audio_unit", "vst3"}
          && ShortText(identity.vendor, 1024) && ShortText(identity.identifier, 1024) && ShortText(identity.version, 1024))
  }

  /** The registry's ordering key, variant first. */
  function SortKey(identity: Identity): seq<string> {
    match identity
    case Versioned(producer) => ["0", producer, "", "", "", ""]
    case NativeAudio(provider, format, vendor, identifier, version) =>
      ["1", provider, format, vendor, identifier, version]
  }

  predicate IdentityLess(a: Identity, b: Identity) {
    KeyLess(SortKey(a), SortKey(b))
  }

  predicate ValidCapabilities(values: seq<string>) {
    && |values| <= MAX_CAPABILITIES
    && Ascending(StringLess, values)
    && forall i :: 0 <= i < |values| ==> IsCanonicalName(values[i])
  }

  /** Every required value is found by binary search. */
  predicate FoundIn(required: seq<string>, values: seq<string>) {
    forall i :: 0 <= i < |required| ==> BinarySearch(StringLess, values, required[i])
  }

  function ActionFor(r: Recoverability): UserAction {
    match r
    case Retryable => Retry
    case Degraded => ContinueDegraded
    case UserCorrectable => CorrectConfiguration
    case Terminal => Stop
  }

  predicate ValidFailure(f: Failure) {
    && ShortText(f.stage, 128)
    && f.totalFailures != 0 && f.consecutiveFailures != 0 && f.consecutiveFailures <= f.totalFailures
    && f.action == ActionFor(f.recoverability)
  }

  predicate ValidFeature(f: Feature, capabilities: seq<string>) {
    && IsCanonicalName(f.id)
    && ValidCapabilities(f.required)
    && (f.availability == Available ==> FoundIn(f.required, capabilities))
  }

  predicate FeatureLess(a: Feature, b: Feature) {
    StringLess(a.id, b.id)
  }

  predicate ValidDiscovery(d: Discovery) {
    && d.schemaVersion == EXTENSIONS_SCHEMA_VERSION
    && IsVersionIdentifier(d.producer)
    && ValidCapabilities(d.capabilities)
    && |d.features| <= MAX_FEATURES && Ascending(FeatureLess, d.features)
    && forall i :: 0 <= i < |d.features| ==> ValidFeature(d.features[i], d.capabilities)
  }

  predicate ValidControl(c: Control, identity: Identity) {
    && IsVersionIdentifier(Producer(identity))
    && c.extensionId == SplitOnce(Producer(identity), '@').0
    && c.commandMethod == "superi.project.command.execute"
    && c.stateResource == "superi.editor.state"
    && c.operations == [Upsert, Remove, SetLifecycle, SetGrantedCapabilities, RecordFailure, ClearFailure]
  }

  predicate ValidRegistration(r: Registration) {
    && ValidIdentity(r.identity)
    && ValidDiscovery(r.discovery)
    && ValidControl(r.control, r.identity)
    && ValidCapabilities(r.requested) && ValidCapabilities(r.granted)
    && ShortText(r.displayName, 512)
    && r.discovery.producer == Producer(r.identity)
    && r.discovery.capabilities == r.granted
    && FoundIn(r.granted, r.requested)
    && (r.lifecycle != Ready ==>
          forall i :: 0 <= i < |r.discovery.features| ==> r.discovery.features[i].availability != Available)
    && (r.lifecycle in {Faulted, Quarantined} ==> r.failure.Some?)
    && (r.failure.Some? ==> ValidFailure(r.failure.value))
  }

  predicate RegistrationLess(a: Registration, b: Registration) {
    IdentityLess(a.identity, b.identity)
  }

  ghost predicate ValidRegistry(s: Registry) {
    && s.schemaVersion == EXTENSIONS_SCHEMA_VERSION
    && |s.registrations| <= MAX_REGISTRATIONS
    && (forall i :: 0 <= i < |s.registrations| ==> ValidRegistration(s.registrations[i]))
    && Sorted(RegistrationLess, s.registrations)
  }

  lemma IdentityLessIsStrict()
    ensures StrictTotalOrder(IdentityLess)
  {
    KeyLessIsTotal();
    forall a, b ensures a == b || IdentityLess(a, b) || IdentityLess(b, a) {
      if SortKey(a) == SortKey(b) {
        assert forall i :: 0 <= i < 6 ==> SortKey(a)[i] == SortKey(b)[i];
        assert SortKey(a)[0] == SortKey(b)[0] && SortKey(a)[1] == SortKey(b)[1] && SortKey(a)[2] == SortKey(b)[2];
        assert SortKey(a)[3] == SortKey(b)[3] && SortKey(a)[4] == SortKey(b)[4] && SortKey(a)[5] == SortKey(b)[5];
      }
    }
  }

  /** Every item is valid and comes after its predecessor. */
  ghost predicate ValidInOrder<T(!new)>(valid: T -> bool, less: (T, T) -> bool, items: seq<T>) {
    (forall k :: 0 <= k < |items| ==> valid(items[k])) && Ascending(less, items)
  }

  lemma OneMoreInOrder<T(!new)>(valid: T -> bool, less: (T, T) -> bool, items: seq<T>, n: nat)
    requires n < |items| && ValidInOrder(valid, less, items[..n])
    ensures ValidInOrder(valid, less, items[..n + 1]) <==>
            valid(items[n]) && (n > 0 ==> less(items[n - 1], items[n]))
  {
    var shorter, longer := items[..n], items[..n + 1];
    assert forall k :: 0 <= k < n ==> shorter[k] == longer[k];
    assert longer[n] == items[n];
    if n > 0 && Ascending(less, longer) {
      assert less(longer[n - 1], longer[n - 1 + 1]);
    }
  }

  lemma PrefixInOrder<T(!new)>(valid: T -> bool, less: (T, T) -> bool, items: seq<T>, n: nat)
    requires n <= |items| && ValidInOrder(valid, less, items)
    ensures ValidInOrder(valid, less, items[..n])
  {
    assert forall k :: 0 <= k < n ==> items[..n][k] == items[k];
  }

  /** One pass that remembers only the previous item. */
  method PassInOrder<T(!new)>(valid: T -> bool, less: (T, T) -> bool, items: seq<T>) returns (ok: bool)
    ensures ok <==> ValidInOrder(valid, less, items)
  {
    var previous: Option<T> := None;
    for i := 0 to |items|
      invariant previous == if i == 0 then None else Some(items[i - 1])
      invariant ValidInOrder(valid, less, items[..i])
    {
      OneMoreInOrder(valid, less, items, i);
      if !valid(items[i]) || (previous.Some? && !less(previous.value, items[i])) {
        if ValidInOrder(valid, less, items) {
          PrefixInOrder(valid, less, items, i + 1);
        }
        return false;
      }
      previous := Some(items[i]);
    }
    assert items[..|items|] == items;
    return true;
  }

  lemma InOrderMeansSorted(registrations: seq<Registration>)
    ensures ValidInOrder(ValidRegistration, RegistrationLess, registrations) <==>
            (forall i :: 0 <= i < |registrations| ==> ValidRegistration(registrations[i]))
            && Sorted(RegistrationLess, registrations)
  {
    IdentityLessIsStrict();
    AscendingIsSorted(RegistrationLess, registrations);
  }

  /** Comparing each identity only with its predecessor establishes the global order. */
  method ValidateRegistry(s: Registry) returns (r: Result<()>)
    ensures r == if ValidRegistry(s) then Ok(()) else Err(InvalidInput)
  {
    if s.schemaVersion != EXTENSIONS_SCHEMA_VERSION || |s.registrations| > MAX_REGISTRATIONS {
      return Err(InvalidInput);
    }
    InOrderMeansSorted(s.registrations);
    var ok := PassInOrder(ValidRegistration, RegistrationLess, s.registrations);
    return if ok then Ok(()) else Err(InvalidInput);
  }

  // ----- What acceptance guarantees -----

  lemma FoundInIsSubset(required: seq<string>, values: seq<string>)
    requires Ascending(StringLess, values)
    ensures FoundIn(required, values) <==> forall c :: c in required ==> c in values
  {
    StringLessIsTotal();
    AscendingIsSorted(StringLess, values);
    forall c ensures BinarySearch(StringLess, values, c) <==> c in values {
      BinarySearchIsMembership(StringLess, values, c);
    }
  }

  /** Within one registration, what available features require is granted, and what is granted was requested. */
  ghost predicate CapabilitiesChain(r: Registration) {
    && (forall c :: c in r.granted ==> c in r.requested)
    && forall f :: f in r.discovery.features && f.availability == Available ==>
         && r.lifecycle == Ready
         && forall c :: c in f.required ==> c in r.granted && c in r.requested
  }

  lemma CapabilityChain(r: Registration)
    requires ValidRegistration(r)
    ensures CapabilitiesChain(r)
  {
    FoundInIsSubset(r.granted, r.requested);
    forall f | f in r.discovery.features && f.availability == Available
      ensures r.lifecycle == Ready && forall c :: c in f.required ==> c in r.granted
    {
      var k :| 0 <= k < |r.discovery.features| && r.discovery.features[k] == f;
      assert ValidFeature(r.discovery.features[k], r.discovery.capabilities);
      FoundInIsSubset(f.required, r.granted);
    }
  }

  /**
   * In an accepted registry identities never repeat, every registration is granted only what it
   * requested, and an available feature belongs to a ready extension granted all it requires.
   */
  lemma AcceptedRegistryIsSound(s: Registry)
    requires ValidRegistry(s)
    ensures forall i, j :: 0 <= i < j < |s.registrations| ==> s.registrations[i].identity != s.registrations[j].identity
    ensures forall r :: r in s.registrations ==> CapabilitiesChain(r)
  {
    IdentityLessIsStrict();
    forall i, j | 0 <= i < j < |s.registrations|
      ensures s.registrations[i].identity != s.registrations[j].identity
    {
      assert RegistrationLess(s.registrations[i], s.registrations[j]);
    }
    forall r | r in s.registrations ensures CapabilitiesChain(r) {
      CapabilityChain(r);
    }
  }

  /** One identity has one place: two accepted registries with the same entries list them alike. */
  lemma AcceptedRegistryIsCanonical(a: Registry, b: Registry)
    requires ValidRegistry(a) && ValidRegistry(b)
    requires forall r :: r in a.registrations <==> r in b.registrations
    ensures a.registrations == b.registrations
  {
    IdentityLessIsStrict();
    SortedIsUnique(RegistrationLess, a.registrations, b.registrations);
  }
}
