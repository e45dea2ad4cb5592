/** Which registrations and version identifiers are accepted, as whole-value conditions. */
module RegistryLaws {
  import opened Core
  import opened Orders
  import opened Text
  import opened Settings
  import opened Names
  import opened Precedence
  import opened Extensions

  // ----- Splitting at the first separator -----

  /** The first separator, if any, stands between the two parts. */
  lemma SplitOnceMeaning(text: string, sep: char, left: string, right: Option<string>)
    ensures SplitOnce(text, sep) == (left, right) <==>
            sep !in left && text == left + (if right.Some? then [sep] + right.value else "")
  {
    SplitOnceIsSound(text, sep);
    if sep !in left && text == left + (if right.Some? then [sep] + right.value else "") {
      SplitOfPlain(left, sep);
      if right.Some? {
        SplitConcat(left, right.value, sep);
        assert text == left + [sep] + right.value;
        assert ([left] + Split(right.value, sep))[1..] == Split(right.value, sep);
        JoinOfSplit(right.value, sep);
      } else {
        assert text == left;
      }
    }
  }

  lemma SplitOnceIsSound(text: string, sep: char)
    ensures var (left, right) := SplitOnce(text, sep);
            sep !in left && text == left + (if right.Some? then [sep] + right.value else "")
  {
    var parts := Split(text, sep);
    SplitIsPlain(text, sep);
    JoinOfSplit(text, sep);
    if |parts| == 1 {
      assert text == parts[0];
    } else {
      assert text == parts[0] + [sep] + Join(parts[1..], sep);
    }
  }

  // ----- Version identifiers -----

  predicate AlphanumericOrHyphen(s: string) {
    s != "" && forall i :: 0 <= i < |s| ==>
      'a' <= s[i] <= 'z' || 'A' <= s[i] <= 'Z' || '0' <= s[i] <= '9' || s[i] == '-'
  }

  predicate GoodPreRelease(text: string) {
    forall i :: 0 <= i < |Split(text, '.')| ==> AlphanumericOrHyphen(Split(text, '.')[i]) && ValidIdentifier(Split(text, '.')[i])
  }

  predicate GoodBuild(text: string) {
    forall i :: 0 <= i < |Split(text, '.')| ==> AlphanumericOrHyphen(Split(text, '.')[i])
  }

  lemma IdentifierListMeaning(text: string)
    ensures IsIdentifierList(text, true) <==> GoodPreRelease(text)
    ensures IsIdentifierList(text, false) <==> GoodBuild(text)
  {
    forall s: string
      ensures s != "" && Chars(c => IsAsciiAlphabetic(c) || IsAsciiDigit(c) || c == '-', s) <==> AlphanumericOrHyphen(s)
    {
    }
  }

  predicate GoodNumber(text: string) {
    && text != "" && (forall i :: 0 <= i < |text| ==> '0' <= text[i] <= '9')
    && (text[0] == '0' ==> text == "0") && Value(text) <= U64_MAX
  }

  datatype VersionParts = VersionParts(
    component: string, major: string, minor: string, patch: string, preRelease: Option<string>, build: Option<string>)

  predicate GoodParts(v: VersionParts) {
    && DottedLowercase(v.component)
    && GoodNumber(v.major) && GoodNumber(v.minor) && GoodNumber(v.patch)
    && (v.preRelease.Some? ==> GoodPreRelease(v.preRelease.value))
    && (v.build.Some? ==> GoodBuild(v.build.value))
  }

  function Core3(v: VersionParts): string {
    v.major + "." + v.minor + "." + v.patch
  }

  function Tail(sep: char, part: Option<string>): string {
    if part.Some? then [sep] + part.value else ""
  }

  function WithoutBuildText(v: VersionParts): string {
    Core3(v) + Tail('-', v.preRelease)
  }

  /** `component@major.minor.patch`, then `-pre.release` and `+build` if there are any. */
  function Spelled(v: VersionParts): string {
    v.component + "@" + (WithoutBuildText(v) + Tail('+', v.build))
  }

  lemma CanonicalNumberMeaning(text: string)
    ensures IsCoreNumber(text) <==> GoodNumber(text)
  {
    assert Numeric(text) <==> forall i :: 0 <= i < |text| ==> '0' <= text[i] <= '9';
  }

  lemma JoinOfThree(a: string, b: string, c: string)
    ensures Join([a, b, c], '.') == a + "." + b + "." + c
  {
    assert [a, b, c][1..] == [b, c] && [b, c][1..] == [c];
    assert Join([b, c], '.') == b + "." + Join([c], '.');
    assert a + "." + (b + "." + c) == a + "." + b + "." + c;
  }

  /** A core is three numbers and the dots between them. */
  lemma CoreMeaning(major: string, minor: string, patch: string)
    requires GoodNumber(major) && GoodNumber(minor) && GoodNumber(patch)
    ensures IsCoreVersion(major + "." + minor + "." + patch)
  {
    var parts := [major, minor, patch];
    JoinOfThree(major, minor, patch);
    SplitOfJoin(parts, '.');
    CanonicalNumberMeaning(major);
    CanonicalNumberMeaning(minor);
    CanonicalNumberMeaning(patch);
  }

  lemma CoreParts(core: string) returns (major: string, minor: string, patch: string)
    requires IsCoreVersion(core)
    ensures GoodNumber(major) && GoodNumber(minor) && GoodNumber(patch)
    ensures core == major + "." + minor + "." + patch
  {
    var parts := Split(core, '.');
    major, minor, patch := parts[0], parts[1], parts[2];
    JoinOfSplit(core, '.');
    assert parts == [major, minor, patch];
    JoinOfThree(major, minor, patch);
    CanonicalNumberMeaning(major);
    CanonicalNumberMeaning(minor);
    CanonicalNumberMeaning(patch);
  }

  lemma NumberHasOnlyDigits(v: VersionParts)
    requires GoodParts(v)
    ensures '-' !in Core3(v) && '+' !in Core3(v)
    ensures '+' !in WithoutBuildText(v)
  {
    if v.preRelease.Some? {
      PreReleaseHasNoPlus(v.preRelease.value);
    }
  }

  lemma PreReleaseHasNoPlus(text: string)
    requires GoodBuild(text) || GoodPreRelease(text)
    ensures '+' !in text
  {
    var p := c => c != '+';
    var parts := Split(text, '.');
    forall i | 0 <= i < |parts| ensures Chars(p, parts[i]) {
      assert AlphanumericOrHyphen(parts[i]);
    }
    JoinKeepsChars(p, parts, '.');
    JoinOfSplit(text, '.');
    assert Chars(p, text);
  }

  lemma SpelledVersionIsAccepted(v: VersionParts)
    requires GoodParts(v)
    ensures IsVersionIdentifier(Spelled(v))
  {
    var version := WithoutBuildText(v) + Tail('+', v.build);
    NumberHasOnlyDigits(v);
    CanonicalNameByCharacters(v.component);
    assert '@' !in v.component;
    SplitOnceMeaning(Spelled(v), '@', v.component, Some(version));
    assert Spelled(v) == v.component + ("@" + version);
    SplitOnceMeaning(version, '+', WithoutBuildText(v), v.build);
    SplitOnceMeaning(WithoutBuildText(v), '-', Core3(v), v.preRelease);
    CoreMeaning(v.major, v.minor, v.patch);
    if v.preRelease.Some? {
      IdentifierListMeaning(v.preRelease.value);
    }
    if v.build.Some? {
      IdentifierListMeaning(v.build.value);
      PreReleaseHasNoPlus(v.build.value);
    }
  }

  lemma VersionTextIsSpelled(component: string, version: string) returns (v: VersionParts)
    requires DottedLowercase(component) && IsVersionText(version)
    ensures GoodParts(v) && v.component == component && version == WithoutBuildText(v) + Tail('+', v.build)
  {
    var (withoutBuild, build) := SplitOnce(version, '+');
    var (core, preRelease) := SplitOnce(withoutBuild, '-');
    SplitOnceIsSound(version, '+');
    SplitOnceIsSound(withoutBuild, '-');
    var major, minor, patch := CoreParts(core);
    v := VersionParts(component, major, minor, patch, preRelease, build);
    assert Core3(v) == core && WithoutBuildText(v) == withoutBuild;
    if preRelease.Some? {
      IdentifierListMeaning(preRelease.value);
    }
    if build.Some? {
      IdentifierListMeaning(build.value);
    }
  }

  lemma AcceptedVersionIsSpelled(text: string) returns (v: VersionParts)
    requires IsVersionIdentifier(text)
    ensures GoodParts(v) && text == Spelled(v)
  {
    var (component, version) := SplitOnce(text, '@');
    SplitOnceIsSound(text, '@');
    CanonicalNameByCharacters(component);
    v := VersionTextIsSpelled(component, version.value);
    assert text == component + ("@" + version.value);
  }

  /** The accepted version identifiers are exactly the spellings of well-formed parts. */
  lemma VersionIdentifierIff(text: string)
    ensures IsVersionIdentifier(text) <==> exists v :: GoodParts(v) && text == Spelled(v)
  {
    if IsVersionIdentifier(text) {
      var v := AcceptedVersionIsSpelled(text);
    }
    forall v | GoodParts(v) && text == Spelled(v) ensures IsVersionIdentifier(text) {
      SpelledVersionIsAccepted(v);
    }
  }

  // ----- Registrations -----

  /** At most 1024 canonical names in strict order. */
  ghost predicate OrderedNames(names: seq<string>) {
    && |names| <= 1024
    && (forall i, j :: 0 <= i < j < |names| ==> StringLess(names[i], names[j]))
    && forall name :: name in names ==> DottedLowercase(name)
  }

  predicate SubsetOf(small: seq<string>, large: seq<string>) {
    forall name :: name in small ==> name in large
  }

  lemma ValidCapabilitiesMeaning(names: seq<string>)
    ensures ValidCapabilities(names) <==> OrderedNames(names)
  {
    StringLessIsTotal();
    AscendingIsSorted(StringLess, names);
    forall name ensures IsCanonicalName(name) <==> DottedLowercase(name) {
      CanonicalNameByCharacters(name);
    }
    assert forall i :: 0 <= i < |names| ==> names[i] in names;
  }

  /** Nonempty, short enough in UTF-8, and free of control characters. */
  predicate GoodText(text: string, limit: nat) {
    text != "" && Utf8Length(text) <= limit && forall i :: 0 <= i < |text| ==> !IsControl(text[i])
  }

  /** Bounded evidence of at least one failure, with the action its recoverability calls for. */
  predicate GoodFailure(f: Failure) {
    && GoodText(f.stage, 128) && 1 <= f.consecutiveFailures <= f.totalFailures
    && match f.recoverability
       case Retryable => f.action == Retry
       case Degraded => f.action == ContinueDegraded
       case UserCorrectable => f.action == CorrectConfiguration
       case Terminal => f.action == Stop
  }

  /** Known format and bounded texts for native audio, and a producer that is a version identifier. */
  ghost predicate GoodIdentity(identity: Identity) {
    match identity
    case Versioned(producer) => IsVersionIdentifier(producer)
    case NativeAudio(provider, format, vendor, identifier, version) =>
      && IsVersionIdentifier(provider) && (format == "audio_unit" || format == "vst3")
      && GoodText(vendor, 1024) && GoodText(identifier, 1024) && GoodText(version, 1024)
  }

  /** Features in strict order of their names; an available one runs in a ready extension on granted capabilities. */
  ghost predicate GoodFeatures(r: Registration) {
    var features := r.discovery.features;
    && |features| <= 1024
    && (forall i, j :: 0 <= i < j < |features| ==> StringLess(features[i].id, features[j].id))
    && forall f :: f in features ==>
         && DottedLowercase(f.id) && OrderedNames(f.required)
         && (f.availability == Available ==> r.lifecycle == Ready && SubsetOf(f.required, r.granted))
  }

  /** The control names the producer's component and the one project command surface. */
  ghost predicate GoodControl(r: Registration) {
    && '@' !in r.control.extensionId
    && (exists version :: Producer(r.identity) == r.control.extensionId + "@" + version)
    && r.control.commandMethod == "superi.project.command.execute" && r.control.stateResource == "superi.editor.state"
    && r.control.operations == [Upsert, Remove, SetLifecycle, SetGrantedCapabilities, RecordFailure, ClearFailure]
  }

  ghost predicate GoodRegistration(r: Registration) {
    && GoodIdentity(r.identity) && GoodText(r.displayName, 512)
    && OrderedNames(r.requested) && OrderedNames(r.granted) && SubsetOf(r.granted, r.requested)
    && r.discovery.schemaVersion == Release(1, 0, 0)
    && r.discovery.producer == Producer(r.identity) && r.discovery.capabilities == r.granted
    && GoodFeatures(r) && GoodControl(r)
    && (r.lifecycle == Faulted || r.lifecycle == Quarantined ==> r.failure.Some?)
    && (r.failure.Some? ==> GoodFailure(r.failure.value))
  }

  lemma FeatureMeaning(f: Feature, granted: seq<string>)
    requires OrderedNames(granted)
    ensures ValidFeature(f, granted) <==>
            DottedLowercase(f.id) && OrderedNames(f.required) && (f.availability == Available ==> SubsetOf(f.required, granted))
  {
    CanonicalNameByCharacters(f.id);
    ValidCapabilitiesMeaning(f.required);
    ValidCapabilitiesMeaning(granted);
    FoundInIsSubset(f.required, granted);
  }

  lemma FeaturesMeaning(r: Registration)
    requires OrderedNames(r.granted) && r.discovery.capabilities == r.granted
    ensures GoodFeatures(r) <==>
            && |r.discovery.features| <= MAX_FEATURES && Ascending(FeatureLess, r.discovery.features)
            && (forall i :: 0 <= i < |r.discovery.features| ==> ValidFeature(r.discovery.features[i], r.discovery.capabilities))
            && (r.lifecycle != Ready ==>
                  forall i :: 0 <= i < |r.discovery.features| ==> r.discovery.features[i].availability != Available)
  {
    StringLessIsTotal();
    AscendingIsSorted(FeatureLess, r.discovery.features);
    forall f
      ensures ValidFeature(f, r.granted) <==>
              DottedLowercase(f.id) && OrderedNames(f.required)
              && (f.availability == Available ==> SubsetOf(f.required, r.granted))
    {
      FeatureMeaning(f, r.granted);
    }
    assert forall f :: f in r.discovery.features <==>
             exists i :: 0 <= i < |r.discovery.features| && r.discovery.features[i] == f;
  }

  lemma ControlMeaning(r: Registration)
    requires IsVersionIdentifier(Producer(r.identity))
    ensures GoodControl(r) <==> ValidControl(r.control, r.identity)
  {
    var producer := Producer(r.identity);
    var (component, version) := SplitOnce(producer, '@');
    SplitOnceIsSound(producer, '@');
    assert producer == component + "@" + version.value;
    forall rest | '@' !in r.control.extensionId && producer == r.control.extensionId + "@" + rest
      ensures component == r.control.extensionId
    {
      assert producer == r.control.extensionId + ("@" + rest);
      SplitOnceMeaning(producer, '@', r.control.extensionId, Some(rest));
    }
  }

  lemma IdentityMeaning(identity: Identity)
    ensures ValidIdentity(identity) <==> GoodIdentity(identity)
  {
  }

  lemma FailureMeaning(f: Failure)
    ensures ValidFailure(f) <==> GoodFailure(f)
  {
  }

  /** Local checks, adjacent comparisons, and binary searches accept exactly the well-formed registrations. */
  lemma RegistrationAcceptedIff(r: Registration)
    ensures ValidRegistration(r) <==> GoodRegistration(r)
  {
    IdentityMeaning(r.identity);
    ValidCapabilitiesMeaning(r.requested);
    ValidCapabilitiesMeaning(r.granted);
    if OrderedNames(r.granted) && OrderedNames(r.requested) {
      FoundInIsSubset(r.granted, r.requested);
    }
    if OrderedNames(r.granted) && r.discovery.capabilities == r.granted {
      FeaturesMeaning(r);
    }
    if IsVersionIdentifier(Producer(r.identity)) {
      ControlMeaning(r);
    }
    if r.failure.Some? {
      FailureMeaning(r.failure.value);
    }
  }

  // ----- Registries -----

  /** Versioned producers come first; within a kind the fields decide in the order they are declared. */
  predicate ComesBefore(a: Identity, b: Identity) {
    match (a, b)
    case (Versioned(p), Versioned(q)) => StringLess(p, q)
    case (Versioned(_), NativeAudio(_, _, _, _, _)) => true
    case (NativeAudio(_, _, _, _, _), Versioned(_)) => false
    case (NativeAudio(provider, format, vendor, identifier, version), NativeAudio(_, _, _, _, _)) =>
      || StringLess(provider, b.provider)
      || (provider == b.provider && StringLess(format, b.format))
      || (provider == b.provider && format == b.format && StringLess(vendor, b.vendor))
      || (provider == b.provider && format == b.format && vendor == b.vendor && StringLess(identifier, b.identifier))
      || (provider == b.provider && format == b.format && vendor == b.vendor && identifier == b.identifier
          && StringLess(version, b.version))
  }

  lemma FiveFieldOrder(a: seq<string>, b: seq<string>)
    requires |a| == 5 && |b| == 5
    ensures KeyLess(a, b) <==>
            || StringLess(a[0], b[0])
            || (a[0] == b[0] && StringLess(a[1], b[1]))
            || (a[0] == b[0] && a[1] == b[1] && StringLess(a[2], b[2]))
            || (a[0] == b[0] && a[1] == b[1] && a[2] == b[2] && StringLess(a[3], b[3]))
            || (a[0] == b[0] && a[1] == b[1] && a[2] == b[2] && a[3] == b[3] && StringLess(a[4], b[4]))
  {
    assert a == [a[0]] + a[1..] && b == [b[0]] + b[1..];
    KeyLessByHead(a[0], a[1..], b[0], b[1..]);
    assert a[1..] == [a[1]] + a[2..] && b[1..] == [b[1]] + b[2..];
    KeyLessByHead(a[1], a[2..], b[1], b[2..]);
    assert a[2..] == [a[2]] + a[3..] && b[2..] == [b[2]] + b[3..];
    KeyLessByHead(a[2], a[3..], b[2], b[3..]);
    assert a[3..] == [a[3]] + a[4..] && b[3..] == [b[3]] + b[4..];
    KeyLessByHead(a[3], a[4..], b[3], b[4..]);
    assert a[4..] == [a[4]] + [] && b[4..] == [b[4]] + [];
    KeyLessByHead(a[4], [], b[4], []);
  }

  lemma IdentityLessMeaning(a: Identity, b: Identity)
    ensures IdentityLess(a, b) <==> ComesBefore(a, b)
  {
    var x, y := SortKey(a), SortKey(b);
    assert x == [x[0]] + x[1..] && y == [y[0]] + y[1..];
    KeyLessByHead(x[0], x[1..], y[0], y[1..]);
    RankLess(x[0][0], y[0][0]);
    assert x[0] == [x[0][0]] && y[0] == [y[0][0]];
    FiveFieldOrder(x[1..], y[1..]);
    if a.Versioned? && b.Versioned? {
      StringLessIsTotal();
      assert x[1..][0] == a.producer && y[1..][0] == b.producer;
    }
  }

  /** A registry is accepted exactly when it is current, bounded, and every entry is good and in its place. */
  lemma RegistryAcceptedIff(s: Registry)
    ensures ValidRegistry(s) <==>
            && s.schemaVersion == Release(1, 0, 0) && |s.registrations| <= 4096
            && (forall r :: r in s.registrations ==> GoodRegistration(r))
            && forall i, j :: 0 <= i < j < |s.registrations| ==>
                 ComesBefore(s.registrations[i].identity, s.registrations[j].identity)
  {
    var registrations := s.registrations;
    forall r ensures ValidRegistration(r) <==> GoodRegistration(r) {
      RegistrationAcceptedIff(r);
    }
    forall a, b ensures RegistrationLess(a, b) <==> ComesBefore(a.identity, b.identity) {
      IdentityLessMeaning(a.identity, b.identity);
    }
    assert forall i :: 0 <= i < |registrations| ==> registrations[i] in registrations;
  }
}
