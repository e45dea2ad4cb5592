/** Different spellings of one path: separators, case, and segments that resolve to nothing. */
module Spellings {
  import opened Core
  import opened Text
  import opened Paths
  import opened PathLaws
  import opened Scopes

  // ----- Separators and case -----

  lemma WindowsParseIgnoresCase(text: string)
    ensures NormalizeWindows(Lower(text)) == NormalizeWindows(text)
  {
    var lower := Lower(text);
    assert |text| >= 2 ==> (lower[..2] == "//" <==> text[..2] == "//") by {
      if |text| >= 2 {
        assert lower[..2] == "//" <==> lower[0] == '/' && lower[1] == '/';
        assert text[..2] == "//" <==> text[0] == '/' && text[1] == '/';
      }
    }
    if HasUncPrefix(text) {
      assert lower[2..] == Lower(text[2..]);
      SplitOfLower(text[2..], '/');
      var raw := Split(text[2..], '/');
      if |raw| >= 2 {
        LowerTwice(raw[0]);
        LowerTwice(raw[1]);
        assert LowerEach(raw)[2..] == LowerEach(raw[2..]);
        ResolveIgnoresCase([], raw[2..]);
      }
    } else if HasDrivePrefix(text) {
      assert lower[3..] == Lower(text[3..]);
      SplitOfLower(text[3..], '/');
      ResolveIgnoresCase([], Split(text[3..], '/'));
    }
  }

  /** Windows spellings that differ only in separators and ASCII case are the same target. */
  lemma WindowsSpellingIsIrrelevant(a: string, b: string)
    requires Lower(Replace(a, '\\', '/')) == Lower(Replace(b, '\\', '/'))
    ensures NormalizeAbsolute(Windows, a) == NormalizeAbsolute(Windows, b)
    ensures forall scope :: ScopeMatches(scope, Absolute(Windows, a)) == ScopeMatches(scope, Absolute(Windows, b))
  {
    WindowsParseIgnoresCase(Replace(a, '\\', '/'));
    WindowsParseIgnoresCase(Replace(b, '\\', '/'));
    var la, lb := Lower(Replace(a, '\\', '/')), Lower(Replace(b, '\\', '/'));
    assert forall i :: 0 <= i < |a| ==> IsControl(la[i]) == IsControl(a[i]);
    assert forall i :: 0 <= i < |b| ==> IsControl(lb[i]) == IsControl(b[i]);
    assert |a| == |la| && |b| == |lb|;
  }

  // ----- Segments that resolve to nothing -----

  /** What stands before the segments of a path: nothing, a slash, a drive, or a server and share. */
  datatype Form =
    | RelativeForm
    | UnixForm
    | DriveForm(letter: char)
    | UncForm(server: string, share: string)

  predicate FormFolds(form: Form) {
    form.DriveForm? || form.UncForm?
  }

  function Spelling(form: Form, parts: seq<string>): string {
    match form
    case RelativeForm => Join(parts, '/')
    case UnixForm => "/" + Join(parts, '/')
    case DriveForm(letter) => [letter] + ":/" + Join(parts, '/')
    case UncForm(server, share) => "//" + Join([server, share] + parts, '/')
  }

  predicate SegmentText(form: Form, text: string) {
    '/' !in text && NoControl(text) && (form.UnixForm? || '\\' !in text)
  }

  predicate ValidForm(form: Form) {
    match form
    case DriveForm(letter) => IsAsciiAlphabetic(letter)
    case UncForm(server, share) => server != "" && share != "" && SegmentText(form, server) && SegmentText(form, share)
    case _ => true
  }

  /** The path's text is this form followed by these segments, up to backslashes and case on Windows. */
  predicate Spells(path: FilesystemPath, form: Form, parts: seq<string>) {
    && ValidForm(form) && (forall i :: 0 <= i < |parts| ==> SegmentText(form, parts[i]))
    && match form
       case RelativeForm => path == ProjectRelative(Spelling(form, parts))
       case UnixForm => path == Absolute(Unix, Spelling(form, parts))
       case _ => path.Absolute? && path.platform == Windows
                 && Lower(Replace(path.path, '\\', '/')) == Lower(Spelling(form, parts))
  }

  /** A relative text that begins with a slash is rejected whatever it resolves to. */
  predicate BeginsWithSlash(parts: seq<string>) {
    |parts| > 1 && parts[0] == ""
  }

  function FormRoot(form: Form): NormalizedRoot {
    match form
    case RelativeForm => ProjectRoot
    case UnixForm => UnixRoot
    case DriveForm(letter) => WindowsDrive([UpperChar(letter)])
    case UncForm(server, share) => WindowsUnc(Lower(server), Lower(share))
  }

  /** The path that segments under a form name, decided by what they resolve to. */
  function Named(form: Form, parts: seq<string>): Result<NormalizedPath> {
    var resolved := Resolve([], parts, FormFolds(form));
    if form.RelativeForm? && (BeginsWithSlash(parts) || resolved == Some([])) then Err(InvalidInput)
    else Build(FormRoot(form), resolved)
  }

  lemma SplitOfSegments(form: Form, parts: seq<string>)
    requires forall i :: 0 <= i < |parts| ==> SegmentText(form, parts[i])
    ensures Split(Join(parts, '/'), '/') == if parts == [] then [""] else parts
    ensures Resolve([], Split(Join(parts, '/'), '/'), FormFolds(form)) == Resolve([], parts, FormFolds(form))
    ensures NoControl(Join(parts, '/')) && (!form.UnixForm? ==> '\\' !in Join(parts, '/'))
  {
    if parts != [] {
      SplitOfJoin(parts, '/');
    }
    var allowed := c => !IsControl(c) && (form.UnixForm? || c != '\\');
    forall i | 0 <= i < |parts| ensures Chars(allowed, parts[i]) {
      assert SegmentText(form, parts[i]);
    }
    JoinKeepsChars(allowed, parts, '/');
    assert Chars(allowed, Join(parts, '/'));
  }

  lemma RelativeSpelling(parts: seq<string>)
    requires forall i :: 0 <= i < |parts| ==> SegmentText(RelativeForm, parts[i])
    ensures NormalizeRelative(Spelling(RelativeForm, parts)) == Named(RelativeForm, parts)
  {
    var text := Join(parts, '/');
    SplitOfSegments(RelativeForm, parts);
    if parts != [] {
      assert SegmentText(RelativeForm, parts[0]);
      assert text != "" && text[0] == '/' <==> BeginsWithSlash(parts);
    }
  }

  lemma UnixSpelling(parts: seq<string>)
    requires forall i :: 0 <= i < |parts| ==> SegmentText(UnixForm, parts[i])
    ensures NormalizeAbsolute(Unix, Spelling(UnixForm, parts)) == Named(UnixForm, parts)
  {
    var body := Join(parts, '/');
    SplitOfSegments(UnixForm, parts);
    SplitTail("", body);
    assert Spelling(UnixForm, parts) == "" + "/" + body;
    assert Split("" + "/" + body, '/')[1..] == Split(body, '/');
  }

  lemma DriveSpelling(form: Form, parts: seq<string>)
    requires form.DriveForm? && ValidForm(form) && forall i :: 0 <= i < |parts| ==> SegmentText(form, parts[i])
    ensures NormalizeAbsolute(Windows, Spelling(form, parts)) == Named(form, parts)
  {
    var text, body := Spelling(form, parts), Join(parts, '/');
    SplitOfSegments(form, parts);
    assert text[0] == form.letter && text[1] == ':' && text[2] == '/' && text[3..] == body;
    assert Replace(text, '\\', '/') == text && !HasUncPrefix(text) && NoControl(text);
  }

  lemma UncSpelling(form: Form, parts: seq<string>)
    requires form.UncForm? && ValidForm(form) && forall i :: 0 <= i < |parts| ==> SegmentText(form, parts[i])
    ensures NormalizeAbsolute(Windows, Spelling(form, parts)) == Named(form, parts)
  {
    var raw := [form.server, form.share] + parts;
    var text, body := Spelling(form, parts), Join(raw, '/');
    SplitOfSegments(form, raw);
    assert text[..2] == "//" && text[2..] == body;
    assert Replace(text, '\\', '/') == text && NoControl(text);
    assert raw[2..] == parts;
  }

  /** What a path names depends only on its form and on what its segments resolve to. */
  lemma SpelledPathIsNamed(path: FilesystemPath, form: Form, parts: seq<string>)
    requires Spells(path, form, parts)
    ensures Normalized(path) == Named(form, parts)
  {
    match form {
      case RelativeForm => RelativeSpelling(parts);
      case UnixForm => UnixSpelling(parts);
      case _ =>
        var text := Spelling(form, parts);
        if form.DriveForm? { DriveSpelling(form, parts); } else { UncSpelling(form, parts); }
        SpellingHasNoBackslash(form, parts);
        assert Replace(text, '\\', '/') == text;
        WindowsSpellingIsIrrelevant(path.path, text);
    }
  }

  lemma SpellingHasNoBackslash(form: Form, parts: seq<string>)
    requires FormFolds(form) && ValidForm(form) && forall i :: 0 <= i < |parts| ==> SegmentText(form, parts[i])
    ensures '\\' !in Spelling(form, parts)
  {
    if form.UncForm? {
      SplitOfSegments(form, [form.server, form.share] + parts);
    } else {
      SplitOfSegments(form, parts);
    }
  }

  /** Segments that resolve to nothing on their own can be dropped between any others. */
  lemma NeutralSegmentsResolve(stack: seq<string>, a: seq<string>, neutral: seq<string>, b: seq<string>, fold: bool)
    requires Resolve([], neutral, fold) == Some([])
    ensures Resolve(stack, a + neutral + b, fold) == Resolve(stack, a + b, fold)
  {
    ResolveConcat(stack, a + neutral, b, fold);
    ResolveConcat(stack, a, neutral, fold);
    ResolveConcat(stack, a, b, fold);
    var below := Resolve(stack, a, fold);
    if below.Some? {
      ResolveOnBase(below.value, [], neutral, fold);
      assert below.value + [] == below.value;
    }
  }

  ghost predicate SameScopes(p: FilesystemPath, q: FilesystemPath) {
    && (forall scope :: ScopeMatches(scope, p) == ScopeMatches(scope, q))
    && (forall target :: ScopeMatches(Exact(p), target) == ScopeMatches(Exact(q), target))
    && (forall target :: ScopeMatches(Recursive(p), target) == ScopeMatches(Recursive(q), target))
  }

  lemma SameNameSameScopes(p: FilesystemPath, q: FilesystemPath)
    requires Normalized(p) == Normalized(q)
    ensures SameScopes(p, q)
  {
  }

  /**
   * Segments that resolve to nothing (empty, `.`, or names undone by `..`) can be spliced in anywhere, at
   * the front, between others, or at the end, under every root form. The one exception is a relative text
   * that would name something and gains or loses a slash at its very beginning.
   */
  lemma NeutralSegmentsVanish(
    p: FilesystemPath, q: FilesystemPath, form: Form, a: seq<string>, neutral: seq<string>, b: seq<string>)
    requires Spells(p, form, a + neutral + b) && Spells(q, form, a + b)
    requires Resolve([], neutral, FormFolds(form)) == Some([])
    ensures Normalized(p) == Normalized(q) <==>
            !form.RelativeForm? || Resolve([], a + b, false) in {None, Some([])}
            || (BeginsWithSlash(a + neutral + b) <==> BeginsWithSlash(a + b))
    ensures Normalized(p) == Normalized(q) ==> SameScopes(p, q)
  {
    SpelledPathIsNamed(p, form, a + neutral + b);
    SpelledPathIsNamed(q, form, a + b);
    NeutralSegmentsResolve([], a, neutral, b, FormFolds(form));
    if Normalized(p) == Normalized(q) {
      SameNameSameScopes(p, q);
    }
  }

  /** Every accepted path is spelled by some form and segments, so the law above covers all of them. */
  lemma AcceptedPathIsSpelled(path: FilesystemPath) returns (form: Form, parts: seq<string>)
    requires Normalized(path).Ok?
    ensures Spells(path, form, parts)
  {
    match path {
      case ProjectRelative(text) =>
        form, parts := RelativeForm, Split(text, '/');
        PiecesAreSegments(form, text);
      case Absolute(Unix, text) =>
        form, parts := UnixForm, Split(text[1..], '/');
        PiecesAreSegments(form, text[1..]);
        assert text == "/" + text[1..];
      case Absolute(Windows, text) =>
        form, parts := AcceptedWindowsIsSpelled(Replace(text, '\\', '/'));
    }
  }

  lemma AcceptedWindowsIsSpelled(text: string) returns (form: Form, parts: seq<string>)
    requires NormalizeWindows(text).Ok? && NoControl(text) && '\\' !in text
    ensures FormFolds(form) && ValidForm(form) && forall i :: 0 <= i < |parts| ==> SegmentText(form, parts[i])
    ensures Spelling(form, parts) == text
  {
    if HasUncPrefix(text) {
      var raw := Split(text[2..], '/');
      form, parts := UncForm(raw[0], raw[1]), raw[2..];
      PiecesAreSegments(form, text[2..]);
      assert [raw[0], raw[1]] + parts == raw;
    } else {
      form, parts := DriveForm(text[0]), Split(text[3..], '/');
      PiecesAreSegments(form, text[3..]);
      assert text == [text[0]] + ":/" + text[3..];
    }
  }

  lemma PiecesAreSegments(form: Form, text: string)
    requires NoControl(text) && (form.UnixForm? || '\\' !in text)
    ensures forall i :: 0 <= i < |Split(text, '/')| ==> SegmentText(form, Split(text, '/')[i])
    ensures Join(Split(text, '/'), '/') == text
  {
    var allowed := c => !IsControl(c) && (form.UnixForm? || c != '\\');
    JoinOfSplit(text, '/');
    SplitIsPlain(text, '/');
    SplitKeepsChars(allowed, text, '/');
    forall i | 0 <= i < |Split(text, '/')| ensures SegmentText(form, Split(text, '/')[i]) {
      assert Chars(allowed, Split(text, '/')[i]);
    }
  }
}
