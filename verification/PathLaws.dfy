/** Round trips, containment, and spelling independence of lexical paths. */
module PathLaws {
  import opened Core
  import opened Text
  import opened Paths

  // ----- Stack resolution -----

  lemma {:induction false} ResolveConcat(stack: seq<string>, a: seq<string>, b: seq<string>, fold: bool)
    ensures Resolve(stack, a + b, fold) ==
            match Resolve(stack, a, fold) case None => None case Some(s) => Resolve(s, b, fold)
    decreases |a|
  {
    if a == [] {
      assert a + b == b;
    } else {
      assert (a + b)[1..] == a[1..] + b;
      if a[0] == "" || a[0] == "." {
        ResolveConcat(stack, a[1..], b, fold);
      } else if a[0] == ".." {
        if stack != [] {
          ResolveConcat(stack[..|stack| - 1], a[1..], b, fold);
        }
      } else {
        ResolveConcat(stack + [if fold then Lower(a[0]) else a[0]], a[1..], b, fold);
      }
    }
  }

  /** Segments that resolve on their own never pop below whatever they are placed on. */
  lemma {:induction false} ResolveOnBase(base: seq<string>, stack: seq<string>, parts: seq<string>, fold: bool)
    requires Resolve(stack, parts, fold).Some?
    ensures Resolve(base + stack, parts, fold) == Some(base + Resolve(stack, parts, fold).value)
    decreases |parts|
  {
    if parts != [] {
      if parts[0] == "" || parts[0] == "." {
        ResolveOnBase(base, stack, parts[1..], fold);
      } else if parts[0] == ".." {
        assert (base + stack)[..|base + stack| - 1] == base + stack[..|stack| - 1];
        ResolveOnBase(base, stack[..|stack| - 1], parts[1..], fold);
      } else {
        var pushed := [if fold then Lower(parts[0]) else parts[0]];
        assert base + stack + pushed == base + (stack + pushed);
        ResolveOnBase(base, stack + pushed, parts[1..], fold);
      }
    }
  }

  /** Folding while resolving equals resolving first and folding the outcome. */
  lemma {:induction false} ResolveThenFold(stack: seq<string>, parts: seq<string>)
    ensures Resolve(LowerEach(stack), parts, true) ==
            match Resolve(stack, parts, false) case None => None case Some(c) => Some(LowerEach(c))
    decreases |parts|
  {
    if parts != [] {
      if parts[0] == "" || parts[0] == "." {
        ResolveThenFold(stack, parts[1..]);
      } else if parts[0] == ".." {
        if stack != [] {
          assert LowerEach(stack)[..|stack| - 1] == LowerEach(stack[..|stack| - 1]);
          ResolveThenFold(stack[..|stack| - 1], parts[1..]);
        }
      } else {
        assert LowerEach(stack + [parts[0]]) == LowerEach(stack) + [Lower(parts[0])];
        ResolveThenFold(stack + [parts[0]], parts[1..]);
      }
    }
  }

  lemma LowerKeepsShape(s: string)
    ensures Lower(s) == "" <==> s == ""
    ensures Lower(s) == "." <==> s == "."
    ensures Lower(s) == ".." <==> s == ".."
  {
    if |s| >= 1 { assert Lower(s)[0] == LowerChar(s[0]); }
    if |s| >= 2 { assert Lower(s)[1] == LowerChar(s[1]); }
  }

  /** Folding the segments beforehand changes nothing when resolution folds anyway. */
  lemma {:induction false} ResolveIgnoresCase(stack: seq<string>, parts: seq<string>)
    ensures Resolve(stack, LowerEach(parts), true) == Resolve(stack, parts, true)
    decreases |parts|
  {
    if parts != [] {
      assert LowerEach(parts)[1..] == LowerEach(parts[1..]);
      LowerKeepsShape(parts[0]);
      LowerTwice(parts[0]);
      if parts[0] == "" || parts[0] == "." {
        ResolveIgnoresCase(stack, parts[1..]);
      } else if parts[0] == ".." {
        if stack != [] {
          ResolveIgnoresCase(stack[..|stack| - 1], parts[1..]);
        }
      } else {
        ResolveIgnoresCase(stack + [Lower(parts[0])], parts[1..]);
      }
    }
  }

  /** What segments may contain so that resolving them yields canonical components. */
  predicate RawSegments(root: NormalizedRoot, parts: seq<string>) {
    forall i, j :: 0 <= i < |parts| && 0 <= j < |parts[i]| ==>
      AllowedChar(root, if Folds(root) then LowerChar(parts[i][j]) else parts[i][j])
  }

  lemma {:induction false} ResolveIsCanonical(root: NormalizedRoot, fold: bool, stack: seq<string>, parts: seq<string>)
    requires fold == Folds(root)
    requires AllCanonical(root, stack) && RawSegments(root, parts)
    ensures Resolve(stack, parts, fold).Some? ==> AllCanonical(root, Resolve(stack, parts, fold).value)
    decreases |parts|
  {
    if parts != [] {
      if parts[0] == "" || parts[0] == "." {
        ResolveIsCanonical(root, fold, stack, parts[1..]);
      } else if parts[0] == ".." {
        if stack != [] {
          ResolveIsCanonical(root, fold, stack[..|stack| - 1], parts[1..]);
        }
      } else {
        LowerKeepsShape(parts[0]);
        ResolveIsCanonical(root, fold, stack + [if fold then Lower(parts[0]) else parts[0]], parts[1..]);
      }
    }
  }

  /** Canonical components are a fixed point of resolution. */
  lemma {:induction false} ResolveKeepsCanonical(root: NormalizedRoot, fold: bool, stack: seq<string>, parts: seq<string>)
    requires fold == Folds(root)
    requires AllCanonical(root, parts)
    ensures Resolve(stack, parts, fold) == Some(stack + parts)
    decreases |parts|
  {
    if parts != [] {
      assert CanonicalComponent(root, parts[0]);
      assert fold ==> Lower(parts[0]) == parts[0];
      ResolveKeepsCanonical(root, fold, stack + [parts[0]], parts[1..]);
      assert stack + [parts[0]] + parts[1..] == stack + parts;
    } else {
      assert stack + parts == stack;
    }
  }

  // ----- Extending an accepted path by one slash and more text -----

  function Tail(root: NormalizedRoot, text: string): seq<string> {
    Split(if Folds(root) then Replace(text, '\\', '/') else text, '/')
  }

  /** The raw text may follow a slash under this root without being rejected for its characters. */
  predicate TailSyntax(root: NormalizedRoot, text: string) {
    NoControl(text) && (root.ProjectRoot? ==> '\\' !in text)
  }

  function Extend(path: FilesystemPath, text: string): FilesystemPath {
    path.(path := path.path + "/" + text)
  }

  function ExtendMeaning(n: NormalizedPath, text: string): Result<NormalizedPath> {
    var resolved := Resolve(n.components, Tail(n.root, text), Folds(n.root));
    if n.root.ProjectRoot? && resolved == Some([]) then Err(InvalidInput) else Build(n.root, resolved)
  }

  lemma SplitTail(a: string, b: string)
    ensures Split(a + "/" + b, '/') == Split(a, '/') + Split(b, '/')
  {
    SplitConcat(a, b, '/');
  }

  /** Text after a slash is resolved on top of the components already accepted, whatever the root form. */
  lemma ExtendResolves(path: FilesystemPath, n: NormalizedPath, text: string)
    requires Normalized(path) == Ok(n) && TailSyntax(n.root, text)
    ensures Normalized(Extend(path, text)) == ExtendMeaning(n, text)
  {
    var longer := path.path + "/" + text;
    assert NoControl(longer);
    match path {
      case ProjectRelative(a) =>
        SplitTail(a, text);
        ResolveConcat([], Split(a, '/'), Split(text, '/'), false);
      case Absolute(Unix, a) =>
        SplitTail(a, text);
        var head := Split(a, '/');
        assert (head + Split(text, '/'))[1..] == head[1..] + Split(text, '/');
        ResolveConcat([], head[1..], Split(text, '/'), false);
      case Absolute(Windows, a) =>
        ExtendWindows(a, n, text);
    }
  }

  lemma ExtendWindows(a: string, n: NormalizedPath, text: string)
    requires NormalizeAbsolute(Windows, a) == Ok(n) && TailSyntax(n.root, text)
    ensures NormalizeWindows(Replace(a + "/" + text, '\\', '/')) == ExtendMeaning(n, text)
  {
    var ra, rt := Replace(a, '\\', '/'), Replace(text, '\\', '/');
    assert Replace(a + "/" + text, '\\', '/') == ra + "/" + rt;
    if HasUncPrefix(ra) {
      ExtendUnc(ra, rt);
    } else {
      ExtendDrive(ra, rt);
    }
  }

  lemma SplitOfExtendedUnc(ra: string, rt: string)
    requires HasUncPrefix(ra)
    ensures HasUncPrefix(ra + "/" + rt)
    ensures Split((ra + "/" + rt)[2..], '/') == Split(ra[2..], '/') + Split(rt, '/')
  {
    var longer := ra + "/" + rt;
    assert longer[..2] == ra[..2] && longer[2..] == ra[2..] + "/" + rt;
    SplitTail(ra[2..], rt);
  }

  lemma ExtendUnc(ra: string, rt: string)
    requires HasUncPrefix(ra) && NormalizeWindows(ra).Ok?
    ensures var n := NormalizeWindows(ra).value;
            NormalizeWindows(ra + "/" + rt) == Build(n.root, Resolve(n.components, Split(rt, '/'), true))
  {
    SplitOfExtendedUnc(ra, rt);
    ExtendUncPieces(Split(ra[2..], '/'), Split(rt, '/'));
  }

  lemma ExtendUncPieces(raw: seq<string>, parts: seq<string>)
    requires NormalizeUnc(raw).Ok?
    ensures var n := NormalizeUnc(raw).value;
            NormalizeUnc(raw + parts) == Build(n.root, Resolve(n.components, parts, true))
  {
    var longer := raw + parts;
    assert longer[0] == raw[0] && longer[1] == raw[1] && longer[2..] == raw[2..] + parts;
    ResolveConcat([], raw[2..], parts, true);
  }

  lemma ExtendDrive(ra: string, rt: string)
    requires !HasUncPrefix(ra) && NormalizeWindows(ra).Ok?
    ensures var n := NormalizeWindows(ra).value;
            NormalizeWindows(ra + "/" + rt) == Build(n.root, Resolve(n.components, Split(rt, '/'), true))
  {
    var longer := ra + "/" + rt;
    assert !HasUncPrefix(longer) by { assert longer[0] == ra[0]; }
    assert longer[3..] == ra[3..] + "/" + rt;
    SplitTail(ra[3..], rt);
    ResolveConcat([], Split(ra[3..], '/'), Split(rt, '/'), true);
  }

  // ----- Printing and parsing -----

  lemma PrintIsSpelledCleanly(root: NormalizedRoot, components: seq<string>)
    requires Canonical(root, components)
    ensures Print(root, components) != "" && NoControl(Print(root, components))
    ensures !root.UnixRoot? ==> '\\' !in Print(root, components)
  {
    var allowed := c => !IsControl(c) && (root.UnixRoot? || c != '\\');
    forall i | 0 <= i < |components| ensures Chars(allowed, components[i]) {
      assert CanonicalComponent(root, components[i]);
    }
    JoinKeepsChars(allowed, components, '/');
    if components != [] {
      assert CanonicalComponent(root, components[0]);
    }
    assert Chars(allowed, Print(root, components));
  }

  lemma SplitCanonical(root: NormalizedRoot, components: seq<string>)
    requires AllCanonical(root, components)
    ensures Plain(components, '/')
    ensures Split(Join(components, '/'), '/') == if components == [] then [""] else components
  {
    forall i | 0 <= i < |components| ensures '/' !in components[i] {
      assert CanonicalComponent(root, components[i]);
    }
    if components != [] {
      SplitOfJoin(components, '/');
    }
  }

  lemma CanonicalResolvesToItself(root: NormalizedRoot, fold: bool, components: seq<string>)
    requires fold == Folds(root) && AllCanonical(root, components)
    ensures Resolve([], components, fold) == Some(components)
    ensures Resolve([], Split(Join(components, '/'), '/'), fold) == Some(components)
  {
    SplitCanonical(root, components);
    ResolveKeepsCanonical(root, fold, [], components);
    assert [] + components == components;
  }

  lemma ParseOfProjectPrint(components: seq<string>)
    requires Canonical(ProjectRoot, components)
    ensures NormalizeRelative(Print(ProjectRoot, components))
            == Ok(NormalizedPath(ProjectRoot, components, Print(ProjectRoot, components)))
  {
    var text := Print(ProjectRoot, components);
    PrintIsSpelledCleanly(ProjectRoot, components);
    CanonicalResolvesToItself(ProjectRoot, false, components);
    assert CanonicalComponent(ProjectRoot, components[0]);
    assert text[0] == components[0][0];
  }

  lemma ParseOfUnixPrint(components: seq<string>)
    requires Canonical(UnixRoot, components)
    ensures NormalizeUnix(Print(UnixRoot, components))
            == Ok(NormalizedPath(UnixRoot, components, Print(UnixRoot, components)))
  {
    var text := Print(UnixRoot, components);
    CanonicalResolvesToItself(UnixRoot, false, components);
    assert text == "" + "/" + Join(components, '/');
    SplitTail("", Join(components, '/'));
    assert Split(text, '/')[1..] == Split(Join(components, '/'), '/');
  }

  lemma ParseOfDrivePrint(root: NormalizedRoot, drive: string, components: seq<string>)
    requires root == WindowsDrive(drive) && Canonical(root, components)
    ensures NormalizeWindows(Print(root, components)) == Ok(NormalizedPath(root, components, Print(root, components)))
  {
    var text := Print(root, components);
    CanonicalResolvesToItself(root, true, components);
    assert text[0] == drive[0] && text[1] == ':' && text[2] == '/';
    assert [UpperChar(text[0])] == drive;
    assert text[3..] == Join(components, '/');
    assert !HasUncPrefix(text);
    assert HasDrivePrefix(text) && WindowsDrive([UpperChar(text[0])]) == root;
  }

  lemma UncPrintIsJoined(server: string, share: string, components: seq<string>)
    ensures Print(WindowsUnc(server, share), components) == "//" + Join([server, share] + components, '/')
  {
    var names := [server, share];
    assert Join(names, '/') == server + "/" + share;
    if components != [] {
      JoinConcat(names, components, '/');
    } else {
      assert names + components == names;
    }
  }

  lemma ParseOfUncPrint(root: NormalizedRoot, server: string, share: string, components: seq<string>)
    requires root == WindowsUnc(server, share) && Canonical(root, components)
    ensures NormalizeWindows(Print(root, components)) == Ok(NormalizedPath(root, components, Print(root, components)))
  {
    var text, raw := Print(root, components), [server, share] + components;
    UncPrintIsJoined(server, share, components);
    SplitCanonical(root, components);
    SplitOfJoin(raw, '/');
    assert text[..2] == "//" && text[2..] == Join(raw, '/');
    assert raw[2..] == components;
    CanonicalResolvesToItself(root, true, components);
    assert Lower(server) == server && Lower(share) == share;
  }

  /** Parsing a canonical spelling gives back exactly the root and components it was printed from. */
  lemma ParseOfPrint(root: NormalizedRoot, components: seq<string>)
    requires Canonical(root, components)
    ensures Normalized(ToPath(root, components)) == Ok(NormalizedPath(root, components, Print(root, components)))
  {
    var text := Print(root, components);
    PrintIsSpelledCleanly(root, components);
    assert !root.UnixRoot? ==> Replace(text, '\\', '/') == text;
    match root {
      case ProjectRoot => ParseOfProjectPrint(components);
      case UnixRoot => ParseOfUnixPrint(components);
      case WindowsDrive(drive) => ParseOfDrivePrint(root, drive, components);
      case WindowsUnc(server, share) => ParseOfUncPrint(root, server, share, components);
    }
  }

  /** Everything the parser accepts is canonical and carries its own printed form. */
  lemma ParseIsCanonical(path: FilesystemPath, n: NormalizedPath)
    requires Normalized(path) == Ok(n)
    ensures Canonical(n.root, n.components)
    ensures n.canonical == Print(n.root, n.components)
    ensures path.(path := n.canonical) == ToPath(n.root, n.components)
  {
    match path {
      case ProjectRelative(a) =>
        SegmentsAreRaw(ProjectRoot, a);
        ResolveIsCanonical(ProjectRoot, false, [], Split(a, '/'));
      case Absolute(Unix, a) =>
        SegmentsAreRaw(UnixRoot, a);
        ResolveIsCanonical(UnixRoot, false, [], Split(a, '/')[1..]);
      case Absolute(Windows, a) =>
        var text := Replace(a, '\\', '/');
        if HasUncPrefix(text) {
          var raw := Split(text[2..], '/');
          SegmentsAreRaw(n.root, text[2..]);
          ResolveIsCanonical(n.root, true, [], raw[2..]);
          assert CanonicalName(n.root, Lower(raw[0])) && CanonicalName(n.root, Lower(raw[1]));
        } else {
          SegmentsAreRaw(n.root, text[3..]);
          ResolveIsCanonical(n.root, true, [], Split(text[3..], '/'));
        }
    }
  }

  lemma SegmentsAreRaw(root: NormalizedRoot, text: string)
    requires NoControl(text) && (root.UnixRoot? || '\\' !in text)
    ensures RawSegments(root, Split(text, '/'))
  {
    var allowed := c => !IsControl(c) && (root.UnixRoot? || c != '\\');
    SplitKeepsChars(allowed, text, '/');
    SplitIsPlain(text, '/');
    var parts := Split(text, '/');
    forall i, j | 0 <= i < |parts| && 0 <= j < |parts[i]|
      ensures AllowedChar(root, if Folds(root) then LowerChar(parts[i][j]) else parts[i][j])
    {
      assert Chars(allowed, parts[i]) && '/' !in parts[i];
    }
  }

  /** Reparsing the canonical string of any accepted path changes nothing. */
  lemma CanonicalIsFixed(path: FilesystemPath, n: NormalizedPath)
    requires Normalized(path) == Ok(n)
    ensures Normalized(path.(path := n.canonical)) == Ok(n)
  {
    ParseIsCanonical(path, n);
    ParseOfPrint(n.root, n.components);
  }

  lemma ProjectRelativeIsValid(text: string)
    ensures NewProjectRelative(text).Ok? ==> ValidPath(NewProjectRelative(text).value)
  {
    var path := ProjectRelative(text);
    if Normalized(path).Ok? {
      CanonicalIsFixed(path, Normalized(path).value);
    }
  }

  lemma AbsoluteIsValid(platform: Platform, text: string)
    ensures NewAbsolute(platform, text).Ok? ==> ValidPath(NewAbsolute(platform, text).value)
  {
    var path := Absolute(platform, text);
    if Normalized(path).Ok? {
      CanonicalIsFixed(path, Normalized(path).value);
    }
  }

  lemma ConstructorsBuildValidPaths(platform: Platform, text: string)
    ensures NewProjectRelative(text).Ok? ==> ValidPath(NewProjectRelative(text).value)
    ensures NewAbsolute(platform, text).Ok? ==> ValidPath(NewAbsolute(platform, text).value)
    ensures NewNative(platform, text).Ok? ==> ValidPath(NewNative(platform, text).value)
  {
    ProjectRelativeIsValid(text);
    ProjectRelativeIsValid(Replace(text, '\\', '/'));
    AbsoluteIsValid(platform, text);
  }

  /** A valid path is exactly a canonical root with canonical components, in its one spelling. */
  lemma ValidPathsAreTheCanonicalOnes(path: FilesystemPath)
    ensures ValidPath(path) <==> exists root, components :: Canonical(root, components) && path == ToPath(root, components)
  {
    if ValidPath(path) {
      var n := Normalized(path).value;
      ParseIsCanonical(path, n);
      assert path == ToPath(n.root, n.components);
    }
    forall root, components | Canonical(root, components) && path == ToPath(root, components) ensures ValidPath(path) {
      ParseOfPrint(root, components);
    }
  }

  /**
   * Canonical absolute text fed back through host classification keeps its meaning. Canonical relative
   * text does exactly when the host does not read it as absolute.
   */
  lemma NativeKeepsCanonicalText(current: Platform, text: string)
    ensures ValidPath(Absolute(current, text)) ==> NewNative(current, text) == Ok(Absolute(current, text))
    ensures ValidPath(ProjectRelative(text)) ==>
              (NewNative(current, text) == Ok(ProjectRelative(text)) <==> !IsAbsoluteFor(current, text))
  {
    if ValidPath(ProjectRelative(text)) {
      assert Replace(text, '\\', '/') == text;
    }
    if ValidPath(Absolute(current, text)) && current == Windows {
      var replaced := Replace(text, '\\', '/');
      ParseIsCanonical(Absolute(current, text), Normalized(Absolute(current, text)).value);
      if HasUncPrefix(replaced) {
        assert replaced[..2] == [replaced[0], replaced[1]] && text[..2] == [text[0], text[1]];
        CanonicalHasNoBackslash(Absolute(current, text));
      }
    }
  }

  /** The valid relative texts that a host reads as absolute: drive-like ones on Windows, and no others. */
  lemma OnlyDrivesAreMisread(current: Platform, text: string)
    requires ValidPath(ProjectRelative(text))
    ensures IsAbsoluteFor(current, text) <==>
            && current == Windows && |text| >= 3
            && ('a' <= text[0] <= 'z' || 'A' <= text[0] <= 'Z') && text[1] == ':' && text[2] == '/'
  {
    assert text != "" && text[0] != '/' && '\\' !in text;
    if |text| >= 2 {
      assert text[..2] == [text[0], text[1]];
    }
  }

  /**
   * On Windows a host path means the same with its backslashes as with slashes, unless it opens with one
   * of each, which is always refused.
   */
  lemma NativeSeparatorsAreEqual(text: string)
    ensures if |text| >= 2 && text[0] != text[1] && text[0] in {'/', '\\'} && text[1] in {'/', '\\'}
            then NewNative(Windows, text) == Err(InvalidInput)
            else NewNative(Windows, text) == NewNative(Windows, Replace(text, '\\', '/'))
  {
    var replaced := Replace(text, '\\', '/');
    assert Replace(replaced, '\\', '/') == replaced;
    assert NoControl(text) <==> NoControl(replaced) by {
      assert forall i :: 0 <= i < |text| ==> (IsControl(text[i]) <==> IsControl(replaced[i]));
    }
    if |text| >= 2 {
      assert text[..2] == [text[0], text[1]] && replaced[..2] == [replaced[0], replaced[1]];
    }
  }

  /** A relative path that starts like a Windows drive is reclassified as absolute on that host. */
  lemma NativeReadsDriveAsAbsolute(letter: char, name: string)
    requires IsAsciiAlphabetic(letter) && CanonicalComponent(ProjectRoot, name)
    ensures ValidPath(ProjectRelative([letter] + ":/" + name))
    ensures NewNative(Windows, [letter] + ":/" + name) == Ok(Absolute(Windows, [UpperChar(letter)] + ":/" + Lower(name)))
  {
    var text, components := [letter] + ":/" + name, [[letter, ':'], name];
    assert CanonicalComponent(ProjectRoot, [letter, ':']);
    assert Print(ProjectRoot, components) == [letter, ':'] + "/" + Join([name], '/') == text;
    ParseOfPrint(ProjectRoot, components);
    PrintIsSpelledCleanly(ProjectRoot, components);
    assert Replace(text, '\\', '/') == text && !HasUncPrefix(text);
    assert text[3..] == name;
    assert '/' !in name;
    SplitOfPlain(name, '/');
    var folded := [Lower(name)];
    assert [] + folded == folded;
    assert Resolve(folded, [name][1..], true) == Some(folded);
    assert Resolve([], [name], true) == Some(folded);
    assert Join(folded, '/') == Lower(name);
  }

  lemma NativeMisreadsOnePath() returns (text: string, read: string)
    ensures text == "c:/x" && read == "C:/x"
    ensures ValidPath(ProjectRelative(text)) && NewNative(Windows, text) == Ok(Absolute(Windows, read))
  {
    var name := ['x'];
    text, read := ['c'] + ":/" + name, ['C'] + ":/" + name;
    assert Lower(name) == name;
    NativeReadsDriveAsAbsolute('c', name);
  }

  lemma CanonicalHasNoBackslash(path: FilesystemPath)
    requires ValidPath(path) && path != Absolute(Unix, path.path)
    ensures '\\' !in path.path
  {
    var n := Normalized(path).value;
    ParseIsCanonical(path, n);
    PrintIsSpelledCleanly(n.root, n.components);
  }
}
