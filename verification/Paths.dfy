/** Lexical filesystem targets: parsing, `.`/`..` resolution, and canonical printing. */
module Paths {
  import opened Core
  import opened Text

  datatype Platform = Unix | Windows

  datatype FilesystemPath =
    | ProjectRelative(path: string)
    | Absolute(platform: Platform, path: string)

  datatype NormalizedRoot =
    | ProjectRoot
    | UnixRoot
    | WindowsDrive(drive: string)
    | WindowsUnc(server: string, share: string)

  datatype NormalizedPath = NormalizedPath(root: NormalizedRoot, components: seq<string>, canonical: string)

  // ----- Resolution of path segments -----

  /** Folds segments onto a stack: empty and `.` vanish, `..` pops, anything else is pushed. */
  function Resolve(stack: seq<string>, parts: seq<string>, fold: bool): Option<seq<string>>
    decreases |parts|
  {
    if parts == [] then Some(stack)
    else if parts[0] == "" || parts[0] == "." then Resolve(stack, parts[1..], fold)
    else if parts[0] == ".." then
      if stack == [] then None else Resolve(stack[..|stack| - 1], parts[1..], fold)
    else Resolve(stack + [if fold then Lower(parts[0]) else parts[0]], parts[1..], fold)
  }

  predicate RelativeSyntax(path: string) {
    path != "" && path[0] != '/' && '\\' !in path && NoControl(path)
  }

  function RelativeComponents(path: string): Result<seq<string>> {
    if !RelativeSyntax(path) then Err(InvalidInput)
    else
      match Resolve([], Split(path, '/'), false)
      case None => Err(InvalidInput)
      case Some(components) => if components == [] then Err(InvalidInput) else Ok(components)
  }

  /** The stack loop over one relative path. */
  method NormalizeRelativeComponents(path: string) returns (r: Result<seq<string>>)
    ensures r == RelativeComponents(path)
  {
    if path == "" || path[0] == '/' || '\\' in path || !NoControl(path) {
      return Err(InvalidInput);
    }
    var parts := Split(path, '/');
    var components: seq<string> := [];
    for i := 0 to |parts|
      invariant Resolve([], parts, false) == Resolve(components, parts[i..], false)
    {
      var component := parts[i];
      assert parts[i..][1..] == parts[i + 1..];
      if component == "" || component == "." {
      } else if component == ".." {
        if components == [] {
          return Err(InvalidInput);
        }
        components := components[..|components| - 1];
      } else {
        components := components + [component];
      }
    }
    if components == [] {
      return Err(InvalidInput);
    }
    return Ok(components);
  }

  /** The stack loop over the segments that follow an absolute root. */
  method NormalizeAbsoluteComponents(values: seq<string>, asciiCaseFold: bool) returns (r: Result<seq<string>>)
    ensures r == match Resolve([], values, asciiCaseFold) case None => Err(InvalidInput) case Some(c) => Ok(c)
  {
    var components: seq<string> := [];
    for i := 0 to |values|
      invariant Resolve([], values, asciiCaseFold) == Resolve(components, values[i..], asciiCaseFold)
    {
      var component := values[i];
      assert values[i..][1..] == values[i + 1..];
      if component == "" || component == "." {
      } else if component == ".." {
        if components == [] {
          return Err(InvalidInput);
        }
        components := components[..|components| - 1];
      } else {
        components := components + [if asciiCaseFold then Lower(component) else component];
      }
    }
    return Ok(components);
  }

  // ----- The four root forms -----

  /** The one canonical spelling of a root and its components. */
  function Print(root: NormalizedRoot, components: seq<string>): string {
    match root
    case ProjectRoot => Join(components, '/')
    case UnixRoot => "/" + Join(components, '/')
    case WindowsDrive(drive) => drive + ":/" + Join(components, '/')
    case WindowsUnc(server, share) =>
      "//" + server + "/" + share + (if components == [] then "" else "/" + Join(components, '/'))
  }

  function Build(root: NormalizedRoot, resolved: Option<seq<string>>): Result<NormalizedPath> {
    match resolved
    case None => Err(InvalidInput)
    case Some(components) => Ok(NormalizedPath(root, components, Print(root, components)))
  }

  function NormalizeUnix(path: string): Result<NormalizedPath>
    requires path != ""
  {
    if path[0] != '/' then Err(InvalidInput)
    else Build(UnixRoot, Resolve([], Split(path, '/')[1..], false))
  }

  predicate HasUncPrefix(replaced: string) {
    |replaced| >= 2 && replaced[..2] == "//"
  }

  predicate HasDrivePrefix(replaced: string) {
    |replaced| >= 3 && IsAsciiAlphabetic(replaced[0]) && replaced[1] == ':' && replaced[2] == '/'
  }

  /** The pieces after the two slashes: a server, a share, and the segments below them. */
  function NormalizeUnc(raw: seq<string>): Result<NormalizedPath> {
    if |raw| < 2 || raw[0] == "" || raw[1] == "" then Err(InvalidInput)
    else Build(WindowsUnc(Lower(raw[0]), Lower(raw[1])), Resolve([], raw[2..], true))
  }

  /** Drive and UNC syntax, after backslashes have become slashes. */
  function NormalizeWindows(replaced: string): Result<NormalizedPath> {
    if HasUncPrefix(replaced) then NormalizeUnc(Split(replaced[2..], '/'))
    else if !HasDrivePrefix(replaced) then Err(InvalidInput)
    else Build(WindowsDrive([UpperChar(replaced[0])]), Resolve([], Split(replaced[3..], '/'), true))
  }

  function NormalizeAbsolute(platform: Platform, path: string): Result<NormalizedPath> {
    if path == "" || !NoControl(path) then Err(InvalidInput)
    else
      match platform
      case Unix => NormalizeUnix(path)
      case Windows => NormalizeWindows(Replace(path, '\\', '/'))
  }

  function NormalizeRelative(path: string): Result<NormalizedPath> {
    var components :- RelativeComponents(path);
    Ok(NormalizedPath(ProjectRoot, components, Print(ProjectRoot, components)))
  }

  function Normalized(path: FilesystemPath): Result<NormalizedPath> {
    match path
    case ProjectRelative(text) => NormalizeRelative(text)
    case Absolute(platform, text) => NormalizeAbsolute(platform, text)
  }

  /** A retained path is valid when it is spelled canonically. */
  predicate ValidPath(path: FilesystemPath) {
    Normalized(path).Ok? && Normalized(path).value.canonical == path.path
  }

  function NewProjectRelative(path: string): Result<FilesystemPath> {
    var normalized :- NormalizeRelative(path);
    Ok(ProjectRelative(normalized.canonical))
  }

  function NewAbsolute(platform: Platform, path: string): Result<FilesystemPath> {
    var normalized :- NormalizeAbsolute(platform, path);
    Ok(Absolute(platform, normalized.canonical))
  }

  predicate IsAbsoluteFor(platform: Platform, path: string) {
    match platform
    case Unix => path != "" && path[0] == '/'
    case Windows =>
      || (|path| >= 2 && (path[..2] == "\\\\" || path[..2] == "//"))
      || (|path| >= 3 && IsAsciiAlphabetic(path[0]) && path[1] == ':' && (path[2] == '/' || path[2] == '\\'))
  }

  /** Classifies one host path, on the host's own platform. */
  function NewNative(current: Platform, path: string): Result<FilesystemPath> {
    if IsAbsoluteFor(current, path) then NewAbsolute(current, path)
    else NewProjectRelative(if current == Windows then Replace(path, '\\', '/') else path)
  }

  // ----- What canonical means, independently of the parser -----

  predicate Folds(root: NormalizedRoot) {
    root.WindowsDrive? || root.WindowsUnc?
  }

  /** Characters a component may hold under each root. */
  predicate AllowedChar(root: NormalizedRoot, c: char) {
    && !IsControl(c) && c != '/'
    && (root.UnixRoot? || c != '\\')
    && (Folds(root) ==> !IsAsciiUpper(c))
  }

  predicate CanonicalComponent(root: NormalizedRoot, component: string) {
    && component != "" && component != "." && component != ".."
    && forall i :: 0 <= i < |component| ==> AllowedChar(root, component[i])
  }

  predicate AllCanonical(root: NormalizedRoot, components: seq<string>) {
    forall i :: 0 <= i < |components| ==> CanonicalComponent(root, components[i])
  }

  predicate CanonicalName(root: NormalizedRoot, name: string) {
    name != "" && forall i :: 0 <= i < |name| ==> AllowedChar(root, name[i])
  }

  predicate CanonicalRoot(root: NormalizedRoot) {
    match root
    case ProjectRoot => true
    case UnixRoot => true
    case WindowsDrive(drive) => |drive| == 1 && IsAsciiUpper(drive[0])
    case WindowsUnc(server, share) => CanonicalName(root, server) && CanonicalName(root, share)
  }

  predicate Canonical(root: NormalizedRoot, components: seq<string>) {
    && CanonicalRoot(root)
    && (root.ProjectRoot? ==> components != [])
    && AllCanonical(root, components)
  }

  function ToPath(root: NormalizedRoot, components: seq<string>): FilesystemPath {
    match root
    case ProjectRoot => ProjectRelative(Print(root, components))
    case UnixRoot => Absolute(Unix, Print(root, components))
    case _ => Absolute(Windows, Print(root, components))
  }
}
