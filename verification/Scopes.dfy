/** Exact and recursive filesystem scopes, and what matching them means. */
module Scopes {
  import opened Core
  import opened Text
  import opened Paths
  import opened PathLaws

  datatype FilesystemScope =
    | Exact(path: FilesystemPath)
    | Recursive(root: FilesystemPath)

  function ScopePath(scope: FilesystemScope): FilesystemPath {
    match scope
    case Exact(path) => path
    case Recursive(root) => root
  }

  predicate ValidScope(scope: FilesystemScope) {
    ValidPath(ScopePath(scope))
  }

  function ScopeMatches(scope: FilesystemScope, target: FilesystemPath): Result<bool> {
    var target :- Normalized(target);
    var path :- Normalized(ScopePath(scope));
    if path.root != target.root then Ok(false)
    else if scope.Recursive? then Ok(path.components <= target.components)
    else Ok(path.components == target.components)
  }

  // ----- Containment -----

  /**
   * Appending any accepted relative path below any accepted root stays below that root, and lands on
   * the root's components followed by the resolved components of the relative path.
   */
  lemma Containment(root: FilesystemPath, n: NormalizedPath, relative: string, child: seq<string>)
    requires Normalized(root) == Ok(n)
    requires RelativeComponents(relative) == Ok(child)
    ensures var below := n.components + (if Folds(n.root) then LowerEach(child) else child);
            Normalized(Extend(root, relative)) == Ok(NormalizedPath(n.root, below, Print(n.root, below)))
    ensures ScopeMatches(Recursive(root), Extend(root, relative)) == Ok(true)
    ensures ScopeMatches(Exact(root), Extend(root, relative)) == Ok(false)
  {
    ExtendResolves(root, n, relative);
    var parts := Split(relative, '/');
    assert Replace(relative, '\\', '/') == relative;
    ResolveThenFold([], parts);
    assert LowerEach([]) == [];
    var own := if Folds(n.root) then LowerEach(child) else child;
    assert Resolve([], parts, Folds(n.root)) == Some(own);
    ResolveOnBase(n.components, [], parts, Folds(n.root));
    assert n.components + [] == n.components;
    assert |n.components + own| > |n.components|;
  }

  // ----- The same decision, read off the canonical strings -----

  /** The slash-separated pieces that a root contributes to every canonical string below it. */
  function Lead(root: NormalizedRoot): seq<string> {
    match root
    case ProjectRoot => []
    case UnixRoot => [""]
    case WindowsDrive(drive) => [drive + ":"]
    case WindowsUnc(server, share) => ["", "", server, share]
  }

  function Pieces(root: NormalizedRoot, components: seq<string>): seq<string> {
    if components == [] && !root.WindowsUnc? then Lead(root) + [""] else Lead(root) + components
  }

  /** A canonical string without the slash that only a bare Unix or drive root ends with. */
  function Base(path: string): string {
    if path != "" && path[|path| - 1] == '/' then path[..|path| - 1] else path
  }

  predicate SameSyntax(a: FilesystemPath, b: FilesystemPath) {
    (a.ProjectRelative? && b.ProjectRelative?) || (a.Absolute? && b.Absolute? && a.platform == b.platform)
  }

  predicate AtOrBelow(root: FilesystemPath, target: FilesystemPath) {
    && SameSyntax(root, target)
    && (target.path == root.path || Base(root.path) + "/" <= target.path)
  }

  lemma {:induction false} JoinPrefix(a: seq<string>, b: seq<string>)
    requires a != [] && b != [] && Plain(a, '/') && Plain(b, '/')
    ensures Join(a, '/') + "/" <= Join(b, '/') <==> a < b
  {
    var ja, jb := Join(a, '/'), Join(b, '/');
    if ja + "/" <= jb {
      var rest := jb[|ja| + 1..];
      assert jb == ja + "/" + rest;
      SplitTail(ja, rest);
      SplitOfJoin(a, '/');
      SplitOfJoin(b, '/');
    }
    if a < b {
      var rest := b[|a|..];
      assert b == a + rest;
      JoinConcat(a, rest, '/');
    }
  }

  lemma PiecesArePlain(root: NormalizedRoot, components: seq<string>)
    requires Canonical(root, components)
    ensures Plain(Pieces(root, components), '/') && Plain(Lead(root) + components, '/')
    ensures Lead(root) + components != []
  {
    SplitCanonical(root, components);
    assert Plain(Lead(root), '/') by {
      if root.WindowsUnc? {
        assert CanonicalName(root, root.server) && CanonicalName(root, root.share);
      }
    }
  }

  lemma PrintIsJoinedPieces(root: NormalizedRoot, components: seq<string>)
    requires Canonical(root, components)
    ensures Print(root, components) == Join(Pieces(root, components), '/')
  {
    var spelled := Pieces(root, components);
    if root.WindowsUnc? {
      UncPrintIsJoined(root.server, root.share, components);
      assert spelled == ["", ""] + ([root.server, root.share] + components);
      JoinConcat(["", ""], [root.server, root.share] + components, '/');
    } else if root.ProjectRoot? {
      assert spelled == components;
    } else {
      var rest := if components == [] then [""] else components;
      assert spelled == Lead(root) + rest;
      JoinConcat(Lead(root), rest, '/');
    }
  }

  lemma PiecesSpellThePath(root: NormalizedRoot, components: seq<string>)
    requires Canonical(root, components)
    ensures Plain(Pieces(root, components), '/') && Plain(Lead(root) + components, '/')
    ensures Lead(root) + components != []
    ensures Print(root, components) == Join(Pieces(root, components), '/')
    ensures Base(Print(root, components)) == Join(Lead(root) + components, '/')
  {
    PiecesArePlain(root, components);
    PrintIsJoinedPieces(root, components);
    BaseDropsBareSlash(root, components);
  }

  lemma BaseDropsBareSlash(root: NormalizedRoot, components: seq<string>)
    requires Canonical(root, components)
    requires Plain(Lead(root) + components, '/')
    requires Print(root, components) == Join(Pieces(root, components), '/')
    ensures Base(Print(root, components)) == Join(Lead(root) + components, '/')
  {
    if components == [] && !root.WindowsUnc? {
      assert Lead(root) + components == Lead(root);
      JoinConcat(Lead(root), [""], '/');
    } else {
      var spelled := Lead(root) + components;
      var last := spelled[|spelled| - 1];
      assert spelled == Pieces(root, components);
      assert last != "" && '/' !in last by {
        if components != [] {
          assert CanonicalComponent(root, components[|components| - 1]);
        }
      }
      if |spelled| > 1 {
        assert spelled == spelled[..|spelled| - 1] + [last];
        JoinConcat(spelled[..|spelled| - 1], [last], '/');
      }
      assert Join(spelled, '/')[|Join(spelled, '/')| - 1] == last[|last| - 1];
    }
  }

  /**
   * On valid paths, a recursive scope matches exactly the root's own string and the strings that
   * continue it after a slash, and an exact scope matches exactly the same path.
   */
  lemma MatchingIsBoundaryPrefix(scope: FilesystemScope, target: FilesystemPath)
    requires ValidScope(scope) && ValidPath(target)
    ensures ScopeMatches(scope, target) ==
            Ok(if scope.Recursive? then AtOrBelow(scope.root, target) else scope.path == target)
  {
    var path := ScopePath(scope);
    var n, t := Normalized(path).value, Normalized(target).value;
    ParseIsCanonical(path, n);
    ParseIsCanonical(target, t);
    assert path == ToPath(n.root, n.components) && target == ToPath(t.root, t.components);
    if path != target && SameSyntax(path, target) {
      ProperPrefixIsBoundary(n, t);
    }
  }

  lemma ProperPrefixIsBoundary(n: NormalizedPath, t: NormalizedPath)
    requires Canonical(n.root, n.components) && Canonical(t.root, t.components)
    requires SameSyntax(ToPath(n.root, n.components), ToPath(t.root, t.components))
    requires ToPath(n.root, n.components) != ToPath(t.root, t.components)
    ensures n.root == t.root && n.components <= t.components <==>
            Base(Print(n.root, n.components)) + "/" <= Print(t.root, t.components)
  {
    PiecesSpellThePath(n.root, n.components);
    PiecesSpellThePath(t.root, t.components);
    var above, below := Lead(n.root) + n.components, Pieces(t.root, t.components);
    JoinPrefix(above, below);
    if above < below {
      LeadsDetermineRoots(n, t);
    }
    if n.root == t.root && n.components <= t.components {
      assert n.components != t.components;
      assert below == Lead(n.root) + t.components;
    }
  }

  lemma LeadsDetermineRoots(n: NormalizedPath, t: NormalizedPath)
    requires Canonical(n.root, n.components) && Canonical(t.root, t.components)
    requires SameSyntax(ToPath(n.root, n.components), ToPath(t.root, t.components))
    requires Lead(n.root) + n.components < Pieces(t.root, t.components)
    ensures n.root == t.root && n.components <= t.components
  {
    var a, b := Lead(n.root) + n.components, Pieces(t.root, t.components);
    assert forall i :: 0 <= i < |a| ==> a[i] == b[i];
    if Folds(n.root) {
      assert n.root.WindowsDrive? <==> a[0] != "";
      assert t.root.WindowsDrive? <==> b[0] != "";
      assert n.root.WindowsDrive? ==> a[0][0] == n.root.drive[0] && b[0][0] == t.root.drive[0];
      assert n.root.WindowsUnc? ==> a[2] == n.root.server && a[3] == n.root.share;
    }
    assert n.root == t.root;
    assert a[|Lead(n.root)|..] == n.components;
    assert b[|Lead(t.root)|..] == if t.components == [] && !t.root.WindowsUnc? then [""] else t.components;
    if t.components == [] && !t.root.WindowsUnc? {
      assert n.components == [] by { assert |a| < |b|; }
    }
  }

  // ----- Containment as an order -----

  predicate Covers(root: FilesystemPath, target: FilesystemPath) {
    ScopeMatches(Recursive(root), target) == Ok(true)
  }

  lemma CoveringIsAPartialOrder(a: FilesystemPath, b: FilesystemPath, c: FilesystemPath)
    requires ValidPath(a) && ValidPath(b) && ValidPath(c)
    ensures Covers(a, a)
    ensures Covers(a, b) && Covers(b, a) ==> a == b
    ensures Covers(a, b) && Covers(b, c) ==> Covers(a, c)
    ensures ScopeMatches(Exact(a), b) == Ok(true) ==> Covers(a, b)
  {
    MatchingIsBoundaryPrefix(Exact(a), b);
    if Covers(a, b) && Covers(b, a) {
      var n, m := Normalized(a).value, Normalized(b).value;
      ParseIsCanonical(a, n);
      ParseIsCanonical(b, m);
      assert n.components == m.components;
    }
  }
}
