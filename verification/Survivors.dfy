/**
 * Which segments of a path are left, read off the segments alone: a name survives exactly when the `..`
 * segments after it never outnumber the names from it on.
 */
module Survivors {
  import opened Core
  import opened Text
  import opened Paths
  import opened PathLaws
  import opened Scopes
  import opened Spellings

  /** Anything but an empty segment, `.`, or `..`. */
  predicate IsName(segment: string) {
    segment != "" && segment != "." && segment != ".."
  }

  function Weight(segment: string): int {
    if IsName(segment) then 1 else if segment == ".." then -1 else 0
  }

  /** Names minus `..` segments. */
  function Depth(parts: seq<string>): int {
    if parts == [] then 0 else Depth(parts[..|parts| - 1]) + Weight(parts[|parts| - 1])
  }

  predicate EscapesAt(parts: seq<string>, k: nat) {
    k <= |parts| && Depth(parts[..k]) < 0
  }

  /** Some prefix goes above where it started. */
  ghost predicate Escapes(parts: seq<string>) {
    exists k :: EscapesAt(parts, k)
  }

  ghost predicate Survives(parts: seq<string>, i: nat)
    requires i < |parts|
  {
    IsName(parts[i]) && forall j :: i < j <= |parts| ==> Depth(parts[i..j]) >= 1
  }

  /** Exactly the positions of the surviving names, in order. */
  ghost predicate AreSurvivors(parts: seq<string>, kept: seq<nat>) {
    && (forall k :: 0 <= k < |kept| ==> kept[k] < |parts| && Survives(parts, kept[k]))
    && (forall j, k :: 0 <= j < k < |kept| ==> kept[j] < kept[k])
    && (forall i :: 0 <= i < |parts| && Survives(parts, i) ==> i in kept)
  }

  function NamesAt(parts: seq<string>, kept: seq<nat>, fold: bool): (names: seq<string>)
    requires forall k :: 0 <= k < |kept| ==> kept[k] < |parts|
    ensures |names| == |kept|
  {
    seq(|kept|, k requires 0 <= k < |kept| => if fold then Lower(parts[kept[k]]) else parts[kept[k]])
  }

  // ----- One more segment -----

  lemma DepthOfOneMore(front: seq<string>, x: string)
    ensures Depth(front + [x]) == Depth(front) + Weight(x)
  {
    assert (front + [x])[..|front|] == front;
  }

  lemma SurvivesOneMore(front: seq<string>, x: string, i: nat)
    requires i < |front|
    ensures Survives(front + [x], i) <==> Survives(front, i) && Depth(front[i..]) + Weight(x) >= 1
  {
    var parts := front + [x];
    assert forall j :: i < j <= |front| ==> parts[i..j] == front[i..j];
    assert parts[i..|parts|] == front[i..] + [x];
    DepthOfOneMore(front[i..], x);
    assert front[i..|front|] == front[i..];
  }

  lemma EscapesOneMore(front: seq<string>, x: string)
    ensures Escapes(front + [x]) <==> Escapes(front) || Depth(front) + Weight(x) < 0
  {
    var parts := front + [x];
    DepthOfOneMore(front, x);
    forall k: nat | k <= |front| ensures EscapesAt(parts, k) <==> EscapesAt(front, k) {
      assert parts[..k] == front[..k];
    }
    assert EscapesAt(parts, |parts|) <==> Depth(parts) < 0 by {
      assert parts[..|parts|] == parts;
    }
    if Escapes(parts) {
      var k: nat :| EscapesAt(parts, k);
      assert k <= |front| ==> EscapesAt(front, k);
    }
    if Escapes(front) {
      var k: nat :| EscapesAt(front, k);
      assert EscapesAt(parts, k);
    }
  }

  /** The k-th survivor still has as much depth behind it as there are survivors from it on. */
  ghost predicate Counted(parts: seq<string>, kept: seq<nat>) {
    && AreSurvivors(parts, kept)
    && Depth(parts) == |kept|
    && forall k :: 0 <= k < |kept| ==> Depth(parts[kept[k]..]) == |kept| - k
  }

  lemma DepthBehind(front: seq<string>, x: string, i: nat)
    requires i < |front|
    ensures Depth((front + [x])[i..]) == Depth(front[i..]) + Weight(x)
  {
    assert (front + [x])[i..] == front[i..] + [x];
    DepthOfOneMore(front[i..], x);
  }

  function KeptAfter(kept: seq<nat>, n: nat, x: string): seq<nat> {
    if IsName(x) then kept + [n]
    else if x == ".." && kept != [] then kept[..|kept| - 1]
    else kept
  }

  lemma LastSurvives(front: seq<string>, x: string)
    ensures Survives(front + [x], |front|) <==> IsName(x)
    ensures Depth((front + [x])[|front|..]) == Weight(x)
  {
    var parts := front + [x];
    assert parts[|front|..|parts|] == [x] && parts[|front|..] == [x];
    assert [x][..0] == [];
    assert Depth([x]) == Depth([x][..0]) + Weight(x);
  }

  /** Where an old position stands after one more segment, by how deep it was. */
  lemma OldPositions(front: seq<string>, kept: seq<nat>, x: string)
    requires Counted(front, kept)
    ensures forall k :: 0 <= k < |kept| ==>
              && kept[k] < |front|
              && Depth((front + [x])[kept[k]..]) == |kept| - k + Weight(x)
              && (Survives(front + [x], kept[k]) <==> |kept| - k + Weight(x) >= 1)
    ensures forall i :: 0 <= i < |front| && i !in kept ==> !Survives(front + [x], i)
  {
    forall k | 0 <= k < |kept|
      ensures Depth((front + [x])[kept[k]..]) == |kept| - k + Weight(x)
      ensures Survives(front + [x], kept[k]) <==> |kept| - k + Weight(x) >= 1
    {
      DepthBehind(front, x, kept[k]);
      SurvivesOneMore(front, x, kept[k]);
    }
    forall i | 0 <= i < |front| && i !in kept ensures !Survives(front + [x], i) {
      SurvivesOneMore(front, x, i);
    }
  }

  lemma NameIsKept(front: seq<string>, kept: seq<nat>, x: string)
    requires Counted(front, kept) && IsName(x)
    ensures Counted(front + [x], kept + [|front|])
  {
    DepthOfOneMore(front, x);
    LastSurvives(front, x);
    OldPositions(front, kept, x);
    var parts, now := front + [x], kept + [|front|];
    forall i | 0 <= i < |parts| && Survives(parts, i) ensures i in now {
      assert i < |front| ==> i in kept;
    }
  }

  lemma UpDropsLast(front: seq<string>, kept: seq<nat>)
    requires Counted(front, kept) && kept != []
    ensures Counted(front + [".."], kept[..|kept| - 1])
  {
    DepthOfOneMore(front, "..");
    LastSurvives(front, "..");
    OldPositions(front, kept, "..");
    var parts, now := front + [".."], kept[..|kept| - 1];
    assert forall k :: 0 <= k < |now| ==> now[k] == kept[k];
    assert !Survives(parts, kept[|kept| - 1]) && !Survives(parts, |front|);
    forall i | 0 <= i < |parts| && Survives(parts, i) ensures i in now {
      var k :| 0 <= k < |kept| && kept[k] == i;
      assert k < |now| && now[k] == i;
    }
  }

  lemma NothingIsNothing(front: seq<string>, kept: seq<nat>, x: string)
    requires Counted(front, kept) && !IsName(x) && x != ".."
    ensures Counted(front + [x], kept)
  {
    DepthOfOneMore(front, x);
    LastSurvives(front, x);
    OldPositions(front, kept, x);
  }

  lemma KeptOneMore(front: seq<string>, kept: seq<nat>, x: string)
    requires Counted(front, kept) && (x == ".." ==> kept != [])
    ensures Counted(front + [x], KeptAfter(kept, |front|, x))
  {
    if IsName(x) {
      NameIsKept(front, kept, x);
    } else if x == ".." {
      UpDropsLast(front, kept);
    } else {
      NothingIsNothing(front, kept, x);
    }
  }

  // ----- The law -----

  lemma ResolveOneMore(stack: seq<string>, front: seq<string>, x: string, fold: bool)
    ensures Resolve(stack, front + [x], fold) ==
            match Resolve(stack, front, fold)
            case None => None
            case Some(c) =>
              if IsName(x) then Some(c + [if fold then Lower(x) else x])
              else if x != ".." then Some(c)
              else if c == [] then None
              else Some(c[..|c| - 1])
  {
    ResolveConcat(stack, front, [x], fold);
    assert [x][1..] == [];
  }

  /**
   * Resolution fails exactly when some prefix goes above its start, and otherwise leaves exactly the
   * surviving names, in order.
   */
  lemma {:induction false} ResolutionIsSurvival(parts: seq<string>, fold: bool) returns (kept: seq<nat>)
    ensures Resolve([], parts, fold).None? <==> Escapes(parts)
    ensures !Escapes(parts) ==> Counted(parts, kept) && Resolve([], parts, fold) == Some(NamesAt(parts, kept, fold))
  {
    if parts == [] {
      assert forall k: nat :: k <= 0 ==> parts[..k] == [];
      return [];
    }
    var front, x := parts[..|parts| - 1], parts[|parts| - 1];
    assert parts == front + [x];
    var before := ResolutionIsSurvival(front, fold);
    ResolveOneMore([], front, x, fold);
    EscapesOneMore(front, x);
    kept := KeptAfter(before, |front|, x);
    if !Escapes(parts) {
      KeptOneMore(front, before, x);
      NamesOneMore(front, before, x, fold);
    }
  }

  lemma NamesOneMore(front: seq<string>, kept: seq<nat>, x: string, fold: bool)
    requires forall k :: 0 <= k < |kept| ==> kept[k] < |front|
    requires x == ".." ==> kept != []
    ensures var names, now := NamesAt(front, kept, fold), KeptAfter(kept, |front|, x);
            && (forall k :: 0 <= k < |now| ==> now[k] < |front + [x]|)
            && NamesAt(front + [x], now, fold) ==
                 if IsName(x) then names + [if fold then Lower(x) else x]
                 else if x == ".." then names[..|names| - 1]
                 else names
  {
  }

  // ----- What follows for paths -----

  /** A name and the `..` right after it cancel, wherever they stand. */
  lemma UpUndoesName(stack: seq<string>, name: string, fold: bool)
    requires IsName(name)
    ensures Resolve(stack, [name, ".."], fold) == Some(stack)
  {
    var pushed := stack + [if fold then Lower(name) else name];
    assert [name, ".."][1..] == [".."] && [".."][1..] == [];
    assert pushed[..|pushed| - 1] == stack;
    assert Resolve(pushed, [".."], fold) == Resolve(stack, [], fold);
  }

  lemma SlashAtTheFront(a: seq<string>, name: string, b: seq<string>)
    requires IsName(name)
    ensures (BeginsWithSlash(a + [name, ".."] + b) <==> BeginsWithSlash(a + b)) <==>
            !(a == [] && BeginsWithSlash(b)) && (a == [""] ==> b != [])
  {
    var longer := a + [name, ".."] + b;
    if a == [] {
      assert a + b == b && longer[0] == name;
    } else {
      assert longer[0] == a[0] && (a + b)[0] == a[0];
    }
  }

  /**
   * Under every root form, a path with a name and `..` somewhere names what the path without them names.
   * The one exception is a relative text whose only guard against a leading slash was that name.
   */
  lemma UpCancelsName(
    p: FilesystemPath, q: FilesystemPath, form: Form, a: seq<string>, name: string, b: seq<string>)
    requires Spells(p, form, a + [name, ".."] + b) && Spells(q, form, a + b) && IsName(name)
    ensures Normalized(p) == Normalized(q) <==>
            !(form.RelativeForm? && a == [] && BeginsWithSlash(b) && Resolve([], b, false) !in {None, Some([])})
  {
    UpUndoesName([], name, FormFolds(form));
    NeutralSegmentsVanish(p, q, form, a, [name, ".."], b);
    SlashAtTheFront(a, name, b);
    if a == [] {
      assert a + b == b;
    } else if a == [""] && b == [] {
      assert a + b == [""];
      NothingSegments("", false);
    }
  }

  /** Empty and `.` segments never change what the others resolve to. */
  lemma NothingSegments(segment: string, fold: bool)
    requires segment == "" || segment == "."
    ensures Resolve([], [segment], fold) == Some([])
  {
    assert [segment][1..] == [];
  }

  /**
   * What an accepted path names: its own surviving names, folded on Windows, and nothing else. It is
   * accepted only if no prefix of its segments goes above the root.
   */
  lemma AcceptedPathNamesSurvivors(path: FilesystemPath, n: NormalizedPath)
    returns (form: Form, parts: seq<string>, kept: seq<nat>)
    requires Normalized(path) == Ok(n)
    ensures Spells(path, form, parts) && n.root == FormRoot(form)
    ensures !Escapes(parts) && AreSurvivors(parts, kept) && n.components == NamesAt(parts, kept, FormFolds(form))
  {
    form, parts := AcceptedPathIsSpelled(path);
    SpelledPathIsNamed(path, form, parts);
    kept := ResolutionIsSurvival(parts, FormFolds(form));
  }

  /** Which spelled paths are accepted: those that never go above the root and, if relative, name something. */
  lemma AcceptanceIsStayingBelow(path: FilesystemPath, form: Form, parts: seq<string>)
    requires Spells(path, form, parts)
    ensures Normalized(path).Ok? <==>
            !Escapes(parts) && (form.RelativeForm? ==> !BeginsWithSlash(parts) && Depth(parts) > 0)
  {
    SpelledPathIsNamed(path, form, parts);
    var kept := ResolutionIsSurvival(parts, FormFolds(form));
  }
}
