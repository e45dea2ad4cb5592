/** Canonical names, read off their characters. */
module Names {
  import opened Text
  import opened Settings

  /**
   * Lowercase letters, digits, `_`, `-`, and at least one dot, with a lowercase letter at the very start
   * and right after every dot.
   */
  predicate DottedLowercase(s: string) {
    && LowercaseSegments(s)
    && exists i :: 0 <= i < |s| && s[i] == '.'
  }

  /** The same, with dots allowed but not demanded. */
  predicate LowercaseSegments(s: string) {
    && s != "" && 'a' <= s[0] <= 'z'
    && (forall i :: 0 <= i < |s| ==>
          'a' <= s[i] <= 'z' || '0' <= s[i] <= '9' || s[i] == '_' || s[i] == '-' || s[i] == '.')
    && (forall i :: 0 <= i < |s| && s[i] == '.' ==> i + 1 < |s| && 'a' <= s[i + 1] <= 'z')
  }

  predicate AllSegments(parts: seq<string>) {
    forall i :: 0 <= i < |parts| ==> CanonicalSegment(parts[i])
  }

  lemma CharactersAround(a: string, b: string)
    ensures var s := a + "." + b;
            && s[|a|] == '.' && s[0] == (if a == "" then '.' else a[0])
            && (forall i :: 0 <= i < |a| ==> s[i] == a[i])
            && (forall i :: 0 <= i < |b| ==> s[|a| + 1 + i] == b[i])
  {
  }

  lemma BeforeAndAfterTheDot(a: string, b: string)
    requires '.' !in a && LowercaseSegments(a + "." + b)
    ensures CanonicalSegment(a) && LowercaseSegments(b)
  {
    var s := a + "." + b;
    CharactersAround(a, b);
    assert |a| + 1 < |s| && s[|a| + 1] == b[0];
    forall i | 0 <= i < |b| && b[i] == '.' ensures i + 1 < |b| && 'a' <= b[i + 1] <= 'z' {
      assert s[|a| + 1 + i] == '.';
      assert s[|a| + 1 + (i + 1)] == b[i + 1];
    }
  }

  lemma JoinedAtTheDot(a: string, b: string)
    requires '.' !in a && CanonicalSegment(a) && LowercaseSegments(b)
    ensures LowercaseSegments(a + "." + b)
  {
    var s := a + "." + b;
    CharactersAround(a, b);
    forall i | 0 <= i < |s|
      ensures 'a' <= s[i] <= 'z' || '0' <= s[i] <= '9' || s[i] == '_' || s[i] == '-' || s[i] == '.'
      ensures s[i] == '.' ==> i + 1 < |s| && 'a' <= s[i + 1] <= 'z'
    {
      if i < |a| {
        assert s[i] == a[i] && SegmentChar(a[i]);
      } else if i > |a| {
        assert s[i] == b[i - |a| - 1];
      }
    }
  }

  lemma {:induction false} SegmentsByCharacters(s: string)
    ensures AllSegments(Split(s, '.')) <==> LowercaseSegments(s)
    decreases |s|
  {
    var parts := Split(s, '.');
    SplitIsPlain(s, '.');
    JoinOfSplit(s, '.');
    if |parts| == 1 {
      assert s == parts[0];
    } else {
      var a, b := parts[0], Join(parts[1..], '.');
      assert s == a + "." + b && '.' !in a;
      SplitOfJoin(parts[1..], '.');
      if LowercaseSegments(s) {
        BeforeAndAfterTheDot(a, b);
      }
      if CanonicalSegment(a) && LowercaseSegments(b) {
        JoinedAtTheDot(a, b);
      }
      SegmentsByCharacters(b);
      assert parts == [a] + parts[1..];
    }
  }

  /** The accepted names are exactly the dotted lowercase ones. */
  lemma CanonicalNameByCharacters(s: string)
    ensures IsCanonicalName(s) <==> DottedLowercase(s)
  {
    SegmentsByCharacters(s);
    var parts := Split(s, '.');
    SplitIsPlain(s, '.');
    JoinOfSplit(s, '.');
    if |parts| == 1 {
      assert s == parts[0];
    } else {
      assert s == parts[0] + "." + Join(parts[1..], '.');
      assert s[|parts[0]|] == '.';
    }
  }
}
