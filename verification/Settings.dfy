/** Canonical shared names and semantic versions, as the API's validation relies on them. */
module Settings {
  import opened Core
  import opened Orders
  import opened Text

  // ----- Namespaced identifiers -----

  predicate CanonicalSegment(segment: string) {
    && segment != ""
    && IsAsciiLower(segment[0])
    && forall i :: 0 <= i < |segment| ==> SegmentChar(segment[i])
  }

  predicate SegmentChar(c: char) {
    IsAsciiLower(c) || IsAsciiDigit(c) || c == '_' || c == '-'
  }

  /** At least two dot-separated segments, each a lowercase word. */
  predicate IsCanonicalName(input: string) {
    var segments := Split(input, '.');
    |segments| >= 2 && forall i :: 0 <= i < |segments| ==> CanonicalSegment(segments[i])
  }

  lemma SplitClosesPiece(s: string, sep: char)
    ensures Split(s + [sep], sep) == Split(s, sep) + [""]
  {
    SplitConcat(s, "", sep);
    assert s + [sep] + "" == s + [sep];
  }

  lemma SplitExtendsPiece(s: string, c: char, sep: char)
    requires c != sep
    ensures var parts := Split(s, sep);
            Split(s + [c], sep) == parts[..|parts| - 1] + [parts[|parts| - 1] + [c]]
  {
    var parts := Split(s, sep);
    var front, last := parts[..|parts| - 1], parts[|parts| - 1];
    var longer := last + [c];
    SplitIsPlain(s, sep);
    JoinOfSplit(s, sep);
    assert parts == front + [last];
    assert Plain(front + [longer], sep) by {
      assert sep !in last;
    }
    JoinOfLast(front, last, sep);
    JoinOfLast(front, longer, sep);
    assert Join(front + [longer], sep) == s + [c];
    SplitOfJoin(front + [longer], sep);
  }

  lemma JoinOfLast(front: seq<string>, last: string, sep: char)
    ensures Join(front + [last], sep) == (if front == [] then [] else Join(front, sep) + [sep]) + last
  {
    if front == [] {
      assert front + [last] == [last];
    } else {
      JoinConcat(front, [last], sep);
    }
  }

  /** The single-pass scanner over the input. */
  method ParseCanonicalName(input: string) returns (accepted: bool)
    ensures accepted <==> IsCanonicalName(input)
  {
    if input == "" {
      return false;
    }
    var segmentCount, segmentStart := 0, 0;
    ghost var done: seq<string> := [];
    for index := 0 to |input|
      invariant 0 <= segmentStart <= index && segmentCount == |done|
      invariant Split(input[..index], '.') == done + [input[segmentStart..index]]
      invariant forall i :: 0 <= i < |done| ==> CanonicalSegment(done[i])
      invariant segmentStart < index ==> CanonicalSegment(input[segmentStart..index])
    {
      var c := input[index];
      ghost var current := input[segmentStart..index];
      assert input[..index] + [c] == input[..index + 1];
      assert input[..index + 1] + input[index + 1..] == input;
      if c == '.' {
        SplitClosesPiece(input[..index], '.');
        if index == segmentStart {
          RejectedSegment(input, index, done, "");
          return false;
        }
        done := done + [current];
        segmentCount := segmentCount + 1;
        segmentStart := index + 1;
        assert input[segmentStart..index + 1] == "";
      } else {
        SplitExtendsPiece(input[..index], c, '.');
        assert input[segmentStart..index + 1] == current + [c];
        if (if index == segmentStart then !IsAsciiLower(c) else !SegmentChar(c)) {
          RejectedStart(input, index + 1, done, current + [c]);
          return false;
        }
      }
    }
    assert input[..|input|] == input;
    if segmentStart == |input| {
      assert Split(input, '.')[|done|] == "";
      return false;
    }
    segmentCount := segmentCount + 1;
    return segmentCount >= 2;
  }

  /** A closed empty segment stays in the split of the whole input. */
  lemma RejectedSegment(input: string, index: nat, done: seq<string>, bad: string)
    requires index < |input| && input[index] == '.'
    requires Split(input[..index], '.') == done + [bad] && !CanonicalSegment(bad)
    ensures !IsCanonicalName(input)
  {
    assert input == input[..index] + ['.'] + input[index + 1..];
    SplitConcat(input[..index], input[index + 1..], '.');
    assert Split(input, '.')[|done|] == bad;
  }

  /** A segment that starts badly or holds a bad character stays bad however it continues. */
  lemma {:induction false} RejectedStart(input: string, index: nat, done: seq<string>, bad: string)
    requires index <= |input| && Split(input[..index], '.') == done + [bad]
    requires bad != "" && (!IsAsciiLower(bad[0]) || exists i :: 0 <= i < |bad| && !SegmentChar(bad[i]))
    ensures !IsCanonicalName(input)
    decreases |input| - index
  {
    assert !CanonicalSegment(bad);
    if index == |input| {
      assert input[..index] == input;
      assert Split(input, '.')[|done|] == bad;
    } else if input[index] == '.' {
      RejectedSegment(input, index, done, bad);
    } else {
      var longer := bad + [input[index]];
      SplitExtendsPiece(input[..index], input[index], '.');
      assert input[..index] + [input[index]] == input[..index + 1];
      assert longer[0] == bad[0] && forall i :: 0 <= i < |bad| ==> longer[i] == bad[i];
      RejectedStart(input, index + 1, done, longer);
    }
  }

  // ----- Semantic versions -----

  datatype SemanticVersion = SemanticVersion(
    major: u64, minor: u64, patch: u64, preRelease: Option<string>, buildMetadata: Option<string>)

  function Release(major: u64, minor: u64, patch: u64): SemanticVersion {
    SemanticVersion(major, minor, patch, None, None)
  }

  datatype Ordering = Less | Equal | Greater

  function CompareNumbers(a: int, b: int): Ordering {
    if a < b then Less else if a == b then Equal else Greater
  }

  function CompareStrings(a: string, b: string): Ordering {
    if a == b then Equal else if StringLess(a, b) then Less else Greater
  }

  predicate Numeric(identifier: string) {
    Chars(IsAsciiDigit, identifier)
  }

  function CompareIdentifiers(left: string, right: string): Ordering {
    if Numeric(left) && Numeric(right) then
      if |left| != |right| then CompareNumbers(|left|, |right|) else CompareStrings(left, right)
    else if Numeric(left) then Less
    else if Numeric(right) then Greater
    else CompareStrings(left, right)
  }

  function CompareParts(left: seq<string>, right: seq<string>): Ordering {
    if left == [] && right == [] then Equal
    else if left == [] then Less
    else if right == [] then Greater
    else
      var first := CompareIdentifiers(left[0], right[0]);
      if first == Equal then CompareParts(left[1..], right[1..]) else first
  }

  function ComparePreRelease(left: Option<string>, right: Option<string>): Ordering {
    match (left, right)
    case (None, None) => Equal
    case (None, Some(_)) => Greater
    case (Some(_), None) => Less
    case (Some(l), Some(r)) => CompareParts(Split(l, '.'), Split(r, '.'))
  }

  function PrecedenceCmp(a: SemanticVersion, b: SemanticVersion): Ordering {
    if a.major != b.major then CompareNumbers(a.major, b.major)
    else if a.minor != b.minor then CompareNumbers(a.minor, b.minor)
    else if a.patch != b.patch then CompareNumbers(a.patch, b.patch)
    else ComparePreRelease(a.preRelease, b.preRelease)
  }

  predicate Precedes(a: SemanticVersion, b: SemanticVersion) {
    PrecedenceCmp(a, b) == Less
  }

  function WithoutBuild(v: SemanticVersion): SemanticVersion {
    v.(buildMetadata := None)
  }

  predicate IdentifierLess(a: string, b: string) {
    CompareIdentifiers(a, b) == Less
  }

  lemma IdentifierLessIsTotal()
    ensures StrictTotalOrder(IdentifierLess)
    ensures forall a, b :: CompareIdentifiers(a, b) == Equal <==> a == b
  {
    StringLessIsTotal();
  }

  lemma {:induction false} PartsCompareLexicographically(a: seq<string>, b: seq<string>)
    ensures CompareParts(a, b) == Less <==> LexLess(IdentifierLess, a, b)
    ensures CompareParts(a, b) == Equal <==> a == b
  {
    IdentifierLessIsTotal();
    if a != [] && b != [] {
      PartsCompareLexicographically(a[1..], b[1..]);
      if a[0] == b[0] && a[1..] == b[1..] {
        assert a == [a[0]] + a[1..] && b == [b[0]] + b[1..];
      }
    }
  }

  lemma PreReleaseOrder(a: Option<string>, b: Option<string>, c: Option<string>)
    ensures ComparePreRelease(a, b) == Equal <==> a == b
    ensures ComparePreRelease(a, b) == Less <==> ComparePreRelease(b, a) == Greater
    ensures ComparePreRelease(a, b) == Less && ComparePreRelease(b, c) == Less ==> ComparePreRelease(a, c) == Less
  {
    IdentifierLessIsTotal();
    if a.Some? && b.Some? {
      var x, y := Split(a.value, '.'), Split(b.value, '.');
      PartsCompareLexicographically(x, y);
      PartsCompareLexicographically(y, x);
      LexTotal(IdentifierLess, x, y);
      JoinOfSplit(a.value, '.');
      JoinOfSplit(b.value, '.');
      if LexLess(IdentifierLess, x, y) && LexLess(IdentifierLess, y, x) {
        LexTransitive(IdentifierLess, x, y, x);
      }
      if c.Some? {
        var z := Split(c.value, '.');
        PartsCompareLexicographically(y, z);
        PartsCompareLexicographically(x, z);
        if LexLess(IdentifierLess, x, y) && LexLess(IdentifierLess, y, z) {
          LexTransitive(IdentifierLess, x, y, z);
        }
      }
    }
  }

  /** Precedence is a total preorder whose only ties are versions that differ in build metadata. */
  lemma PrecedenceIsTotalPreorder(a: SemanticVersion, b: SemanticVersion, c: SemanticVersion)
    ensures PrecedenceCmp(a, b) == Equal <==> WithoutBuild(a) == WithoutBuild(b)
    ensures PrecedenceCmp(a, b) == Less <==> PrecedenceCmp(b, a) == Greater
    ensures Precedes(a, b) && Precedes(b, c) ==> Precedes(a, c)
  {
    PreReleaseOrder(a.preRelease, b.preRelease, c.preRelease);
  }

  // ----- Numeric identifiers really compare as numbers -----

  function Pow10(n: nat): (r: nat)
    ensures r >= 1
  {
    if n == 0 then 1 else 10 * Pow10(n - 1)
  }

  function Digit(c: char): int {
    c as int - '0' as int
  }

  function Value(digits: string): int {
    if digits == "" then 0 else Digit(digits[0]) * Pow10(|digits| - 1) + Value(digits[1..])
  }

  lemma Scale(x: int, y: int, p: int)
    requires x < y && p >= 1
    ensures x * p + p <= y * p
  {
    assert x * p + p == (x + 1) * p <= y * p;
  }

  lemma {:induction false} ValueBound(s: string)
    requires Numeric(s)
    ensures 0 <= Value(s) < Pow10(|s|)
    ensures s != "" && s[0] != '0' ==> Value(s) >= Pow10(|s| - 1)
  {
    if s != "" {
      ValueBound(s[1..]);
      var d, p := Digit(s[0]), Pow10(|s| - 1);
      assert IsAsciiDigit(s[0]);
      Scale(-1, d, p);
      Scale(d, 10, p);
      if s[0] != '0' {
        Scale(0, d, p);
      }
    }
  }

  lemma {:induction false} SameLengthOrder(a: string, b: string)
    requires Numeric(a) && Numeric(b) && |a| == |b|
    ensures StringLess(a, b) <==> Value(a) < Value(b)
  {
    if a != "" {
      assert Numeric(a[1..]) && Numeric(b[1..]);
      SameLengthOrder(a[1..], b[1..]);
      ValueBound(a[1..]);
      ValueBound(b[1..]);
      var x, y, p := Digit(a[0]), Digit(b[0]), Pow10(|a| - 1);
      if x < y {
        Scale(x, y, p);
      } else if y < x {
        Scale(y, x, p);
      }
    }
  }

  lemma {:induction false} Pow10Monotone(m: nat, n: nat)
    requires m <= n
    ensures Pow10(m) <= Pow10(n)
  {
    if m < n {
      Pow10Monotone(m, n - 1);
    }
  }

  /** Canonical numeric identifier: no superfluous leading zero. */
  predicate CanonicalNumber(s: string) {
    s != "" && Numeric(s) && (|s| > 1 ==> s[0] != '0')
  }

  lemma ShorterIsSmaller(a: string, b: string)
    requires CanonicalNumber(a) && CanonicalNumber(b) && |a| < |b|
    ensures Value(a) < Value(b)
  {
    ValueBound(a);
    ValueBound(b);
    Pow10Monotone(|a|, |b| - 1);
  }

  /** Comparing length first and text second is numeric comparison, without overflow. */
  lemma NumericIdentifiersCompareByValue(a: string, b: string)
    requires CanonicalNumber(a) && CanonicalNumber(b)
    ensures CompareIdentifiers(a, b) == CompareNumbers(Value(a), Value(b))
  {
    if |a| < |b| {
      ShorterIsSmaller(a, b);
    } else if |b| < |a| {
      ShorterIsSmaller(b, a);
    } else {
      SameLengthOrder(a, b);
      SameLengthOrder(b, a);
      StringLessIsTotal();
    }
  }
}
