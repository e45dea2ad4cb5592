/** Release precedence as clause 11 of Semantic Versioning 2.0.0 states it, without the comparison functions. */
module Precedence {
  import opened Core
  import opened Orders
  import opened Text
  import opened Settings

  // ----- Lexicographic order is decided at the first difference -----

  /** Up to position i both agree; there the first ends, or has the lesser element. */
  predicate FirstDiffers<T(==)>(less: (T, T) -> bool, a: seq<T>, b: seq<T>, i: nat) {
    i <= |a| && i < |b| && a[..i] == b[..i] && (i == |a| || less(a[i], b[i]))
  }

  lemma {:induction false} LexIsFirstDifference<T(!new)>(less: (T, T) -> bool, a: seq<T>, b: seq<T>)
    requires forall x :: !less(x, x)
    ensures LexLess(less, a, b) <==> exists i: nat :: FirstDiffers(less, a, b, i)
  {
    if b == [] {
    } else if a == [] {
      assert FirstDiffers(less, a, b, 0);
    } else {
      LexIsFirstDifference(less, a[1..], b[1..]);
      if less(a[0], b[0]) {
        assert FirstDiffers(less, a, b, 0);
      } else if a[0] == b[0] {
        if LexLess(less, a[1..], b[1..]) {
          var i: nat :| FirstDiffers(less, a[1..], b[1..], i);
          ShiftDifference(less, a, b, i);
        }
      }
      if i: nat :| FirstDiffers(less, a, b, i) && i > 0 {
        assert a[..i][0] == a[0] && b[..i][0] == b[0];
        ShiftDifference(less, a, b, i - 1);
      }
    }
  }

  lemma ShiftDifference<T(!new)>(less: (T, T) -> bool, a: seq<T>, b: seq<T>, i: nat)
    requires a != [] && b != [] && a[0] == b[0]
    ensures FirstDiffers(less, a, b, i + 1) <==> FirstDiffers(less, a[1..], b[1..], i)
  {
    if i + 1 <= |a| && i + 1 <= |b| {
      assert a[..i + 1] == [a[0]] + a[1..][..i];
      assert b[..i + 1] == [b[0]] + b[1..][..i];
    }
  }

  // ----- Identifiers -----

  /** Numbers by value, numbers below text, and text by its first differing character. */
  ghost predicate IdentifierBelow(a: string, b: string) {
    if Numeric(a) && Numeric(b) then Value(a) < Value(b)
    else if Numeric(a) || Numeric(b) then Numeric(a)
    else exists i: nat :: FirstDiffers(CharLess, a, b, i)
  }

  /** Not empty, and without a superfluous leading zero if it is a number. */
  predicate ValidIdentifier(s: string) {
    s != "" && (Numeric(s) ==> CanonicalNumber(s))
  }

  lemma IdentifierLessIsBelow(a: string, b: string)
    requires ValidIdentifier(a) && ValidIdentifier(b)
    ensures IdentifierLess(a, b) <==> IdentifierBelow(a, b)
  {
    if Numeric(a) && Numeric(b) {
      NumericIdentifiersCompareByValue(a, b);
    } else {
      LexIsFirstDifference(CharLess, a, b);
      StringLessIsTotal();
    }
  }

  // ----- Versions -----

  function Identifiers(preRelease: string): seq<string> {
    Split(preRelease, '.')
  }

  predicate ValidPreRelease(v: SemanticVersion) {
    v.preRelease.Some? ==>
      forall i :: 0 <= i < |Identifiers(v.preRelease.value)| ==> ValidIdentifier(Identifiers(v.preRelease.value)[i])
  }

  /** The first differing identifier is below the other's, or all agree and the other has more. */
  ghost predicate IdentifiersBelow(a: seq<string>, b: seq<string>) {
    exists i: nat ::
      i <= |a| && i < |b| && a[..i] == b[..i] && (i == |a| || IdentifierBelow(a[i], b[i]))
  }

  /** Major, minor, and patch decide as numbers; then a pre-release is below its release. */
  ghost predicate LowerPrecedence(a: SemanticVersion, b: SemanticVersion) {
    || a.major < b.major
    || (a.major == b.major && a.minor < b.minor)
    || (a.major == b.major && a.minor == b.minor && a.patch < b.patch)
    || (a.major == b.major && a.minor == b.minor && a.patch == b.patch && a.preRelease.Some?
        && (b.preRelease.Some? ==>
              IdentifiersBelow(Identifiers(a.preRelease.value), Identifiers(b.preRelease.value))))
  }

  lemma PartsBelow(a: seq<string>, b: seq<string>)
    requires forall i :: 0 <= i < |a| ==> ValidIdentifier(a[i])
    requires forall i :: 0 <= i < |b| ==> ValidIdentifier(b[i])
    ensures CompareParts(a, b) == Less <==> IdentifiersBelow(a, b)
  {
    IdentifierLessIsTotal();
    PartsCompareLexicographically(a, b);
    LexIsFirstDifference(IdentifierLess, a, b);
    forall i | 0 <= i < |a| && i < |b| ensures IdentifierLess(a[i], b[i]) <==> IdentifierBelow(a[i], b[i]) {
      IdentifierLessIsBelow(a[i], b[i]);
    }
    if i: nat :| FirstDiffers(IdentifierLess, a, b, i) {
      assert i == |a| || IdentifierBelow(a[i], b[i]);
    }
    if IdentifiersBelow(a, b) {
      var i: nat :| i <= |a| && i < |b| && a[..i] == b[..i] && (i == |a| || IdentifierBelow(a[i], b[i]));
      assert FirstDiffers(IdentifierLess, a, b, i);
    }
  }

  /** The comparison that negotiation relies on is the precedence that the standard defines. */
  lemma PrecedesIsLowerPrecedence(a: SemanticVersion, b: SemanticVersion)
    requires ValidPreRelease(a) && ValidPreRelease(b)
    ensures Precedes(a, b) <==> LowerPrecedence(a, b)
  {
    if a.preRelease.Some? && b.preRelease.Some? {
      PartsBelow(Identifiers(a.preRelease.value), Identifiers(b.preRelease.value));
    }
  }

  /** A release outranks each of its pre-releases, whatever those are called. */
  lemma ReleaseOutranksPreRelease(v: SemanticVersion)
    requires v.preRelease.Some?
    ensures Precedes(v, v.(preRelease := None)) && !Precedes(v.(preRelease := None), v)
  {
  }
}
