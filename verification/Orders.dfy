/** Strict orders, ordered sets kept as sequences, and the lexicographic orders the API derives. */
module Orders {

  ghost predicate Transitive<T(!new)>(less: (T, T) -> bool) {
    forall x, y, z :: less(x, y) && less(y, z) ==> less(x, z)
  }

  ghost predicate StrictOrder<T(!new)>(less: (T, T) -> bool) {
    (forall x :: !less(x, x)) && Transitive(less)
  }

  ghost predicate StrictTotalOrder<T(!new)>(less: (T, T) -> bool) {
    StrictOrder(less) && forall x, y :: x == y || less(x, y) || less(y, x)
  }

  /** An order on some key of the elements: elements with equal keys are tied. */
  ghost predicate StrictWeakOrder<T(!new)>(less: (T, T) -> bool) {
    StrictOrder(less) && forall x, y, z :: less(x, z) ==> less(x, y) || less(y, z)
  }

  /** Every adjacent pair is in order: the `windows(2)` check. */
  predicate Ascending<T>(less: (T, T) -> bool, s: seq<T>) {
    forall i :: 0 <= i < |s| - 1 ==> less(s[i], s[i + 1])
  }

  /** Every pair is in order. */
  ghost predicate Sorted<T>(less: (T, T) -> bool, s: seq<T>) {
    forall i, j :: 0 <= i < j < |s| ==> less(s[i], s[j])
  }

  lemma {:induction false} AscendingIsSorted<T(!new)>(less: (T, T) -> bool, s: seq<T>)
    requires Transitive(less)
    ensures Ascending(less, s) <==> Sorted(less, s)
  {
    if Ascending(less, s) {
      forall i, j | 0 <= i < j < |s| ensures less(s[i], s[j]) {
        AscendingPair(less, s, i, j);
      }
    }
  }

  lemma {:induction false} AscendingPair<T(!new)>(less: (T, T) -> bool, s: seq<T>, i: nat, j: nat)
    requires Transitive(less) && Ascending(less, s)
    requires i < j < |s|
    ensures less(s[i], s[j])
  {
    if i < j - 1 {
      AscendingPair(less, s, i, j - 1);
      assert less(s[j - 1], s[j - 1 + 1]);
    }
  }

  /** A strictly sorted sequence is determined by its elements. */
  lemma {:induction false} SortedIsUnique<T(!new)>(less: (T, T) -> bool, a: seq<T>, b: seq<T>)
    requires StrictOrder(less)
    requires Sorted(less, a) && Sorted(less, b)
    requires forall x :: x in a <==> x in b
    ensures a == b
  {
    assert |a| > 0 ==> a[0] in b;
    assert |b| > 0 ==> b[0] in a;
    if |a| > 0 {
      assert a[0] == b[0];
      forall x ensures x in a[1..] <==> x in b[1..] {
        DropHead(less, a, x);
        DropHead(less, b, x);
      }
      SortedIsUnique(less, a[1..], b[1..]);
    }
  }

  lemma DropHead<T(!new)>(less: (T, T) -> bool, s: seq<T>, x: T)
    requires StrictOrder(less) && Sorted(less, s) && |s| > 0
    ensures x in s[1..] <==> x in s && x != s[0]
  {
    assert s == [s[0]] + s[1..];
  }

  /** Inserts into an ordered set, leaving it alone when the element is present. */
  function Insert<T(==,!new)>(less: (T, T) -> bool, s: seq<T>, x: T): (r: seq<T>)
    ensures forall y :: y in r <==> y == x || y in s
  {
    if s == [] then [x]
    else if less(x, s[0]) then
      assert s == [s[0]] + s[1..];
      [x] + s
    else if x == s[0] then s
    else
      assert s == [s[0]] + s[1..];
      [s[0]] + Insert(less, s[1..], x)
  }

  lemma {:induction false} InsertKeepsOrder<T(!new)>(less: (T, T) -> bool, s: seq<T>, x: T)
    requires StrictTotalOrder(less) && Sorted(less, s)
    ensures Sorted(less, Insert(less, s, x))
  {
    if s == [] || less(x, s[0]) || x == s[0] {
    } else {
      InsertKeepsOrder(less, s[1..], x);
      var rest := Insert(less, s[1..], x);
      forall j | 0 <= j < |rest| ensures less(s[0], rest[j]) {
        assert rest[j] in rest;
      }
    }
  }

  /** Collecting into an ordered set: sorted, with duplicates dropped. */
  function Collect<T(==,!new)>(less: (T, T) -> bool, s: seq<T>): (r: seq<T>)
    ensures forall y :: y in r <==> y in s
  {
    if s == [] then []
    else
      var front := s[..|s| - 1];
      assert s == front + [s[|s| - 1]];
      Insert(less, Collect(less, front), s[|s| - 1])
  }

  lemma {:induction false} CollectIsSorted<T(!new)>(less: (T, T) -> bool, s: seq<T>)
    requires StrictTotalOrder(less)
    ensures Sorted(less, Collect(less, s))
  {
    if s != [] {
      CollectIsSorted(less, s[..|s| - 1]);
      InsertKeepsOrder(less, Collect(less, s[..|s| - 1]), s[|s| - 1]);
    }
  }

  /** Collecting depends only on which elements occur, not on their order or number. */
  lemma CollectIgnoresOrderAndRepeats<T(!new)>(less: (T, T) -> bool, a: seq<T>, b: seq<T>)
    requires StrictTotalOrder(less)
    requires forall x :: x in a <==> x in b
    ensures Collect(less, a) == Collect(less, b)
  {
    CollectIsSorted(less, a);
    CollectIsSorted(less, b);
    SortedIsUnique(less, Collect(less, a), Collect(less, b));
  }

  /** The sequences that collecting leaves alone are exactly the sorted ones. */
  lemma CollectFixesExactlySorted<T(!new)>(less: (T, T) -> bool, s: seq<T>)
    requires StrictTotalOrder(less)
    ensures Collect(less, s) == s <==> Sorted(less, s)
  {
    CollectIsSorted(less, s);
    if Sorted(less, s) {
      SortedIsUnique(less, Collect(less, s), s);
    }
  }

  // Stable sorting, for orders in which different elements may be tied.

  function InsertStable<T>(less: (T, T) -> bool, s: seq<T>, x: T): (r: seq<T>)
    ensures multiset(r) == multiset(s) + multiset{x}
  {
    if s == [] then [x]
    else
      assert s == [s[0]] + s[1..];
      if less(x, s[0]) then [x] + s else [s[0]] + InsertStable(less, s[1..], x)
  }

  function SortStable<T>(less: (T, T) -> bool, s: seq<T>): (r: seq<T>)
    ensures multiset(r) == multiset(s)
  {
    if s == [] then []
    else
      assert s == s[..|s| - 1] + [s[|s| - 1]];
      InsertStable(less, SortStable(less, s[..|s| - 1]), s[|s| - 1])
  }

  /** No later element is below an earlier one. */
  ghost predicate NonDecreasing<T>(less: (T, T) -> bool, s: seq<T>) {
    forall i, j :: 0 <= i < j < |s| ==> !less(s[j], s[i])
  }

  lemma {:induction false} InsertStableSorts<T(!new)>(less: (T, T) -> bool, s: seq<T>, x: T)
    requires StrictWeakOrder(less) && NonDecreasing(less, s)
    ensures NonDecreasing(less, InsertStable(less, s, x))
  {
    if s != [] && !less(x, s[0]) {
      InsertStableSorts(less, s[1..], x);
      var rest := InsertStable(less, s[1..], x);
      forall j | 0 <= j < |rest| ensures !less(rest[j], s[0]) {
        assert rest[j] in multiset(rest);
        assert rest[j] == x || rest[j] in s[1..];
      }
    }
  }

  lemma {:induction false} SortStableSorts<T(!new)>(less: (T, T) -> bool, s: seq<T>)
    requires StrictWeakOrder(less)
    ensures NonDecreasing(less, SortStable(less, s))
  {
    if s != [] {
      SortStableSorts(less, s[..|s| - 1]);
      InsertStableSorts(less, SortStable(less, s[..|s| - 1]), s[|s| - 1]);
    }
  }

  /** Textbook binary search, reporting only whether the element was found. */
  predicate BinarySearch<T(==)>(less: (T, T) -> bool, s: seq<T>, x: T)
    decreases |s|
  {
    if s == [] then false
    else
      var mid := |s| / 2;
      if s[mid] == x then true
      else if less(s[mid], x) then BinarySearch(less, s[mid + 1..], x)
      else BinarySearch(less, s[..mid], x)
  }

  lemma {:induction false} BinarySearchIsMembership<T(!new)>(less: (T, T) -> bool, s: seq<T>, x: T)
    requires StrictTotalOrder(less) && Sorted(less, s)
    ensures BinarySearch(less, s, x) <==> x in s
    decreases |s|
  {
    if s != [] {
      var mid := |s| / 2;
      assert s == s[..mid] + [s[mid]] + s[mid + 1..];
      if less(s[mid], x) {
        BinarySearchIsMembership(less, s[mid + 1..], x);
      } else {
        BinarySearchIsMembership(less, s[..mid], x);
      }
    }
  }

  // Lexicographic comparison, the order derived for tuples, vectors, and strings.

  predicate LexLess<T(==)>(less: (T, T) -> bool, a: seq<T>, b: seq<T>) {
    if b == [] then false
    else if a == [] then true
    else less(a[0], b[0]) || (a[0] == b[0] && LexLess(less, a[1..], b[1..]))
  }

  lemma {:induction false} LexTransitive<T(!new)>(less: (T, T) -> bool, a: seq<T>, b: seq<T>, c: seq<T>)
    requires StrictTotalOrder(less)
    requires LexLess(less, a, b) && LexLess(less, b, c)
    ensures LexLess(less, a, c)
  {
    if a != [] && a[0] == b[0] && b[0] == c[0] {
      LexTransitive(less, a[1..], b[1..], c[1..]);
    }
  }

  lemma {:induction false} LexTotal<T(!new)>(less: (T, T) -> bool, a: seq<T>, b: seq<T>)
    requires StrictTotalOrder(less)
    ensures !LexLess(less, a, a)
    ensures a == b || LexLess(less, a, b) || LexLess(less, b, a)
  {
    if a != [] {
      LexTotal(less, a[1..], if b == [] then [] else b[1..]);
      if b != [] && a[0] == b[0] && a[1..] == b[1..] {
        assert a == [a[0]] + a[1..] && b == [b[0]] + b[1..];
      }
    }
  }

  predicate CharLess(a: char, b: char) {
    a < b
  }

  /** String order. UTF-8 byte order and scalar value order agree. */
  predicate StringLess(a: string, b: string) {
    LexLess(CharLess, a, b)
  }

  /** Order of derived multi-field keys, each field rendered as a string. */
  predicate KeyLess(a: seq<string>, b: seq<string>) {
    LexLess(StringLess, a, b)
  }

  lemma StringLessIsTotal()
    ensures StrictTotalOrder(StringLess)
  {
    assert StrictTotalOrder(CharLess);
    forall a, b ensures !StringLess(a, a) && (a == b || StringLess(a, b) || StringLess(b, a)) {
      LexTotal(CharLess, a, b);
    }
    forall a, b, c | StringLess(a, b) && StringLess(b, c) ensures StringLess(a, c) {
      LexTransitive(CharLess, a, b, c);
    }
  }

  lemma KeyLessIsTotal()
    ensures StrictTotalOrder(KeyLess)
  {
    StringLessIsTotal();
    forall a, b ensures !KeyLess(a, a) && (a == b || KeyLess(a, b) || KeyLess(b, a)) {
      LexTotal(StringLess, a, b);
    }
    forall a, b, c | KeyLess(a, b) && KeyLess(b, c) ensures KeyLess(a, c) {
      LexTransitive(StringLess, a, b, c);
    }
  }

  /** The first field decides, and only equal first fields leave it to the rest. */
  lemma KeyLessByHead(x: string, s: seq<string>, y: string, t: seq<string>)
    ensures KeyLess([x] + s, [y] + t) <==> StringLess(x, y) || (x == y && KeyLess(s, t))
  {
    assert ([x] + s)[1..] == s && ([y] + t)[1..] == t;
  }

  /** Single characters compare as characters. */
  lemma RankLess(a: char, b: char)
    ensures StringLess([a], [b]) <==> a < b
  {
    assert !LexLess(CharLess, [a][1..], [b][1..]);
    assert LexLess(CharLess, [a], [b]) <==> CharLess([a][0], [b][0]);
  }
}
