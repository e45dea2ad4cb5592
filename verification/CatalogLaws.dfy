/** Which catalogs are accepted, and what is kept of them. */
module CatalogLaws {
  import opened Core
  import opened Orders
  import opened Settings
  import opened Names
  import opened Schema

  predicate GoodReference(r: SchemaReference) {
    DottedLowercase(r.name) && r.primitiveRevision == 1
  }

  /** A set of kinds in its one spelling. */
  predicate GoodKinds(kinds: seq<PermissionKind>) {
    || kinds == []
    || kinds == [Filesystem] || kinds == [Plugin] || kinds == [Destructive]
    || kinds == [Filesystem, Plugin] || kinds == [Filesystem, Destructive] || kinds == [Plugin, Destructive]
    || kinds == [Filesystem, Plugin, Destructive]
  }

  lemma {:induction false} RankGrows(kinds: seq<PermissionKind>, i: nat)
    requires Sorted(KindLess, kinds) && i < |kinds|
    ensures KindRank(kinds[i]) >= i
  {
    if i > 0 {
      RankGrows(kinds, i - 1);
      assert KindLess(kinds[i - 1], kinds[i]);
    }
  }

  lemma KindsMeaning(kinds: seq<PermissionKind>)
    ensures Sorted(KindLess, kinds) <==> GoodKinds(kinds)
  {
    if Sorted(KindLess, kinds) {
      if |kinds| > 3 {
        RankGrows(kinds, 3);
        assert false;
      }
      assert kinds == (if |kinds| == 0 then [] else if |kinds| == 1 then [kinds[0]]
                       else if |kinds| == 2 then [kinds[0], kinds[1]] else [kinds[0], kinds[1], kinds[2]]);
      forall i | 0 <= i < |kinds| ensures kinds[i] == Filesystem || kinds[i] == Plugin || kinds[i] == Destructive {
        match kinds[i] { case Filesystem => case Plugin => case Destructive => }
      }
      assert |kinds| >= 2 ==> KindLess(kinds[0], kinds[1]);
      assert |kinds| >= 3 ==> KindLess(kinds[1], kinds[2]);
    }
  }

  /** Kinds in their one spelling, and some exactly for methods that require permissions. */
  predicate GoodPermission(p: MethodPermission) {
    GoodKinds(p.kinds) && (p.kinds == [] <==> p.mode == NoRequirement)
  }

  predicate GoodMethod(m: MethodSchema) {
    && DottedLowercase(m.name)
    && GoodReference(m.body.request) && GoodReference(m.body.response) && GoodPermission(m.body.permission)
  }

  predicate GoodPayload(p: PayloadSchema) {
    DottedLowercase(p.name) && GoodReference(p.body)
  }

  lemma MethodMeaning(m: MethodSchema)
    ensures ValidMethod(m) <==> GoodMethod(m)
  {
    CanonicalNameByCharacters(m.name);
    CanonicalNameByCharacters(m.body.request.name);
    CanonicalNameByCharacters(m.body.response.name);
    ValidPermissionIsOrdered(m.body.permission);
    KindsMeaning(m.body.permission.kinds);
  }

  lemma PayloadMeaning(p: PayloadSchema)
    ensures ValidPayload(p) <==> GoodPayload(p)
  {
    CanonicalNameByCharacters(p.name);
    CanonicalNameByCharacters(p.body.name);
  }

  predicate DistinctNames<B>(s: seq<Named<B>>) {
    forall i, j :: 0 <= i < j < |s| ==> s[i].name != s[j].name
  }

  lemma DistinctNamesMeaning<B>(s: seq<Named<B>>)
    ensures NoRepeats(NamesOf(s)) <==> DistinctNames(s)
  {
    NamesOfAt(s);
    if NoRepeats(NamesOf(s)) {
      forall i, j | 0 <= i < j < |s| ensures s[i].name != s[j].name {
        assert NamesOf(s)[i] != NamesOf(s)[j];
      }
    }
  }

  /**
   * A catalog is accepted exactly when it repeats the current preamble, every descriptor is well formed,
   * and no name stands twice among events, among resources, or among commands and queries together.
   */
  lemma CatalogAcceptedIff(given: Catalog)
    ensures NewCatalog(given).Ok? <==>
            && given.preamble == CURRENT
            && (forall m :: m in given.commands + given.queries ==> GoodMethod(m))
            && (forall p :: p in given.events + given.resources ==> GoodPayload(p))
            && DistinctNames(given.commands + given.queries)
            && DistinctNames(given.events) && DistinctNames(given.resources)
    ensures NewCatalog(given).Err? ==> NewCatalog(given).error == InvalidInput
  {
    forall m ensures ValidMethod(m) <==> GoodMethod(m) {
      MethodMeaning(m);
    }
    forall p ensures ValidPayload(p) <==> GoodPayload(p) {
      PayloadMeaning(p);
    }
    DistinctNamesMeaning(given.commands + given.queries);
    DistinctNamesMeaning(given.events);
    DistinctNamesMeaning(given.resources);
    assert forall m :: m in given.commands + given.queries <==> m in given.commands || m in given.queries;
    assert forall p :: p in given.events + given.resources <==> p in given.events || p in given.resources;
  }

  /** An accepted catalog keeps every descriptor it was given, each in its own list, and adds none. */
  lemma CatalogKeepsEverything(given: Catalog)
    requires NewCatalog(given).Ok?
    ensures Permuted(NewCatalog(given).value, given)
  {
  }
}
