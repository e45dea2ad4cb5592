/** Selection of the highest API release and primitive revision that client and server share. */
module Negotiation {
  import opened Core
  import opened Orders
  import opened Settings
  import opened Precedence

  const MAX_VERSION_OFFERS: nat := 64

  /** Every released API catalog version, oldest first. */
  const API_RELEASES: seq<SemanticVersion> :=
    [ Release(1, 0, 0), Release(1, 1, 0), Release(1, 2, 0), Release(1, 3, 0), Release(1, 4, 0),
      Release(1, 5, 0), Release(1, 6, 0), Release(1, 7, 0), Release(1, 8, 0), Release(1, 9, 0) ]

  const PRIMITIVE_REVISIONS: seq<u32> := [1]

  predicate Below(a: u32, b: u32) {
    a < b
  }

  datatype Offers = Offers(apiVersions: seq<SemanticVersion>, primitiveRevisions: seq<u32>)

  predicate ValidOffers(o: Offers) {
    && 0 < |o.apiVersions| <= MAX_VERSION_OFFERS && Ascending(Precedes, o.apiVersions)
    && 0 < |o.primitiveRevisions| <= MAX_VERSION_OFFERS
    && o.primitiveRevisions[0] != 0 && Ascending(Below, o.primitiveRevisions)
  }

  function NewOffers(apiVersions: seq<SemanticVersion>, primitiveRevisions: seq<u32>): Result<Offers> {
    var offers := Offers(apiVersions, primitiveRevisions);
    if ValidOffers(offers) then Ok(offers) else Err(InvalidInput)
  }

  datatype Support = Support(apiVersions: seq<SemanticVersion>, primitiveRevisions: seq<u32>)

  function CurrentSupport(): Support {
    Support(API_RELEASES, PRIMITIVE_REVISIONS)
  }

  datatype Selection = Selection(apiVersion: SemanticVersion, primitiveRevision: u32)

  datatype Incompatibility = NoCommonApiSchemaVersion | NoCommonPrimitiveSchemaRevision

  datatype Outcome = Outcome(support: Support, selection: Option<Selection>, incompatibilities: seq<Incompatibility>)

  predicate OffersEqual(clients: seq<SemanticVersion>, server: SemanticVersion) {
    exists i :: 0 <= i < |clients| && PrecedenceCmp(clients[i], server) == Equal
  }

  /** Searches the server's versions from the newest backwards. */
  function FindApi(servers: seq<SemanticVersion>, clients: seq<SemanticVersion>): Option<SemanticVersion> {
    if servers == [] then None
    else
      var newest := servers[|servers| - 1];
      if OffersEqual(clients, newest) then Some(newest) else FindApi(servers[..|servers| - 1], clients)
  }

  function FindPrimitive(servers: seq<u32>, clients: seq<u32>): Option<u32> {
    if servers == [] then None
    else
      var newest := servers[|servers| - 1];
      if BinarySearch(Below, clients, newest) then Some(newest) else FindPrimitive(servers[..|servers| - 1], clients)
  }

  function Negotiate(support: Support, o: Offers): Outcome {
    var api := FindApi(support.apiVersions, o.apiVersions);
    var primitive := FindPrimitive(support.primitiveRevisions, o.primitiveRevisions);
    Outcome(
      support,
      if api.Some? && primitive.Some? then Some(Selection(api.value, primitive.value)) else None,
      (if api.None? then [NoCommonApiSchemaVersion] else [])
      + (if primitive.None? then [NoCommonPrimitiveSchemaRevision] else []))
  }

  function Execute(o: Offers): Outcome {
    Negotiate(CurrentSupport(), o)
  }

  // ----- Which offers are accepted -----

  /** Adjacent checks accept exactly the nonempty bounded lists in strict order throughout, revisions nonzero. */
  lemma OffersAcceptedIff(apiVersions: seq<SemanticVersion>, primitiveRevisions: seq<u32>)
    requires forall v :: v in apiVersions ==> ValidPreRelease(v)
    ensures NewOffers(apiVersions, primitiveRevisions) ==
            (if && 1 <= |apiVersions| <= 64 && 1 <= |primitiveRevisions| <= 64
                && (forall i, j :: 0 <= i < j < |apiVersions| ==> LowerPrecedence(apiVersions[i], apiVersions[j]))
                && (forall i, j :: 0 <= i < j < |primitiveRevisions| ==> primitiveRevisions[i] < primitiveRevisions[j])
                && 0 !in primitiveRevisions
             then Ok(Offers(apiVersions, primitiveRevisions)) else Err(InvalidInput))
  {
    PrecedesIsStrict();
    AscendingIsSorted(Precedes, apiVersions);
    AscendingIsSorted(Below, primitiveRevisions);
    forall i, j | 0 <= i < j < |apiVersions|
      ensures Precedes(apiVersions[i], apiVersions[j]) <==> LowerPrecedence(apiVersions[i], apiVersions[j])
    {
      PrecedesIsLowerPrecedence(apiVersions[i], apiVersions[j]);
    }
  }

  /** A pre-release may be offered before its release, and never after it. */
  lemma PreReleaseIsOfferedFirst(v: SemanticVersion)
    requires v.preRelease.Some?
    ensures var release := v.(preRelease := None);
            && NewOffers([v, release], [1]) == Ok(Offers([v, release], [1]))
            && NewOffers([release, v], [1]) == Err(InvalidInput)
  {
    ReleaseOutranksPreRelease(v);
    var release := v.(preRelease := None);
    assert !Precedes([release, v][0], [release, v][0 + 1]);
  }

  // ----- Optimality -----

  lemma PrecedesIsStrict()
    ensures StrictOrder(Precedes)
  {
    forall a, b, c
      ensures !Precedes(a, a)
      ensures Precedes(a, b) && Precedes(b, c) ==> Precedes(a, c)
    {
      PrecedenceIsTotalPreorder(a, a, a);
      PrecedenceIsTotalPreorder(a, b, c);
    }
  }

  ghost predicate CommonApi(support: Support, o: Offers, v: SemanticVersion) {
    v in support.apiVersions && exists client :: client in o.apiVersions && WithoutBuild(client) == WithoutBuild(v)
  }

  ghost predicate CommonPrimitive(support: Support, o: Offers, p: u32) {
    p in support.primitiveRevisions && p in o.primitiveRevisions
  }

  ghost predicate Ordered(support: Support) {
    Ascending(Precedes, support.apiVersions) && Ascending(Below, support.primitiveRevisions)
  }

  lemma OffersEqualIsTie(clients: seq<SemanticVersion>, server: SemanticVersion)
    ensures OffersEqual(clients, server) <==>
            exists client :: client in clients && WithoutBuild(client) == WithoutBuild(server)
  {
    forall client ensures PrecedenceCmp(client, server) == Equal <==> WithoutBuild(client) == WithoutBuild(server) {
      PrecedenceIsTotalPreorder(client, server, server);
    }
  }

  /** Backwards search over an ordered list finds the greatest common version, or proves there is none. */
  lemma {:induction false} FindApiIsGreatest(servers: seq<SemanticVersion>, clients: seq<SemanticVersion>)
    requires Sorted(Precedes, servers)
    ensures match FindApi(servers, clients)
            case None => forall v :: v in servers ==> !OffersEqual(clients, v)
            case Some(best) =>
              && best in servers && OffersEqual(clients, best)
              && forall v :: v in servers && OffersEqual(clients, v) ==> v == best || Precedes(v, best)
  {
    if servers != [] {
      var n := |servers| - 1;
      FindApiIsGreatest(servers[..n], clients);
      assert servers == servers[..n] + [servers[n]];
      assert forall v :: v in servers[..n] ==> Precedes(v, servers[n]);
    }
  }

  lemma {:induction false} FindPrimitiveIsGreatest(servers: seq<u32>, clients: seq<u32>)
    requires Sorted(Below, servers) && Sorted(Below, clients)
    ensures match FindPrimitive(servers, clients)
            case None => forall p :: p in servers ==> p !in clients
            case Some(best) =>
              && best in servers && best in clients
              && forall p :: p in servers && p in clients ==> p <= best
  {
    if servers != [] {
      var n := |servers| - 1;
      BinarySearchIsMembership(Below, clients, servers[n]);
      FindPrimitiveIsGreatest(servers[..n], clients);
      assert servers == servers[..n] + [servers[n]];
      assert forall p :: p in servers[..n] ==> p < servers[n];
    }
  }

  ghost predicate SomeCommonApi(support: Support, o: Offers) {
    exists v :: CommonApi(support, o, v)
  }

  ghost predicate SomeCommonPrimitive(support: Support, o: Offers) {
    exists p: u32 :: CommonPrimitive(support, o, p)
  }

  /** The missing dimensions, in their stable order. */
  ghost function Missing(support: Support, o: Offers): seq<Incompatibility> {
    (if SomeCommonApi(support, o) then [] else [NoCommonApiSchemaVersion])
    + (if SomeCommonPrimitive(support, o) then [] else [NoCommonPrimitiveSchemaRevision])
  }

  /** The greatest server release tied with some offer, and the greatest shared primitive revision. */
  ghost predicate Greatest(support: Support, o: Offers, best: Selection) {
    && CommonApi(support, o, best.apiVersion) && CommonPrimitive(support, o, best.primitiveRevision)
    && (forall v :: CommonApi(support, o, v) ==> v == best.apiVersion || Precedes(v, best.apiVersion))
    && (forall p: u32 :: CommonPrimitive(support, o, p) ==> p <= best.primitiveRevision)
  }

  /** A selection exists exactly when nothing is missing, and it is the greatest. */
  ghost predicate Optimal(support: Support, o: Offers, outcome: Outcome) {
    && outcome.support == support
    && outcome.incompatibilities == Missing(support, o)
    && (outcome.selection.Some? <==> SomeCommonApi(support, o) && SomeCommonPrimitive(support, o))
    && (outcome.selection.Some? ==> Greatest(support, o, outcome.selection.value))
  }

  lemma SelectionIsOptimal(support: Support, o: Offers)
    requires Ordered(support) && ValidOffers(o)
    ensures Optimal(support, o, Negotiate(support, o))
  {
    PrecedesIsStrict();
    AscendingIsSorted(Precedes, support.apiVersions);
    AscendingIsSorted(Below, support.primitiveRevisions);
    AscendingIsSorted(Below, o.primitiveRevisions);
    FindApiIsGreatest(support.apiVersions, o.apiVersions);
    FindPrimitiveIsGreatest(support.primitiveRevisions, o.primitiveRevisions);
    forall v ensures CommonApi(support, o, v) <==> v in support.apiVersions && OffersEqual(o.apiVersions, v) {
      OffersEqualIsTie(o.apiVersions, v);
    }
    var primitive := FindPrimitive(support.primitiveRevisions, o.primitiveRevisions);
    assert primitive.Some? ==> CommonPrimitive(support, o, primitive.value);
    var api := FindApi(support.apiVersions, o.apiVersions);
    assert api.Some? ==> CommonApi(support, o, api.value);
  }

  lemma LaterMinorFollows(a: u64, b: u64)
    requires a < b
    ensures Precedes(Release(1, a, 0), Release(1, b, 0))
  {
  }

  lemma ReleasesAreOrdered()
    ensures Ordered(CurrentSupport())
  {
    forall i | 0 <= i < |API_RELEASES| - 1 ensures Precedes(API_RELEASES[i], API_RELEASES[i + 1]) {
      assert API_RELEASES[i] == Release(1, i, 0) && API_RELEASES[i + 1] == Release(1, i + 1, 0);
      LaterMinorFollows(i, i + 1);
    }
  }

  /** Whatever a client offers through the validating constructor, the shipped negotiation is optimal. */
  lemma ShippedNegotiationIsOptimal(apiVersions: seq<SemanticVersion>, primitiveRevisions: seq<u32>)
    requires NewOffers(apiVersions, primitiveRevisions).Ok?
    ensures var o := NewOffers(apiVersions, primitiveRevisions).value; Optimal(CurrentSupport(), o, Execute(o))
  {
    ReleasesAreOrdered();
    SelectionIsOptimal(CurrentSupport(), NewOffers(apiVersions, primitiveRevisions).value);
  }

  /** Offering more never loses a selection and never lowers either part of it. */
  lemma MoreOffersNeverLower(support: Support, small: Offers, large: Offers)
    requires Ordered(support) && ValidOffers(small) && ValidOffers(large)
    requires forall v :: v in small.apiVersions ==> v in large.apiVersions
    requires forall p :: p in small.primitiveRevisions ==> p in large.primitiveRevisions
    requires Negotiate(support, small).selection.Some?
    ensures Negotiate(support, large).selection.Some?
    ensures var old_, new_ := Negotiate(support, small).selection.value, Negotiate(support, large).selection.value;
            && (old_.apiVersion == new_.apiVersion || Precedes(old_.apiVersion, new_.apiVersion))
            && old_.primitiveRevision <= new_.primitiveRevision
  {
    SelectionIsOptimal(support, small);
    SelectionIsOptimal(support, large);
    var best := Negotiate(support, small).selection.value;
    assert CommonApi(support, large, best.apiVersion) && CommonPrimitive(support, large, best.primitiveRevision);
  }
}
