/**
 * Reading the lookup documents visible on a branch
 * (ReferencedConceptsLookupService.getConceptsLookups and its overloads).
 * The search itself is the engine's: it is modelled as filtering a store
 * kept in hit order, cutting to one page, and applying the source filter.
 */
module Retriever {
  import opened Wrappers
  import opened QueryDsl
  import opened Lookups

  /** The size of the one page the service asks for. */
  const PageSize: nat := 1000

  /**
   * The query: the branch criteria alone when no refset ids are given (null
   * or empty); otherwise the branch criteria and a refset-id terms clause,
   * both required.
   */
  function RetrievalQuery(refsetIds: Option<seq<int>>): Query
  {
    if refsetIds.None? || refsetIds.value == [] then BranchCriteria
    else Bool([BranchCriteria, Terms(RefsetIdField, refsetIds.value)], [], [])
  }

  /** A search request: the query, the fields left out of each returned document, and the page size. */
  datatype SearchRequest = SearchRequest(query: Query, sourceExcludes: seq<string>, pageSize: nat)

  /** The request the service sends. */
  function BuildRequest(refsetIds: Option<seq<int>>, includeConceptIds: bool): SearchRequest
  {
    SearchRequest(RetrievalQuery(refsetIds), if includeConceptIds then [] else [ConceptIdsField], PageSize)
  }

  /** The stored lookups that match `q`, in hit order (the order of `store`). */
  function Matches(store: seq<Lookup>, q: Query, env: Env): seq<Lookup>
    decreases |store|
  {
    if store == [] then []
    else
      var last := store[|store| - 1];
      Matches(store[..|store| - 1], q, env) + (if Eval(q, AsDoc(last), env) then [last] else [])
  }

  /** A returned document: the member list is dropped when the request excludes its field. */
  function ApplySourceFilter(l: Lookup, excludes: seq<string>): Lookup
  {
    if ConceptIdsField in excludes then WithoutConceptIds(l) else l
  }

  /** The engine's answer: the first page of matches, each with the source filter applied. */
  function Search(store: seq<Lookup>, env: Env, request: SearchRequest): seq<Lookup>
  {
    var hits := Matches(store, request.query, env);
    var page := if |hits| <= request.pageSize then hits else hits[..request.pageSize];
    seq(|page|, i requires 0 <= i < |page| => ApplySourceFilter(page[i], request.sourceExcludes))
  }

  /** What the service returns for a store, a branch's visibility, refset ids and the projection flag. */
  function Retrieve(store: seq<Lookup>, visible: string -> bool, refsetIds: Option<seq<int>>, includeConceptIds: bool): seq<Lookup>
  {
    Search(store, Env(map[], visible), BuildRequest(refsetIds, includeConceptIds))
  }

  /**
   * The four-argument `getConceptsLookups`: build the request step by step,
   * run one search, and copy the hits into the result list.
   */
  method GetConceptsLookups(store: seq<Lookup>, visible: string -> bool, refsetIds: Option<seq<int>>, includeConceptIds: bool)
    returns (results: seq<Lookup>)
    ensures results == Retrieve(store, visible, refsetIds, includeConceptIds)
  {
    var query := RetrievalQuery(refsetIds);
    var sourceExcludes: seq<string> := [];
    if !includeConceptIds {
      sourceExcludes := [ConceptIdsField];
    }
    var request := SearchRequest(query, sourceExcludes, PageSize);
    var hits := Search(store, Env(map[], visible), request);
    results := [];
    for i := 0 to |hits|
      invariant results == hits[..i]
    {
      results := results + [hits[i]];
    }
    assert hits[..|hits|] == hits;
  }

  /** The overload without refset ids: no refset restriction. */
  method GetConceptsLookupsOnBranch(store: seq<Lookup>, visible: string -> bool, includeConceptIds: bool)
    returns (results: seq<Lookup>)
    ensures results == Retrieve(store, visible, None, includeConceptIds)
  {
    results := GetConceptsLookups(store, visible, None, includeConceptIds);
  }

  /** The overload with only branch criteria: no refset restriction, member lists included. */
  method GetAllConceptsLookups(store: seq<Lookup>, visible: string -> bool)
    returns (results: seq<Lookup>)
    ensures results == Retrieve(store, visible, None, true)
  {
    results := GetConceptsLookups(store, visible, None, true);
  }

  /** The overload with refset ids: member lists included. */
  method GetConceptsLookupsForRefsets(store: seq<Lookup>, visible: string -> bool, refsetIds: Option<seq<int>>)
    returns (results: seq<Lookup>)
    ensures results == Retrieve(store, visible, refsetIds, true)
  {
    results := GetConceptsLookups(store, visible, refsetIds, true);
  }

  /** Whether a lookup passes the refset restriction. */
  predicate InRefsets(l: Lookup, refsetIds: Option<seq<int>>)
  {
    refsetIds.None? || refsetIds.value == [] || l.refsetId in refsetIds.value
  }

  /** The query selects exactly the visible lookups whose refset id is among the given ones, if any are given. */
  lemma RetrievalQueryMeaning(refsetIds: Option<seq<int>>, l: Lookup, env: Env)
    ensures Eval(RetrievalQuery(refsetIds), AsDoc(l), env) <==> env.visible(l.id) && InRefsets(l, refsetIds)
  {
    assert RefsetIdField != ConceptIdsField;
    assert FieldValues(AsDoc(l), RefsetIdField) == [l.refsetId];
    if refsetIds.Some? && refsetIds.value != [] {
      var must := [BranchCriteria, Terms(RefsetIdField, refsetIds.value)];
      assert RetrievalQuery(refsetIds) == Bool(must, [], []);
      assert Eval(Bool(must, [], []), AsDoc(l), env) <==> Eval(must[0], AsDoc(l), env) && Eval(must[1], AsDoc(l), env);
      if l.refsetId in refsetIds.value {
        assert l.refsetId in FieldValues(AsDoc(l), RefsetIdField);
      }
    }
  }

  /** The result position by position: the first page of matches, projected as requested. */
  lemma RetrieveAt(store: seq<Lookup>, visible: string -> bool, refsetIds: Option<seq<int>>, includeConceptIds: bool)
    ensures var hits := Matches(store, RetrievalQuery(refsetIds), Env(map[], visible));
            var r := Retrieve(store, visible, refsetIds, includeConceptIds);
            |r| == (if |hits| <= PageSize then |hits| else PageSize)
            && forall k | 0 <= k < |r| :: r[k] == if includeConceptIds then hits[k] else WithoutConceptIds(hits[k])
  {
    var request := BuildRequest(refsetIds, includeConceptIds);
    assert includeConceptIds <==> ConceptIdsField !in request.sourceExcludes;
    var hits := Matches(store, RetrievalQuery(refsetIds), Env(map[], visible));
    var page := if |hits| <= PageSize then hits else hits[..PageSize];
    var r := Retrieve(store, visible, refsetIds, includeConceptIds);
    assert r == seq(|page|, i requires 0 <= i < |page| => ApplySourceFilter(page[i], request.sourceExcludes));
    forall k | 0 <= k < |r|
      ensures r[k] == if includeConceptIds then hits[k] else WithoutConceptIds(hits[k])
    {
      assert r[k] == ApplySourceFilter(page[k], request.sourceExcludes);
    }
  }

  /** A record is among the matches exactly when it is stored and matches. */
  lemma {:induction false} MatchesMembership(store: seq<Lookup>, q: Query, env: Env, l: Lookup)
    ensures l in Matches(store, q, env) <==> l in store && Eval(q, AsDoc(l), env)
  {
    if store != [] {
      var init := store[..|store| - 1];
      MatchesMembership(init, q, env, l);
      assert store == init + [store[|store| - 1]];
    }
  }

  /** Matches come in hit order: two matching records keep their relative order. */
  lemma {:induction false} MatchesInHitOrder(store: seq<Lookup>, q: Query, env: Env, i: nat, j: nat)
    requires i < j < |store| && Eval(q, AsDoc(store[i]), env) && Eval(q, AsDoc(store[j]), env)
    ensures exists k, m ::
      0 <= k < m < |Matches(store, q, env)|
      && Matches(store, q, env)[k] == store[i] && Matches(store, q, env)[m] == store[j]
  {
    var init := store[..|store| - 1];
    var ms := Matches(store, q, env);
    var mi := Matches(init, q, env);
    assert ms[..|mi|] == mi;
    if j < |store| - 1 {
      MatchesInHitOrder(init, q, env, i, j);
      var k, m :| 0 <= k < m < |mi| && mi[k] == init[i] && mi[m] == init[j];
      assert ms[k] == mi[k] && ms[m] == mi[m];
    } else {
      assert init[i] == store[i];
      MatchesMembership(init, q, env, store[i]);
      var k :| 0 <= k < |mi| && mi[k] == store[i];
      assert ms[k] == mi[k];
      assert ms[|mi|] == store[j];
    }
  }

  /**
   * Every result is a stored lookup that is visible and passes the refset
   * restriction, projected as requested; there are at most one page of them.
   */
  lemma RetrieveSound(store: seq<Lookup>, visible: string -> bool, refsetIds: Option<seq<int>>, includeConceptIds: bool, k: nat)
    requires k < |Retrieve(store, visible, refsetIds, includeConceptIds)|
    ensures |Retrieve(store, visible, refsetIds, includeConceptIds)| <= PageSize
    ensures var r := Retrieve(store, visible, refsetIds, includeConceptIds)[k];
            visible(r.id) && InRefsets(r, refsetIds)
            && (includeConceptIds ==> r in store)
            && (!includeConceptIds ==> r.conceptIds.None? && exists l :: l in store && r == WithoutConceptIds(l))
  {
    var env := Env(map[], visible);
    var hits := Matches(store, RetrievalQuery(refsetIds), env);
    RetrieveAt(store, visible, refsetIds, includeConceptIds);
    var l := hits[k];
    MatchesMembership(store, RetrievalQuery(refsetIds), env, l);
    RetrievalQueryMeaning(refsetIds, l, env);
  }

  /**
   * While the matches fit in one page, every stored lookup that is visible
   * and passes the refset restriction is returned (projected as requested).
   */
  lemma RetrieveCompleteWithinPage(store: seq<Lookup>, visible: string -> bool, refsetIds: Option<seq<int>>, includeConceptIds: bool, l: Lookup)
    requires |Matches(store, RetrievalQuery(refsetIds), Env(map[], visible))| <= PageSize
    requires l in store && visible(l.id) && InRefsets(l, refsetIds)
    ensures (if includeConceptIds then l else WithoutConceptIds(l)) in Retrieve(store, visible, refsetIds, includeConceptIds)
  {
    var env := Env(map[], visible);
    var hits := Matches(store, RetrievalQuery(refsetIds), env);
    RetrievalQueryMeaning(refsetIds, l, env);
    MatchesMembership(store, RetrievalQuery(refsetIds), env, l);
    var k :| 0 <= k < |hits| && hits[k] == l;
    RetrieveAt(store, visible, refsetIds, includeConceptIds);
    assert Retrieve(store, visible, refsetIds, includeConceptIds)[k] == if includeConceptIds then l else WithoutConceptIds(l);
  }

  /**
   * Past one page the result is cut short: exactly the first page of matches
   * in hit order comes back, each without its member list when those are not
   * wanted, and every later match is dropped.
   */
  lemma RetrieveTruncatesToOnePage(store: seq<Lookup>, visible: string -> bool, refsetIds: Option<seq<int>>, includeConceptIds: bool)
    requires |Matches(store, RetrievalQuery(refsetIds), Env(map[], visible))| > PageSize
    ensures |Retrieve(store, visible, refsetIds, includeConceptIds)| == PageSize
    ensures includeConceptIds ==>
              Retrieve(store, visible, refsetIds, includeConceptIds)
              == Matches(store, RetrievalQuery(refsetIds), Env(map[], visible))[..PageSize]
    ensures forall k | 0 <= k < PageSize ::
      Retrieve(store, visible, refsetIds, includeConceptIds)[k]
      == (var hit := Matches(store, RetrievalQuery(refsetIds), Env(map[], visible))[k];
          if includeConceptIds then hit else WithoutConceptIds(hit))
  {
    RetrieveAt(store, visible, refsetIds, includeConceptIds);
  }

  /** No two stored lookups share an id, as the engine keys documents by id. */
  predicate UniqueIds(s: seq<Lookup>)
  {
    forall i, j | 0 <= i < j < |s| :: s[i].id != s[j].id
  }

  /** Matches of a store with unique ids have unique ids. */
  lemma {:induction false} MatchesUniqueIds(store: seq<Lookup>, q: Query, env: Env)
    requires UniqueIds(store)
    ensures UniqueIds(Matches(store, q, env))
  {
    if store != [] {
      var init := store[..|store| - 1];
      var last := store[|store| - 1];
      assert UniqueIds(init) by {
        forall i, j | 0 <= i < j < |init| ensures init[i].id != init[j].id {
          assert init[i] == store[i] && init[j] == store[j];
        }
      }
      MatchesUniqueIds(init, q, env);
      var mi := Matches(init, q, env);
      forall k | 0 <= k < |mi| ensures mi[k].id != last.id {
        MatchesMembership(init, q, env, mi[k]);
        var i :| 0 <= i < |init| && init[i] == mi[k];
        assert store[i] == mi[k];
      }
    }
  }

  /** Results are unique by id: no lookup comes back twice. */
  lemma RetrieveUniqueIds(store: seq<Lookup>, visible: string -> bool, refsetIds: Option<seq<int>>, includeConceptIds: bool)
    requires UniqueIds(store)
    ensures UniqueIds(Retrieve(store, visible, refsetIds, includeConceptIds))
  {
    MatchesUniqueIds(store, RetrievalQuery(refsetIds), Env(map[], visible));
    RetrieveAt(store, visible, refsetIds, includeConceptIds);
  }

  /** A null and an empty collection of refset ids give the same result. */
  lemma RetrieveNullRefsetsAsEmpty(store: seq<Lookup>, visible: string -> bool, includeConceptIds: bool)
    ensures Retrieve(store, visible, None, includeConceptIds) == Retrieve(store, visible, Some([]), includeConceptIds)
  {
  }

  /**
   * Leaving out the member lists drops only them: the same lookups come back
   * in the same order with the same id, refset id, type and total.
   */
  lemma RetrieveWithoutConceptIdsKeepsTheRest(store: seq<Lookup>, visible: string -> bool, refsetIds: Option<seq<int>>)
    ensures |Retrieve(store, visible, refsetIds, false)| == |Retrieve(store, visible, refsetIds, true)|
    ensures forall k | 0 <= k < |Retrieve(store, visible, refsetIds, false)| ::
      var full := Retrieve(store, visible, refsetIds, true)[k];
      var slim := Retrieve(store, visible, refsetIds, false)[k];
      slim.conceptIds.None? && slim.id == full.id && slim.refsetId == full.refsetId
      && slim.lookupType == full.lookupType && slim.total == full.total
  {
    RetrieveAt(store, visible, refsetIds, true);
    RetrieveAt(store, visible, refsetIds, false);
  }
}
