/**
 * Building the boolean filter that tests a field against a collection of
 * lookups by reference (ReferencedConceptsLookupService.constructQueryWithLookups).
 */
module Composer {
  import opened Wrappers
  import opened QueryDsl
  import opened Lookups

  /**
   * The terms-lookup clause for one lookup: `fieldName` must hold one of the
   * values under the concept-ids path of document `l.id` in `index`.
   */
  function LookupClause(l: Lookup, fieldName: string, index: string): Query
  {
    TermsLookup(fieldName, index, l.id, ConceptIdsField)
  }

  /**
   * Whether `l` yields a clause in the `should` group (`toShould`) or the
   * `mustNot` group (`!toShould`): lookups without a positive total yield
   * none; INCLUDE goes to `should`, every other type to `mustNot`.
   */
  predicate RoutedTo(l: Lookup, toShould: bool)
  {
    l.total > 0 && (l.lookupType == Include) == toShould
  }

  /** The clauses of one group, in the order of the lookups they come from. */
  function Clauses(ls: seq<Lookup>, fieldName: string, index: string, toShould: bool): seq<Query>
    decreases |ls|
  {
    if ls == [] then []
    else
      var last := ls[|ls| - 1];
      Clauses(ls[..|ls| - 1], fieldName, index, toShould)
        + (if RoutedTo(last, toShould) then [LookupClause(last, fieldName, index)] else [])
  }

  /**
   * The filter for `ls`: include clauses as `should`, the others as `mustNot`.
   * A group with no clause is left empty, which is the same as leaving it out.
   */
  function Compose(ls: seq<Lookup>, fieldName: string, index: string): Query
  {
    Bool([], Clauses(ls, fieldName, index, true), Clauses(ls, fieldName, index, false))
  }

  /**
   * The service's loop: each lookup with a positive total becomes a
   * terms-lookup clause, appended to the include or the exclude list; the
   * two lists then become the bool's `should` and `mustNot` groups.
   * `index` is the name of the lookup index, which the service asks the
   * search client for.
   */
  method ConstructQueryWithLookups(lookups: seq<Lookup>, fieldName: string, index: string)
    returns (filter: Query)
    ensures filter == Compose(lookups, fieldName, index)
  {
    var includeFilters: seq<Query> := [];
    var excludeFilters: seq<Query> := [];
    for i := 0 to |lookups|
      invariant includeFilters == Clauses(lookups[..i], fieldName, index, true)
      invariant excludeFilters == Clauses(lookups[..i], fieldName, index, false)
    {
      assert lookups[..i + 1][..i] == lookups[..i];
      var lookup := lookups[i];
      if lookup.total > 0 {
        var termsLookupQuery := TermsLookup(fieldName, index, lookup.id, ConceptIdsField);
        if lookup.lookupType == Include {
          includeFilters := includeFilters + [termsLookupQuery];
        } else {
          excludeFilters := excludeFilters + [termsLookupQuery];
        }
      }
    }
    assert lookups[..|lookups|] == lookups;
    filter := Bool([], includeFilters, excludeFilters);
  }

  /** A clause is in a group exactly when some lookup routed to that group produced it. */
  lemma {:induction false} ClausesMembership(ls: seq<Lookup>, fieldName: string, index: string, toShould: bool, q: Query)
    ensures q in Clauses(ls, fieldName, index, toShould)
        <==> exists l :: l in ls && RoutedTo(l, toShould) && q == LookupClause(l, fieldName, index)
  {
    if ls != [] {
      var init := ls[..|ls| - 1];
      ClausesMembership(init, fieldName, index, toShould, q);
      assert ls == init + [ls[|ls| - 1]];
      if exists l :: l in ls && RoutedTo(l, toShould) && q == LookupClause(l, fieldName, index) {
        var l :| l in ls && RoutedTo(l, toShould) && q == LookupClause(l, fieldName, index);
        if l !in init {
          assert l == ls[|ls| - 1];
        }
      }
    }
  }

  /** A group is non-empty exactly when some lookup is routed to it. */
  lemma {:induction false} ClausesNonEmptyIff(ls: seq<Lookup>, fieldName: string, index: string, toShould: bool)
    ensures Clauses(ls, fieldName, index, toShould) != [] <==> exists l :: l in ls && RoutedTo(l, toShould)
  {
    var c := Clauses(ls, fieldName, index, toShould);
    if c != [] {
      ClausesMembership(ls, fieldName, index, toShould, c[0]);
    }
    if exists l :: l in ls && RoutedTo(l, toShould) {
      var l :| l in ls && RoutedTo(l, toShould);
      ClausesMembership(ls, fieldName, index, toShould, LookupClause(l, fieldName, index));
    }
  }

  /** `should` is present exactly when some lookup with a positive total is INCLUDE; `mustNot` exactly when some is not. */
  lemma ComposeGroupsPresence(ls: seq<Lookup>, fieldName: string, index: string)
    ensures Compose(ls, fieldName, index).must == []
    ensures Compose(ls, fieldName, index).should != []
        <==> exists l :: l in ls && l.total > 0 && l.lookupType == Include
    ensures Compose(ls, fieldName, index).mustNot != []
        <==> exists l :: l in ls && l.total > 0 && l.lookupType != Include
  {
    ClausesNonEmptyIff(ls, fieldName, index, true);
    ClausesNonEmptyIff(ls, fieldName, index, false);
  }

  /** Every clause of the filter is a terms lookup on `fieldName` that names one of the lookups by id and reads its concept-ids path. */
  lemma ComposeClausesReferenceLookups(ls: seq<Lookup>, fieldName: string, index: string, q: Query)
    requires q in Compose(ls, fieldName, index).should + Compose(ls, fieldName, index).mustNot
    ensures q.TermsLookup? && q.field == fieldName && q.index == index && q.path == ConceptIdsField
    ensures exists l :: l in ls && l.total > 0 && q.docId == l.id
  {
    ClausesMembership(ls, fieldName, index, true, q);
    ClausesMembership(ls, fieldName, index, false, q);
  }

  /** The number of lookups with a positive total. */
  function CountContributing(ls: seq<Lookup>): nat
    decreases |ls|
  {
    if ls == [] then 0
    else CountContributing(ls[..|ls| - 1]) + (if ls[|ls| - 1].total > 0 then 1 else 0)
  }

  /** Each lookup with a positive total yields exactly one clause. */
  lemma {:induction false} ComposeClauseCount(ls: seq<Lookup>, fieldName: string, index: string)
    ensures |Compose(ls, fieldName, index).should| + |Compose(ls, fieldName, index).mustNot|
         == CountContributing(ls)
  {
    if ls != [] {
      ComposeClauseCount(ls[..|ls| - 1], fieldName, index);
    }
  }

  /** Within a group, the clauses of two lookups come in the order of the lookups. */
  lemma {:induction false} ClausesKeepInputOrder(ls: seq<Lookup>, fieldName: string, index: string, toShould: bool, i: nat, j: nat)
    requires i < j < |ls| && RoutedTo(ls[i], toShould) && RoutedTo(ls[j], toShould)
    ensures exists k, m ::
      0 <= k < m < |Clauses(ls, fieldName, index, toShould)|
      && Clauses(ls, fieldName, index, toShould)[k] == LookupClause(ls[i], fieldName, index)
      && Clauses(ls, fieldName, index, toShould)[m] == LookupClause(ls[j], fieldName, index)
  {
    var init := ls[..|ls| - 1];
    var c := Clauses(ls, fieldName, index, toShould);
    var ci := Clauses(init, fieldName, index, toShould);
    assert c[..|ci|] == ci;
    if j < |ls| - 1 {
      ClausesKeepInputOrder(init, fieldName, index, toShould, i, j);
      var k, m :| 0 <= k < m < |ci| && ci[k] == LookupClause(init[i], fieldName, index)
                                    && ci[m] == LookupClause(init[j], fieldName, index);
      assert c[k] == ci[k] && c[m] == ci[m];
    } else {
      assert init[i] == ls[i];
      ClausesMembership(init, fieldName, index, toShould, LookupClause(ls[i], fieldName, index));
      var k :| 0 <= k < |ci| && ci[k] == LookupClause(ls[i], fieldName, index);
      assert c[k] == ci[k];
      assert c[|ci|] == LookupClause(ls[j], fieldName, index);
    }
  }

  /** Lookups without a positive total contribute nothing: a collection of only such lookups gives the filter of the empty collection. */
  lemma ComposeSkipsEmptyLookups(ls: seq<Lookup>, fieldName: string, index: string)
    requires forall l :: l in ls ==> l.total <= 0
    ensures Compose(ls, fieldName, index) == Compose([], fieldName, index) == Bool([], [], [])
  {
    ClausesNonEmptyIff(ls, fieldName, index, true);
    ClausesNonEmptyIff(ls, fieldName, index, false);
  }

  /** The filter of a collection with no positive total has no clause and matches every document. */
  lemma ComposeWithoutContributorsMatchesAll(ls: seq<Lookup>, fieldName: string, index: string, d: Doc, env: Env)
    requires forall l :: l in ls ==> l.total <= 0
    ensures Eval(Compose(ls, fieldName, index), d, env)
  {
    ComposeSkipsEmptyLookups(ls, fieldName, index);
  }

  /** The member list is never read: dropping it from every lookup gives the same filter. */
  lemma {:induction false} ComposeIgnoresConceptIds(ls: seq<Lookup>, fieldName: string, index: string)
    ensures Compose(StripAll(ls), fieldName, index) == Compose(ls, fieldName, index)
  {
    ClausesIgnoreConceptIds(ls, fieldName, index, true);
    ClausesIgnoreConceptIds(ls, fieldName, index, false);
  }

  function StripAll(ls: seq<Lookup>): (r: seq<Lookup>)
    ensures |r| == |ls|
  {
    seq(|ls|, i requires 0 <= i < |ls| => WithoutConceptIds(ls[i]))
  }

  lemma {:induction false} ClausesIgnoreConceptIds(ls: seq<Lookup>, fieldName: string, index: string, toShould: bool)
    ensures Clauses(StripAll(ls), fieldName, index, toShould) == Clauses(ls, fieldName, index, toShould)
  {
    if ls != [] {
      var init := ls[..|ls| - 1];
      assert StripAll(ls)[..|ls| - 1] == StripAll(init);
      ClausesIgnoreConceptIds(init, fieldName, index, toShould);
    }
  }

  /** Whether the value of `fieldName` in `d` is among the members stored for lookup `l`. */
  predicate Hits(d: Doc, fieldName: string, store: Store, index: string, l: Lookup)
  {
    Overlaps(FieldValues(d, fieldName), Resolve(store, index, l.id, ConceptIdsField))
  }

  /**
   * What the filter matches: a document passes exactly when it hits some
   * include lookup (or there is no include lookup) and hits no other lookup,
   * counting only lookups with a positive total.
   */
  lemma ComposeSemantics(ls: seq<Lookup>, fieldName: string, index: string, d: Doc, env: Env)
    ensures Eval(Compose(ls, fieldName, index), d, env)
        <==> ((forall l :: l in ls && l.total > 0 ==> l.lookupType != Include)
              || exists l :: l in ls && l.total > 0 && l.lookupType == Include && Hits(d, fieldName, env.store, index, l))
             && (forall l :: l in ls && l.total > 0 && l.lookupType != Include ==> !Hits(d, fieldName, env.store, index, l))
  {
    var should := Clauses(ls, fieldName, index, true);
    var mustNot := Clauses(ls, fieldName, index, false);
    ClausesNonEmptyIff(ls, fieldName, index, true);
    forall l | l in ls && RoutedTo(l, true)
      ensures Eval(LookupClause(l, fieldName, index), d, env) ==> exists i | 0 <= i < |should| :: Eval(should[i], d, env)
    {
      ClausesMembership(ls, fieldName, index, true, LookupClause(l, fieldName, index));
    }
    forall i | 0 <= i < |should|
      ensures exists l :: l in ls && RoutedTo(l, true) && should[i] == LookupClause(l, fieldName, index)
    {
      ClausesMembership(ls, fieldName, index, true, should[i]);
    }
    forall l | l in ls && RoutedTo(l, false)
      ensures LookupClause(l, fieldName, index) in mustNot
    {
      ClausesMembership(ls, fieldName, index, false, LookupClause(l, fieldName, index));
    }
    forall i | 0 <= i < |mustNot|
      ensures exists l :: l in ls && RoutedTo(l, false) && mustNot[i] == LookupClause(l, fieldName, index)
    {
      ClausesMembership(ls, fieldName, index, false, mustNot[i]);
    }
  }

  /** The lookup index of `store` holds every lookup of `ls` with its member list. */
  predicate Indexed(store: Store, index: string, ls: seq<Lookup>)
  {
    forall l :: l in ls ==>
      l.conceptIds.Some? && index in store && l.id in store[index] && store[index][l.id] == AsDoc(l)
  }

  /**
   * For a document whose field holds the single value `v`, with the lookups
   * stored as given: `v` passes exactly when it is a member of some include
   * lookup (or there is none) and of no exclude lookup.
   */
  lemma ComposeMembership(ls: seq<Lookup>, fieldName: string, index: string, d: Doc, env: Env, v: int)
    requires Indexed(env.store, index, ls)
    requires FieldValues(d, fieldName) == [v]
    ensures Eval(Compose(ls, fieldName, index), d, env)
        <==> ((forall l :: l in ls && l.total > 0 ==> l.lookupType != Include)
              || exists l :: l in ls && l.total > 0 && l.lookupType == Include && v in l.conceptIds.value)
             && (forall l :: l in ls && l.total > 0 && l.lookupType != Include ==> v !in l.conceptIds.value)
  {
    ComposeSemantics(ls, fieldName, index, d, env);
    forall l | l in ls
      ensures Hits(d, fieldName, env.store, index, l) <==> v in l.conceptIds.value
    {
      assert RefsetIdField != ConceptIdsField;
      assert Resolve(env.store, index, l.id, ConceptIdsField) == l.conceptIds.value;
      if v in l.conceptIds.value {
        assert v in FieldValues(d, fieldName);
      }
    }
  }

  /**
   * A single INCLUDE lookup with members 10, 20 and 30 on the field
   * `destination`: a document with destination 20 passes, one with 99 does not.
   */
  lemma IncludeLookupExample(index: string)
    ensures var l := Lookup("lookup-1", 100001, Include, Some([10, 20, 30]), 3);
            var env := Env(map[index := map["lookup-1" := AsDoc(l)]], _ => true);
            var filter := Compose([l], "destination", index);
            Eval(filter, Doc("concept-a", map["destination" := [20]]), env)
            && !Eval(filter, Doc("concept-b", map["destination" := [99]]), env)
  {
    var l := Lookup("lookup-1", 100001, Include, Some([10, 20, 30]), 3);
    var env := Env(map[index := map["lookup-1" := AsDoc(l)]], _ => true);
    ComposeMembership([l], "destination", index, Doc("concept-a", map["destination" := [20]]), env, 20);
    ComposeMembership([l], "destination", index, Doc("concept-b", map["destination" := [99]]), env, 99);
  }
}
