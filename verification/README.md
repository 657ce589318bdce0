# Referenced-concepts lookups: a Dafny model

Snowstorm evaluates ECL (expression constraint language) queries against large, reusable sets of
concept ids, such as the members of a refset. It stores each such set as a
*referenced-concepts lookup* document: an id, the refset id, an INCLUDE or EXCLUDE type, the member
concept ids and their total. `ReferencedConceptsLookupService` does two things with these documents:

- **Retrieval** (`getConceptsLookups`, four overloads). It reads the lookups visible on a branch,
  optionally only those of given refsets and optionally without their (possibly huge) member lists.
  It does this in a single search for one page of 1000 hits.
- **Filter composition** (`constructQueryWithLookups`). It turns lookups into one boolean filter
  over a field. Each lookup with a positive total becomes a *terms lookup*: a clause that names the
  lookup document and its concept-ids path, so the engine reads the members server-side and none
  is copied into the query. INCLUDE clauses go to `should`. All other clauses go to `mustNot`.

The model has five modules:

- `Wrappers` (`wrappers.dfy`): `Option`, standing for Java's `null`.
- `QueryDsl` (`query_dsl.dfy`): the query tree the service builds (`Bool`, `Terms`, `TermsLookup`,
  `BranchCriteria`) and an evaluator `Eval` that gives it the search engine's matching semantics.
  A bool query needs all of its `must` clauses and none of its `mustNot` clauses. When it has no
  `must` clause and some `should` clause, at least one `should` clause must match. So a bool with
  only `mustNot` clauses matches every document that none of them matches, and a bool with no
  clauses matches everything. Terms lookups read from an abstract store (index → document id → fields).
  Branch criteria are an opaque visibility predicate over document ids.
- `Lookups` (`lookups.dfy`): the lookup record, its two field names, and its stored form `AsDoc`.
- `Composer` (`composer.dfy`): `constructQueryWithLookups` as a loop (`ConstructQueryWithLookups`).
  The loop is proved equal to the specification function `Compose`, and the lemmas about `Compose`
  give its shape and what it matches.
- `Retriever` (`retriever.dfy`): `getConceptsLookups` as a method that builds the request step by
  step and copies the hits. It is proved equal to `Retrieve`, which models the engine as "filter the
  store in hit order, keep the first page, apply the source filter". The lemmas about `Retrieve`
  give what comes back.

Behaviour of the code worth knowing, which the model states as it is:

- The code fetches one page of 1000 and does not page further; more matches are silently dropped.
  `RetrieveTruncatesToOnePage` states the truncation.
- The code drops lookups whose total is `<= 0`, so a negative total counts as empty too.
- The code sends every type other than INCLUDE to `mustNot`, including a null type (`Unset` here).
- The code treats a null and an empty collection of refset ids alike.

## Model

| member | source | states |
|---|---|---|
| Composer.ConstructQueryWithLookups | src/main/java/org/snomed/snowstorm/ecl/ReferencedConceptsLookupService.java:67-105 | the loop that fills the include and exclude lists and assembles the bool yields exactly the filter `Compose` specifies |
| Composer.ClausesMembership | src/main/java/org/snomed/snowstorm/ecl/ReferencedConceptsLookupService.java:71-91 | a clause is in a group if and only if some lookup with a positive total routed to that group (INCLUDE for `should`, anything else for `mustNot`) produced it |
| Composer.ClausesNonEmptyIff | src/main/java/org/snomed/snowstorm/ecl/ReferencedConceptsLookupService.java:71-91 | a clause group is non-empty if and only if some lookup is routed to it |
| Composer.ComposeGroupsPresence | src/main/java/org/snomed/snowstorm/ecl/ReferencedConceptsLookupService.java:93-103 | the filter has no `must`; `should` is present iff some positive-total lookup is INCLUDE; `mustNot` is present iff some positive-total lookup is of any other type |
| Composer.ComposeClausesReferenceLookups | src/main/java/org/snomed/snowstorm/ecl/ReferencedConceptsLookupService.java:74-83 | every clause is a terms lookup on `fieldName` in the lookup index, on the concept-ids path, naming a positive-total lookup by its id |
| Composer.ComposeClauseCount | src/main/java/org/snomed/snowstorm/ecl/ReferencedConceptsLookupService.java:71-91 | `should` and `mustNot` together hold exactly as many clauses as there are lookups with a positive total |
| Composer.ClausesKeepInputOrder | src/main/java/org/snomed/snowstorm/ecl/ReferencedConceptsLookupService.java:71-91 | within a group, the clauses of two lookups appear in the order of the lookups |
| Composer.ComposeSkipsEmptyLookups | src/main/java/org/snomed/snowstorm/ecl/ReferencedConceptsLookupService.java:72 | lookups that all have a non-positive total give the same filter as no lookups: a bool with no clauses |
| Composer.ComposeWithoutContributorsMatchesAll | src/main/java/org/snomed/snowstorm/ecl/ReferencedConceptsLookupService.java:93-103 | such a filter matches every document |
| Composer.ComposeIgnoresConceptIds | src/main/java/org/snomed/snowstorm/ecl/ReferencedConceptsLookupService.java:74-83 | the filter does not depend on the member lists: stripping them from every lookup gives the same filter |
| Composer.ClausesIgnoreConceptIds | src/main/java/org/snomed/snowstorm/ecl/ReferencedConceptsLookupService.java:74-83 | the same, group by group |
| Composer.ComposeSemantics | src/main/java/org/snomed/snowstorm/ecl/ReferencedConceptsLookupService.java:85-103 | a document passes iff (there is no positive-total INCLUDE lookup, or its field hits one) and its field hits no positive-total lookup of another type |
| Composer.ComposeMembership | src/main/java/org/snomed/snowstorm/ecl/ReferencedConceptsLookupService.java:93-103 | with the lookups stored and a single field value `v`: `v` passes iff it is a member of some include lookup (or there is none) and of no exclude lookup |
| Composer.IncludeLookupExample | src/main/java/org/snomed/snowstorm/ecl/ReferencedConceptsLookupService.java:67-105 | one INCLUDE lookup with members 10, 20 and 30: destination 20 passes, 99 is rejected |
| Retriever.GetConceptsLookups | src/main/java/org/snomed/snowstorm/ecl/ReferencedConceptsLookupService.java:45-65 | building the request (query, optional source filter, page of 1000), searching and copying the hits returns exactly `Retrieve` |
| Retriever.GetConceptsLookupsOnBranch | src/main/java/org/snomed/snowstorm/ecl/ReferencedConceptsLookupService.java:33-35 | the overload without refset ids is retrieval with null refset ids |
| Retriever.GetAllConceptsLookups | src/main/java/org/snomed/snowstorm/ecl/ReferencedConceptsLookupService.java:37-39 | the branch-only overload is retrieval with null refset ids and member lists included |
| Retriever.GetConceptsLookupsForRefsets | src/main/java/org/snomed/snowstorm/ecl/ReferencedConceptsLookupService.java:41-43 | the refset overload is retrieval with member lists included |
| Retriever.RetrievalQueryMeaning | src/main/java/org/snomed/snowstorm/ecl/ReferencedConceptsLookupService.java:47-54 | the query selects a lookup iff it is visible on the branch and, when refset ids are given and non-empty, its refset id is among them |
| Retriever.RetrieveAt | src/main/java/org/snomed/snowstorm/ecl/ReferencedConceptsLookupService.java:57-64 | the result holds the first min(matches, 1000) matches in hit order, each without its member list when those are not wanted |
| Retriever.MatchesMembership | src/main/java/org/snomed/snowstorm/ecl/ReferencedConceptsLookupService.java:61 | a lookup is a hit iff it is stored and matches the query |
| Retriever.MatchesInHitOrder | src/main/java/org/snomed/snowstorm/ecl/ReferencedConceptsLookupService.java:61-63 | hits keep the relative order of the stored lookups |
| Retriever.RetrieveSound | src/main/java/org/snomed/snowstorm/ecl/ReferencedConceptsLookupService.java:45-64 | at most 1000 results; each is visible, passes the refset restriction, and is a stored lookup (stripped of its member list when those are not wanted) |
| Retriever.RetrieveCompleteWithinPage | src/main/java/org/snomed/snowstorm/ecl/ReferencedConceptsLookupService.java:60-63 | while the matches fit in one page, every visible lookup that passes the refset restriction is returned |
| Retriever.RetrieveTruncatesToOnePage | src/main/java/org/snomed/snowstorm/ecl/ReferencedConceptsLookupService.java:60 | with more than 1000 matches, exactly 1000 come back: position by position the first 1000 matches in hit order, each without its member list when those are not wanted; every later match is dropped |
| Retriever.MatchesUniqueIds | src/main/java/org/snomed/snowstorm/ecl/ReferencedConceptsLookupService.java:61 | when the stored lookups have distinct ids, so do the hits |
| Retriever.RetrieveUniqueIds | src/main/java/org/snomed/snowstorm/ecl/ReferencedConceptsLookupService.java:45-64 | when the stored lookups have distinct ids, no lookup comes back twice |
| Retriever.RetrieveNullRefsetsAsEmpty | src/main/java/org/snomed/snowstorm/ecl/ReferencedConceptsLookupService.java:47 | null refset ids and an empty collection give the same result |
| Retriever.RetrieveWithoutConceptIdsKeepsTheRest | src/main/java/org/snomed/snowstorm/ecl/ReferencedConceptsLookupService.java:55-58 | without member lists, the same lookups come back in the same order with the same id, refset id, type and total, and no member list |

## Left out

- `deleteAll` and `saveAll` (lines 107-113) delegate to a Spring Data repository whose behaviour is not part of this model.
- Constructor wiring by Spring (lines 24-32) is left out; the search engine and store are parameters.
- The lookup index name comes from the search client (`getIndexCoordinatesFor`). It is the parameter `index` of `Compose`.
- Wrapping the filter into a `NativeQuery` and taking it back out (line 104) returns the same filter, so it is not modelled.
- The search engine is abstract. Hit order is the order of the store sequence. Scoring, sharding, consistency and transport errors are not modelled.
- The branch criteria's internals belong to an external versioning library. They are an opaque predicate over document ids.
- The domain class `ReferencedConceptsLookup` is not part of this model. The field names `refsetId` and `conceptIds` are assumed; the proofs use only that they differ. The Java `null` type is the `Unset` variant.
- Null arguments are ruled out by the Dafny types, so their exceptions are not modelled. These are a null `lookups` collection (which throws at line 71), null branch criteria (lines 48 and 51), and a null `fieldName` or a null id on a positive-total lookup (which the terms-lookup builders at lines 74-83 refuse).
- The store of lookups is a sequence. Unique ids are a precondition of `RetrieveUniqueIds` (the engine keys documents by id), not a constraint on the type.
- Concurrency between retrieval and re-indexing is external and not modelled.
- A group left out of the bool and an empty group are the same value here: both match alike, so omission is stated as "the group is empty".
