/**
 * The referenced-concepts lookup document: a persisted, branch-scoped set of
 * concept ids (the members of a refset, say) that queries refer to by
 * document id instead of listing the ids inline.
 */
module Lookups {
  import opened Wrappers
  import opened QueryDsl

  /** The polarity of a lookup; `Unset` stands for a document whose type is null. */
  datatype LookupType = Include | Exclude | Unset

  /**
   * A lookup document. `conceptIds` is `None` when the member list was left
   * out of a search response; `total` is stored beside it and is always there.
   */
  datatype Lookup = Lookup(
    id: string,
    refsetId: int,
    lookupType: LookupType,
    conceptIds: Option<seq<int>>,
    total: int)

  /** Name of the refset-id field of a lookup document. */
  const RefsetIdField: string := "refsetId"

  /** Name of the concept-ids field: the path terms lookups read, and the field a source filter drops. */
  const ConceptIdsField: string := "conceptIds"

  /** The stored form of a lookup, as queries see it. */
  function AsDoc(l: Lookup): Doc
  {
    Doc(l.id,
        if l.conceptIds.Some?
        then map[RefsetIdField := [l.refsetId], ConceptIdsField := l.conceptIds.value]
        else map[RefsetIdField := [l.refsetId]])
  }

  /** The lookup as a response without its member list carries it. */
  function WithoutConceptIds(l: Lookup): Lookup
  {
    l.(conceptIds := None)
  }
}
