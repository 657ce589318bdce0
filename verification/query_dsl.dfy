/**
 * The part of the search engine's query language that the lookup service
 * builds, with its matching semantics. The engine itself is external; this
 * module states what a query means so that the filters built elsewhere can
 * be judged by what they match, not only by their shape.
 */
module QueryDsl {

  /** A document as the engine sees it: its identity and its multi-valued integer fields. */
  datatype Doc = Doc(id: string, fields: map<string, seq<int>>)

  /** Every stored document, by index name and then by document id. */
  type Store = map<string, map<string, Doc>>

  /**
   * What a query is matched against besides the document: the store that
   * terms lookups read from, and the branch-visibility predicate (which
   * document ids are live on the branch the criteria were made for).
   */
  datatype Env = Env(store: Store, visible: string -> bool)

  /**
   * A query tree. `Bool` has the engine's three clause groups; `Terms` lists
   * the accepted values inline; `TermsLookup` names a document and a field
   * path whose values are accepted, resolved by the engine; `BranchCriteria`
   * stands for the versioning library's branch filter.
   */
  datatype Query =
    | Bool(must: seq<Query>, should: seq<Query>, mustNot: seq<Query>)
    | Terms(field: string, values: seq<int>)
    | TermsLookup(field: string, index: string, docId: string, path: string)
    | BranchCriteria

  /** The values of a field; an absent field has none. */
  function FieldValues(d: Doc, field: string): seq<int>
  {
    if field in d.fields then d.fields[field] else []
  }

  /** The values a terms lookup reads: none when the document is missing. */
  function Resolve(store: Store, index: string, docId: string, path: string): seq<int>
  {
    if index in store && docId in store[index] then FieldValues(store[index][docId], path) else []
  }

  predicate Overlaps(a: seq<int>, b: seq<int>)
  {
    exists x :: x in a && x in b
  }

  /**
   * Whether `d` matches `q`. A bool query needs every `must` clause and no
   * `mustNot` clause; when it has no `must` clause and some `should` clause,
   * at least one `should` clause must match. A bool with no clauses at all
   * matches every document.
   */
  predicate Eval(q: Query, d: Doc, env: Env)
    decreases q
  {
    match q
    case Bool(must, should, mustNot) =>
      (forall i | 0 <= i < |must| :: Eval(must[i], d, env))
      && (must != [] || should == [] || exists i | 0 <= i < |should| :: Eval(should[i], d, env))
      && (forall i | 0 <= i < |mustNot| :: !Eval(mustNot[i], d, env))
    case Terms(field, values) => Overlaps(FieldValues(d, field), values)
    case TermsLookup(field, index, docId, path) =>
      Overlaps(FieldValues(d, field), Resolve(env.store, index, docId, path))
    case BranchCriteria => env.visible(d.id)
  }
}
