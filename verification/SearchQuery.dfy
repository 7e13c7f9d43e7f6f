/** The search query: filter tree and sorters (src/search/filter/query.rs, src/search/sort/query.rs). */
module SearchQuery {
  import opened Wrappers
  import opened Flags

  /** Dates are day numbers; text patterns are kept as parsed. */
  datatype Filter =
    | And(left: Filter, right: Filter)
    | Or(left: Filter, right: Filter)
    | Not(inner: Filter)
    | Date(day: int)
    | AfterDate(day: int)
    | From(pattern: string)
    | To(pattern: string)
    | Subject(pattern: string)
    | Body(pattern: string)
    | HasFlag(flag: Flag)

  datatype SorterKind = ByDate | ByFrom | ByTo | BySubject

  datatype SorterOrder = Ascending | Descending

  datatype Sorter = Sorter(kind: SorterKind, order: SorterOrder)

  datatype Query = Query(filter: Option<Filter>, sort: Option<seq<Sorter>>)

  predicate IsLeaf(q: Filter) {
    !q.And? && !q.Or? && !q.Not?
  }

  /** The leaves, left to right. */
  function Leaves(q: Filter): seq<Filter> {
    match q
    case And(l, r) => Leaves(l) + Leaves(r)
    case Or(l, r) => Leaves(l) + Leaves(r)
    case Not(x) => Leaves(x)
    case _ => [q]
  }

  predicate IsText(leaf: Filter) {
    leaf.From? || leaf.To? || leaf.Subject? || leaf.Body?
  }
}
