/** The filter engine: predicates that decide whether a symbol leaf shows up in
    an encoder's output (`NodeEncoder.Filter` and its subclasses). */
module Filters {
  import opened Nodes

  datatype Filter =
    | Always
      /** The compiled full-match pattern, as a predicate on whole names. */
    | NameFilter(fullMatch: string -> bool)
    | LeafFilter
    | LeafBiggerFilter(minSize: int)
    | LeafSmallerFilter(maxSize: int)
  {
    /** `Filter.__call__(n)` of each filter class. */
    predicate Accepts(n: Node) {
      match this
      case Always => true
      case NameFilter(fullMatch) => fullMatch(n.name)
      case LeafFilter => !n.Container?
      case LeafBiggerFilter(t) => !n.Container? && n.Size() > t
      case LeafSmallerFilter(t) => !n.Container? && n.Size() < t
    }

    /** The filters built on `LeafFilter`. */
    predicate IsLeafFilter() {
      LeafFilter? || LeafBiggerFilter? || LeafSmallerFilter?
    }
  }

  /** `apply_filters`: the conjunction of every configured filter. */
  function ApplyFilters(filters: seq<Filter>, n: Node): (r: bool)
    ensures r <==> forall i :: 0 <= i < |filters| ==> filters[i].Accepts(n)
  {
    if filters == [] then true
    else filters[0].Accepts(n) && ApplyFilters(filters[1..], n)
  }

  /** The leaf filters turn away every container. */
  lemma LeafFiltersRejectContainers(f: Filter, n: Node)
    requires f.IsLeafFilter() && n.Container?
    ensures !f.Accepts(n)
  {
  }

  /** The size filters are strict: a leaf whose size equals the threshold passes
      neither, and every other leaf passes exactly one of them. */
  lemma ThresholdIsStrict(t: int, n: Node)
    requires n.Leaf?
    ensures n.Size() == t <==> !LeafBiggerFilter(t).Accepts(n) && !LeafSmallerFilter(t).Accepts(n)
    ensures n.Size() != t ==> LeafBiggerFilter(t).Accepts(n) != LeafSmallerFilter(t).Accepts(n)
  {
  }

  /** Configuring more filters can only narrow what is accepted: the filter list
      `fs + gs` accepts exactly what both `fs` and `gs` accept. */
  lemma {:induction false} ApplyFiltersAppend(fs: seq<Filter>, gs: seq<Filter>, n: Node)
    ensures ApplyFilters(fs + gs, n) == (ApplyFilters(fs, n) && ApplyFilters(gs, n))
  {
    var all := fs + gs;
    assert forall i :: 0 <= i < |fs| ==> all[i] == fs[i];
    assert forall i :: 0 <= i < |gs| ==> all[|fs| + i] == gs[i];
  }

  /** An empty filter list accepts every node. */
  lemma NoFiltersAcceptAll(n: Node)
    ensures ApplyFilters([], n)
  {
  }
}
