/** Bottom-up size aggregation: `ContainerNode.compute_sizes` and
    `ContainerNode.add_sub_node`. */
module Aggregation {
  import opened Nodes

  /** What `compute_sizes` leaves behind: every container's totals rebuilt from
      its (recomputed) children, whatever totals it held before. */
  function Recomputed(n: Node): (r: Node)
    decreases n
  {
    match n
    case Leaf(_, _, _, _, _) => n
    case Container(name, kind, _, _, _, ns) =>
      var rs := seq(|ns|, i requires 0 <= i < |ns| => Recomputed(ns[i]));
      var t := SumOf(rs);
      Container(name, kind, t.program, t.roData, t.data, rs)
  }

  /** The aggregation invariant: each container's three fields are the sums of its
      direct children's fields, recursively down to the leaves. */
  predicate Aggregated(n: Node) {
    match n
    case Leaf(_, _, _, _, _) => true
    case Container(_, _, _, _, _, ns) =>
      n.Totals() == SumOf(ns) && forall i :: 0 <= i < |ns| ==> Aggregated(ns[i])
  }

  /** Two trees that differ at most in the totals their containers hold. */
  predicate SameShape(a: Node, b: Node) {
    match a
    case Leaf(_, _, _, _, _) => a == b
    case Container(name, kind, _, _, _, ns) =>
      b.Container? && b.name == name && b.containerKind == kind && |b.nodes| == |ns| &&
      forall i :: 0 <= i < |ns| ==> SameShape(ns[i], b.nodes[i])
  }

  lemma {:induction false} RecomputedIsAggregated(n: Node)
    ensures Aggregated(Recomputed(n))
    ensures SameShape(n, Recomputed(n))
    decreases n
  {
    if n.Container? {
      forall i | 0 <= i < |n.nodes|
        ensures Aggregated(Recomputed(n).nodes[i]) && SameShape(n.nodes[i], Recomputed(n).nodes[i])
      {
        RecomputedIsAggregated(n.nodes[i]);
      }
    }
  }

  /** On an aggregated tree the recomputation changes nothing. */
  lemma {:induction false} RecomputedFixesAggregated(n: Node)
    requires Aggregated(n)
    ensures Recomputed(n) == n
    decreases n
  {
    if n.Container? {
      var rs := Recomputed(n).nodes;
      forall i | 0 <= i < |n.nodes| ensures rs[i] == n.nodes[i] {
        RecomputedFixesAggregated(n.nodes[i]);
      }
      assert rs == n.nodes;
    }
  }

  /** Running `compute_sizes` twice gives what running it once gives. */
  lemma RecomputedIdempotent(n: Node)
    ensures Recomputed(Recomputed(n)) == Recomputed(n)
  {
    RecomputedIsAggregated(n);
    RecomputedFixesAggregated(Recomputed(n));
  }

  /** Prior totals are discarded: trees that differ only in their containers'
      totals recompute to the same tree. */
  lemma {:induction false} RecomputedIgnoresTotals(a: Node, b: Node)
    requires SameShape(a, b)
    ensures Recomputed(a) == Recomputed(b)
    decreases a
  {
    if a.Container? {
      var ra, rb := Recomputed(a).nodes, Recomputed(b).nodes;
      forall i | 0 <= i < |a.nodes| ensures ra[i] == rb[i] {
        RecomputedIgnoresTotals(a.nodes[i], b.nodes[i]);
      }
      assert ra == rb;
    }
  }

  /** After aggregation a node's totals are the sums over all the symbol leaves it
      contains transitively; in particular its `size` is their total size. */
  lemma {:induction false} RecomputedTotalsAreLeafSums(n: Node)
    ensures Recomputed(n).Totals() == SumOf(Leaves(n))
    ensures Recomputed(n).Size() == SumOf(Leaves(n)).Total()
    decreases n, 1
  {
    match n
    case Leaf(_, _, _, _, _) =>
      assert [n][..0] == [];
    case Container(_, _, _, _, _, ns) =>
      var rs := Recomputed(n).nodes;
      RecomputedAllSum(ns, rs);
  }

  lemma {:induction false} RecomputedAllSum(ns: seq<Node>, rs: seq<Node>)
    requires |rs| == |ns| && forall i :: 0 <= i < |ns| ==> rs[i] == Recomputed(ns[i])
    ensures SumOf(rs) == SumOf(LeavesAll(ns))
    decreases ns, 0
  {
    if ns != [] {
      var k := |ns| - 1;
      RecomputedAllSum(ns[..k], rs[..k]);
      RecomputedTotalsAreLeafSums(ns[k]);
      SumOfAppend(LeavesAll(ns[..k]), Leaves(ns[k]));
    }
  }

  lemma {:induction false} RecomputedWellFormed(n: Node)
    requires WellFormed(n)
    ensures WellFormed(Recomputed(n))
    ensures Recomputed(n).name == n.name
    decreases n
  {
    if n.Container? {
      var rs := Recomputed(n).nodes;
      forall i | 0 <= i < |rs| ensures WellFormed(rs[i]) && rs[i].name == n.nodes[i].name {
        RecomputedWellFormed(n.nodes[i]);
      }
    }
  }

  /** `compute_sizes` on one container: reset the totals, recompute every child
      container first, then add each child's three fields. */
  method ComputeSizesOf(n: Node) returns (r: Node)
    requires n.Container?
    ensures r == Recomputed(n)
    decreases n
  {
    var programSize: nat, roDataSize: nat, dataSize: nat := 0, 0, 0;
    var done: seq<Node> := [];
    var i := 0;
    while i < |n.nodes|
      invariant 0 <= i <= |n.nodes|
      invariant |done| == i && forall j :: 0 <= j < i ==> done[j] == Recomputed(n.nodes[j])
      invariant Sizes(programSize, roDataSize, dataSize) == SumOf(done)
    {
      var sub := n.nodes[i];
      if sub.Container? {
        sub := ComputeSizesOf(sub);
      }
      programSize := programSize + sub.programSize;
      roDataSize := roDataSize + sub.roDataSize;
      dataSize := dataSize + sub.dataSize;
      assert (done + [sub])[..i] == done;
      done := done + [sub];
      i := i + 1;
    }
    assert done == Recomputed(n).nodes;
    r := Container(n.name, n.containerKind, programSize, roDataSize, dataSize, done);
  }

  /** What `add_sub_node` does to a container: its totals grow by the child's three
      fields and the child joins the name-keyed set of children. */
  function AddedTo(c: Node, node: Node): (r: Node)
    requires c.Container?
  {
    Container(c.name, c.containerKind,
              c.programSize + node.programSize, c.roDataSize + node.roDataSize,
              c.dataSize + node.dataSize, Inserted(c.nodes, node))
  }

  /** Incremental aggregation is exact while names stay fresh: adding an aggregated
      child whose name is new to an aggregated container keeps it aggregated. */
  lemma AddFreshKeepsAggregated(c: Node, node: Node)
    requires c.Container? && Aggregated(c) && Aggregated(node)
    requires !HasName(c.nodes, node.name)
    ensures Aggregated(AddedTo(c, node))
  {
    var ns := c.nodes + [node];
    assert Inserted(c.nodes, node) == ns;
    assert SumOf(ns) == SumOf(c.nodes).Plus(node.Totals()) by {
      assert ns[..|c.nodes|] == c.nodes;
    }
    assert forall i :: 0 <= i < |ns| ==> Aggregated(ns[i]) by {
      forall i | 0 <= i < |ns| ensures Aggregated(ns[i]) {
        if i < |c.nodes| { assert ns[i] == c.nodes[i]; }
      }
    }
  }

  /** A second child with a name already present leaves the children as they were
      but still inflates the totals, so the container is no longer aggregated. */
  lemma AddDuplicateInflates(c: Node, node: Node)
    requires c.Container? && Aggregated(c)
    requires HasName(c.nodes, node.name) && node.Size() > 0
    ensures AddedTo(c, node).nodes == c.nodes
    ensures AddedTo(c, node).Size() == c.Size() + node.Size()
    ensures !Aggregated(AddedTo(c, node))
  {
    InsertedSum(c.nodes, node);
  }

  /** `compute_sizes` after an `add_sub_node` call depends only on the children
      collected, not on the running totals (inflated or not); for any number of
      calls, see `RecomputedIgnoresTotals`. */
  lemma RecomputeAfterAdd(c: Node, node: Node)
    requires c.Container?
    ensures Recomputed(AddedTo(c, node)) ==
            Recomputed(Container(c.name, c.containerKind, 0, 0, 0, Inserted(c.nodes, node)))
  {
    var a := AddedTo(c, node);
    var z := Container(c.name, c.containerKind, 0, 0, 0, Inserted(c.nodes, node));
    forall i | 0 <= i < |a.nodes| ensures SameShape(a.nodes[i], z.nodes[i]) {
      SameShapeReflexive(a.nodes[i]);
    }
    RecomputedIgnoresTotals(a, z);
  }

  lemma {:induction false} SameShapeReflexive(n: Node)
    ensures SameShape(n, n)
    decreases n
  {
    if n.Container? {
      forall i | 0 <= i < |n.nodes| ensures SameShape(n.nodes[i], n.nodes[i]) {
        SameShapeReflexive(n.nodes[i]);
      }
    }
  }

  /** One function of 100 bytes and one constant of 50 bytes in object `a.o`:
      after aggregation the object reports 100 program bytes, 50 read-only bytes,
      no data and a size of 150, whatever totals it held before. */
  lemma ObjectFileScenario(stale: Sizes)
    ensures var o := Recomputed(Container("a.o", Object, stale.program, stale.roData, stale.data,
                                          [FunctionNode("foo", 100), ConstantNode("bar", 50)]));
            o.Totals() == Sizes(100, 50, 0) && o.Size() == 150
  {
    var foo, bar := FunctionNode("foo", 100), ConstantNode("bar", 50);
    RecomputedTwoLeaves(Container("a.o", Object, stale.program, stale.roData, stale.data, [foo, bar]));
  }

  /** A container of two leaves aggregates to the sum of their fields. */
  lemma RecomputedTwoLeaves(c: Node)
    requires c.Container? && |c.nodes| == 2 && c.nodes[0].Leaf? && c.nodes[1].Leaf?
    ensures Recomputed(c).Totals() == c.nodes[0].Totals().Plus(c.nodes[1].Totals())
  {
    var r := Recomputed(c);
    assert r.nodes == c.nodes by {
      assert |r.nodes| == 2 && r.nodes[0] == Recomputed(c.nodes[0]) && r.nodes[1] == Recomputed(c.nodes[1]);
    }
    assert c.nodes == [c.nodes[0], c.nodes[1]];
    SumOfPair(c.nodes[0], c.nodes[1]);
  }

  lemma SumOfPair(a: Node, b: Node)
    ensures SumOf([a, b]) == a.Totals().Plus(b.Totals())
  {
    assert [a, b][..1] == [a];
    assert [a][..0] == [];
    assert SumOf([a]) == Zero.Plus(a.Totals());
  }
}
