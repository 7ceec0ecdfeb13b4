/** The container that the source populates in place: `ContainerNode` and its
    `ObjectNode`, `ArchiveNode` and `ExecutableNode` specialisations. */
module Containers {
  import opened Nodes
  import opened Aggregation

  class ContainerNode {
    const name: string
    const kind: ContainerKind
    var programSize: nat
    var roDataSize: nat
    var dataSize: nat
    var nodes: seq<Node>

    /** The container as a tree value. */
    function AsNode(): (n: Node)
      reads this
      ensures n.Container? && n.name == name && n.nodes == nodes
    {
      Container(name, kind, programSize, roDataSize, dataSize, nodes)
    }

    /** The children are distinct by name, all the way down. */
    ghost predicate Valid()
      reads this
    {
      WellFormed(AsNode())
    }

    /** The derived `size` property. */
    function Size(): nat
      reads this
    {
      programSize + roDataSize + dataSize
    }

    constructor (name: string, kind: ContainerKind)
      ensures Valid()
      ensures this.name == name && this.kind == kind
      ensures programSize == 0 && roDataSize == 0 && dataSize == 0 && nodes == []
      ensures AsNode() == EmptyContainer(name, kind)
    {
      this.name, this.kind := name, kind;
      programSize, roDataSize, dataSize := 0, 0, 0;
      nodes := [];
    }

    /** `add_sub_node`: accumulate the child's sizes, then add it to the set. */
    method AddSubNode(node: Node)
      requires Valid() && WellFormed(node)
      modifies this
      ensures Valid()
      ensures programSize == old(programSize) + node.programSize
      ensures roDataSize == old(roDataSize) + node.roDataSize
      ensures dataSize == old(dataSize) + node.dataSize
      ensures nodes == Inserted(old(nodes), node)
      ensures AsNode() == AddedTo(old(AsNode()), node)
    {
      programSize := programSize + node.programSize;
      roDataSize := roDataSize + node.roDataSize;
      dataSize := dataSize + node.dataSize;
      nodes := Inserted(nodes, node);
      assert DistinctNames(nodes);
    }

    /** `compute_sizes`: discard the totals and rebuild them, recursively, from
        the children. */
    method ComputeSizes()
      requires Valid()
      modifies this
      ensures Valid()
      ensures AsNode() == Recomputed(old(AsNode()))
      ensures Aggregated(AsNode())
    {
      var n := AsNode();
      var r := ComputeSizesOf(n);
      RecomputedWellFormed(n);
      RecomputedIsAggregated(n);
      programSize, roDataSize, dataSize, nodes := r.programSize, r.roDataSize, r.dataSize, r.nodes;
    }
  }
}
