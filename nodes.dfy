/** The node hierarchy of the size report: symbol leaves (functions, constants,
    variables) inside container files (objects, archives, executables).

    Python keeps a container's children in a `set` whose equality and hash use
    only the node name.  Here the children are a sequence whose names are kept
    pairwise distinct (`WellFormed`); its order stands for the set's unspecified
    iteration order, and nothing proved about the encoders depends on it. */
module Nodes {

  /** The `type` tag of a node that has no children. */
  datatype LeafKind = AnyLeaf | Function | Constant | Variable

  /** The `type` tag of a node that owns children. */
  datatype ContainerKind = AnyContainer | Object | Archive | Executable

  /** Three byte counts: program (code), read-only data and data. */
  datatype Sizes = Sizes(program: nat, roData: nat, data: nat) {
    function Plus(other: Sizes): Sizes {
      Sizes(program + other.program, roData + other.roData, data + other.data)
    }

    function Total(): nat {
      program + roData + data
    }
  }

  const Zero: Sizes := Sizes(0, 0, 0)

  datatype Node =
    | Leaf(name: string, leafKind: LeafKind, programSize: nat, roDataSize: nat, dataSize: nat)
    | Container(name: string, containerKind: ContainerKind,
                programSize: nat, roDataSize: nat, dataSize: nat, nodes: seq<Node>)
  {
    /** The derived `size` property: never stored, always the sum of the three fields. */
    function Size(): nat {
      programSize + roDataSize + dataSize
    }

    function Totals(): Sizes {
      Sizes(programSize, roDataSize, dataSize)
    }
  }

  /** The `type` string a node reports. */
  function TypeName(n: Node): string {
    match n
    case Leaf(_, k, _, _, _) =>
      (match k
       case AnyLeaf => "any"
       case Function => "function"
       case Constant => "constant"
       case Variable => "variable")
    case Container(_, k, _, _, _, _) =>
      (match k
       case AnyContainer => "any"
       case Object => "object"
       case Archive => "archive"
       case Executable => "executable")
  }

  /** `FunctionNode(name, program_size)`. */
  function FunctionNode(name: string, size: nat): (n: Node)
    ensures n.Leaf? && n.name == name && TypeName(n) == "function"
    ensures n.Totals() == Sizes(size, 0, 0) && n.Size() == size
  {
    Leaf(name, Function, size, 0, 0)
  }

  /** `ConstantNode(name, ro_data_size)`. */
  function ConstantNode(name: string, size: nat): (n: Node)
    ensures n.Leaf? && n.name == name && TypeName(n) == "constant"
    ensures n.Totals() == Sizes(0, size, 0) && n.Size() == size
  {
    Leaf(name, Constant, 0, size, 0)
  }

  /** `VariableNode(name, data_size)`. */
  function VariableNode(name: string, size: nat): (n: Node)
    ensures n.Leaf? && n.name == name && TypeName(n) == "variable"
    ensures n.Totals() == Sizes(0, 0, size) && n.Size() == size
  {
    Leaf(name, Variable, 0, 0, size)
  }

  /** An empty container, as the `ObjectNode`/`ArchiveNode`/`ExecutableNode`
      constructors make it. */
  function EmptyContainer(name: string, kind: ContainerKind): (n: Node)
    ensures n.Container? && n.name == name && n.containerKind == kind
    ensures n.nodes == [] && n.Totals() == Zero && n.Size() == 0
  {
    Container(name, kind, 0, 0, 0, [])
  }

  /** Sum of the three fields over a sequence of nodes. */
  function SumOf(ns: seq<Node>): Sizes {
    if ns == [] then Zero else SumOf(ns[..|ns| - 1]).Plus(ns[|ns| - 1].Totals())
  }

  lemma {:induction false} SumOfAppend(a: seq<Node>, b: seq<Node>)
    ensures SumOf(a + b) == SumOf(a).Plus(SumOf(b))
    decreases |b|
  {
    if b == [] {
      assert a + b == a;
    } else {
      var b', last := b[..|b| - 1], b[|b| - 1];
      assert a + b == (a + b') + [last];
      calc {
        SumOf(a + b);
        SumOf((a + b') + [last]);
        { assert ((a + b') + [last])[..|a + b'|] == a + b'; }
        SumOf(a + b').Plus(last.Totals());
        { SumOfAppend(a, b'); }
        SumOf(a).Plus(SumOf(b')).Plus(last.Totals());
        SumOf(a).Plus(SumOf(b));
      }
    }
  }

  predicate HasName(ns: seq<Node>, name: string) {
    exists i :: 0 <= i < |ns| && ns[i].name == name
  }

  predicate DistinctNames(ns: seq<Node>) {
    forall i, j :: 0 <= i < j < |ns| ==> ns[i].name != ns[j].name
  }

  /** Every container in the tree holds children with pairwise distinct names,
      as a name-keyed set does. */
  predicate WellFormed(n: Node) {
    match n
    case Leaf(_, _, _, _, _) => true
    case Container(_, _, _, _, _, ns) =>
      DistinctNames(ns) && forall i :: 0 <= i < |ns| ==> WellFormed(ns[i])
  }

  /** `set.add(node)`: a node whose name is already present leaves the set as it
      was (the element already there is kept); otherwise the node joins it. */
  function Inserted(ns: seq<Node>, node: Node): (r: seq<Node>)
    ensures HasName(r, node.name)
    ensures DistinctNames(ns) ==> DistinctNames(r)
    ensures HasName(ns, node.name) ==> r == ns
    ensures !HasName(ns, node.name) ==> |r| == |ns| + 1 && r[|ns|] == node
    ensures |r| >= |ns| && forall i :: 0 <= i < |ns| ==> r[i] == ns[i]
  {
    if HasName(ns, node.name) then ns
    else
      assert (ns + [node])[|ns|] == node;
      ns + [node]
  }

  lemma InsertedSum(ns: seq<Node>, node: Node)
    ensures SumOf(Inserted(ns, node)) ==
            if HasName(ns, node.name) then SumOf(ns) else SumOf(ns).Plus(node.Totals())
  {
    if !HasName(ns, node.name) {
      assert (ns + [node])[..|ns|] == ns;
    }
  }

  /** Every symbol leaf under a node, in walk order (a leaf is its own only leaf). */
  function Leaves(n: Node): (r: seq<Node>)
    ensures forall x :: x in r ==> x.Leaf?
    decreases n, 1
  {
    match n
    case Leaf(_, _, _, _, _) => [n]
    case Container(_, _, _, _, _, ns) => LeavesAll(ns)
  }

  function LeavesAll(ns: seq<Node>): (r: seq<Node>)
    ensures forall x :: x in r ==> x.Leaf?
    decreases ns, 0
  {
    if ns == [] then [] else LeavesAll(ns[..|ns| - 1]) + Leaves(ns[|ns| - 1])
  }
}
