/** The structured encoder, `JsonNodeEncoder.default`: a node becomes a record,
    a container's record gets its children's records under `sub_nodes` while the
    encoder's one shared `recursion_level` counter is positive. */
module JsonEncoding {
  import opened Wrappers
  import opened Nodes
  import opened Filters
  import opened Encoding

  /** The serialisable structure: the `to_fmt_dict` fields and, for an expanded
      container, the list stored under `sub_nodes`. */
  datatype Record = Record(fields: FmtRecord, subNodes: SubNodes)

  /** The `sub_nodes` entry: absent, or the list of the children's records. */
  datatype SubNodes = NoSubNodes | SubNodes(records: seq<Record>)

  /** `default(n)` started with the counter at `level`: the encoding (`None` for a
      leaf the filters reject) and the counter afterwards. */
  function Encode(cfg: Config, n: Node, level: int): (Option<Record>, int)
    decreases n, 1
  {
    match n
    case Leaf(_, _, _, _, _) =>
      (if ApplyFilters(cfg.filters, n) then Some(Record(ToFmtDict(cfg, n), NoSubNodes)) else None, level)
    case Container(_, _, _, _, _, ns) =>
      if Expands(cfg, level) then
        var subs := EncodeAll(cfg, ns, level - 1);
        (Some(Record(ToFmtDict(cfg, n), SubNodes(subs.0))), subs.1)
      else
        (Some(Record(ToFmtDict(cfg, n), NoSubNodes)), level)
  }

  /** The children loop of `default`: encode each node in turn with the shared
      counter, keeping the encodings that are not `None`. */
  function EncodeAll(cfg: Config, ns: seq<Node>, level: int): (seq<Record>, int)
    decreases ns, 0
  {
    if ns == [] then ([], level)
    else
      var k := |ns| - 1;
      var prev := EncodeAll(cfg, ns[..k], level);
      var last := Encode(cfg, ns[k], prev.1);
      (prev.0 + (if last.0.Some? then [last.0.value] else []), last.1)
  }

  /** A record followed by the records under its `sub_nodes`, in pre-order. */
  function FlattenRecord(r: Record): seq<FmtRecord>
    decreases r, 1
  {
    [r.fields] +
    match r.subNodes
    case NoSubNodes => []
    case SubNodes(sub) => Flatten(sub)
  }

  /** Every record of a list of records and of their `sub_nodes`, in pre-order. */
  function Flatten(rs: seq<Record>): seq<FmtRecord>
    decreases rs, 0
  {
    if rs == [] then [] else Flatten(rs[..|rs| - 1]) + FlattenRecord(rs[|rs| - 1])
  }

  /** The JSON branch of the driver: each top-level file is serialised by its own
      `json.dumps` call, which builds a fresh encoder, so every file starts from
      the configured counter. */
  function JsonReport(cfg: Config, files: seq<Node>, level: int): (rs: seq<Option<Record>>)
    ensures |rs| == |files|
  {
    seq(|files|, i requires 0 <= i < |files| => Encode(cfg, files[i], level).0)
  }

  class JsonNodeEncoder {
    const config: Config
    var recursionLevel: int

    constructor (config: Config, recursionLevel: int)
      ensures this.config == config && this.recursionLevel == recursionLevel
    {
      this.config, this.recursionLevel := config, recursionLevel;
    }

    /** `default(n)`. */
    method Default(n: Node) returns (r: Option<Record>)
      modifies this
      ensures (r, recursionLevel) == Encode(config, n, old(recursionLevel))
      decreases n
    {
      if n.Container? {
        var d := ToFmtDict(config, n);
        if config.isRecursive && recursionLevel > 0 {
          recursionLevel := recursionLevel - 1;
          ghost var start := recursionLevel;
          var subNodes: seq<Record> := [];
          var i := 0;
          while i < |n.nodes|
            invariant 0 <= i <= |n.nodes|
            invariant (subNodes, recursionLevel) == EncodeAll(config, n.nodes[..i], start)
          {
            assert n.nodes[..i + 1][..i] == n.nodes[..i];
            ghost var before := recursionLevel;
            var subEncoded := Default(n.nodes[i]);
            assert (subEncoded, recursionLevel) == Encode(config, n.nodes[..i + 1][i], before);
            ghost var prev := subNodes;
            if subEncoded.Some? {
              subNodes := subNodes + [subEncoded.value];
            }
            assert (prev, before) == EncodeAll(config, n.nodes[..i + 1][..i], start);
            assert subNodes == prev + (if subEncoded.Some? then [subEncoded.value] else []);
            i := i + 1;
          }
          assert n.nodes[..i] == n.nodes;
          r := Some(Record(d, SubNodes(subNodes)));
        } else {
          r := Some(Record(d, NoSubNodes));
        }
      } else if ApplyFilters(config.filters, n) {
        r := Some(Record(ToFmtDict(config, n), NoSubNodes));
      } else {
        r := None;
      }
    }
  }

  /** The shared counter never increases, never drops below zero when it starts
      there, is untouched when nothing may expand, and drops by at most the
      number of containers in the tree (each expansion costs exactly one). */
  lemma {:induction false} EncodeCounter(cfg: Config, n: Node, level: int)
    ensures var after := Encode(cfg, n, level).1;
            after <= level && (level >= 0 ==> after >= 0) &&
            (!Expands(cfg, level) ==> after == level) &&
            level - after <= ContainerCount([n])
    decreases n, 1
  {
    assert [n][..0] == [];
    if n.Container? && Expands(cfg, level) {
      EncodeAllCounter(cfg, n.nodes, level - 1);
    }
  }

  lemma {:induction false} EncodeAllCounter(cfg: Config, ns: seq<Node>, level: int)
    ensures var after := EncodeAll(cfg, ns, level).1;
            after <= level && (level >= 0 ==> after >= 0) &&
            (!cfg.isRecursive || level <= 0 ==> after == level) &&
            level - after <= ContainerCount(ns)
    decreases ns, 0
  {
    if ns != [] {
      var k := |ns| - 1;
      EncodeAllCounter(cfg, ns[..k], level);
      var mid := EncodeAll(cfg, ns[..k], level).1;
      EncodeCounter(cfg, ns[k], mid);
      assert [ns[k]][..0] == [];
    }
  }

  /** The children loop of `default` over a single node is that node's encoding. */
  lemma EncodeOne(cfg: Config, n: Node, level: int)
    ensures var r := Encode(cfg, n, level);
            EncodeAll(cfg, [n], level) == (if r.0.Some? then [r.0.value] else [], r.1)
  {
    assert [n][..0] == [];
    assert [n][0] == n;
    assert EncodeAll(cfg, [n][..0], level) == ([], level);
    var r := Encode(cfg, n, level);
    var tail: seq<Record> := if r.0.Some? then [r.0.value] else [];
    assert [] + tail == tail;
  }

  /** The number of records, at any depth, that carry `sub_nodes`. */
  function ExpandedCount(r: Record): nat
    decreases r, 1
  {
    match r.subNodes
    case NoSubNodes => 0
    case SubNodes(sub) => 1 + ExpandedCountAll(sub)
  }

  function ExpandedCountAll(rs: seq<Record>): nat
    decreases rs, 0
  {
    if rs == [] then 0 else ExpandedCountAll(rs[..|rs| - 1]) + ExpandedCount(rs[|rs| - 1])
  }

  /** Every unit the walk takes off the counter buys exactly one expanded
      container: the counter drops by the number of records with `sub_nodes`. */
  lemma {:induction false} EncodeSpendsPerExpansion(cfg: Config, n: Node, level: int)
    ensures var r := Encode(cfg, n, level);
            level - r.1 == (if r.0.Some? then ExpandedCount(r.0.value) else 0)
    decreases n, 1
  {
    if n.Container? && Expands(cfg, level) {
      EncodeAllSpendsPerExpansion(cfg, n.nodes, level - 1);
    }
  }

  lemma {:induction false} EncodeAllSpendsPerExpansion(cfg: Config, ns: seq<Node>, level: int)
    ensures var r := EncodeAll(cfg, ns, level);
            level - r.1 == ExpandedCountAll(r.0)
    decreases ns, 0
  {
    if ns != [] {
      var k := |ns| - 1;
      var prev := EncodeAll(cfg, ns[..k], level);
      EncodeAllSpendsPerExpansion(cfg, ns[..k], level);
      EncodeSpendsPerExpansion(cfg, ns[k], prev.1);
      var last := Encode(cfg, ns[k], prev.1);
      var rs := prev.0 + (if last.0.Some? then [last.0.value] else []);
      if last.0.Some? {
        assert rs[..|rs| - 1] == prev.0;
      } else {
        assert rs == prev.0;
      }
    }
  }

  /** Starting from a non-negative `recursion_level`, at most that many
      containers are expanded in one walk. */
  lemma ExpansionsBounded(cfg: Config, ns: seq<Node>, level: int)
    requires level >= 0
    ensures ExpandedCountAll(EncodeAll(cfg, ns, level).0) <= level
  {
    EncodeAllSpendsPerExpansion(cfg, ns, level);
    EncodeAllCounter(cfg, ns, level);
  }

  /** The reference encoding without a counter: every container expanded,
      every rejected leaf left out. */
  function FullEncode(cfg: Config, n: Node): Option<Record>
    decreases n, 1
  {
    match n
    case Leaf(_, _, _, _, _) =>
      if ApplyFilters(cfg.filters, n) then Some(Record(ToFmtDict(cfg, n), NoSubNodes)) else None
    case Container(_, _, _, _, _, ns) =>
      Some(Record(ToFmtDict(cfg, n), SubNodes(FullEncodeAll(cfg, ns))))
  }

  function FullEncodeAll(cfg: Config, ns: seq<Node>): seq<Record>
    decreases ns, 0
  {
    if ns == [] then []
    else
      var k := |ns| - 1;
      var r := FullEncode(cfg, ns[k]);
      FullEncodeAll(cfg, ns[..k]) + (if r.Some? then [r.value] else [])
  }

  /** With recursion on and a counter at least the number of containers, the shared
      counter never runs out: the walk yields the reference encoding and spends
      exactly one unit per container. */
  lemma {:induction false} AmpleBudgetEncodesAll(cfg: Config, ns: seq<Node>, level: int)
    requires cfg.isRecursive && level >= ContainerCount(ns)
    ensures EncodeAll(cfg, ns, level) == (FullEncodeAll(cfg, ns), level - ContainerCount(ns))
    decreases ns, 0
  {
    if ns != [] {
      var k := |ns| - 1;
      AmpleBudgetEncodesAll(cfg, ns[..k], level);
      var mid := level - ContainerCount(ns[..k]);
      if ns[k].Container? {
        AmpleBudgetEncodesAll(cfg, ns[k].nodes, mid - 1);
      }
    }
  }

  /** The nodes of a list that get a record of their own: every container, and
      the leaves every filter accepts, in the list's order (`EmittedNodesAppend`
      shows that the order is kept). */
  function EmittedNodes(cfg: Config, ns: seq<Node>): (r: seq<Node>)
    ensures |r| <= |ns|
    ensures forall x :: x in r ==> x in ns && Emitted(cfg, x)
    ensures forall i :: 0 <= i < |ns| && Emitted(cfg, ns[i]) ==> ns[i] in r
  {
    if ns == [] then []
    else
      var k := |ns| - 1;
      assert forall i :: 0 <= i < k ==> ns[i] == ns[..k][i];
      EmittedNodes(cfg, ns[..k]) + (if Emitted(cfg, ns[k]) then [ns[k]] else [])
  }

  /** Selecting the emitted nodes keeps their order: the selection from a
      concatenation is the concatenation of the selections, and a single node is
      kept exactly when it is emitted (`EmittedNodesSingle`). */
  lemma {:induction false} EmittedNodesAppend(cfg: Config, a: seq<Node>, b: seq<Node>)
    ensures EmittedNodes(cfg, a + b) == EmittedNodes(cfg, a) + EmittedNodes(cfg, b)
    decreases |b|
  {
    if b == [] {
      assert a + b == a;
    } else {
      var k := |b| - 1;
      var ab := a + b;
      var last := EmittedNodes(cfg, [b[k]]);
      calc {
        EmittedNodes(cfg, ab);
        { EmittedNodesLast(cfg, ab);
          assert ab[..|ab| - 1] == a + b[..k] && ab[|ab| - 1] == b[k]; }
        EmittedNodes(cfg, a + b[..k]) + last;
        { EmittedNodesAppend(cfg, a, b[..k]); }
        EmittedNodes(cfg, a) + EmittedNodes(cfg, b[..k]) + last;
        { EmittedNodesLast(cfg, b); }
        EmittedNodes(cfg, a) + EmittedNodes(cfg, b);
      }
    }
  }

  /** One unfolding of `EmittedNodes`, with the last node's share written as the
      selection from the singleton list. */
  lemma EmittedNodesLast(cfg: Config, ns: seq<Node>)
    requires ns != []
    ensures EmittedNodes(cfg, ns) ==
            EmittedNodes(cfg, ns[..|ns| - 1]) + EmittedNodes(cfg, [ns[|ns| - 1]])
  {
    EmittedNodesSingle(cfg, ns[|ns| - 1]);
  }

  lemma EmittedNodesSingle(cfg: Config, x: Node)
    ensures EmittedNodes(cfg, [x]) == if Emitted(cfg, x) then [x] else []
  {
    assert [x][..0] == [];
  }

  /** The records produced for a list are exactly the `to_fmt_dict` of its emitted
      nodes, in order: a container is never dropped, a rejected leaf always is. */
  lemma {:induction false} TopLevelRecords(cfg: Config, ns: seq<Node>, level: int)
    ensures var rs := EncodeAll(cfg, ns, level).0;
            var es := EmittedNodes(cfg, ns);
            |rs| == |es| && forall i :: 0 <= i < |rs| ==> rs[i].fields == ToFmtDict(cfg, es[i])
    decreases ns
  {
    if ns != [] {
      TopLevelRecords(cfg, ns[..|ns| - 1], level);
    }
  }

  lemma {:induction false} FlattenAppend(a: seq<Record>, b: seq<Record>)
    ensures Flatten(a + b) == Flatten(a) + Flatten(b)
    decreases |b|
  {
    if b == [] {
      assert a + b == a;
    } else {
      var k := |b| - 1;
      assert (a + b)[..|a + b| - 1] == a + b[..k];
      FlattenAppend(a, b[..k]);
    }
  }

  /** Soundness of the walk: every record it produces, at any depth, is the
      `to_fmt_dict` of some node of the tree that is a container or a leaf every
      filter accepts. */
  lemma {:induction false} EncodedRecordsAreEmitted(cfg: Config, ns: seq<Node>, level: int)
    ensures forall f :: f in Flatten(EncodeAll(cfg, ns, level).0) ==>
              exists d :: d in Descendants(ns) && Emitted(cfg, d) && f == ToFmtDict(cfg, d)
    decreases ns, 0
  {
    if ns != [] {
      var k := |ns| - 1;
      var (rs, mid) := EncodeAll(cfg, ns[..k], level);
      var (r, after) := Encode(cfg, ns[k], mid);
      EncodedRecordsAreEmitted(cfg, ns[..k], level);
      EncodedRecordIsEmitted(cfg, ns[k], mid);
      var tail := if r.Some? then [r.value] else [];
      FlattenAppend(rs, tail);
      if r.Some? {
        assert [r.value][..0] == [];
        assert Flatten(tail) == FlattenRecord(r.value);
      }
      forall f | f in Flatten(EncodeAll(cfg, ns, level).0)
        ensures exists d :: d in Descendants(ns) && Emitted(cfg, d) && f == ToFmtDict(cfg, d)
      {
        if f in Flatten(rs) {
          var d :| d in Descendants(ns[..k]) && Emitted(cfg, d) && f == ToFmtDict(cfg, d);
          assert d in Descendants(ns);
        } else {
          var d :| d in [ns[k]] + (if ns[k].Container? then Descendants(ns[k].nodes) else []) &&
                   Emitted(cfg, d) && f == ToFmtDict(cfg, d);
          assert d in Descendants(ns);
        }
      }
    }
  }

  lemma {:induction false} EncodedRecordIsEmitted(cfg: Config, n: Node, level: int)
    ensures var r := Encode(cfg, n, level).0;
            r.Some? ==> forall f :: f in FlattenRecord(r.value) ==>
              exists d :: d in [n] + (if n.Container? then Descendants(n.nodes) else []) &&
                          Emitted(cfg, d) && f == ToFmtDict(cfg, d)
    decreases n, 1
  {
    var r := Encode(cfg, n, level).0;
    if n.Container? && Expands(cfg, level) {
      EncodedRecordsAreEmitted(cfg, n.nodes, level - 1);
      forall f | f in FlattenRecord(r.value)
        ensures exists d :: d in [n] + Descendants(n.nodes) && Emitted(cfg, d) && f == ToFmtDict(cfg, d)
      {
        if f == r.value.fields {
          assert n in [n] + Descendants(n.nodes);
        } else {
          var d :| d in Descendants(n.nodes) && Emitted(cfg, d) && f == ToFmtDict(cfg, d);
          assert d in [n] + Descendants(n.nodes);
        }
      }
    }
  }
}
