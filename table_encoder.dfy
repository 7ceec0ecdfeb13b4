/** The tabular encoder, `WikiTableNodeEncoder.dumps`: a fixed header, then one
    `|name|program|data|ro_data|` line per emitted node, depth first, under the
    same shared `recursion_level` counter as the structured encoder. */
module TableEncoding {
  import opened Wrappers
  import opened Nodes
  import opened Filters
  import opened Encoding
  import opened JsonEncoding

  const Header: string := "||Name||Program size||Data size||Read-only data size||\n"

  function DigitChar(d: nat): char
    requires d < 10
  {
    "0123456789"[d]
  }

  /** `str(n)` of a non-negative integer. */
  function DecimalString(n: nat): string {
    if n < 10 then [DigitChar(n)] else DecimalString(n / 10) + [DigitChar(n % 10)]
  }

  /** The value of a string of decimal digits. */
  function DecimalValue(s: string): int {
    if s == [] then 0 else 10 * DecimalValue(s[..|s| - 1]) + (s[|s| - 1] as int - '0' as int)
  }

  /** `str(n)` is a non-empty string of decimal digits, without a leading zero
      unless it is "0". */
  lemma {:induction false} DecimalStringDigits(n: nat)
    ensures var s := DecimalString(n);
            |s| >= 1 && (forall i :: 0 <= i < |s| ==> '0' <= s[i] <= '9') && (|s| > 1 ==> s[0] != '0')
  {
    if n >= 10 {
      var q := n / 10;
      DecimalStringDigits(q);
      var p := DecimalString(q);
      assert DecimalString(n) == p + [DigitChar(n % 10)];
      assert |p| == 1 ==> p == [DigitChar(q)] && q != 0;
    }
  }

  /** `str(n)` reads back as `n`. */
  lemma {:induction false} DecimalStringValue(n: nat)
    ensures DecimalValue(DecimalString(n)) == n
  {
    if n >= 10 {
      var q, d := n / 10, n % 10;
      assert n == 10 * q + d;
      DecimalStringValue(q);
      var s := DecimalString(q) + [DigitChar(d)];
      assert DecimalString(n) == s;
      assert s[..|s| - 1] == DecimalString(q);
      assert DigitChar(d) as int - '0' as int == d;
    } else {
      assert DigitChar(n) as int - '0' as int == n;
    }
  }

  /** How `str.format` renders a size: an integer in decimal, a string as it is. */
  function FieldText(f: SizeField): string {
    match f
    case Raw(bytes) => DecimalString(bytes)
    case Human(text) => text
  }

  /** `table_line(n.name, d["program_size"], d["data_size"], d["ro_data_size"])`:
      note that data comes before read-only data. */
  function TableLine(d: FmtRecord): string {
    "|" + d.name + "|" + FieldText(d.programSize) + "|" + FieldText(d.dataSize) +
    "|" + FieldText(d.roDataSize) + "|\n"
  }

  /** The concatenation of a list of lines. */
  function Concat(lines: seq<string>): string {
    if lines == [] then "" else Concat(lines[..|lines| - 1]) + lines[|lines| - 1]
  }

  lemma {:induction false} ConcatAppend(a: seq<string>, b: seq<string>)
    ensures Concat(a + b) == Concat(a) + Concat(b)
    decreases |b|
  {
    if b == [] {
      assert a + b == a;
    } else {
      var b', last := b[..|b| - 1], b[|b| - 1];
      calc {
        Concat(a + b);
        { assert (a + b)[..|a + b| - 1] == a + b'; }
        Concat(a + b') + last;
        { ConcatAppend(a, b'); }
        (Concat(a) + Concat(b')) + last;
        Concat(a) + (Concat(b') + last);
        Concat(a) + Concat(b);
      }
    }
  }

  /** The line of each record. */
  function Lines(ds: seq<FmtRecord>): (ls: seq<string>)
    ensures |ls| == |ds| && forall i :: 0 <= i < |ds| ==> ls[i] == TableLine(ds[i])
  {
    seq(|ds|, i requires 0 <= i < |ds| => TableLine(ds[i]))
  }

  /** The text of a list of records: their lines one after another. */
  function TableText(ds: seq<FmtRecord>): string {
    Concat(Lines(ds))
  }

  lemma TableTextAppend(a: seq<FmtRecord>, b: seq<FmtRecord>)
    ensures TableText(a + b) == TableText(a) + TableText(b)
  {
    assert Lines(a + b) == Lines(a) + Lines(b);
    ConcatAppend(Lines(a), Lines(b));
  }

  /** One pass of the loop in `rec`, for node `n` with the counter at `level`:
      the records whose lines it writes and the counter afterwards. */
  function NodeRows(cfg: Config, n: Node, level: int): (seq<FmtRecord>, int)
    decreases n, 1
  {
    match n
    case Leaf(_, _, _, _, _) =>
      (if ApplyFilters(cfg.filters, n) then [ToFmtDict(cfg, n)] else [], level)
    case Container(_, _, _, _, _, ns) =>
      if Expands(cfg, level) then
        var sub := Rows(cfg, ns, level - 1);
        ([ToFmtDict(cfg, n)] + sub.0, sub.1)
      else
        ([ToFmtDict(cfg, n)], level)
  }

  /** A record's line followed by the text of the records under it. */
  lemma LinesText(d: FmtRecord, sub: seq<FmtRecord>, text: string)
    requires text == TableText(sub)
    ensures TableLine(d) + text == TableText([d] + sub)
  {
    var one := Lines([d]);
    assert one == [TableLine(d)] && one[..0] == [];
    assert Concat(one) == Concat([]) + TableLine(d);
    TableTextAppend([d], sub);
  }

  /** `rec(node_list)` started with the counter at `level`: the records whose
      lines it writes, in order, and the counter afterwards. */
  function Rows(cfg: Config, ns: seq<Node>, level: int): (seq<FmtRecord>, int)
    decreases ns, 0
  {
    if ns == [] then ([], level)
    else
      var k := |ns| - 1;
      var prev := Rows(cfg, ns[..k], level);
      var last := NodeRows(cfg, ns[k], prev.1);
      (prev.0 + last.0, last.1)
  }

  /** The table writes, in order, exactly the records of the structured encoding
      flattened depth first, and leaves the counter where that encoding leaves
      it: the two encoders walk the tree the same way. */
  lemma {:induction false} RowsMatchEncodeAll(cfg: Config, ns: seq<Node>, level: int)
    ensures Rows(cfg, ns, level) == (Flatten(EncodeAll(cfg, ns, level).0), EncodeAll(cfg, ns, level).1)
    decreases ns, 0
  {
    if ns != [] {
      var k := |ns| - 1;
      RowsMatchEncodeAll(cfg, ns[..k], level);
      var (rs, mid) := EncodeAll(cfg, ns[..k], level);
      NodeRowsMatchEncode(cfg, ns[k], mid);
      var (r, after) := Encode(cfg, ns[k], mid);
      var tail := if r.Some? then [r.value] else [];
      FlattenAppend(rs, tail);
      if r.Some? {
        assert [r.value][..0] == [];
      }
    }
  }

  lemma {:induction false} NodeRowsMatchEncode(cfg: Config, n: Node, level: int)
    ensures var (r, after) := Encode(cfg, n, level);
            NodeRows(cfg, n, level) == (if r.Some? then FlattenRecord(r.value) else [], after)
    decreases n, 1
  {
    var d := ToFmtDict(cfg, n);
    if n.Container? && Expands(cfg, level) {
      RowsMatchEncodeAll(cfg, n.nodes, level - 1);
      var subs := EncodeAll(cfg, n.nodes, level - 1).0;
      assert FlattenRecord(Record(d, SubNodes(subs))) == [d] + Flatten(subs);
    } else {
      assert FlattenRecord(Record(d, NoSubNodes)) == [d];
    }
  }

  /** Soundness of the table: every line it writes is the line of a node of the
      tree that is a container or a leaf every filter accepts. */
  lemma RowsAreEmitted(cfg: Config, ns: seq<Node>, level: int)
    ensures forall f :: f in Rows(cfg, ns, level).0 ==>
              exists d :: d in Descendants(ns) && Emitted(cfg, d) && f == ToFmtDict(cfg, d)
  {
    RowsMatchEncodeAll(cfg, ns, level);
    EncodedRecordsAreEmitted(cfg, ns, level);
  }

  /** The table's counter obeys the same laws as the structured encoder's. */
  lemma RowsCounter(cfg: Config, ns: seq<Node>, level: int)
    ensures var after := Rows(cfg, ns, level).1;
            after <= level && (level >= 0 ==> after >= 0) &&
            (!cfg.isRecursive || level <= 0 ==> after == level) &&
            level - after <= ContainerCount(ns)
  {
    RowsMatchEncodeAll(cfg, ns, level);
    EncodeAllCounter(cfg, ns, level);
  }

  /** With recursion off, the table lists just the top-level containers and the
      accepted top-level leaves, one line each, in order. */
  lemma {:induction false} FlatTable(cfg: Config, ns: seq<Node>, level: int)
    requires !cfg.isRecursive
    ensures Rows(cfg, ns, level) == (MapFmt(cfg, EmittedNodes(cfg, ns)), level)
    decreases ns
  {
    if ns != [] {
      var k := |ns| - 1;
      FlatTable(cfg, ns[..k], level);
      var es := EmittedNodes(cfg, ns[..k]);
      if Emitted(cfg, ns[k]) {
        MapFmtAppend(cfg, es, [ns[k]]);
        assert MapFmt(cfg, [ns[k]]) == [ToFmtDict(cfg, ns[k])];
      } else {
        assert EmittedNodes(cfg, ns) == es;
        assert NodeRows(cfg, ns[k], level) == ([], level);
        assert Rows(cfg, ns, level).0 == Rows(cfg, ns[..k], level).0 + [];
        assert Rows(cfg, ns, level).0 == MapFmt(cfg, EmittedNodes(cfg, ns));
        assert Rows(cfg, ns, level).1 == level;
      }
    }
  }

  /** The `to_fmt_dict` of each node of a list. */
  function MapFmt(cfg: Config, ns: seq<Node>): (ds: seq<FmtRecord>)
    ensures |ds| == |ns| && forall i :: 0 <= i < |ns| ==> ds[i] == ToFmtDict(cfg, ns[i])
  {
    seq(|ns|, i requires 0 <= i < |ns| => ToFmtDict(cfg, ns[i]))
  }

  lemma MapFmtAppend(cfg: Config, a: seq<Node>, b: seq<Node>)
    ensures MapFmt(cfg, a + b) == MapFmt(cfg, a) + MapFmt(cfg, b)
  {
  }

  /** `rec` of a one-node list is one pass of its loop. */
  lemma RowsOfOne(cfg: Config, n: Node, level: int)
    ensures Rows(cfg, [n], level) == NodeRows(cfg, n, level)
  {
    assert [n][..0] == [];
    assert [n][0] == n;
    assert Rows(cfg, [n][..0], level) == ([], level);
    var (more, after) := NodeRows(cfg, n, level);
    assert [] + more == more;
    assert Rows(cfg, [n], level) == ([] + more, after);
  }

  /** `rec` of a two-node list: the passes of its loop, one after the other. */
  lemma RowsOfTwo(cfg: Config, m: Node, n: Node, level: int)
    ensures var first := NodeRows(cfg, m, level);
            var second := NodeRows(cfg, n, first.1);
            Rows(cfg, [m, n], level) == (first.0 + second.0, second.1)
  {
    assert [m, n][..1] == [m];
    RowsOfOne(cfg, m, level);
  }

  /** The shared counter at work: in an archive holding two objects, each with one
      function, a budget of two is spent on the archive and the first object, so the
      first object's function is listed but the second object's is not. */
  lemma SharedCounterScenario(cfg: Config)
    requires cfg.isRecursive && cfg.filters == []
    ensures var f1 := Leaf("f1", Function, 10, 0, 0);
            var f2 := Leaf("f2", Function, 20, 0, 0);
            var o1 := Container("o1.o", Object, 10, 0, 0, [f1]);
            var o2 := Container("o2.o", Object, 20, 0, 0, [f2]);
            var a := Container("lib.a", Archive, 30, 0, 0, [o1, o2]);
            Rows(cfg, [a], 2) ==
              ([ToFmtDict(cfg, a), ToFmtDict(cfg, o1), ToFmtDict(cfg, f1), ToFmtDict(cfg, o2)], 0)
  {
    var f1 := Leaf("f1", Function, 10, 0, 0);
    var f2 := Leaf("f2", Function, 20, 0, 0);
    var o1 := Container("o1.o", Object, 10, 0, 0, [f1]);
    var o2 := Container("o2.o", Object, 20, 0, 0, [f2]);
    var a := Container("lib.a", Archive, 30, 0, 0, [o1, o2]);
    var (df1, do1, do2) := (ToFmtDict(cfg, f1), ToFmtDict(cfg, o1), ToFmtDict(cfg, o2));
    RowsOfOne(cfg, f1, 0);
    assert NodeRows(cfg, f1, 0) == ([df1], 0);
    assert NodeRows(cfg, o1, 1) == ([do1] + [df1], 0);
    assert NodeRows(cfg, o2, 0) == ([do2], 0);
    RowsOfTwo(cfg, o1, o2, 1);
    assert NodeRows(cfg, o1, 1).1 == 0;
    assert NodeRows(cfg, o2, NodeRows(cfg, o1, 1).1) == ([do2], 0);
    assert Rows(cfg, [o1, o2], 1).0 == NodeRows(cfg, o1, 1).0 + [do2];
    assert Rows(cfg, [o1, o2], 1).1 == 0;
    assert [do1] + [df1] + [do2] == [do1, df1, do2];
    assert Rows(cfg, [o1, o2], 1).0 == [do1, df1, do2];
    assert NodeRows(cfg, a, 2) == ([ToFmtDict(cfg, a)] + [do1, df1, do2], 0);
    RowsOfOne(cfg, a, 2);
    assert [ToFmtDict(cfg, a)] + [do1, df1, do2] == [ToFmtDict(cfg, a), do1, df1, do2];
  }

  /** A size filter at work: under `LeafBiggerFilter(10)` an object holding
      functions of 5 and 20 bytes lists itself and the 20-byte function only. */
  lemma FilterScenario(cfg: Config)
    requires cfg.isRecursive && cfg.filters == [LeafBiggerFilter(10)]
    ensures var small := Leaf("small", Function, 5, 0, 0);
            var big := Leaf("big", Function, 20, 0, 0);
            var o := Container("x.o", Object, 25, 0, 0, [small, big]);
            Rows(cfg, [o], 1) == ([ToFmtDict(cfg, o), ToFmtDict(cfg, big)], 0)
  {
    var small := Leaf("small", Function, 5, 0, 0);
    var big := Leaf("big", Function, 20, 0, 0);
    var o := Container("x.o", Object, 25, 0, 0, [small, big]);
    assert !ApplyFilters(cfg.filters, small) && ApplyFilters(cfg.filters, big);
    assert NodeRows(cfg, small, 0) == ([], 0);
    assert NodeRows(cfg, big, 0) == ([ToFmtDict(cfg, big)], 0);
    RowsOfTwo(cfg, small, big, 0);
    assert Rows(cfg, [small, big], 0).1 == 0;
    assert Rows(cfg, [small, big], 0).0 == [ToFmtDict(cfg, big)];
    assert NodeRows(cfg, o, 1).0 == [ToFmtDict(cfg, o)] + [ToFmtDict(cfg, big)];
    assert NodeRows(cfg, o, 1).1 == 0;
    RowsOfOne(cfg, o, 1);
    assert [ToFmtDict(cfg, o)] + [ToFmtDict(cfg, big)] == [ToFmtDict(cfg, o), ToFmtDict(cfg, big)];
  }

  /** Summarised output (`recursion_level` 1) of two object files with one
      function each: the JSON report expands both files, because each has its own
      encoder, while the single table encoder spends its one unit on the first
      file and lists the second without its function. */
  lemma SummaryScenario(cfg: Config)
    requires cfg.isRecursive && cfg.filters == []
    ensures var f1 := Leaf("f1", Function, 10, 0, 0);
            var f2 := Leaf("f2", Function, 20, 0, 0);
            var o1 := Container("o1.o", Object, 10, 0, 0, [f1]);
            var o2 := Container("o2.o", Object, 20, 0, 0, [f2]);
            JsonReport(cfg, [o1, o2], 1) ==
              [Some(Record(ToFmtDict(cfg, o1), SubNodes([Record(ToFmtDict(cfg, f1), NoSubNodes)]))),
               Some(Record(ToFmtDict(cfg, o2), SubNodes([Record(ToFmtDict(cfg, f2), NoSubNodes)])))] &&
            Rows(cfg, [o1, o2], 1) == ([ToFmtDict(cfg, o1), ToFmtDict(cfg, f1), ToFmtDict(cfg, o2)], 0)
  {
    var f1 := Leaf("f1", Function, 10, 0, 0);
    var f2 := Leaf("f2", Function, 20, 0, 0);
    var o1 := Container("o1.o", Object, 10, 0, 0, [f1]);
    var o2 := Container("o2.o", Object, 20, 0, 0, [f2]);
    var (df1, df2, do1, do2) := (ToFmtDict(cfg, f1), ToFmtDict(cfg, f2), ToFmtDict(cfg, o1), ToFmtDict(cfg, o2));
    EncodeOne(cfg, f1, 0);
    EncodeOne(cfg, f2, 0);
    assert Encode(cfg, f1, 0) == (Some(Record(df1, NoSubNodes)), 0);
    assert Encode(cfg, f2, 0) == (Some(Record(df2, NoSubNodes)), 0);
    assert Encode(cfg, o1, 1).0 == Some(Record(do1, SubNodes([Record(df1, NoSubNodes)])));
    assert Encode(cfg, o2, 1).0 == Some(Record(do2, SubNodes([Record(df2, NoSubNodes)])));
    RowsOfOne(cfg, f1, 0);
    assert NodeRows(cfg, o1, 1) == ([do1] + [df1], 0);
    assert NodeRows(cfg, o2, 0) == ([do2], 0);
    RowsOfTwo(cfg, o1, o2, 1);
    assert [do1] + [df1] + [do2] == [do1, df1, do2];
  }

  /** An entry of the list handed to `dumps`: a node, or any other value. */
  datatype Value = NodeValue(node: Node) | OtherValue

  /** The index of the first entry that is not a node (the length if there is none). */
  function FirstNonNode(items: seq<Value>): (k: nat)
    ensures k <= |items|
    ensures forall i :: 0 <= i < k ==> items[i].NodeValue?
    ensures k < |items| ==> items[k].OtherValue?
  {
    if items == [] || items[0].OtherValue? then 0 else 1 + FirstNonNode(items[1..])
  }

  function NodesOf(items: seq<Value>): (ns: seq<Node>)
    requires forall i :: 0 <= i < |items| ==> items[i].NodeValue?
    ensures |ns| == |items| && forall i :: 0 <= i < |items| ==> ns[i] == items[i].node
  {
    if items == [] then [] else [items[0].node] + NodesOf(items[1..])
  }

  class WikiTableNodeEncoder {
    const config: Config
    var recursionLevel: int

    constructor (config: Config, recursionLevel: int)
      ensures this.config == config && this.recursionLevel == recursionLevel
    {
      this.config, this.recursionLevel := config, recursionLevel;
    }

    /** The nested `rec`: writes the line of every node of `ns` it emits. */
    method Rec(ns: seq<Node>) returns (s: string)
      modifies this
      ensures s == TableText(Rows(config, ns, old(recursionLevel)).0)
      ensures recursionLevel == Rows(config, ns, old(recursionLevel)).1
      decreases ns, 0
    {
      s := "";
      ghost var rows: seq<FmtRecord> := [];
      var i := 0;
      while i < |ns|
        invariant 0 <= i <= |ns|
        invariant (rows, recursionLevel) == Rows(config, ns[..i], old(recursionLevel))
        invariant s == TableText(rows)
      {
        assert ns[..i + 1][..i] == ns[..i];
        ghost var start := recursionLevel;
        var line := WriteNode(ns[i]);
        ghost var more := NodeRows(config, ns[i], start).0;
        TableTextAppend(rows, more);
        s := s + line;
        rows := rows + more;
        i := i + 1;
      }
      assert ns[..i] == ns;
    }

    /** One pass of the loop in `rec`: the line of `n` (if it is emitted) and,
        for a container the counter lets through, the lines beneath it. */
    method WriteNode(n: Node) returns (line: string)
      modifies this
      ensures line == TableText(NodeRows(config, n, old(recursionLevel)).0)
      ensures recursionLevel == NodeRows(config, n, old(recursionLevel)).1
      decreases n, 1
    {
      line := "";
      if n.Container? {
        var d := ToFmtDict(config, n);
        if config.isRecursive && recursionLevel > 0 {
          recursionLevel := recursionLevel - 1;
          var sub := Rec(n.nodes);
          LinesText(d, Rows(config, n.nodes, old(recursionLevel) - 1).0, sub);
          line := TableLine(d) + sub;
        } else {
          LinesText(d, [], "");
          line := TableLine(d);
        }
      } else if ApplyFilters(config.filters, n) {
        var d := ToFmtDict(config, n);
        LinesText(d, [], "");
        line := TableLine(d);
      }
    }

    /** `dumps(node_list)`: the header and the lines of `rec`.  `rec` raises on the
        first entry that is not a node, after writing (and spending counter on)
        the entries before it; the text built so far is then lost. */
    method Dumps(nodeList: seq<Value>) returns (r: Result<string>)
      modifies this
      ensures var k := FirstNonNode(nodeList);
              var (rows, after) := Rows(config, NodesOf(nodeList[..k]), old(recursionLevel));
              recursionLevel == after &&
              r == if k == |nodeList| then Success(Header + TableText(rows))
                   else Failure("Unknown type to encode")
    {
      var k := FirstNonNode(nodeList);
      var s := Rec(NodesOf(nodeList[..k]));
      if k == |nodeList| {
        r := Success(Header + s);
      } else {
        r := Failure("Unknown type to encode");
      }
    }
  }
}
