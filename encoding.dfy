/** What both encoders share (`NodeEncoder`): configuration and `to_fmt_dict`. */
module Encoding {
  import opened Nodes
  import opened Filters

  /** The encoder configuration other than the recursion counter: whether to
      descend at all, whether sizes are rendered for humans (and by which
      formatter, `sizeof_fmt`), and the filters leaves must pass. */
  datatype Config = Config(
    isRecursive: bool,
    isHumanReadable: bool,
    sizeofFmt: nat -> string,
    filters: seq<Filter>)

  /** A size as it appears in a record: the raw byte count, or its human-readable
      rendering. */
  datatype SizeField = Raw(bytes: nat) | Human(text: string)

  /** The dictionary built by `to_fmt_dict`. */
  datatype FmtRecord = FmtRecord(
    name: string,
    typeName: string,
    programSize: SizeField,
    roDataSize: SizeField,
    dataSize: SizeField)

  function FormatSize(cfg: Config, bytes: nat): (f: SizeField)
    ensures !cfg.isHumanReadable ==> f == Raw(bytes)
    ensures cfg.isHumanReadable ==> f == Human(cfg.sizeofFmt(bytes))
  {
    if cfg.isHumanReadable then Human(cfg.sizeofFmt(bytes)) else Raw(bytes)
  }

  /** `to_fmt_dict`: name, type and the three sizes, each raw or formatted. */
  function ToFmtDict(cfg: Config, n: Node): (d: FmtRecord)
    ensures d.name == n.name && d.typeName == TypeName(n)
    ensures d.programSize == FormatSize(cfg, n.programSize)
    ensures d.roDataSize == FormatSize(cfg, n.roDataSize)
    ensures d.dataSize == FormatSize(cfg, n.dataSize)
  {
    FmtRecord(n.name, TypeName(n), FormatSize(cfg, n.programSize),
              FormatSize(cfg, n.roDataSize), FormatSize(cfg, n.dataSize))
  }

  /** The test both encoders make before descending into a container's children. */
  predicate Expands(cfg: Config, recursionLevel: int) {
    cfg.isRecursive && recursionLevel > 0
  }

  /** A leaf is emitted only if every filter accepts it; a container always is. */
  predicate Emitted(cfg: Config, n: Node) {
    n.Container? || ApplyFilters(cfg.filters, n)
  }

  /** Every node of a forest, in pre-order. */
  function Descendants(ns: seq<Node>): (r: seq<Node>)
    ensures forall i :: 0 <= i < |ns| ==> ns[i] in r
    decreases ns
  {
    if ns == [] then []
    else
      var k := |ns| - 1;
      var rest := Descendants(ns[..k]);
      assert forall i :: 0 <= i < k ==> ns[i] == ns[..k][i];
      rest + [ns[k]] + (if ns[k].Container? then Descendants(ns[k].nodes) else [])
  }

  /** The number of containers in a forest. */
  function ContainerCount(ns: seq<Node>): nat
    decreases ns
  {
    if ns == [] then 0
    else
      var k := |ns| - 1;
      ContainerCount(ns[..k]) + (if ns[k].Container? then 1 + ContainerCount(ns[k].nodes) else 0)
  }
}
