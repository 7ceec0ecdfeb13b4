# Linker report — a verified model

`linker_report.py` reports how much program code, read-only data and data the
symbols of object files, archives and executables occupy. It reads symbol
tables (`nm -S`, `readelf --syms`), builds a tree of nodes, adds the sizes up
bottom-up, and writes the tree either as JSON or as a wiki table. Both writers
can hide leaves with filters. A single `recursion_level` counter limits how
deep they descend.

This project models the core of that program in Dafny:

- `nodes.dfy` (module `Nodes`): the node values. A leaf is a function,
  constant or variable symbol. A container is an object, archive or
  executable. Each node has three byte counts, and its `size` is their sum.
  Python keeps a container's children in a `set` whose equality and hash use
  the name only. The model keeps them as a sequence with pairwise distinct
  names. The sequence order stands for the set's unspecified iteration order.
- `aggregation.dfy` (module `Aggregation`): `compute_sizes` as a specification
  function, `Recomputed`, and a recursive method with a loop that is proved
  equal to it. It also holds the effect of `add_sub_node` on a tree value.
- `containers.dfy` (module `Containers`): the `ContainerNode` class, whose
  fields `add_sub_node` and `compute_sizes` update in place.
- `filters.dfy` (module `Filters`): the filter classes and `apply_filters`.
- `encoding.dfy` (module `Encoding`): the encoder configuration and
  `to_fmt_dict`.
- `json_encoder.dfy` (module `JsonEncoding`): `JsonNodeEncoder.default`, as a
  class with a `recursionLevel` field, proved against the specification
  functions `Encode` and `EncodeAll`.
- `table_encoder.dfy` (module `TableEncoding`): `WikiTableNodeEncoder.dumps`,
  proved against the row function `Rows` and the text function `TableText`.
- `nm_parser.dfy` (module `NmParser`): `parse_sym_line`, including `strip`,
  `split(" ")` and `int(_, 16)`.

The `recursion_level` counter is kept as the code has it. It is one mutable
field per encoder instance, and each expanded container takes one unit from
it, wherever that container sits in the walk. The table writer is a single
instance, so the counter is shared across all the files it writes.

The JSON writer is different. The driver calls `json.dumps(c, cls=JsonNodeEncoder)`
once per file (`linker_report.py:335-336`), and every call builds a fresh
encoder starting from the class-level setting. So in JSON output the counter
is shared within one file but starts afresh for each file. One might expect
the counter to carry over from one file to the next in both outputs; in JSON
output it does not. `TableEncoding.SummaryScenario` proves the difference on a
two-file example.

## Model

| member | source | states |
|---|---|---|
| Nodes.FunctionNode | linker_report.py:33-36 | a `function` leaf with the given name whose size is all program size; read-only and data sizes are 0 and `size` equals the argument |
| Nodes.ConstantNode | linker_report.py:38-41 | a `constant` leaf whose size is all read-only data; program and data sizes are 0 and `size` equals the argument |
| Nodes.VariableNode | linker_report.py:43-46 | a `variable` leaf whose size is all data; program and read-only sizes are 0 and `size` equals the argument |
| Nodes.EmptyContainer | linker_report.py:74-87 | a new container has the given name, the kind (`type`) its subclass constructor sets, no children and all three totals 0 |
| Nodes.Inserted | linker_report.py:22-25 | `set.add` under name equality: afterwards the name is present; distinct names stay distinct; a name already present leaves the children unchanged; otherwise every old child is kept in its place and exactly one child, `node` itself, is added |
| Nodes.InsertedSum | linker_report.py:65-69 | the children's summed sizes grow by the new child's sizes, or stay the same when its name was already present |
| Aggregation.ComputeSizesOf | linker_report.py:54-63 | the loop of `compute_sizes` (reset, recompute child containers first, accumulate) yields exactly `Recomputed(n)` |
| Aggregation.RecomputedIsAggregated | linker_report.py:54-63 | after `compute_sizes` every container's three fields are the sums of its children's fields, recursively; names, kinds and children are unchanged |
| Aggregation.RecomputedFixesAggregated | linker_report.py:54-63 | on a tree that is already aggregated, `compute_sizes` changes nothing |
| Aggregation.RecomputedIdempotent | linker_report.py:54-63 | running `compute_sizes` twice gives the same tree as running it once |
| Aggregation.RecomputedIgnoresTotals | linker_report.py:55-57 | prior totals are discarded: trees differing only in their containers' totals recompute to the same tree |
| Aggregation.RecomputedTotalsAreLeafSums | linker_report.py:54-63 | after aggregation a node's totals are the sums over all the symbol leaves beneath it, and its `size` is their total |
| Aggregation.RecomputedWellFormed | linker_report.py:54-63 | `compute_sizes` keeps names, and keeps children distinct by name |
| Aggregation.AddFreshKeepsAggregated | linker_report.py:65-69 | adding an aggregated child with a new name to an aggregated container keeps it aggregated |
| Aggregation.AddDuplicateInflates | linker_report.py:65-69 | adding a non-empty child whose name is already present leaves the children as they were but grows the totals by its size, so the container is no longer aggregated |
| Aggregation.RecomputeAfterAdd | linker_report.py:54-69 | `compute_sizes` after `add_sub_node` depends only on the children collected, not on the (possibly inflated) running totals |
| Aggregation.RecomputedTwoLeaves | linker_report.py:58-63 | a container of two leaves aggregates to the sum of their three fields |
| Aggregation.ObjectFileScenario | linker_report.py:33-63 | an object with a 100-byte function and a 50-byte constant aggregates to (100, 50, 0) and size 150, whatever totals it held before |
| Containers.ContainerNode.constructor | linker_report.py:48-52 | a new container holds no children, all totals are 0, and the names-distinct invariant holds; as a value it is `EmptyContainer(name, kind)` |
| Containers.ContainerNode.AddSubNode | linker_report.py:65-69 | each field grows by the child's field; the children become `Inserted(old children, node)`; the invariant is kept |
| Containers.ContainerNode.ComputeSizes | linker_report.py:54-63 | the container becomes `Recomputed` of what it was, is aggregated, and keeps the invariant |
| Filters.ApplyFilters | linker_report.py:123-125 | accepts a node exactly when every configured filter accepts it |
| Filters.LeafFiltersRejectContainers | linker_report.py:102-116 | `LeafFilter`, `LeafBiggerFilter` and `LeafSmallerFilter` reject every container |
| Filters.ThresholdIsStrict | linker_report.py:106-116 | a leaf of size exactly `t` passes neither size filter; any other leaf passes exactly one of them |
| Filters.ApplyFiltersAppend | linker_report.py:123-125 | the filter list `fs + gs` accepts exactly what both `fs` and `gs` accept |
| Filters.NoFiltersAcceptAll | linker_report.py:123-125 | an empty filter list accepts every node |
| Encoding.FormatSize | linker_report.py:145-149 | a size is the raw byte count unless human-readable output is on; then it is the `sizeof_fmt` text |
| Encoding.ToFmtDict | linker_report.py:142-150 | the record holds the node's name, its type string and its three sizes, each formatted by `FormatSize` |
| JsonEncoding.JsonReport | linker_report.py:334-336 | one result per top-level file (each file is encoded from the configured counter; `TableEncoding.SummaryScenario` shows what that gives) |
| JsonEncoding.JsonNodeEncoder.constructor | linker_report.py:118-121 | a new encoder starts with the configured counter and configuration |
| JsonEncoding.JsonNodeEncoder.Default | linker_report.py:152-169 | `default(n)` returns `Encode(config, n, counter before)` and leaves the counter where `Encode` says |
| JsonEncoding.EncodeCounter | linker_report.py:157-158 | the counter never increases, stays non-negative from a non-negative start, is untouched when recursion is off or it is not positive, and drops by at most the number of containers |
| JsonEncoding.EncodeAllCounter | linker_report.py:157-163 | the same counter laws for the children loop |
| JsonEncoding.EncodeSpendsPerExpansion | linker_report.py:157-158 | the counter drops by exactly the number of records, at any depth, that carry `sub_nodes` |
| JsonEncoding.EncodeAllSpendsPerExpansion | linker_report.py:157-163 | the same for the children loop |
| JsonEncoding.ExpansionsBounded | linker_report.py:157-158 | from a non-negative `recursion_level`, at most that many containers get `sub_nodes` |
| JsonEncoding.AmpleBudgetEncodesAll | linker_report.py:153-169 | with recursion on and a counter of at least the number of containers, the walk gives the full encoding (every container expanded) and spends exactly one unit per container |
| JsonEncoding.EmittedNodes | linker_report.py:153-169 | the nodes that get records are exactly the containers and filter-accepted leaves of the list: each returned node is one of them, each of them is returned, and they keep the list's order |
| JsonEncoding.EmittedNodesAppend | linker_report.py:153-169 | the selection of emitted nodes keeps the list's order: selecting from `a + b` gives the selection from `a` followed by the selection from `b` |
| JsonEncoding.EmittedNodesSingle | linker_report.py:153-169 | a single node is selected exactly when it is a container or a leaf the filters accept |
| JsonEncoding.TopLevelRecords | linker_report.py:158-167 | the records of a list are, in order and one to one, the `to_fmt_dict` of its emitted nodes: a container is never dropped and a rejected leaf always is |
| JsonEncoding.EncodedRecordsAreEmitted | linker_report.py:153-169 | every record the walk produces, at any depth, is the `to_fmt_dict` of a container or an accepted leaf of the tree |
| JsonEncoding.EncodedRecordIsEmitted | linker_report.py:153-169 | the same for one node and the records beneath it |
| TableEncoding.DecimalStringDigits | linker_report.py:175-176 | `str` of a byte count is a non-empty string of decimal digits with no leading zero (except "0" itself) |
| TableEncoding.DecimalStringValue | linker_report.py:175-176 | `str` of a byte count reads back as that count |
| TableEncoding.TableTextAppend | linker_report.py:180-189 | the text of two runs of rows is the text of the first followed by the text of the second |
| TableEncoding.RowsMatchEncodeAll | linker_report.py:177-192 | the table writes exactly the JSON records flattened depth first, and leaves the counter where the JSON walk leaves it |
| TableEncoding.NodeRowsMatchEncode | linker_report.py:179-189 | the same for one pass of the loop |
| TableEncoding.RowsAreEmitted | linker_report.py:177-192 | every table line is the line of a container or an accepted leaf of the tree |
| TableEncoding.RowsCounter | linker_report.py:184-186 | the table's counter obeys the same laws as the JSON encoder's: it never increases, stays non-negative, and drops by at most the number of containers |
| TableEncoding.FlatTable | linker_report.py:177-192 | with recursion off, the table lists the top-level containers and accepted top-level leaves, one line each, in order, and the counter is untouched |
| TableEncoding.SharedCounterScenario | linker_report.py:184-186 | with a counter of 2, an archive of two one-function objects lists the archive, the first object, its function and the second object without its function |
| TableEncoding.FilterScenario | linker_report.py:187-189 | under `size>10`, an object with 5- and 20-byte functions lists the object and the 20-byte function only |
| TableEncoding.SummaryScenario | linker_report.py:325-336 | at `recursion_level` 1, JSON expands both of two one-function objects; the table expands only the first |
| TableEncoding.FirstNonNode | linker_report.py:178-191 | the position where the `isinstance` checks of `rec` raise: every entry before it is a node, and the entry there (if any) is not |
| TableEncoding.WikiTableNodeEncoder.constructor | linker_report.py:118-121 | a new encoder starts with the configured counter and configuration |
| TableEncoding.WikiTableNodeEncoder.Rec | linker_report.py:177-192 | `rec(ns)` returns `TableText` of `Rows(config, ns, counter before)` and leaves the counter where `Rows` says |
| TableEncoding.WikiTableNodeEncoder.WriteNode | linker_report.py:179-189 | one pass of the loop: the container's line followed by the lines beneath it while the counter allows, an accepted leaf's line, or nothing |
| TableEncoding.WikiTableNodeEncoder.Dumps | linker_report.py:173-195 | on a list of nodes, the fixed header followed by the rows' text; on a list with a non-node entry, the "Unknown type to encode" failure, with the counter spent on the entries before it |
| NmParser.Strip | linker_report.py:207 | `strip(" \t\n")`: a slice of the line with only spaces, tabs and newlines cut from either end, and none left at either end |
| NmParser.Split | linker_report.py:207 | `split(" ")`: at least one field, and no field contains a space |
| NmParser.JoinSplit | linker_report.py:207 | splitting loses nothing: joining the fields with spaces gives the line back |
| NmParser.SplitJoin | linker_report.py:207 | fields without spaces survive a join followed by a split |
| NmParser.HexDigitValue | linker_report.py:210 | a digit value in 0..15 exactly for `0-9`, `a-f` and `A-F` |
| NmParser.ParseHex | linker_report.py:210 | `int(s, 16)` succeeds exactly on a non-empty string of hexadecimal digits |
| NmParser.HexString | linker_report.py:210 | a non-empty hexadecimal rendering of `n` whose value is `n` |
| NmParser.LeadingZeros | linker_report.py:210 | leading zeros do not change the value of a hexadecimal string |
| NmParser.PaddedHexParses | linker_report.py:210 | a size padded with zeros, as `nm -S` prints it, parses back to the size |
| NmParser.ParseSymLine | linker_report.py:206-222 | no node unless the stripped line splits into exactly 4 fields; on 4 fields, a size error exactly when field 1 is not hexadecimal; a node is a leaf named by field 3 whose `size` is field 1's value |
| NmParser.ClassifiedByLetter | linker_report.py:213-222 | on a 4-field line with a hexadecimal size, a node exactly when field 2 is one of `T t D d B b R r`, of that letter's kind, with the size in that kind's field |
| NmParser.ParseNmLine | linker_report.py:206-222 | a well-formed `nm -S` line `address size letter name` reads back as the leaf of the letter's kind with that name and size, or as no node for an unknown letter |
| NmParser.NmLineFields | linker_report.py:207 | `strip` and `split` give back the four fields of a well-formed `nm` line |

## Left out

- Running `nm` and `readelf`, reading their output, and the grouping loop of `parse_nm`, which groups symbols into objects and yields them, are not modelled (`linker_report.py:224-243`). They are process I/O and generator plumbing.
- `parse_readelf` is not part of this model. It is an alternative adapter that relies on `expandtabs` and whitespace tokenising.
- `sizeof_fmt` is a parameter of the configuration, a function from byte counts to text. It is floating-point formatting.
- `NameFilter` holds its compiled pattern as a predicate on whole names. `re.fullmatch` is not modelled.
- The filter mini-language, argparse, encoder configuration and output writing in `__main__` are not modelled. The only exception is the JSON per-file call, which `JsonEncoding.JsonReport` models.
- `populate_container_with_nm` and `populate_container_with_readelf` are not modelled. They use a global `c` instead of their `container` parameter, so their behaviour depends on `__main__` globals.
- The JSON text layout (indentation, key order) is not modelled. Records are modelled as values.
- The fallback `json.JSONEncoder.default(self, o)` at `linker_report.py:171` is not modelled. It names an undefined `o` and would raise `NameError`. It is only reachable for a value that is not a node, and children are always nodes.
- Containers are values nested in the parent's children, so aliasing is not captured. In Python the same container object can be shared between parents and updated in place through any of them. The class `ContainerNode` models only the top-level container updated in place.
- Python's set iteration order is represented by the order of the child sequence. Every property above holds for any order.
- NmParser.ParseHex: accepts only plain hexadecimal digits. A sign, a `0x` prefix, underscores between digits, and surrounding whitespace that Python's `int(_, 16)` also accepts are treated as a size error. `nm -S` never prints these forms.
- TableEncoding.WikiTableNodeEncoder.Dumps: only the top-level list may hold entries that are not nodes (the `Value` type). Children are always nodes, so the exception inside nested `rec` calls is not modelled.
- Containers.ContainerNode.AddSubNode: requires the child to satisfy the distinct-names invariant. Python does not check it, but every node it builds satisfies it, because children live in a name-keyed set.
- JsonEncoding.JsonReport: its own contract states only the length. Its content is stated by `TableEncoding.SummaryScenario` on an example.
