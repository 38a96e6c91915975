# repetita-parser, modelled in Dafny

This project models the core of `repetita_parser`, a reader and writer for the
REPETITA network-instance format. An instance comes in two text files.

- The topology file (`.graph`) holds a `NODES` section and an `EDGES`
  section. Each section has a header line, a memo line and one record per
  line. A blank line separates the two sections.
- The demands file (`.demands`) holds a `DEMANDS` header, a memo line and one
  demand per line, up to the end of the file.

The model covers these parts of the source:

- `topology.parse` and `demands.parse`, with the `ParseError` each raises and
  the 1-based physical line it names.
- The `export` methods, which write the files back.
- Structural equality of topologies, demands and instances.
- The check in `Instance.__init__` that every demand names existing nodes.
- `_build_tm`, which sums the bandwidth of the demands into an n×n traffic
  matrix.
- `ParseError.__str__`.
- The two comment-line predicates of `utils.py`.

How the model represents the source:

- **Files.** A file is the sequence of the lines of its decoded text after
  text mode's newline translation (`open` turns `"\r\n"` and `"\r"` into
  `"\n"`). Each line keeps its trailing `"\n"`, except possibly the last. `readline` returns the next line,
  or `""` at the end of the file (`Files.LineAt`, `Files.LineReader`).
- **Parsers.** The parsers are modelled twice.
  - As functions over the line sequence: `TopologyFormat.TopologyOf` and
    `DemandsFormat.DemandsOf`. These carry the properties.
  - As the imperative code the source runs: `TopologyParser` and
    `DemandsParser`. In `TopologyParser` a `_ParserState` cursor advances
    line by line over `readline` calls. `DemandsParser` is a `for` loop over
    the lines `readlines()` returns. In both, the result lists grow by
    appending, and each method is proved to compute exactly the function.
- **Outcomes.** A parse ends in one of three ways: a value, a located
  `ParseError`, or one of the Python exceptions the parsers let escape
  (`IndexError` from `fields[0]` on an empty header line, `ValueError` from
  `int()` or `float()`). Loading an instance can also end with the `KeyError`
  or `ValueError` that `string.Template.substitute` raises while building the
  message for an invalid demand whose label holds a `$`.
- **Numbers.** `int()` and `str()` on integers are modelled for ASCII digits,
  without CPython's limit on the number of digits, and their round trip is
  proved. Float text conversion is a parameter, `FloatSyntax`.
  Statements that need writing and reading a float to agree take this
  (`RoundTrips`) as a hypothesis for the values involved.
- **Labels.** The records' `label` field is called `name`, because `label` is
  a reserved word in Dafny.

## Model

| member | source | states |
|---|---|---|
| Utils.CommentLineIff | src/repetita_parser/utils.py:1-3 | a line is a comment line iff its first non-whitespace character is `#` |
| Utils.BlankHasNoInlineComment | src/repetita_parser/utils.py:8-10 | an empty or whitespace-only line never has an inline comment |
| Utils.NeverBoth | src/repetita_parser/utils.py:9-10 | no line is both a comment line and a line with an inline comment |
| Utils.InlineCommentIff | src/repetita_parser/utils.py:6-11 | a line has an inline comment iff it contains `#` and is not a comment line |
| Utils.ClassifiersIgnoreSurroundingSpace | src/repetita_parser/utils.py:3-8 | both predicates answer the same on a line and on its stripped form |
| Text.StripIdempotent | src/repetita_parser/utils.py:3-8 | stripping a stripped line changes nothing |
| Text.SplitLines | src/repetita_parser/demands.py:66 | `readlines` yields only non-empty lines |
| Text.JoinSplitLines | src/repetita_parser/demands.py:66 | the lines `readlines` returns concatenate back to the decoded text after newline translation |
| Text.SplitJoinLines | src/repetita_parser/topology.py:92-110 | lines that each end in a single `"\n"`, once written, are read back as the same lines |
| Text.SplitUnwords | src/repetita_parser/demands.py:39 | a record written as space-separated tokens plus `"\n"` splits back into those tokens |
| Numbers.DecimalValueSpec | src/repetita_parser/demands.py:85-86 | the digit reader accepts exactly the digit grammar of `int()` (ASCII digits, single `_` between digits, leading zeros allowed) and yields its value |
| Numbers.DecimalValueAccepts | src/repetita_parser/demands.py:85-86 | the digit reader succeeds exactly on the digit grammar of `int()` |
| Numbers.DecimalValueOfDecimal | src/repetita_parser/demands.py:85-86 | on that grammar it yields the value of the digits, underscores dropped |
| Numbers.IntRoundTrip | src/repetita_parser/demands.py:39 | `int(str(i)) == i` for every integer the model holds (CPython's 4300-digit limit is left out) |
| Numbers.FormatIntInjective | src/repetita_parser/demands.py:39 | different integers are written differently |
| Numbers.FormatInt | src/repetita_parser/demands.py:34 | `str(i)` is one non-empty whitespace-free token |
| Errors.Render | src/repetita_parser/errors.py:11-28 | each of the four cases: message only, `path: message`, `path:line: message`, `:line: message`; the text always ends with the message, and a `": "` precedes it iff a location field is present |
| Files.LineReader.ReadLine | src/repetita_parser/topology.py:132 | `readline` returns the next physical line, or `""` past the end, and advances the file by one line |
| Files.LineReader.ReadLines | src/repetita_parser/demands.py:66 | `readlines` returns every line not read yet and leaves the file at its end |
| TopologyFormat.NodeLine | src/repetita_parser/topology.py:132-147 | a node-section line is accepted only when it is not empty; every `ParseError` names the file and the 1-based physical line |
| TopologyFormat.EdgeLine | src/repetita_parser/topology.py:164-183 | every `ParseError` raised for an edge-section line names the file and the 1-based physical line |
| TopologyParser.ParserState.constructor | src/repetita_parser/topology.py:113-121 | the state holds the open file, its path and the cursor it is given |
| TopologyParser.ParseNodes | src/repetita_parser/topology.py:124-152 | the `readline` loop up to the blank line computes the node section of `TopologyOf`; on success the cursor is one past the blank line and still agrees with the file |
| TopologyParser.ParseEdges | src/repetita_parser/topology.py:155-188 | the `readline` loop up to end of file computes the edge section of `TopologyOf` |
| TopologyParser.ParseNodeLine | src/repetita_parser/topology.py:133-147 | the loop body for one node line gives `NodeLine`'s verdict |
| TopologyParser.ParseEdgeLine | src/repetita_parser/topology.py:165-183 | the loop body for one edge line gives `EdgeLine`'s verdict |
| TopologyParser.Parse | src/repetita_parser/topology.py:191-215 | `topology.parse` computes exactly `TopologyOf` of the file's lines |
| TopologyParser.NodesReadPrefix | src/repetita_parser/topology.py:132-149 | the nodes read so far are a prefix of what the whole section yields (the loop invariant of `_parse_nodes`) |
| TopologyParser.EdgesReadPrefix | src/repetita_parser/topology.py:164-185 | the edges read so far are a prefix of what the whole section yields (the loop invariant of `_parse_edges`) |
| TopologyProperties.NodesHeaderErrors | src/repetita_parser/topology.py:194-199 | an empty first line raises `IndexError`; a first token other than `NODES` fails with "expected nodes header line" at line 1; the declared count is never checked |
| TopologyProperties.NodesMemoError | src/repetita_parser/topology.py:135-138 | a line 2 that is neither blank nor the exact memo line fails with "expected nodes memo line" at line 2 |
| TopologyProperties.BlankLineTwoMeansNoNodes | src/repetita_parser/topology.py:132 | a blank line 2 ends the node section with no nodes, and the memo check is skipped |
| TopologyProperties.EdgesHeaderAlwaysLine2 | src/repetita_parser/topology.py:201-211 | a bad edges header fails with "expected edges header line" at line 2, wherever the header is |
| TopologyProperties.NodesEndAtFirstBlank | src/repetita_parser/topology.py:132 | the node section ends at the first blank line after the header |
| TopologyProperties.NoBlankLineFails | src/repetita_parser/topology.py:132-141 | without a blank separator the parse fails: at end of file `readline` gives `""`, which has no fields |
| TopologyProperties.NodesFailAtFirstBadLine | src/repetita_parser/topology.py:132-141 | with a good nodes header, the parse gets past the node section iff every line before the first blank one passes; otherwise it ends with the verdict of the first line that does not, which is "not all node fields present" at that line's number when a record lacks 3 fields |
| TopologyProperties.NodeRecords | src/repetita_parser/topology.py:139-147 | one node per record line, in file order, each parsed from its own line |
| TopologyProperties.EdgeRecords | src/repetita_parser/topology.py:171-183 | one edge per record line, in file order, each parsed from its own line |
| TopologyProperties.EdgeCount | src/repetita_parser/topology.py:164-185 | the number of edges is the number of lines after the edges memo line |
| TopologyProperties.EdgeLinesHaveSixFields | src/repetita_parser/topology.py:171-174 | every line after the edges memo line has exactly 6 fields, so a trailing blank line is an error |
| TopologyProperties.EdgesFailAtFirstBadLine | src/repetita_parser/topology.py:164-174 | with both headers good and the node section read, the parse succeeds iff every line of the edge section passes; otherwise it ends with the verdict of the first line that does not, which is "not all edge fields present" at that line's number when a record lacks 6 fields |
| TopologyProperties.EdgesHeaderAtEndOfFile | src/repetita_parser/topology.py:205-215 | a file that ends with the edges header parses with no edges |
| TopologyProperties.TopologyOfOk | src/repetita_parser/topology.py:191-215 | a successful parse passed both headers, and its nodes and edges are what the two sections yield |
| TopologyProperties.ParsedTopology | src/repetita_parser/topology.py:191-215 | the whole layout of a file that parses: header, memo, node lines, blank, edges header, memo, edge lines; node and edge counts, the records on their lines, the source file kept |
| TopologyProperties.NodeTextReadsBack | src/repetita_parser/topology.py:99 | a node line as export writes it parses back to the same node |
| TopologyProperties.EdgeTextReadsBack | src/repetita_parser/topology.py:110 | an edge line as export writes it parses back to the same edge |
| TopologyProperties.LayoutRoundTrip | src/repetita_parser/topology.py:90-110 | whatever counts the headers declare, the exported layout parses back to the same nodes and edges |
| TopologyProperties.RoundTrip | src/repetita_parser/topology.py:45-110 | parsing what `export` writes gives an equal topology, read from the new file |
| TopologyProperties.ExportWritesLines | src/repetita_parser/topology.py:90-110 | every string `export` writes is one line ending in `"\n"`, so the file splits back into them |
| TopologyProperties.FileRoundTrip | src/repetita_parser/topology.py:90-110 | the text `export` writes, read back with `readline`, parses to the same nodes and edges |
| DemandsFormat.DemandLine | src/repetita_parser/demands.py:67-89 | a line yields a demand exactly when it is a record line (index 2 on); every `ParseError` names the file and line `line_idx + 1` |
| DemandsParser.ParseDemandLine | src/repetita_parser/demands.py:67-89 | the loop body for one line gives `DemandLine`'s verdict |
| DemandsParser.DemandsReadPrefix | src/repetita_parser/demands.py:66-89 | the demands appended so far are a prefix of what the whole file yields (the loop invariant) |
| DemandsParser.Parse | src/repetita_parser/demands.py:58-91 | `demands.parse` computes exactly `DemandsOf` of the file's lines |
| DemandsProperties.ParseFailsAtFirstBadLine | src/repetita_parser/demands.py:66-89 | the parse succeeds iff no line fails; otherwise it ends with the verdict of the first failing line, and every earlier line passed |
| DemandsProperties.HeaderError | src/repetita_parser/demands.py:69-74 | the parse fails with "expected demands header line" at line 1 iff line 1 is not exactly two tokens starting with `DEMANDS`; the count is not checked |
| DemandsProperties.MemoError | src/repetita_parser/demands.py:75-78 | after a good header, the parse fails with "expected demands memo line" at line 2 iff line 2 is not the exact memo line |
| DemandsProperties.EmptyFile | src/repetita_parser/demands.py:65-91 | an empty file parses to an empty demand list |
| DemandsProperties.MemoLineFields | src/repetita_parser/demands.py:59-61 | the memo line has exactly the four demand fields |
| DemandsProperties.DemandRecords | src/repetita_parser/demands.py:79-89 | one demand per line from line 3 on, in file order, each parsed from its own line |
| DemandsProperties.DemandCount | src/repetita_parser/demands.py:79-89 | the number of demands is the number of lines from line 3 on |
| DemandsProperties.ParsedDemands | src/repetita_parser/demands.py:66-91 | the layout of a file that parses: header, memo, one demand per remaining line in order, the source file kept |
| DemandsProperties.DemandOnLine | src/repetita_parser/demands.py:80-89 | demand j comes from line j + 3, which has exactly 4 fields: label, `int` src, `int` dest, `float` bandwidth |
| DemandsProperties.DemandTextReadsBack | src/repetita_parser/demands.py:39 | a demand line as export writes it parses back to the same demand |
| DemandsProperties.RoundTrip | src/repetita_parser/demands.py:31-55 | parsing what `export` writes gives equal demands, read from the new file |
| DemandsProperties.ExportWritesLines | src/repetita_parser/demands.py:31-39 | every string `export` writes is one line ending in `"\n"` |
| DemandsProperties.FileRoundTrip | src/repetita_parser/demands.py:31-39 | the text `export` writes, read back with `readlines`, parses to the same demands |
| Instances.ValidateDemands | src/repetita_parser/instance.py:33-48 | the validation loop, message template and `substitute` included, returns what the first invalid demand raises (`ValidationError`, `KeyError` or `ValueError`), or nothing |
| Instances.ValidationOfNone | src/repetita_parser/instance.py:32-37 | the check, as written and as intended, passes iff every demand has `0 <= src <= n-1` and `0 <= dest <= n-1` |
| Instances.BuildTrafficMatrix | src/repetita_parser/instance.py:10-23 | a fresh n×n matrix whose cell (i, j) is the total bandwidth of the demands from i to j |
| Instances.Load | src/repetita_parser/instance.py:27-50 | topology first, then demands, then the check as written; a failure at any step (including a `KeyError` or `ValueError` from `substitute`) is the failure of the whole; on success the fields are the parsed values and the matrix holds the demands' sums |
| Instances.Instance.constructor | src/repetita_parser/instance.py:27-50 | an instance holds its topology, its demands and a matrix; it can only be built from valid demands and the matrix of their sums, so `Valid()` holds from construction on |
| InstanceProperties.ValidationReportsFirst | src/repetita_parser/instance.py:33-48 | the check reports the first invalid demand, on its source index if that is invalid, else its destination index: as written it raises what `substitute` gives for that demand's message, as intended the plain message |
| InstanceProperties.NoNodesRejectsDemands | src/repetita_parser/instance.py:33-48 | a topology without nodes rejects any demand list that is not empty, on the first demand's source index, as written and as intended |
| InstanceProperties.LoadedDemandsValid | src/repetita_parser/instance.py:27-50 | a loaded instance holds only demands between existing nodes |
| InstanceProperties.MessageInjective | src/repetita_parser/instance.py:38-43 | the validation message determines the demand's label and the index it reports |
| InstanceProperties.TemplateAgreesWithoutDollar | src/repetita_parser/instance.py:38-43 | for a label without `$`, `Template(...).substitute` gives exactly the intended message |
| InstanceProperties.CheckAgreesWithoutDollar | src/repetita_parser/instance.py:38-48 | when no demand's label holds a `$`, the check as written fails exactly as the intended check: with the `ValidationError` carrying the plain message |
| InstanceProperties.DollarNameRaisesKeyError | src/repetita_parser/instance.py:38-43 | a label with `$` before an identifier other than `index` makes `substitute` raise `KeyError` |
| InstanceProperties.DollarNameRaisesValueError | src/repetita_parser/instance.py:38-43 | a label with `$` before anything but `$`, `{` or an identifier makes `substitute` raise `ValueError` |
| InstanceProperties.DoubledDollarCollapses | src/repetita_parser/instance.py:38-43 | a label with `$$` comes out with a single `$`, so the message names another label |
| InstanceProperties.CellSumNone | src/repetita_parser/instance.py:18-21 | a cell that no demand goes through stays 0 |
| InstanceProperties.CellSumAppend | src/repetita_parser/instance.py:20-21 | the demands' order does not matter to a cell: two runs of demands add up cell by cell |
| InstanceProperties.TrafficIsConserved | src/repetita_parser/instance.py:10-23 | when every demand names existing nodes, the cells of the matrix add up to the total bandwidth |
| InstanceProperties.InstanceTrafficIsConserved | src/repetita_parser/instance.py:50 | the traffic matrix of an instance holds all of its demands' bandwidth |
| InstanceProperties.InstanceEquality | src/repetita_parser/instance.py:55-64 | instance equality is an equivalence, and `!=` is its negation |
| InstanceProperties.LoadRoundTrip | src/repetita_parser/instance.py:66-68 | the two files `export` writes load back as the same topology and demands, with the new file names |
| InstanceProperties.InstanceRoundTrip | src/repetita_parser/instance.py:66-68 | exporting an instance and loading the two files gives an equal instance |
| Templates.SubstitutePlainPrefix | src/repetita_parser/instance.py:38-43 | `string.Template` copies text without `$` unchanged in front of the rest |
| Templates.PlaceholderBetween | src/repetita_parser/instance.py:38-43 | `$index` between two texts without `$` is replaced by the value |
| Templates.UnknownPlaceholder | src/repetita_parser/instance.py:38-43 | `$name` for a name other than the keyword raises `KeyError` |
| Templates.InvalidPlaceholder | src/repetita_parser/instance.py:38-43 | `$` before anything but `$`, `{` or an identifier raises `ValueError` |
| Templates.EscapeBeforePlaceholder | src/repetita_parser/instance.py:38-43 | `$$` before the placeholder leaves one `$`, and the value is put in |

## Left out

- Files are sequences of lines of decoded text, after text mode's newline translation. Opening, reading and writing real files, text decoding and the translation of `"\r\n"` and `"\r"` are not modelled. Each `export` is the list of strings it writes, in order.
- Python's `float()` and the float formatting of f-strings are not modelled; they are the parameter `FloatSyntax`.
- TopologyProperties.RoundTrip: holds only for labels that are single non-empty tokens and for float values whose formatting parses back to the same value (`RoundTrips`); a label with a space, or a NaN, does not survive export in the source either.
- TopologyProperties.FileRoundTrip: holds only for labels that are single non-empty tokens and for float values whose formatting parses back to the same value (`RoundTrips`); a label with a space, or a NaN, does not survive export in the source either.
- DemandsProperties.RoundTrip: holds only for labels that are single non-empty tokens and for float values whose formatting parses back to the same value (`RoundTrips`); a label with a space, or a NaN, does not survive export in the source either.
- DemandsProperties.FileRoundTrip: holds only for labels that are single non-empty tokens and for float values whose formatting parses back to the same value (`RoundTrips`); a label with a space, or a NaN, does not survive export in the source either.
- InstanceProperties.LoadRoundTrip: holds only for labels that are single non-empty tokens and for float values whose formatting parses back to the same value (`RoundTrips`); a label with a space, or a NaN, does not survive export in the source either.
- InstanceProperties.InstanceRoundTrip: holds only for labels that are single non-empty tokens and for float values whose formatting parses back to the same value (`RoundTrips`); a label with a space, or a NaN, does not survive export in the source either.
- The float fields of nodes, edges and demands are mathematical reals. Python's `float()` also accepts `nan`, `inf` and values such as `1e400` that overflow to infinity; no real stands for them, so a `FloatSyntax` must either reject such text (a `ValueError` the source does not raise) or map it to some finite real. Topology, demands and instance equality are equality of reals. In the source, list and dataclass comparison treat the very same float object as equal, so `t == t` holds even with a NaN inside; but two topologies or demand lists parsed separately (for instance before and after an export and a new parse) that hold NaN compare unequal, and the model does not capture that.
- The traffic matrix holds mathematical reals. numpy's float rounding during summation is not modelled.
- Instances.BuildTrafficMatrix: requires every demand to name existing nodes. numpy would wrap a negative index around, but `Instance.__init__` validates first, so it never reaches `_build_tm` with one.
- `Topology.as_nx_graph` and the `_has_networkx` flag wrap NetworkX, a library outside the model.
- `types.py` only defines the `PathLike` alias; paths are strings here, and `str(file_path)` is the path itself.
- `errors.ValidationError` is not defined in `errors.py`. It is modelled as its message and the two file paths, without a string form.
- Numbers.ParseInt: has no digit-count limit. CPython (3.10.7 and later, which this package needs) makes `int()` raise `ValueError` on a decimal string of more than 4300 digits, so a demand or edge line whose `src` or `dest` has 4301 digits crashes the source but parses in the model.
- Numbers.FormatInt: has no digit-count limit either. The source's `f"{d.src}"` in export raises `ValueError` for a value of more than 4300 digits; `FormatInt` always succeeds.
- Numbers.IntRoundTrip: holds for every integer, while in CPython it holds only for integers of at most 4300 digits, for the two reasons above.
- The integer reader takes a single whitespace-free token (what `split()` yields). It accepts an optional sign, ASCII digits and single underscores between digits. Non-ASCII digits, which Python's `int()` also accepts, are left out.
- `string.Template` is modelled only as far as `substitute` with one keyword argument: `$$`, `$name`, `${name}` and a lone `$`.

## Findings

| source | as written | input that shows it | evidently intended | confidence | as-written member | corrected member |
|---|---|---|---|---|---|---|
| src/repetita_parser/instance.py:38-43 | the demand's label is pasted into a `string.Template` before `substitute(index=...)` runs, so `$` in the label is read as template syntax | a demand labelled `a$b` (or `a$`, or `a$$b`) whose source index is out of range: `substitute` raises `KeyError` (or `ValueError`), or the message names `a$b` instead of `a$$b` | the message "demand <label>: node index <i> does not exist in topology" with the label verbatim | not executed | Instances.TemplateMessage, Instances.CheckOf (InstanceProperties.DollarNameRaisesKeyError, InstanceProperties.DollarNameRaisesValueError, InstanceProperties.DoubledDollarCollapses) | Instances.Message, Instances.ValidationOf (InstanceProperties.MessageInjective, InstanceProperties.TemplateAgreesWithoutDollar, InstanceProperties.CheckAgreesWithoutDollar) |

`Instances.ValidateDemands` and `Instances.Load` follow the code as written: they compute `CheckOf`, so a `$` in a label can end the load with a `KeyError` or `ValueError`. `Instances.ValidationOf` is the check with the label verbatim. `InstanceProperties.CheckAgreesWithoutDollar` proves the two fail alike whenever no label holds a `$`, and `ValidationOfNone` proves they pass on the same demand lists.
