/**
 * What `topology.parse` and `Topology.export` promise, stated over the
 * functions of TopologyFormat (and so, through the contracts of
 * TopologyParser, about the parser itself): where each error is reported,
 * which physical lines become nodes and edges, and that parsing what export
 * writes gives back an equal topology.
 */
module TopologyProperties {
  import opened Options
  import opened Text
  import opened Numbers
  import opened Errors
  import opened TopologyFormat
  import opened Files

  /** The lines a text file yields: none of them is empty (only `readline` at end of file returns ""). */
  predicate PhysicalLines(lines: seq<string>) {
    forall k | 0 <= k < |lines| :: lines[k] != ""
  }

  /** The first line's first field is `NODES`. */
  predicate NodesHeaderOk(lines: seq<string>) {
    var h := Split(LineAt(lines, 0));
    h != [] && h[0] == NodesId
  }

  // ---------------------------------------------------------------- headers and memo lines

  /** The nodes header: no field at all is an `IndexError`; any other first field is an error at line 1. */
  lemma NodesHeaderErrors(lines: seq<string>, path: string, fs: FloatSyntax)
    ensures Split(LineAt(lines, 0)) == [] ==> TopologyOf(lines, path, fs) == Crash(IndexError)
    ensures var h := Split(LineAt(lines, 0));
            h != [] && h[0] != NodesId ==> TopologyOf(lines, path, fs) == Fail(ErrorAt("expected nodes header line", path, 1))
  {
  }

  /** Line 2 must be the nodes memo line exactly, unless it is blank. */
  lemma NodesMemoError(lines: seq<string>, path: string, fs: FloatSyntax)
    requires NodesHeaderOk(lines)
    requires LineAt(lines, 1) != "\n" && LineAt(lines, 1) != NodesMemoLine
    ensures TopologyOf(lines, path, fs) == Fail(ErrorAt("expected nodes memo line", path, 2))
  {
  }

  /** A blank line 2 ends the node section at once: no memo check, no nodes. */
  lemma BlankLineTwoMeansNoNodes(lines: seq<string>, path: string, fs: FloatSyntax)
    requires LineAt(lines, 1) == "\n"
    ensures NodesFrom(lines, 1, path, fs) == Ok(([], 1))
    ensures TopologyOf(lines, path, fs).Ok? ==> TopologyOf(lines, path, fs).value.nodes == []
  {
  }

  /**
   * A wrong edges header is reported at line 2, wherever it is: the source
   * reports its own `cur_line_idx + 1`, which never moves past 1.
   */
  lemma EdgesHeaderAlwaysLine2(lines: seq<string>, path: string, fs: FloatSyntax)
    requires NodesHeaderOk(lines) && NodesFrom(lines, 1, path, fs).Ok?
    requires var e := Split(LineAt(lines, NodesFrom(lines, 1, path, fs).value.1 + 1));
             e != [] && e[0] != EdgesId
    ensures TopologyOf(lines, path, fs) == Fail(ErrorAt("expected edges header line", path, 2))
  {
  }

  // ---------------------------------------------------------------- the node section

  /** The node section ends at the first "\n" line at or after `idx`, and that line is in the file. */
  lemma {:induction false} NodesEndAtFirstBlank(lines: seq<string>, idx: nat, path: string, fs: FloatSyntax)
    requires NodesFrom(lines, idx, path, fs).Ok?
    ensures var b := NodesFrom(lines, idx, path, fs).value.1;
            idx <= b < |lines| && lines[b] == "\n" && forall k | idx <= k < b :: lines[k] != "\n"
    decreases |lines| - idx
  {
    var line := LineAt(lines, idx);
    if line != "\n" {
      NodesStep(lines, idx, path, fs);
      assert NodeLine(line, idx, path, fs).Ok?;
      NodesEndAtFirstBlank(lines, idx + 1, path, fs);
      assert NodesFrom(lines, idx, path, fs).value.1 == NodesFrom(lines, idx + 1, path, fs).value.1;
      assert idx < |lines| && lines[idx] != "\n";
    }
  }

  /** Lines `idx`, `idx + 1`, ... each hold one node record, the nodes of `ns` in order. */
  ghost predicate NodesAt(lines: seq<string>, idx: nat, ns: seq<Node>, path: string, fs: FloatSyntax)
    decreases |ns|
  {
    ns == [] || (idx < |lines| && NodeLine(lines[idx], idx, path, fs) == Ok(Some(ns[0])) && NodesAt(lines, idx + 1, ns[1..], path, fs))
  }

  /** Past the memo line there is one node per line, in file order, up to the first blank line. */
  lemma {:induction false} NodeRecords(lines: seq<string>, idx: nat, path: string, fs: FloatSyntax)
    requires idx >= 2 && NodesFrom(lines, idx, path, fs).Ok?
    ensures var r := NodesFrom(lines, idx, path, fs).value;
            |r.0| == r.1 - idx && NodesAt(lines, idx, r.0, path, fs)
    decreases |lines| - idx
  {
    var line := LineAt(lines, idx);
    if line != "\n" {
      var v := NodeLine(line, idx, path, fs);
      assert v.Ok? && v.value.Some? && idx < |lines|;
      var rest := NodesFrom(lines, idx + 1, path, fs);
      NodeRecords(lines, idx + 1, path, fs);
      NodesStep(lines, idx, path, fs);
      var ns := [v.value.value] + rest.value.0;
      assert NodesFrom(lines, idx, path, fs).value == (ns, rest.value.1);
      assert ns[1..] == rest.value.0;
    }
  }

  /** The same, one line at a time: node `j` is what line `idx + j` holds. */
  lemma {:induction false} NodesAtLine(lines: seq<string>, idx: nat, ns: seq<Node>, j: nat, path: string, fs: FloatSyntax)
    requires NodesAt(lines, idx, ns, path, fs) && j < |ns|
    ensures idx + j < |lines| && NodeLine(lines[idx + j], idx + j, path, fs) == Ok(Some(ns[j]))
    decreases j
  {
    assert idx < |lines| && NodesAt(lines, idx + 1, ns[1..], path, fs);
    if j > 0 {
      NodesAtLine(lines, idx + 1, ns[1..], j - 1, path, fs);
      assert ns[1..][j - 1] == ns[j] && idx + 1 + (j - 1) == idx + j;
    }
  }

  /** Reaching the end of the file before a blank line is an error: `readline` then returns "". */
  lemma NoBlankLineFails(lines: seq<string>, path: string, fs: FloatSyntax)
    requires forall k | 1 <= k < |lines| :: lines[k] != "\n"
    ensures !NodesFrom(lines, 1, path, fs).Ok?
    ensures NodesHeaderOk(lines) ==> !TopologyOf(lines, path, fs).Ok?
  {
    if NodesFrom(lines, 1, path, fs).Ok? {
      NodesEndAtFirstBlank(lines, 1, path, fs);
    }
  }

  // ---------------------------------------------------------------- the edge section

  /** Lines `idx`, `idx + 1`, ... each hold one edge record (memo line at `start`), the edges of `es` in order. */
  ghost predicate EdgesAt(lines: seq<string>, idx: nat, es: seq<Edge>, start: nat, path: string, fs: FloatSyntax)
    decreases |es|
  {
    es == [] || (idx < |lines| && EdgeLine(lines[idx], idx, start, path, fs) == Ok(Some(es[0])) && EdgesAt(lines, idx + 1, es[1..], start, path, fs))
  }

  /** After the memo line every line of the edge section is one edge, in file order. */
  lemma {:induction false} EdgeRecords(lines: seq<string>, idx: nat, start: nat, path: string, fs: FloatSyntax)
    requires start < idx && EdgesFrom(lines, idx, start, path, fs).Ok?
    ensures EdgesAt(lines, idx, EdgesFrom(lines, idx, start, path, fs).value, start, path, fs)
    decreases |lines| - idx
  {
    var line := LineAt(lines, idx);
    if line != "" {
      EdgesStep(lines, idx, start, path, fs);
      var v := EdgeLine(line, idx, start, path, fs);
      var rest := EdgesFrom(lines, idx + 1, start, path, fs);
      assert v.Ok? && v.value.Some? && rest.Ok? && idx < |lines|;
      EdgeRecords(lines, idx + 1, start, path, fs);
      var es := [v.value.value] + rest.value;
      assert Elements(v.value) == [v.value.value];
      assert EdgesFrom(lines, idx, start, path, fs) == Ok(es);
      assert es[0] == v.value.value && es[1..] == rest.value;
      assert EdgeLine(lines[idx], idx, start, path, fs) == Ok(Some(es[0]));
    }
  }

  /** The edge section runs to the end of the file: one edge per remaining line. */
  lemma {:induction false} EdgeCount(lines: seq<string>, idx: nat, start: nat, path: string, fs: FloatSyntax)
    requires start < idx && PhysicalLines(lines) && EdgesFrom(lines, idx, start, path, fs).Ok?
    ensures |EdgesFrom(lines, idx, start, path, fs).value| == if idx <= |lines| then |lines| - idx else 0
    decreases |lines| - idx
  {
    var line := LineAt(lines, idx);
    if idx < |lines| {
      assert line == lines[idx] != "";
      EdgesStep(lines, idx, start, path, fs);
      var v := EdgeLine(line, idx, start, path, fs);
      var rest := EdgesFrom(lines, idx + 1, start, path, fs);
      assert v.Ok? && v.value.Some? && rest.Ok?;
      EdgeCount(lines, idx + 1, start, path, fs);
      assert Elements(v.value) == [v.value.value];
      assert EdgesFrom(lines, idx, start, path, fs) == Ok([v.value.value] + rest.value);
    } else {
      assert line == "";
    }
  }

  /** The same, one line at a time: edge `j` is what line `idx + j` holds. */
  lemma {:induction false} EdgesAtLine(lines: seq<string>, idx: nat, es: seq<Edge>, start: nat, j: nat, path: string, fs: FloatSyntax)
    requires EdgesAt(lines, idx, es, start, path, fs) && j < |es|
    ensures idx + j < |lines| && EdgeLine(lines[idx + j], idx + j, start, path, fs) == Ok(Some(es[j]))
    decreases j
  {
    assert idx < |lines| && EdgesAt(lines, idx + 1, es[1..], start, path, fs);
    if j > 0 {
      EdgesAtLine(lines, idx + 1, es[1..], start, j - 1, path, fs);
      assert es[1..][j - 1] == es[j] && idx + 1 + (j - 1) == idx + j;
    }
  }

  /** An edge record that parses has six fields, so it is not a blank line. */
  lemma EdgeLineFields(line: string, idx: nat, start: nat, path: string, fs: FloatSyntax)
    requires idx != start && EdgeLine(line, idx, start, path, fs).Ok?
    ensures |Split(line)| == 6 && line != "\n"
  {
    if line == "\n" {
      SplitAllSpace("\n");
      assert false;
    }
  }

  /** Lines holding edge records have six fields each. */
  lemma {:induction false} EdgesAtFields(lines: seq<string>, idx: nat, es: seq<Edge>, start: nat, path: string, fs: FloatSyntax)
    requires start < idx && EdgesAt(lines, idx, es, start, path, fs)
    ensures forall k | idx <= k < idx + |es| :: k < |lines| && |Split(lines[k])| == 6 && lines[k] != "\n"
    decreases |es|
  {
    if es != [] {
      assert idx < |lines| && EdgesAt(lines, idx + 1, es[1..], start, path, fs);
      EdgeLineFields(lines[idx], idx, start, path, fs);
      EdgesAtFields(lines, idx + 1, es[1..], start, path, fs);
      assert idx + 1 + |es[1..]| == idx + |es|;
    }
  }

  /** Every line after the edges memo line has exactly six fields; so a trailing blank line is an error. */
  lemma EdgeLinesHaveSixFields(lines: seq<string>, start: nat, path: string, fs: FloatSyntax)
    requires PhysicalLines(lines) && EdgesFrom(lines, start, start, path, fs).Ok?
    ensures forall k | start < k < |lines| :: |Split(lines[k])| == 6 && lines[k] != "\n"
  {
    if start < |lines| {
      EdgesStep(lines, start, start, path, fs);
      EdgeRecords(lines, start + 1, start, path, fs);
      EdgeCount(lines, start + 1, start, path, fs);
      EdgesAtFields(lines, start + 1, EdgesFrom(lines, start + 1, start, path, fs).value, start, path, fs);
    }
  }

  /** An `EDGES` header on the last line gives no edges: the memo line is never checked. */
  lemma EdgesHeaderAtEndOfFile(lines: seq<string>, path: string, fs: FloatSyntax)
    requires NodesHeaderOk(lines) && NodesFrom(lines, 1, path, fs).Ok?
    requires var b := NodesFrom(lines, 1, path, fs).value.1;
             b + 2 == |lines| && Split(lines[b + 1]) != [] && Split(lines[b + 1])[0] == EdgesId
    ensures TopologyOf(lines, path, fs) == Ok(Topology(NodesFrom(lines, 1, path, fs).value.0, [], path))
  {
  }

  // ---------------------------------------------------------------- where a section fails

  /** The first line from `idx` on that ends the node section: the blank line, or a line whose verdict is not a success. */
  ghost function NodesStop(lines: seq<string>, idx: nat, path: string, fs: FloatSyntax): (k: nat)
    ensures idx <= k
    decreases |lines| - idx
  {
    var line := LineAt(lines, idx);
    if line == "\n" || !NodeLine(line, idx, path, fs).Ok? then idx else NodesStop(lines, idx + 1, path, fs)
  }

  /** Every line before `NodesStop` is a line of the node section with a good verdict. */
  lemma {:induction false} NodesBeforeStop(lines: seq<string>, idx: nat, path: string, fs: FloatSyntax)
    ensures var k := NodesStop(lines, idx, path, fs);
            forall m | idx <= m < k :: LineAt(lines, m) != "\n" && NodeLine(LineAt(lines, m), m, path, fs).Ok?
    decreases |lines| - idx
  {
    var line := LineAt(lines, idx);
    if line != "\n" && NodeLine(line, idx, path, fs).Ok? {
      NodesBeforeStop(lines, idx + 1, path, fs);
      assert NodesStop(lines, idx, path, fs) == NodesStop(lines, idx + 1, path, fs);
    }
  }

  /** The node section from `idx` on stops at `NodesStop`: it ends there at a blank line, and fails there with that line's verdict otherwise. */
  lemma {:induction false} NodesStopVerdict(lines: seq<string>, idx: nat, path: string, fs: FloatSyntax)
    ensures var k := NodesStop(lines, idx, path, fs);
            && (LineAt(lines, k) == "\n" ==> NodesFrom(lines, idx, path, fs).Ok? && NodesFrom(lines, idx, path, fs).value.1 == k)
            && (LineAt(lines, k) != "\n" ==> && !NodeLine(LineAt(lines, k), k, path, fs).Ok?
                                             && NodesFrom(lines, idx, path, fs) == NodeLine(LineAt(lines, k), k, path, fs).PropagateFailure())
    decreases |lines| - idx
  {
    var line := LineAt(lines, idx);
    if line == "\n" {
      assert NodesStop(lines, idx, path, fs) == idx;
    } else {
      var v := NodeLine(line, idx, path, fs);
      NodesStep(lines, idx, path, fs);
      if v.Ok? {
        NodesStopVerdict(lines, idx + 1, path, fs);
        assert NodesStop(lines, idx, path, fs) == NodesStop(lines, idx + 1, path, fs);
      } else {
        assert NodesStop(lines, idx, path, fs) == idx;
      }
    }
  }

  /**
   * With a good nodes header, the parse fails in the node section exactly when
   * a line before the first blank one has a bad verdict, and then with the
   * verdict of the first such line: the memo check at line 2, or "not all node
   * fields present" at its own line.
   */
  lemma NodesFailAtFirstBadLine(lines: seq<string>, path: string, fs: FloatSyntax)
    requires NodesHeaderOk(lines)
    ensures var k := NodesStop(lines, 1, path, fs);
            && (forall m | 1 <= m < k :: LineAt(lines, m) != "\n" && NodeLine(LineAt(lines, m), m, path, fs).Ok?)
            && (NodesFrom(lines, 1, path, fs).Ok? <==> LineAt(lines, k) == "\n")
            && (LineAt(lines, k) != "\n" ==> && !NodeLine(LineAt(lines, k), k, path, fs).Ok?
                                             && TopologyOf(lines, path, fs) == NodeLine(LineAt(lines, k), k, path, fs).PropagateFailure())
            && (LineAt(lines, k) != "\n" && k > 1 && |Split(LineAt(lines, k))| != 3 ==>
                  TopologyOf(lines, path, fs) == Fail(ErrorAt("not all node fields present", path, k + 1)))
  {
    NodesBeforeStop(lines, 1, path, fs);
    NodesStopVerdict(lines, 1, path, fs);
  }

  /** The first line from `idx` on that ends the edge section: the end of the file, or a line whose verdict is not a success. */
  ghost function EdgesStop(lines: seq<string>, idx: nat, start: nat, path: string, fs: FloatSyntax): (k: nat)
    ensures idx <= k
    decreases |lines| - idx
  {
    var line := LineAt(lines, idx);
    if line == "" || !EdgeLine(line, idx, start, path, fs).Ok? then idx else EdgesStop(lines, idx + 1, start, path, fs)
  }

  /** Every line before `EdgesStop` is a line of the edge section with a good verdict. */
  lemma {:induction false} EdgesBeforeStop(lines: seq<string>, idx: nat, start: nat, path: string, fs: FloatSyntax)
    ensures var k := EdgesStop(lines, idx, start, path, fs);
            forall m | idx <= m < k :: LineAt(lines, m) != "" && EdgeLine(LineAt(lines, m), m, start, path, fs).Ok?
    decreases |lines| - idx
  {
    var line := LineAt(lines, idx);
    if line != "" && EdgeLine(line, idx, start, path, fs).Ok? {
      EdgesBeforeStop(lines, idx + 1, start, path, fs);
      assert EdgesStop(lines, idx, start, path, fs) == EdgesStop(lines, idx + 1, start, path, fs);
    }
  }

  /** The edge section from `idx` on stops at `EdgesStop`: it ends there at the end of the file, and fails there with that line's verdict otherwise. */
  lemma {:induction false} EdgesStopVerdict(lines: seq<string>, idx: nat, start: nat, path: string, fs: FloatSyntax)
    ensures var k := EdgesStop(lines, idx, start, path, fs);
            && (EdgesFrom(lines, idx, start, path, fs).Ok? <==> LineAt(lines, k) == "")
            && (LineAt(lines, k) != "" ==> && !EdgeLine(LineAt(lines, k), k, start, path, fs).Ok?
                                           && EdgesFrom(lines, idx, start, path, fs) == EdgeLine(LineAt(lines, k), k, start, path, fs).PropagateFailure())
    decreases |lines| - idx
  {
    var line := LineAt(lines, idx);
    if line == "" {
      assert EdgesStop(lines, idx, start, path, fs) == idx;
    } else {
      var v := EdgeLine(line, idx, start, path, fs);
      EdgesStep(lines, idx, start, path, fs);
      if v.Ok? {
        EdgesStopVerdict(lines, idx + 1, start, path, fs);
        assert EdgesStop(lines, idx, start, path, fs) == EdgesStop(lines, idx + 1, start, path, fs);
      } else {
        assert EdgesStop(lines, idx, start, path, fs) == idx;
      }
    }
  }

  /** With both headers good, the parse succeeds exactly when the edge section does, and fails as it does. */
  lemma EdgeSectionDecides(lines: seq<string>, path: string, fs: FloatSyntax)
    requires NodesHeaderOk(lines) && NodesFrom(lines, 1, path, fs).Ok?
    requires var e := Split(LineAt(lines, NodesFrom(lines, 1, path, fs).value.1 + 1)); e != [] && e[0] == EdgesId
    ensures var s := NodesFrom(lines, 1, path, fs).value.1 + 2;
            var es := EdgesFrom(lines, s, s, path, fs);
            && (TopologyOf(lines, path, fs).Ok? <==> es.Ok?)
            && (!es.Ok? ==> TopologyOf(lines, path, fs) == es.PropagateFailure())
  {
  }

  /**
   * With both headers good and the node section read, the parse fails exactly
   * when a line of the edge section has a bad verdict, and then with the
   * verdict of the first such line: the memo check, or "not all edge fields
   * present" at its own line.
   */
  lemma EdgesFailAtFirstBadLine(lines: seq<string>, path: string, fs: FloatSyntax)
    requires NodesHeaderOk(lines) && NodesFrom(lines, 1, path, fs).Ok?
    requires var e := Split(LineAt(lines, NodesFrom(lines, 1, path, fs).value.1 + 1)); e != [] && e[0] == EdgesId
    ensures var s := NodesFrom(lines, 1, path, fs).value.1 + 2;
            var k := EdgesStop(lines, s, s, path, fs);
            && (forall m | s <= m < k :: LineAt(lines, m) != "" && EdgeLine(LineAt(lines, m), m, s, path, fs).Ok?)
            && (TopologyOf(lines, path, fs).Ok? <==> LineAt(lines, k) == "")
            && (LineAt(lines, k) != "" ==> && !EdgeLine(LineAt(lines, k), k, s, path, fs).Ok?
                                           && TopologyOf(lines, path, fs) == EdgeLine(LineAt(lines, k), k, s, path, fs).PropagateFailure())
            && (LineAt(lines, k) != "" && k > s && |Split(LineAt(lines, k))| != 6 ==>
                  TopologyOf(lines, path, fs) == Fail(ErrorAt("not all edge fields present", path, k + 1)))
  {
    var s := NodesFrom(lines, 1, path, fs).value.1 + 2;
    var k := EdgesStop(lines, s, s, path, fs);
    EdgesBeforeStop(lines, s, s, path, fs);
    EdgesStopVerdict(lines, s, s, path, fs);
    EdgeSectionDecides(lines, path, fs);
    var line := LineAt(lines, k);
    if line != "" {
      var v := EdgeLine(line, k, s, path, fs);
      var es: Outcome<seq<Edge>> := v.PropagateFailure();
      assert EdgesFrom(lines, s, s, path, fs) == es;
      var t: Outcome<Topology> := v.PropagateFailure();
      assert es.PropagateFailure() == t;
      if k > s && |Split(line)| != 6 {
        EdgeLineMissingFields(line, k, s, path, fs);
      }
    }
  }

  /** A record line without six fields is an error at its own line. */
  lemma EdgeLineMissingFields(line: string, idx: nat, start: nat, path: string, fs: FloatSyntax)
    requires idx != start && |Split(line)| != 6
    ensures EdgeLine(line, idx, start, path, fs) == Fail(ErrorAt("not all edge fields present", path, idx + 1))
  {
  }

  // ---------------------------------------------------------------- a successful parse

  /** A successful parse taken apart: both header checks passed and both sections parsed. */
  lemma TopologyOfOk(lines: seq<string>, path: string, fs: FloatSyntax)
    requires TopologyOf(lines, path, fs).Ok?
    ensures NodesHeaderOk(lines) && NodesFrom(lines, 1, path, fs).Ok?
    ensures var r := NodesFrom(lines, 1, path, fs).value;
            var e, s := Split(LineAt(lines, r.1 + 1)), r.1 + 2;
            && e != [] && e[0] == EdgesId
            && EdgesFrom(lines, s, s, path, fs).Ok?
            && TopologyOf(lines, path, fs).value == Topology(r.0, EdgesFrom(lines, s, s, path, fs).value, path)
  {
  }

  /** The converse of `TopologyOfOk`: when both header checks pass and both sections parse, so does the file. */
  lemma TopologyOfSections(lines: seq<string>, nodes: seq<Node>, b: nat, edges: seq<Edge>, path: string, fs: FloatSyntax)
    requires NodesHeaderOk(lines) && NodesFrom(lines, 1, path, fs) == Ok((nodes, b))
    requires var e := Split(LineAt(lines, b + 1)); e != [] && e[0] == EdgesId
    requires EdgesFrom(lines, b + 2, b + 2, path, fs) == Ok(edges)
    ensures TopologyOf(lines, path, fs) == Ok(Topology(nodes, edges, path))
  {
  }

  /**
   * The node section: it ends at the first blank line `b` after the header;
   * line 2 is the memo line unless `b` is line 2, and the nodes are lines
   * 3 .. `b`, one each, in order.
   */
  lemma NodeSection(lines: seq<string>, path: string, fs: FloatSyntax)
    requires NodesFrom(lines, 1, path, fs).Ok?
    ensures var r := NodesFrom(lines, 1, path, fs).value;
            var ns, b := r.0, r.1;
            && 1 <= b < |lines| && lines[b] == "\n"
            && (forall k | 1 <= k < b :: lines[k] != "\n")
            && (b > 1 ==> lines[1] == NodesMemoLine)
            && |ns| == (if b > 1 then b - 2 else 0)
            && NodesAt(lines, 2, ns, path, fs)
  {
    NodesEndAtFirstBlank(lines, 1, path, fs);
    if LineAt(lines, 1) != "\n" {
      assert NodeLine(lines[1], 1, path, fs) == Ok(None);
      NodesStep(lines, 1, path, fs);
      PrependNodesAssoc([], [], NodesFrom(lines, 2, path, fs));
      NodeRecords(lines, 2, path, fs);
    }
  }

  /** The edge section from its memo line `s` on: that line is the memo line, and every later line is one edge, in order. */
  lemma EdgeSection(lines: seq<string>, s: nat, path: string, fs: FloatSyntax)
    requires PhysicalLines(lines) && EdgesFrom(lines, s, s, path, fs).Ok?
    ensures var es := EdgesFrom(lines, s, s, path, fs).value;
            && (s < |lines| ==> lines[s] == EdgesMemoLine)
            && |es| == (if s < |lines| then |lines| - (s + 1) else 0)
            && EdgesAt(lines, s + 1, es, s, path, fs)
  {
    if s < |lines| {
      assert EdgeLine(lines[s], s, s, path, fs) == Ok(None);
      EdgesStep(lines, s, s, path, fs);
      PrependEdgesAssoc([], [], EdgesFrom(lines, s + 1, s, path, fs));
      EdgeRecords(lines, s + 1, s, path, fs);
      EdgeCount(lines, s + 1, s, path, fs);
    }
  }

  /**
   * What a successful parse reads: the node section as `NodeSection` says;
   * line `b + 2` (1-based) holds the `EDGES` header, and the edge section
   * follows it as `EdgeSection` says. The counts in the two header lines play
   * no part.
   */
  lemma ParsedTopology(lines: seq<string>, path: string, fs: FloatSyntax)
    requires PhysicalLines(lines) && TopologyOf(lines, path, fs).Ok?
    ensures NodesFrom(lines, 1, path, fs).Ok?
    ensures var t, b := TopologyOf(lines, path, fs).value, NodesFrom(lines, 1, path, fs).value.1;
            && t.sourceFile == path
            && NodesHeaderOk(lines)
            && 1 <= b && b + 1 < |lines| && lines[b] == "\n"
            && (forall k | 1 <= k < b :: lines[k] != "\n")
            && (b > 1 ==> lines[1] == NodesMemoLine)
            && |t.nodes| == (if b > 1 then b - 2 else 0)
            && NodesAt(lines, 2, t.nodes, path, fs)
            && Split(lines[b + 1]) != [] && Split(lines[b + 1])[0] == EdgesId
            && (b + 2 < |lines| ==> lines[b + 2] == EdgesMemoLine)
            && |t.edges| == (if b + 2 < |lines| then |lines| - (b + 3) else 0)
            && EdgesAt(lines, b + 3, t.edges, b + 2, path, fs)
  {
    TopologyOfOk(lines, path, fs);
    NodeSection(lines, path, fs);
    var b := NodesFrom(lines, 1, path, fs).value.1;
    EdgeSection(lines, b + 2, path, fs);
    assert LineAt(lines, b + 1) != "";
  }

  // ---------------------------------------------------------------- reading records back

  /** The converse of `NodeRecords`: node records on lines `idx` .. followed by a blank line read back as those nodes. */
  lemma {:induction false} NodesAtRead(lines: seq<string>, idx: nat, ns: seq<Node>, path: string, fs: FloatSyntax)
    requires idx >= 2 && NodesAt(lines, idx, ns, path, fs) && LineAt(lines, idx + |ns|) == "\n"
    ensures NodesFrom(lines, idx, path, fs) == Ok((ns, idx + |ns|))
    decreases |ns|
  {
    if ns != [] {
      var line := LineAt(lines, idx);
      var v := NodeLine(line, idx, path, fs);
      assert line == lines[idx] && v == Ok(Some(ns[0]));
      NodesStep(lines, idx, path, fs);
      NodesAtRead(lines, idx + 1, ns[1..], path, fs);
      assert Elements(v.value) == [ns[0]];
      assert NodesFrom(lines, idx, path, fs) == PrependNodes([ns[0]], Ok((ns[1..], idx + |ns|)));
      assert [ns[0]] + ns[1..] == ns;
    }
  }

  /** The converse of `EdgeRecords`: edge records on every line from `idx` to the end of file read back as those edges. */
  lemma {:induction false} EdgesAtRead(lines: seq<string>, idx: nat, es: seq<Edge>, start: nat, path: string, fs: FloatSyntax)
    requires start < idx && EdgesAt(lines, idx, es, start, path, fs) && |lines| == idx + |es|
    ensures EdgesFrom(lines, idx, start, path, fs) == Ok(es)
    decreases |es|
  {
    if es != [] {
      var line := LineAt(lines, idx);
      var v := EdgeLine(line, idx, start, path, fs);
      assert line == lines[idx] && v == Ok(Some(es[0]));
      EdgesStep(lines, idx, start, path, fs);
      EdgesAtRead(lines, idx + 1, es[1..], start, path, fs);
      assert Elements(v.value) == [es[0]];
      assert EdgesFrom(lines, idx, start, path, fs) == PrependEdges([es[0]], Ok(es[1..]));
      assert [es[0]] + es[1..] == es;
    } else {
      assert LineAt(lines, idx) == "";
    }
  }

  // ---------------------------------------------------------------- export, then parse

  /** A node whose label is one token and whose coordinates survive formatting. */
  predicate ExportableNode(n: Node, fs: FloatSyntax) {
    IsToken(n.name) && RoundTrips(fs, n.x) && RoundTrips(fs, n.y)
  }

  /** An edge whose label is one token and whose weight, bandwidth and delay survive formatting. */
  predicate ExportableEdge(e: Edge, fs: FloatSyntax) {
    IsToken(e.name) && RoundTrips(fs, e.weight) && RoundTrips(fs, e.bandwidth) && RoundTrips(fs, e.delay)
  }

  predicate ExportableNodes(nodes: seq<Node>, fs: FloatSyntax) {
    forall j | 0 <= j < |nodes| :: ExportableNode(nodes[j], fs)
  }

  predicate ExportableEdges(edges: seq<Edge>, fs: FloatSyntax) {
    forall j | 0 <= j < |edges| :: ExportableEdge(edges[j], fs)
  }

  /** Every node and every edge can be written and read back. */
  predicate Exportable(nodes: seq<Node>, edges: seq<Edge>, fs: FloatSyntax) {
    ExportableNodes(nodes, fs) && ExportableEdges(edges, fs)
  }

  /** The two section identifiers are single tokens. */
  lemma IdsAreTokens()
    ensures IsToken(NodesId) && IsToken(EdgesId)
  {
    assert forall i | 0 <= i < |NodesId| :: !IsSpace(NodesId[i]);
    assert forall i | 0 <= i < |EdgesId| :: !IsSpace(EdgesId[i]);
  }

  /** A node line as export writes it is one line of text, and not a blank one. */
  lemma NodeTextIsLine(n: Node, fs: FloatSyntax)
    requires ExportableNode(n, fs)
    ensures IsTerminatedLine(NodeText(n, fs)) && NodeText(n, fs) != "\n"
  {
    var words := [n.name, fs.format(n.x), fs.format(n.y)];
    UnwordsTerminated(words);
    assert Unwords(words) == n.name + " " + Unwords(words[1..]);
  }

  /** An edge line as export writes it is one line of text. */
  lemma EdgeTextIsLine(e: Edge, fs: FloatSyntax)
    requires ExportableEdge(e, fs)
    ensures IsTerminatedLine(EdgeText(e, fs))
  {
    UnwordsTerminated([e.name, FormatInt(e.src), FormatInt(e.dest), fs.format(e.weight), fs.format(e.bandwidth), fs.format(e.delay)]);
  }

  /** A node line as export writes it reads back as that node (anywhere past the memo line). */
  lemma NodeTextReadsBack(n: Node, idx: nat, path: string, fs: FloatSyntax)
    requires idx != 1 && ExportableNode(n, fs)
    ensures NodeLine(NodeText(n, fs), idx, path, fs) == Ok(Some(n))
  {
    SplitUnwords([n.name, fs.format(n.x), fs.format(n.y)]);
  }

  /** An edge line as export writes it reads back as that edge (anywhere past the memo line). */
  lemma EdgeTextReadsBack(e: Edge, idx: nat, start: nat, path: string, fs: FloatSyntax)
    requires idx != start && ExportableEdge(e, fs)
    ensures EdgeLine(EdgeText(e, fs), idx, start, path, fs) == Ok(Some(e))
  {
    SplitUnwords([e.name, FormatInt(e.src), FormatInt(e.dest), fs.format(e.weight), fs.format(e.bandwidth), fs.format(e.delay)]);
    IntRoundTrip(e.src);
    IntRoundTrip(e.dest);
  }

  /** The converse of `NodesAtLine`: node records line by line make up `NodesAt`. */
  lemma {:induction false} NodesAtOf(lines: seq<string>, idx: nat, ns: seq<Node>, path: string, fs: FloatSyntax)
    requires idx + |ns| <= |lines|
    requires forall j | 0 <= j < |ns| :: NodeLine(lines[idx + j], idx + j, path, fs) == Ok(Some(ns[j]))
    ensures NodesAt(lines, idx, ns, path, fs)
    decreases |ns|
  {
    if ns != [] {
      forall j | 0 <= j < |ns| - 1
        ensures NodeLine(lines[idx + 1 + j], idx + 1 + j, path, fs) == Ok(Some(ns[1..][j]))
      {
        assert NodeLine(lines[idx + (j + 1)], idx + (j + 1), path, fs) == Ok(Some(ns[j + 1]));
      }
      NodesAtOf(lines, idx + 1, ns[1..], path, fs);
      assert NodeLine(lines[idx + 0], idx + 0, path, fs) == Ok(Some(ns[0]));
    }
  }

  /** The converse of `EdgesAtLine`: edge records line by line make up `EdgesAt`. */
  lemma {:induction false} EdgesAtOf(lines: seq<string>, idx: nat, es: seq<Edge>, start: nat, path: string, fs: FloatSyntax)
    requires idx + |es| <= |lines|
    requires forall j | 0 <= j < |es| :: EdgeLine(lines[idx + j], idx + j, start, path, fs) == Ok(Some(es[j]))
    ensures EdgesAt(lines, idx, es, start, path, fs)
    decreases |es|
  {
    if es != [] {
      forall j | 0 <= j < |es| - 1
        ensures EdgeLine(lines[idx + 1 + j], idx + 1 + j, start, path, fs) == Ok(Some(es[1..][j]))
      {
        assert EdgeLine(lines[idx + (j + 1)], idx + (j + 1), start, path, fs) == Ok(Some(es[j + 1]));
      }
      EdgesAtOf(lines, idx + 1, es[1..], start, path, fs);
      assert EdgeLine(lines[idx + 0], idx + 0, start, path, fs) == Ok(Some(es[0]));
    }
  }

  /** Line `j` of the node lines export writes is the text of node `j`. */
  lemma {:induction false} NodeTextsIndex(nodes: seq<Node>, fs: FloatSyntax)
    ensures forall j | 0 <= j < |nodes| :: NodeTexts(nodes, fs)[j] == NodeText(nodes[j], fs)
    decreases |nodes|
  {
    if nodes != [] {
      NodeTextsIndex(nodes[1..], fs);
    }
  }

  /** Line `j` of the edge lines export writes is the text of edge `j`. */
  lemma {:induction false} EdgeTextsIndex(edges: seq<Edge>, fs: FloatSyntax)
    ensures forall j | 0 <= j < |edges| :: EdgeTexts(edges, fs)[j] == EdgeText(edges[j], fs)
    decreases |edges|
  {
    if edges != [] {
      EdgeTextsIndex(edges[1..], fs);
    }
  }

  /** Node `j`'s line, as export writes it, reads back as node `j` (anywhere past the memo line). */
  lemma NodeTextsLine(pre: seq<string>, nodes: seq<Node>, post: seq<string>, j: nat, path: string, fs: FloatSyntax)
    requires |pre| >= 2 && ExportableNodes(nodes, fs) && j < |nodes|
    ensures var lines := pre + NodeTexts(nodes, fs) + post;
            NodeLine(lines[|pre| + j], |pre| + j, path, fs) == Ok(Some(nodes[j]))
  {
    NodeTextsIndex(nodes, fs);
    assert (pre + NodeTexts(nodes, fs) + post)[|pre| + j] == NodeText(nodes[j], fs);
    NodeTextReadsBack(nodes[j], |pre| + j, path, fs);
  }

  /** The node lines export writes, placed after at least the header and memo lines, are node records of those nodes. */
  lemma NodeTextsAt(pre: seq<string>, nodes: seq<Node>, post: seq<string>, path: string, fs: FloatSyntax)
    requires |pre| >= 2 && ExportableNodes(nodes, fs)
    ensures NodesAt(pre + NodeTexts(nodes, fs) + post, |pre|, nodes, path, fs)
  {
    var lines := pre + NodeTexts(nodes, fs) + post;
    forall j | 0 <= j < |nodes| ensures NodeLine(lines[|pre| + j], |pre| + j, path, fs) == Ok(Some(nodes[j])) {
      NodeTextsLine(pre, nodes, post, j, path, fs);
    }
    NodesAtOf(lines, |pre|, nodes, path, fs);
  }

  /** Edge `j`'s line, as export writes it, reads back as edge `j` (anywhere past the memo line). */
  lemma EdgeTextsLine(pre: seq<string>, edges: seq<Edge>, start: nat, j: nat, path: string, fs: FloatSyntax)
    requires start < |pre| && ExportableEdges(edges, fs) && j < |edges|
    ensures var lines := pre + EdgeTexts(edges, fs);
            EdgeLine(lines[|pre| + j], |pre| + j, start, path, fs) == Ok(Some(edges[j]))
  {
    EdgeTextsIndex(edges, fs);
    assert (pre + EdgeTexts(edges, fs))[|pre| + j] == EdgeText(edges[j], fs);
    EdgeTextReadsBack(edges[j], |pre| + j, start, path, fs);
  }

  /** The edge lines export writes, placed after the memo line at `start`, are edge records of those edges. */
  lemma EdgeTextsAt(pre: seq<string>, edges: seq<Edge>, start: nat, path: string, fs: FloatSyntax)
    requires start < |pre| && ExportableEdges(edges, fs)
    ensures EdgesAt(pre + EdgeTexts(edges, fs), |pre|, edges, start, path, fs)
  {
    var lines := pre + EdgeTexts(edges, fs);
    forall j | 0 <= j < |edges| ensures EdgeLine(lines[|pre| + j], |pre| + j, start, path, fs) == Ok(Some(edges[j])) {
      EdgeTextsLine(pre, edges, start, j, path, fs);
    }
    EdgesAtOf(lines, |pre|, edges, start, path, fs);
  }

  /** The node section of the export layout reads back as the nodes, ending at line `2 + |nodes|`. */
  lemma LayoutNodes(nodes: seq<Node>, edges: seq<Edge>, nodeCount: int, edgeCount: int, path: string, fs: FloatSyntax)
    requires ExportableNodes(nodes, fs)
    ensures NodesFrom(Layout(nodes, edges, nodeCount, edgeCount, fs), 1, path, fs) == Ok((nodes, 2 + |nodes|))
  {
    LayoutNodeLines(nodes, edges, nodeCount, edgeCount, path, fs);
    NodesAfterMemo(Layout(nodes, edges, nodeCount, edgeCount, fs), nodes, path, fs);
  }

  /** In the export layout, line 2 is the memo line, the node records follow one per line, and then the blank line. */
  lemma LayoutNodeLines(nodes: seq<Node>, edges: seq<Edge>, nodeCount: int, edgeCount: int, path: string, fs: FloatSyntax)
    requires ExportableNodes(nodes, fs)
    ensures var lines := Layout(nodes, edges, nodeCount, edgeCount, fs);
            && LineAt(lines, 1) == NodesMemoLine
            && NodesAt(lines, 2, nodes, path, fs)
            && LineAt(lines, 2 + |nodes|) == "\n"
  {
    var pre := [NodesId + " " + FormatInt(nodeCount) + "\n", NodesMemoLine];
    var post := ["\n"] + [EdgesId + " " + FormatInt(edgeCount) + "\n", EdgesMemoLine] + EdgeTexts(edges, fs);
    LayoutAroundNodes(nodes, edges, nodeCount, edgeCount, fs);
    NodeTextsAt(pre, nodes, post, path, fs);
    assert (pre + NodeTexts(nodes, fs) + post)[2 + |nodes|] == post[0];
  }

  /** The export layout as the two fixed lines, the node records, and everything after them. */
  lemma LayoutAroundNodes(nodes: seq<Node>, edges: seq<Edge>, nodeCount: int, edgeCount: int, fs: FloatSyntax)
    ensures Layout(nodes, edges, nodeCount, edgeCount, fs)
            == [NodesId + " " + FormatInt(nodeCount) + "\n", NodesMemoLine] + NodeTexts(nodes, fs)
               + (["\n"] + [EdgesId + " " + FormatInt(edgeCount) + "\n", EdgesMemoLine] + EdgeTexts(edges, fs))
  {
  }

  /** The memo line, then one line per node, then the blank line: a node section holding exactly those nodes. */
  lemma NodesAfterMemo(lines: seq<string>, ns: seq<Node>, path: string, fs: FloatSyntax)
    requires LineAt(lines, 1) == NodesMemoLine && NodesAt(lines, 2, ns, path, fs) && LineAt(lines, 2 + |ns|) == "\n"
    ensures NodesFrom(lines, 1, path, fs) == Ok((ns, 2 + |ns|))
  {
    NodesAtRead(lines, 2, ns, path, fs);
    NodesStep(lines, 1, path, fs);
    PrependNodesAssoc([], [], NodesFrom(lines, 2, path, fs));
  }

  /** The edge section of the export layout, from its memo line on, reads back as the edges. */
  lemma LayoutEdges(nodes: seq<Node>, edges: seq<Edge>, nodeCount: int, edgeCount: int, path: string, fs: FloatSyntax)
    requires ExportableEdges(edges, fs)
    ensures var s := 4 + |nodes|;
            EdgesFrom(Layout(nodes, edges, nodeCount, edgeCount, fs), s, s, path, fs) == Ok(edges)
  {
    var s := 4 + |nodes|;
    var pre := [NodesId + " " + FormatInt(nodeCount) + "\n", NodesMemoLine] + NodeTexts(nodes, fs)
               + ["\n"] + [EdgesId + " " + FormatInt(edgeCount) + "\n", EdgesMemoLine];
    var lines := pre + EdgeTexts(edges, fs);
    assert Layout(nodes, edges, nodeCount, edgeCount, fs) == lines;
    EdgeTextsAt(pre, edges, s, path, fs);
    EdgesAtRead(lines, s + 1, edges, s, path, fs);
    assert LineAt(lines, s) == pre[s] == EdgesMemoLine;
    EdgesStep(lines, s, s, path, fs);
    PrependEdgesAssoc([], [], EdgesFrom(lines, s + 1, s, path, fs));
  }

  /** Where the two header lines of the export layout are. */
  lemma LayoutHeaderLines(nodes: seq<Node>, edges: seq<Edge>, nodeCount: int, edgeCount: int, fs: FloatSyntax)
    ensures var lines := Layout(nodes, edges, nodeCount, edgeCount, fs);
            && LineAt(lines, 0) == NodesId + " " + FormatInt(nodeCount) + "\n"
            && LineAt(lines, 3 + |nodes|) == EdgesId + " " + FormatInt(edgeCount) + "\n"
  {
  }

  /** Header lines as export writes them pass the header checks, whatever the counts. */
  lemma HeadersPass(lines: seq<string>, b: nat, nodeCount: int, edgeCount: int)
    requires LineAt(lines, 0) == NodesId + " " + FormatInt(nodeCount) + "\n"
    requires LineAt(lines, b + 1) == EdgesId + " " + FormatInt(edgeCount) + "\n"
    ensures var e := Split(LineAt(lines, b + 1));
            NodesHeaderOk(lines) && e != [] && e[0] == EdgesId
  {
    IdsAreTokens();
    TwoWordLine(NodesId, FormatInt(nodeCount));
    TwoWordLine(EdgesId, FormatInt(edgeCount));
  }

  /** Parsing the export layout gives back the nodes and edges, whatever counts the header lines carry. */
  lemma LayoutRoundTrip(nodes: seq<Node>, edges: seq<Edge>, nodeCount: int, edgeCount: int, path: string, fs: FloatSyntax)
    requires Exportable(nodes, edges, fs)
    ensures TopologyOf(Layout(nodes, edges, nodeCount, edgeCount, fs), path, fs) == Ok(Topology(nodes, edges, path))
  {
    LayoutHeaderLines(nodes, edges, nodeCount, edgeCount, fs);
    HeadersPass(Layout(nodes, edges, nodeCount, edgeCount, fs), 2 + |nodes|, nodeCount, edgeCount);
    LayoutNodes(nodes, edges, nodeCount, edgeCount, path, fs);
    LayoutEdges(nodes, edges, nodeCount, edgeCount, path, fs);
    TopologyOfSections(Layout(nodes, edges, nodeCount, edgeCount, fs), nodes, 2 + |nodes|, edges, path, fs);
  }

  /** Exporting a topology and parsing the result gives an equal topology read from the new path. */
  lemma RoundTrip(t: Topology, path: string, fs: FloatSyntax)
    requires Exportable(t.nodes, t.edges, fs)
    ensures TopologyOf(Export(t, fs), path, fs) == Ok(Topology(t.nodes, t.edges, path))
    ensures Equal(TopologyOf(Export(t, fs), path, fs).value, t)
  {
    LayoutRoundTrip(t.nodes, t.edges, |t.nodes|, |t.edges|, path, fs);
  }

  /** Every node line export writes is one terminated line of text. */
  lemma {:induction false} NodeTextsTerminated(nodes: seq<Node>, fs: FloatSyntax)
    requires ExportableNodes(nodes, fs)
    ensures AllTerminated(NodeTexts(nodes, fs))
    decreases |nodes|
  {
    if nodes != [] {
      NodeTextIsLine(nodes[0], fs);
      NodeTextsTerminated(nodes[1..], fs);
      AllTerminatedConcat([NodeText(nodes[0], fs)], NodeTexts(nodes[1..], fs));
    }
  }

  /** Every edge line export writes is one terminated line of text. */
  lemma {:induction false} EdgeTextsTerminated(edges: seq<Edge>, fs: FloatSyntax)
    requires ExportableEdges(edges, fs)
    ensures AllTerminated(EdgeTexts(edges, fs))
    decreases |edges|
  {
    if edges != [] {
      EdgeTextIsLine(edges[0], fs);
      EdgeTextsTerminated(edges[1..], fs);
      AllTerminatedConcat([EdgeText(edges[0], fs)], EdgeTexts(edges[1..], fs));
    }
  }

  /** The memo and separator lines are terminated lines. */
  lemma MemoLinesTerminated()
    ensures IsTerminatedLine(NodesMemoLine) && IsTerminatedLine(EdgesMemoLine) && IsTerminatedLine("\n")
  {
    assert forall i | 0 <= i < |NodesMemoLine| - 1 :: NodesMemoLine[i] != '\n';
    assert forall i | 0 <= i < |EdgesMemoLine| - 1 :: EdgesMemoLine[i] != '\n';
  }

  /** The header, memo and separator lines export writes are terminated lines. */
  lemma FixedLinesTerminated(nodeCount: int, edgeCount: int)
    ensures AllTerminated([NodesId + " " + FormatInt(nodeCount) + "\n", NodesMemoLine])
    ensures AllTerminated(["\n"] + [EdgesId + " " + FormatInt(edgeCount) + "\n", EdgesMemoLine])
  {
    IdsAreTokens();
    TwoWordLine(NodesId, FormatInt(nodeCount));
    TwoWordLine(EdgesId, FormatInt(edgeCount));
    MemoLinesTerminated();
  }

  /** Every string export writes is one terminated line, so a file holding them reads back line for line. */
  lemma ExportWritesLines(t: Topology, fs: FloatSyntax)
    requires Exportable(t.nodes, t.edges, fs)
    ensures forall k | 0 <= k < |Export(t, fs)| :: IsTerminatedLine(Export(t, fs)[k])
    ensures SplitLines(JoinLines(Export(t, fs))) == Export(t, fs)
  {
    var a := [NodesId + " " + FormatInt(|t.nodes|) + "\n", NodesMemoLine];
    var c := ["\n"] + [EdgesId + " " + FormatInt(|t.edges|) + "\n", EdgesMemoLine];
    var ns, es := NodeTexts(t.nodes, fs), EdgeTexts(t.edges, fs);
    FixedLinesTerminated(|t.nodes|, |t.edges|);
    NodeTextsTerminated(t.nodes, fs);
    EdgeTextsTerminated(t.edges, fs);
    AllTerminatedConcat(a, ns);
    AllTerminatedConcat(a + ns, c);
    AllTerminatedConcat(a + ns + c, es);
    assert Export(t, fs) == a + ns + c + es;
    SplitJoinLines(Export(t, fs));
  }

  /** The file export writes parses back to an equal topology. */
  lemma FileRoundTrip(t: Topology, path: string, fs: FloatSyntax)
    requires Exportable(t.nodes, t.edges, fs)
    ensures TopologyOf(SplitLines(JoinLines(Export(t, fs))), path, fs) == Ok(Topology(t.nodes, t.edges, path))
  {
    ExportWritesLines(t, fs);
    RoundTrip(t, path, fs);
  }
}
