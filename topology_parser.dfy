/**
 * `topology.parse` as the source runs it: `readline` calls on an open file, a
 * `_ParserState` whose `line_idx` cursor advances line by line, and node and
 * edge lists that grow by appending. Each method is proved to compute the
 * corresponding function of TopologyFormat.
 */
module TopologyParser {
  import opened Options
  import opened Text
  import opened Numbers
  import opened Errors
  import opened TopologyFormat
  import opened Files

  /** `_ParserState`: the open file, its path, and the 0-based index of the line being examined. */
  class ParserState {
    const stream: LineReader
    const filePath: string
    var lineIdx: nat

    constructor (stream: LineReader, filePath: string, lineIdx: nat)
      ensures this.stream == stream && this.filePath == filePath && this.lineIdx == lineIdx
    {
      this.stream := stream;
      this.filePath := filePath;
      this.lineIdx := lineIdx;
    }

    /** `line_num`: the 1-based physical line number of the line being examined. */
    function LineNum(): int
      reads this
    {
      lineIdx + 1
    }

    /** The cursor and the file agree: the next `readline` returns line `lineIdx`. */
    ghost predicate Synced()
      reads this, stream
    {
      stream.pos == lineIdx
    }
  }

  /** The nodes that lines `start` .. `idx - 1` yield, if none of them is the separator and none fails. */
  ghost function NodesRead(lines: seq<string>, start: nat, idx: nat, path: string, fs: FloatSyntax): Option<seq<Node>>
    requires start <= idx
    decreases idx
  {
    if idx == start then Some([])
    else match NodesRead(lines, start, idx - 1, path, fs)
      case None => None
      case Some(ns) =>
        var line := LineAt(lines, idx - 1);
        var v := NodeLine(line, idx - 1, path, fs);
        if line == "\n" || !v.Ok? then None else Some(ns + Elements(v.value))
  }

  /** What has been read is a prefix of the node section: the section from `start` is `nodes` followed by the section from `idx`. */
  lemma {:induction false} NodesReadPrefix(lines: seq<string>, start: nat, idx: nat, nodes: seq<Node>, path: string, fs: FloatSyntax)
    requires start <= idx && NodesRead(lines, start, idx, path, fs) == Some(nodes)
    ensures NodesFrom(lines, start, path, fs) == PrependNodes(nodes, NodesFrom(lines, idx, path, fs))
    decreases idx
  {
    if idx == start {
      PrependNodesAssoc([], [], NodesFrom(lines, idx, path, fs));
    } else {
      var prev := NodesRead(lines, start, idx - 1, path, fs);
      assert prev.Some?;
      var ns := prev.value;
      var v := NodeLine(LineAt(lines, idx - 1), idx - 1, path, fs);
      assert LineAt(lines, idx - 1) != "\n" && v.Ok? && nodes == ns + Elements(v.value);
      NodesReadPrefix(lines, start, idx - 1, ns, path, fs);
      NodesStep(lines, idx - 1, path, fs);
      PrependNodesAssoc(ns, Elements(v.value), NodesFrom(lines, idx, path, fs));
    }
  }

  /** A line with a good verdict extends what has been read. */
  lemma NodesReadNext(lines: seq<string>, start: nat, idx: nat, nodes: seq<Node>, path: string, fs: FloatSyntax,
                      v: Outcome<Option<Node>>)
    requires start <= idx && NodesRead(lines, start, idx, path, fs) == Some(nodes)
    requires LineAt(lines, idx) != "\n" && v == NodeLine(LineAt(lines, idx), idx, path, fs) && v.Ok?
    ensures NodesRead(lines, start, idx + 1, path, fs) == Some(nodes + Elements(v.value))
  {
  }

  /** A line whose verdict is an error is the outcome of the whole node section. */
  lemma NodesFailure(lines: seq<string>, start: nat, idx: nat, nodes: seq<Node>, path: string, fs: FloatSyntax)
    requires start <= idx && NodesRead(lines, start, idx, path, fs) == Some(nodes)
    requires LineAt(lines, idx) != "\n" && !NodeLine(LineAt(lines, idx), idx, path, fs).Ok?
    ensures NodesFrom(lines, start, path, fs) == NodeLine(LineAt(lines, idx), idx, path, fs).PropagateFailure()
  {
    NodesReadPrefix(lines, start, idx, nodes, path, fs);
  }

  /** The blank separator closes the node section with the nodes read. */
  lemma NodesDone(lines: seq<string>, start: nat, idx: nat, nodes: seq<Node>, path: string, fs: FloatSyntax)
    requires start <= idx && NodesRead(lines, start, idx, path, fs) == Some(nodes) && LineAt(lines, idx) == "\n"
    ensures NodesFrom(lines, start, path, fs) == Ok((nodes, idx))
  {
    NodesReadPrefix(lines, start, idx, nodes, path, fs);
    assert nodes + [] == nodes;
  }

  /** The edges that lines `start` .. `idx - 1` yield, if none of them is empty and none fails. */
  ghost function EdgesRead(lines: seq<string>, start: nat, idx: nat, path: string, fs: FloatSyntax): Option<seq<Edge>>
    requires start <= idx
    decreases idx
  {
    if idx == start then Some([])
    else match EdgesRead(lines, start, idx - 1, path, fs)
      case None => None
      case Some(es) =>
        var line := LineAt(lines, idx - 1);
        var v := EdgeLine(line, idx - 1, start, path, fs);
        if line == "" || !v.Ok? then None else Some(es + Elements(v.value))
  }

  /** What has been read is a prefix of the edge section. */
  lemma {:induction false} EdgesReadPrefix(lines: seq<string>, start: nat, idx: nat, edges: seq<Edge>, path: string, fs: FloatSyntax)
    requires start <= idx && EdgesRead(lines, start, idx, path, fs) == Some(edges)
    ensures EdgesFrom(lines, start, start, path, fs) == PrependEdges(edges, EdgesFrom(lines, idx, start, path, fs))
    decreases idx
  {
    if idx == start {
      PrependEdgesAssoc([], [], EdgesFrom(lines, idx, start, path, fs));
    } else {
      var prev := EdgesRead(lines, start, idx - 1, path, fs);
      assert prev.Some?;
      var es := prev.value;
      var v := EdgeLine(LineAt(lines, idx - 1), idx - 1, start, path, fs);
      assert LineAt(lines, idx - 1) != "" && v.Ok? && edges == es + Elements(v.value);
      EdgesReadPrefix(lines, start, idx - 1, es, path, fs);
      EdgesStep(lines, idx - 1, start, path, fs);
      PrependEdgesAssoc(es, Elements(v.value), EdgesFrom(lines, idx, start, path, fs));
    }
  }

  lemma EdgesReadNext(lines: seq<string>, start: nat, idx: nat, edges: seq<Edge>, path: string, fs: FloatSyntax,
                      v: Outcome<Option<Edge>>)
    requires start <= idx && EdgesRead(lines, start, idx, path, fs) == Some(edges)
    requires LineAt(lines, idx) != "" && v == EdgeLine(LineAt(lines, idx), idx, start, path, fs) && v.Ok?
    ensures EdgesRead(lines, start, idx + 1, path, fs) == Some(edges + Elements(v.value))
  {
  }

  lemma EdgesFailure(lines: seq<string>, start: nat, idx: nat, edges: seq<Edge>, path: string, fs: FloatSyntax)
    requires start <= idx && EdgesRead(lines, start, idx, path, fs) == Some(edges)
    requires LineAt(lines, idx) != "" && !EdgeLine(LineAt(lines, idx), idx, start, path, fs).Ok?
    ensures EdgesFrom(lines, start, start, path, fs) == EdgeLine(LineAt(lines, idx), idx, start, path, fs).PropagateFailure()
  {
    EdgesReadPrefix(lines, start, idx, edges, path, fs);
  }

  /** End of file closes the edge section with the edges read. */
  lemma EdgesDone(lines: seq<string>, start: nat, idx: nat, edges: seq<Edge>, path: string, fs: FloatSyntax)
    requires start <= idx && EdgesRead(lines, start, idx, path, fs) == Some(edges) && LineAt(lines, idx) == ""
    ensures EdgesFrom(lines, start, start, path, fs) == Ok(edges)
  {
    EdgesReadPrefix(lines, start, idx, edges, path, fs);
    assert edges + [] == edges;
  }

  /** The body of `_parse_nodes`' loop for one line: the memo check at index 1, or the record's three fields. */
  // It restates `NodeLine` as statements, so that the loop's proof needs only this method's contract.
  method ParseNodeLine(line: string, state: ParserState, fs: FloatSyntax) returns (r: Outcome<Option<Node>>)
    ensures r == NodeLine(line, state.lineIdx, state.filePath, fs)
  {
    if state.lineIdx == 1 {
      if line != NodesMemoLine {
        return Fail(ErrorAt("expected nodes memo line", state.filePath, state.LineNum()));
      }
      return Ok(None);
    }
    var fields := Split(line);
    if |fields| != 3 {
      return Fail(ErrorAt("not all node fields present", state.filePath, state.LineNum()));
    }
    var x := fs.parse(fields[1]);
    var y := fs.parse(fields[2]);
    if x.None? || y.None? {
      return Crash(ValueError);
    }
    return Ok(Some(Node(fields[0], x.value, y.value)));
  }

  /**
   * `_parse_nodes`: reads lines up to the blank separator. On success the
   * cursor has moved past the separator.
   */
  method ParseNodes(state: ParserState, fs: FloatSyntax) returns (r: Outcome<seq<Node>>)
    requires state.Synced() && state.lineIdx >= 1
    modifies state, state.stream
    ensures var spec := NodesFrom(state.stream.lines, old(state.lineIdx), state.filePath, fs);
            && (spec.Ok? ==> r == Ok(spec.value.0) && state.lineIdx == spec.value.1 + 1 && state.Synced())
            && (!spec.Ok? ==> r == spec.PropagateFailure())
  {
    var reader, path := state.stream, state.filePath;
    ghost var lines, start := reader.lines, state.lineIdx;
    var nodes: seq<Node> := [];
    var line := reader.ReadLine();
    while line != "\n"
      invariant start <= state.lineIdx && reader.pos == state.lineIdx + 1
      invariant line == LineAt(lines, state.lineIdx)
      invariant NodesRead(lines, start, state.lineIdx, path, fs) == Some(nodes)
      decreases |lines| - state.lineIdx
    {
      var idx := state.lineIdx;
      var verdict := ParseNodeLine(line, state, fs);
      if !verdict.Ok? {
        NodesFailure(lines, start, idx, nodes, path, fs);
        return verdict.PropagateFailure();
      }
      NodesReadNext(lines, start, idx, nodes, path, fs, verdict);
      nodes := nodes + Elements(verdict.value);
      state.lineIdx := idx + 1;
      line := reader.ReadLine();
    }
    NodesDone(lines, start, state.lineIdx, nodes, path, fs);
    state.lineIdx := state.lineIdx + 1;
    r := Ok(nodes);
  }

  /** The body of `_parse_edges`' loop for one line: the memo check at the first index, or the record's six fields. */
  // It restates `EdgeLine` as statements, so that the loop's proof needs only this method's contract.
  method ParseEdgeLine(line: string, state: ParserState, startLineIdx: nat, fs: FloatSyntax)
    returns (r: Outcome<Option<Edge>>)
    ensures r == EdgeLine(line, state.lineIdx, startLineIdx, state.filePath, fs)
  {
    if state.lineIdx == startLineIdx {
      if line != EdgesMemoLine {
        return Fail(ErrorAt("expected edges memo line", state.filePath, state.LineNum()));
      }
      return Ok(None);
    }
    var fields := Split(line);
    if |fields| != 6 {
      return Fail(ErrorAt("not all edge fields present", state.filePath, state.LineNum()));
    }
    var src := ParseInt(fields[1]);
    var dest := ParseInt(fields[2]);
    var weight := fs.parse(fields[3]);
    var bw := fs.parse(fields[4]);
    var delay := fs.parse(fields[5]);
    if src.None? || dest.None? || weight.None? || bw.None? || delay.None? {
      return Crash(ValueError);
    }
    return Ok(Some(Edge(fields[0], src.value, dest.value, weight.value, bw.value, delay.value)));
  }

  /** `_parse_edges`: the memo line at the starting cursor, then edge records up to the end of file. */
  method ParseEdges(state: ParserState, fs: FloatSyntax) returns (r: Outcome<seq<Edge>>)
    requires state.Synced()
    modifies state, state.stream
    ensures r == EdgesFrom(state.stream.lines, old(state.lineIdx), old(state.lineIdx), state.filePath, fs)
  {
    var reader, path := state.stream, state.filePath;
    ghost var lines := reader.lines;
    var edges: seq<Edge> := [];
    var startLineIdx := state.lineIdx;
    var line := reader.ReadLine();
    while line != ""
      invariant startLineIdx <= state.lineIdx && reader.pos == state.lineIdx + 1
      invariant line == LineAt(lines, state.lineIdx)
      invariant EdgesRead(lines, startLineIdx, state.lineIdx, path, fs) == Some(edges)
      decreases |lines| - state.lineIdx
    {
      var idx := state.lineIdx;
      var verdict := ParseEdgeLine(line, state, startLineIdx, fs);
      if !verdict.Ok? {
        EdgesFailure(lines, startLineIdx, idx, edges, path, fs);
        return verdict.PropagateFailure();
      }
      EdgesReadNext(lines, startLineIdx, idx, edges, path, fs, verdict);
      edges := edges + Elements(verdict.value);
      state.lineIdx := idx + 1;
      line := reader.ReadLine();
    }
    EdgesDone(lines, startLineIdx, state.lineIdx, edges, path, fs);
    state.lineIdx := state.lineIdx + 1;
    r := Ok(edges);
  }

  /** `topology.parse`: the header line, the node section, the edges header line, the edge section. */
  method Parse(lines: seq<string>, filePath: string, fs: FloatSyntax) returns (r: Outcome<Topology>)
    ensures r == TopologyOf(lines, filePath, fs)
  {
    var f := new LineReader(lines);
    var curLineIdx := 0;
    var line := f.ReadLine();
    var fields := Split(line);
    if |fields| == 0 {
      return Crash(IndexError);  // `fields[0]` on an empty list
    }
    if fields[0] != NodesId {
      return Fail(ErrorAt("expected nodes header line", filePath, curLineIdx + 1));
    }
    curLineIdx := curLineIdx + 1;
    var state := new ParserState(f, filePath, curLineIdx);
    var nodes := ParseNodes(state, fs);
    if !nodes.Ok? {
      return nodes.PropagateFailure();
    }
    line := f.ReadLine();
    state.lineIdx := state.lineIdx + 1;
    fields := Split(line);
    if |fields| == 0 {
      return Crash(IndexError);
    }
    if fields[0] != EdgesId {
      return Fail(ErrorAt("expected edges header line", filePath, curLineIdx + 1));
    }
    var edges := ParseEdges(state, fs);
    if !edges.Ok? {
      return edges.PropagateFailure();
    }
    return Ok(Topology(nodes.value, edges.value, filePath));
  }
}
