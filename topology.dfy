/**
 * The topology file (`.graph`): its records, structural equality, the layout
 * `export` writes, and what `parse` makes of a sequence of physical lines,
 * stated as functions. The imperative parser in TopologyParser is proved to
 * compute exactly `TopologyOf`.
 *
 * Layout:
 *   NODES <count>
 *   label x y
 *   <label> <x> <y>                       one line per node
 *   (blank line)
 *   EDGES <count>
 *   label src dest weight bw delay
 *   <label> <src> <dest> <weight> <bw> <delay>   one line per edge, up to end of file
 */
module TopologyFormat {
  import opened Options
  import opened Text
  import opened Numbers
  import opened Errors
  import opened Files

  const NodesId: string := "NODES"
  const EdgesId: string := "EDGES"
  const NodesMemoLine: string := "label x y\n"
  const EdgesMemoLine: string := "label src dest weight bw delay\n"

  // The source's `label` field is `name` here: `label` is a reserved word in Dafny.
  datatype Node = Node(name: string, x: real, y: real)

  /** A directed edge between two node indices; the indices are not checked against the node list. */
  datatype Edge = Edge(name: string, src: int, dest: int, weight: real, bandwidth: real, delay: real)

  datatype Topology = Topology(nodes: seq<Node>, edges: seq<Edge>, sourceFile: string)

  /** `Topology.__eq__`: the same nodes and the same edges, in order; the source file does not matter. */
  predicate Equal(t: Topology, u: Topology) {
    t.nodes == u.nodes && t.edges == u.edges
  }

  /** `Topology.__ne__` */
  predicate NotEqual(t: Topology, u: Topology) {
    !Equal(t, u)
  }

  /**
   * One line of the node section that is not the blank separator: at index 1
   * the memo line, after it a node record of exactly three fields.
   */
  function NodeLine(line: string, idx: nat, path: string, fs: FloatSyntax): (r: Outcome<Option<Node>>)
    ensures r.Ok? ==> line != ""
    ensures r.Fail? ==> r.error.filePath == Some(path) && r.error.lineNum == Some(idx + 1)
  {
    if idx == 1 then
      if line != NodesMemoLine then Fail(ErrorAt("expected nodes memo line", path, idx + 1)) else Ok(None)
    else
    var fields := Split(line);
    if |fields| != 3 then
      Fail(ErrorAt("not all node fields present", path, idx + 1))
    else
      match (fs.parse(fields[1]), fs.parse(fields[2]))
      case (Some(x), Some(y)) => Ok(Some(Node(fields[0], x, y)))
      case _ => Crash(ValueError)
  }

  /**
   * The node section from 0-based line `idx` on: the nodes read, and the index
   * of the blank line "\n" that ends the section.
   */
  function NodesFrom(lines: seq<string>, idx: nat, path: string, fs: FloatSyntax): Outcome<(seq<Node>, nat)>
    decreases |lines| - idx
  {
    var line := LineAt(lines, idx);
    if line == "\n" then Ok(([], idx))
    else
      var node :- NodeLine(line, idx, path, fs);
      var rest :- NodesFrom(lines, idx + 1, path, fs);
      Ok((Elements(node) + rest.0, rest.1))
  }

  /** One non-empty line of the edge section: at index `start` the memo line, after it an edge record of six fields. */
  function EdgeLine(line: string, idx: nat, start: nat, path: string, fs: FloatSyntax): (r: Outcome<Option<Edge>>)
    ensures r.Fail? ==> r.error.filePath == Some(path) && r.error.lineNum == Some(idx + 1)
  {
    if idx == start then
      if line != EdgesMemoLine then Fail(ErrorAt("expected edges memo line", path, idx + 1)) else Ok(None)
    else
    var fields := Split(line);
    if |fields| != 6 then
      Fail(ErrorAt("not all edge fields present", path, idx + 1))
    else
      match (ParseInt(fields[1]), ParseInt(fields[2]), fs.parse(fields[3]), fs.parse(fields[4]), fs.parse(fields[5]))
      case (Some(src), Some(dest), Some(weight), Some(bw), Some(delay)) =>
        Ok(Some(Edge(fields[0], src, dest, weight, bw, delay)))
      case _ => Crash(ValueError)
  }

  /** The edge section from 0-based line `idx` on, up to the end of file; its memo line is at `start`. */
  function EdgesFrom(lines: seq<string>, idx: nat, start: nat, path: string, fs: FloatSyntax): Outcome<seq<Edge>>
    decreases |lines| - idx
  {
    var line := LineAt(lines, idx);
    if line == "" then Ok([])
    else
      var edge :- EdgeLine(line, idx, start, path, fs);
      var rest :- EdgesFrom(lines, idx + 1, start, path, fs);
      Ok(Elements(edge) + rest)
  }

  /** `ns` in front of the nodes of a successful section outcome; an error outcome is left as it is. */
  ghost function PrependNodes(ns: seq<Node>, o: Outcome<(seq<Node>, nat)>): Outcome<(seq<Node>, nat)> {
    if o.Ok? then Ok((ns + o.value.0, o.value.1)) else o
  }

  /** `es` in front of the edges of a successful section outcome. */
  ghost function PrependEdges(es: seq<Edge>, o: Outcome<seq<Edge>>): Outcome<seq<Edge>> {
    if o.Ok? then Ok(es + o.value) else o
  }

  lemma PrependNodesAssoc(a: seq<Node>, b: seq<Node>, o: Outcome<(seq<Node>, nat)>)
    ensures PrependNodes(a, PrependNodes(b, o)) == PrependNodes(a + b, o)
    ensures PrependNodes([], o) == o
  {
    if o.Ok? {
      assert a + (b + o.value.0) == (a + b) + o.value.0;
      assert [] + o.value.0 == o.value.0;
    }
  }

  lemma PrependEdgesAssoc(a: seq<Edge>, b: seq<Edge>, o: Outcome<seq<Edge>>)
    ensures PrependEdges(a, PrependEdges(b, o)) == PrependEdges(a + b, o)
    ensures PrependEdges([], o) == o
  {
    if o.Ok? {
      assert a + (b + o.value) == (a + b) + o.value;
      assert [] + o.value == o.value;
    }
  }

  /** One step of the node section: the verdict on a line that is not the separator, then the rest. */
  lemma NodesStep(lines: seq<string>, idx: nat, path: string, fs: FloatSyntax)
    requires LineAt(lines, idx) != "\n"
    ensures var v := NodeLine(LineAt(lines, idx), idx, path, fs);
            NodesFrom(lines, idx, path, fs)
            == if v.Ok? then PrependNodes(Elements(v.value), NodesFrom(lines, idx + 1, path, fs)) else v.PropagateFailure()
  {
  }

  /** One step of the edge section. */
  lemma EdgesStep(lines: seq<string>, idx: nat, start: nat, path: string, fs: FloatSyntax)
    requires LineAt(lines, idx) != ""
    ensures var v := EdgeLine(LineAt(lines, idx), idx, start, path, fs);
            EdgesFrom(lines, idx, start, path, fs)
            == if v.Ok? then PrependEdges(Elements(v.value), EdgesFrom(lines, idx + 1, start, path, fs)) else v.PropagateFailure()
  {
  }

  /** `topology.parse` on a file whose physical lines are `lines`. */
  function TopologyOf(lines: seq<string>, path: string, fs: FloatSyntax): Outcome<Topology> {
    var header := Split(LineAt(lines, 0));
    if header == [] then Crash(IndexError)
    else if header[0] != NodesId then Fail(ErrorAt("expected nodes header line", path, 1))
    else
      var nodes :- NodesFrom(lines, 1, path, fs);
      var blank := nodes.1;
      var edgesHeader := Split(LineAt(lines, blank + 1));
      if edgesHeader == [] then Crash(IndexError)
      // the source reports `cur_line_idx + 1`, and `cur_line_idx` is still 1 here
      else if edgesHeader[0] != EdgesId then Fail(ErrorAt("expected edges header line", path, 2))
      else
        var edges :- EdgesFrom(lines, blank + 2, blank + 2, path, fs);
        Ok(Topology(nodes.0, edges, path))
  }

  /** A node record as `export` writes it: its fields separated by single spaces, then "\n". */
  function NodeText(n: Node, fs: FloatSyntax): string {
    Unwords([n.name, fs.format(n.x), fs.format(n.y)]) + "\n"
  }

  /** An edge record as `export` writes it. */
  function EdgeText(e: Edge, fs: FloatSyntax): string {
    Unwords([e.name, FormatInt(e.src), FormatInt(e.dest), fs.format(e.weight), fs.format(e.bandwidth), fs.format(e.delay)]) + "\n"
  }

  /** The node lines export writes, one per node, in order. */
  function NodeTexts(nodes: seq<Node>, fs: FloatSyntax): (r: seq<string>)
    ensures |r| == |nodes|
  {
    if nodes == [] then [] else [NodeText(nodes[0], fs)] + NodeTexts(nodes[1..], fs)
  }

  /** The edge lines export writes, one per edge, in order. */
  function EdgeTexts(edges: seq<Edge>, fs: FloatSyntax): (r: seq<string>)
    ensures |r| == |edges|
  {
    if edges == [] then [] else [EdgeText(edges[0], fs)] + EdgeTexts(edges[1..], fs)
  }

  /** The export layout with the given counts written in the two header lines. */
  function Layout(nodes: seq<Node>, edges: seq<Edge>, nodeCount: int, edgeCount: int, fs: FloatSyntax): seq<string> {
    [NodesId + " " + FormatInt(nodeCount) + "\n", NodesMemoLine]
    + NodeTexts(nodes, fs)
    + ["\n"]
    + [EdgesId + " " + FormatInt(edgeCount) + "\n", EdgesMemoLine]
    + EdgeTexts(edges, fs)
  }

  /** `Topology.export`: the strings written, in order; each is one line of the file. */
  function Export(t: Topology, fs: FloatSyntax): seq<string> {
    Layout(t.nodes, t.edges, |t.nodes|, |t.edges|, fs)
  }
}
