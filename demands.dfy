/**
 * The demands file format: a header line `DEMANDS <count>`, the memo line
 * `label src dest bw`, then one demand per line up to the end of the file.
 * `demands.parse` is specified line by line over the physical lines that
 * `readlines` returns; `Demands.export` is the list of strings it writes.
 */
module DemandsFormat {
  import opened Options
  import opened Text
  import opened Numbers
  import opened Errors

  const DemandsId := "DEMANDS"
  const DemandsMemoLine := "label src dest bw\n"

  /** A traffic demand of `bandwidth` from node index `src` to node index `dest`. */
  datatype Demand = Demand(name: string, src: int, dest: int, bandwidth: real)

  /** The demands in file order, and the file they were read from. */
  datatype Demands = Demands(list: seq<Demand>, sourceFile: string)

  /** `Demands.__eq__`: only the demand lists are compared, never the source files. */
  predicate Equal(d: Demands, e: Demands) {
    d.list == e.list
  }

  /** `Demands.__ne__`. */
  predicate NotEqual(d: Demands, e: Demands) {
    !(d.list == e.list)
  }

  /**
   * The verdict on physical line `idx` (0-based): at index 0 the header line of
   * exactly two fields, the first `DEMANDS`; at index 1 the memo line; after
   * them a demand record of exactly four fields.
   */
  function DemandLine(line: string, idx: nat, path: string, fs: FloatSyntax): (r: Outcome<Option<Demand>>)
    ensures r.Fail? ==> r.error.filePath == Some(path) && r.error.lineNum == Some(idx + 1)
    ensures r.Ok? ==> (r.value.Some? <==> idx >= 2)
  {
    if idx == 0 then
      var fields := Split(line);
      if |fields| != 2 || fields[0] != DemandsId then Fail(ErrorAt("expected demands header line", path, idx + 1))
      else Ok(None)
    else if idx == 1 then
      if line != DemandsMemoLine then Fail(ErrorAt("expected demands memo line", path, idx + 1)) else Ok(None)
    else
      var fields := Split(line);
      if |fields| != 4 then
        Fail(ErrorAt("not all demand fields present", path, idx + 1))
      else
        match (ParseInt(fields[1]), ParseInt(fields[2]), fs.parse(fields[3]))
        case (Some(src), Some(dest), Some(bw)) => Ok(Some(Demand(fields[0], src, dest, bw)))
        case _ => Crash(ValueError)
  }

  /** Lines `idx` .. to the end of the file: the demands they hold, or the verdict of the first line that fails. */
  function DemandsFrom(lines: seq<string>, idx: nat, path: string, fs: FloatSyntax): Outcome<seq<Demand>>
    decreases |lines| - idx
  {
    if idx >= |lines| then Ok([])
    else
      var d :- DemandLine(lines[idx], idx, path, fs);
      var rest :- DemandsFrom(lines, idx + 1, path, fs);
      Ok(Elements(d) + rest)
  }

  /** `ds` in front of the demands of a successful outcome; an error outcome is left as it is. */
  ghost function PrependDemands(ds: seq<Demand>, o: Outcome<seq<Demand>>): Outcome<seq<Demand>> {
    if o.Ok? then Ok(ds + o.value) else o
  }

  lemma PrependDemandsAssoc(a: seq<Demand>, b: seq<Demand>, o: Outcome<seq<Demand>>)
    ensures PrependDemands(a, PrependDemands(b, o)) == PrependDemands(a + b, o)
    ensures PrependDemands([], o) == o
  {
    if o.Ok? {
      assert a + (b + o.value) == (a + b) + o.value;
      assert [] + o.value == o.value;
    }
  }

  /** One step: the verdict on line `idx`, then the rest of the file. */
  lemma DemandsStep(lines: seq<string>, idx: nat, path: string, fs: FloatSyntax)
    requires idx < |lines|
    ensures var v := DemandLine(lines[idx], idx, path, fs);
            DemandsFrom(lines, idx, path, fs)
            == if v.Ok? then PrependDemands(Elements(v.value), DemandsFrom(lines, idx + 1, path, fs)) else v.PropagateFailure()
  {
  }

  /** `demands.parse` on a file whose physical lines are `lines`. */
  function DemandsOf(lines: seq<string>, path: string, fs: FloatSyntax): Outcome<Demands> {
    var list :- DemandsFrom(lines, 0, path, fs);
    Ok(Demands(list, path))
  }

  /** A demand record as `export` writes it: its fields separated by single spaces, then "\n". */
  function DemandText(d: Demand, fs: FloatSyntax): string {
    Unwords([d.name, FormatInt(d.src), FormatInt(d.dest), fs.format(d.bandwidth)]) + "\n"
  }

  /** The demand lines export writes, one per demand, in order. */
  function DemandTexts(list: seq<Demand>, fs: FloatSyntax): (r: seq<string>)
    ensures |r| == |list|
  {
    if list == [] then [] else [DemandText(list[0], fs)] + DemandTexts(list[1..], fs)
  }

  /** `Demands.export`: the header line with the number of demands, the memo line, then the demand lines. */
  function Export(d: Demands, fs: FloatSyntax): seq<string> {
    [DemandsId + " " + FormatInt(|d.list|) + "\n", DemandsMemoLine] + DemandTexts(d.list, fs)
  }
}
