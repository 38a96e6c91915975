/**
 * `demands.parse` as the source runs it: one `readlines` call, then a loop
 * over the numbered lines that appends each demand to a growing list. The
 * method is proved to compute `DemandsFormat.DemandsOf`.
 */
module DemandsParser {
  import opened Options
  import opened Text
  import opened Numbers
  import opened Errors
  import opened Files
  import opened DemandsFormat

  /** The demands that lines 0 .. `idx - 1` yield, if none of them fails. */
  ghost function DemandsRead(lines: seq<string>, idx: nat, path: string, fs: FloatSyntax): Option<seq<Demand>>
    requires idx <= |lines|
    decreases idx
  {
    if idx == 0 then Some([])
    else match DemandsRead(lines, idx - 1, path, fs)
      case None => None
      case Some(ds) =>
        var v := DemandLine(lines[idx - 1], idx - 1, path, fs);
        if !v.Ok? then None else Some(ds + Elements(v.value))
  }

  /** What has been read is a prefix of the file's demands: they are `ds` followed by the demands from line `idx` on. */
  lemma {:induction false} DemandsReadPrefix(lines: seq<string>, idx: nat, ds: seq<Demand>, path: string, fs: FloatSyntax)
    requires idx <= |lines| && DemandsRead(lines, idx, path, fs) == Some(ds)
    ensures DemandsFrom(lines, 0, path, fs) == PrependDemands(ds, DemandsFrom(lines, idx, path, fs))
    decreases idx
  {
    if idx == 0 {
      PrependDemandsAssoc([], [], DemandsFrom(lines, idx, path, fs));
    } else {
      var prev := DemandsRead(lines, idx - 1, path, fs);
      assert prev.Some?;
      var before := prev.value;
      var v := DemandLine(lines[idx - 1], idx - 1, path, fs);
      assert v.Ok? && ds == before + Elements(v.value);
      DemandsReadPrefix(lines, idx - 1, before, path, fs);
      DemandsStep(lines, idx - 1, path, fs);
      PrependDemandsAssoc(before, Elements(v.value), DemandsFrom(lines, idx, path, fs));
    }
  }

  /** A line with a good verdict extends what has been read. */
  lemma DemandsReadNext(lines: seq<string>, idx: nat, ds: seq<Demand>, path: string, fs: FloatSyntax, v: Outcome<Option<Demand>>)
    requires idx < |lines| && DemandsRead(lines, idx, path, fs) == Some(ds)
    requires v == DemandLine(lines[idx], idx, path, fs) && v.Ok?
    ensures DemandsRead(lines, idx + 1, path, fs) == Some(ds + Elements(v.value))
  {
  }

  /** A line whose verdict is an error is the outcome of the whole file. */
  lemma DemandsFailure(lines: seq<string>, idx: nat, ds: seq<Demand>, path: string, fs: FloatSyntax)
    requires idx < |lines| && DemandsRead(lines, idx, path, fs) == Some(ds)
    requires !DemandLine(lines[idx], idx, path, fs).Ok?
    ensures DemandsFrom(lines, 0, path, fs) == DemandLine(lines[idx], idx, path, fs).PropagateFailure()
  {
    DemandsReadPrefix(lines, idx, ds, path, fs);
  }

  /** Once every line is read, the demands read are the file's demands. */
  lemma DemandsDone(lines: seq<string>, ds: seq<Demand>, path: string, fs: FloatSyntax)
    requires DemandsRead(lines, |lines|, path, fs) == Some(ds)
    ensures DemandsFrom(lines, 0, path, fs) == Ok(ds)
  {
    DemandsReadPrefix(lines, |lines|, ds, path, fs);
    assert ds + [] == ds;
  }

  /** The body of the parse loop for one line: the header check, the memo check, or the record's four fields. */
  // It restates `DemandLine` as statements, so that the loop's proof needs only this method's contract.
  method ParseDemandLine(line: string, lineIdx: nat, filePath: string, fs: FloatSyntax) returns (r: Outcome<Option<Demand>>)
    ensures r == DemandLine(line, lineIdx, filePath, fs)
  {
    var fields := Split(line);
    if lineIdx == 0 {
      if |fields| != 2 || fields[0] != DemandsId {
        return Fail(ErrorAt("expected demands header line", filePath, lineIdx + 1));
      }
      return Ok(None);
    } else if lineIdx == 1 {
      if line != DemandsMemoLine {
        return Fail(ErrorAt("expected demands memo line", filePath, lineIdx + 1));
      }
      return Ok(None);
    }
    if |fields| != 4 {
      return Fail(ErrorAt("not all demand fields present", filePath, lineIdx + 1));
    }
    var src := ParseInt(fields[1]);
    var dest := ParseInt(fields[2]);
    var bw := fs.parse(fields[3]);
    if src.None? || dest.None? || bw.None? {
      return Crash(ValueError);
    }
    return Ok(Some(Demand(fields[0], src.value, dest.value, bw.value)));
  }

  /** `demands.parse`: every line of the file in turn; the first one that fails ends the parse. */
  method Parse(lines: seq<string>, filePath: string, fs: FloatSyntax) returns (r: Outcome<Demands>)
    ensures r == DemandsOf(lines, filePath, fs)
  {
    var f := new LineReader(lines);
    var all := f.ReadLines();
    assert all == lines;
    var demands: seq<Demand> := [];
    for lineIdx := 0 to |all|
      invariant DemandsRead(lines, lineIdx, filePath, fs) == Some(demands)
    {
      var verdict := ParseDemandLine(all[lineIdx], lineIdx, filePath, fs);
      if !verdict.Ok? {
        DemandsFailure(lines, lineIdx, demands, filePath, fs);
        return verdict.PropagateFailure();
      }
      DemandsReadNext(lines, lineIdx, demands, filePath, fs, verdict);
      demands := demands + Elements(verdict.value);
    }
    DemandsDone(lines, demands, filePath, fs);
    return Ok(Demands(demands, filePath));
  }
}
