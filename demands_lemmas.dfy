/**
 * What `demands.parse` and `Demands.export` promise, stated over the
 * functions of DemandsFormat (and so, through the contract of
 * DemandsParser.Parse, about the parser itself): which line an error is
 * reported at, which physical lines become demands, and that parsing what
 * export writes gives back equal demands.
 */
module DemandsProperties {
  import opened Options
  import opened Text
  import opened Numbers
  import opened Errors
  import opened DemandsFormat

  /** The header line: exactly two fields, the first `DEMANDS`. */
  predicate HeaderOk(line: string) {
    var h := Split(line);
    |h| == 2 && h[0] == DemandsId
  }

  /** The first line from `idx` on whose verdict is not a success, or `|lines|` if there is none. */
  ghost function FirstBad(lines: seq<string>, idx: nat, path: string, fs: FloatSyntax): (k: nat)
    ensures idx <= |lines| ==> idx <= k <= |lines|
    decreases |lines| - idx
  {
    if idx >= |lines| then |lines|
    else if !DemandLine(lines[idx], idx, path, fs).Ok? then idx
    else FirstBad(lines, idx + 1, path, fs)
  }

  // ---------------------------------------------------------------- where errors are reported

  /** Every line before `FirstBad` has a good verdict. */
  lemma {:induction false} FirstBadIsFirst(lines: seq<string>, idx: nat, path: string, fs: FloatSyntax)
    requires idx <= |lines|
    ensures var k := FirstBad(lines, idx, path, fs);
            forall m | idx <= m < k :: DemandLine(lines[m], m, path, fs).Ok?
    decreases |lines| - idx
  {
    if idx < |lines| && DemandLine(lines[idx], idx, path, fs).Ok? {
      FirstBadIsFirst(lines, idx + 1, path, fs);
    }
  }

  /** The line at `FirstBad`, if there is one, has a bad verdict. */
  lemma {:induction false} FirstBadFails(lines: seq<string>, idx: nat, path: string, fs: FloatSyntax)
    requires idx <= |lines|
    ensures var k := FirstBad(lines, idx, path, fs);
            k < |lines| ==> !DemandLine(lines[k], k, path, fs).Ok?
    decreases |lines| - idx
  {
    if idx < |lines| && DemandLine(lines[idx], idx, path, fs).Ok? {
      FirstBadFails(lines, idx + 1, path, fs);
      assert FirstBad(lines, idx, path, fs) == FirstBad(lines, idx + 1, path, fs);
    }
  }

  /** When no line from `idx` on fails, the parse from line `idx` succeeds. */
  lemma {:induction false} NoBadLineSucceeds(lines: seq<string>, idx: nat, path: string, fs: FloatSyntax)
    requires idx <= |lines| && FirstBad(lines, idx, path, fs) == |lines|
    ensures DemandsFrom(lines, idx, path, fs).Ok?
    decreases |lines| - idx
  {
    if idx < |lines| {
      var v := DemandLine(lines[idx], idx, path, fs);
      assert v.Ok? && FirstBad(lines, idx + 1, path, fs) == |lines|;
      NoBadLineSucceeds(lines, idx + 1, path, fs);
      DemandsStep(lines, idx, path, fs);
    }
  }

  /** When some line from `idx` on fails, the parse from line `idx` fails with the verdict of the first such line. */
  lemma {:induction false} FailsAtFirstBad(lines: seq<string>, idx: nat, path: string, fs: FloatSyntax)
    requires idx <= |lines|
    ensures var k := FirstBad(lines, idx, path, fs);
            k < |lines| && !DemandLine(lines[k], k, path, fs).Ok? ==>
              DemandsFrom(lines, idx, path, fs) == DemandLine(lines[k], k, path, fs).PropagateFailure()
    decreases |lines| - idx
  {
    if idx < |lines| {
      var v := DemandLine(lines[idx], idx, path, fs);
      DemandsStep(lines, idx, path, fs);
      if v.Ok? {
        FailsAtFirstBad(lines, idx + 1, path, fs);
        assert FirstBad(lines, idx, path, fs) == FirstBad(lines, idx + 1, path, fs);
      } else {
        assert FirstBad(lines, idx, path, fs) == idx;
      }
    }
  }

  /** `demands.parse` fails exactly when some line fails, with the verdict of the first failing line. */
  lemma ParseFailsAtFirstBadLine(lines: seq<string>, path: string, fs: FloatSyntax)
    ensures var k := FirstBad(lines, 0, path, fs);
            && (DemandsOf(lines, path, fs).Ok? <==> k == |lines|)
            && (k < |lines| ==> !DemandLine(lines[k], k, path, fs).Ok?
                                && DemandsOf(lines, path, fs) == DemandLine(lines[k], k, path, fs).PropagateFailure())
            && (forall m | 0 <= m < k :: DemandLine(lines[m], m, path, fs).Ok?)
  {
    FirstBadIsFirst(lines, 0, path, fs);
    FirstBadFails(lines, 0, path, fs);
    FailsAtFirstBad(lines, 0, path, fs);
    if FirstBad(lines, 0, path, fs) == |lines| {
      NoBadLineSucceeds(lines, 0, path, fs);
    }
  }

  /** A bad header line, and only a bad header line, is reported at line 1. */
  lemma HeaderError(lines: seq<string>, path: string, fs: FloatSyntax)
    ensures (|lines| > 0 && !HeaderOk(lines[0]))
            <==> DemandsOf(lines, path, fs) == Fail(ErrorAt("expected demands header line", path, 1))
  {
    ParseFailsAtFirstBadLine(lines, path, fs);
  }

  /** After a good header, a wrong memo line, and only that, is reported at line 2. */
  lemma MemoError(lines: seq<string>, path: string, fs: FloatSyntax)
    requires |lines| >= 2 && HeaderOk(lines[0])
    ensures lines[1] != DemandsMemoLine
            <==> DemandsOf(lines, path, fs) == Fail(ErrorAt("expected demands memo line", path, 2))
  {
    ParseFailsAtFirstBadLine(lines, path, fs);
  }

  /** An empty file is not an error: it holds no demands. */
  lemma EmptyFile(path: string, fs: FloatSyntax)
    ensures DemandsOf([], path, fs) == Ok(Demands([], path))
  {
  }

  /** The memo line names the four demand fields, as the source asserts before parsing. */
  lemma MemoLineFields()
    ensures Split(DemandsMemoLine) == ["label", "src", "dest", "bw"]
  {
    var words := ["label", "src", "dest", "bw"];
    assert forall k | 0 <= k < |words| :: IsToken(words[k]) by {
      assert forall i | 0 <= i < |words[0]| :: !IsSpace(words[0][i]);
      assert forall i | 0 <= i < |words[1]| :: !IsSpace(words[1][i]);
      assert forall i | 0 <= i < |words[2]| :: !IsSpace(words[2][i]);
      assert forall i | 0 <= i < |words[3]| :: !IsSpace(words[3][i]);
    }
    assert Unwords(words) + "\n" == DemandsMemoLine;
    SplitUnwords(words);
  }

  // ---------------------------------------------------------------- which lines become demands

  /** Lines `idx`, `idx + 1`, ... each hold one demand record, the demands of `ds` in order. */
  ghost predicate DemandsAt(lines: seq<string>, idx: nat, ds: seq<Demand>, path: string, fs: FloatSyntax)
    decreases |ds|
  {
    ds == [] || (idx < |lines| && DemandLine(lines[idx], idx, path, fs) == Ok(Some(ds[0])) && DemandsAt(lines, idx + 1, ds[1..], path, fs))
  }

  /** Past the memo line every line is one demand, in file order. */
  lemma {:induction false} DemandRecords(lines: seq<string>, idx: nat, path: string, fs: FloatSyntax)
    requires idx >= 2 && DemandsFrom(lines, idx, path, fs).Ok?
    ensures DemandsAt(lines, idx, DemandsFrom(lines, idx, path, fs).value, path, fs)
    decreases |lines| - idx
  {
    if idx < |lines| {
      var v := DemandLine(lines[idx], idx, path, fs);
      DemandsStep(lines, idx, path, fs);
      assert v.Ok? && v.value.Some?;
      var rest := DemandsFrom(lines, idx + 1, path, fs);
      DemandRecords(lines, idx + 1, path, fs);
      var ds := [v.value.value] + rest.value;
      assert DemandsFrom(lines, idx, path, fs).value == ds;
      assert ds[1..] == rest.value;
    }
  }

  /** Past the memo line there are as many demands as lines, to the end of the file. */
  lemma {:induction false} DemandCount(lines: seq<string>, idx: nat, path: string, fs: FloatSyntax)
    requires idx >= 2 && DemandsFrom(lines, idx, path, fs).Ok?
    ensures |DemandsFrom(lines, idx, path, fs).value| == if idx <= |lines| then |lines| - idx else 0
    decreases |lines| - idx
  {
    if idx < |lines| {
      var v := DemandLine(lines[idx], idx, path, fs);
      DemandsStep(lines, idx, path, fs);
      assert v.Ok? && v.value.Some?;
      DemandCount(lines, idx + 1, path, fs);
    }
  }

  /** The same, one line at a time: demand `j` is what line `idx + j` holds. */
  lemma {:induction false} DemandsAtLine(lines: seq<string>, idx: nat, ds: seq<Demand>, j: nat, path: string, fs: FloatSyntax)
    requires DemandsAt(lines, idx, ds, path, fs) && j < |ds|
    ensures idx + j < |lines| && DemandLine(lines[idx + j], idx + j, path, fs) == Ok(Some(ds[j]))
    decreases j
  {
    assert idx < |lines| && DemandsAt(lines, idx + 1, ds[1..], path, fs);
    if j > 0 {
      DemandsAtLine(lines, idx + 1, ds[1..], j - 1, path, fs);
      assert ds[1..][j - 1] == ds[j] && idx + 1 + (j - 1) == idx + j;
    }
  }

  /** A successful parse: a good header, the memo line, and one demand record on each further line. */
  lemma ParsedDemands(lines: seq<string>, path: string, fs: FloatSyntax)
    requires DemandsOf(lines, path, fs).Ok?
    ensures var d := DemandsOf(lines, path, fs).value;
            && d.sourceFile == path
            && (|lines| > 0 ==> HeaderOk(lines[0]))
            && (|lines| > 1 ==> lines[1] == DemandsMemoLine)
            && |d.list| == (if |lines| >= 2 then |lines| - 2 else 0)
            && DemandsAt(lines, 2, d.list, path, fs)
  {
    if |lines| >= 2 {
      DemandsStep(lines, 0, path, fs);
      DemandsStep(lines, 1, path, fs);
      PrependDemandsAssoc([], [], DemandsFrom(lines, 2, path, fs));
      DemandRecords(lines, 2, path, fs);
      DemandCount(lines, 2, path, fs);
    } else if |lines| == 1 {
      DemandsStep(lines, 0, path, fs);
    }
  }

  /** Demand `j` of a successful parse is made of the four fields of line `j + 2`. */
  lemma DemandOnLine(lines: seq<string>, j: nat, path: string, fs: FloatSyntax)
    requires DemandsOf(lines, path, fs).Ok? && j < |DemandsOf(lines, path, fs).value.list|
    ensures j + 2 < |lines|
    ensures var d := DemandsOf(lines, path, fs).value.list[j];
            var f := Split(lines[j + 2]);
            && |f| == 4 && d.name == f[0] && ParseInt(f[1]) == Some(d.src) && ParseInt(f[2]) == Some(d.dest)
            && fs.parse(f[3]) == Some(d.bandwidth)
  {
    ParsedDemands(lines, path, fs);
    DemandsAtLine(lines, 2, DemandsOf(lines, path, fs).value.list, j, path, fs);
  }

  /** The converse of `DemandRecords`: demand records on every line from `idx` to the end of the file read back as those demands. */
  lemma {:induction false} DemandsAtRead(lines: seq<string>, idx: nat, ds: seq<Demand>, path: string, fs: FloatSyntax)
    requires DemandsAt(lines, idx, ds, path, fs) && |lines| == idx + |ds|
    ensures DemandsFrom(lines, idx, path, fs) == Ok(ds)
    decreases |ds|
  {
    if ds != [] {
      var v := DemandLine(lines[idx], idx, path, fs);
      assert v == Ok(Some(ds[0]));
      DemandsStep(lines, idx, path, fs);
      DemandsAtRead(lines, idx + 1, ds[1..], path, fs);
      assert Elements(v.value) == [ds[0]];
      assert DemandsFrom(lines, idx, path, fs) == PrependDemands([ds[0]], Ok(ds[1..]));
      assert [ds[0]] + ds[1..] == ds;
    }
  }

  /** A good header, the memo line, and demands read from line 2 on make a successful parse. */
  lemma DemandsOfSections(lines: seq<string>, ds: seq<Demand>, path: string, fs: FloatSyntax)
    requires |lines| >= 2 && HeaderOk(lines[0]) && lines[1] == DemandsMemoLine
    requires DemandsFrom(lines, 2, path, fs) == Ok(ds)
    ensures DemandsOf(lines, path, fs) == Ok(Demands(ds, path))
  {
    DemandsStep(lines, 0, path, fs);
    DemandsStep(lines, 1, path, fs);
    PrependDemandsAssoc([], [], DemandsFrom(lines, 2, path, fs));
  }

  // ---------------------------------------------------------------- export, then parse

  /** A demand whose label is one token and whose bandwidth survives formatting. */
  predicate ExportableDemand(d: Demand, fs: FloatSyntax) {
    IsToken(d.name) && RoundTrips(fs, d.bandwidth)
  }

  /** Every demand can be written and read back. */
  predicate Exportable(list: seq<Demand>, fs: FloatSyntax) {
    forall j | 0 <= j < |list| :: ExportableDemand(list[j], fs)
  }

  lemma IdIsToken()
    ensures IsToken(DemandsId)
  {
    assert forall i | 0 <= i < |DemandsId| :: !IsSpace(DemandsId[i]);
  }

  /** A demand line as export writes it is one line of text. */
  lemma DemandTextIsLine(d: Demand, fs: FloatSyntax)
    requires ExportableDemand(d, fs)
    ensures IsTerminatedLine(DemandText(d, fs))
  {
    UnwordsTerminated([d.name, FormatInt(d.src), FormatInt(d.dest), fs.format(d.bandwidth)]);
  }

  /** A demand line as export writes it reads back as that demand (anywhere past the memo line). */
  lemma DemandTextReadsBack(d: Demand, idx: nat, path: string, fs: FloatSyntax)
    requires idx >= 2 && ExportableDemand(d, fs)
    ensures DemandLine(DemandText(d, fs), idx, path, fs) == Ok(Some(d))
  {
    SplitUnwords([d.name, FormatInt(d.src), FormatInt(d.dest), fs.format(d.bandwidth)]);
    IntRoundTrip(d.src);
    IntRoundTrip(d.dest);
  }

  /** Line `j` of the demand lines export writes is the text of demand `j`. */
  lemma {:induction false} DemandTextsIndex(list: seq<Demand>, fs: FloatSyntax)
    ensures forall j | 0 <= j < |list| :: DemandTexts(list, fs)[j] == DemandText(list[j], fs)
    decreases |list|
  {
    if list != [] {
      DemandTextsIndex(list[1..], fs);
    }
  }

  /** The converse of `DemandsAtLine`: demand records line by line make up `DemandsAt`. */
  lemma {:induction false} DemandsAtOf(lines: seq<string>, idx: nat, ds: seq<Demand>, path: string, fs: FloatSyntax)
    requires idx + |ds| <= |lines|
    requires forall j | 0 <= j < |ds| :: DemandLine(lines[idx + j], idx + j, path, fs) == Ok(Some(ds[j]))
    ensures DemandsAt(lines, idx, ds, path, fs)
    decreases |ds|
  {
    if ds != [] {
      forall j | 0 <= j < |ds| - 1
        ensures DemandLine(lines[idx + 1 + j], idx + 1 + j, path, fs) == Ok(Some(ds[1..][j]))
      {
        assert DemandLine(lines[idx + (j + 1)], idx + (j + 1), path, fs) == Ok(Some(ds[j + 1]));
      }
      DemandsAtOf(lines, idx + 1, ds[1..], path, fs);
      assert DemandLine(lines[idx + 0], idx + 0, path, fs) == Ok(Some(ds[0]));
    }
  }

  /** Demand `j`'s line, as export writes it, reads back as demand `j` (anywhere past the memo line). */
  lemma DemandTextsLine(pre: seq<string>, list: seq<Demand>, j: nat, path: string, fs: FloatSyntax)
    requires |pre| >= 2 && Exportable(list, fs) && j < |list|
    ensures var lines := pre + DemandTexts(list, fs);
            DemandLine(lines[|pre| + j], |pre| + j, path, fs) == Ok(Some(list[j]))
  {
    DemandTextsIndex(list, fs);
    assert (pre + DemandTexts(list, fs))[|pre| + j] == DemandText(list[j], fs);
    DemandTextReadsBack(list[j], |pre| + j, path, fs);
  }

  /** The demand lines export writes, placed after at least the header and memo lines, are records of those demands. */
  lemma DemandTextsAt(pre: seq<string>, list: seq<Demand>, path: string, fs: FloatSyntax)
    requires |pre| >= 2 && Exportable(list, fs)
    ensures DemandsAt(pre + DemandTexts(list, fs), |pre|, list, path, fs)
  {
    var lines := pre + DemandTexts(list, fs);
    forall j | 0 <= j < |list| ensures DemandLine(lines[|pre| + j], |pre| + j, path, fs) == Ok(Some(list[j])) {
      DemandTextsLine(pre, list, j, path, fs);
    }
    DemandsAtOf(lines, |pre|, list, path, fs);
  }

  /** Exporting demands and parsing the result gives equal demands read from the new path. */
  lemma RoundTrip(d: Demands, path: string, fs: FloatSyntax)
    requires Exportable(d.list, fs)
    ensures DemandsOf(Export(d, fs), path, fs) == Ok(Demands(d.list, path))
    ensures Equal(DemandsOf(Export(d, fs), path, fs).value, d)
  {
    var pre := [DemandsId + " " + FormatInt(|d.list|) + "\n", DemandsMemoLine];
    var lines := pre + DemandTexts(d.list, fs);
    assert Export(d, fs) == lines;
    IdIsToken();
    TwoWordLine(DemandsId, FormatInt(|d.list|));
    assert HeaderOk(lines[0]) && lines[1] == DemandsMemoLine;
    DemandTextsAt(pre, d.list, path, fs);
    DemandsAtRead(lines, 2, d.list, path, fs);
    DemandsOfSections(lines, d.list, path, fs);
  }

  /** Every demand line export writes is one terminated line of text. */
  lemma {:induction false} DemandTextsTerminated(list: seq<Demand>, fs: FloatSyntax)
    requires Exportable(list, fs)
    ensures AllTerminated(DemandTexts(list, fs))
    decreases |list|
  {
    if list != [] {
      DemandTextIsLine(list[0], fs);
      DemandTextsTerminated(list[1..], fs);
      AllTerminatedConcat([DemandText(list[0], fs)], DemandTexts(list[1..], fs));
    }
  }

  /** Every string export writes is one terminated line, so a file holding them reads back line for line. */
  lemma ExportWritesLines(d: Demands, fs: FloatSyntax)
    requires Exportable(d.list, fs)
    ensures forall k | 0 <= k < |Export(d, fs)| :: IsTerminatedLine(Export(d, fs)[k])
    ensures SplitLines(JoinLines(Export(d, fs))) == Export(d, fs)
  {
    var pre := [DemandsId + " " + FormatInt(|d.list|) + "\n", DemandsMemoLine];
    IdIsToken();
    TwoWordLine(DemandsId, FormatInt(|d.list|));
    assert forall i | 0 <= i < |DemandsMemoLine| - 1 :: DemandsMemoLine[i] != '\n';
    assert AllTerminated(pre);
    DemandTextsTerminated(d.list, fs);
    AllTerminatedConcat(pre, DemandTexts(d.list, fs));
    SplitJoinLines(Export(d, fs));
  }

  /** The file export writes parses back to equal demands. */
  lemma FileRoundTrip(d: Demands, path: string, fs: FloatSyntax)
    requires Exportable(d.list, fs)
    ensures DemandsOf(SplitLines(JoinLines(Export(d, fs))), path, fs) == Ok(Demands(d.list, path))
  {
    ExportWritesLines(d, fs);
    RoundTrip(d, path, fs);
  }
}
