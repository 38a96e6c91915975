/**
 * What an instance promises: how the error message of the demand check is
 * built (and where the source's `Template` use departs from it), which demand
 * the check reports, that the traffic matrix holds all the traffic, and that
 * the two files `Instance.export` writes load back as an equal instance.
 */
module InstanceProperties {
  import opened Options
  import opened Text
  import opened Numbers
  import opened Errors
  import opened Templates
  import opened Instances
  import T = TopologyFormat
  import D = DemandsFormat
  import TP = TopologyProperties
  import DP = DemandsProperties

  // ---------------------------------------------------------------- the validation message

  /** Where the pieces of a message are: "demand ", the name, ": node index ", the index, " does not exist in topology". */
  lemma MessageLayout(name: string, index: int)
    ensures var m, n, f := Message(name, index), |name|, FormatInt(index);
            && |m| == 7 + n + 13 + |f| + 27
            && m[7..7 + n] == name && m[7 + n] == ':' && m[7 + n + 1] == ' '
            && m[7 + n + 13..7 + n + 13 + |f|] == f
  {
    var m, n, f := Message(name, index), |name|, FormatInt(index);
    var head := MessageHead + name;
    var lead := head + IndexLead;
    assert |MessageHead| == 7 && |IndexLead| == 13 && |MessageTail| == 27;
    assert m == lead + f + MessageTail;
    assert m[..|lead|] == lead && m[|lead|..|lead| + |f|] == f;
    assert lead[..|head|] == head && lead[|head|] == ':' && lead[|head| + 1] == ' ';
    assert head[7..] == name;
  }

  /** The message names the demand and the index: for whitespace-free names, different demands or indices give different messages. */
  lemma MessageInjective(name1: string, index1: int, name2: string, index2: int)
    requires IsToken(name1) && IsToken(name2) && Message(name1, index1) == Message(name2, index2)
    ensures name1 == name2 && index1 == index2
  {
    MessageLayout(name1, index1);
    MessageLayout(name2, index2);
    assert |name1| == |name2|;
    assert |FormatInt(index1)| == |FormatInt(index2)|;
    FormatIntInjective(index1, index2);
  }

  /** For a name without `$`, the source's `Template` message is the intended message. */
  lemma TemplateAgreesWithoutDollar(name: string, index: int)
    requires NoDollar(name)
    ensures TemplateMessage(name, index) == Substituted(Message(name, index))
  {
    var pre := MessageHead + name + IndexLead;
    assert NoDollar(MessageHead) && NoDollar(IndexLead) && NoDollar(MessageTail);
    NoDollarConcat(MessageHead, name);
    NoDollarConcat(MessageHead + name, IndexLead);
    assert MessageTemplate(name) == pre + "$" + "index" + MessageTail;
    PlaceholderBetween(pre, "index", MessageTail, FormatInt(index));
  }

  /**
   * The finding, first form: a name with `$` followed by an identifier other
   * than `index` (as in `a$b`) makes `substitute` raise `KeyError` instead of
   * the validation error.
   */
  lemma DollarNameRaisesKeyError(prefix: string, id: string, suffix: string, index: int)
    requires NoDollar(prefix) && IsIdentifier(id) && id != "index" && (suffix == [] || !IsIdChar(suffix[0]))
    ensures TemplateMessage(prefix + "$" + id + suffix, index) == Substitution.KeyError
  {
    var t := suffix + IndexLead + IndexPlaceholder + MessageTail;
    assert MessageTemplate(prefix + "$" + id + suffix) == (MessageHead + prefix) + "$" + id + t;
    assert NoDollar(MessageHead);
    NoDollarConcat(MessageHead, prefix);
    assert t == [] || !IsIdChar(t[0]) by {
      if suffix == [] {
        assert t[0] == IndexLead[0] == ':';
      } else {
        assert t[0] == suffix[0];
      }
    }
    UnknownPlaceholder(MessageHead + prefix, id, t, "index", FormatInt(index));
  }

  /** The finding, second form: a name with `$` before anything but `$`, `{` or an identifier (as in `a$`) makes `substitute` raise `ValueError`. */
  lemma DollarNameRaisesValueError(prefix: string, suffix: string, index: int)
    requires NoDollar(prefix)
    requires suffix == [] || (suffix[0] != '$' && suffix[0] != '{' && !IsIdStart(suffix[0]))
    ensures TemplateMessage(prefix + "$" + suffix, index) == Substitution.ValueError
  {
    var t := suffix + IndexLead + IndexPlaceholder + MessageTail;
    assert MessageTemplate(prefix + "$" + suffix) == (MessageHead + prefix) + "$" + t;
    assert NoDollar(MessageHead);
    NoDollarConcat(MessageHead, prefix);
    assert t[0] != '$' && t[0] != '{' && !IsIdStart(t[0]) by {
      if suffix == [] {
        assert t[0] == IndexLead[0] == ':';
      } else {
        assert t[0] == suffix[0];
      }
    }
    InvalidPlaceholder(MessageHead + prefix, t, "index", FormatInt(index));
  }

  /** The finding, third form: `$$` in a name (as in `a$$b`) comes out as one `$`, so the message names another demand. */
  lemma DoubledDollarCollapses(prefix: string, suffix: string, index: int)
    requires NoDollar(prefix) && NoDollar(suffix)
    ensures TemplateMessage(prefix + "$$" + suffix, index) == Substituted(Message(prefix + "$" + suffix, index))
  {
    var head, mid, v := MessageHead + prefix, suffix + IndexLead, FormatInt(index);
    assert NoDollar(MessageHead) && NoDollar(IndexLead) && NoDollar(MessageTail);
    NoDollarConcat(MessageHead, prefix);
    NoDollarConcat(suffix, IndexLead);
    calc {
      TemplateMessage(prefix + "$$" + suffix, index);
      { assert MessageTemplate(prefix + "$$" + suffix) == head + "$$" + mid + "$" + "index" + MessageTail; }
      Substitute(head + "$$" + mid + "$" + "index" + MessageTail, "index", v);
      { EscapeBeforePlaceholder(head, mid, "index", MessageTail, v); }
      Substituted(head + "$" + mid + v + MessageTail);
      { assert Message(prefix + "$" + suffix, index) == head + "$" + mid + v + MessageTail; }
      Substituted(Message(prefix + "$" + suffix, index));
    }
  }

  // ---------------------------------------------------------------- which demand the check reports

  /** The position of the first demand naming a node the topology lacks, or `|list|` if there is none. */
  ghost function FirstInvalid(list: seq<D.Demand>, nodeCount: nat): (k: nat)
    ensures k <= |list|
  {
    if list == [] || !DemandValid(list[0], nodeCount) then 0 else 1 + FirstInvalid(list[1..], nodeCount)
  }

  /**
   * The check reports the first invalid demand, with its source index if that
   * is invalid and otherwise its destination index: as written, through
   * `substitute` on the message template; as intended, with the plain message.
   */
  lemma {:induction false} ValidationReportsFirst(list: seq<D.Demand>, nodeCount: nat, topologyFile: string, demandsFile: string)
    ensures var k := FirstInvalid(list, nodeCount);
            && (forall m | 0 <= m < k :: DemandValid(list[m], nodeCount))
            && (k < |list| ==> && !DemandValid(list[k], nodeCount)
                               && CheckOf(list, nodeCount, topologyFile, demandsFile)
                                  == Some(Rejection(list[k], nodeCount, topologyFile, demandsFile))
                               && ValidationOf(list, nodeCount, topologyFile, demandsFile)
                                  == Some(ValidationError(Message(list[k].name, ReportedIndex(list[k], nodeCount)), topologyFile, demandsFile)))
            && (k == |list| ==> && CheckOf(list, nodeCount, topologyFile, demandsFile) == None
                                && ValidationOf(list, nodeCount, topologyFile, demandsFile) == None)
    decreases |list|
  {
    if list != [] && DemandValid(list[0], nodeCount) {
      ValidationReportsFirst(list[1..], nodeCount, topologyFile, demandsFile);
      var k := FirstInvalid(list[1..], nodeCount);
      assert forall m | 1 <= m < 1 + k :: list[m] == list[1..][m - 1];
      if k < |list| - 1 {
        assert list[1 + k] == list[1..][k];
      }
    }
  }

  /** A topology without nodes rejects any demand, on the source index of the first one. */
  lemma NoNodesRejectsDemands(list: seq<D.Demand>, topologyFile: string, demandsFile: string)
    requires list != []
    ensures CheckOf(list, 0, topologyFile, demandsFile) == Some(Rejection(list[0], 0, topologyFile, demandsFile))
    ensures ReportedIndex(list[0], 0) == list[0].src
    ensures ValidationOf(list, 0, topologyFile, demandsFile)
            == Some(ValidationError(Message(list[0].name, list[0].src), topologyFile, demandsFile))
  {
  }

  /** When no demand's name holds a `$`, the check as written fails exactly as the intended check does. */
  lemma {:induction false} CheckAgreesWithoutDollar(list: seq<D.Demand>, nodeCount: nat, topologyFile: string, demandsFile: string)
    requires forall k | 0 <= k < |list| :: NoDollar(list[k].name)
    ensures CheckOf(list, nodeCount, topologyFile, demandsFile)
            == match ValidationOf(list, nodeCount, topologyFile, demandsFile)
               case Some(e) => Some(Invalid(e))
               case None => None
    decreases |list|
  {
    if list != [] {
      if DemandValid(list[0], nodeCount) {
        assert forall k | 0 <= k < |list| - 1 :: list[1..][k] == list[k + 1];
        CheckAgreesWithoutDollar(list[1..], nodeCount, topologyFile, demandsFile);
      } else {
        TemplateAgreesWithoutDollar(list[0].name, ReportedIndex(list[0], nodeCount));
      }
    }
  }

  /** A loaded instance holds only demands between existing nodes. */
  lemma LoadedDemandsValid(topologyLines: seq<string>, topologyFile: string, demandsLines: seq<string>, demandsFile: string,
                           fs: FloatSyntax)
    requires InstanceOf(topologyLines, topologyFile, demandsLines, demandsFile, fs).Loaded?
    ensures var (t, d) := InstanceOf(topologyLines, topologyFile, demandsLines, demandsFile, fs).value;
            forall k | 0 <= k < |d.list| :: DemandValid(d.list[k], |t.nodes|)
  {
    var t := T.TopologyOf(topologyLines, topologyFile, fs).value;
    var d := D.DemandsOf(demandsLines, demandsFile, fs).value;
    ValidationOfNone(d.list, |t.nodes|, topologyFile, demandsFile);
  }

  // ---------------------------------------------------------------- the traffic matrix

  /** The total bandwidth of all demands. */
  function Total(list: seq<D.Demand>): real
    decreases |list|
  {
    if list == [] then 0.0 else Total(list[..|list| - 1]) + list[|list| - 1].bandwidth
  }

  /** Cells (i, 0) .. (i, m - 1) of the matrix the demands define, added up. */
  function RowSum(list: seq<D.Demand>, i: int, m: nat): real {
    if m == 0 then 0.0 else RowSum(list, i, m - 1) + CellSum(list, i, m - 1)
  }

  /** Rows 0 .. m - 1 of the n-column matrix the demands define, added up. */
  function GridSum(list: seq<D.Demand>, n: nat, m: nat): real {
    if m == 0 then 0.0 else GridSum(list, n, m - 1) + RowSum(list, m - 1, n)
  }

  /** Demands split into two runs add up cell by cell: the order of the demands does not matter to a cell. */
  lemma {:induction false} CellSumAppend(a: seq<D.Demand>, b: seq<D.Demand>, i: int, j: int)
    ensures CellSum(a + b, i, j) == CellSum(a, i, j) + CellSum(b, i, j)
    decreases |b|
  {
    if b == [] {
      assert a + b == a;
    } else {
      var init := b[..|b| - 1];
      CellSumAppend(a, init, i, j);
      assert (a + b)[..|a + b| - 1] == a + init;
      assert (a + b)[|a + b| - 1] == b[|b| - 1];
    }
  }

  /** A cell no demand goes through stays 0. */
  lemma {:induction false} CellSumNone(list: seq<D.Demand>, i: int, j: int)
    requires forall k | 0 <= k < |list| :: !(list[k].src == i && list[k].dest == j)
    ensures CellSum(list, i, j) == 0.0
    decreases |list|
  {
    if list != [] {
      CellSumNone(list[..|list| - 1], i, j);
    }
  }

  /** One more demand adds its bandwidth to exactly its own cell. */
  lemma CellSumSnoc(list: seq<D.Demand>, d: D.Demand, i: int, j: int)
    ensures CellSum(list + [d], i, j) == CellSum(list, i, j) + (if d.src == i && d.dest == j then d.bandwidth else 0.0)
  {
    assert (list + [d])[..|list|] == list;
  }

  lemma {:induction false} RowSumSnoc(list: seq<D.Demand>, d: D.Demand, i: int, m: nat)
    ensures RowSum(list + [d], i, m) == RowSum(list, i, m) + (if d.src == i && 0 <= d.dest < m then d.bandwidth else 0.0)
  {
    if m > 0 {
      RowSumSnoc(list, d, i, m - 1);
      CellSumSnoc(list, d, i, m - 1);
    }
  }

  lemma {:induction false} GridSumSnoc(list: seq<D.Demand>, d: D.Demand, n: nat, m: nat)
    ensures GridSum(list + [d], n, m) == GridSum(list, n, m) + (if 0 <= d.src < m && 0 <= d.dest < n then d.bandwidth else 0.0)
  {
    if m > 0 {
      GridSumSnoc(list, d, n, m - 1);
      RowSumSnoc(list, d, m - 1, n);
    }
  }

  /** Without demands every row, and so the whole matrix, adds up to zero. */
  lemma {:induction false} GridSumEmpty(n: nat, m: nat)
    ensures GridSum([], n, m) == 0.0
  {
    if m > 0 {
      GridSumEmpty(n, m - 1);
      RowSumEmpty(m - 1, n);
    }
  }

  lemma {:induction false} RowSumEmpty(i: int, m: nat)
    ensures RowSum([], i, m) == 0.0
  {
    if m > 0 {
      RowSumEmpty(i, m - 1);
    }
  }

  /** When every demand names existing nodes, the cells of the traffic matrix add up to the total bandwidth: no traffic is lost. */
  lemma {:induction false} TrafficIsConserved(list: seq<D.Demand>, n: nat)
    requires forall k | 0 <= k < |list| :: DemandValid(list[k], n)
    ensures GridSum(list, n, n) == Total(list)
    decreases |list|
  {
    if list == [] {
      GridSumEmpty(n, n);
    } else {
      var init, d := list[..|list| - 1], list[|list| - 1];
      assert forall k | 0 <= k < |init| :: init[k] == list[k];
      TrafficIsConserved(init, n);
      assert list == init + [d];
      assert DemandValid(list[|list| - 1], n);
      GridSumSnoc(init, d, n, n);
      assert GridSum(list, n, n) == GridSum(init + [d], n, n);
      assert Total(list) == Total(init) + d.bandwidth;
    }
  }

  /** The matrix of a valid instance holds every unit of demanded bandwidth. */
  lemma InstanceTrafficIsConserved(inst: Instance)
    requires inst.Valid()
    ensures GridSum(inst.demands.list, |inst.topology.nodes|, |inst.topology.nodes|) == Total(inst.demands.list)
    ensures forall i, j | 0 <= i < |inst.topology.nodes| && 0 <= j < |inst.topology.nodes| ::
              inst.trafficMatrix[i, j] == CellSum(inst.demands.list, i, j)
  {
    TrafficIsConserved(inst.demands.list, |inst.topology.nodes|);
  }

  // ---------------------------------------------------------------- equality, export, then load

  /** Instance equality is an equivalence on (topology, demands), and `!=` is its negation. */
  lemma InstanceEquality(a: Instance, b: Instance, c: Instance)
    ensures a.Equal(a)
    ensures a.Equal(b) ==> b.Equal(a)
    ensures a.Equal(b) && b.Equal(c) ==> a.Equal(c)
    ensures a.NotEqual(b) <==> !a.Equal(b)
  {
  }

  /** The two files export writes for a topology and valid demands load back as that topology and those demands. */
  lemma LoadRoundTrip(t: T.Topology, d: D.Demands, topologyFile: string, demandsFile: string, fs: FloatSyntax)
    requires TP.Exportable(t.nodes, t.edges, fs) && DP.Exportable(d.list, fs)
    requires forall k | 0 <= k < |d.list| :: DemandValid(d.list[k], |t.nodes|)
    ensures InstanceOf(T.Export(t, fs), topologyFile, D.Export(d, fs), demandsFile, fs)
            == Loaded((T.Topology(t.nodes, t.edges, topologyFile), D.Demands(d.list, demandsFile)))
  {
    TP.RoundTrip(t, topologyFile, fs);
    DP.RoundTrip(d, demandsFile, fs);
    ValidationOfNone(d.list, |t.nodes|, topologyFile, demandsFile);
  }

  /** Exporting a loaded instance and loading the two files gives an equal instance. */
  lemma InstanceRoundTrip(inst: Instance, topologyFile: string, demandsFile: string, fs: FloatSyntax)
    requires inst.Valid() && TP.Exportable(inst.topology.nodes, inst.topology.edges, fs) && DP.Exportable(inst.demands.list, fs)
    ensures var files := inst.Export(fs);
            var l := InstanceOf(files.0, topologyFile, files.1, demandsFile, fs);
            && l.Loaded?
            && T.Equal(l.value.0, inst.topology) && D.Equal(l.value.1, inst.demands)
  {
    LoadRoundTrip(inst.topology, inst.demands, topologyFile, demandsFile, fs);
  }
}
