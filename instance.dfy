/**
 * An instance: a topology and the demands on it, read from two files. The
 * demands are checked against the number of nodes, and the traffic matrix
 * sums the bandwidth of all demands between each ordered pair of nodes.
 */
module Instances {
  import opened Options
  import opened Numbers
  import opened Errors
  import opened Templates
  import T = TopologyFormat
  import D = DemandsFormat
  import TopologyParser
  import DemandsParser

  // ---------------------------------------------------------------- validation messages

  const MessageHead := "demand "
  const IndexLead := ": node index "
  const IndexPlaceholder := "$index"
  const MessageTail := " does not exist in topology"

  /** The message template built for a bad demand: its name is pasted in before `Template` sees it. */
  function MessageTemplate(name: string): string {
    MessageHead + name + IndexLead + IndexPlaceholder + MessageTail
  }

  /** The message as the source computes it: `Template(...).substitute(index=i)`, which interprets any `$` in the name. */
  function TemplateMessage(name: string, index: int): Substitution {
    Substitute(MessageTemplate(name), "index", FormatInt(index))
  }

  /** The message the validation evidently means: the name verbatim, then the index. */
  function Message(name: string, index: int): string {
    MessageHead + name + IndexLead + FormatInt(index) + MessageTail
  }

  // ---------------------------------------------------------------- validation

  /** Node index `i` exists in a topology of `nodeCount` nodes: 0 <= i <= nodeCount - 1. */
  predicate NodeExists(i: int, nodeCount: nat) {
    0 <= i <= nodeCount - 1
  }

  predicate DemandValid(d: D.Demand, nodeCount: nat) {
    NodeExists(d.src, nodeCount) && NodeExists(d.dest, nodeCount)
  }

  /** The index reported for an invalid demand: the source index if it is invalid, else the destination. */
  function ReportedIndex(d: D.Demand, nodeCount: nat): int {
    if !NodeExists(d.src, nodeCount) then d.src else d.dest
  }

  /** Why loading an instance fails: a parse error, an unwrapped Python exception, or an invalid demand. */
  datatype Failure = ParseFailure(error: ParseError) | Crashed(kind: CrashKind) | Invalid(invalid: ValidationError)

  /**
   * What the source raises for an invalid demand: the `ValidationError` when
   * `substitute` gives a message, else the `KeyError` or `ValueError` that
   * `substitute` raises on a `$` in the demand's name.
   */
  function Rejection(d: D.Demand, nodeCount: nat, topologyFile: string, demandsFile: string): Failure {
    match TemplateMessage(d.name, ReportedIndex(d, nodeCount))
    case Substituted(m) => Invalid(ValidationError(m, topologyFile, demandsFile))
    case KeyError => Crashed(CrashKind.KeyError)
    case ValueError => Crashed(CrashKind.ValueError)
  }

  /** The check in `Instance.__init__` as written: what the first invalid demand raises, if there is one. */
  function CheckOf(list: seq<D.Demand>, nodeCount: nat, topologyFile: string, demandsFile: string): Option<Failure> {
    if list == [] then None
    else if !DemandValid(list[0], nodeCount) then Some(Rejection(list[0], nodeCount, topologyFile, demandsFile))
    else CheckOf(list[1..], nodeCount, topologyFile, demandsFile)
  }

  /** The check as evidently intended: the first invalid demand gives a `ValidationError` naming it verbatim. */
  function ValidationOf(list: seq<D.Demand>, nodeCount: nat, topologyFile: string, demandsFile: string): Option<ValidationError> {
    if list == [] then None
    else if !DemandValid(list[0], nodeCount) then
      Some(ValidationError(Message(list[0].name, ReportedIndex(list[0], nodeCount)), topologyFile, demandsFile))
    else ValidationOf(list[1..], nodeCount, topologyFile, demandsFile)
  }

  /** The validation loop of `Instance.__init__`, message template and `substitute` included. */
  method ValidateDemands(list: seq<D.Demand>, nodeCount: nat, topologyFile: string, demandsFile: string)
    returns (r: Option<Failure>)
    ensures r == CheckOf(list, nodeCount, topologyFile, demandsFile)
  {
    var minNodeIdx, maxNodeIdx := 0, nodeCount - 1;
    for k := 0 to |list|
      invariant CheckOf(list, nodeCount, topologyFile, demandsFile)
                == CheckOf(list[k..], nodeCount, topologyFile, demandsFile)
    {
      var d := list[k];
      assert list[k..][1..] == list[k + 1..];
      var srcOk := minNodeIdx <= d.src <= maxNodeIdx;
      var destOk := minNodeIdx <= d.dest <= maxNodeIdx;
      if !(srcOk && destOk) {
        var template := MessageTemplate(d.name);
        var msg;
        if !srcOk {
          msg := Substitute(template, "index", FormatInt(d.src));
        } else {
          msg := Substitute(template, "index", FormatInt(d.dest));
        }
        match msg
        case Substituted(m) =>
          return Some(Invalid(ValidationError(m, topologyFile, demandsFile)));
        case KeyError =>
          return Some(Crashed(CrashKind.KeyError));
        case ValueError =>
          return Some(Crashed(CrashKind.ValueError));
      }
    }
    assert list[|list|..] == [];
    r := None;
  }

  // ---------------------------------------------------------------- the traffic matrix

  /** The total bandwidth of the demands from node `i` to node `j`. */
  function CellSum(list: seq<D.Demand>, i: int, j: int): real
    decreases |list|
  {
    if list == [] then 0.0
    else
      var d := list[|list| - 1];
      CellSum(list[..|list| - 1], i, j) + (if d.src == i && d.dest == j then d.bandwidth else 0.0)
  }

  /** `_build_tm`: an n-by-n matrix of zeros, then each demand's bandwidth added to its cell. */
  method BuildTrafficMatrix(nodeCount: nat, list: seq<D.Demand>) returns (tm: array2<real>)
    requires forall k | 0 <= k < |list| :: DemandValid(list[k], nodeCount)
    ensures fresh(tm) && tm.Length0 == nodeCount && tm.Length1 == nodeCount
    ensures forall i, j | 0 <= i < nodeCount && 0 <= j < nodeCount :: tm[i, j] == CellSum(list, i, j)
  {
    tm := new real[nodeCount, nodeCount]((i, j) => 0.0);
    for k := 0 to |list|
      invariant forall i, j | 0 <= i < nodeCount && 0 <= j < nodeCount :: tm[i, j] == CellSum(list[..k], i, j)
    {
      var d := list[k];
      assert list[..k + 1][..k] == list[..k] && list[..k + 1][k] == d;
      tm[d.src, d.dest] := tm[d.src, d.dest] + d.bandwidth;
    }
    assert list[..|list|] == list;
  }

  // ---------------------------------------------------------------- loading an instance

  datatype Loading<T> = Loaded(value: T) | Failed(failure: Failure)

  function FailureOf<T>(o: Outcome<T>): Failure
    requires !o.Ok?
  {
    if o.Fail? then ParseFailure(o.error) else Crashed(o.kind)
  }

  /** `Instance.__init__`: the topology file is parsed first, then the demands file, then the demands are checked. */
  function InstanceOf(topologyLines: seq<string>, topologyFile: string, demandsLines: seq<string>, demandsFile: string,
                      fs: FloatSyntax): Loading<(T.Topology, D.Demands)>
  {
    var t := T.TopologyOf(topologyLines, topologyFile, fs);
    if !t.Ok? then Failed(FailureOf(t))
    else
      var d := D.DemandsOf(demandsLines, demandsFile, fs);
      if !d.Ok? then Failed(FailureOf(d))
      else
        match CheckOf(d.value.list, |t.value.nodes|, topologyFile, demandsFile)
        case Some(f) => Failed(f)
        case None => Loaded((t.value, d.value))
  }

  /** `Instance`: the parsed topology and demands, and their traffic matrix. */
  class Instance {
    const topology: T.Topology
    const demands: D.Demands
    const trafficMatrix: array2<real>

    /** Every demand names existing nodes, and each cell of the matrix is the sum of its demands. */
    ghost predicate Valid()
      reads trafficMatrix
    {
      var n := |topology.nodes|;
      && (forall k | 0 <= k < |demands.list| :: DemandValid(demands.list[k], n))
      && trafficMatrix.Length0 == n && trafficMatrix.Length1 == n
      && forall i, j | 0 <= i < n && 0 <= j < n :: trafficMatrix[i, j] == CellSum(demands.list, i, j)
    }

    /** Only a matrix that holds the demands' sums, for demands that all name existing nodes, makes an instance. */
    constructor (topology: T.Topology, demands: D.Demands, trafficMatrix: array2<real>)
      requires forall k | 0 <= k < |demands.list| :: DemandValid(demands.list[k], |topology.nodes|)
      requires trafficMatrix.Length0 == |topology.nodes| && trafficMatrix.Length1 == |topology.nodes|
      requires forall i, j | 0 <= i < |topology.nodes| && 0 <= j < |topology.nodes| ::
                 trafficMatrix[i, j] == CellSum(demands.list, i, j)
      ensures this.topology == topology && this.demands == demands && this.trafficMatrix == trafficMatrix
      ensures Valid()
    {
      this.topology := topology;
      this.demands := demands;
      this.trafficMatrix := trafficMatrix;
    }

    /** `Instance.__eq__`: the topologies are equal and the demands are equal; source files and matrices are not compared. */
    predicate Equal(other: Instance) {
      T.Equal(topology, other.topology) && D.Equal(demands, other.demands)
    }

    /** `Instance.__ne__` */
    predicate NotEqual(other: Instance) {
      !Equal(other)
    }

    /** `Instance.export`: what is written to the topology target and to the demands target. */
    function Export(fs: FloatSyntax): (seq<string>, seq<string>) {
      (T.Export(topology, fs), D.Export(demands, fs))
    }
  }

  /** `Instance(topology_file, demands_file)`: parse both files, check the demands, build the traffic matrix. */
  method Load(topologyLines: seq<string>, topologyFile: string, demandsLines: seq<string>, demandsFile: string, fs: FloatSyntax)
    returns (r: Loading<Instance>)
    ensures var spec := InstanceOf(topologyLines, topologyFile, demandsLines, demandsFile, fs);
            && (r.Failed? <==> spec.Failed?)
            && (r.Failed? ==> r.failure == spec.failure)
            && (r.Loaded? ==> && fresh(r.value) && fresh(r.value.trafficMatrix) && r.value.Valid()
                               && (r.value.topology, r.value.demands) == spec.value)
  {
    var topology := TopologyParser.Parse(topologyLines, topologyFile, fs);
    if !topology.Ok? {
      return Failed(FailureOf(topology));
    }
    var demands := DemandsParser.Parse(demandsLines, demandsFile, fs);
    if !demands.Ok? {
      return Failed(FailureOf(demands));
    }
    var n := |topology.value.nodes|;
    var invalid := ValidateDemands(demands.value.list, n, topologyFile, demandsFile);
    if invalid.Some? {
      return Failed(invalid.value);
    }
    ValidationOfNone(demands.value.list, n, topologyFile, demandsFile);
    var tm := BuildTrafficMatrix(n, demands.value.list);
    var inst := new Instance(topology.value, demands.value, tm);
    return Loaded(inst);
  }

  /** The check passes exactly when every demand names existing nodes, as written and as intended. */
  lemma {:induction false} ValidationOfNone(list: seq<D.Demand>, nodeCount: nat, topologyFile: string, demandsFile: string)
    ensures CheckOf(list, nodeCount, topologyFile, demandsFile).None?
            <==> forall k | 0 <= k < |list| :: DemandValid(list[k], nodeCount)
    ensures ValidationOf(list, nodeCount, topologyFile, demandsFile).None?
            <==> forall k | 0 <= k < |list| :: DemandValid(list[k], nodeCount)
    decreases |list|
  {
    if list != [] {
      ValidationOfNone(list[1..], nodeCount, topologyFile, demandsFile);
      assert forall k | 1 <= k < |list| :: list[k] == list[1..][k - 1];
    }
  }
}
