/** What holds over whole sequences of chaos commands on a reliable API: bounded toxics, paired
    baselines, isolation between nodes, restoration of the baseline, and which partitions of
    the data keep their majority. */
module ChaosRuns {
  import opened Sequences
  import opened Text
  import opened Topology
  import opened Toxiproxy
  import opened Chaos

  datatype Command =
    | Inject(node: nat, fault: string, attrs: map<string, string>)
    | Clear(node: nat)
    | ClearEverything
    | ApplyRegional(topo: ClusterTopology)
    | Setup(nodes: nat)

  ghost function Exec(reg: Registry, c: Command): Registry {
    match c
    case Inject(node, fault, attrs) => Injected(reg, node, fault, attrs)
    case Clear(node) => Cleared(reg, node)
    case ClearEverything => AllCleared(reg)
    case ApplyRegional(topo) => if |topo.regions| > 0 then Regional(reg, topo, topo.nodes).0 else reg
    case Setup(nodes) => Ensured(reg, nodes)
  }

  ghost function RunCommands(reg: Registry, cs: seq<Command>): Registry {
    if cs == [] then reg else Exec(RunCommands(reg, cs[..|cs| - 1]), cs[|cs| - 1])
  }

  // ---------- the toxics of a node proxy ----------

  /** The only toxic names this tool ever gives the proxy of node idx. */
  function ToxicNames(idx: nat): seq<string> {
    [FaultToxicName(idx, LATENCY), FaultToxicName(idx, BANDWIDTH), FaultToxicName(idx, TIMEOUT),
     FaultToxicName(idx, RESET), UpName(idx), DownName(idx)]
  }

  lemma ToxicNamesDistinct(idx: nat)
    ensures Distinct(ToxicNames(idx))
    ensures forall fault: string, attrs: map<string, string> :: FaultToxic(idx, fault, attrs).Some? ==>
      var name := FaultToxic(idx, fault, attrs).value.name;
      name in ToxicNames(idx) && name != UpName(idx) && name != DownName(idx)
  {
    var p := ProxyName(idx);
    var rests := ["-" + LATENCY, "-" + BANDWIDTH, "-" + TIMEOUT, "-" + RESET,
                  "-latency-regional" + "-up", "-latency-regional" + "-down"];
    assert |rests[0]| == 8 && |rests[1]| == 10 && |rests[2]| == 8 && |rests[3]| == 11 && |rests[4]| == 20 && |rests[5]| == 22;
    assert rests[0][1] == 'l' && rests[2][1] == 't';
    assert UpName(idx) == p + rests[4] && DownName(idx) == p + rests[5];
    forall i | 0 <= i < 6 ensures ToxicNames(idx)[i] == p + rests[i] && |ToxicNames(idx)[i]| == |p| + |rests[i]| { }
    SamePrefix(p, rests[0], rests[2]);
  }

  ghost predicate PairedUpDown(toxics: seq<Toxic>, idx: nat) {
    HasToxic(toxics, UpName(idx)) <==> HasToxic(toxics, DownName(idx))
  }

  ghost predicate NodeToxicsOk(toxics: seq<Toxic>, idx: nat) {
    && DistinctNames(toxics)
    && (forall t :: t in toxics ==> t.name in ToxicNames(idx))
    && PairedUpDown(toxics, idx)
  }

  ghost predicate NodesOk(reg: Registry) {
    forall idx: nat :: ProxyName(idx) in reg ==> NodeToxicsOk(reg[ProxyName(idx)].toxics, idx)
  }

  lemma AddedFaultOk(toxics: seq<Toxic>, idx: nat, t: Toxic)
    requires NodeToxicsOk(toxics, idx) && !HasToxic(toxics, t.name)
    requires t.name in ToxicNames(idx) && t.name != UpName(idx) && t.name != DownName(idx)
    ensures NodeToxicsOk(toxics + [t], idx)
  {
    forall name: string ensures HasToxic(toxics + [t], name) <==> HasToxic(toxics, name) || name == t.name {
      assert t in toxics + [t];
      if HasToxic(toxics, name) {
        var u :| u in toxics && u.name == name;
        assert u in toxics + [t];
      }
    }
    forall i | 0 <= i < |toxics| ensures toxics[i].name != t.name { assert toxics[i] in toxics; }
  }

  lemma AddedPairOk(toxics: seq<Toxic>, idx: nat, up: Toxic, down: Toxic)
    requires NodeToxicsOk(toxics, idx) && !HasToxic(toxics, up.name)
    requires up.name == UpName(idx) && down.name == DownName(idx)
    ensures !HasToxic(toxics + [up], down.name)
    ensures NodeToxicsOk(toxics + [up] + [down], idx)
  {
    SuffixesDiffer(RegionalLatencyToxicName(idx));
    var both := toxics + [up] + [down];
    assert up in both && down in both;
    assert !HasToxic(toxics, down.name);
    assert ToxicNames(idx)[4] == UpName(idx) && ToxicNames(idx)[5] == DownName(idx);
    forall i | 0 <= i < |toxics| ensures toxics[i].name != up.name && toxics[i].name != down.name {
      assert toxics[i] in toxics;
    }
  }

  lemma InjectKeepsNodesOk(reg: Registry, idx: nat, fault: string, attrs: map<string, string>)
    requires NodesOk(reg)
    ensures NodesOk(Injected(reg, idx, fault, attrs))
  {
    var after := Injected(reg, idx, fault, attrs);
    forall j: nat | ProxyName(j) in after ensures NodeToxicsOk(after[ProxyName(j)].toxics, j) {
      ProxyNamesDiffer(idx, j);
      assert NodeToxicsOk(reg[ProxyName(j)].toxics, j);
      if j == idx && fault != PARTITION && FaultToxic(idx, fault, attrs).Some? {
        var t := FaultToxic(idx, fault, attrs).value;
        ToxicNamesDistinct(idx);
        if CanAdd(reg, ProxyName(idx), t) { AddedFaultOk(reg[ProxyName(idx)].toxics, idx, t); }
      }
    }
  }

  lemma NamedLatencyKeepsNodesOk(reg: Registry, idx: nat, latencyMS: int, jitterMS: int)
    requires NodesOk(reg)
    ensures NodesOk(NamedLatency(reg, idx, RegionalLatencyToxicName(idx), latencyMS, jitterMS))
  {
    var name := RegionalLatencyToxicName(idx);
    var after := NamedLatency(reg, idx, name, latencyMS, jitterMS);
    var up, down := LatencyToxic(name + "-up", "upstream", latencyMS, jitterMS), LatencyToxic(name + "-down", "downstream", latencyMS, jitterMS);
    if CanAdd(reg, ProxyName(idx), up) {
      var toxics := reg[ProxyName(idx)].toxics;
      assert NodeToxicsOk(toxics, idx);
      AddedPairOk(toxics, idx, up, down);
      assert after == reg[ProxyName(idx) := reg[ProxyName(idx)].(toxics := toxics + [up] + [down])];
      forall j: nat | ProxyName(j) in after ensures NodeToxicsOk(after[ProxyName(j)].toxics, j) {
        ProxyNamesDiffer(idx, j);
      }
    }
  }

  lemma {:induction false} RegionalKeepsNodesOk(reg: Registry, topo: ClusterTopology, n: nat)
    requires NodesOk(reg) && |topo.regions| > 0
    ensures NodesOk(Regional(reg, topo, n).0)
  {
    if n > 0 {
      RegionalKeepsNodesOk(reg, topo, n - 1);
      var lat := WellKnownLatency(topo.NodeRegion(n));
      if lat.Some? {
        NamedLatencyKeepsNodesOk(Regional(reg, topo, n - 1).0, n, lat.value.0, lat.value.1);
      }
    }
  }

  lemma {:induction false} SetupKeepsNodesOk(reg: Registry, n: nat)
    requires NodesOk(reg)
    ensures NodesOk(Ensured(reg, n))
  {
    if n > 0 {
      SetupKeepsNodesOk(reg, n - 1);
      forall j: nat | ProxyName(j) in Ensured(reg, n) ensures NodeToxicsOk(Ensured(reg, n)[ProxyName(j)].toxics, j) {
        ProxyNamesDiffer(n, j);
      }
    }
  }

  lemma CommandKeepsNodesOk(reg: Registry, c: Command)
    requires NodesOk(reg)
    ensures NodesOk(Exec(reg, c))
  {
    match c
    case Inject(node, fault, attrs) => InjectKeepsNodesOk(reg, node, fault, attrs);
    case ApplyRegional(topo) => if |topo.regions| > 0 { RegionalKeepsNodesOk(reg, topo, topo.nodes); }
    case Setup(nodes) => SetupKeepsNodesOk(reg, nodes);
    case Clear(node) =>
      forall j: nat | ProxyName(j) in Exec(reg, c) ensures NodeToxicsOk(Exec(reg, c)[ProxyName(j)].toxics, j) {
        ProxyNamesDiffer(node, j);
      }
    case ClearEverything =>
      forall j: nat | ProxyName(j) in Exec(reg, c) ensures NodeToxicsOk(Exec(reg, c)[ProxyName(j)].toxics, j) {
        ProxyNamesDiffer(j, j);
      }
  }

  lemma {:induction false} DistinctWithin(a: seq<string>, b: seq<string>)
    requires Distinct(a) && forall x :: x in a ==> x in b
    ensures |a| <= |b|
  {
    if a != [] {
      var n := |a| - 1;
      assert a[n] in b;
      var k :| 0 <= k < |b| && b[k] == a[n];
      var b' := b[..k] + b[k + 1..];
      forall x | x in a[..n] ensures x in b' {
        assert x in a && x != a[n];
        var i :| 0 <= i < |b| && b[i] == x;
        assert i < k ==> b'[i] == x;
        assert i > k ==> b'[i - 1] == x;
      }
      DistinctWithin(a[..n], b');
    }
  }

  function NamesOf(toxics: seq<Toxic>): (names: seq<string>)
    ensures |names| == |toxics|
    ensures forall i :: 0 <= i < |toxics| ==> names[i] == toxics[i].name
  {
    seq(|toxics|, i requires 0 <= i < |toxics| => toxics[i].name)
  }

  lemma {:induction false} RunKeepsNodesOk(reg: Registry, cs: seq<Command>)
    requires NodesOk(reg)
    ensures NodesOk(RunCommands(reg, cs))
  {
    if cs != [] {
      RunKeepsNodesOk(reg, cs[..|cs| - 1]);
      CommandKeepsNodesOk(RunCommands(reg, cs[..|cs| - 1]), cs[|cs| - 1]);
    }
  }

  lemma AtMostSix(toxics: seq<Toxic>, idx: nat)
    requires DistinctNames(toxics) && forall t :: t in toxics ==> t.name in ToxicNames(idx)
    ensures |toxics| <= 6
  {
    forall x | x in NamesOf(toxics) ensures x in ToxicNames(idx) {
      var i :| 0 <= i < |toxics| && NamesOf(toxics)[i] == x;
      assert toxics[i] in toxics;
    }
    DistinctWithin(NamesOf(toxics), ToxicNames(idx));
  }

  /** Starting from proxies without toxics, every sequence of commands leaves each node proxy
      with at most six toxics under distinct names, the upstream baseline present exactly when
      the downstream one is. */
  lemma {:induction false} ToxicsStayBounded(reg: Registry, cs: seq<Command>, idx: nat)
    requires forall n :: n in reg ==> reg[n].toxics == []
    requires ProxyName(idx) in RunCommands(reg, cs)
    ensures var toxics := RunCommands(reg, cs)[ProxyName(idx)].toxics;
      |toxics| <= 6 && DistinctNames(toxics) && PairedUpDown(toxics, idx)
  {
    RunKeepsNodesOk(reg, cs);
    var toxics := RunCommands(reg, cs)[ProxyName(idx)].toxics;
    assert NodeToxicsOk(toxics, idx);
    AtMostSix(toxics, idx);
  }

  // ---------- the same under failures ----------

  /** The names of a proxy's toxics, whatever became of the pairs. */
  ghost predicate ToolNames(reg: Registry) {
    forall idx: nat, t: Toxic :: ProxyName(idx) in reg && t in reg[ProxyName(idx)].toxics ==> t.name in ToxicNames(idx)
  }

  lemma AddedKeepsNames(reg: Registry, idx: nat, t: Toxic)
    requires ToolNames(reg) && t.name in ToxicNames(idx)
    ensures ToolNames(Added(reg, ProxyName(idx), t))
  {
    var after := Added(reg, ProxyName(idx), t);
    forall j: nat, u: Toxic | ProxyName(j) in after && u in after[ProxyName(j)].toxics ensures u.name in ToxicNames(j) {
      ProxyNamesDiffer(idx, j);
    }
  }

  lemma InjectedKeepsNames(reg: Registry, idx: nat, fault: string, attrs: map<string, string>)
    requires ToolNames(reg)
    ensures ToolNames(Injected(reg, idx, fault, attrs))
  {
    ToxicNamesDistinct(idx);
    if fault != PARTITION && FaultToxic(idx, fault, attrs).Some? {
      AddedKeepsNames(reg, idx, FaultToxic(idx, fault, attrs).value);
    }
  }

  lemma UpKeepsNames(reg: Registry, idx: nat, latencyMS: int, jitterMS: int)
    requires ToolNames(reg)
    ensures ToolNames(Added(reg, ProxyName(idx), LatencyToxic(UpName(idx), "upstream", latencyMS, jitterMS)))
    ensures ToolNames(NamedLatency(reg, idx, RegionalLatencyToxicName(idx), latencyMS, jitterMS))
  {
    assert ToxicNames(idx)[4] == UpName(idx) && ToxicNames(idx)[5] == DownName(idx);
    var up, down := LatencyToxic(UpName(idx), "upstream", latencyMS, jitterMS), LatencyToxic(DownName(idx), "downstream", latencyMS, jitterMS);
    AddedKeepsNames(reg, idx, up);
    AddedKeepsNames(Added(reg, ProxyName(idx), up), idx, down);
  }

  lemma {:induction false} RegionalKeepsNames(reg: Registry, topo: ClusterTopology, n: nat)
    requires ToolNames(reg) && |topo.regions| > 0
    ensures ToolNames(Regional(reg, topo, n).0)
  {
    if n > 0 {
      RegionalKeepsNames(reg, topo, n - 1);
      var lat := WellKnownLatency(topo.NodeRegion(n));
      if lat.Some? { UpKeepsNames(Regional(reg, topo, n - 1).0, n, lat.value.0, lat.value.1); }
    }
  }

  lemma StoppedKeepsNames(before: Registry, after: Registry, topo: ClusterTopology, m: nat)
    requires ToolNames(before) && |topo.regions| > 0 && StoppedAfter(before, after, topo, m)
    ensures ToolNames(after)
  {
    RegionalKeepsNames(before, topo, m);
    var lat := WellKnownLatency(topo.NodeRegion(m + 1)).value;
    UpKeepsNames(Regional(before, topo, m).0, m + 1, lat.0, lat.1);
  }

  /** One command carried out by the client against a server whose calls may fail in any pattern. */
  method Perform(server: Server, c: Command)
    requires server.Valid() && ToolNames(server.proxies)
    modifies server
    ensures server.Valid() && ToolNames(server.proxies)
  {
    ghost var before := server.proxies;
    var ok;
    match c {
      case Inject(node, fault, attrs) =>
        InjectedKeepsNames(before, node, fault, attrs);
        ok := InjectFault(server, node, fault, attrs);
      case Clear(node) => ok := ClearFaults(server, node);
      case ClearEverything =>
        ghost var starts;
        ok, starts := ClearAll(server);
      case ApplyRegional(topo) =>
        if |topo.regions| > 0 {
          RegionalKeepsNames(before, topo, topo.nodes);
          ok := ApplyRegionalLatencies(server, topo);
          if !ok {
            ghost var m: nat :| m < topo.nodes && StoppedAfter(before, server.proxies, topo, m);
            StoppedKeepsNames(before, server.proxies, topo, m);
          }
        }
      case Setup(nodes) => ok := EnsureProxies(server, nodes);
    }
  }

  /** Whatever calls fail, and however, no sequence of commands gives a node proxy more than six
      toxics or two of one name. */
  method PerformAll(server: Server, cs: seq<Command>)
    requires server.Valid() && forall n :: n in server.proxies ==> server.proxies[n].toxics == []
    modifies server
    ensures server.Valid()
    ensures forall idx: nat :: ProxyName(idx) in server.proxies ==>
      |server.proxies[ProxyName(idx)].toxics| <= 6 && DistinctNames(server.proxies[ProxyName(idx)].toxics)
  {
    var i := 0;
    while i < |cs|
      invariant 0 <= i <= |cs|
      invariant server.Valid() && ToolNames(server.proxies)
    {
      Perform(server, cs[i]);
      i := i + 1;
    }
    forall idx: nat | ProxyName(idx) in server.proxies ensures |server.proxies[ProxyName(idx)].toxics| <= 6 {
      AtMostSix(server.proxies[ProxyName(idx)].toxics, idx);
    }
  }

  /** Only the pairing can break: when the second of the two calls is lost, a node without a
      baseline is left with its upstream toxic alone. */
  method LoseSecondToxic(server: Server, idx: nat, latencyMS: int, jitterMS: int) returns (ok: bool)
    requires server.Valid() && NamedLatencyOk(server.proxies, idx, RegionalLatencyToxicName(idx))
    requires server.fate(server.calls) == Delivered && server.fate(server.calls + 1) == Delivered
    requires server.fate(server.calls + 2) == Lost
    modifies server
    ensures !ok && ProxyName(idx) in server.proxies
    ensures HasToxic(server.proxies[ProxyName(idx)].toxics, UpName(idx))
    ensures !HasToxic(server.proxies[ProxyName(idx)].toxics, DownName(idx))
  {
    ghost var toxics := server.proxies[ProxyName(idx)].toxics;
    ghost var up := LatencyToxic(UpName(idx), "upstream", latencyMS, jitterMS);
    SuffixesDiffer(RegionalLatencyToxicName(idx));
    assert up in toxics + [up];
    ok := InjectNamedLatency(server, idx, RegionalLatencyToxicName(idx), latencyMS, jitterMS);
  }

  // ---------- isolation ----------

  ghost predicate SameProxy(before: Registry, after: Registry, name: string) {
    (name in before <==> name in after) && (name in before ==> after[name] == before[name])
  }

  /** A command on one node leaves every other node's proxy, and every foreign proxy, as it was. */
  lemma CommandsAreIsolated(reg: Registry, c: Command, other: nat, foreign: string)
    requires c.Inject? || c.Clear?
    requires other != c.node && !IsCRDBProxy(foreign)
    ensures SameProxy(reg, Exec(reg, c), ProxyName(other))
    ensures SameProxy(reg, Exec(reg, c), foreign)
  {
    ProxyNamesDiffer(other, c.node);
    ProxyNamesDiffer(c.node, c.node);
  }

  // ---------- the baseline ----------

  /** The node whose proxy has this name. */
  function NodeOf(name: string): (node: Option<nat>)
    ensures node.Some? ==> ProxyName(node.value) == name
  {
    if !IsCRDBProxy(name) then None
    else match Atoi(name[|NODE_PREFIX|..])
      case None => None
      case Some(idx) => if ProxyName(idx) == name then Some(idx) else None
  }

  lemma NodeOfProxyName(idx: nat)
    ensures NodeOf(ProxyName(idx)) == Some(idx)
  {
    ProxyNamesDiffer(idx, idx);
    AtoiItoa(idx);
    assert ProxyName(idx)[|NODE_PREFIX|..] == Itoa(idx);
  }

  /** The two latency toxics of a node whose region has a well-known latency. */
  function BaselineToxics(topo: ClusterTopology, idx: nat): seq<Toxic>
    requires |topo.regions| > 0 && idx >= 1
  {
    match WellKnownLatency(topo.NodeRegion(idx))
    case None => []
    case Some(lat) =>
      [LatencyToxic(UpName(idx), "upstream", lat.0, lat.1), LatencyToxic(DownName(idx), "downstream", lat.0, lat.1)]
  }

  /** Node proxies enabled with exactly their region's pair of toxics (up to node n), other
      crdb-node proxies enabled and empty, everything else untouched. */
  function Baseline(reg: Registry, topo: ClusterTopology, n: nat): Registry
    requires |topo.regions| > 0
  {
    map name | name in reg ::
      if !IsCRDBProxy(name) then reg[name]
      else match NodeOf(name)
        case None => Clean(reg[name])
        case Some(idx) => if 1 <= idx <= n then Clean(reg[name]).(toxics := BaselineToxics(topo, idx)) else Clean(reg[name])
  }

  /** In full: the two toxics the baseline gives a node of a region, and no others. */
  function PairInFull(idx: nat, latencyMS: int, jitterMS: int): seq<Toxic> {
    [Toxic("crdb-node-" + Itoa(idx) + "-latency-regional-up", "latency", "upstream", 100,
           map["latency" := latencyMS, "jitter" := jitterMS]),
     Toxic("crdb-node-" + Itoa(idx) + "-latency-regional-down", "latency", "downstream", 100,
           map["latency" := latencyMS, "jitter" := jitterMS])]
  }

  lemma NamesInFull(idx: nat)
    ensures ProxyName(idx) == "crdb-node-" + Itoa(idx)
    ensures UpName(idx) == "crdb-node-" + Itoa(idx) + "-latency-regional-up"
    ensures DownName(idx) == "crdb-node-" + Itoa(idx) + "-latency-regional-down"
  {
    var p := "crdb-node-" + Itoa(idx);
    assert UpName(idx) == p + ("-latency-regional" + "-up");
    assert DownName(idx) == p + ("-latency-regional" + "-down");
    assert "-latency-regional" + "-up" == "-latency-regional-up";
    assert "-latency-regional" + "-down" == "-latency-regional-down";
  }

  /** The baseline, region by region: 42±5 ms in us-east, 55±8 ms in us-west and 61±10 ms in
      eu-central, each way; nodes of other regions have no toxics. */
  lemma BaselineInFull(reg: Registry, topo: ClusterTopology, idx: nat)
    requires |topo.regions| > 0 && 1 <= idx <= topo.nodes && ProxyName(idx) in reg
    ensures var b, region := Baseline(reg, topo, topo.nodes), topo.NodeRegion(idx);
      && ProxyName(idx) in b && b[ProxyName(idx)].enabled
      && b[ProxyName(idx)].listen == reg[ProxyName(idx)].listen && b[ProxyName(idx)].upstream == reg[ProxyName(idx)].upstream
      && b[ProxyName(idx)].toxics
         == if region == "us-east" then PairInFull(idx, 42, 5)
            else if region == "us-west" then PairInFull(idx, 55, 8)
            else if region == "eu-central" then PairInFull(idx, 61, 10)
            else []
  {
    NodeOfProxyName(idx);
    ProxyNamesDiffer(idx, idx);
    NamesInFull(idx);
  }

  lemma BaselineStep(reg: Registry, topo: ClusterTopology, n: nat)
    requires |topo.regions| > 0 && n >= 1 && ProxyName(n) in reg
    ensures var before := Baseline(reg, topo, n - 1);
      && ProxyName(n) in before && before[ProxyName(n)] == Clean(reg[ProxyName(n)])
      && Baseline(reg, topo, n) == before[ProxyName(n) := Clean(reg[ProxyName(n)]).(toxics := BaselineToxics(topo, n))]
  {
    NodeOfProxyName(n);
    ProxyNamesDiffer(n, n);
    var before, after := Baseline(reg, topo, n - 1), Baseline(reg, topo, n);
    assert forall name :: name in reg && name != ProxyName(n) ==> after[name] == before[name];
  }

  lemma BothAdded(reg: Registry, idx: nat, latencyMS: int, jitterMS: int)
    requires ProxyName(idx) in reg && reg[ProxyName(idx)].toxics == []
    ensures var name := RegionalLatencyToxicName(idx);
      && NamedLatencyOk(reg, idx, name)
      && NamedLatency(reg, idx, name, latencyMS, jitterMS)
         == reg[ProxyName(idx) := reg[ProxyName(idx)].(toxics :=
              [LatencyToxic(UpName(idx), "upstream", latencyMS, jitterMS),
               LatencyToxic(DownName(idx), "downstream", latencyMS, jitterMS)])]
  {
    var name := RegionalLatencyToxicName(idx);
    SuffixesDiffer(name);
    var up := LatencyToxic(name + "-up", "upstream", latencyMS, jitterMS);
    var down := LatencyToxic(name + "-down", "downstream", latencyMS, jitterMS);
    var p := reg[ProxyName(idx)];
    var mid := Added(reg, ProxyName(idx), up);
    assert p.toxics + [up] == [up];
    assert mid == reg[ProxyName(idx) := p.(toxics := [up])];
    assert CanAdd(mid, ProxyName(idx), down);
    assert Added(mid, ProxyName(idx), down) == reg[ProxyName(idx) := p.(toxics := [up] + [down])];
    assert [up] + [down] == [up, down];
  }

  lemma NextBaseline(reg: Registry, topo: ClusterTopology, n: nat)
    requires |topo.regions| > 0 && n >= 1 && ProxyName(n) in reg
    ensures match WellKnownLatency(topo.NodeRegion(n))
      case None => Baseline(reg, topo, n) == Baseline(reg, topo, n - 1)
      case Some(lat) =>
        var before, name := Baseline(reg, topo, n - 1), RegionalLatencyToxicName(n);
        NamedLatencyOk(before, n, name) && NamedLatency(before, n, name, lat.0, lat.1) == Baseline(reg, topo, n)
  {
    BaselineStep(reg, topo, n);
    var before := Baseline(reg, topo, n - 1);
    match WellKnownLatency(topo.NodeRegion(n))
    case None =>
      assert Clean(reg[ProxyName(n)]).(toxics := []) == before[ProxyName(n)];
      assert before[ProxyName(n) := before[ProxyName(n)]] == before;
    case Some(lat) =>
      BothAdded(before, n, lat.0, lat.1);
  }

  lemma {:induction false} RegionalFromCleared(reg: Registry, topo: ClusterTopology, n: nat)
    requires |topo.regions| > 0 && AllRegistered(reg, n)
    ensures Regional(AllCleared(reg), topo, n) == (Baseline(reg, topo, n), true)
  {
    if n == 0 {
      assert Baseline(reg, topo, 0) == AllCleared(reg);
    } else {
      RegionalFromCleared(reg, topo, n - 1);
      NextBaseline(reg, topo, n);
    }
  }

  /** From any state in which the node proxies are registered, clearing everything and
      re-applying the regional latencies succeeds and gives exactly the baseline. */
  lemma ClearThenRegionalIsBaseline(reg: Registry, cs: seq<Command>, topo: ClusterTopology)
    requires |topo.regions| > 0 && AllRegistered(RunCommands(reg, cs), topo.nodes)
    ensures var s := RunCommands(reg, cs);
      && RunCommands(reg, cs + [ClearEverything, ApplyRegional(topo)]) == Baseline(s, topo, topo.nodes)
      && Regional(AllCleared(s), topo, topo.nodes).1
  {
    var s := RunCommands(reg, cs);
    RegionalFromCleared(s, topo, topo.nodes);
    var all := cs + [ClearEverything, ApplyRegional(topo)];
    assert all[..|all| - 1] == cs + [ClearEverything];
    assert (cs + [ClearEverything])[..|cs|] == cs;
  }

  /** The same, carried out by the client: two commands against a reliable server. */
  method RestoreBaseline(server: Server, topo: ClusterTopology) returns (ok: bool)
    requires server.Valid() && server.Reliable() && |topo.regions| > 0
    requires AllRegistered(server.proxies, topo.nodes)
    modifies server
    ensures ok && server.proxies == Baseline(old(server.proxies), topo, topo.nodes)
  {
    RegionalFromCleared(server.proxies, topo, topo.nodes);
    ghost var starts;
    ok, starts := ClearAll(server);
    ok := ApplyRegionalLatencies(server, topo);
  }

  lemma UpPresent(reg: Registry, topo: ClusterTopology, idx: nat)
    requires |topo.regions| > 0 && 1 <= idx <= topo.nodes && ProxyName(idx) in reg
    requires WellKnownLatency(topo.NodeRegion(idx)).Some?
    ensures var b := Baseline(reg, topo, topo.nodes);
      ProxyName(idx) in b && HasToxic(b[ProxyName(idx)].toxics, UpName(idx))
  {
    NodeOfProxyName(idx);
    ProxyNamesDiffer(idx, idx);
    var b := Baseline(reg, topo, topo.nodes);
    assert b[ProxyName(idx)].toxics == BaselineToxics(topo, idx);
    assert BaselineToxics(topo, idx)[0].name == UpName(idx);
  }

  /** On top of a baseline the regional command changes nothing, and it reports success only if
      no node has a well-known latency: it can be repeated only after a clear. */
  lemma {:induction false} RegionalNotRepeatable(reg: Registry, topo: ClusterTopology, m: nat)
    requires |topo.regions| > 0 && AllRegistered(reg, topo.nodes) && m <= topo.nodes
    ensures var b := Baseline(reg, topo, topo.nodes);
      Regional(b, topo, m) == (b, forall idx: nat :: 1 <= idx <= m ==> WellKnownLatency(topo.NodeRegion(idx)).None?)
  {
    if m > 0 {
      RegionalNotRepeatable(reg, topo, m - 1);
      var lat := WellKnownLatency(topo.NodeRegion(m));
      if lat.Some? { UpPresent(reg, topo, m); }
    }
  }

  lemma {:induction false} LaterProxiesUntouched(reg: Registry, topo: ClusterTopology, m: nat, name: string)
    requires |topo.regions| > 0 && forall idx: nat :: 1 <= idx <= m ==> ProxyName(idx) != name
    ensures SameProxy(reg, Regional(reg, topo, m).0, name)
  {
    if m > 0 { LaterProxiesUntouched(reg, topo, m - 1, name); }
  }

  /** On any registry at all the regional command succeeds exactly when every node of a region
      with a known latency has its proxy and neither of the two baseline toxics on it. */
  lemma {:induction false} RegionalSucceedsIff(reg: Registry, topo: ClusterTopology, n: nat)
    requires |topo.regions| > 0
    ensures Regional(reg, topo, n).1
        <==> forall idx: nat :: 1 <= idx <= n && WellKnownLatency(topo.NodeRegion(idx)).Some? ==>
               NamedLatencyOk(reg, idx, RegionalLatencyToxicName(idx))
  {
    if n > 0 {
      RegionalSucceedsIff(reg, topo, n - 1);
      forall idx: nat | 1 <= idx <= n - 1 ensures ProxyName(idx) != ProxyName(n) { ProxyNamesDiffer(idx, n); }
      LaterProxiesUntouched(reg, topo, n - 1, ProxyName(n));
    }
  }

  ghost predicate Known(topo: ClusterTopology, idx: nat)
    requires |topo.regions| > 0
  {
    idx >= 1 && WellKnownLatency(topo.NodeRegion(idx)).Some?
  }

  /** The registry with these nodes cleared. */
  function Without(b: Registry, nodes: set<nat>): Registry {
    map name | name in b :: if NodeOf(name).Some? && NodeOf(name).value in nodes then Clean(b[name]) else b[name]
  }

  lemma ClearedOneMore(b: Registry, nodes: set<nat>, i: nat)
    ensures Cleared(Without(b, nodes), i) == Without(b, nodes + {i})
  {
    NodeOfProxyName(i);
    assert forall name :: name in b && name != ProxyName(i) ==> NodeOf(name) != Some(i);
  }

  function Clears(nodes: seq<nat>): (cs: seq<Command>)
    ensures |cs| == |nodes|
    ensures forall i :: 0 <= i < |nodes| ==> cs[i] == Clear(nodes[i])
  {
    seq(|nodes|, i requires 0 <= i < |nodes| => Clear(nodes[i]))
  }

  function Among(nodes: seq<nat>): set<nat> { set i | i in nodes }

  lemma {:induction false} ClearsAreWithout(b: Registry, nodes: seq<nat>)
    ensures RunCommands(b, Clears(nodes)) == Without(b, Among(nodes))
  {
    if nodes == [] {
      assert Without(b, {}) == b;
    } else {
      var n := |nodes| - 1;
      ClearsAreWithout(b, nodes[..n]);
      ClearedOneMore(b, Among(nodes[..n]), nodes[n]);
      assert Clears(nodes)[..n] == Clears(nodes[..n]);
      assert Among(nodes) == Among(nodes[..n]) + {nodes[n]} by { assert nodes == nodes[..n] + [nodes[n]]; }
    }
  }

  function Later(nodes: set<nat>, m: nat): set<nat> { set i | i in nodes && i > m }

  /** The regional command gets as far as node m: every node up to there it applies to was cleared. */
  ghost predicate Unobstructed(topo: ClusterTopology, nodes: set<nat>, m: nat)
    requires |topo.regions| > 0
  {
    forall k: nat :: k <= m && Known(topo, k) ==> k in nodes
  }

  lemma BaselineAt(reg: Registry, topo: ClusterTopology, idx: nat)
    requires |topo.regions| > 0 && ProxyName(idx) in reg
    ensures var b := Baseline(reg, topo, topo.nodes);
      ProxyName(idx) in b && b[ProxyName(idx)]
        == Clean(reg[ProxyName(idx)]).(toxics := if 1 <= idx <= topo.nodes then BaselineToxics(topo, idx) else [])
  {
    NodeOfProxyName(idx);
    ProxyNamesDiffer(idx, idx);
  }

  /** Applied to a cleared node, the command gives it its pair back. */
  lemma Refill(reg: Registry, topo: ClusterTopology, nodes: set<nat>, m: nat)
    requires |topo.regions| > 0 && 1 <= m <= topo.nodes && ProxyName(m) in reg && m in nodes
    ensures var b := Baseline(reg, topo, topo.nodes);
      match WellKnownLatency(topo.NodeRegion(m))
      case None => Without(b, nodes) == Without(b, nodes - {m})
      case Some(lat) =>
        && NamedLatencyOk(Without(b, nodes), m, RegionalLatencyToxicName(m))
        && NamedLatency(Without(b, nodes), m, RegionalLatencyToxicName(m), lat.0, lat.1) == Without(b, nodes - {m})
  {
    BaselineAt(reg, topo, m);
    NodeOfProxyName(m);
    var b := Baseline(reg, topo, topo.nodes);
    var c := Without(b, nodes);
    assert Without(b, nodes - {m}) == c[ProxyName(m) := b[ProxyName(m)]];
    match WellKnownLatency(topo.NodeRegion(m))
    case None =>
    case Some(lat) => BothAdded(c, m, lat.0, lat.1);
  }

  lemma NodeZeroHasNoPair(reg: Registry, topo: ClusterTopology, nodes: set<nat>)
    requires |topo.regions| > 0
    ensures var b := Baseline(reg, topo, topo.nodes); Without(b, nodes) == Without(b, Later(nodes, 0))
  {
    if ProxyName(0) in reg {
      BaselineAt(reg, topo, 0);
      NodeOfProxyName(0);
    }
  }

  lemma {:induction false} RegionalRefills(reg: Registry, topo: ClusterTopology, nodes: set<nat>, m: nat)
    requires |topo.regions| > 0 && AllRegistered(reg, topo.nodes) && m <= topo.nodes && Unobstructed(topo, nodes, m)
    ensures var b := Baseline(reg, topo, topo.nodes);
      Regional(Without(b, nodes), topo, m) == (Without(b, Later(nodes, m)), true)
  {
    if m == 0 {
      NodeZeroHasNoPair(reg, topo, nodes);
    } else {
      RegionalRefills(reg, topo, nodes, m - 1);
      if m in nodes {
        assert Later(nodes, m) == Later(nodes, m - 1) - {m};
        Refill(reg, topo, Later(nodes, m - 1), m);
      } else {
        assert Later(nodes, m) == Later(nodes, m - 1);
        assert !Known(topo, m);
      }
    }
  }

  lemma Obstacle(reg: Registry, topo: ClusterTopology, nodes: set<nat>, f: nat)
    requires |topo.regions| > 0 && 1 <= f <= topo.nodes && ProxyName(f) in reg && Known(topo, f) && f !in nodes
    ensures var c, lat := Without(Baseline(reg, topo, topo.nodes), nodes), WellKnownLatency(topo.NodeRegion(f)).value;
      && NamedLatency(c, f, RegionalLatencyToxicName(f), lat.0, lat.1) == c
      && !NamedLatencyOk(c, f, RegionalLatencyToxicName(f))
  {
    UpPresent(reg, topo, f);
    NodeOfProxyName(f);
    var b := Baseline(reg, topo, topo.nodes);
    assert Without(b, nodes)[ProxyName(f)] == b[ProxyName(f)];
  }

  /** Node f is the first with a known latency that was not cleared: the command stops there. */
  lemma RegionalStopsAt(reg: Registry, topo: ClusterTopology, nodes: set<nat>, f: nat)
    requires |topo.regions| > 0 && AllRegistered(reg, topo.nodes) && 1 <= f <= topo.nodes
    requires Unobstructed(topo, nodes, f - 1) && Known(topo, f) && f !in nodes
    ensures var b := Baseline(reg, topo, topo.nodes);
      Regional(Without(b, nodes), topo, topo.nodes) == (Without(b, Later(nodes, f - 1)), false)
  {
    var b := Baseline(reg, topo, topo.nodes);
    RegionalRefills(reg, topo, nodes, f - 1);
    Obstacle(reg, topo, Later(nodes, f - 1), f);
    RegionalStops(Without(b, nodes), topo, f, topo.nodes);
  }

  lemma {:induction false} FirstObstacle(topo: ClusterTopology, nodes: set<nat>, n: nat) returns (f: nat)
    requires |topo.regions| > 0 && !Unobstructed(topo, nodes, n)
    ensures 1 <= f <= n && Known(topo, f) && f !in nodes && Unobstructed(topo, nodes, f - 1)
  {
    if n > 0 && !Unobstructed(topo, nodes, n - 1) {
      f := FirstObstacle(topo, nodes, n - 1);
    } else {
      f := n;
    }
  }

  /** A registry with nodes cleared is still the baseline exactly when none of them had a pair. */
  lemma WithoutIsBaselineIff(reg: Registry, topo: ClusterTopology, nodes: set<nat>)
    requires |topo.regions| > 0 && AllRegistered(reg, topo.nodes)
    ensures var b := Baseline(reg, topo, topo.nodes);
      Without(b, nodes) == b <==> forall i :: i in nodes && i <= topo.nodes ==> !Known(topo, i)
  {
    var b := Baseline(reg, topo, topo.nodes);
    if i :| i in nodes && i <= topo.nodes && Known(topo, i) {
      BaselineAt(reg, topo, i);
      NodeOfProxyName(i);
      assert Without(b, nodes)[ProxyName(i)] != b[ProxyName(i)];
    } else {
      forall name | name in b ensures Without(b, nodes)[name] == b[name] {
        if NodeOf(name).Some? { BaselineAt(reg, topo, NodeOf(name).value); }
      }
    }
  }

  /** Every cleared node with a known latency comes before every uncleared one. */
  ghost predicate ClearedFirst(topo: ClusterTopology, nodes: set<nat>)
    requires |topo.regions| > 0
  {
    forall i: nat, m: nat :: i in nodes && m < i <= topo.nodes && Known(topo, i) && Known(topo, m) ==> m in nodes
  }

  lemma NothingLeftIff(topo: ClusterTopology, nodes: set<nat>, f: nat)
    requires |topo.regions| > 0 && 1 <= f <= topo.nodes
    requires Unobstructed(topo, nodes, f - 1) && Known(topo, f) && f !in nodes
    ensures (forall i :: i in Later(nodes, f - 1) && i <= topo.nodes ==> !Known(topo, i)) <==> ClearedFirst(topo, nodes)
  {
    if forall i :: i in Later(nodes, f - 1) && i <= topo.nodes ==> !Known(topo, i) {
      forall i: nat, m: nat | i in nodes && m < i <= topo.nodes && Known(topo, i) && Known(topo, m) ensures m in nodes {
        assert i !in Later(nodes, f - 1);
      }
    } else {
      var i :| i in Later(nodes, f - 1) && i <= topo.nodes && Known(topo, i);
      assert i != f;
    }
  }

  /** After clearing any nodes of a baseline one by one, the regional command brings the baseline
      back exactly when the cleared nodes with a known latency come before the uncleared ones, and
      reports success exactly when every node with a known latency was cleared. */
  lemma ClearedNodesRestoredIff(reg: Registry, topo: ClusterTopology, nodes: seq<nat>)
    requires |topo.regions| > 0 && AllRegistered(reg, topo.nodes)
    ensures var b := Baseline(reg, topo, topo.nodes);
      var (after, ok) := Regional(RunCommands(b, Clears(nodes)), topo, topo.nodes);
      && (after == b <==> ClearedFirst(topo, Among(nodes)))
      && (ok <==> Unobstructed(topo, Among(nodes), topo.nodes))
  {
    var cleared := Among(nodes);
    ClearsAreWithout(Baseline(reg, topo, topo.nodes), nodes);
    if Unobstructed(topo, cleared, topo.nodes) {
      RegionalRefills(reg, topo, cleared, topo.nodes);
      WithoutIsBaselineIff(reg, topo, Later(cleared, topo.nodes));
    } else {
      var f := FirstObstacle(topo, cleared, topo.nodes);
      RegionalStopsAt(reg, topo, cleared, f);
      WithoutIsBaselineIff(reg, topo, Later(cleared, f - 1));
      NothingLeftIff(topo, cleared, f);
    }
  }

  /** Does an earlier node with a known latency stand in the way of node i? */
  ghost predicate Blocked(topo: ClusterTopology, i: nat)
    requires |topo.regions| > 0
  {
    exists m: nat :: m < i && Known(topo, m)
  }

  lemma OneClear(b: Registry, i: nat)
    ensures Among([i]) == {i}
    ensures RunCommands(b, Clears([i])) == Cleared(b, i) == Without(b, {i})
  {
    ClearsAreWithout(b, [i]);
    assert Without(b, {}) == b;
    ClearedOneMore(b, {}, i);
    assert Among([i]) == {} + {i} == {i};
  }

  /** After clearing a single node of a baseline the regional command brings the baseline back
      exactly when that node has no known latency or is the first that has one. Otherwise it
      stops at an earlier node, reports an error, and leaves the cleared node as it is. */
  lemma SingleClearRestoredIff(reg: Registry, topo: ClusterTopology, i: nat)
    requires |topo.regions| > 0 && AllRegistered(reg, topo.nodes) && 1 <= i <= topo.nodes
    ensures var b := Baseline(reg, topo, topo.nodes);
      var (after, ok) := Regional(Cleared(b, i), topo, topo.nodes);
      && (after == b <==> WellKnownLatency(topo.NodeRegion(i)).None? || !Blocked(topo, i))
      && (Blocked(topo, i) ==> (after, ok) == (Cleared(b, i), false))
  {
    ClearedNodesRestoredIff(reg, topo, [i]);
    OneClear(Baseline(reg, topo, topo.nodes), i);
    if Blocked(topo, i) {
      var m: nat :| m < i && Known(topo, m);
      var f := FirstObstacle(topo, {i}, m);
      assert Later({i}, f - 1) == {i};
      RegionalStopsAt(reg, topo, {i}, f);
    }
  }

  // ---------- what an injection shows ----------

  lemma ParameterRoundTrip(n: nat)
    ensures AtoiOrZero(Itoa(n)) == n
  {
    ItoaDigits(n);
    AtoiItoa(n);
  }

  /** The status label a fault is meant to produce, from the numbers it was given. */
  function ExpectedLabel(fault: string, a: nat, b: nat): string {
    if fault == LATENCY && b > 0 then "latency(" + Itoa(a) + "ms ±" + Itoa(b) + "ms)"
    else if fault == LATENCY then "latency(" + Itoa(a) + "ms)"
    else if fault == BANDWIDTH then "bandwidth(" + Itoa(a) + " KB/s)"
    else if fault == TIMEOUT then "timeout(" + Itoa(a) + "ms)"
    else "reset"
  }

  function Parameters(fault: string, a: nat, b: nat): map<string, string> {
    if fault == LATENCY then map["latency" := Itoa(a), "jitter" := Itoa(b)]
    else if fault == BANDWIDTH then map["rate" := Itoa(a)]
    else if fault == TIMEOUT then map["timeout" := Itoa(a)]
    else map[]
  }

  lemma LabelShowsParameters(idx: nat, fault: string, a: nat, b: nat)
    requires fault in [LATENCY, BANDWIDTH, TIMEOUT, RESET]
    ensures var t := FaultToxic(idx, fault, Parameters(fault, a, b));
      t.Some? && FormatToxic(t.value) == ExpectedLabel(fault, a, b)
  {
    ParameterRoundTrip(a);
    ParameterRoundTrip(b);
    assert |LATENCY| == 7 && |BANDWIDTH| == 9 && |TIMEOUT| == 7 && LATENCY[0] == 'l' && TIMEOUT[0] == 't';
  }

  /** The toxics of a clean proxy after an injection, in full. */
  function InjectedInFull(idx: nat, fault: string, a: nat, b: nat): seq<Toxic> {
    if fault == "latency" then
      [Toxic("crdb-node-" + Itoa(idx) + "-latency", "latency", "downstream", 100, map["latency" := a, "jitter" := b])]
    else if fault == "bandwidth" then
      [Toxic("crdb-node-" + Itoa(idx) + "-bandwidth", "bandwidth", "downstream", 100, map["rate" := a])]
    else if fault == "timeout" then
      [Toxic("crdb-node-" + Itoa(idx) + "-timeout", "timeout", "downstream", 100, map["timeout" := a])]
    else if fault == "reset_peer" then
      [Toxic("crdb-node-" + Itoa(idx) + "-reset_peer", "reset_peer", "downstream", 100, map[])]
    else []
  }

  lemma FaultInFull(idx: nat, fault: string, a: nat, b: nat)
    requires fault in ["latency", "bandwidth", "timeout", "reset_peer"]
    ensures FaultToxic(idx, fault, Parameters(fault, a, b)).Some?
    ensures [FaultToxic(idx, fault, Parameters(fault, a, b)).value] == InjectedInFull(idx, fault, a, b)
  {
    ParameterRoundTrip(a);
    ParameterRoundTrip(b);
    assert "crdb-node-" + Itoa(idx) + "-latency" == FaultToxicName(idx, "latency");
    assert "crdb-node-" + Itoa(idx) + "-bandwidth" == FaultToxicName(idx, "bandwidth");
    assert "crdb-node-" + Itoa(idx) + "-timeout" == FaultToxicName(idx, "timeout");
    assert "crdb-node-" + Itoa(idx) + "-reset_peer" == FaultToxicName(idx, "reset_peer");
  }

  lemma AddedAlone(reg: Registry, name: string, t: Toxic)
    requires name in reg && reg[name] == Clean(reg[name])
    ensures var after := Added(reg, name, t);
      && after == reg[name := reg[name].(toxics := [t])]
      && StatusOf(after[name]) == [FormatToxic(t)]
      && after[name := Clean(after[name])] == reg
  {
    assert reg[name].toxics + [t] == [t];
    var after := Added(reg, name, t);
    assert FormatAll([t]) == [FormatToxic(t)];
    assert Clean(after[name]) == reg[name];
  }

  /** What an injection leaves on a clean proxy: a partition disables it, any other fault adds one
      downstream toxic with the parameters given, and nothing else changes. */
  lemma InjectionInFull(reg: Registry, idx: nat, fault: string, a: nat, b: nat)
    requires ProxyName(idx) in reg && reg[ProxyName(idx)] == Clean(reg[ProxyName(idx)])
    requires fault in ["latency", "bandwidth", "timeout", "reset_peer", "partition"]
    ensures Injected(reg, idx, fault, Parameters(fault, a, b))
         == reg[ProxyName(idx) := reg[ProxyName(idx)].(enabled := fault != "partition", toxics := InjectedInFull(idx, fault, a, b))]
  {
    if fault != "partition" {
      FaultInFull(idx, fault, a, b);
      AddedAlone(reg, ProxyName(idx), FaultToxic(idx, fault, Parameters(fault, a, b)).value);
    }
  }

  /** Parameters that are missing or not numerals count as zero; a sign is understood. */
  lemma ParametersInFull(attrs: map<string, string>, key: string, n: nat)
    ensures key !in attrs ==> Attr(attrs, key) == 0
    ensures AtoiOrZero("") == 0 && AtoiOrZero("-") == 0 && AtoiOrZero("ten") == 0
    ensures AtoiOrZero(Itoa(n)) == n && AtoiOrZero("+" + Itoa(n)) == n && AtoiOrZero("-" + Itoa(n)) + n == 0
  {
    ParameterRoundTrip(n);
    AtoiItoa(n);
    assert ("+" + Itoa(n))[1..] == Itoa(n) && ("-" + Itoa(n))[1..] == Itoa(n);
    assert "-"[1..] == "";
  }

  /** A fault injected on a clean proxy shows up in its status with the parameters given on the
      command line, a partition as such, and clearing brings back the clean proxy. */
  lemma InjectionShowsInStatus(reg: Registry, idx: nat, fault: string, a: nat, b: nat)
    requires ProxyName(idx) in reg && reg[ProxyName(idx)] == Clean(reg[ProxyName(idx)])
    requires fault in [LATENCY, BANDWIDTH, TIMEOUT, RESET, PARTITION]
    ensures var after := Injected(reg, idx, fault, Parameters(fault, a, b));
      && ProxyName(idx) in after
      && StatusOf(after[ProxyName(idx)]) == [if fault == PARTITION then PARTITIONED else ExpectedLabel(fault, a, b)]
      && Cleared(after, idx) == reg
  {
    if fault == PARTITION {
      var after := Saved(reg, ProxyName(idx), false);
      assert Clean(after[ProxyName(idx)]) == reg[ProxyName(idx)];
      assert Cleared(after, idx) == reg;
    } else {
      LabelShowsParameters(idx, fault, a, b);
      AddedAlone(reg, ProxyName(idx), FaultToxic(idx, fault, Parameters(fault, a, b)).value);
    }
  }

  // ---------- severed nodes and quorum ----------

  predicate Severed(reg: Registry, idx: nat) {
    ProxyName(idx) in reg && !reg[ProxyName(idx)].enabled
  }

  /** What the commands say: the last partition or clear that reached the node decides. */
  function LastWord(cs: seq<Command>, idx: nat, initially: bool): bool {
    if cs == [] then initially
    else
      var before := LastWord(cs[..|cs| - 1], idx, initially);
      match cs[|cs| - 1]
      case Inject(node, fault, _) => if node == idx && fault == PARTITION then true else before
      case Clear(node) => if node == idx then false else before
      case ClearEverything => false
      case _ => before
  }

  lemma {:induction false} RegionalKeepsEnabled(reg: Registry, topo: ClusterTopology, n: nat, name: string)
    requires |topo.regions| > 0 && name in reg
    ensures name in Regional(reg, topo, n).0 && Regional(reg, topo, n).0[name].enabled == reg[name].enabled
  {
    if n > 0 { RegionalKeepsEnabled(reg, topo, n - 1, name); }
  }

  lemma {:induction false} SetupKeepsProxies(reg: Registry, n: nat, name: string)
    requires name in reg
    ensures name in Ensured(reg, n) && Ensured(reg, n)[name] == reg[name]
  {
    if n > 0 { SetupKeepsProxies(reg, n - 1, name); }
  }

  lemma CommandSevers(reg: Registry, c: Command, idx: nat)
    requires ProxyName(idx) in reg
    ensures ProxyName(idx) in Exec(reg, c)
    ensures Severed(Exec(reg, c), idx) == LastWord([c], idx, Severed(reg, idx))
  {
    assert [c][..0] == [];
    ProxyNamesDiffer(idx, idx);
    match c
    case Inject(node, fault, attrs) => ProxyNamesDiffer(node, idx);
    case Clear(node) => ProxyNamesDiffer(node, idx);
    case ClearEverything =>
    case ApplyRegional(topo) => if |topo.regions| > 0 { RegionalKeepsEnabled(reg, topo, topo.nodes, ProxyName(idx)); }
    case Setup(nodes) => SetupKeepsProxies(reg, nodes, ProxyName(idx));
  }

  /** A registered node is severed exactly when the last partition or clear naming it was a
      partition; latency, bandwidth, timeout, reset, regional and setup commands never matter. */
  lemma {:induction false} SeveredByLastWord(reg: Registry, cs: seq<Command>, idx: nat)
    requires ProxyName(idx) in reg
    ensures ProxyName(idx) in RunCommands(reg, cs)
    ensures Severed(RunCommands(reg, cs), idx) == LastWord(cs, idx, Severed(reg, idx))
  {
    if cs != [] {
      var n := |cs| - 1;
      SeveredByLastWord(reg, cs[..n], idx);
      CommandSevers(RunCommands(reg, cs[..n]), cs[n], idx);
      assert [cs[n]][..0] == [];
    }
  }

  /** Three replicas inside one home region, as the zone configs require. */
  ghost predicate Placement(topo: ClusterTopology, region: string, replicas: set<nat>)
    requires |topo.regions| > 0
  {
    |replicas| == 3 && forall r :: r in replicas ==> 1 <= r <= topo.nodes && topo.NodeRegion(r) == region
  }

  ghost function Live(reg: Registry, replicas: set<nat>): set<nat> {
    set r | r in replicas && !Severed(reg, r)
  }

  ghost predicate HasMajority(reg: Registry, replicas: set<nat>) { |Live(reg, replicas)| >= 2 }

  ghost predicate TwoSevered(reg: Registry, nodes: set<nat>) {
    exists a, b :: a in nodes && b in nodes && a != b && Severed(reg, a) && Severed(reg, b)
  }

  lemma MajorityLostIffTwoSevered(reg: Registry, replicas: set<nat>)
    requires |replicas| == 3
    ensures !HasMajority(reg, replicas) <==> TwoSevered(reg, replicas)
  {
    var live := Live(reg, replicas);
    var dead := replicas - live;
    assert replicas == live + dead && live !! dead;
    assert |dead| == 3 - |live|;
    if TwoSevered(reg, replicas) {
      var a, b :| a in replicas && b in replicas && a != b && Severed(reg, a) && Severed(reg, b);
      assert {a, b} <= dead;
      assert |dead| == |dead - {a, b}| + |{a, b}|;
    }
    if |dead| >= 2 {
      var a :| a in dead;
      assert |dead - {a}| >= 1;
      var b :| b in dead - {a};
      assert Severed(reg, a) && Severed(reg, b);
    }
  }

  lemma SeveredIsLastWord(reg: Registry, cs: seq<Command>, replicas: set<nat>)
    requires forall r :: r in replicas ==> ProxyName(r) in reg && !Severed(reg, r)
    ensures forall r :: r in replicas ==> Severed(RunCommands(reg, cs), r) == LastWord(cs, r, false)
  {
    forall r | r in replicas ensures Severed(RunCommands(reg, cs), r) == LastWord(cs, r, false) {
      SeveredByLastWord(reg, cs, r);
    }
  }

  /** In any run over nodes that start connected, a home region's partition is without its
      majority exactly when two of its replicas were last told to partition. */
  lemma QuorumFollowsCommands(reg: Registry, cs: seq<Command>, topo: ClusterTopology, region: string, replicas: set<nat>)
    requires |topo.regions| > 0 && Placement(topo, region, replicas)
    requires forall r :: r in replicas ==> ProxyName(r) in reg && !Severed(reg, r)
    ensures !HasMajority(RunCommands(reg, cs), replicas)
      <==> exists a, b :: a in replicas && b in replicas && a != b && LastWord(cs, a, false) && LastWord(cs, b, false)
  {
    SeveredIsLastWord(reg, cs, replicas);
    MajorityLostIffTwoSevered(RunCommands(reg, cs), replicas);
  }

  /** Whatever the commands, losing the majority takes two distinct severed nodes of the
      partition's own region. */
  lemma LossTakesTwoOfOwnRegion(reg: Registry, topo: ClusterTopology, region: string, replicas: set<nat>)
    requires |topo.regions| > 0 && Placement(topo, region, replicas)
    ensures !HasMajority(reg, replicas) ==>
      exists a: nat, b: nat :: 1 <= a <= topo.nodes && 1 <= b <= topo.nodes && a != b
        && topo.NodeRegion(a) == region && topo.NodeRegion(b) == region && Severed(reg, a) && Severed(reg, b)
  {
    MajorityLostIffTwoSevered(reg, replicas);
  }

  lemma SameSizeSubset(a: set<nat>, b: set<nat>)
    requires a <= b && |a| == |b|
    ensures a == b
  {
    assert |b - a| == |b| - |a|;
  }

  /** With exactly three nodes in the region the placement is forced, so two severed nodes of
      the region always take its partition down and one never does. */
  lemma ThreeNodeRegion(reg: Registry, topo: ClusterTopology, region: string, replicas: set<nat>)
    requires |topo.regions| > 0 && Placement(topo, region, replicas)
    requires |set r: nat | 1 <= r <= topo.nodes && topo.NodeRegion(r) == region| == 3
    ensures var nodes := set r: nat | 1 <= r <= topo.nodes && topo.NodeRegion(r) == region;
      !HasMajority(reg, replicas) <==> TwoSevered(reg, nodes)
  {
    var nodes := set r: nat | 1 <= r <= topo.nodes && topo.NodeRegion(r) == region;
    SameSizeSubset(replicas, nodes);
    MajorityLostIffTwoSevered(reg, replicas);
  }

  /** The multi-geo topology deals its nodes to the three regions in this order. */
  lemma MultiGeoInFull(n: nat, idx: nat)
    requires idx >= 1
    ensures MultiGeoTopology(n).mode == "multi-geo" && MultiGeoTopology(n).nodes == n
    ensures MultiGeoTopology(n).NodeRegion(idx)
         == if idx % 3 == 1 then "us-east" else if idx % 3 == 2 then "us-west" else "eu-central"
    ensures SingleRegionTopology().mode == "single-region" && SingleRegionTopology().nodes == 3
    ensures SingleRegionTopology().NodeRegion(idx) == "us-west"
  {
  }

  lemma NodesOfNine(j: nat, r: nat)
    requires j < 3 && 1 <= r <= 9
    ensures var topo := MultiGeoTopology(9); topo.NodeRegion(r) == topo.regions[j] <==> r in {j + 1, j + 4, j + 7}
  {
    var topo := MultiGeoTopology(9);
    assert topo.regions[0][3] == 'e' && topo.regions[1][3] == 'w' && topo.regions[2][0] == 'e' && topo.regions[0][0] == 'u';
  }

  /** The nine-node cluster: its regions hold nodes 1 4 7, 2 5 8 and 3 6 9, a home partition's
      replicas can only be those, and it is down exactly when two of them are severed. */
  lemma NineNodes(reg: Registry, j: nat, replicas: set<nat>)
    requires j < 3
    ensures var topo, nodes := MultiGeoTopology(9), {j + 1, j + 4, j + 7};
      && (Placement(topo, topo.regions[j], replicas) <==> replicas == nodes)
      && (replicas == nodes ==> (!HasMajority(reg, replicas) <==> TwoSevered(reg, nodes)))
  {
    var topo, nodes := MultiGeoTopology(9), {j + 1, j + 4, j + 7};
    assert |nodes| == 3;
    forall r: nat | 1 <= r <= 9 ensures topo.NodeRegion(r) == topo.regions[j] <==> r in nodes { NodesOfNine(j, r); }
    if Placement(topo, topo.regions[j], replicas) { SameSizeSubset(replicas, nodes); }
    if replicas == nodes { MajorityLostIffTwoSevered(reg, nodes); }
  }

  /** Partitioning or clearing a node of one region never changes another region's majority. */
  lemma OtherRegionsKeepMajority(reg: Registry, c: Command, topo: ClusterTopology, region: string, replicas: set<nat>)
    requires |topo.regions| > 0 && Placement(topo, region, replicas)
    requires (c.Inject? || c.Clear?) && 1 <= c.node <= topo.nodes && topo.NodeRegion(c.node) != region
    ensures HasMajority(Exec(reg, c), replicas) == HasMajority(reg, replicas)
  {
    forall r | r in replicas ensures Severed(Exec(reg, c), r) == Severed(reg, r) {
      ProxyNamesDiffer(c.node, r);
    }
    assert Live(Exec(reg, c), replicas) == Live(reg, replicas);
  }
}
