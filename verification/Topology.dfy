/** Cluster topology, node creation and hot scaling. Docker is reduced to the list of node
    containers with their labels; which calls fail is a parameter. */
module Topology {
  import opened Sequences
  import opened Text
  import opened Cyclic

  const MULTI_GEO := "multi-geo"
  const SINGLE_REGION := "single-region"
  const LABEL_CLUSTER_MODE := "cdbct.cluster-mode"
  const LABEL_NODE_IDX := "cdbct.node-index"

  datatype ClusterTopology = ClusterTopology(mode: string, regions: seq<string>, nodes: nat) {
    /** Node indices are 1-based. */
    function NodeRegion(idx: nat): string
      requires |regions| > 0 && idx >= 1
    {
      regions[(idx - 1) % |regions|]
    }
  }

  function MultiGeoTopology(nodes: nat): ClusterTopology {
    ClusterTopology(MULTI_GEO, ["us-east", "us-west", "eu-central"], nodes)
  }

  function SingleRegionTopology(): ClusterTopology {
    ClusterTopology(SINGLE_REGION, ["us-west"], 3)
  }

  /** A topology made by one of the two constructors, possibly scaled since. */
  predicate Standard(topo: ClusterTopology) {
    topo == MultiGeoTopology(topo.nodes) || topo == SingleRegionTopology().(nodes := topo.nodes)
  }

  function ClusterTopologyFromLabels(labels: map<string, string>, nodeCount: nat): ClusterTopology {
    var mode := if LABEL_CLUSTER_MODE in labels then labels[LABEL_CLUSTER_MODE] else "";
    if mode == SINGLE_REGION then SingleRegionTopology().(nodes := nodeCount) else MultiGeoTopology(nodeCount)
  }

  function Labels(topo: ClusterTopology, idx: nat): map<string, string> {
    map[LABEL_NODE_IDX := Itoa(idx), LABEL_CLUSTER_MODE := topo.mode]
  }

  /** Reading the topology back from a node's labels gives the created one, with the current
      count, exactly for the standard topologies. */
  lemma LabelsRoundTrip(topo: ClusterTopology, idx: nat)
    ensures ClusterTopologyFromLabels(Labels(topo, idx), topo.nodes) == topo <==> Standard(topo)
  {
  }

  // ---------- ports ----------

  datatype PortKind = SqlPort | HttpPort | RpcPort

  function HostPort(kind: PortKind, idx: nat): int {
    match kind
    case SqlPort => 26257 - 1 + idx
    case HttpPort => 8080 - 1 + idx
    case RpcPort => 26357 - 1 + idx
  }

  /** Host ports of nodes 1..n never collide exactly as long as there are at most 100 nodes:
      node 101's SQL port is node 1's RPC port. */
  lemma PortsDistinctUpTo100(n: nat)
    ensures (forall k1: PortKind, k2: PortKind, i: nat, j: nat ::
               1 <= i <= n && 1 <= j <= n && HostPort(k1, i) == HostPort(k2, j) ==> k1 == k2 && i == j)
        <==> n <= 100
  {
    if n > 100 {
      assert HostPort(SqlPort, 101) == HostPort(RpcPort, 1);
    }
  }

  // ---------- containers ----------

  datatype Container = Container(labels: map<string, string>, locality: string, sqlPort: int, httpPort: int, rpcPort: int)

  datatype NodeInfo = NodeInfo(index: nat, sqlPort: int, httpPort: int)

  function NodeContainer(topo: ClusterTopology, idx: nat): Container
    requires |topo.regions| > 0 && idx >= 1
  {
    Container(Labels(topo, idx), topo.NodeRegion(idx),
              HostPort(SqlPort, idx), HostPort(HttpPort, idx), HostPort(RpcPort, idx))
  }

  /** Nodes 1..n, in creation order. */
  function Nodes(topo: ClusterTopology, n: nat): (nodes: seq<Container>)
    requires |topo.regions| > 0
    ensures |nodes| == n
    ensures forall i :: 0 <= i < n ==> nodes[i] == NodeContainer(topo, i + 1)
  {
    seq(n, i requires 0 <= i < n => NodeContainer(topo, i + 1))
  }

  function IndexOf(c: Container): nat {
    if LABEL_NODE_IDX !in c.labels then 0
    else match Atoi(c.labels[LABEL_NODE_IDX])
      case None => 0
      case Some(n) => n
  }

  lemma NodeIndex(topo: ClusterTopology, idx: nat)
    requires |topo.regions| > 0 && idx >= 1
    ensures IndexOf(NodeContainer(topo, idx)) == idx
  {
    AtoiItoa(idx);
  }

  function InfoOf(idx: nat): NodeInfo { NodeInfo(idx, HostPort(SqlPort, idx), HostPort(HttpPort, idx)) }

  /** In full: what node idx is given, and what is reported of it. */
  lemma NodeInFull(topo: ClusterTopology, idx: nat)
    requires |topo.regions| > 0 && idx >= 1
    ensures var c := NodeContainer(topo, idx);
      && c.sqlPort == 26256 + idx && c.httpPort == 8079 + idx && c.rpcPort == 26356 + idx
      && c.locality == topo.regions[(idx - 1) % |topo.regions|]
      && c.labels == map["cdbct.node-index" := Itoa(idx), "cdbct.cluster-mode" := topo.mode]
    ensures InfoOf(idx) == NodeInfo(idx, NodeContainer(topo, idx).sqlPort, NodeContainer(topo, idx).httpPort)
  {
  }

  datatype Faults = Faults(create: bool, start: bool)

  /** What else can fail in creating a cluster: pulling the image, making the network and starting
      the proxy container come before the nodes, waiting for them and initialising after. */
  datatype SetupFaults = SetupFaults(image: bool, network: bool, proxy: bool, wait: bool, init: bool) {
    predicate BeforeNodes() { image || network || proxy }
  }

  datatype Creation = Initialised(infos: seq<NodeInfo>) | Failed | Crashed

  /** None of the first n nodes fails to be created or started. */
  ghost predicate Healthy(faults: nat -> Faults, n: nat) {
    forall k: nat :: k < n ==> !faults(k).create && !faults(k).start
  }

  /** Every node of the topology gets started: none was there, and nothing fails up to then. */
  ghost predicate AllStart(before: seq<Container>, topo: ClusterTopology, setup: SetupFaults, faults: nat -> Faults) {
    !setup.BeforeNodes() && before == [] && Healthy(faults, topo.nodes)
  }

  lemma ListedIndex(topo: ClusterTopology, n: nat, listing: seq<Container>, i: nat)
    requires |topo.regions| > 0 && multiset(listing) == multiset(Nodes(topo, n)) && i < |listing|
    ensures 1 <= IndexOf(listing[i]) <= n
  {
    assert listing[i] in multiset(Nodes(topo, n));
    var k :| 0 <= k < n && Nodes(topo, n)[k] == listing[i];
    NodeIndex(topo, k + 1);
  }

  lemma LastIsListed(topo: ClusterTopology, n: nat, listing: seq<Container>)
    requires |topo.regions| > 0 && multiset(listing) == multiset(Nodes(topo, n)) && n > 0
    ensures exists i :: 0 <= i < |listing| && IndexOf(listing[i]) == n
  {
    assert Nodes(topo, n)[n - 1] in multiset(listing);
    var i :| 0 <= i < |listing| && listing[i] == Nodes(topo, n)[n - 1];
    NodeIndex(topo, n);
  }

  class Docker {
    var containers: seq<Container>
    /** The mode and regions the cluster was created with. */
    ghost var base: ClusterTopology

    constructor () ensures containers == [] { containers := []; }

    /** The containers are nodes 1..n of the base topology, whose locality never changes. */
    ghost predicate Valid()
      reads this
    {
      |base.regions| > 0 && containers == Nodes(base, |containers|)
    }

    /** Names are derived from the index, so an index in use is refused. */
    method StartNode(idx: nat, topo: ClusterTopology, faults: Faults) returns (info: Option<NodeInfo>)
      requires Valid() && |topo.regions| > 0 && idx >= 1
      requires idx <= |containers| + 1
      requires idx == |containers| + 1 ==> topo.mode == base.mode && topo.regions == base.regions
      modifies `containers
      ensures Valid()
      ensures |containers| == old(|containers|) + if idx > old(|containers|) && !faults.create then 1 else 0
      ensures info == if idx > old(|containers|) && !faults.create && !faults.start then Some(InfoOf(idx)) else None
    {
      var taken := false;
      var i := 0;
      while i < |containers|
        invariant 0 <= i <= |containers| && containers == old(containers)
        invariant taken <==> idx <= i
      {
        NodeIndex(base, i + 1);
        if IndexOf(containers[i]) == idx { taken := true; }
        i := i + 1;
      }
      if taken || faults.create { return None; }
      containers := containers + [NodeContainer(topo, idx)];
      assert Labels(topo, idx) == Labels(base, idx);
      assert containers == Nodes(base, |containers|);
      if faults.start { return None; }
      info := Some(NodeInfo(idx, HostPort(SqlPort, idx), HostPort(HttpPort, idx)));
    }

    /** The loop of CreateCluster: it stops at the first node that does not start. */
    method StartNodes(topo: ClusterTopology, faults: nat -> Faults) returns (infos: Option<seq<NodeInfo>>)
      requires Valid() && |topo.regions| > 0 && (containers == [] ==> base == topo)
      modifies `containers
      ensures Valid()
      ensures infos.Some? <==> topo.nodes == 0 || (old(containers) == [] && Healthy(faults, topo.nodes))
      ensures infos.Some? ==> |infos.value| == topo.nodes
      ensures infos.Some? ==> forall i :: 0 <= i < topo.nodes ==> infos.value[i] == NodeInfo(i + 1, 26257 + i, 8080 + i)
      ensures infos.Some? && old(containers) == [] ==> |containers| == topo.nodes
      ensures old(containers) != [] ==> containers == old(containers)
      ensures old(containers) == [] ==> |containers| <= topo.nodes
      ensures old(containers) == [] ==> forall k: nat :: k < topo.nodes ==> (k < |containers| <==> Healthy(faults, k) && !faults(k).create)
    {
      var started: seq<NodeInfo> := [];
      var i := 0;
      while i < topo.nodes
        invariant 0 <= i <= topo.nodes
        invariant Valid() && Healthy(faults, i)
        invariant old(containers) == [] ==> |containers| == i
        invariant old(containers) != [] ==> i == 0 && containers == old(containers)
        invariant |started| == i && forall k :: 0 <= k < i ==> started[k] == InfoOf(k + 1)
      {
        var info := StartNode(i + 1, topo, faults(i));
        if info.None? { return None; }
        started := started + [info.value];
        i := i + 1;
      }
      infos := Some(started);
    }

    /** Creates nodes 1..topo.nodes; an error leaves the nodes created so far. On a host that
        already has node 1 it fails and changes nothing. Asked for no nodes it gets as far as
        initialising the first of them, which is not there; a negative count crashes it while it
        builds the join list. The topology holds the count asked for unless that is negative. */
    method CreateCluster(topo: ClusterTopology, count: int, setup: SetupFaults, faults: nat -> Faults) returns (outcome: Creation)
      requires |topo.regions| > 0 && topo.nodes == if count < 0 then 0 else count
      requires containers != [] ==> Valid()
      modifies this
      ensures Valid()
      ensures old(containers) == [] ==> base == topo && |containers| <= topo.nodes
      ensures old(containers) != [] ==> containers == old(containers) && base == old(base)
      ensures setup.BeforeNodes() ==> containers == old(containers)
      ensures outcome.Initialised? <==>
        && count > 0 && old(containers) == []
        && !setup.image && !setup.network && !setup.proxy && !setup.wait && !setup.init
        && forall k: nat :: k < count ==> !faults(k).create && !faults(k).start
      ensures outcome.Crashed? <==>
        !setup.image && !setup.network && !setup.proxy && (count < 0 || (count == 0 && !setup.wait))
      ensures AllStart(old(containers), topo, setup, faults) && topo.nodes > 0 ==> |containers| == topo.nodes
      ensures outcome.Initialised? ==> |outcome.infos| == topo.nodes
      ensures outcome.Initialised? ==> forall i :: 0 <= i < topo.nodes ==> outcome.infos[i] == NodeInfo(i + 1, 26257 + i, 8080 + i)
      ensures old(containers) == [] && !setup.BeforeNodes() ==> forall k: nat :: k < topo.nodes ==>
        (k < |containers| <==> Healthy(faults, k) && !faults(k).create)
    {
      if |containers| == 0 { base := topo; }
      if setup.image || setup.network || setup.proxy { return Failed; }
      if count < 0 { return Crashed; }
      var started := StartNodes(topo, faults);
      if started.None? || setup.wait { return Failed; }
      if |started.value| == 0 { return Crashed; }
      outcome := if setup.init then Failed else Initialised(started.value);
    }

    method MaxIndex(listing: seq<Container>) returns (maxIdx: nat)
      requires Valid() && multiset(listing) == multiset(containers)
      ensures maxIdx == |containers|
    {
      maxIdx := 0;
      var i := 0;
      while i < |listing|
        invariant 0 <= i <= |listing|
        invariant maxIdx <= |containers|
        invariant forall k :: 0 <= k < i ==> IndexOf(listing[k]) <= maxIdx
      {
        ListedIndex(base, |containers|, listing, i);
        if IndexOf(listing[i]) > maxIdx { maxIdx := IndexOf(listing[i]); }
        i := i + 1;
      }
      if |containers| > 0 { LastIsListed(base, |containers|, listing); }
    }

    /** Adds one node after the highest index; the listing is in whatever order Docker returns,
        and the proxy container is looked at before the node is started. */
    method AddNode(listing: Option<seq<Container>>, proxyFails: bool, faults: Faults) returns (info: Option<NodeInfo>)
      requires Valid() && Standard(base)
      requires listing.Some? ==> multiset(listing.value) == multiset(containers)
      modifies `containers
      ensures Valid()
      ensures |containers| == old(|containers|)
        + if listing.Some? && old(containers) != [] && !proxyFails && !faults.create then 1 else 0
      ensures info.Some? <==> listing.Some? && old(containers) != [] && !proxyFails && !faults.create && !faults.start
      ensures info.Some? ==> info.value == InfoOf(|containers|)
    {
      if listing.None? { return None; }
      var existing := listing.value;
      assert |multiset(existing)| == |multiset(containers)|;
      if |existing| == 0 { return None; }
      var maxIdx := MaxIndex(existing);
      assert existing[0] in multiset(containers);
      var topo := ClusterTopologyFromLabels(existing[0].labels, maxIdx + 1);
      if proxyFails { return None; }
      info := StartNode(maxIdx + 1, topo, faults);
    }

    /** The topology read back is the created one with the current node count. When the listing
        fails the caller gets an error beside the default topology. */
    method GetClusterTopology(listing: Option<seq<Container>>) returns (topo: ClusterTopology, ok: bool)
      requires Valid() && Standard(base)
      requires listing.Some? ==> multiset(listing.value) == multiset(containers)
      ensures ok == listing.Some?
      ensures topo == if !ok || containers == [] then MultiGeoTopology(9) else base.(nodes := |containers|)
    {
      if listing.None? { return MultiGeoTopology(9), false; }
      var nodes := listing.value;
      assert |multiset(nodes)| == |multiset(containers)|;
      if |nodes| == 0 { return MultiGeoTopology(9), true; }
      assert nodes[0] in multiset(containers);
      topo, ok := ClusterTopologyFromLabels(nodes[0].labels, |nodes|), true;
    }
  }

  function LocatedIn(region: string): Container -> bool { (c: Container) => c.locality == region }

  lemma NodesGrow(topo: ClusterTopology, n: nat)
    requires |topo.regions| > 0
    ensures Nodes(topo, n + 1) == Nodes(topo, n) + [NodeContainer(topo, n + 1)]
  {
  }

  lemma {:induction false} NodesPerRegion(topo: ClusterTopology, n: nat, j: nat)
    requires Distinct(topo.regions) && j < |topo.regions|
    ensures Count(Nodes(topo, n), LocatedIn(topo.regions[j])) == Dealt(n, |topo.regions|, j)
  {
    if n > 0 {
      var last := NodeContainer(topo, n);
      NodesPerRegion(topo, n - 1, j);
      NodesGrow(topo, n - 1);
      CountAppend(Nodes(topo, n - 1), last, LocatedIn(topo.regions[j]));
      assert LocatedIn(topo.regions[j])(last) <==> (n - 1) % |topo.regions| == j;
    }
  }

  /** Regions' node counts differ by at most one at every size, and growing the cluster leaves
      every node where it was. */
  lemma NodesBalancedAndStable(topo: ClusterTopology, n: nat, more: nat, i: nat, j: nat)
    requires Distinct(topo.regions) && i < |topo.regions| && j < |topo.regions|
    ensures -1 <= Count(Nodes(topo, n), LocatedIn(topo.regions[i])) - Count(Nodes(topo, n), LocatedIn(topo.regions[j])) <= 1
    ensures Nodes(topo, n) <= Nodes(topo, n + more)
  {
    NodesPerRegion(topo, n, i);
    NodesPerRegion(topo, n, j);
    StretchBalanced(0, n, |topo.regions|, i, j);
  }
}
