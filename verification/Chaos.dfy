/** The chaos client: faults, clearing, regional baselines and status, over the Toxiproxy API. */
module Chaos {
  import opened Sequences
  import opened Text
  import opened Topology
  import opened Toxiproxy

  // ---------- names ----------

  const NODE_PREFIX := "crdb-node-"

  function ProxyName(idx: nat): string { NODE_PREFIX + Itoa(idx) }

  predicate IsCRDBProxy(name: string) {
    |name| > |NODE_PREFIX| && name[..|NODE_PREFIX|] == NODE_PREFIX
  }

  /** Node proxies are exactly those whose name goes on behind the prefix. */
  lemma CRDBProxyIff(name: string)
    ensures IsCRDBProxy(name) <==> exists rest: string :: rest != "" && name == "crdb-node-" + rest
  {
    if IsCRDBProxy(name) {
      assert name == "crdb-node-" + name[|NODE_PREFIX|..];
    }
    if rest: string :| rest != "" && name == "crdb-node-" + rest {
      assert name[..|NODE_PREFIX|] == NODE_PREFIX;
    }
  }

  function RegionalLatencyToxicName(idx: nat): string { "crdb-node-" + Itoa(idx) + "-latency-regional" }

  lemma ProxyNamesDiffer(i: nat, j: nat)
    ensures ProxyName(i) == ProxyName(j) ==> i == j
    ensures IsCRDBProxy(ProxyName(i))
  {
    SamePrefix(NODE_PREFIX, Itoa(i), Itoa(j));
    ItoaInjective(i, j);
    ItoaDigits(i);
    assert ProxyName(i)[..|NODE_PREFIX|] == NODE_PREFIX;
  }

  function UpName(idx: nat): string { RegionalLatencyToxicName(idx) + "-up" }
  function DownName(idx: nat): string { RegionalLatencyToxicName(idx) + "-down" }
  function FaultToxicName(idx: nat, fault: string): string { ProxyName(idx) + "-" + fault }

  // ---------- injecting ----------

  const LATENCY := "latency"
  const BANDWIDTH := "bandwidth"
  const TIMEOUT := "timeout"
  const RESET := "reset_peer"
  const PARTITION := "partition"

  /** strconv.Atoi with its error ignored: an optional sign and digits, anything else is 0. */
  function AtoiOrZero(s: string): int {
    var negative := s != "" && s[0] == '-';
    var digits := if s != "" && (s[0] == '-' || s[0] == '+') then s[1..] else s;
    match Atoi(digits)
    case None => 0
    case Some(n) => var v: int := n; if negative then -v else v
  }

  function Attr(attrs: map<string, string>, key: string): int {
    if key in attrs then AtoiOrZero(attrs[key]) else 0
  }

  /** The toxic a fault adds; None for an unknown fault type. */
  function FaultToxic(idx: nat, fault: string, attrs: map<string, string>): Option<Toxic> {
    var name := FaultToxicName(idx, fault);
    if fault == LATENCY then
      Some(Toxic(name, "latency", "downstream", 100, map["latency" := Attr(attrs, "latency"), "jitter" := Attr(attrs, "jitter")]))
    else if fault == BANDWIDTH then
      Some(Toxic(name, "bandwidth", "downstream", 100, map["rate" := Attr(attrs, "rate")]))
    else if fault == TIMEOUT then
      Some(Toxic(name, "timeout", "downstream", 100, map["timeout" := Attr(attrs, "timeout")]))
    else if fault == RESET then
      Some(Toxic(name, "reset_peer", "downstream", 100, map[]))
    else None
  }

  /** The registry after a delivered InjectFault. */
  ghost function Injected(reg: Registry, idx: nat, fault: string, attrs: map<string, string>): Registry {
    if fault == PARTITION then Saved(reg, ProxyName(idx), false)
    else match FaultToxic(idx, fault, attrs)
      case None => reg
      case Some(t) => Added(reg, ProxyName(idx), t)
  }

  /** The injections that go through: a known fault on a known proxy, not injected already. */
  ghost predicate InjectOk(reg: Registry, idx: nat, fault: string, attrs: map<string, string>) {
    && ProxyName(idx) in reg
    && (fault == PARTITION
        || (FaultToxic(idx, fault, attrs).Some? && CanAdd(reg, ProxyName(idx), FaultToxic(idx, fault, attrs).value)))
  }

  method InjectFault(server: Server, idx: nat, fault: string, attrs: map<string, string>) returns (ok: bool)
    requires server.Valid()
    modifies server
    ensures server.Valid() && (old(server.Reliable()) ==> server.Reliable())
    ensures server.proxies == old(server.proxies) || server.proxies == Injected(old(server.proxies), idx, fault, attrs)
    ensures old(server.Reliable()) ==> server.proxies == Injected(old(server.proxies), idx, fault, attrs)
    ensures ok ==> server.proxies == Injected(old(server.proxies), idx, fault, attrs)
    ensures ok ==> InjectOk(old(server.proxies), idx, fault, attrs)
    ensures old(server.Reliable()) ==> (ok <==> InjectOk(old(server.proxies), idx, fault, attrs))
  {
    var p := server.GetProxy(ProxyName(idx));
    if p.None? { return false; }
    if fault == PARTITION {
      ok := server.Save(ProxyName(idx), false);
      return;
    }
    var toxicName := ProxyName(idx) + "-" + fault;
    if fault == LATENCY {
      ok := server.AddToxic(ProxyName(idx), Toxic(toxicName, "latency", "downstream", 100,
        map["latency" := Attr(attrs, "latency"), "jitter" := Attr(attrs, "jitter")]));
    } else if fault == BANDWIDTH {
      ok := server.AddToxic(ProxyName(idx), Toxic(toxicName, "bandwidth", "downstream", 100,
        map["rate" := Attr(attrs, "rate")]));
    } else if fault == TIMEOUT {
      ok := server.AddToxic(ProxyName(idx), Toxic(toxicName, "timeout", "downstream", 100,
        map["timeout" := Attr(attrs, "timeout")]));
    } else if fault == RESET {
      ok := server.AddToxic(ProxyName(idx), Toxic(toxicName, "reset_peer", "downstream", 100, map[]));
    } else {
      ok := false;
    }
  }

  function LatencyToxic(name: string, stream: string, latencyMS: int, jitterMS: int): Toxic {
    Toxic(name, "latency", stream, 100, map["latency" := latencyMS, "jitter" := jitterMS])
  }

  /** The registry after a delivered InjectNamedLatency: both directions, or neither once the
      upstream name is taken. */
  ghost function NamedLatency(reg: Registry, idx: nat, name: string, latencyMS: int, jitterMS: int): Registry {
    var up := LatencyToxic(name + "-up", "upstream", latencyMS, jitterMS);
    var down := LatencyToxic(name + "-down", "downstream", latencyMS, jitterMS);
    if CanAdd(reg, ProxyName(idx), up) then Added(Added(reg, ProxyName(idx), up), ProxyName(idx), down) else reg
  }

  ghost predicate NamedLatencyOk(reg: Registry, idx: nat, name: string) {
    && ProxyName(idx) in reg
    && !HasToxic(reg[ProxyName(idx)].toxics, name + "-up")
    && !HasToxic(reg[ProxyName(idx)].toxics, name + "-down")
  }

  lemma SuffixesDiffer(name: string)
    ensures name + "-up" != name + "-down"
  {
    assert |name + "-up"| != |name + "-down"|;
  }

  method InjectNamedLatency(server: Server, idx: nat, name: string, latencyMS: int, jitterMS: int) returns (ok: bool)
    requires server.Valid()
    modifies server
    ensures server.Valid() && (old(server.Reliable()) ==> server.Reliable())
    ensures || server.proxies == old(server.proxies)
            || server.proxies == Added(old(server.proxies), ProxyName(idx), LatencyToxic(name + "-up", "upstream", latencyMS, jitterMS))
            || server.proxies == NamedLatency(old(server.proxies), idx, name, latencyMS, jitterMS)
    ensures ok ==> NamedLatencyOk(old(server.proxies), idx, name)
    ensures ok ==> server.proxies == NamedLatency(old(server.proxies), idx, name, latencyMS, jitterMS)
    ensures old(server.Reliable()) ==>
      && server.proxies == NamedLatency(old(server.proxies), idx, name, latencyMS, jitterMS)
      && (ok <==> NamedLatencyOk(old(server.proxies), idx, name))
    ensures var up := LatencyToxic(name + "-up", "upstream", latencyMS, jitterMS);
      CanAdd(old(server.proxies), ProxyName(idx), up)
      && server.fate(old(server.calls)) == Delivered && server.fate(old(server.calls) + 1) == Delivered
      && server.fate(old(server.calls) + 2) == Lost
      ==> !ok && server.proxies == Added(old(server.proxies), ProxyName(idx), up)
  {
    SuffixesDiffer(name);
    var p := server.GetProxy(ProxyName(idx));
    if p.None? { return false; }
    ok := server.AddToxic(ProxyName(idx), LatencyToxic(name + "-up", "upstream", latencyMS, jitterMS));
    if !ok { return; }
    ok := server.AddToxic(ProxyName(idx), LatencyToxic(name + "-down", "downstream", latencyMS, jitterMS));
  }

  // ---------- registering proxies ----------

  function NodeProxy(idx: nat): Proxy {
    Proxy("0.0.0.0:" + Itoa(26000 + idx), "cdbct-crdb-" + Itoa(idx) + ":26357", true, [])
  }

  /** Nodes 1..n registered, existing proxies untouched. */
  function Ensured(reg: Registry, n: nat): Registry {
    if n == 0 then reg
    else
      var r := Ensured(reg, n - 1);
      if ProxyName(n) in r then r else r[ProxyName(n) := NodeProxy(n)]
  }

  ghost predicate OnlyNodesAdded(before: Registry, after: Registry) {
    && (forall name :: name in before ==> name in after && after[name] == before[name])
    && (forall name :: name in after && name !in before ==> exists idx: nat :: name == ProxyName(idx) && after[name] == NodeProxy(idx))
  }

  ghost predicate AllRegistered(reg: Registry, n: nat) {
    forall idx: nat :: 1 <= idx <= n ==> ProxyName(idx) in reg
  }

  lemma ListensDiffer(idx: nat, other: nat)
    ensures NodeProxy(idx).listen == NodeProxy(other).listen ==> idx == other
  {
    SamePrefix("0.0.0.0:", Itoa(26000 + idx), Itoa(26000 + other));
    ItoaInjective(26000 + idx, 26000 + other);
  }

  /** In full: node idx's proxy listens on 26000 + idx and leads to the node's own RPC port, so no two
      proxies listen on the same address or lead to the same node. */
  lemma NodeProxyInFull(idx: nat, other: nat)
    ensures NodeProxy(idx) == Proxy("0.0.0.0:" + Itoa(26000 + idx), "cdbct-crdb-" + Itoa(idx) + ":26357", true, [])
    ensures NodeProxy(idx).listen == NodeProxy(other).listen || NodeProxy(idx).upstream == NodeProxy(other).upstream ==> idx == other
  {
    ListensDiffer(idx, other);
    assert NodeProxy(idx).upstream == "cdbct-crdb-" + (Itoa(idx) + ":26357");
    assert NodeProxy(other).upstream == "cdbct-crdb-" + (Itoa(other) + ":26357");
    SamePrefix("cdbct-crdb-", Itoa(idx) + ":26357", Itoa(other) + ":26357");
    SameSuffix(Itoa(idx), Itoa(other), ":26357");
    ItoaInjective(idx, other);
  }

  function Registered(reg: Registry, idx: nat): Registry {
    Created(reg, ProxyName(idx), NodeProxy(idx).listen, NodeProxy(idx).upstream)
  }

  ghost predicate RegisteredSoFar(before: Registry, reg: Registry, n: nat, reliable: bool) {
    OnlyNodesAdded(before, reg) && AllRegistered(reg, n) && (reliable ==> reg == Ensured(before, n))
  }

  lemma RegisteringKeeps(before: Registry, reg: Registry, idx: nat)
    requires OnlyNodesAdded(before, reg)
    ensures OnlyNodesAdded(before, Registered(reg, idx))
  {
  }

  lemma RegisteredOneMore(before: Registry, reg: Registry, n: nat, reliable: bool)
    requires RegisteredSoFar(before, reg, n, reliable)
    ensures RegisteredSoFar(before, Registered(reg, n + 1), n + 1, reliable)
    ensures ProxyName(n + 1) in reg ==> Registered(reg, n + 1) == reg
  {
    RegisteringKeeps(before, reg, n + 1);
  }

  /** Asks for each node's proxy first and creates it only if the question fails. */
  method EnsureProxies(server: Server, n: nat) returns (ok: bool)
    requires server.Valid()
    modifies server
    ensures server.Valid() && (old(server.Reliable()) ==> server.Reliable())
    ensures OnlyNodesAdded(old(server.proxies), server.proxies)
    ensures ok ==> AllRegistered(server.proxies, n)
    ensures old(server.Reliable()) ==> ok && server.proxies == Ensured(old(server.proxies), n)
  {
    ghost var before, reliable := server.proxies, server.Reliable();
    var i := 0;
    while i < n
      invariant 0 <= i <= n
      invariant server.Valid() && (reliable ==> server.Reliable())
      invariant RegisteredSoFar(before, server.proxies, i, reliable)
    {
      var idx := i + 1;
      RegisteredOneMore(before, server.proxies, i, reliable);
      var p := server.GetProxy(ProxyName(idx));
      if p.None? {
        var created, conflict := server.CreateProxy(ProxyName(idx), NodeProxy(idx).listen, NodeProxy(idx).upstream);
        if !created { return false; }
      }
      i := i + 1;
    }
    ok := true;
  }

  /** The registration done when the proxy container starts: it posts every node and accepts a
      conflict. Delivered, it leaves the same registry as EnsureProxies. */
  method RegisterToxiproxyProxies(server: Server, n: nat) returns (ok: bool)
    requires server.Valid()
    modifies server
    ensures server.Valid() && (old(server.Reliable()) ==> server.Reliable())
    ensures OnlyNodesAdded(old(server.proxies), server.proxies)
    ensures ok ==> AllRegistered(server.proxies, n)
    ensures old(server.Reliable()) ==> ok && server.proxies == Ensured(old(server.proxies), n)
  {
    ghost var before, reliable := server.proxies, server.Reliable();
    var i := 0;
    while i < n
      invariant 0 <= i <= n
      invariant server.Valid() && (reliable ==> server.Reliable())
      invariant RegisteredSoFar(before, server.proxies, i, reliable)
    {
      var idx := i + 1;
      RegisteredOneMore(before, server.proxies, i, reliable);
      var created, conflict := server.CreateProxy(ProxyName(idx), NodeProxy(idx).listen, NodeProxy(idx).upstream);
      if !created && !conflict { return false; }
      i := i + 1;
    }
    ok := true;
  }

  // ---------- clearing ----------

  function Clean(p: Proxy): Proxy { p.(enabled := true, toxics := []) }

  function Cleared(reg: Registry, idx: nat): Registry {
    if ProxyName(idx) in reg then reg[ProxyName(idx) := Clean(reg[ProxyName(idx)])] else reg
  }

  function AllCleared(reg: Registry): Registry {
    map n | n in reg :: if IsCRDBProxy(n) then Clean(reg[n]) else reg[n]
  }

  /** The proxy lost no ground: nothing was added to it and it was not disabled. */
  ghost predicate NoWorse(before: Proxy, after: Proxy) {
    && after.listen == before.listen && after.upstream == before.upstream
    && (before.enabled ==> after.enabled)
    && (forall t :: t in after.toxics ==> t in before.toxics)
  }

  /** Only the proxies selected changed, each for the better. */
  ghost predicate OnlyImproved(before: Registry, after: Registry, who: string -> bool) {
    && before.Keys == after.Keys
    && forall n :: n in before ==> if who(n) then NoWorse(before[n], after[n]) else after[n] == before[n]
  }

  function Only(name: string): string -> bool { (n: string) => n == name }
  function CRDBProxies(): string -> bool { (n: string) => IsCRDBProxy(n) }

  lemma ImprovementsChain(a: Registry, b: Registry, c: Registry, who: string -> bool)
    requires OnlyImproved(a, b, who) && OnlyImproved(b, c, who)
    ensures OnlyImproved(a, c, who)
  {
  }

  function WithToxics(reg: Registry, name: string, toxics: seq<Toxic>): Registry
    requires name in reg
  {
    reg[name := reg[name].(toxics := toxics)]
  }

  lemma RemovingNext(reg: Registry, name: string, toxics: seq<Toxic>, i: nat)
    requires name in reg && DistinctNames(toxics) && i < |toxics|
    ensures CanRemove(WithToxics(reg, name, toxics[i..]), name, toxics[i].name)
    ensures Removed(WithToxics(reg, name, toxics[i..]), name, toxics[i].name) == WithToxics(reg, name, toxics[i + 1..])
  {
    RemovingHead(toxics[i..]);
    assert toxics[i..][0] == toxics[i] && toxics[i] in toxics[i..];
    assert toxics[i..][1..] == toxics[i + 1..];
  }

  lemma SuffixImproves(reg: Registry, name: string, i: nat)
    requires name in reg && i <= |reg[name].toxics|
    ensures OnlyImproved(reg, WithToxics(reg, name, reg[name].toxics[i..]), Only(name))
  {
  }

  /** The removal loop of ClearFaults: it stops at the first error. */
  method RemoveListed(server: Server, name: string, toxics: seq<Toxic>) returns (ok: bool)
    requires server.Valid() && name in server.proxies && server.proxies[name].toxics == toxics
    modifies server
    ensures server.Valid() && (old(server.Reliable()) ==> server.Reliable())
    ensures OnlyImproved(old(server.proxies), server.proxies, Only(name))
    ensures ok ==> server.proxies == WithToxics(old(server.proxies), name, [])
    ensures old(server.Reliable()) ==> ok
  {
    ghost var before, reliable := server.proxies, server.Reliable();
    assert toxics[0..] == toxics;
    var i := 0;
    while i < |toxics|
      invariant 0 <= i <= |toxics|
      invariant server.Valid() && (reliable ==> server.Reliable())
      invariant server.proxies == WithToxics(before, name, toxics[i..])
    {
      RemovingNext(before, name, toxics, i);
      SuffixImproves(before, name, i);
      SuffixImproves(before, name, i + 1);
      ok := server.RemoveToxic(name, toxics[i].name);
      if !ok { return; }
      i := i + 1;
    }
    assert toxics[i..] == [];
    SuffixImproves(before, name, i);
    ok := true;
  }

  /** A nil error means the proxy is enabled and has no toxics; an error never made it worse.
      Either way no other proxy changed. */
  method ClearFaults(server: Server, idx: nat) returns (ok: bool)
    requires server.Valid()
    modifies server
    ensures server.Valid() && (old(server.Reliable()) ==> server.Reliable())
    ensures OnlyImproved(old(server.proxies), server.proxies, Only(ProxyName(idx)))
    ensures ok ==> ProxyName(idx) in old(server.proxies) && server.proxies == Cleared(old(server.proxies), idx)
    ensures old(server.Reliable()) ==> server.proxies == Cleared(old(server.proxies), idx)
    ensures old(server.Reliable()) ==> (ok <==> ProxyName(idx) in old(server.proxies))
  {
    var name := ProxyName(idx);
    var p := server.GetProxy(name);
    if p.None? { return false; }
    if !p.value.enabled {
      ok := server.Save(name, true);
      if !ok { return; }
    }
    var toxics := server.GetToxics(name);
    if toxics.None? { return false; }
    ghost var enabled := server.proxies;
    ok := RemoveListed(server, name, toxics.value);
    ImprovementsChain(old(server.proxies), enabled, server.proxies, Only(name));
  }

  /** The toxics after the first done removals. */
  function Remaining(toxics: seq<Toxic>, fate: nat -> Fate, start: nat, done: nat): seq<Toxic>
    requires done <= |toxics|
  {
    if done == 0 then toxics
    else
      var before := Remaining(toxics, fate, start, done - 1);
      if fate(start + done - 1) == Lost then before else Filter(before, NotNamed(toxics[done - 1].name))
  }

  lemma {:induction false} RemainingAreListed(toxics: seq<Toxic>, fate: nat -> Fate, start: nat, done: nat)
    requires done <= |toxics|
    ensures forall t :: t in Remaining(toxics, fate, start, done) ==> t in toxics
  {
    if done > 0 {
      RemainingAreListed(toxics, fate, start, done - 1);
      FilterMembers(Remaining(toxics, fate, start, done - 1), NotNamed(toxics[done - 1].name));
    }
  }

  /** The k-th toxic is still there unless its removal was reached and not lost. */
  lemma {:induction false} RemainsIffLost(toxics: seq<Toxic>, fate: nat -> Fate, start: nat, done: nat, k: nat)
    requires DistinctNames(toxics) && done <= |toxics| && k < |toxics|
    ensures toxics[k] in Remaining(toxics, fate, start, done) <==> k >= done || fate(start + k) == Lost
  {
    if done > 0 {
      RemainsIffLost(toxics, fate, start, done - 1, k);
      FilterMembers(Remaining(toxics, fate, start, done - 1), NotNamed(toxics[done - 1].name));
    }
  }

  /** The removal loop of ClearAll: it carries on whatever happens. */
  method RemoveListedIgnoringErrors(server: Server, name: string, toxics: seq<Toxic>)
    requires server.Valid() && name in server.proxies && server.proxies[name].toxics == toxics
    modifies server
    ensures server.Valid() && (old(server.Reliable()) ==> server.Reliable())
    ensures server.proxies == WithToxics(old(server.proxies), name, Remaining(toxics, server.fate, old(server.calls), |toxics|))
    ensures server.calls == old(server.calls) + |toxics|
  {
    assert server.proxies == WithToxics(server.proxies, name, toxics);
    var i := 0;
    while i < |toxics|
      invariant 0 <= i <= |toxics| && server.calls == old(server.calls) + i
      invariant server.Valid()
      invariant server.proxies == WithToxics(old(server.proxies), name, Remaining(toxics, server.fate, old(server.calls), i))
    {
      var removed := server.RemoveToxic(name, toxics[i].name);
      i := i + 1;
    }
  }

  /** None of count calls from number start on was lost. */
  ghost predicate NoneLost(fate: nat -> Fate, start: nat, count: nat) {
    forall k: nat :: start <= k < start + count ==> fate(k) != Lost
  }

  /** The number of calls before the removals of ClearAll's pass over one proxy. */
  function CallsBeforeRemovals(p: Proxy): nat { if p.enabled then 2 else 3 }

  /** The pass over a proxy, whose first call is number start, gets through to it: the proxy is
      found; if it was disabled, enabling it is not lost; and if it had toxics, they are listed
      and no removal is lost. */
  ghost predicate PassGetsThrough(fate: nat -> Fate, start: nat, p: Proxy) {
    && fate(start) == Delivered
    && (!p.enabled ==> fate(start + 1) != Lost)
    && (p.toxics != [] ==>
          && fate(start + CallsBeforeRemovals(p) - 1) == Delivered
          && NoneLost(fate, start + CallsBeforeRemovals(p), |p.toxics|))
  }

  /** Is the proxy clean after a pass that starts at call number start? */
  ghost predicate EndsClean(fate: nat -> Fate, start: nat, p: Proxy) {
    p == Clean(p) || PassGetsThrough(fate, start, p)
  }

  lemma NoneRemains(toxics: seq<Toxic>, fate: nat -> Fate, start: nat)
    requires DistinctNames(toxics)
    ensures Remaining(toxics, fate, start, |toxics|) == [] <==> NoneLost(fate, start, |toxics|)
  {
    var left := Remaining(toxics, fate, start, |toxics|);
    if left != [] {
      RemainingAreListed(toxics, fate, start, |toxics|);
      assert left[0] in toxics;
      var k :| 0 <= k < |toxics| && toxics[k] == left[0];
      RemainsIffLost(toxics, fate, start, |toxics|, k);
      assert fate(start + k) == Lost;
    } else {
      forall k: nat | start <= k < start + |toxics| ensures fate(k) != Lost {
        RemainsIffLost(toxics, fate, start, |toxics|, k - start);
      }
    }
  }

  /** What one pass of ClearAll did to a proxy. */
  ghost predicate PassOutcome(fate: nat -> Fate, start: nat, before: Proxy, after: Proxy) {
    && NoWorse(before, after)
    && (after == Clean(before) <==> EndsClean(fate, start, before))
  }

  lemma PassClean(fate: nat -> Fate, start: nat, before: Proxy, enabled: bool, left: seq<Toxic>)
    requires fate(start) == Delivered && enabled == (before.enabled || fate(start + 1) != Lost)
    requires forall t :: t in left ==> t in before.toxics
    requires left == [] <==>
      || before.toxics == []
      || (fate(start + CallsBeforeRemovals(before) - 1) == Delivered
          && NoneLost(fate, start + CallsBeforeRemovals(before), |before.toxics|))
    ensures PassOutcome(fate, start, before, before.(enabled := enabled, toxics := left))
  {
  }

  /** The toxics part of a pass, over a proxy already found and enabled if that went through. */
  method ClearToxics(server: Server, name: string)
    requires server.Valid() && name in server.proxies
    modifies server
    ensures server.Valid() && (old(server.Reliable()) ==> server.Reliable())
    ensures name in server.proxies && server.proxies == WithToxics(old(server.proxies), name, server.proxies[name].toxics)
    ensures forall t :: t in server.proxies[name].toxics ==> t in old(server.proxies)[name].toxics
    ensures server.calls > old(server.calls)
    ensures server.proxies[name].toxics == [] <==>
      || old(server.proxies)[name].toxics == []
      || (server.fate(old(server.calls)) == Delivered
          && NoneLost(server.fate, old(server.calls) + 1, |old(server.proxies)[name].toxics|))
  {
    ghost var toxics := server.proxies[name].toxics;
    assert server.proxies == WithToxics(server.proxies, name, toxics);
    var listed := server.GetToxics(name);
    ghost var start := server.calls;
    if listed.Some? {
      RemoveListedIgnoringErrors(server, name, listed.value);
      NoneRemains(toxics, server.fate, start);
      RemainingAreListed(toxics, server.fate, start, |toxics|);
    }
  }

  /** One proxy of ClearAll; every error is ignored. */
  method ClearOne(server: Server, name: string)
    requires server.Valid() && name in server.proxies
    modifies server
    ensures server.Valid() && (old(server.Reliable()) ==> server.Reliable())
    ensures OnlyImproved(old(server.proxies), server.proxies, Only(name))
    ensures PassOutcome(server.fate, old(server.calls), old(server.proxies)[name], server.proxies[name])
    ensures server.fate(old(server.calls)) == Lost ==> server.proxies == old(server.proxies)
    ensures server.calls > old(server.calls)
  {
    var p := server.GetProxy(name);
    if p.None? { return; }
    if !p.value.enabled {
      var saved := server.Save(name, true);
    }
    ghost var enabled := server.proxies[name].enabled;
    ClearToxics(server, name);
    PassClean(server.fate, old(server.calls), old(server.proxies)[name], enabled, server.proxies[name].toxics);
  }

  lemma OneOfMany(before: Registry, after: Registry, name: string)
    requires OnlyImproved(before, after, Only(name)) && IsCRDBProxy(name)
    ensures OnlyImproved(before, after, CRDBProxies())
  {
  }

  /** A run of ClearAll in which proxy n's pass started at call number starts[n]. */
  ghost predicate Passes(fate: nat -> Fate, from: nat, starts: map<string, nat>, before: Registry, after: Registry, left: set<string>)
    requires before.Keys == after.Keys
  {
    forall n :: n in before && IsCRDBProxy(n) ==>
      if n in left then after[n] == before[n]
      else n in starts && starts[n] > from && PassOutcome(fate, starts[n], before[n], after[n])
  }

  lemma PassesStep(fate: nat -> Fate, from: nat, starts: map<string, nat>, before: Registry, mid: Registry, after: Registry,
                   left: set<string>, name: string, start: nat)
    requires OnlyImproved(before, mid, CRDBProxies()) && OnlyImproved(mid, after, Only(name))
    requires Passes(fate, from, starts, before, mid, left)
    requires name in left && name in before && IsCRDBProxy(name)
    requires start > from && PassOutcome(fate, start, mid[name], after[name])
    ensures OnlyImproved(before, after, CRDBProxies())
    ensures Passes(fate, from, starts[name := start], before, after, left - {name})
  {
    OneOfMany(mid, after, name);
    ImprovementsChain(before, mid, after, CRDBProxies());
  }

  /** When every call is answered, every pass gets through. */
  lemma AnsweredPassesGetThrough(fate: nat -> Fate, from: nat, start: nat, p: Proxy)
    requires start >= from && forall k: nat :: k >= from ==> fate(k) == Delivered
    ensures EndsClean(fate, start, p)
  {
  }

  lemma AllClearedIff(fate: nat -> Fate, from: nat, starts: map<string, nat>, before: Registry, after: Registry)
    requires OnlyImproved(before, after, CRDBProxies()) && Passes(fate, from, starts, before, after, {})
    ensures after == AllCleared(before)
        <==> forall n :: n in before && IsCRDBProxy(n) ==> n in starts && EndsClean(fate, starts[n], before[n])
    ensures (forall k: nat :: k >= from ==> fate(k) == Delivered) ==> after == AllCleared(before)
  {
    if forall k: nat :: k >= from ==> fate(k) == Delivered {
      forall n | n in before && IsCRDBProxy(n) ensures after[n] == Clean(before[n]) {
        AnsweredPassesGetThrough(fate, from, starts[n], before[n]);
      }
    }
    assert after == AllCleared(before) <==> forall n :: n in before && IsCRDBProxy(n) ==> after[n] == Clean(before[n]);
  }

  /** Clears every node proxy the API lists, in whatever order the map is ranged over. Its error
      says only whether the listing arrived: the proxies are all clean exactly when every pass
      got through to a proxy that needed it, and nothing changes when every later call is lost. */
  method ClearAll(server: Server) returns (ok: bool, ghost starts: map<string, nat>)
    requires server.Valid()
    modifies server
    ensures server.Valid() && (old(server.Reliable()) ==> server.Reliable())
    ensures ok <==> server.fate(old(server.calls)) == Delivered
    ensures !ok ==> server.proxies == old(server.proxies)
    ensures OnlyImproved(old(server.proxies), server.proxies, CRDBProxies())
    ensures ok ==> Passes(server.fate, old(server.calls), starts, old(server.proxies), server.proxies, {})
    ensures ok ==> (server.proxies == AllCleared(old(server.proxies)) <==>
      forall n :: n in old(server.proxies) && IsCRDBProxy(n) ==> n in starts && EndsClean(server.fate, starts[n], old(server.proxies)[n]))
    ensures old(server.Reliable()) ==> ok && server.proxies == AllCleared(old(server.proxies))
    ensures (forall k: nat :: k > old(server.calls) ==> server.fate(k) == Lost) ==> server.proxies == old(server.proxies)
  {
    starts := map[];
    var listed := server.ListProxies();
    if listed.None? { return false, starts; }
    ghost var from := old(server.calls);
    var names := listed.value.Keys;
    while names != {}
      invariant names <= old(server.proxies).Keys
      invariant server.Valid() && (old(server.Reliable()) ==> server.Reliable()) && server.calls > from
      invariant OnlyImproved(old(server.proxies), server.proxies, CRDBProxies())
      invariant Passes(server.fate, from, starts, old(server.proxies), server.proxies, names)
      invariant (forall k: nat :: k > from ==> server.fate(k) == Lost) ==> server.proxies == old(server.proxies)
      decreases names
    {
      var name :| name in names;
      if IsCRDBProxy(name) {
        ghost var before, start := server.proxies, server.calls;
        ClearOne(server, name);
        PassesStep(server.fate, from, starts, old(server.proxies), before, server.proxies, names, name, start);
        starts := starts[name := start];
      }
      names := names - {name};
    }
    AllClearedIff(server.fate, from, starts, old(server.proxies), server.proxies);
    ok := true;
  }

  // ---------- regional baselines ----------

  /** One-way latency and jitter in ms. */
  function WellKnownLatency(region: string): Option<(int, int)> {
    if region == "us-east" then Some((42, 5))
    else if region == "us-west" then Some((55, 8))
    else if region == "eu-central" then Some((61, 10))
    else None
  }

  /** Baselines applied to nodes 1..n, stopping at the first error. */
  ghost function Regional(reg: Registry, topo: ClusterTopology, n: nat): (r: (Registry, bool))
    requires |topo.regions| > 0
  {
    if n == 0 then (reg, true)
    else
      var (r, ok) := Regional(reg, topo, n - 1);
      if !ok then (r, false)
      else match WellKnownLatency(topo.NodeRegion(n))
        case None => (r, true)
        case Some(lat) =>
          var name := RegionalLatencyToxicName(n);
          (NamedLatency(r, n, name, lat.0, lat.1), NamedLatencyOk(r, n, name))
  }

  lemma {:induction false} RegionalStops(reg: Registry, topo: ClusterTopology, m: nat, n: nat)
    requires |topo.regions| > 0 && m <= n && !Regional(reg, topo, m).1
    ensures Regional(reg, topo, n) == Regional(reg, topo, m)
    decreases n
  {
    if m < n { RegionalStops(reg, topo, m, n - 1); }
  }

  /** Nodes 1..m got their baselines and node m + 1 at most its upstream toxic, or both with the
      reply lost; no other proxy changed after that. */
  ghost predicate StoppedAfter(before: Registry, after: Registry, topo: ClusterTopology, m: nat)
    requires |topo.regions| > 0
  {
    var (reg, ok) := Regional(before, topo, m);
    var lat, name := WellKnownLatency(topo.NodeRegion(m + 1)), RegionalLatencyToxicName(m + 1);
    ok && lat.Some? &&
    (|| after == reg
     || after == Added(reg, ProxyName(m + 1), LatencyToxic(name + "-up", "upstream", lat.value.0, lat.value.1))
     || after == NamedLatency(reg, m + 1, name, lat.value.0, lat.value.1))
  }

  method ApplyRegionalLatencies(server: Server, topo: ClusterTopology) returns (ok: bool)
    requires server.Valid() && |topo.regions| > 0
    modifies server
    ensures server.Valid() && (old(server.Reliable()) ==> server.Reliable())
    ensures ok ==> (server.proxies, true) == Regional(old(server.proxies), topo, topo.nodes)
    ensures !ok ==> exists m: nat :: m < topo.nodes && StoppedAfter(old(server.proxies), server.proxies, topo, m)
    ensures old(server.Reliable()) ==> (server.proxies, ok) == Regional(old(server.proxies), topo, topo.nodes)
  {
    var i := 0;
    while i < topo.nodes
      invariant 0 <= i <= topo.nodes
      invariant server.Valid() && (old(server.Reliable()) ==> server.Reliable())
      invariant (server.proxies, true) == Regional(old(server.proxies), topo, i)
    {
      var idx := i + 1;
      var lat := WellKnownLatency(topo.NodeRegion(idx));
      if lat.Some? {
        var done := InjectNamedLatency(server, idx, RegionalLatencyToxicName(idx), lat.value.0, lat.value.1);
        if !done {
          assert StoppedAfter(old(server.proxies), server.proxies, topo, i);
          if old(server.Reliable()) { RegionalStops(old(server.proxies), topo, idx, topo.nodes); }
          return false;
        }
      }
      i := i + 1;
    }
    ok := true;
  }

  // ---------- status ----------

  function IntAttr(attrs: map<string, int>, key: string): int {
    if key in attrs then attrs[key] else 0
  }

  function FormatToxic(t: Toxic): string {
    if t.kind == "latency" then
      var latency, jitter := IntAttr(t.attrs, "latency"), IntAttr(t.attrs, "jitter");
      if jitter > 0 then "latency(" + ItoaSigned(latency) + "ms ±" + ItoaSigned(jitter) + "ms)"
      else "latency(" + ItoaSigned(latency) + "ms)"
    else if t.kind == "bandwidth" then "bandwidth(" + ItoaSigned(IntAttr(t.attrs, "rate")) + " KB/s)"
    else if t.kind == "timeout" then "timeout(" + ItoaSigned(IntAttr(t.attrs, "timeout")) + "ms)"
    else if t.kind == "reset_peer" then "reset"
    else if t.kind == "limit_data" then "down(data dropped)"
    else t.kind + "(" + Itoa(t.percent) + "%)"
  }

  /** The labels of toxics this tool does not inject but may meet. */
  lemma ForeignLabels(t: Toxic)
    ensures t.kind == "limit_data" ==> FormatToxic(t) == "down(data dropped)"
    ensures t.kind == "slicer" ==> FormatToxic(t) == "slicer(" + Itoa(t.percent) + "%)"
  {
    assert "slicer" + "(" == "slicer(";
    if t.kind == "slicer" { assert t.kind[0] == 's' && t.kind[1] == 'l'; }
  }

  const PARTITIONED := "PARTITIONED (proxy disabled)"
  const CLEAN := "clean"

  function FormatAll(toxics: seq<Toxic>): (labels: seq<string>)
    ensures |labels| == |toxics|
    ensures forall i :: 0 <= i < |toxics| ==> labels[i] == FormatToxic(toxics[i])
  {
    seq(|toxics|, i requires 0 <= i < |toxics| => FormatToxic(toxics[i]))
  }

  function StatusOf(p: Proxy): seq<string> {
    if !p.enabled then [PARTITIONED]
    else if p.toxics == [] then [CLEAN]
    else FormatAll(p.toxics)
  }

  lemma LabelIsNotAState(t: Toxic)
    ensures FormatToxic(t) != CLEAN && FormatToxic(t) != PARTITIONED
  {
    var s := FormatToxic(t);
    var n := |s|;
    if t.kind == "latency" || t.kind == "bandwidth" || t.kind == "timeout" || t.kind == "limit_data" {
      assert s[0] != 'P' && s[0] != 'c';
    } else if t.kind == "reset_peer" {
      assert s[0] == 'r';
    } else {
      assert s[n - 1] == ')' && s[n - 2] == '%';
      assert CLEAN[|CLEAN| - 1] == 'n';
      assert PARTITIONED[|PARTITIONED| - 2] == 'd';
    }
  }

  /** The status of a proxy says clean exactly when it is enabled with no toxics, and
      partitioned exactly when it is disabled. */
  lemma StatusIsFaithful(p: Proxy)
    ensures StatusOf(p) == [CLEAN] <==> p.enabled && p.toxics == []
    ensures StatusOf(p) == [PARTITIONED] <==> !p.enabled
  {
    assert CLEAN != PARTITIONED by { assert |CLEAN| != |PARTITIONED|; }
    if p.enabled && p.toxics != [] {
      LabelIsNotAState(p.toxics[0]);
      assert StatusOf(p)[0] == FormatToxic(p.toxics[0]);
    }
  }

  lemma FormatAllStep(toxics: seq<Toxic>, i: nat)
    requires i < |toxics|
    ensures FormatAll(toxics[..i + 1]) == FormatAll(toxics[..i]) + [FormatToxic(toxics[i])]
  {
  }

  method Labels(toxics: seq<Toxic>) returns (labels: seq<string>)
    ensures labels == if toxics == [] then [CLEAN] else FormatAll(toxics)
  {
    labels := [];
    var i := 0;
    while i < |toxics|
      invariant 0 <= i <= |toxics| && labels == FormatAll(toxics[..i])
    {
      FormatAllStep(toxics, i);
      labels := labels + [FormatToxic(toxics[i])];
      i := i + 1;
    }
    assert toxics[..i] == toxics;
    if |labels| == 0 { labels := [CLEAN]; }
  }

  method StatusEntry(server: Server, name: string, errorText: string) returns (entry: seq<string>)
    requires server.Valid() && name in server.proxies
    modifies server`calls
    ensures server.Valid() && (old(server.Reliable()) ==> server.Reliable())
    ensures entry == StatusOf(server.proxies[name]) || (server.proxies[name].enabled && entry == [errorText])
    ensures old(server.Reliable()) ==> entry == StatusOf(server.proxies[name])
  {
    if !server.proxies[name].enabled { return [PARTITIONED]; }
    var toxics := server.GetToxics(name);
    if toxics.None? { return [errorText]; }
    entry := Labels(toxics.value);
  }

  ghost predicate EntryOk(reg: Registry, name: string, entry: seq<string>, errorText: string, reliable: bool) {
    && name in reg && IsCRDBProxy(name)
    && (entry == StatusOf(reg[name]) || (reg[name].enabled && entry == [errorText] && !reliable))
  }

  /** Only node proxies are reported; a proxy whose toxics cannot be read shows the error text. */
  method Status(server: Server, errorText: string) returns (result: Option<map<string, seq<string>>>)
    requires server.Valid()
    modifies server`calls
    ensures server.Valid() && (old(server.Reliable()) ==> server.Reliable() && result.Some?)
    ensures result.Some? ==>
      && (forall n :: n in server.proxies && IsCRDBProxy(n) ==> n in result.value)
      && (forall n :: n in result.value ==> EntryOk(server.proxies, n, result.value[n], errorText, old(server.Reliable())))
  {
    ghost var reliable := server.Reliable();
    var listed := server.ListProxies();
    if listed.None? { return None; }
    var proxies := listed.value;
    var names := proxies.Keys;
    var r: map<string, seq<string>> := map[];
    while names != {}
      invariant names <= proxies.Keys && server.proxies == proxies
      invariant server.Valid() && (reliable ==> server.Reliable())
      invariant forall n :: n in proxies && IsCRDBProxy(n) && n !in names ==> n in r
      invariant forall n :: n in r ==> EntryOk(proxies, n, r[n], errorText, reliable)
      decreases names
    {
      var name :| name in names;
      names := names - {name};
      if IsCRDBProxy(name) {
        var entry := StatusEntry(server, name, errorText);
        r := r[name := entry];
      }
    }
    result := Some(r);
  }
}
