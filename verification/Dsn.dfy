/** Connection strings: the cluster-wide DSN, the per-region DSNs, and the rewriting of the
    userinfo to the application user (section 3.2.1 of RFC 3986). */
module Dsn {
  import opened Sequences
  import opened Text
  import opened Topology
  import Cyclic

  // ---------- host lists ----------

  const DSN_HEAD := "postgresql" + "://" + "root" + "@"
  const DSN_TAIL := "/" + "defaultdb?sslmode=disable&load_balance_hosts=random"

  function Host(idx: nat): string { "cdbct-crdb-" + Itoa(idx) + ":26257" }

  function DsnOver(hosts: seq<string>): string { DSN_HEAD + Join(hosts, ',') + DSN_TAIL }

  /** The hosts a client reads back from a DSN of this form. */
  function HostsOf(dsn: string): seq<string> {
    if |dsn| < |DSN_HEAD| + |DSN_TAIL| then []
    else Split(dsn[|DSN_HEAD|..|dsn| - |DSN_TAIL|], ',')
  }

  function HostList(indices: seq<nat>): (hosts: seq<string>)
    ensures |hosts| == |indices|
    ensures forall i :: 0 <= i < |indices| ==> hosts[i] == Host(indices[i])
  {
    seq(|indices|, i requires 0 <= i < |indices| => Host(indices[i]))
  }

  function UpTo(n: nat): (indices: seq<nat>)
    ensures |indices| == n
    ensures forall i :: 0 <= i < n ==> indices[i] == i + 1
  {
    seq(n, i requires 0 <= i < n => i + 1)
  }

  function InRegion(topo: ClusterTopology, region: string): nat -> bool
    requires |topo.regions| > 0
  {
    (idx: nat) => idx >= 1 && topo.NodeRegion(idx) == region
  }

  /** The nodes of a region, in index order. */
  function RegionNodes(topo: ClusterTopology, region: string): seq<nat>
    requires |topo.regions| > 0
  {
    Filter(UpTo(topo.nodes), InRegion(topo, region))
  }

  /** The nodes a regional pool connects to: the region's own, or all when it has none. */
  function PoolNodes(topo: ClusterTopology, region: string): seq<nat>
    requires |topo.regions| > 0
  {
    if RegionNodes(topo, region) == [] then UpTo(topo.nodes) else RegionNodes(topo, region)
  }

  method InternalDSN(nodes: nat) returns (dsn: string)
    ensures dsn == DsnOver(HostList(UpTo(nodes)))
  {
    var hosts := new string[nodes];
    var i := 0;
    while i < nodes
      invariant 0 <= i <= nodes
      invariant forall k :: 0 <= k < i ==> hosts[k] == Host(k + 1)
    {
      hosts[i] := Host(i + 1);
      i := i + 1;
    }
    assert hosts[..] == HostList(UpTo(nodes));
    dsn := DsnOver(hosts[..]);
  }

  /** The region's nodes among the first k. */
  function RegionPrefix(topo: ClusterTopology, region: string, k: nat): seq<nat>
    requires |topo.regions| > 0 && k <= topo.nodes
  {
    Filter(UpTo(topo.nodes)[..k], InRegion(topo, region))
  }

  lemma RegionPrefixStep(topo: ClusterTopology, region: string, i: nat)
    requires |topo.regions| > 0 && 1 <= i <= topo.nodes
    ensures RegionPrefix(topo, region, i)
         == RegionPrefix(topo, region, i - 1) + if topo.NodeRegion(i) == region then [i] else []
  {
    FilterAppend(UpTo(topo.nodes)[..i - 1], i, InRegion(topo, region));
    assert UpTo(topo.nodes)[..i] == UpTo(topo.nodes)[..i - 1] + [i];
  }

  lemma HostListAppend(indices: seq<nat>, more: seq<nat>)
    requires |more| <= 1
    ensures HostList(indices + more) == HostList(indices) + if more == [] then [] else [Host(more[0])]
  {
  }

  method RegionalDSN(topo: ClusterTopology, region: string) returns (dsn: string)
    requires |topo.regions| > 0
    ensures dsn == DsnOver(HostList(PoolNodes(topo, region)))
  {
    var hosts: seq<string> := [];
    var i: nat := 1;
    while i <= topo.nodes
      invariant 1 <= i <= topo.nodes + 1
      invariant hosts == HostList(RegionPrefix(topo, region, i - 1))
    {
      RegionPrefixStep(topo, region, i);
      HostListAppend(RegionPrefix(topo, region, i - 1), if topo.NodeRegion(i) == region then [i] else []);
      if topo.NodeRegion(i) == region { hosts := hosts + [Host(i)]; }
      i := i + 1;
    }
    assert UpTo(topo.nodes)[..topo.nodes] == UpTo(topo.nodes);
    if |hosts| == 0 {
      dsn := InternalDSN(topo.nodes);
    } else {
      dsn := DsnOver(hosts);
    }
  }

  lemma TwoHostsInFull()
    ensures HostList([1, 12]) == ["cdbct-crdb-1:26257", "cdbct-crdb-12:26257"]
  {
    assert Itoa(1) == "1" && Itoa(12) == "12";
    assert Host(1) == "cdbct-crdb-1:26257";
    assert Host(12) == "cdbct-crdb-12:26257";
  }

  /** In full: what a DSN looks like, and the hosts in it. */
  lemma DsnInFull(hosts: seq<string>)
    ensures DsnOver(hosts) == "postgresql://root@" + Join(hosts, ',') + ("/" + "defaultdb?sslmode=disable&load_balance_hosts=random")
    ensures Join(HostList([1, 12]), ',') == "cdbct-crdb-1:26257,cdbct-crdb-12:26257"
  {
    assert DSN_HEAD == "postgresql://root@";
    TwoHostsInFull();
    JoinTwo("cdbct-crdb-1:26257", "cdbct-crdb-12:26257", ',');
    assert "cdbct-crdb-1:26257" + [','] + "cdbct-crdb-12:26257" == "cdbct-crdb-1:26257,cdbct-crdb-12:26257";
  }

  lemma HostIsPlain(idx: nat, c: char)
    requires c == ',' || c == '@' || c == '/' || c == '?' || c == '#'
    ensures c !in Host(idx)
  {
    ItoaDigits(idx);
  }

  lemma HostInjective(i: nat, j: nat)
    ensures Host(i) == Host(j) ==> i == j
  {
    assert Host(i) == "cdbct-crdb-" + (Itoa(i) + ":26257");
    assert Host(j) == "cdbct-crdb-" + (Itoa(j) + ":26257");
    SamePrefix("cdbct-crdb-", Itoa(i) + ":26257", Itoa(j) + ":26257");
    SameSuffix(Itoa(i), Itoa(j), ":26257");
    ItoaInjective(i, j);
  }

  /** A client gets back exactly the hosts the DSN was built over. */
  lemma HostsRoundTrip(indices: seq<nat>)
    requires indices != []
    ensures HostsOf(DsnOver(HostList(indices))) == HostList(indices)
  {
    var hosts := HostList(indices);
    forall i | 0 <= i < |hosts| ensures ',' !in hosts[i] { HostIsPlain(indices[i], ','); }
    SplitJoin(hosts, ',');
    var dsn := DsnOver(hosts);
    assert dsn[|DSN_HEAD|..|dsn| - |DSN_TAIL|] == Join(hosts, ',');
  }

  lemma {:induction false} FilterKeepsOrder(s: seq<nat>, p: nat -> bool)
    requires forall i, j :: 0 <= i < j < |s| ==> s[i] < s[j]
    ensures forall i, j :: 0 <= i < j < |Filter(s, p)| ==> Filter(s, p)[i] < Filter(s, p)[j]
  {
    if s != [] {
      FilterKeepsOrder(s[..|s| - 1], p);
      FilterMembers(s[..|s| - 1], p);
      var front := Filter(s[..|s| - 1], p);
      forall i | 0 <= i < |front| ensures front[i] < s[|s| - 1] {
        assert front[i] in front;
      }
    }
  }

  /** A region listed at position j has a node exactly when the cluster has more than j nodes,
      provided no earlier position lists the same region. */
  lemma RegionHasNodes(topo: ClusterTopology, j: nat)
    requires Distinct(topo.regions) && j < |topo.regions|
    ensures RegionNodes(topo, topo.regions[j]) != [] <==> topo.nodes > j
  {
    var region := topo.regions[j];
    FilterMembers(UpTo(topo.nodes), InRegion(topo, region));
    if topo.nodes > j {
      assert UpTo(topo.nodes)[j] == j + 1;
      Cyclic.DivModUnique(j, |topo.regions|, 0, j);
      assert j + 1 in RegionNodes(topo, region);
    } else {
      forall idx: nat | idx in UpTo(topo.nodes) ensures !InRegion(topo, region)(idx) {
        Cyclic.DivModUnique(idx - 1, |topo.regions|, 0, idx - 1);
        assert topo.NodeRegion(idx) == topo.regions[idx - 1];
      }
      EmptyFilter(UpTo(topo.nodes), InRegion(topo, region));
    }
  }

  lemma InOwnListOnly(topo: ClusterTopology, region: string, idx: nat)
    requires |topo.regions| > 0 && 1 <= idx <= topo.nodes
    ensures Host(idx) in HostList(RegionNodes(topo, region)) <==> topo.NodeRegion(idx) == region
  {
    var mine := RegionNodes(topo, region);
    FilterMembers(UpTo(topo.nodes), InRegion(topo, region));
    assert UpTo(topo.nodes)[idx - 1] == idx;
    if topo.NodeRegion(idx) == region {
      assert idx in mine;
      var k :| 0 <= k < |mine| && mine[k] == idx;
      assert HostList(mine)[k] == Host(idx);
    } else {
      forall k | 0 <= k < |mine| ensures HostList(mine)[k] != Host(idx) {
        assert mine[k] in mine;
        HostInjective(mine[k], idx);
      }
    }
  }

  lemma RegionNodesAscend(topo: ClusterTopology, region: string)
    requires |topo.regions| > 0
    ensures var mine := RegionNodes(topo, region); forall i, j :: 0 <= i < j < |mine| ==> mine[i] < mine[j]
  {
    FilterKeepsOrder(UpTo(topo.nodes), InRegion(topo, region));
  }

  /** With at least as many nodes as regions, the regional host lists cut the cluster's host list
      up: each keeps the order, none is empty, and every host is in its own region's list alone. */
  lemma RegionalHostsPartition(topo: ClusterTopology, region: string, idx: nat)
    requires Distinct(topo.regions) && |topo.regions| > 0 && topo.nodes >= |topo.regions|
    requires region in topo.regions && 1 <= idx <= topo.nodes
    ensures var hosts := HostsOf(DsnOver(HostList(PoolNodes(topo, region))));
      && hosts == HostList(RegionNodes(topo, region)) && hosts != []
      && (Host(idx) in hosts <==> topo.NodeRegion(idx) == region)
      && Host(idx) in HostsOf(DsnOver(HostList(UpTo(topo.nodes))))
    ensures var mine := RegionNodes(topo, region); forall i, j :: 0 <= i < j < |mine| ==> mine[i] < mine[j]
  {
    var j :| 0 <= j < |topo.regions| && topo.regions[j] == region;
    RegionHasNodes(topo, j);
    HostsRoundTrip(RegionNodes(topo, region));
    HostsRoundTrip(UpTo(topo.nodes));
    RegionNodesAscend(topo, region);
    assert HostList(UpTo(topo.nodes))[idx - 1] == Host(idx);
    InOwnListOnly(topo, region, idx);
  }

  lemma SomeNodeElsewhere(topo: ClusterTopology, j: nat)
    requires Distinct(topo.regions) && j < |topo.regions| && |topo.regions| > 1 && topo.nodes > 1
    ensures exists idx: nat :: 1 <= idx <= topo.nodes && topo.NodeRegion(idx) != topo.regions[j]
  {
    var idx := if j == 0 then 2 else 1;
    assert topo.NodeRegion(idx) != topo.regions[j];
  }

  lemma DsnDeterminesHosts(a: seq<nat>, b: seq<nat>)
    requires a != [] && b != [] && DsnOver(HostList(a)) == DsnOver(HostList(b))
    ensures HostList(a) == HostList(b)
  {
    HostsRoundTrip(a);
    HostsRoundTrip(b);
  }

  lemma OwnListIsWhole(topo: ClusterTopology, j: nat)
    requires j < |topo.regions| && ((topo.nodes == 1 && j == 0) || |topo.regions| == 1)
    ensures RegionNodes(topo, topo.regions[j]) == UpTo(topo.nodes)
  {
    forall idx | idx in UpTo(topo.nodes) ensures InRegion(topo, topo.regions[j])(idx) { }
    FullFilter(UpTo(topo.nodes), InRegion(topo, topo.regions[j]));
  }

  /** A listed region gets the whole cluster's DSN exactly when it has no node, because there are
      too few for its position, or holds them all. */
  lemma EmptyRegionFallsBack(topo: ClusterTopology, j: nat)
    requires Distinct(topo.regions) && j < |topo.regions|
    ensures DsnOver(HostList(PoolNodes(topo, topo.regions[j]))) == DsnOver(HostList(UpTo(topo.nodes)))
        <==> topo.nodes <= j || topo.nodes == 1 || |topo.regions| == 1
  {
    RegionHasNodes(topo, j);
    var region := topo.regions[j];
    if topo.nodes > j && topo.nodes > 1 && |topo.regions| > 1 {
      SomeNodeElsewhere(topo, j);
      var idx: nat :| 1 <= idx <= topo.nodes && topo.NodeRegion(idx) != region;
      InOwnListOnly(topo, region, idx);
      assert HostList(UpTo(topo.nodes))[idx - 1] == Host(idx);
      if DsnOver(HostList(RegionNodes(topo, region))) == DsnOver(HostList(UpTo(topo.nodes))) {
        DsnDeterminesHosts(RegionNodes(topo, region), UpTo(topo.nodes));
      }
    } else if topo.nodes > j {
      OwnListIsWhole(topo, j);
    }
  }

  /** So does a region the topology does not list. */
  lemma UnlistedRegionFallsBack(topo: ClusterTopology, region: string)
    requires |topo.regions| > 0 && region !in topo.regions
    ensures DsnOver(HostList(PoolNodes(topo, region))) == DsnOver(HostList(UpTo(topo.nodes)))
  {
    FilterMembers(UpTo(topo.nodes), InRegion(topo, region));
    EmptyFilter(UpTo(topo.nodes), InRegion(topo, region));
  }

  // ---------- AppUserDSN ----------

  function FirstAt(s: string): (r: Option<nat>)
    ensures r.Some? ==> r.value < |s| && s[r.value] == '@' && '@' !in s[..r.value]
    ensures r.None? <==> '@' !in s
  {
    if s == "" then None
    else if s[0] == '@' then Some(0)
    else match FirstAt(s[1..])
      case None => None
      case Some(k) => assert s[..k + 1] == [s[0]] + s[1..][..k]; Some(k + 1)
  }

  method IndexByte(s: string, b: char) returns (r: int)
    ensures r == -1 ==> b !in s
    ensures r != -1 ==> 0 <= r < |s| && s[r] == b && b !in s[..r]
  {
    var i := 0;
    while i < |s|
      invariant 0 <= i <= |s| && b !in s[..i]
    {
      if s[i] == b { return i; }
      assert s[..i + 1] == s[..i] + [s[i]];
      i := i + 1;
    }
    assert s[..i] == s;
    r := -1;
  }

  predicate SchemeAt(s: string, i: nat) {
    i + 3 <= |s| && s[i] == ':' && s[i + 1] == '/' && s[i + 2] == '/'
  }

  /** The position of the first "://" at or after i. */
  function FirstScheme(s: string, i: nat): (r: Option<nat>)
    ensures r.Some? ==> i <= r.value && SchemeAt(s, r.value) && forall j :: i <= j < r.value ==> !SchemeAt(s, j)
    ensures r.None? ==> forall j :: i <= j ==> !SchemeAt(s, j)
    decreases |s| - i
  {
    if i >= |s| then None else if SchemeAt(s, i) then Some(i) else FirstScheme(s, i + 1)
  }

  /** The string up to a position, and what follows the first '@' from there on. */
  function CutFrom(dsn: string, start: nat): Option<(string, string)>
    requires start <= |dsn|
  {
    match FirstAt(dsn[start..])
    case None => None
    case Some(k) => Some((dsn[..start], dsn[start + k + 1..]))
  }

  /** The DSN up to and including its first "://", and what follows the first '@' after that. */
  function Cut(dsn: string): Option<(string, string)> {
    match FirstScheme(dsn, 0)
    case None => None
    case Some(i) => CutFrom(dsn, i + 3)
  }

  /** Everything between those two becomes the given user. */
  function WithUser(dsn: string, user: string): string {
    match Cut(dsn)
    case None => dsn
    case Some((p, tail)) => p + (user + "@" + tail)
  }

  function AppUser(dsn: string): string { WithUser(dsn, "appuser") }

  lemma {:induction false} FirstAtUnique(s: string, k: nat)
    requires k < |s| && s[k] == '@' && '@' !in s[..k]
    ensures FirstAt(s) == Some(k)
  {
    if k > 0 {
      assert s[..k][0] == s[0];
      assert s[1..][..k - 1] == s[..k][1..];
      FirstAtUnique(s[1..], k - 1);
    }
  }

  lemma FirstSchemeUnique(s: string, i: nat)
    requires SchemeAt(s, i) && forall j :: 0 <= j < i ==> !SchemeAt(s, j)
    ensures FirstScheme(s, 0) == Some(i)
  {
  }

  predicate AtBehind(s: string, i: nat) {
    i + 3 <= |s| && '@' in s[i + 3..]
  }

  lemma SchemeSlice(s: string, i: nat)
    requires i + 3 <= |s|
    ensures s[i..i + 3] == "://" <==> SchemeAt(s, i)
  {
    var t := s[i..i + 3];
    assert t[0] == s[i] && t[1] == s[i + 1] && t[2] == s[i + 2];
    assert t == [t[0], t[1], t[2]];
  }

  lemma CutAt(dsn: string, i: nat, k: nat)
    requires FirstScheme(dsn, 0) == Some(i) && FirstAt(dsn[i + 3..]) == Some(k)
    ensures Cut(dsn) == Some((dsn[..i + 3], dsn[i + 3 + k + 1..]))
  {
    assert CutFrom(dsn, i + 3) == Some((dsn[..i + 3], dsn[i + 3 + k + 1..]));
  }

  lemma FirstAtByParts(before: string, tail: string)
    requires '@' !in before
    ensures FirstAt(before + "@" + tail) == Some(|before|) && (before + "@" + tail)[|before| + 1..] == tail
  {
    var rest := before + "@" + tail;
    assert rest[..|before|] == before && rest[|before|] == '@';
    FirstAtUnique(rest, |before|);
  }

  lemma CutFromByParts(dsn: string, p: string, rest: string, k: nat)
    requires dsn == p + rest && FirstAt(rest) == Some(k)
    ensures CutFrom(dsn, |p|) == Some((p, rest[k + 1..]))
  {
    assert dsn[|p|..] == rest && dsn[..|p|] == p;
    assert dsn[|p| + k + 1..] == rest[k + 1..];
  }

  lemma CutByParts(dsn: string, p: string, before: string, tail: string)
    requires dsn == p + (before + "@" + tail)
    requires |p| >= 3 && FirstScheme(dsn, 0) == Some(|p| - 3) && '@' !in before
    ensures Cut(dsn) == Some((p, tail))
  {
    FirstAtByParts(before, tail);
    CutFromByParts(dsn, p, before + "@" + tail, |before|);
    assert |p| - 3 + 3 == |p|;
  }

  /** No "://" before position i has an '@' behind it. */
  ghost predicate NothingBefore(dsn: string, i: nat) {
    forall j: nat :: j < i && SchemeAt(dsn, j) ==> !AtBehind(dsn, j)
  }

  lemma CutFound(dsn: string, i: nat, k: nat)
    requires NothingBefore(dsn, i) && SchemeAt(dsn, i)
    requires k < |dsn[i + 3..]| && dsn[i + 3..][k] == '@' && '@' !in dsn[i + 3..][..k]
    ensures Cut(dsn) == Some((dsn[..i + 3], dsn[i + 3 + k + 1..]))
  {
    forall j: nat | j < i ensures AtBehind(dsn, j) {
      assert dsn[j + 3..][i - j + k] == '@';
    }
    FirstSchemeUnique(dsn, i);
    FirstAtUnique(dsn[i + 3..], k);
    CutAt(dsn, i, k);
  }

  lemma CutNotFound(dsn: string, i: nat)
    requires NothingBefore(dsn, i) && i + 3 >= |dsn|
    ensures Cut(dsn) == None
  {
    var first := FirstScheme(dsn, 0);
    if first.Some? && first.value >= i { assert dsn[first.value + 3..] == []; }
  }

  /** The scan goes on past a "://" with no '@' behind it, but never finds one later. */
  method AppUserDSN(adminDSN: string) returns (r: string)
    ensures r == AppUser(adminDSN)
  {
    var i := 0;
    while i < |adminDSN| - 3
      invariant 0 <= i
      invariant NothingBefore(adminDSN, i)
    {
      SchemeSlice(adminDSN, i);
      if adminDSN[i..i + 3] == "://" {
        var rest := adminDSN[i + 3..];
        var at := IndexByte(rest, '@');
        if at >= 0 {
          CutFound(adminDSN, i, at);
          r := adminDSN[..i + 3] + "appuser@" + rest[at + 1..];
          assert r == adminDSN[..i + 3] + ("appuser" + "@" + rest[at + 1..]);
          assert rest[at + 1..] == adminDSN[i + 3 + at + 1..];
          return;
        }
      }
      i := i + 1;
    }
    CutNotFound(adminDSN, i);
    r := adminDSN;
  }

  lemma SchemeKept(dsn: string, i: nat, more: string)
    requires FirstScheme(dsn, 0) == Some(i)
    ensures FirstScheme(dsn[..i + 3] + more, 0) == Some(i)
  {
    var r := dsn[..i + 3] + more;
    assert forall j :: 0 <= j < i + 3 ==> r[j] == dsn[j];
    forall j: nat | j < i ensures !SchemeAt(r, j) {
      assert !SchemeAt(dsn, j);
    }
    FirstSchemeUnique(r, i);
  }

  lemma WithUserIdempotent(dsn: string, user: string)
    requires '@' !in user
    ensures WithUser(WithUser(dsn, user), user) == WithUser(dsn, user)
  {
    match Cut(dsn)
    case None =>
    case Some((p, tail)) =>
      var r := p + (user + "@" + tail);
      assert WithUser(dsn, user) == r;
      var i := FirstScheme(dsn, 0).value;
      assert p == dsn[..i + 3];
      SchemeKept(dsn, i, user + "@" + tail);
      CutByParts(r, p, user, tail);
  }

  /** Deriving the application DSN twice is the same as deriving it once, on every string. */
  lemma AppUserIdempotent(dsn: string)
    ensures AppUser(AppUser(dsn)) == AppUser(dsn)
  {
    WithUserIdempotent(dsn, "appuser");
  }

  predicate NoDelimiters(s: string) {
    '@' !in s && '/' !in s && '?' !in s && '#' !in s
  }

  /** A DSN by its parts; the suffix is the path, query and fragment. */
  datatype Uri = Uri(scheme: string, userinfo: Option<string>, host: string, suffix: string) {
    /** What section 3 of RFC 3986 lets the parts contain, as far as delimiters go. */
    predicate WellFormed() {
      && ':' !in scheme
      && (userinfo.Some? ==> NoDelimiters(userinfo.value))
      && NoDelimiters(host)
      && (suffix == "" || suffix[0] == '/' || suffix[0] == '?' || suffix[0] == '#')
    }

    function Authority(): string {
      (match userinfo case None => "" case Some(u) => u + "@") + host
    }

    function Render(): string { scheme + "://" + Authority() + suffix }
  }

  lemma SchemeOfUri(u: Uri)
    requires u.WellFormed()
    ensures FirstScheme(u.Render(), 0) == Some(|u.scheme|)
    ensures u.Render()[|u.scheme| + 3..] == u.Authority() + u.suffix
    ensures u.Render()[..|u.scheme| + 3] == u.scheme + "://"
  {
    var s, n := u.Render(), |u.scheme|;
    assert s[n] == ':' && s[n + 1] == '/' && s[n + 2] == '/';
    forall j: nat | j < n ensures !SchemeAt(s, j) { assert s[j] == u.scheme[j]; }
    FirstSchemeUnique(s, n);
  }

  lemma RenderWithUser(u: Uri)
    requires u.userinfo.Some?
    ensures u.Render() == (u.scheme + "://") + (u.userinfo.value + "@" + (u.host + u.suffix))
  {
  }

  /** When the DSN has userinfo, exactly the userinfo is replaced. */
  lemma UserinfoReplaced(u: Uri, user: string)
    requires u.WellFormed() && u.userinfo.Some?
    ensures WithUser(u.Render(), user) == u.(userinfo := Some(user)).Render()
  {
    SchemeOfUri(u);
    var p, tail := u.scheme + "://", u.host + u.suffix;
    RenderWithUser(u);
    RenderWithUser(u.(userinfo := Some(user)));
    CutByParts(u.Render(), p, u.userinfo.value, tail);
  }

  lemma NoUserinfoNoAt(u: Uri, user: string)
    requires u.WellFormed() && u.userinfo.None? && '@' !in u.suffix
    ensures WithUser(u.Render(), user) == u.Render()
  {
    SchemeOfUri(u);
    assert '@' !in u.Authority() + u.suffix;
  }

  lemma Regroup(host: string, eaten: string, tail: string)
    ensures host + (eaten + "@" + tail) == (host + eaten) + "@" + tail
  {
  }

  lemma RenderPlain(u: Uri)
    requires u.userinfo.None?
    ensures u.Render() == (u.scheme + "://") + (u.host + u.suffix)
  {
    assert u.Authority() == u.host;
  }

  /** Without userinfo the rewriting eats everything up to an '@' in the suffix. */
  lemma NoUserinfoButAt(u: Uri, user: string)
    requires u.WellFormed() && u.userinfo.None? && '@' in u.suffix
    ensures var k := FirstAt(u.suffix).value;
      WithUser(u.Render(), user) == (u.scheme + "://") + (user + "@" + u.suffix[k + 1..])
  {
    SchemeOfUri(u);
    RenderPlain(u);
    var k := FirstAt(u.suffix).value;
    var eaten, tail := u.suffix[..k], u.suffix[k + 1..];
    assert u.suffix == eaten + "@" + tail;
    Regroup(u.host, eaten, tail);
    CutByParts(u.Render(), u.scheme + "://", u.host + eaten, tail);
  }

  /** A user name with no delimiter cannot stand for a host followed by a delimiter. */
  lemma NameIsNotHost(host: string, suffix: string, k: nat, user: string)
    requires '@' !in host && k < |suffix| && suffix[k] == '@' && '@' !in suffix[..k]
    requires suffix[0] != '@' && suffix[0] !in user && '@' !in user
    ensures user + "@" + suffix[k + 1..] != host + suffix
  {
    var a, b := user + "@" + suffix[k + 1..], host + suffix;
    if |user| <= |host| {
      if |user| < |host| {
        assert b[|user|] == host[|user|] && a[|user|] == '@';
      } else {
        assert b[|user|] == suffix[0] && a[|user|] == '@';
      }
    } else {
      assert a[|host|] == user[|host|] && b[|host|] == suffix[0];
    }
  }

  lemma HostEatenNotNamed(u: Uri, user: string)
    requires u.WellFormed() && u.userinfo.None? && '@' in u.suffix
    ensures WithUser(u.Render(), user) != u.(userinfo := Some(user)).Render()
  {
    NoUserinfoButAt(u, user);
    RenderWithUser(u.(userinfo := Some(user)));
    assert |WithUser(u.Render(), user)| < |u.(userinfo := Some(user)).Render()|;
  }

  lemma HostEaten(u: Uri, user: string)
    requires u.WellFormed() && u.userinfo.None? && '@' in u.suffix && NoDelimiters(user)
    ensures WithUser(u.Render(), user) != u.(userinfo := Some(user)).Render()
    ensures WithUser(u.Render(), user) != u.Render()
  {
    HostEatenNotNamed(u, user);
    NoUserinfoButAt(u, user);
    RenderPlain(u);
    var k := FirstAt(u.suffix).value;
    NameIsNotHost(u.host, u.suffix, k, user);
    SamePrefix(u.scheme + "://", user + "@" + u.suffix[k + 1..], u.host + u.suffix);
  }

  /** AppUserDSN keeps host, path and query and names the application user, or leaves a DSN
      without userinfo as it was, exactly when the DSN has userinfo or no '@' behind its host. */
  lemma AppUserKeepsHosts(u: Uri)
    requires u.WellFormed()
    ensures (AppUser(u.Render()) == u.(userinfo := Some("appuser")).Render() || AppUser(u.Render()) == u.Render())
        <==> (u.userinfo.Some? || '@' !in u.suffix)
  {
    if u.userinfo.Some? {
      UserinfoReplaced(u, "appuser");
    } else if '@' !in u.suffix {
      NoUserinfoNoAt(u, "appuser");
    } else {
      HostEaten(u, "appuser");
    }
  }

  lemma AddingUserinfoShows(u: Uri, user: string)
    requires u.userinfo.None?
    ensures u.Render() != u.(userinfo := Some(user)).Render()
  {
    RenderPlain(u);
    RenderWithUser(u.(userinfo := Some(user)));
    assert |u.Render()| < |u.(userinfo := Some(user)).Render()|;
  }

  /** The derived DSN is the admin DSN with appuser as its user exactly when the admin DSN has
      userinfo; without it the result never names appuser. */
  lemma AppUserNamesUser(u: Uri)
    requires u.WellFormed()
    ensures AppUser(u.Render()) == u.(userinfo := Some("appuser")).Render() <==> u.userinfo.Some?
  {
    if u.userinfo.Some? {
      UserinfoReplaced(u, "appuser");
    } else if '@' !in u.suffix {
      NoUserinfoNoAt(u, "appuser");
      AddingUserinfoShows(u, "appuser");
    } else {
      HostEaten(u, "appuser");
    }
  }

  lemma {:induction false} JoinIsPlain(indices: seq<nat>, c: char)
    requires c == '@' || c == '/' || c == '?' || c == '#'
    ensures c !in Join(HostList(indices), ',')
  {
    var hosts := HostList(indices);
    if indices != [] {
      var n := |indices| - 1;
      HostIsPlain(indices[n], c);
      JoinIsPlain(indices[..n], c);
      assert HostList(indices[..n]) == hosts[..n];
    }
  }

  function BuiltUri(user: string, indices: seq<nat>): Uri {
    Uri("postgresql", Some(user), Join(HostList(indices), ','), DSN_TAIL)
  }

  lemma RegroupRender(a: string, b: string, c: string, d: string, e: string, f: string)
    ensures a + b + (c + d + e) + f == (a + b + c + d) + e + f
  {
  }

  lemma BuiltIsUri(indices: seq<nat>)
    ensures DsnOver(HostList(indices)) == BuiltUri("root", indices).Render()
  {
    RegroupRender("postgresql", "://", "root", "@", Join(HostList(indices), ','), DSN_TAIL);
  }

  /** For the DSNs this tool builds, the application DSN is the same host list under appuser. */
  lemma AppUserOfBuiltDsn(indices: seq<nat>)
    ensures DsnOver(HostList(indices)) == BuiltUri("root", indices).Render()
    ensures AppUser(DsnOver(HostList(indices))) == BuiltUri("appuser", indices).Render()
  {
    JoinIsPlain(indices, '@');
    JoinIsPlain(indices, '/');
    JoinIsPlain(indices, '?');
    JoinIsPlain(indices, '#');
    BuiltIsUri(indices);
    assert DSN_TAIL[0] == '/';
    UserinfoReplaced(BuiltUri("root", indices), "appuser");
  }
}
