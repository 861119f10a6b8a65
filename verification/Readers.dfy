/** The gRPC readers: summaries that must agree with the tables, and the row-level security check. */
module Readers {
  import opened Sequences
  import opened Text
  import opened Ordering
  import opened Store
  import opened Tenants
  import opened WritePath
  import opened WritePathProofs
  import opened EarlierTables
  import opened WritePathTheorems

  datatype TierSummary = TierSummary(critical: nat, regular: nat, background: nat)
  datatype RegionSummary = RegionSummary(usEast: nat, usWest: nat, euCentral: nat)

  function TiersOf(tenants: seq<Tenant>): TierSummary {
    TierSummary(Count(tenants, HasKey(TierOf(), CRITICAL)), Count(tenants, HasKey(TierOf(), REGULAR)),
                Count(tenants, HasKey(TierOf(), BACKGROUND)))
  }

  function RegionsOf(tenants: seq<Tenant>): RegionSummary {
    RegionSummary(Count(tenants, HasKey(HomeOf(), "us-east")), Count(tenants, HasKey(HomeOf(), "us-west")),
                  Count(tenants, HasKey(HomeOf(), "eu-central")))
  }

  // ---------- reading event_counters ----------

  /** GetCounters: one row per target, ordered by target. */
  ghost predicate ListsCounters(rows: seq<(string, nat)>, counters: map<string, Counter>) {
    && (forall i, j :: 0 <= i < j < |rows| ==> rows[i].0 != rows[j].0 && StrLeq(rows[i].0, rows[j].0))
    && (forall i :: 0 <= i < |rows| ==> rows[i].0 in counters && rows[i].1 == counters[rows[i].0].cnt)
    && (forall k :: k in counters ==> exists i :: 0 <= i < |rows| && rows[i].0 == k)
  }

  /** A Go map lookup of a missing key gives zero. */
  function Lookup(counters: map<string, Counter>, target: string): nat {
    if target in counters then counters[target].cnt else 0
  }

  method CounterMap(rows: seq<(string, nat)>, ghost counters: map<string, Counter>) returns (m: map<string, nat>)
    requires ListsCounters(rows, counters)
    ensures forall k :: (if k in m then m[k] else 0) == Lookup(counters, k)
  {
    m := map[];
    var i := 0;
    while i < |rows|
      invariant 0 <= i <= |rows|
      invariant forall k :: k in m <==> exists j :: 0 <= j < i && rows[j].0 == k
      invariant forall k :: k in m ==> k in counters && m[k] == counters[k].cnt
    {
      m := m[rows[i].0 := rows[i].1];
      i := i + 1;
    }
  }

  // ---------- ListTenants ----------

  datatype ListTenantsResponse = ListTenantsResponse(
    total: nat, tiers: TierSummary, regions: RegionSummary,
    totalEvents: nat, totalRegionalEvents: nat, tenants: seq<Tenant>)

  function ListTenantsOf(tenants: seq<Tenant>, store: Store): ListTenantsResponse {
    ListTenantsResponse(
      |tenants|, TiersOf(tenants), RegionsOf(tenants),
      Lookup(store.counters, "global"),
      Lookup(store.counters, "east") + Lookup(store.counters, "west") + Lookup(store.counters, "eu"),
      tenants)
  }

  lemma SummariesAppend(tenants: seq<Tenant>, t: Tenant)
    ensures var a, b := TiersOf(tenants), TiersOf(tenants + [t]);
      b == TierSummary(a.critical + (if t.qos == CRITICAL then 1 else 0),
                       a.regular + (if t.qos == REGULAR then 1 else 0),
                       a.background + (if t.qos == BACKGROUND then 1 else 0))
    ensures var a, b := RegionsOf(tenants), RegionsOf(tenants + [t]);
      b == RegionSummary(a.usEast + (if t.homeRegion == "us-east" then 1 else 0),
                         a.usWest + (if t.homeRegion == "us-west" then 1 else 0),
                         a.euCentral + (if t.homeRegion == "eu-central" then 1 else 0))
  {
    CountAppend(tenants, t, HasKey(TierOf(), CRITICAL));
    CountAppend(tenants, t, HasKey(TierOf(), REGULAR));
    CountAppend(tenants, t, HasKey(TierOf(), BACKGROUND));
    CountAppend(tenants, t, HasKey(HomeOf(), "us-east"));
    CountAppend(tenants, t, HasKey(HomeOf(), "us-west"));
    CountAppend(tenants, t, HasKey(HomeOf(), "eu-central"));
  }

  /** In full: each tally counts what its name says. */
  lemma TalliesInFull(tenants: seq<Tenant>)
    ensures TiersOf(tenants) == TierSummary(
      Count(tenants, InTier("critical")), Count(tenants, InTier("regular")), Count(tenants, InTier("background")))
    ensures RegionsOf(tenants) == RegionSummary(
      Count(tenants, HomedIn("us-east")), Count(tenants, HomedIn("us-west")), Count(tenants, HomedIn("eu-central")))
  {
    CountSame(tenants, HasKey(TierOf(), CRITICAL), InTier("critical"));
    CountSame(tenants, HasKey(TierOf(), REGULAR), InTier("regular"));
    CountSame(tenants, HasKey(TierOf(), BACKGROUND), InTier("background"));
    CountSame(tenants, HasKey(HomeOf(), "us-east"), HomedIn("us-east"));
    CountSame(tenants, HasKey(HomeOf(), "us-west"), HomedIn("us-west"));
    CountSame(tenants, HasKey(HomeOf(), "eu-central"), HomedIn("eu-central"));
  }

  method ListTenants(tenantRows: seq<Tenant>, counterRows: seq<(string, nat)>, ghost store: Store)
    returns (resp: ListTenantsResponse)
    requires ListsCounters(counterRows, store.counters)
    ensures resp == ListTenantsOf(tenantRows, store)
    ensures resp.total == |tenantRows| && resp.tenants == tenantRows
    ensures resp.tiers.critical == Count(tenantRows, InTier("critical"))
    ensures resp.tiers.regular == Count(tenantRows, InTier("regular"))
    ensures resp.tiers.background == Count(tenantRows, InTier("background"))
    ensures resp.regions.usEast == Count(tenantRows, HomedIn("us-east"))
    ensures resp.regions.usWest == Count(tenantRows, HomedIn("us-west"))
    ensures resp.regions.euCentral == Count(tenantRows, HomedIn("eu-central"))
  {
    TalliesInFull(tenantRows);
    var counters := CounterMap(counterRows, store.counters);
    var critical, regular, background := 0, 0, 0;
    var usEast, usWest, euCentral := 0, 0, 0;
    var tenants: seq<Tenant> := [];
    var i := 0;
    while i < |tenantRows|
      invariant 0 <= i <= |tenantRows| && tenants == tenantRows[..i]
      invariant TierSummary(critical, regular, background) == TiersOf(tenantRows[..i])
      invariant RegionSummary(usEast, usWest, euCentral) == RegionsOf(tenantRows[..i])
    {
      var t := tenantRows[i];
      SummariesAppend(tenantRows[..i], t);
      assert tenantRows[..i + 1] == tenantRows[..i] + [t];
      if t.qos == CRITICAL { critical := critical + 1; }
      else if t.qos == REGULAR { regular := regular + 1; }
      else if t.qos == BACKGROUND { background := background + 1; }
      if t.homeRegion == "us-east" { usEast := usEast + 1; }
      else if t.homeRegion == "us-west" { usWest := usWest + 1; }
      else if t.homeRegion == "eu-central" { euCentral := euCentral + 1; }
      tenants := tenants + [t];
      i := i + 1;
    }
    assert tenantRows[..i] == tenantRows;
    resp := ListTenantsResponse(
      |tenants|, TierSummary(critical, regular, background), RegionSummary(usEast, usWest, euCentral),
      if "global" in counters then counters["global"] else 0,
      (if "east" in counters then counters["east"] else 0) + (if "west" in counters then counters["west"] else 0)
      + (if "eu" in counters then counters["eu"] else 0),
      tenants);
  }

  ghost predicate TotalsExact(store: Store, tenants: seq<Tenant>) {
    var resp := ListTenantsOf(tenants, store);
    resp.totalEvents == CountAllEvents(store) && resp.totalRegionalEvents == |store.regional|
  }

  ghost predicate TotalsExactAfter(pool: seq<Tenant>, st: Store, trace: seq<Action>, tenants: seq<Tenant>) {
    TotalsExact(Run(Start(pool, st), trace).store, tenants)
  }

  /** The event totals ListTenants reports from event_counters are the exact row counts of both
      tables in every reachable state, when the tenants are homed to the three mapped regions and
      the process found exact counters over rows of such tenants. */
  lemma ListTenantsReportsRowCounts(pool: seq<Tenant>, st: Store, trace: seq<Action>, tenants: seq<Tenant>)
    requires AllMapped(pool) && LeftByPool(pool, st) && CountersExact(st)
    ensures TotalsExactAfter(pool, st, trace, tenants)
  {
    PartitionsCoverTable(pool, st, trace);
  }

  function Partitioned(): Row -> bool { (r: Row) => RegionTarget(r.region) in ["east", "west", "eu"] }

  lemma {:induction false} ThreeTargetsAddUp(rows: seq<Row>)
    ensures Count(rows, CountedUnder("east")) + Count(rows, CountedUnder("west")) + Count(rows, CountedUnder("eu"))
         == Count(rows, Partitioned())
  {
    if rows != [] { ThreeTargetsAddUp(rows[..|rows| - 1]); }
  }

  /** From fresh tables the two totals are exact in a state exactly when every regional row went to
      one of the three partition counters. */
  lemma FreshTotalsExactIff(pool: seq<Tenant>, trace: seq<Action>, tenants: seq<Tenant>)
    ensures var store := Run(Init(pool), trace).store;
      TotalsExact(store, tenants) <==> forall r :: r in store.regional ==> Partitioned()(r)
  {
    var store := Run(Init(pool), trace).store;
    InvAlways(pool, trace);
    assert TARGETS[0] == GLOBAL && TARGETS[1] == "east" && TARGETS[2] == "west" && TARGETS[3] == "eu";
    ThreeTargetsAddUp(store.regional);
    CountFull(store.regional, Partitioned());
    GlobalCounterExact(pool, trace);
  }

  /** By how much the two totals are off. */
  function TotalsOff(store: Store, tenants: seq<Tenant>): (int, int) {
    var resp := ListTenantsOf(tenants, store);
    (resp.totalEvents - |store.events|, resp.totalRegionalEvents - |store.regional|)
  }

  lemma TotalsOnTop(pool: seq<Tenant>, st: Store, trace: seq<Action>, tenants: seq<Tenant>)
    requires Migrated(st)
    ensures var a, b, c := TotalsOff(Run(Start(pool, st), trace).store, tenants), TotalsOff(st, tenants), TotalsOff(Run(Init(pool), trace).store, tenants);
      a.0 == b.0 + c.0 && a.1 == b.1 + c.1
  {
    RunOnTop(pool, st, trace);
    InvAlways(pool, trace);
    assert TARGETS[0] == GLOBAL && TARGETS[1] == "east" && TARGETS[2] == "west" && TARGETS[3] == "eu";
  }

  ghost predicate AllPartitioned(pool: seq<Tenant>) {
    forall t :: t in pool ==> RegionTarget(t.homeRegion) in ["east", "west", "eu"]
  }

  lemma TotalsKeptExact(pool: seq<Tenant>, st: Store, trace: seq<Action>, tenants: seq<Tenant>)
    requires Migrated(st) && AllPartitioned(pool)
    ensures TotalsExactAfter(pool, st, trace, tenants) <==> TotalsExact(st, tenants)
  {
    var store := Run(Init(pool), trace).store;
    forall r | r in store.regional ensures Partitioned()(r) {
      assert r in Rows(store, Regional);
      FreshRowsBelong(pool, trace, Regional, r);
    }
    FreshTotalsExactIff(pool, trace, tenants);
    TotalsOnTop(pool, st, trace, tenants);
  }

  lemma TotalsSpoiled(pool: seq<Tenant>, st: Store, i: nat, tenants: seq<Tenant>)
    requires Migrated(st) && i < |pool| && RegionTarget(pool[i].homeRegion) !in ["east", "west", "eu"]
    ensures !TotalsExact(st, tenants) || !TotalsExactAfter(pool, st, LoneRegionalWrite(i), tenants)
  {
    LoneWriteCommits(pool, i);
    FreshTotalsExactIff(pool, LoneRegionalWrite(i), tenants);
    assert !Partitioned()(Run(Init(pool), LoneRegionalWrite(i)).store.regional[0]);
    TotalsOnTop(pool, st, LoneRegionalWrite(i), tenants);
  }

  /** From any tables, ListTenants reports exact totals throughout every run exactly when they were
      exact at the start and every tenant of the pool is homed where writes are counted under
      "east", "west" or "eu". */
  lemma TotalsAlwaysExact(pool: seq<Tenant>, st: Store, tenants: seq<Tenant>)
    requires Migrated(st)
    ensures (forall trace :: TotalsExactAfter(pool, st, trace, tenants)) <==> TotalsExact(st, tenants) && AllPartitioned(pool)
  {
    assert Run(Start(pool, st), []).store == st;
    assert TotalsExactAfter(pool, st, [], tenants) <==> TotalsExact(st, tenants);
    if AllPartitioned(pool) {
      forall trace ensures TotalsExactAfter(pool, st, trace, tenants) <==> TotalsExact(st, tenants) {
        TotalsKeptExact(pool, st, trace, tenants);
      }
    } else {
      var i :| 0 <= i < |pool| && RegionTarget(pool[i].homeRegion) !in ["east", "west", "eu"];
      TotalsSpoiled(pool, st, i, tenants);
    }
  }

  /** The tier tallies of the response add up to its total exactly when every tenant is in one
      of the three tiers, and the region tallies exactly when every tenant is in a mapped region. */
  lemma {:induction false} ListTenantsTalliesAddUp(tenants: seq<Tenant>, store: Store)
    ensures var resp := ListTenantsOf(tenants, store);
      var byTier := resp.tiers.critical + resp.tiers.regular + resp.tiers.background;
      var byRegion := resp.regions.usEast + resp.regions.usWest + resp.regions.euCentral;
      && byTier <= resp.total && byRegion <= resp.total
      && (byTier == resp.total <==> forall t :: t in tenants ==> t.qos in TIERS)
      && (byRegion == resp.total <==> forall t :: t in tenants ==> Mapped(t.homeRegion))
  {
    if tenants != [] {
      var n := |tenants| - 1;
      ListTenantsTalliesAddUp(tenants[..n], store);
      SummariesAppend(tenants[..n], tenants[n]);
      assert tenants == tenants[..n] + [tenants[n]];
      assert TIERS[0] == CRITICAL && TIERS[1] == REGULAR && TIERS[2] == BACKGROUND;
    }
  }

  // ---------- GetRegionStatus ----------

  datatype RegionStatus = RegionStatus(region: string, tenantCount: nat, eventCount: nat, tiers: TierSummary)

  /** The literal region-to-target map of the handler; an unmapped region looks up "". */
  function StatusTarget(region: string): string {
    if region == "us-east" then "east" else if region == "us-west" then "west"
    else if region == "eu-central" then "eu" else ""
  }

  function StatusOf(all: seq<Tenant>, region: string, store: Store): RegionStatus {
    var homed := Filter(all, HasKey(HomeOf(), region));
    RegionStatus(region, |homed|, Lookup(store.counters, StatusTarget(region)), TiersOf(homed))
  }

  method CountTiers(tenants: seq<Tenant>) returns (tiers: TierSummary)
    ensures tiers == TiersOf(tenants)
  {
    var critical, regular, background := 0, 0, 0;
    var i := 0;
    while i < |tenants|
      invariant 0 <= i <= |tenants|
      invariant TierSummary(critical, regular, background) == TiersOf(tenants[..i])
    {
      SummariesAppend(tenants[..i], tenants[i]);
      assert tenants[..i + 1] == tenants[..i] + [tenants[i]];
      if tenants[i].qos == CRITICAL { critical := critical + 1; }
      else if tenants[i].qos == REGULAR { regular := regular + 1; }
      else if tenants[i].qos == BACKGROUND { background := background + 1; }
      i := i + 1;
    }
    assert tenants[..i] == tenants;
    tiers := TierSummary(critical, regular, background);
  }

  method RegionEntry(pool: TenantPool, region: string, counters: map<string, nat>, ghost store: Store)
    returns (status: RegionStatus)
    requires pool.Indexed()
    requires forall k :: (if k in counters then counters[k] else 0) == Lookup(store.counters, k)
    ensures status == StatusOf(pool.all, region, store)
  {
    EmptyFilter(pool.all, HasKey(HomeOf(), region));
    var tenants := pool.ByRegion(region);
    assert tenants == Filter(pool.all, HasKey(HomeOf(), region));
    var tiers := CountTiers(tenants);
    var target := StatusTarget(region);
    var events := if target in counters then counters[target] else 0;
    status := RegionStatus(region, |tenants|, events, tiers);
  }

  method RegionEntries(pool: TenantPool, regions: seq<string>, counters: map<string, nat>, ghost store: Store)
    returns (statuses: seq<RegionStatus>)
    requires pool.Indexed()
    requires forall k :: (if k in counters then counters[k] else 0) == Lookup(store.counters, k)
    ensures |statuses| == |regions|
    ensures forall i :: 0 <= i < |regions| ==> statuses[i] == StatusOf(pool.all, regions[i], store)
  {
    statuses := [];
    var i := 0;
    while i < |regions|
      invariant 0 <= i <= |regions| && |statuses| == i
      invariant forall k :: 0 <= k < i ==> statuses[k] == StatusOf(pool.all, regions[k], store)
    {
      var status := RegionEntry(pool, regions[i], counters, store);
      statuses := statuses + [status];
      i := i + 1;
    }
  }

  function RegionNames(statuses: seq<RegionStatus>): (names: seq<string>)
    ensures |names| == |statuses|
    ensures forall i :: 0 <= i < |statuses| ==> names[i] == statuses[i].region
  {
    seq(|statuses|, i requires 0 <= i < |statuses| => statuses[i].region)
  }

  /** In full: an entry tallies the pool's tenants homed in its region, tier by tier. */
  lemma StatusInFull(all: seq<Tenant>, region: string, store: Store)
    ensures var s := StatusOf(all, region, store);
      && s.region == region && s.tenantCount == Count(all, HomedIn(region))
      && s.tiers.critical == Count(all, InCell("critical", region))
      && s.tiers.regular == Count(all, InCell("regular", region))
      && s.tiers.background == Count(all, InCell("background", region))
  {
    var homed := HasKey(HomeOf(), region);
    TalliesInFull(Filter(all, homed));
    CountIsFilterLength(all, homed);
    CountSame(all, homed, HomedIn(region));
    CountOfFilter(all, homed, InTier("critical"));
    CountOfFilter(all, homed, InTier("regular"));
    CountOfFilter(all, homed, InTier("background"));
    CountSame(all, Both(homed, InTier("critical")), InCell("critical", region));
    CountSame(all, Both(homed, InTier("regular")), InCell("regular", region));
    CountSame(all, Both(homed, InTier("background")), InCell("background", region));
  }

  ghost predicate EntryInFull(all: seq<Tenant>, s: RegionStatus) {
    && s.tenantCount == Count(all, HomedIn(s.region))
    && s.tiers.critical == Count(all, InCell("critical", s.region))
    && s.tiers.regular == Count(all, InCell("regular", s.region))
    && s.tiers.background == Count(all, InCell("background", s.region))
  }

  function TenantsIn(): RegionStatus -> int { (s: RegionStatus) => s.tenantCount }

  lemma {:induction false} SumOverRegions(statuses: seq<RegionStatus>, all: seq<Tenant>)
    requires forall s :: s in statuses ==> EntryInFull(all, s)
    ensures Sum(statuses, TenantsIn()) == Sum(RegionNames(statuses), GroupSize(all, HomeOf()))
  {
    if statuses != [] {
      var n := |statuses| - 1;
      SumOverRegions(statuses[..n], all);
      assert statuses[n] in statuses;
      CountSame(all, HomedIn(statuses[n].region), HasKey(HomeOf(), statuses[n].region));
      assert RegionNames(statuses)[..n] == RegionNames(statuses[..n]);
    }
  }

  /** One entry per active region, in sorted order; between them they tally every tenant once. */
  method GetRegionStatus(pool: TenantPool, counterRows: seq<(string, nat)>, ghost store: Store)
    returns (statuses: seq<RegionStatus>)
    requires pool.Indexed() && ListsCounters(counterRows, store.counters)
    ensures SortedBy(StringOrder(), RegionNames(statuses)) && Distinct(RegionNames(statuses))
    ensures forall r :: r in RegionNames(statuses) <==> exists t :: t in pool.all && t.homeRegion == r
    ensures forall s :: s in statuses ==> s == StatusOf(pool.all, s.region, store)
    ensures forall s :: s in statuses ==> EntryInFull(pool.all, s)
    ensures Sum(statuses, TenantsIn()) == |pool.all|
  {
    var counters := CounterMap(counterRows, store.counters);
    var regions := pool.ActiveRegions();
    statuses := RegionEntries(pool, regions, counters, store);
    assert RegionNames(statuses) == regions;
    forall s | s in statuses ensures EntryInFull(pool.all, s) { StatusInFull(pool.all, s.region, store); }
    SumOverRegions(statuses, pool.all);
    forall t | t in pool.all ensures HomeOf()(t) in regions { }
    GroupsAddUp(pool.all, HomeOf(), regions);
  }

  /** For a mapped region the reported event count is the partition's row count; for any other
      region it is zero, so it is right exactly when the region has no rows. */
  lemma RegionStatusReportsPartition(pool: seq<Tenant>, trace: seq<Action>, all: seq<Tenant>, region: string)
    ensures var store := Run(Init(pool), trace).store;
      var exact := StatusOf(all, region, store).eventCount == Count(store.regional, InRegion(region));
      if Mapped(region)
      then exact <==> forall r :: r in store.regional ==> r.region != RegionTarget(region)
      else exact <==> forall r :: r in store.regional ==> r.region != region
  {
    var store := Run(Init(pool), trace).store;
    InvAlways(pool, trace);
    if Mapped(region) {
      PartitionCounterExact(pool, trace, region);
    } else {
      assert "" !in store.counters;
      CountPositive(store.regional, InRegion(region));
    }
  }

  ghost predicate StatusExact(store: Store, all: seq<Tenant>, region: string) {
    StatusOf(all, region, store).eventCount == Count(store.regional, InRegion(region))
  }

  ghost predicate StatusExactAfter(pool: seq<Tenant>, st: Store, trace: seq<Action>, all: seq<Tenant>, region: string) {
    StatusExact(Run(Start(pool, st), trace).store, all, region)
  }

  function StatusOff(store: Store, all: seq<Tenant>, region: string): int {
    StatusOf(all, region, store).eventCount - Count(store.regional, InRegion(region))
  }

  lemma StatusOnTop(pool: seq<Tenant>, st: Store, trace: seq<Action>, all: seq<Tenant>, region: string)
    requires Migrated(st)
    ensures StatusOff(Run(Start(pool, st), trace).store, all, region)
         == StatusOff(st, all, region) + StatusOff(Run(Init(pool), trace).store, all, region)
  {
    RunOnTop(pool, st, trace);
    InvAlways(pool, trace);
    CountConcat(st.regional, Run(Init(pool), trace).store.regional, InRegion(region));
    assert TARGETS[1] == "east" && TARGETS[2] == "west" && TARGETS[3] == "eu";
  }

  /** From any tables, a region's reported count is right throughout every run exactly when it was at
      the start and no tenant of the pool is homed under the short name of its counter, or, for an
      unmapped region, when none is homed in it. */
  lemma RegionStatusAlwaysExact(pool: seq<Tenant>, st: Store, all: seq<Tenant>, region: string)
    requires Migrated(st)
    ensures (forall trace :: StatusExactAfter(pool, st, trace, all, region))
        <==> StatusExact(st, all, region) && NobodyHomed(pool, if Mapped(region) then RegionTarget(region) else region)
  {
    var culprit := if Mapped(region) then RegionTarget(region) else region;
    assert Run(Start(pool, st), []).store == st;
    assert StatusExactAfter(pool, st, [], all, region) <==> StatusExact(st, all, region);
    if NobodyHomed(pool, culprit) {
      forall trace ensures StatusExactAfter(pool, st, trace, all, region) <==> StatusExact(st, all, region) {
        RegionRowsNeedATenant(pool, trace, culprit);
        RegionStatusReportsPartition(pool, trace, all, region);
        StatusOnTop(pool, st, trace, all, region);
      }
    } else {
      var i :| 0 <= i < |pool| && pool[i].homeRegion == culprit;
      LoneWriteCommits(pool, i);
      RegionStatusReportsPartition(pool, LoneRegionalWrite(i), all, region);
      assert Run(Init(pool), LoneRegionalWrite(i)).store.regional[0].region == culprit;
      StatusOnTop(pool, st, LoneRegionalWrite(i), all, region);
      assert StatusExact(st, all, region) ==> !StatusExactAfter(pool, st, LoneRegionalWrite(i), all, region);
    }
  }

  // ---------- VerifyRLS ----------

  function Homes(tenants: seq<Tenant>): (homes: seq<string>)
    ensures |homes| == |tenants|
    ensures forall i :: 0 <= i < |tenants| ==> homes[i] == tenants[i].homeRegion
  {
    seq(|tenants|, i requires 0 <= i < |tenants| => tenants[i].homeRegion)
  }

  /** The first tenant of each region, in pool order. */
  function FirstOfEach(all: seq<Tenant>): seq<Tenant> {
    if all == [] then []
    else
      var front := FirstOfEach(all[..|all| - 1]);
      var t := all[|all| - 1];
      if t.homeRegion in Homes(front) then front else front + [t]
  }

  lemma {:induction false} FirstOfEachHomes(all: seq<Tenant>)
    ensures Distinct(Homes(FirstOfEach(all)))
    ensures forall r :: r in Homes(FirstOfEach(all)) <==> exists t :: t in all && t.homeRegion == r
    ensures forall t :: t in FirstOfEach(all) ==> t in all
  {
    if all != [] {
      var n := |all| - 1;
      FirstOfEachHomes(all[..n]);
      assert all == all[..n] + [all[n]];
      var front := FirstOfEach(all[..n]);
      if all[n].homeRegion !in Homes(front) {
        assert Homes(front + [all[n]]) == Homes(front) + [all[n].homeRegion];
      }
    }
  }

  ghost predicate FirstAt(all: seq<Tenant>, i: nat, t: Tenant) {
    i < |all| && all[i] == t && forall j :: 0 <= j < i ==> all[j].homeRegion != t.homeRegion
  }

  /** A tenant is picked exactly when no tenant of its region comes before it. */
  lemma {:induction false} PickedIffFirst(all: seq<Tenant>, t: Tenant)
    ensures t in FirstOfEach(all) <==> exists i: nat :: FirstAt(all, i, t)
  {
    if all != [] {
      var n := |all| - 1;
      var front := FirstOfEach(all[..n]);
      PickedIffFirst(all[..n], t);
      FirstOfEachHomes(all[..n]);
      if i: nat :| FirstAt(all[..n], i, t) { assert FirstAt(all, i, t); }
      if i: nat :| FirstAt(all, i, t) {
        if i < n {
          assert FirstAt(all[..n], i, t);
        } else {
          assert all[n].homeRegion !in Homes(front);
        }
      }
      if t in FirstOfEach(all) && t !in front {
        assert FirstAt(all, n, t);
      }
    }
  }

  lemma {:induction false} FirstOfEachGrows(all: seq<Tenant>, i: nat)
    requires i <= |all|
    ensures FirstOfEach(all[..i]) <= FirstOfEach(all)
    decreases |all|
  {
    if i == |all| {
      assert all[..i] == all;
    } else {
      var n := |all| - 1;
      FirstOfEachGrows(all[..n], i);
      assert all[..n][..i] == all[..i];
    }
  }

  /** The sampling loop with its early exit picks exactly one tenant for each active region. */
  method SampleTenants(pool: TenantPool) returns (candidates: seq<Tenant>)
    requires pool.Indexed()
    ensures candidates == FirstOfEach(pool.all)
    ensures forall t :: t in candidates <==> exists i: nat :: FirstAt(pool.all, i, t)
    ensures Distinct(Homes(candidates))
    ensures forall r :: r in Homes(candidates) <==> exists t :: t in pool.all && t.homeRegion == r
    ensures forall t :: t in candidates ==> t in pool.all
  {
    var activeRegions := pool.ActiveRegions();
    FirstOfEachHomes(pool.all);
    forall t ensures t in FirstOfEach(pool.all) <==> exists i: nat :: FirstAt(pool.all, i, t) { PickedIffFirst(pool.all, t); }
    SameElementsSameLength(Homes(FirstOfEach(pool.all)), activeRegions);
    var seen: set<string> := {};
    candidates := [];
    var i := 0;
    while i < |pool.all|
      invariant 0 <= i <= |pool.all|
      invariant candidates == FirstOfEach(pool.all[..i])
      invariant forall r :: r in seen <==> r in Homes(candidates)
    {
      var t := pool.all[i];
      assert pool.all[..i + 1][..i] == pool.all[..i];
      FirstOfEachGrows(pool.all, i + 1);
      if t.homeRegion !in seen {
        seen := seen + {t.homeRegion};
        assert Homes(candidates + [t]) == Homes(candidates) + [t.homeRegion];
        candidates := candidates + [t];
        if |candidates| == |activeRegions| { return; }
      }
      i := i + 1;
    }
    assert pool.all[..i] == pool.all;
  }

  datatype RlsSample = RlsSample(tenant: Tenant, visibleRows: nat, rlsEnforced: bool)
  datatype RlsResponse = RlsResponse(adminTotal: nat, rlsEnforced: bool, samples: seq<RlsSample>)

  function Flag(adminTotal: nat, count: nat): bool { adminTotal == 0 || count < adminTotal }

  /** The samples of the candidates whose query succeeded, in order. */
  function Samples(candidates: seq<Tenant>, adminTotal: nat, counts: nat -> Option<nat>): seq<RlsSample> {
    if candidates == [] then []
    else
      var n := |candidates| - 1;
      Samples(candidates[..n], adminTotal, counts)
      + match counts(n)
        case None => []
        case Some(c) => [RlsSample(candidates[n], c, Flag(adminTotal, c))]
  }

  ghost predicate AnyEnforced(samples: seq<RlsSample>) { exists s :: s in samples && s.rlsEnforced }

  lemma SampleOfLast(candidates: seq<Tenant>, adminTotal: nat, counts: nat -> Option<nat>, s: RlsSample)
    requires candidates != []
    ensures var n := |candidates| - 1;
      s in Samples(candidates, adminTotal, counts) <==>
        || s in Samples(candidates[..n], adminTotal, counts)
        || (candidates[n] == s.tenant && counts(n) == Some(s.visibleRows) && s.rlsEnforced == Flag(adminTotal, s.visibleRows))
  {
  }

  /** The samples are exactly the answered candidates, each flagged by its own count. */
  lemma {:induction false} SamplesAreAnswers(candidates: seq<Tenant>, adminTotal: nat, counts: nat -> Option<nat>, s: RlsSample)
    ensures s in Samples(candidates, adminTotal, counts)
        <==> exists i :: 0 <= i < |candidates| && candidates[i] == s.tenant && counts(i) == Some(s.visibleRows)
                         && s.rlsEnforced == Flag(adminTotal, s.visibleRows)
  {
    if candidates != [] {
      var n := |candidates| - 1;
      SamplesAreAnswers(candidates[..n], adminTotal, counts, s);
      SampleOfLast(candidates, adminTotal, counts, s);
      assert forall i :: 0 <= i < n ==> candidates[..n][i] == candidates[i];
    }
  }

  function Answered(counts: nat -> Option<nat>, n: nat): nat {
    if n == 0 then 0 else Answered(counts, n - 1) + if counts(n - 1).Some? then 1 else 0
  }

  /** There is one sample for each answered candidate, in the candidates' order. */
  lemma {:induction false} SamplesInOrder(candidates: seq<Tenant>, adminTotal: nat, counts: nat -> Option<nat>, m: nat)
    requires m <= |candidates|
    ensures |Samples(candidates, adminTotal, counts)| == Answered(counts, |candidates|)
    ensures Samples(candidates[..m], adminTotal, counts) <= Samples(candidates, adminTotal, counts)
    decreases |candidates|
  {
    if candidates != [] {
      var n := |candidates| - 1;
      SamplesInOrder(candidates[..n], adminTotal, counts, if m < n then m else n);
      if m < |candidates| { assert candidates[..n][..m] == candidates[..m]; } else { assert candidates[..m] == candidates; }
    }
  }

  /** The response to a call whose admin count was total and whose i-th candidate was counted as
      counts(i). */
  ghost predicate Answers(resp: RlsResponse, all: seq<Tenant>, total: nat, counts: nat -> Option<nat>) {
    && resp.adminTotal == total
    && resp.samples == Samples(FirstOfEach(all), total, counts)
    && (resp.rlsEnforced <==> total == 0 || AnyEnforced(resp.samples))
  }

  lemma SamplesStep(candidates: seq<Tenant>, i: nat, adminTotal: nat, counts: nat -> Option<nat>)
    requires i < |candidates|
    ensures var before := Samples(candidates[..i], adminTotal, counts);
      var after := Samples(candidates[..i + 1], adminTotal, counts);
      match counts(i)
      case None => after == before
      case Some(c) =>
        && after == before + [RlsSample(candidates[i], c, Flag(adminTotal, c))]
        && (AnyEnforced(after) <==> AnyEnforced(before) || Flag(adminTotal, c))
  {
    assert candidates[..i + 1][..i] == candidates[..i];
    var before := Samples(candidates[..i], adminTotal, counts);
    if counts(i).Some? {
      var sample := RlsSample(candidates[i], counts(i).value, Flag(adminTotal, counts(i).value));
      assert sample in before + [sample];
      if s :| s in before && s.rlsEnforced { assert s in before + [sample]; }
    }
  }

  /** Queries every candidate in turn; a failed query drops that sample. */
  method QueryCandidates(candidates: seq<Tenant>, adminTotal: nat, counts: nat -> Option<nat>)
    returns (samples: seq<RlsSample>, enforced: bool)
    ensures samples == Samples(candidates, adminTotal, counts)
    ensures enforced <==> adminTotal == 0 || AnyEnforced(samples)
  {
    samples := [];
    enforced := adminTotal == 0;
    var i := 0;
    while i < |candidates|
      invariant 0 <= i <= |candidates|
      invariant samples == Samples(candidates[..i], adminTotal, counts)
      invariant enforced <==> adminTotal == 0 || AnyEnforced(samples)
    {
      SamplesStep(candidates, i, adminTotal, counts);
      match counts(i) {
        case None =>
        case Some(count) =>
          var e := adminTotal == 0 || count < adminTotal;
          if e { enforced := true; }
          samples := samples + [RlsSample(candidates[i], count, e)];
      }
      i := i + 1;
    }
    assert candidates[..i] == candidates;
  }

  /** None when the admin count fails. */
  method VerifyRLS(pool: TenantPool, adminCount: Option<nat>, counts: nat -> Option<nat>)
    returns (resp: Option<RlsResponse>)
    requires pool.Indexed()
    ensures resp.None? <==> adminCount.None?
    ensures resp.Some? ==> Answers(resp.value, pool.all, adminCount.value, counts)
  {
    if adminCount.None? { return None; }
    var candidates := SampleTenants(pool);
    var samples, enforced := QueryCandidates(candidates, adminCount.value, counts);
    resp := Some(RlsResponse(adminCount.value, enforced, samples));
  }

  /** countWithTenant returns the same number whether or not the policy is in force, because
      its own WHERE clause already filters by tenant; the verdict cannot depend on the policy. */
  lemma {:induction false} VerdictIgnoresPolicy(store: Store, id: Uuid)
    ensures CountWithTenant(store, true, id) == CountWithTenant(store, false, id)
    decreases |store.events|
  {
    var rows := store.events;
    if rows != [] {
      var front := store.(events := rows[..|rows| - 1]);
      VerdictIgnoresPolicy(front, id);
      var kept := Filter(front.events, Visible(Some(id)));
      CountAppend(kept, rows[|rows| - 1], OfTenant(id));
      assert kept + [] == kept;
    }
  }

  /** At one snapshot a sample is flagged exactly when the table is empty or holds a row of
      another tenant. */
  lemma FlagAtOneSnapshot(store: Store, policyOn: bool, id: Uuid)
    ensures Flag(CountAllEvents(store), CountWithTenant(store, policyOn, id))
        <==> store.events == [] || exists r :: r in store.events && r.tenantId != id
  {
    VerdictIgnoresPolicy(store, id);
    CountFull(store.events, OfTenant(id));
  }

  /** Under concurrent writers a flagged sample with a nonzero admin total still means that, when
      the tenant was counted, some event row was not its own: history only grows. */
  lemma FlagMeansForeignRow(pool: seq<Tenant>, st: Store, before: seq<Action>, since: seq<Action>, policyOn: bool, id: Uuid)
    requires CountAllEvents(Run(Start(pool, st), before).store) > 0
    requires Flag(CountAllEvents(Run(Start(pool, st), before).store),
                  CountWithTenant(Run(Start(pool, st), before + since).store, policyOn, id))
    ensures exists r :: r in Run(Start(pool, st), before + since).store.events && r.tenantId != id
  {
    RunConcat(Start(pool, st), before, since);
    HistoryGrows(Run(Start(pool, st), before), since);
    FlagAtOneSnapshot(Run(Start(pool, st), before + since).store, policyOn, id);
  }

  /** The i-th candidate's count, if it was answered, was taken after the steps later(i), at a
      moment of its own. */
  ghost predicate CountedAlong(pool: seq<Tenant>, st: Store, before: seq<Action>, later: nat -> seq<Action>, policyOn: bool,
                               candidates: seq<Tenant>, counts: nat -> Option<nat>) {
    forall i: nat :: i < |candidates| && counts(i).Some? ==>
      counts(i).value == CountWithTenant(Run(Start(pool, st), before + later(i)).store, policyOn, candidates[i].id)
  }

  ghost predicate SawForeignRow(pool: seq<Tenant>, st: Store, before: seq<Action>, later: nat -> seq<Action>, i: nat, id: Uuid) {
    exists r :: r in Run(Start(pool, st), before + later(i)).store.events && r.tenantId != id
  }

  /** End to end: if a response with a nonzero total flags a sample as enforced, then at the
      moment that sample was counted the table held a row that was not the sampled tenant's. */
  lemma EnforcedSampleSawForeignRow(pool: seq<Tenant>, st: Store, before: seq<Action>, later: nat -> seq<Action>, policyOn: bool,
                                    all: seq<Tenant>, counts: nat -> Option<nat>, resp: RlsResponse, s: RlsSample)
    requires Answers(resp, all, CountAllEvents(Run(Start(pool, st), before).store), counts)
    requires CountedAlong(pool, st, before, later, policyOn, FirstOfEach(all), counts)
    requires resp.adminTotal > 0 && s in resp.samples && s.rlsEnforced
    ensures s.tenant in all
    ensures exists i: nat :: i < |FirstOfEach(all)| && FirstOfEach(all)[i] == s.tenant && SawForeignRow(pool, st, before, later, i, s.tenant.id)
  {
    SamplesAreAnswers(FirstOfEach(all), resp.adminTotal, counts, s);
    FirstOfEachHomes(all);
    var i :| 0 <= i < |FirstOfEach(all)| && FirstOfEach(all)[i] == s.tenant && counts(i) == Some(s.visibleRows);
    FlagMeansForeignRow(pool, st, before, later(i), policyOn, s.tenant.id);
    assert SawForeignRow(pool, st, before, later, i, s.tenant.id);
  }

  lemma AnyEnforcedIff(candidates: seq<Tenant>, total: nat, counts: nat -> Option<nat>)
    requires total > 0
    ensures AnyEnforced(Samples(candidates, total, counts))
        <==> exists i: nat :: i < |candidates| && counts(i).Some? && counts(i).value < total
  {
    if AnyEnforced(Samples(candidates, total, counts)) {
      var s :| s in Samples(candidates, total, counts) && s.rlsEnforced;
      SamplesAreAnswers(candidates, total, counts, s);
    }
    if i: nat :| i < |candidates| && counts(i).Some? && counts(i).value < total {
      SamplesAreAnswers(candidates, total, counts, RlsSample(candidates[i], counts(i).value, true));
    }
  }

  /** How many rows of events the tenant owns after a run, policy or not. */
  function OwnRowsAt(pool: seq<Tenant>, st: Store, trace: seq<Action>, t: Tenant): nat {
    Count(Run(Start(pool, st), trace).store.events, OfTenant(t.id))
  }

  /** The verdict of the whole response: with a nonzero total it says enforced exactly when some
      answered candidate owned fewer rows, when counted, than the table held at the start. */
  lemma VerdictMeans(pool: seq<Tenant>, st: Store, before: seq<Action>, later: nat -> seq<Action>, policyOn: bool,
                     all: seq<Tenant>, counts: nat -> Option<nat>, resp: RlsResponse)
    requires Answers(resp, all, CountAllEvents(Run(Start(pool, st), before).store), counts)
    requires CountedAlong(pool, st, before, later, policyOn, FirstOfEach(all), counts)
    requires resp.adminTotal > 0
    ensures resp.rlsEnforced <==>
      exists i: nat :: i < |FirstOfEach(all)| && counts(i).Some? && OwnRowsAt(pool, st, before + later(i), FirstOfEach(all)[i]) < resp.adminTotal
  {
    AnyEnforcedIff(FirstOfEach(all), resp.adminTotal, counts);
    forall i: nat | i < |FirstOfEach(all)| && counts(i).Some?
      ensures counts(i).value == OwnRowsAt(pool, st, before + later(i), FirstOfEach(all)[i])
    {
      VerdictIgnoresPolicy(Run(Start(pool, st), before + later(i)).store, FirstOfEach(all)[i].id);
    }
  }
}
