/** The guarantees of the write path, over every run. */
module WritePathTheorems {
  import opened Sequences
  import opened Store
  import opened WritePath
  import opened WritePathProofs
  import opened EarlierTables

  ghost predicate UniqueIds(pool: seq<Tenant>) {
    forall i, j :: 0 <= i < j < |pool| ==> pool[i].id != pool[j].id
  }

  ghost predicate AllMapped(pool: seq<Tenant>) {
    forall t :: t in pool ==> Mapped(t.homeRegion)
  }

  // ---------- row-level security ----------

  /** The policy never refuses a workload insert: by then the setting is the writer's own id. */
  lemma PolicyNeverRefuses(pool: seq<Tenant>, trace: seq<Action>, i: nat, now: int)
    requires i < |Run(Init(pool), trace).writes|
    requires InPhase(Run(Init(pool), trace).writes[i], ContextSet)
    ensures var s := Run(Init(pool), trace); Ready(s.store, s.writes[i], InsertRow(now))
  {
    InvAlways(pool, trace);
    assert WriteOk(Run(Init(pool), trace), i);
  }

  ghost predicate Belongs(pool: seq<Tenant>, r: Row) {
    exists t :: t in pool && r.tenantId == t.id && r.region == t.homeRegion
  }

  /** The tables an earlier process left: migrated, and every row written for a tenant of the pool. */
  ghost predicate LeftByPool(pool: seq<Tenant>, st: Store) {
    Migrated(st) && forall table: Table, r: Row :: r in Rows(st, table) ==> Belongs(pool, r)
  }

  lemma FreshRowsBelong(pool: seq<Tenant>, trace: seq<Action>, table: Table, r: Row)
    requires r in Rows(Run(Init(pool), trace).store, table)
    ensures Belongs(pool, r)
  {
    InvAlways(pool, trace);
    var s := Run(Init(pool), trace);
    assert WriteOk(s, r.job.id);
    assert r.job.tenant in pool;
  }

  /** Every durable row carries its writer's tenant id and that tenant's home region, if the rows
      found at the start do. */
  lemma RowsBelongToTheirTenant(pool: seq<Tenant>, st: Store, trace: seq<Action>, table: Table, r: Row)
    requires LeftByPool(pool, st)
    requires r in Rows(Run(Start(pool, st), trace).store, table)
    ensures Belongs(pool, r)
  {
    RunOnTop(pool, st, trace);
    if r !in Rows(st, table) { FreshRowsBelong(pool, trace, table, r); }
  }

  /** The region filter of the regional read changes nothing for a tenant reading its own rows. */
  lemma RegionFilterIsRedundant(pool: seq<Tenant>, st: Store, trace: seq<Action>, t: Tenant, since: int)
    requires UniqueIds(pool) && t in pool && LeftByPool(pool, st)
    ensures var store := Run(Start(pool, st), trace).store;
      CountRecentRegionalEvents(store, Some(t.id), t.homeRegion, since) == Count(store.regional, Recent(Some(t.id), since))
  {
    var store := Run(Start(pool, st), trace).store;
    forall r | r in store.regional
      ensures RecentInRegion(Some(t.id), t.homeRegion, since)(r) == Recent(Some(t.id), since)(r)
    {
      assert r in Rows(store, Regional);
      RowsBelongToTheirTenant(pool, st, trace, Regional, r);
      var u :| u in pool && r.tenantId == u.id && r.region == u.homeRegion;
      var i :| 0 <= i < |pool| && pool[i] == t;
      var j :| 0 <= j < |pool| && pool[j] == u;
    }
    CountSame(store.regional, RecentInRegion(Some(t.id), t.homeRegion, since), Recent(Some(t.id), since));
  }

  function TenantOf(): Row -> Uuid { (r: Row) => r.tenantId }

  function Ids(pool: seq<Tenant>): (ids: seq<Uuid>)
    ensures |ids| == |pool|
    ensures forall i :: 0 <= i < |pool| ==> ids[i] == pool[i].id
  {
    seq(|pool|, i requires 0 <= i < |pool| => pool[i].id)
  }

  function VisibleRows(store: Store): Uuid -> int {
    (id: Uuid) => Count(store.events, Visible(Some(id)))
  }

  /** What the tenants of the pool see under the policy adds up to the admin COUNT of events. */
  lemma VisibleCountsAddUp(pool: seq<Tenant>, st: Store, trace: seq<Action>)
    requires UniqueIds(pool) && LeftByPool(pool, st)
    ensures var store := Run(Start(pool, st), trace).store;
      Sum(Ids(pool), VisibleRows(store)) == CountAllEvents(store)
  {
    var store := Run(Start(pool, st), trace).store;
    forall r | r in store.events ensures TenantOf()(r) in Ids(pool) {
      assert r in Rows(store, Events);
      RowsBelongToTheirTenant(pool, st, trace, Events, r);
      var t :| t in pool && r.tenantId == t.id;
      var i :| 0 <= i < |pool| && pool[i] == t;
      assert Ids(pool)[i] == r.tenantId;
    }
    GroupsAddUp(store.events, TenantOf(), Ids(pool));
    forall id: Uuid | id in Ids(pool) ensures VisibleRows(store)(id) == GroupSize(store.events, TenantOf())(id) {
      CountSame(store.events, Visible(Some(id)), HasKey(TenantOf(), id));
    }
    SumSame(Ids(pool), VisibleRows(store), GroupSize(store.events, TenantOf()));
  }

  // ---------- history ----------

  lemma {:induction false} HistoryGrows(s: State, trace: seq<Action>)
    ensures s.store.events <= Run(s, trace).store.events
    ensures s.store.regional <= Run(s, trace).store.regional
  {
    if trace != [] {
      HistoryGrows(s, trace[..|trace| - 1]);
    }
  }

  /** A follower read at an earlier snapshot never counts more rows than a strong read of any
      later state, in either table, for any tenant, region and cutoff. */
  lemma FollowerReadNeverAhead(pool: seq<Tenant>, st: Store, earlier: seq<Action>, more: seq<Action>,
                               setting: Option<Uuid>, region: string, since: int)
    ensures var before := Run(Start(pool, st), earlier).store;
      var now := Run(Start(pool, st), earlier + more).store;
      && CountRecentEvents(before, setting, since) <= CountRecentEvents(now, setting, since)
      && CountRecentRegionalEvents(before, setting, region, since) <= CountRecentRegionalEvents(now, setting, region, since)
  {
    var s := Run(Start(pool, st), earlier);
    RunConcat(Start(pool, st), earlier, more);
    HistoryGrows(s, more);
    CountMonotone(s.store.events, Run(s, more).store.events, Recent(setting, since));
    CountMonotone(s.store.regional, Run(s, more).store.regional, RecentInRegion(setting, region, since));
  }

  // ---------- who moved a counter ----------

  /** Counter rows stay, and their versions only move forward. */
  ghost predicate VersionsGrow(before: Store, after: Store) {
    forall k :: k in before.counters ==> k in after.counters && before.counters[k].version <= after.counters[k].version
  }

  lemma StepVersionsGrow(s: State, a: Action)
    ensures VersionsGrow(s.store, Apply(s, a).store)
    ensures Apply(s, a).store.counters.Keys == s.store.counters.Keys
  {
    if Enabled(s, a) && a.Own? && TakesEffect(a.stmt) {
      var txn := s.writes[a.w].progress.txn;
      assert Apply(s, a).store == Commit(s.store, s.writes[a.w].job, txn);
      assert Commit(s.store, s.writes[a.w].job, txn).counters.Keys == s.store.counters.Keys;
    }
  }

  lemma {:induction false} RunVersionsGrow(s: State, steps: seq<Action>)
    ensures VersionsGrow(s.store, Run(s, steps).store)
    ensures Run(s, steps).store.counters.Keys == s.store.counters.Keys
  {
    if steps != [] {
      RunVersionsGrow(s, steps[..|steps| - 1]);
      StepVersionsGrow(Run(s, steps[..|steps| - 1]), steps[|steps| - 1]);
    }
  }

  /** Did this target's counter change in between? */
  ghost predicate CounterMoved(before: Store, after: Store, target: string) {
    target in before.counters && target in after.counters
    && before.counters[target].version < after.counters[target].version
  }

  ghost predicate VersionIsCount(store: Store) {
    forall k :: k in store.counters ==> store.counters[k].version == store.counters[k].cnt
  }

  lemma CommitKeepsVersionIsCount(store: Store, job: Job, txn: Txn)
    requires VersionIsCount(store) && TxnOk(store, job, txn) && txn.phase == Counted && StillCurrent(store, job, txn)
    ensures VersionIsCount(Commit(store, job, txn))
  {
  }

  lemma StepKeepsVersionIsCount(s: State, a: Action)
    requires WritesOk(s) && VersionIsCount(s.store)
    ensures VersionIsCount(Apply(s, a).store)
  {
    if Enabled(s, a) && a.Own? && TakesEffect(a.stmt) {
      assert WriteOk(s, a.w);
      CommitKeepsVersionIsCount(s.store, s.writes[a.w].job, s.writes[a.w].progress.txn);
      assert Apply(s, a).store == Commit(s.store, s.writes[a.w].job, s.writes[a.w].progress.txn);
    }
  }

  lemma {:induction false} VersionsCount(pool: seq<Tenant>, trace: seq<Action>)
    ensures VersionIsCount(Run(Init(pool), trace).store)
  {
    if trace != [] {
      var n := |trace| - 1;
      VersionsCount(pool, trace[..n]);
      InvAlways(pool, trace[..n]);
      StepKeepsVersionIsCount(Run(Init(pool), trace[..n]), trace[n]);
    }
  }

  lemma CountGrew<T>(a: seq<T>, b: seq<T>, p: T -> bool) returns (i: nat)
    requires a <= b && Count(a, p) < Count(b, p)
    ensures |a| <= i < |b| && p(b[i])
  {
    assert b == a + b[|a|..];
    CountConcat(a, b[|a|..], p);
    CountPositive(b[|a|..], p);
    var x :| x in b[|a|..] && p(x);
    var j :| 0 <= j < |b[|a|..]| && b[|a|..][j] == x;
    i := |a| + j;
  }

  lemma TallyGrew(before: Store, after: Store, target: string) returns (table: Table, i: nat)
    requires before.events <= after.events && before.regional <= after.regional
    requires Tally(before, target) < Tally(after, target)
    ensures |Rows(before, table)| <= i < |Rows(after, table)|
    ensures if table == Events then target == GLOBAL else CountedUnder(target)(Rows(after, table)[i])
  {
    if target == GLOBAL && |before.events| < |after.events| {
      table, i := Events, |before.events|;
    } else {
      table := Regional;
      i := CountGrew(before.regional, after.regional, CountedUnder(target));
    }
  }

  lemma RowTarget(s: State, table: Table, i: nat)
    requires WritesOk(s) && RowsTraceable(s) && i < |Rows(s.store, table)|
    ensures var r := Rows(s.store, table)[i]; r.job.target == if table == Events then GLOBAL else RegionTarget(r.region)
  {
    var r := Rows(s.store, table)[i];
    assert r in Rows(s.store, table);
    assert WriteOk(s, r.job.id);
  }

  /** A counter that moved has a new row behind it. */
  lemma NewRowBehindMove(before: State, after: State, target: string) returns (table: Table, i: nat)
    requires CountersAgree(before.store) && CountersAgree(after.store) && WritesOk(after) && RowsTraceable(after)
    requires VersionIsCount(before.store) && VersionIsCount(after.store)
    requires before.store.events <= after.store.events && before.store.regional <= after.store.regional
    requires CounterMoved(before.store, after.store, target)
    ensures |Rows(before.store, table)| <= i < |Rows(after.store, table)| && Rows(after.store, table)[i].job.target == target
  {
    assert Tally(before.store, target) == before.store.counters[target].cnt;
    assert Tally(after.store, target) == after.store.counters[target].cnt;
    table, i := TallyGrew(before.store, after.store, target);
    RowTarget(after, table, i);
  }

  ghost predicate NewlyCommitted(before: State, after: State, v: nat) {
    && v < |after.writes| && Committed(after.writes[v])
    && !(v < |before.writes| && Committed(before.writes[v]))
  }

  /** Between the two states a write other than w committed to this target. */
  ghost predicate RivalCommitted(before: State, after: State, w: nat, target: string) {
    exists v: nat :: v != w && NewlyCommitted(before, after, v) && after.writes[v].job.target == target
  }

  lemma PrefixGrows(pool: seq<Tenant>, h1: seq<Action>, h2: seq<Action>)
    requires h1 <= h2
    ensures Run(Init(pool), h1).store.events <= Run(Init(pool), h2).store.events
    ensures Run(Init(pool), h1).store.regional <= Run(Init(pool), h2).store.regional
    ensures VersionsGrow(Run(Init(pool), h1).store, Run(Init(pool), h2).store)
  {
    assert h2 == h1 + h2[|h1|..];
    RunConcat(Init(pool), h1, h2[|h1|..]);
    HistoryGrows(Run(Init(pool), h1), h2[|h1|..]);
    RunVersionsGrow(Run(Init(pool), h1), h2[|h1|..]);
  }

  lemma RowsPrefixGrows(pool: seq<Tenant>, h1: seq<Action>, h2: seq<Action>, table: Table)
    requires h1 <= h2
    ensures Rows(Run(Init(pool), h1).store, table) <= Rows(Run(Init(pool), h2).store, table)
  {
    PrefixGrows(pool, h1, h2);
  }

  lemma RowMeansCommitted(s: State, table: Table, i: nat)
    requires Inv(s) && i < |Rows(s.store, table)|
    ensures var v := Rows(s.store, table)[i].job.id;
      v < |s.writes| && s.writes[v].job == Rows(s.store, table)[i].job && s.writes[v].job.table == table && Committed(s.writes[v])
  {
    var r := Rows(s.store, table)[i];
    assert r in Rows(s.store, table);
    CountPositive(Rows(s.store, table), FromWrite(r.job.id));
    assert FromWrite(r.job.id)(r);
    assert OneRowIffCommitted(s.store, r.job.id, s.writes[r.job.id]);
  }

  /** What has committed stays committed, under the same job. */
  lemma CommittedStays(pool: seq<Tenant>, h1: seq<Action>, h2: seq<Action>, v: nat)
    requires h1 <= h2 && v < |Run(Init(pool), h1).writes| && Committed(Run(Init(pool), h1).writes[v])
    ensures var s := Run(Init(pool), h2);
      v < |s.writes| && Committed(s.writes[v]) && s.writes[v].job == Run(Init(pool), h1).writes[v].job
  {
    var s1, s2 := Run(Init(pool), h1), Run(Init(pool), h2);
    InvAlways(pool, h1);
    InvAlways(pool, h2);
    var table := s1.writes[v].job.table;
    assert OneRowIffCommitted(s1.store, v, s1.writes[v]);
    CountPositive(Rows(s1.store, table), FromWrite(v));
    var i :| 0 <= i < |Rows(s1.store, table)| && FromWrite(v)(Rows(s1.store, table)[i]);
    RowsPrefixGrows(pool, h1, h2, table);
    assert Rows(s2.store, table)[i] == Rows(s1.store, table)[i];
    RowMeansCommitted(s1, table, i);
    RowMeansCommitted(s2, table, i);
  }

  lemma OneMoreRow(had: seq<Row>, rows: seq<Row>, i: nat)
    requires had <= rows && |had| <= i < |rows|
    ensures Count(rows, FromWrite(rows[i].job.id)) > Count(had, FromWrite(rows[i].job.id))
  {
    var got := rows[|had|..];
    var p := FromWrite(rows[i].job.id);
    assert rows == had + got;
    CountConcat(had, got, p);
    assert got[i - |had|] == rows[i] && p(rows[i]);
    CountPositive(got, p);
  }

  lemma NewRowNewlyCommitted(pool: seq<Tenant>, h1: seq<Action>, h2: seq<Action>, table: Table, i: nat)
    requires h1 <= h2
    requires |Rows(Run(Init(pool), h1).store, table)| <= i < |Rows(Run(Init(pool), h2).store, table)|
    ensures NewlyCommitted(Run(Init(pool), h1), Run(Init(pool), h2), Rows(Run(Init(pool), h2).store, table)[i].job.id)
  {
    var s1, s2 := Run(Init(pool), h1), Run(Init(pool), h2);
    InvAlways(pool, h1);
    InvAlways(pool, h2);
    RowMeansCommitted(s2, table, i);
    var v := Rows(s2.store, table)[i].job.id;
    assert OneRowIffCommitted(s2.store, v, s2.writes[v]);
    RowsPrefixGrows(pool, h1, h2, table);
    OneMoreRow(Rows(s1.store, table), Rows(s2.store, table), i);
    if v < |s1.writes| && Committed(s1.writes[v]) {
      assert OneRowIffCommitted(s1.store, v, s1.writes[v]);
      CommittedStays(pool, h1, h2, v);
    }
  }

  /** Behind a counter that moved while w did not commit there is another write that did. */
  lemma RivalBehindMove(pool: seq<Tenant>, h1: seq<Action>, h2: seq<Action>, w: nat, target: string)
    requires h1 <= h2 && w < |Run(Init(pool), h2).writes| && !Committed(Run(Init(pool), h2).writes[w])
    requires CounterMoved(Run(Init(pool), h1).store, Run(Init(pool), h2).store, target)
    ensures RivalCommitted(Run(Init(pool), h1), Run(Init(pool), h2), w, target)
  {
    var s1, s2 := Run(Init(pool), h1), Run(Init(pool), h2);
    InvAlways(pool, h1);
    InvAlways(pool, h2);
    VersionsCount(pool, h1);
    VersionsCount(pool, h2);
    PrefixGrows(pool, h1, h2);
    var table, i := NewRowBehindMove(s1, s2, target);
    NewRowNewlyCommitted(pool, h1, h2, table, i);
    RowMeansCommitted(s2, table, i);
  }

  lemma RivalStays(pool: seq<Tenant>, h1: seq<Action>, h2: seq<Action>, h3: seq<Action>, w: nat, target: string)
    requires h2 <= h3 && RivalCommitted(Run(Init(pool), h1), Run(Init(pool), h2), w, target)
    ensures RivalCommitted(Run(Init(pool), h1), Run(Init(pool), h3), w, target)
  {
    var s1, s2 := Run(Init(pool), h1), Run(Init(pool), h2);
    var v: nat :| v != w && NewlyCommitted(s1, s2, v) && s2.writes[v].job.target == target;
    CommittedStays(pool, h2, h3, v);
    assert NewlyCommitted(s1, Run(Init(pool), h3), v);
  }

  // ---------- the counters stand for COUNT(*) ----------

  /** "global" counts the events table exactly when no regional row comes from a region that
      is itself called "global". */
  lemma GlobalCounterExact(pool: seq<Tenant>, trace: seq<Action>)
    ensures var store := Run(Init(pool), trace).store;
      && GLOBAL in store.counters
      && (store.counters[GLOBAL].cnt == |store.events| <==> forall r :: r in store.regional ==> r.region != GLOBAL)
  {
    InvAlways(pool, trace);
    var store := Run(Init(pool), trace).store;
    CountPositive(store.regional, CountedUnder(GLOBAL));
  }

  function Other(region: string): Row -> bool {
    (r: Row) => RegionTarget(r.region) == RegionTarget(region) && r.region != region
  }

  lemma TallyOfPartition(store: Store, region: string)
    requires Mapped(region)
    ensures Tally(store, RegionTarget(region)) == Count(store.regional, InRegion(region))
        <==> forall r :: r in store.regional ==> r.region != RegionTarget(region)
  {
    var k := RegionTarget(region);
    CountSplit(store.regional, CountedUnder(k), InRegion(region), Other(region));
    CountPositive(store.regional, Other(region));
  }

  /** A partition's counter is its row count exactly when no row carries the target's own
      short name as its region. */
  lemma PartitionCounterExact(pool: seq<Tenant>, trace: seq<Action>, region: string)
    requires Mapped(region)
    ensures var store := Run(Init(pool), trace).store;
      && RegionTarget(region) in store.counters
      && (store.counters[RegionTarget(region)].cnt == Count(store.regional, InRegion(region))
          <==> forall r :: r in store.regional ==> r.region != RegionTarget(region))
  {
    InvAlways(pool, trace);
    TallyOfPartition(Run(Init(pool), trace).store, region);
    assert TARGETS[1] == "east" && TARGETS[2] == "west" && TARGETS[3] == "eu";
  }

  // ---------- when the counters stay exact ----------

  /** One round of one item whose regional write goes through undisturbed. */
  function LoneRegionalWrite(pick: nat): seq<Action> {
    [StartRound(1), SpawnGlobal(0, pick), SpawnRegional(0), Own(1, Begin), Own(1, EnterAttempt),
     Own(1, SetContext), Own(1, InsertRow(0)), Own(1, IncrementCounter), Own(1, Release)]
  }

  lemma LoneSpawn(pool: seq<Tenant>, pick: nat)
    requires pick < |pool|
    ensures var s := Run(Init(pool), LoneRegionalWrite(pick)[..4]);
      && s.store == EmptyStore() && |s.writes| == 2
      && s.writes[1] == Write(RegionalJob(1, 0, pool[pick]), 0, Running(IDLE))
  {
    var t := LoneRegionalWrite(pick);
    RunAppend(Init(pool), t[..0], t[0]);
    RunAppend(Init(pool), t[..1], t[1]);
    RunAppend(Init(pool), t[..2], t[2]);
    RunAppend(Init(pool), t[..3], t[3]);
    assert t[..0] + [t[0]] == t[..1] && t[..1] + [t[1]] == t[..2] && t[..2] + [t[2]] == t[..3] && t[..3] + [t[3]] == t[..4];
  }

  lemma LoneContext(pool: seq<Tenant>, pick: nat)
    requires pick < |pool|
    ensures var s := Run(Init(pool), LoneRegionalWrite(pick)[..6]);
      && s.store == EmptyStore() && |s.writes| == 2
      && s.writes[1] == Write(RegionalJob(1, 0, pool[pick]), 1, Running(Txn(ContextSet, Some(pool[pick].id), None, None)))
  {
    var t := LoneRegionalWrite(pick);
    LoneSpawn(pool, pick);
    RunAppend(Init(pool), t[..4], t[4]);
    RunAppend(Init(pool), t[..5], t[5]);
    assert t[..4] + [t[4]] == t[..5] && t[..5] + [t[5]] == t[..6];
  }

  lemma LoneAttempt(pool: seq<Tenant>, pick: nat)
    requires pick < |pool|
    ensures var s := Run(Init(pool), LoneRegionalWrite(pick)[..8]);
      var job := RegionalJob(1, 0, pool[pick]);
      && s.store == EmptyStore() && |s.writes| == 2
      && s.writes[1] == Write(job, 1, Running(
           Txn(Counted, Some(pool[pick].id), Some(NewRow(job, 0)), ReadCounter(EmptyStore(), job.target))))
  {
    var t := LoneRegionalWrite(pick);
    LoneContext(pool, pick);
    RunAppend(Init(pool), t[..6], t[6]);
    RunAppend(Init(pool), t[..7], t[7]);
    assert t[..6] + [t[6]] == t[..7] && t[..7] + [t[7]] == t[..8];
  }

  lemma LoneWriteCommits(pool: seq<Tenant>, pick: nat)
    requires pick < |pool|
    ensures var store := Run(Init(pool), LoneRegionalWrite(pick)).store;
      var job := RegionalJob(1, 0, pool[pick]);
      && store.events == [] && store.regional == [NewRow(job, 0)]
      && forall k :: k in store.counters ==> store.counters[k].cnt == if k == job.target then 1 else 0
  {
    var t := LoneRegionalWrite(pick);
    LoneAttempt(pool, pick);
    RunAppend(Init(pool), t[..8], t[8]);
    assert t[..8] + [t[8]] == t;
  }

  ghost predicate NobodyHomed(pool: seq<Tenant>, region: string) {
    forall t :: t in pool ==> t.homeRegion != region
  }

  lemma RegionRowsNeedATenant(pool: seq<Tenant>, trace: seq<Action>, region: string)
    requires NobodyHomed(pool, region)
    ensures forall r :: r in Run(Init(pool), trace).store.regional ==> r.region != region
  {
    var store := Run(Init(pool), trace).store;
    forall r | r in store.regional ensures r.region != region {
      assert r in Rows(store, Regional);
      FreshRowsBelong(pool, trace, Regional, r);
    }
  }

  function Drift(store: Store, target: string): int
    requires target in store.counters
  {
    store.counters[target].cnt - Tally(store, target)
  }

  /** Whatever the tables held at the start, no run changes by how much a counter is off from the
      rows whose writes are counted under it. */
  lemma DriftNeverChanges(pool: seq<Tenant>, st: Store, trace: seq<Action>, target: string)
    requires Migrated(st) && target in st.counters
    ensures target in Run(Start(pool, st), trace).store.counters
    ensures Drift(Run(Start(pool, st), trace).store, target) == Drift(st, target)
  {
    RunOnTop(pool, st, trace);
    InvAlways(pool, trace);
    CountConcat(st.regional, Run(Init(pool), trace).store.regional, CountedUnder(target));
  }

  ghost predicate GlobalExact(store: Store) {
    GLOBAL in store.counters && store.counters[GLOBAL].cnt == |store.events|
  }

  ghost predicate GlobalExactAfter(pool: seq<Tenant>, st: Store, trace: seq<Action>) {
    GlobalExact(Run(Start(pool, st), trace).store)
  }

  lemma GlobalOnTop(pool: seq<Tenant>, st: Store, trace: seq<Action>)
    requires Migrated(st)
    ensures var after, added := Run(Start(pool, st), trace).store, Run(Init(pool), trace).store;
      && GLOBAL in after.counters && GLOBAL in st.counters && GLOBAL in added.counters
      && after.counters[GLOBAL].cnt - |after.events| == (st.counters[GLOBAL].cnt - |st.events|) + (added.counters[GLOBAL].cnt - |added.events|)
  {
    RunOnTop(pool, st, trace);
    GlobalCounterExact(pool, trace);
    assert TARGETS[0] == GLOBAL;
  }

  lemma GlobalKeptExact(pool: seq<Tenant>, st: Store, trace: seq<Action>)
    requires Migrated(st) && NobodyHomed(pool, GLOBAL)
    ensures GlobalExactAfter(pool, st, trace) <==> GlobalExact(st)
  {
    RegionRowsNeedATenant(pool, trace, GLOBAL);
    GlobalCounterExact(pool, trace);
    GlobalOnTop(pool, st, trace);
  }

  /** From any tables, "global" counts the events table throughout every run exactly when it did at
      the start and no tenant is homed in a region that is itself called "global". */
  lemma GlobalAlwaysExact(pool: seq<Tenant>, st: Store)
    requires Migrated(st)
    ensures (forall trace :: GlobalExactAfter(pool, st, trace)) <==> GlobalExact(st) && NobodyHomed(pool, GLOBAL)
  {
    assert Run(Start(pool, st), []).store == st;
    assert GlobalExactAfter(pool, st, []) <==> GlobalExact(st);
    if NobodyHomed(pool, GLOBAL) {
      forall trace ensures GlobalExactAfter(pool, st, trace) <==> GlobalExact(st) {
        GlobalKeptExact(pool, st, trace);
      }
    } else {
      var i :| 0 <= i < |pool| && pool[i].homeRegion == GLOBAL;
      LoneWriteCommits(pool, i);
      GlobalOnTop(pool, st, LoneRegionalWrite(i));
      assert GlobalExact(st) ==> !GlobalExactAfter(pool, st, LoneRegionalWrite(i));
    }
  }

  ghost predicate PartitionExact(store: Store, region: string) {
    RegionTarget(region) in store.counters && store.counters[RegionTarget(region)].cnt == Count(store.regional, InRegion(region))
  }

  ghost predicate PartitionExactAfter(pool: seq<Tenant>, st: Store, trace: seq<Action>, region: string) {
    PartitionExact(Run(Start(pool, st), trace).store, region)
  }

  lemma PartitionOnTop(pool: seq<Tenant>, st: Store, trace: seq<Action>, region: string)
    requires Migrated(st) && Mapped(region)
    ensures var after, added, k := Run(Start(pool, st), trace).store, Run(Init(pool), trace).store, RegionTarget(region);
      && k in after.counters && k in st.counters && k in added.counters
      && after.counters[k].cnt - Count(after.regional, InRegion(region))
         == (st.counters[k].cnt - Count(st.regional, InRegion(region))) + (added.counters[k].cnt - Count(added.regional, InRegion(region)))
  {
    RunOnTop(pool, st, trace);
    PartitionCounterExact(pool, trace, region);
    CountConcat(st.regional, Run(Init(pool), trace).store.regional, InRegion(region));
    assert TARGETS[1] == "east" && TARGETS[2] == "west" && TARGETS[3] == "eu";
  }

  lemma PartitionKeptExact(pool: seq<Tenant>, st: Store, trace: seq<Action>, region: string)
    requires Migrated(st) && Mapped(region) && NobodyHomed(pool, RegionTarget(region))
    ensures PartitionExactAfter(pool, st, trace, region) <==> PartitionExact(st, region)
  {
    RegionRowsNeedATenant(pool, trace, RegionTarget(region));
    PartitionCounterExact(pool, trace, region);
    PartitionOnTop(pool, st, trace, region);
  }

  /** From any tables, a mapped region's counter is its partition's row count throughout every run
      exactly when it was at the start and no tenant is homed in a region called like the short
      target. */
  lemma PartitionAlwaysExact(pool: seq<Tenant>, st: Store, region: string)
    requires Migrated(st) && Mapped(region)
    ensures (forall trace :: PartitionExactAfter(pool, st, trace, region))
        <==> PartitionExact(st, region) && NobodyHomed(pool, RegionTarget(region))
  {
    assert Run(Start(pool, st), []).store == st;
    assert PartitionExactAfter(pool, st, [], region) <==> PartitionExact(st, region);
    if NobodyHomed(pool, RegionTarget(region)) {
      forall trace ensures PartitionExactAfter(pool, st, trace, region) <==> PartitionExact(st, region) {
        PartitionKeptExact(pool, st, trace, region);
      }
    } else {
      var i :| 0 <= i < |pool| && pool[i].homeRegion == RegionTarget(region);
      LoneWriteCommits(pool, i);
      CountPositive(Run(Init(pool), LoneRegionalWrite(i)).store.regional, InRegion(region));
      PartitionOnTop(pool, st, LoneRegionalWrite(i), region);
      assert PartitionExact(st, region) ==> !PartitionExactAfter(pool, st, LoneRegionalWrite(i), region);
    }
  }

  lemma MappedIsNotATarget(pool: seq<Tenant>)
    requires AllMapped(pool)
    ensures NobodyHomed(pool, GLOBAL) && NobodyHomed(pool, "east") && NobodyHomed(pool, "west") && NobodyHomed(pool, "eu")
  {
    assert !Mapped(GLOBAL) && !Mapped("east") && !Mapped("west") && !Mapped("eu");
  }

  /** The four counters hold the row counts of events and of the three partitions. */
  ghost predicate CountersExact(store: Store) {
    && "global" in store.counters && store.counters["global"].cnt == |store.events|
    && "east" in store.counters && store.counters["east"].cnt == Count(store.regional, InRegion("us-east"))
    && "west" in store.counters && store.counters["west"].cnt == Count(store.regional, InRegion("us-west"))
    && "eu" in store.counters && store.counters["eu"].cnt == Count(store.regional, InRegion("eu-central"))
  }

  lemma FreshTablesExact()
    ensures CountersExact(EmptyStore())
  {
    assert TARGETS[1] == "east" && TARGETS[2] == "west" && TARGETS[3] == "eu";
  }

  lemma KeysKept(pool: seq<Tenant>, st: Store, trace: seq<Action>)
    requires Migrated(st)
    ensures Migrated(Run(Start(pool, st), trace).store)
  {
    RunOnTop(pool, st, trace);
    InvAlways(pool, trace);
  }

  /** For tenants of the three mapped regions every reachable state has all four counters exact if
      and only if the process found them exact, whatever the interleaving, retries, failures and
      unseen commits; freshly migrated tables are. */
  lemma CountersStandForCounts(pool: seq<Tenant>, st: Store, trace: seq<Action>)
    requires AllMapped(pool) && Migrated(st)
    ensures Migrated(Run(Start(pool, st), trace).store)
    ensures CountersExact(Run(Start(pool, st), trace).store) <==> CountersExact(st)
    ensures CountersExact(EmptyStore())
  {
    KeysKept(pool, st, trace);
    MappedIsNotATarget(pool);
    GlobalKeptExact(pool, st, trace);
    PartitionKeptExact(pool, st, trace, "us-east");
    PartitionKeptExact(pool, st, trace, "us-west");
    PartitionKeptExact(pool, st, trace, "eu-central");
    FreshTablesExact();
  }

  lemma {:induction false} ThreeRegionsAddUp(rows: seq<Row>)
    requires forall r :: r in rows ==> Mapped(r.region)
    ensures Count(rows, InRegion("us-east")) + Count(rows, InRegion("us-west"))
          + Count(rows, InRegion("eu-central")) == |rows|
  {
    if rows != [] {
      assert rows[|rows| - 1] in rows;
      ThreeRegionsAddUp(rows[..|rows| - 1]);
    }
  }

  /** On tables whose rows were all written for mapped tenants, exact counters also add up to the
      size of events_regional. */
  lemma PartitionsCoverTable(pool: seq<Tenant>, st: Store, trace: seq<Action>)
    requires AllMapped(pool) && LeftByPool(pool, st) && CountersExact(st)
    ensures var store := Run(Start(pool, st), trace).store;
      && CountersExact(store)
      && store.counters["east"].cnt + store.counters["west"].cnt + store.counters["eu"].cnt == |store.regional|
  {
    CountersStandForCounts(pool, st, trace);
    var store := Run(Start(pool, st), trace).store;
    forall r | r in store.regional ensures Mapped(r.region) {
      assert r in Rows(store, Regional);
      RowsBelongToTheirTenant(pool, st, trace, Regional, r);
    }
    ThreeRegionsAddUp(store.regional);
  }

  // ---------- metrics ----------

  lemma {:induction false} WritesPartition(writes: seq<Write>, l: Label)
    ensures Count(writes, Under(l))
         == Count(writes, RecordedUnder(l, true)) + Count(writes, RecordedUnder(l, false)) + Count(writes, InFlightUnder(l))
  {
    if writes != [] { WritesPartition(writes[..|writes| - 1], l); }
  }

  /** Nothing issued is lost: per target and tier, writes issued are the successes, the errors
      and those in flight; committed rows lie between the successes and the issued writes. */
  lemma WritesConserved(pool: seq<Tenant>, trace: seq<Action>, l: Label)
    ensures var s := Run(Init(pool), trace);
      var issued := Value(s.metrics.total, l) + Value(s.metrics.errors, l) + Count(s.writes, InFlightUnder(l));
      && Count(s.writes, Under(l)) == issued
      && Value(s.metrics.total, l) <= CommittedRows(s.store, l) <= issued
  {
    InvAlways(pool, trace);
    var s := Run(Init(pool), trace);
    WritesPartition(s.writes, l);
    forall w | w in s.writes && RecordedUnder(l, true)(w) ensures CommittedUnder(l)(w) {
      var i :| 0 <= i < |s.writes| && s.writes[i] == w;
      assert WriteOk(s, i);
    }
    CountImplies(s.writes, RecordedUnder(l, true), CommittedUnder(l));
    CountImplies(s.writes, CommittedUnder(l), Under(l));
  }

  /** Retries recorded are the attempts beyond the first of each execution that got that far. */
  lemma RetriesAreExtraAttempts(pool: seq<Tenant>, trace: seq<Action>, l: Label)
    ensures var s := Run(Init(pool), trace);
      Value(s.metrics.retries, l) == Sum(s.writes, AttemptsUnder(l)) - Count(s.writes, StartedUnder(l))
  {
    InvAlways(pool, trace);
  }

  ghost predicate AllRoundsFinished(s: State) {
    && (forall r :: r in s.rounds ==> r.remaining == 0)
    && (forall w :: w in s.writes ==> w.progress.Recorded?)
  }

  function Outcomes(m: Metrics, target: string, qos: string): nat {
    Value(m.total, Label(target, qos)) + Value(m.errors, Label(target, qos))
  }

  lemma {:induction false} RegionalTargets(writes: seq<Write>, qos: string)
    requires forall w :: w in writes ==> Mapped(w.job.tenant.homeRegion)
    requires forall w :: w in writes ==> w.job.target == if w.job.table == Events then GLOBAL else RegionTarget(w.job.tenant.homeRegion)
    ensures Count(writes, OfTier(Events, qos)) == Count(writes, Under(Label(GLOBAL, qos)))
    ensures Count(writes, OfTier(Regional, qos))
         == Count(writes, Under(Label("east", qos))) + Count(writes, Under(Label("west", qos))) + Count(writes, Under(Label("eu", qos)))
  {
    if writes != [] {
      assert writes[|writes| - 1] in writes;
      RegionalTargets(writes[..|writes| - 1], qos);
    }
  }

  lemma AllRecorded(pool: seq<Tenant>, trace: seq<Action>, l: Label)
    requires AllRoundsFinished(Run(Init(pool), trace))
    ensures var s := Run(Init(pool), trace);
      Count(s.writes, Under(l)) == Value(s.metrics.total, l) + Value(s.metrics.errors, l)
  {
    WritesConserved(pool, trace, l);
    CountPositive(Run(Init(pool), trace).writes, InFlightUnder(l));
  }

  lemma NothingHalfSpawned(pool: seq<Tenant>, trace: seq<Action>, qos: string)
    requires AllRoundsFinished(Run(Init(pool), trace))
    ensures var s := Run(Init(pool), trace);
      && Count(s.writes, OfTier(Events, qos)) == Count(s.writes, OfTier(Regional, qos))
      && forall r :: 0 <= r < |s.rounds| ==> s.rounds[r].remaining == 0 && s.rounds[r].pending.None?
  {
    InvAlways(pool, trace);
    var s := Run(Init(pool), trace);
    assert Paired(s, qos);
    forall r | 0 <= r < |s.rounds| ensures s.rounds[r].remaining == 0 && s.rounds[r].pending.None? {
      assert s.rounds[r] in s.rounds;
    }
    CountPositive(s.rounds, HalfSpawned(qos));
  }

  /** Once every round has returned, each item shows up once under "global" and once under its
      region, so per tier the metrics balance. */
  lemma FinishedRoundsBalance(pool: seq<Tenant>, trace: seq<Action>, qos: string)
    requires AllMapped(pool)
    requires AllRoundsFinished(Run(Init(pool), trace))
    ensures var m := Run(Init(pool), trace).metrics;
      Outcomes(m, GLOBAL, qos) == Outcomes(m, "east", qos) + Outcomes(m, "west", qos) + Outcomes(m, "eu", qos)
  {
    InvAlways(pool, trace);
    var s := Run(Init(pool), trace);
    forall w | w in s.writes
      ensures Mapped(w.job.tenant.homeRegion)
      ensures w.job.target == if w.job.table == Events then GLOBAL else RegionTarget(w.job.tenant.homeRegion)
    {
      var i :| 0 <= i < |s.writes| && s.writes[i] == w;
      assert WriteOk(s, i);
    }
    RegionalTargets(s.writes, qos);
    NothingHalfSpawned(pool, trace, qos);
    AllRecorded(pool, trace, Label(GLOBAL, qos));
    AllRecorded(pool, trace, Label("east", qos));
    AllRecorded(pool, trace, Label("west", qos));
    AllRecorded(pool, trace, Label("eu", qos));
  }

  /** A round that has left its loop has issued its whole batch to each of the two tables, whatever
      other rounds are doing. */
  lemma FinishedRoundIssuedItsBatch(pool: seq<Tenant>, trace: seq<Action>, r: nat)
    requires r < |Run(Init(pool), trace).rounds| && Run(Init(pool), trace).rounds[r].remaining == 0
    ensures var s := Run(Init(pool), trace);
      Count(s.writes, OfRound(r, Events)) == Count(s.writes, OfRound(r, Regional)) == s.rounds[r].batch
  {
    InvAlways(pool, trace);
  }

  // ---------- exactly once: refinement of an atomic ledger ----------

  /** The specification: one indivisible insert-and-count per committed write. */
  datatype Ledger = Ledger(events: seq<Row>, regional: seq<Row>, counts: map<string, nat>)

  function AtomicInsert(l: Ledger, row: Row): Ledger {
    var k := row.job.target;
    Ledger(
      if row.job.table == Events then l.events + [row] else l.events,
      if row.job.table == Regional then l.regional + [row] else l.regional,
      if k in l.counts then l.counts[k := l.counts[k] + 1] else l.counts)
  }

  function AtomicRun(l: Ledger, log: seq<Row>): Ledger {
    if log == [] then l else AtomicInsert(AtomicRun(l, log[..|log| - 1]), log[|log| - 1])
  }

  function View(store: Store): Ledger {
    Ledger(store.events, store.regional, map k | k in store.counters :: store.counters[k].cnt)
  }

  /** The row a step makes durable, if any. */
  function Durable(s: State, a: Action): seq<Row> {
    if Enabled(s, a) && a.Own? && TakesEffect(a.stmt) && s.writes[a.w].progress.txn.row.Some?
    then [s.writes[a.w].progress.txn.row.value] else []
  }

  /** The rows made durable along a run, in commit order. */
  function CommitLog(s: State, trace: seq<Action>): seq<Row> {
    if trace == [] then []
    else CommitLog(s, trace[..|trace| - 1]) + Durable(Run(s, trace[..|trace| - 1]), trace[|trace| - 1])
  }

  lemma CommitIsAtomic(store: Store, job: Job, txn: Txn)
    requires TxnOk(store, job, txn) && txn.phase == Counted && StillCurrent(store, job, txn)
    ensures View(Commit(store, job, txn)) == AtomicInsert(View(store), txn.row.value)
  {
  }

  lemma StepIsAtomic(s: State, a: Action)
    requires WritesOk(s)
    ensures View(Apply(s, a).store)
         == if Durable(s, a) == [] then View(s.store) else AtomicInsert(View(s.store), Durable(s, a)[0])
  {
    if Enabled(s, a) && a.Own? && TakesEffect(a.stmt) {
      var w := s.writes[a.w];
      assert WriteOk(s, a.w);
      CommitIsAtomic(s.store, w.job, w.progress.txn);
      assert Apply(s, a).store == Commit(s.store, w.job, w.progress.txn);
    } else {
      assert Apply(s, a).store == s.store;
    }
  }

  lemma AtomicRunAppend(l: Ledger, log: seq<Row>, more: seq<Row>)
    requires |more| <= 1
    ensures AtomicRun(l, log + more) == if more == [] then AtomicRun(l, log) else AtomicInsert(AtomicRun(l, log), more[0])
  {
    assert more == [] ==> log + more == log;
    assert more != [] ==> (log + more)[..|log|] == log;
  }

  lemma {:induction false} LogReplays(pool: seq<Tenant>, trace: seq<Action>)
    ensures View(Run(Init(pool), trace).store) == AtomicRun(View(EmptyStore()), CommitLog(Init(pool), trace))
  {
    if trace != [] {
      var n := |trace| - 1;
      LogReplays(pool, trace[..n]);
      InvAlways(pool, trace[..n]);
      var before := Run(Init(pool), trace[..n]);
      StepIsAtomic(before, trace[n]);
      AtomicRunAppend(View(EmptyStore()), CommitLog(Init(pool), trace[..n]), Durable(before, trace[n]));
    }
  }

  lemma {:induction false} LedgerRowsAreLogRows(l: Ledger, log: seq<Row>, p: Row -> bool)
    ensures var after := AtomicRun(l, log);
      Count(after.events, p) + Count(after.regional, p) == Count(l.events, p) + Count(l.regional, p) + Count(log, p)
  {
    if log != [] {
      var n := |log| - 1;
      LedgerRowsAreLogRows(l, log[..n], p);
      var mid := AtomicRun(l, log[..n]);
      CountAppend(mid.events, log[n], p);
      CountAppend(mid.regional, log[n], p);
    }
  }

  /** Every run is a run of the atomic ledger in which a write that took effect appears exactly
      once, however many attempts it made, and a write that did not never appears; a write
      reported successful did take effect. */
  lemma ExactlyOnceRefinement(pool: seq<Tenant>, trace: seq<Action>, i: nat)
    requires i < |Run(Init(pool), trace).writes|
    ensures var s := Run(Init(pool), trace);
      var log := CommitLog(Init(pool), trace);
      && View(s.store) == AtomicRun(View(EmptyStore()), log)
      && Count(log, FromWrite(i)) == (if Committed(s.writes[i]) then 1 else 0)
      && (s.writes[i].progress.Recorded? && s.writes[i].progress.ok ==> Committed(s.writes[i]))
  {
    InvAlways(pool, trace);
    LogReplays(pool, trace);
    var s := Run(Init(pool), trace);
    var log := CommitLog(Init(pool), trace);
    LedgerRowsAreLogRows(View(EmptyStore()), log, FromWrite(i));
    assert WriteOk(s, i);
    var other := if s.writes[i].job.table == Events then Regional else Events;
    CountPositive(Rows(s.store, other), FromWrite(i));
    assert OneRowIffCommitted(s.store, i, s.writes[i]);
  }

  lemma RivalGoesStale(store: Store, job: Job, txn: Txn, rival: Job, stale: Txn)
    requires txn.phase == Counted && TxnOk(store, job, txn) && StillCurrent(store, job, txn)
    requires stale.phase == Counted && TxnOk(store, rival, stale)
    requires job.target == rival.target && job.target in store.counters
    ensures !StillCurrent(Commit(store, job, txn), rival, stale)
  {
  }

  lemma RivalRefused(s: State, i: nat, j: nat, stmt: Stmt, again: Stmt)
    requires WritesOk(s) && i < |s.writes| && j < |s.writes| && i != j
    requires s.writes[i].job.target == s.writes[j].job.target && s.writes[i].job.target in s.store.counters
    requires TakesEffect(stmt) && TakesEffect(again)
    requires Ready(s.store, s.writes[i], stmt) && InPhase(s.writes[j], Counted)
    ensures var after := Step(s, Own(i, stmt));
      !Ready(after.store, after.writes[j], again) && Ready(after.store, after.writes[j], Restart)
  {
    assert WriteOk(s, i) && WriteOk(s, j);
    RivalGoesStale(s.store, s.writes[i].job, s.writes[i].progress.txn, s.writes[j].job, s.writes[j].progress.txn);
  }

  /** Two transactions that counted the same target from the same version cannot both commit:
      once one takes effect the other's RELEASE is refused and it has to start over. */
  lemma RivalMustRestart(pool: seq<Tenant>, trace: seq<Action>, i: nat, j: nat, stmt: Stmt, again: Stmt)
    requires TakesEffect(stmt) && TakesEffect(again)
    requires var s := Run(Init(pool), trace);
      && i < |s.writes| && j < |s.writes| && i != j
      && s.writes[i].job.target == s.writes[j].job.target && s.writes[i].job.target in s.store.counters
      && Ready(s.store, s.writes[i], stmt) && InPhase(s.writes[j], Counted)
    ensures var after := Apply(Run(Init(pool), trace), Own(i, stmt));
      !Ready(after.store, after.writes[j], again) && Ready(after.store, after.writes[j], Restart)
  {
    InvAlways(pool, trace);
    RivalRefused(Run(Init(pool), trace), i, j, stmt, again);
  }
}
