/** The read rounds of the runner: one tenant of every active region reads its recent events from
    both tables, background tenants from a follower's snapshot. */
module Reads {
  import opened Sequences
  import opened Store
  import opened Tenants
  import opened WritePath
  import opened EarlierTables
  import opened WritePathTheorems

  /** A finished read: the count, or None when it failed. */
  datatype Read = Read(target: string, tenant: Tenant, result: Option<nat>)

  /** What one read meets: the store it would see at a leaseholder and at a follower when its
      transaction starts, and whether it fails. */
  datatype Moment = Moment(strong: Store, follower: Store, fails: bool)

  /** What the i-th region's reads meet: the tenant drawn, and a moment for each of the two
      transactions. */
  datatype Circumstance = Circumstance(pick: nat, first: Moment, second: Moment)

  function Seen(t: Tenant, m: Moment): Store {
    if t.qos == BACKGROUND then m.follower else m.strong
  }

  function Drawn(homed: seq<Tenant>, pick: nat): Tenant
    requires homed != []
  {
    homed[pick % |homed|]
  }

  /** Any tenant of the region may be drawn. */
  lemma AnyoneMayBeDrawn(homed: seq<Tenant>, t: Tenant)
    requires t in homed
    ensures exists pick: nat :: Drawn(homed, pick) == t
  {
    var i :| 0 <= i < |homed| && homed[i] == t;
    assert Drawn(homed, i) == t;
  }

  /** The two reads of one region, or none when it has no tenant. */
  function RegionReads(all: seq<Tenant>, region: string, c: Circumstance, since: int): seq<Read> {
    var homed := Filter(all, HasKey(HomeOf(), region));
    if homed == [] then []
    else
      var t := Drawn(homed, c.pick);
      [Read(GLOBAL, t, if c.first.fails then None else Some(CountRecentEvents(Seen(t, c.first), Some(t.id), since))),
       Read(RegionTarget(region), t,
            if c.second.fails then None else Some(CountRecentRegionalEvents(Seen(t, c.second), Some(t.id), t.homeRegion, since)))]
  }

  function RoundReads(all: seq<Tenant>, regions: seq<string>, cs: nat -> Circumstance, since: int): seq<Read> {
    if regions == [] then []
    else
      var n := |regions| - 1;
      RoundReads(all, regions[..n], cs, since) + RegionReads(all, regions[n], cs(n), since)
  }

  method ReadGlobal(t: Tenant, m: Moment, since: int) returns (read: Read)
    ensures read == Read(GLOBAL, t, if m.fails then None else Some(CountRecentEvents(Seen(t, m), Some(t.id), since)))
  {
    var setting := Some(t.id);
    var store := m.strong;
    if t.qos == BACKGROUND { store := m.follower; }
    if m.fails { return Read(GLOBAL, t, None); }
    read := Read(GLOBAL, t, Some(CountRecentEvents(store, setting, since)));
  }

  method ReadRegional(t: Tenant, target: string, m: Moment, since: int) returns (read: Read)
    ensures read == Read(target, t,
      if m.fails then None else Some(CountRecentRegionalEvents(Seen(t, m), Some(t.id), t.homeRegion, since)))
  {
    var setting := Some(t.id);
    var store := m.strong;
    if t.qos == BACKGROUND { store := m.follower; }
    if m.fails { return Read(target, t, None); }
    read := Read(target, t, Some(CountRecentRegionalEvents(store, setting, t.homeRegion, since)));
  }

  method RunReads(pool: TenantPool, regions: seq<string>, cs: nat -> Circumstance, since: int) returns (done: seq<Read>)
    requires pool.Indexed()
    ensures done == RoundReads(pool.all, regions, cs, since)
  {
    done := [];
    var i := 0;
    while i < |regions|
      invariant 0 <= i <= |regions|
      invariant done == RoundReads(pool.all, regions[..i], cs, since)
    {
      assert regions[..i + 1][..i] == regions[..i];
      EmptyFilter(pool.all, HasKey(HomeOf(), regions[i]));
      var regional := pool.ByRegion(regions[i]);
      assert regional == Filter(pool.all, HasKey(HomeOf(), regions[i]));
      if |regional| > 0 {
        var tenant := Drawn(regional, cs(i).pick);
        var first := ReadGlobal(tenant, cs(i).first, since);
        var second := ReadRegional(tenant, RegionTarget(regions[i]), cs(i).second, since);
        done := done + [first, second];
      }
      i := i + 1;
    }
    assert regions[..i] == regions;
  }

  /** A moment of a run: the follower's snapshot is an earlier state of it. */
  ghost predicate Spans(pool: seq<Tenant>, st: Store, m: Moment, earlier: seq<Action>, more: seq<Action>) {
    m.follower == Run(Start(pool, st), earlier).store && m.strong == Run(Start(pool, st), earlier + more).store
  }

  ghost predicate FromRun(pool: seq<Tenant>, st: Store, m: Moment) {
    exists earlier: seq<Action>, more: seq<Action> :: Spans(pool, st, m, earlier, more)
  }

  ghost predicate BothFromRun(pool: seq<Tenant>, st: Store, c: Circumstance) {
    FromRun(pool, st, c.first) && FromRun(pool, st, c.second)
  }

  function OwnRecent(id: Uuid, since: int): Row -> bool {
    (r: Row) => r.tenantId == id && r.createdAt >= since
  }

  /** What a read returns: a background tenant's own recent rows as the follower has them, anyone
      else's as the leaseholder has them, and nothing if it failed. */
  ghost predicate Exact(r: Read, m: Moment, table: Table, since: int) {
    r.result == if m.fails then None
                else Some(Count(Rows(if r.tenant.qos == "background" then m.follower else m.strong, table), OwnRecent(r.tenant.id, since)))
  }

  ghost predicate Honest(r: Read, own: nat) {
    r.result.Some? ==> r.result.value <= own && (r.tenant.qos != BACKGROUND ==> r.result.value == own)
  }

  lemma OwnIsRecent(store: Store, t: Tenant, since: int)
    ensures Count(store.events, Recent(Some(t.id), since)) == Count(store.events, OwnRecent(t.id, since))
    ensures Count(store.regional, Recent(Some(t.id), since)) == Count(store.regional, OwnRecent(t.id, since))
  {
    CountSame(store.events, Recent(Some(t.id), since), OwnRecent(t.id, since));
    CountSame(store.regional, Recent(Some(t.id), since), OwnRecent(t.id, since));
  }

  lemma CountsAreHonest(pool: seq<Tenant>, st: Store, t: Tenant, m: Moment, since: int)
    requires UniqueIds(pool) && LeftByPool(pool, st) && t in pool && FromRun(pool, st, m)
    ensures CountRecentEvents(m.follower, Some(t.id), since) <= CountRecentEvents(m.strong, Some(t.id), since)
    ensures CountRecentRegionalEvents(m.follower, Some(t.id), t.homeRegion, since)
         <= CountRecentRegionalEvents(m.strong, Some(t.id), t.homeRegion, since)
         == Count(m.strong.regional, Recent(Some(t.id), since))
    ensures forall store: Store :: store == m.follower || store == m.strong ==>
      && CountRecentEvents(store, Some(t.id), since) == Count(store.events, OwnRecent(t.id, since))
      && CountRecentRegionalEvents(store, Some(t.id), t.homeRegion, since) == Count(store.regional, OwnRecent(t.id, since))
  {
    var earlier: seq<Action>, more: seq<Action> :| Spans(pool, st, m, earlier, more);
    FollowerReadNeverAhead(pool, st, earlier, more, Some(t.id), t.homeRegion, since);
    RegionFilterIsRedundant(pool, st, earlier + more, t, since);
    RegionFilterIsRedundant(pool, st, earlier, t, since);
    OwnIsRecent(m.follower, t, since);
    OwnIsRecent(m.strong, t, since);
  }

  /** A region with a tenant gets two reads, one per table, by a tenant homed there. A read that
      succeeds counts that tenant's own recent rows at its own moment: exactly them at the
      leaseholder, and no more than them for a background tenant reading behind. */
  lemma RegionReadsAreHonest(pool: seq<Tenant>, st: Store, all: seq<Tenant>, region: string, c: Circumstance, since: int)
    requires UniqueIds(pool) && LeftByPool(pool, st) && BothFromRun(pool, st, c) && forall t :: t in all ==> t in pool
    requires exists t :: t in all && t.homeRegion == region
    ensures var rs := RegionReads(all, region, c, since);
      && |rs| == 2 && rs[0].tenant == rs[1].tenant
      && rs[0].target == GLOBAL && rs[1].target == RegionTarget(region)
      && rs[0].tenant in all && rs[0].tenant.homeRegion == region
      && Honest(rs[0], Count(c.first.strong.events, Recent(Some(rs[0].tenant.id), since)))
      && Honest(rs[1], Count(c.second.strong.regional, Recent(Some(rs[1].tenant.id), since)))
      && Exact(rs[0], c.first, Events, since) && Exact(rs[1], c.second, Regional, since)
  {
    var homed := Filter(all, HasKey(HomeOf(), region));
    NonemptyFilter(all, HasKey(HomeOf(), region));
    FilterMembers(all, HasKey(HomeOf(), region));
    var w :| w in all && w.homeRegion == region;
    assert HasKey(HomeOf(), region)(w);
    var t := Drawn(homed, c.pick);
    assert t in homed;
    CountsAreHonest(pool, st, t, c.first, since);
    CountsAreHonest(pool, st, t, c.second, since);
  }

  ghost predicate HonestRead(r: Read, region: string, c: Circumstance, since: int) {
    || (r.target == GLOBAL && Exact(r, c.first, Events, since)
        && Honest(r, Count(c.first.strong.events, Recent(Some(r.tenant.id), since))))
    || (r.target == RegionTarget(region) && Exact(r, c.second, Regional, since)
        && Honest(r, Count(c.second.strong.regional, Recent(Some(r.tenant.id), since))))
  }

  /** Every read is by a tenant of some region of the round, taken under that region's circumstance. */
  ghost predicate HonestRound(done: seq<Read>, all: seq<Tenant>, regions: seq<string>, cs: nat -> Circumstance, since: int) {
    forall r :: r in done ==>
      exists i :: 0 <= i < |regions| && r.tenant in all && r.tenant.homeRegion == regions[i] && HonestRead(r, regions[i], cs(i), since)
  }

  function HasTenant(all: seq<Tenant>): string -> bool {
    (region: string) => Filter(all, HasKey(HomeOf(), region)) != []
  }

  lemma RegionReadsOrNone(pool: seq<Tenant>, st: Store, all: seq<Tenant>, region: string, c: Circumstance, since: int)
    requires UniqueIds(pool) && LeftByPool(pool, st) && BothFromRun(pool, st, c) && forall t :: t in all ==> t in pool
    ensures var rs := RegionReads(all, region, c, since);
      && |rs| == (if HasTenant(all)(region) then 2 else 0)
      && forall r :: r in rs ==> r.tenant in all && r.tenant.homeRegion == region && HonestRead(r, region, c, since)
  {
    NonemptyFilter(all, HasKey(HomeOf(), region));
    if HasTenant(all)(region) {
      var t :| t in all && HasKey(HomeOf(), region)(t);
      RegionReadsAreHonest(pool, st, all, region, c, since);
      assert |RegionReads(all, region, c, since)| == 2;
    }
  }

  lemma HonestRoundAppend(done: seq<Read>, more: seq<Read>, all: seq<Tenant>, regions: seq<string>, region: string,
                          cs: nat -> Circumstance, since: int)
    requires HonestRound(done, all, regions, cs, since)
    requires forall r :: r in more ==> r.tenant in all && r.tenant.homeRegion == region && HonestRead(r, region, cs(|regions|), since)
    ensures HonestRound(done + more, all, regions + [region], cs, since)
  {
    var longer := regions + [region];
    forall r | r in done + more
      ensures exists i :: 0 <= i < |longer| && r.tenant in all && r.tenant.homeRegion == longer[i] && HonestRead(r, longer[i], cs(i), since)
    {
      if r in done {
        var i :| 0 <= i < |regions| && r.tenant in all && r.tenant.homeRegion == regions[i] && HonestRead(r, regions[i], cs(i), since);
        assert longer[i] == regions[i];
      } else {
        assert longer[|regions|] == region;
      }
    }
  }

  lemma {:induction false} RoundLength(all: seq<Tenant>, regions: seq<string>, cs: nat -> Circumstance, since: int)
    ensures |RoundReads(all, regions, cs, since)| == 2 * Count(regions, HasTenant(all))
  {
    if regions != [] { RoundLength(all, regions[..|regions| - 1], cs, since); }
  }

  /** Whose home and which target the reads of these regions have, in order. */
  function Schedule(regions: seq<string>): seq<(string, string)> {
    if regions == [] then []
    else
      var r := regions[|regions| - 1];
      Schedule(regions[..|regions| - 1]) + [(r, "global"), (r, RegionTarget(r))]
  }

  function Scheduled(done: seq<Read>): (s: seq<(string, string)>)
    ensures |s| == |done|
    ensures forall i :: 0 <= i < |done| ==> s[i] == (done[i].tenant.homeRegion, done[i].target)
  {
    seq(|done|, i requires 0 <= i < |done| => (done[i].tenant.homeRegion, done[i].target))
  }

  lemma RegionScheduled(all: seq<Tenant>, region: string, c: Circumstance, since: int)
    ensures Scheduled(RegionReads(all, region, c, since))
         == if HasTenant(all)(region) then [(region, "global"), (region, RegionTarget(region))] else []
  {
    if HasTenant(all)(region) {
      var homed := Filter(all, HasKey(HomeOf(), region));
      FilterMembers(all, HasKey(HomeOf(), region));
      assert Drawn(homed, c.pick) in homed;
    }
  }

  lemma ScheduleAppend(regions: seq<string>, r: string)
    ensures Schedule(regions + [r]) == Schedule(regions) + [(r, "global"), (r, RegionTarget(r))]
  {
    assert (regions + [r])[..|regions|] == regions;
  }

  lemma NextActive(all: seq<Tenant>, regions: seq<string>, r: string)
    ensures Schedule(Filter(regions + [r], HasTenant(all)))
         == Schedule(Filter(regions, HasTenant(all))) + if HasTenant(all)(r) then [(r, "global"), (r, RegionTarget(r))] else []
  {
    var active := Filter(regions, HasTenant(all));
    FilterAppend(regions, r, HasTenant(all));
    if HasTenant(all)(r) { ScheduleAppend(active, r); } else { assert active + [] == active; }
  }

  lemma ScheduledConcat(a: seq<Read>, b: seq<Read>)
    ensures Scheduled(a + b) == Scheduled(a) + Scheduled(b)
  {
  }

  lemma NextReads(all: seq<Tenant>, regions: seq<string>, r: string, cs: nat -> Circumstance, since: int)
    ensures Scheduled(RoundReads(all, regions + [r], cs, since))
         == Scheduled(RoundReads(all, regions, cs, since)) + Scheduled(RegionReads(all, r, cs(|regions|), since))
  {
    assert (regions + [r])[..|regions|] == regions;
    ScheduledConcat(RoundReads(all, regions, cs, since), RegionReads(all, r, cs(|regions|), since));
  }

  lemma StaysInOrder(all: seq<Tenant>, regions: seq<string>, r: string, cs: nat -> Circumstance, since: int)
    requires Scheduled(RoundReads(all, regions, cs, since)) == Schedule(Filter(regions, HasTenant(all)))
    ensures Scheduled(RoundReads(all, regions + [r], cs, since)) == Schedule(Filter(regions + [r], HasTenant(all)))
  {
    RegionScheduled(all, r, cs(|regions|), since);
    NextReads(all, regions, r, cs, since);
    NextActive(all, regions, r);
  }

  /** A round goes through the regions that have a tenant in order, reading events and then the
      regional table. */
  lemma {:induction false} RoundInOrder(all: seq<Tenant>, regions: seq<string>, cs: nat -> Circumstance, since: int)
    ensures Scheduled(RoundReads(all, regions, cs, since)) == Schedule(Filter(regions, HasTenant(all)))
  {
    if regions != [] {
      var front, r := regions[..|regions| - 1], regions[|regions| - 1];
      RoundInOrder(all, front, cs, since);
      StaysInOrder(all, front, r, cs, since);
      assert regions == front + [r];
    }
  }

  /** The circumstances of the first n regions' reads are moments of runs on these tables. */
  ghost predicate AllFromRuns(pool: seq<Tenant>, st: Store, cs: nat -> Circumstance, n: nat) {
    forall i: nat :: i < n ==> BothFromRun(pool, st, cs(i))
  }

  lemma {:induction false} AllReadsHonest(pool: seq<Tenant>, st: Store, all: seq<Tenant>, regions: seq<string>,
                                          cs: nat -> Circumstance, since: int)
    requires UniqueIds(pool) && LeftByPool(pool, st) && (forall t :: t in all ==> t in pool) && AllFromRuns(pool, st, cs, |regions|)
    ensures HonestRound(RoundReads(all, regions, cs, since), all, regions, cs, since)
  {
    if regions != [] {
      var n := |regions| - 1;
      var front, last := RoundReads(all, regions[..n], cs, since), RegionReads(all, regions[n], cs(n), since);
      AllReadsHonest(pool, st, all, regions[..n], cs, since);
      RegionReadsOrNone(pool, st, all, regions[n], cs(n), since);
      HonestRoundAppend(front, last, all, regions[..n], regions[n], cs, since);
      assert regions == regions[..n] + [regions[n]];
    }
  }

  /** Every read of a round is honest, whatever moment of the run each transaction falls on, and
      there are exactly two for each region that has a tenant. */
  lemma RoundIsHonest(pool: seq<Tenant>, st: Store, all: seq<Tenant>, regions: seq<string>, cs: nat -> Circumstance, since: int)
    requires UniqueIds(pool) && LeftByPool(pool, st) && (forall t :: t in all ==> t in pool) && AllFromRuns(pool, st, cs, |regions|)
    ensures HonestRound(RoundReads(all, regions, cs, since), all, regions, cs, since)
    ensures |RoundReads(all, regions, cs, since)| == 2 * Count(regions, HasTenant(all))
  {
    AllReadsHonest(pool, st, all, regions, cs, since);
    RoundLength(all, regions, cs, since);
  }
}
