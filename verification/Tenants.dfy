/** Seeding the tenants table and loading the in-memory pool from it. */
module Tenants {
  import opened Sequences
  import opened Text
  import opened Ordering
  import opened Store

  const CRITICAL := "critical"
  const REGULAR := "regular"
  const BACKGROUND := "background"
  const TIERS: seq<string> := [CRITICAL, REGULAR, BACKGROUND]

  // ---------- distribute ----------

  /** Conversion of a float to int truncates toward zero. */
  function Truncate(x: real): int {
    if x >= 0.0 then x.Floor else -((-x).Floor)
  }

  function OneFifthRounded(n: int): int {
    var r := Truncate(n as real * 0.20 + 0.5);
    if r > 1 then r else 1
  }

  /** One fifth to the nearest integer at each end and the rest in the middle; below three
      tenants the background tier stays empty and one tenant goes to each of the others. */
  function Split(n: int): (int, int, int) {
    if n >= 3 then ((n + 2) / 5, n - 2 * ((n + 2) / 5), (n + 2) / 5) else (1, 1, 0)
  }

  lemma RoundingIsIntegral(n: int)
    ensures OneFifthRounded(n) == if n >= 3 then (n + 2) / 5 else 1
  {
    var x := n as real * 0.20 + 0.5;
    if n >= 3 {
      var q, r := (n + 2) / 5, (n + 2) % 5;
      assert n == 5 * q + r - 2;
      assert x == q as real + (2 * r + 1) as real / 10.0;
    } else if n >= 0 {
      assert x < 2.0;
    }
  }

  /** The branch that takes one from the critical tier is never taken, for any n. */
  lemma CriticalNeverReduced(n: int)
    ensures OneFifthRounded(n) > 1 ==> n - OneFifthRounded(n) - OneFifthRounded(n) >= 1
  {
    RoundingIsIntegral(n);
  }

  method Distribute(n: int) returns (critical: int, regular: int, background: int)
    ensures (critical, regular, background) == Split(n)
  {
    RoundingIsIntegral(n);
    CriticalNeverReduced(n);
    critical := OneFifthRounded(n);
    background := OneFifthRounded(n);
    regular := n - critical - background;
    if regular < 1 {
      regular := 1;
      if critical > 1 {
        critical := critical - 1;
      } else {
        background := background - 1;
      }
    }
  }

  /** The split is 20/60/20 to within rounding, and it is a split of n exactly when n >= 2;
      the promised minimum of one per tier holds exactly when n >= 3. */
  lemma SplitIsTwentySixtyTwenty(n: int)
    ensures var (c, r, b) := Split(n);
      && (c + r + b == n <==> n >= 2)
      && (c >= 1 && r >= 1 && b >= 1 <==> n >= 3)
      && (n >= 3 ==> c == b && -2 <= 5 * c - n <= 2 && -4 <= 5 * r - 3 * n <= 4)
  {
  }

  // ---------- the tenants table ----------

  function InTier(tier: string): Tenant -> bool { (t: Tenant) => t.qos == tier }
  function HomedIn(region: string): Tenant -> bool { (t: Tenant) => t.homeRegion == region }

  function InCell(tier: string, region: string): Tenant -> bool {
    (t: Tenant) => t.qos == tier && t.homeRegion == region
  }

  /** ORDER BY home_region, qos_tier, id. */
  function TenantOrder(): (Tenant, Tenant) -> bool {
    (a: Tenant, b: Tenant) =>
      if a.homeRegion != b.homeRegion then StrLeq(a.homeRegion, b.homeRegion)
      else if a.qos != b.qos then StrLeq(a.qos, b.qos)
      else a.id <= b.id
  }

  lemma TenantsAreOrdered()
    ensures TotalOrder(TenantOrder())
  {
    var leq := TenantOrder();
    forall a: Tenant, b: Tenant
      ensures leq(a, b) || leq(b, a)
      ensures leq(a, b) && leq(b, a) ==> a == b
    {
      StrLeqTotal(a.homeRegion, b.homeRegion);
      StrLeqTotal(a.qos, b.qos);
    }
    forall a: Tenant, b: Tenant, c: Tenant | leq(a, b) && leq(b, c) ensures leq(a, c) {
      if a.homeRegion != b.homeRegion && b.homeRegion != c.homeRegion {
        StrLeqTransitive(a.homeRegion, b.homeRegion, c.homeRegion);
        StrLeqTotal(a.homeRegion, b.homeRegion);
      }
      if a.homeRegion == b.homeRegion == c.homeRegion && a.qos != b.qos && b.qos != c.qos {
        StrLeqTransitive(a.qos, b.qos, c.qos);
        StrLeqTotal(a.qos, b.qos);
      }
    }
  }

  /** LoadTenants: the rows in their one sorted order. */
  function LoadOrder(rows: seq<Tenant>): seq<Tenant> { Sort(TenantOrder(), rows) }

  /** The listing is by region, within a region by tier, and within both by id. */
  lemma ListingInOrder(rows: seq<Tenant>, i: nat, j: nat)
    requires i < j < |LoadOrder(rows)|
    ensures var a, b := LoadOrder(rows)[i], LoadOrder(rows)[j];
      && StrLeq(a.homeRegion, b.homeRegion)
      && (a.homeRegion == b.homeRegion ==> StrLeq(a.qos, b.qos))
      && (a.homeRegion == b.homeRegion && a.qos == b.qos ==> a.id <= b.id)
  {
    TenantsAreOrdered();
    SortIsSorted(TenantOrder(), rows);
    assert TenantOrder()(LoadOrder(rows)[i], LoadOrder(rows)[j]);
    StrLeqTotal(LoadOrder(rows)[i].homeRegion, LoadOrder(rows)[j].homeRegion);
    StrLeqTotal(LoadOrder(rows)[i].qos, LoadOrder(rows)[j].qos);
  }

  function HasId(id: Uuid): Tenant -> bool { (t: Tenant) => t.id == id }

  ghost predicate Unused(rows: seq<Tenant>, id: Uuid) {
    forall t :: t in rows ==> t.id != id
  }

  class TenantTable {
    var rows: seq<Tenant>

    constructor () ensures rows == [] { rows := []; }

    /** INSERT ... ON CONFLICT (id) DO NOTHING. */
    method InsertTenant(t: Tenant, fails: bool) returns (ok: bool)
      modifies this
      ensures ok == !fails
      ensures rows == if ok && Unused(old(rows), t.id) then old(rows) + [t] else old(rows)
    {
      CountPositive(rows, HasId(t.id));
      if fails { return false; }
      if Count(rows, HasId(t.id)) == 0 { rows := rows + [t]; }
      ok := true;
    }
  }

  // ---------- seed ----------

  function Tiers(n: int): (tiers: seq<string>)
    ensures |tiers| == Split(n).0 + Split(n).1 + Split(n).2
  {
    var (c, r, b) := Split(n);
    seq(c, _ => CRITICAL) + seq(r, _ => REGULAR) + seq(b, _ => BACKGROUND)
  }

  /** What a complete seeding leaves: the tier list dealt over the regions. */
  function Seeded(n: int, regions: seq<string>, ids: nat -> Uuid): (rows: seq<Tenant>)
    requires |regions| > 0
    ensures |rows| == |Tiers(n)|
    ensures forall i :: 0 <= i < |rows| ==> rows[i] == Tenant(ids(i), Tiers(n)[i], regions[i % |regions|])
  {
    seq(|Tiers(n)|, i requires 0 <= i < |Tiers(n)| => Tenant(ids(i), Tiers(n)[i], regions[i % |regions|]))
  }

  ghost predicate FreshIds(rows: seq<Tenant>, ids: nat -> Uuid) {
    && (forall i: nat, j: nat :: i < j ==> ids(i) != ids(j))
    && (forall i: nat :: Unused(rows, ids(i)))
  }

  method Repeat(tiers: seq<string>, count: int, tier: string) returns (r: seq<string>)
    requires count >= 0
    ensures r == tiers + seq(count, _ => tier)
  {
    r := tiers;
    var i := 0;
    while i < count
      invariant 0 <= i <= count
      invariant r == tiers + seq(i, _ => tier)
    {
      r := r + [tier];
      i := i + 1;
    }
  }

  datatype SeedOutcome = Complete | Failed | Panicked

  /** Allocating the tier list panics on a negative capacity, and dealing it over no regions
      divides by zero; both happen before the first insert. */
  predicate SeedPanics(n: int, regions: seq<string>) { n < 0 || regions == [] }

  /** Home regions are assigned cyclically. */
  function RegionAt(regions: seq<string>, i: nat): string
    requires |regions| > 0
  {
    regions[i % |regions|]
  }

  lemma NextIdUnused(rows: seq<Tenant>, n: int, regions: seq<string>, ids: nat -> Uuid, i: nat)
    requires |regions| > 0 && FreshIds(rows, ids) && i < |Tiers(n)|
    ensures var all := Seeded(n, regions, ids);
      && Unused(rows + all[..i], ids(i)) && rows + all[..i] + [all[i]] == rows + all[..i + 1]
      && all[i] == Tenant(ids(i), Tiers(n)[i], RegionAt(regions, i))
  {
    var all := Seeded(n, regions, ids);
    assert all[..i] + [all[i]] == all[..i + 1];
  }

  method TierList(n: int) returns (tiers: seq<string>)
    ensures tiers == Tiers(n)
  {
    var critical, regular, background := Distribute(n);
    tiers := Repeat([], critical, CRITICAL);
    tiers := Repeat(tiers, regular, REGULAR);
    tiers := Repeat(tiers, background, BACKGROUND);
  }

  /** The loop of seed: an error stops it and leaves the rows inserted so far. */
  method InsertAll(table: TenantTable, tiers: seq<string>, n: int, regions: seq<string>, ids: nat -> Uuid, fails: nat -> bool)
    returns (ok: bool, done: nat)
    requires |regions| > 0 && tiers == Tiers(n) && FreshIds(table.rows, ids)
    modifies table
    ensures done <= |tiers| && (ok <==> done == |tiers|)
    ensures table.rows == old(table.rows) + Seeded(n, regions, ids)[..done]
    ensures forall k: nat :: k < done ==> !fails(k)
    ensures !ok ==> fails(done)
  {
    done := 0;
    while done < |tiers|
      invariant done <= |tiers|
      invariant table.rows == old(table.rows) + Seeded(n, regions, ids)[..done]
      invariant forall k: nat :: k < done ==> !fails(k)
    {
      NextIdUnused(old(table.rows), n, regions, ids, done);
      var homeRegion := RegionAt(regions, done);
      ok := table.InsertTenant(Tenant(ids(done), tiers[done], homeRegion), fails(done));
      if !ok { return; }
      done := done + 1;
    }
    ok := true;
  }

  /** Deals the tier list over the regions, or panics before the first insert. */
  method Seed(table: TenantTable, n: int, regions: seq<string>, ids: nat -> Uuid, fails: nat -> bool)
    returns (outcome: SeedOutcome)
    requires FreshIds(table.rows, ids)
    modifies table
    ensures outcome.Panicked? <==> n < 0 || regions == []
    ensures outcome.Panicked? ==> table.rows == old(table.rows)
    ensures outcome.Complete? <==> !SeedPanics(n, regions) && forall k: nat :: k < |Tiers(n)| ==> !fails(k)
    ensures outcome.Complete? ==> table.rows == old(table.rows) + Seeded(n, regions, ids)
    ensures outcome.Failed? ==>
      exists k: nat :: k < |Tiers(n)| && fails(k) && table.rows == old(table.rows) + Seeded(n, regions, ids)[..k]
  {
    if n < 0 { return Panicked; }
    var tiers := TierList(n);
    if |regions| == 0 { return Panicked; }
    var ok, done := InsertAll(table, tiers, n, regions, ids, fails);
    assert Seeded(n, regions, ids)[..|tiers|] == Seeded(n, regions, ids);
    outcome := if ok then Complete else Failed;
  }

  // ---------- load ----------

  function HomeOf(): Tenant -> string { (t: Tenant) => t.homeRegion }
  function TierOf(): Tenant -> string { (t: Tenant) => t.qos }

  /** Each index entry is the plain list filtered, in the same order, and an entry exists
      exactly for the keys that occur. */
  ghost predicate Indexes<T>(all: seq<T>, key: T -> string, index: map<string, seq<T>>) {
    && (forall k :: k in index <==> exists t :: t in all && key(t) == k)
    && (forall k :: k in index ==> index[k] == Filter(all, HasKey(key, k)))
  }

  function Entry<T>(index: map<string, seq<T>>, k: string): seq<T> {
    if k in index then index[k] else []
  }

  lemma IndexesAppend<T>(all: seq<T>, key: T -> string, index: map<string, seq<T>>, t: T)
    requires Indexes(all, key, index)
    ensures Indexes(all + [t], key, index[key(t) := Entry(index, key(t)) + [t]])
  {
    var index' := index[key(t) := Entry(index, key(t)) + [t]];
    forall k | k in index' ensures index'[k] == Filter(all + [t], HasKey(key, k)) {
      FilterAppend(all, t, HasKey(key, k));
      EmptyFilter(all, HasKey(key, k));
    }
    forall k ensures k in index' <==> exists u :: u in all + [t] && key(u) == k {
      if k == key(t) {
        assert t in all + [t];
      } else if k in index {
        var u :| u in all && key(u) == k;
        assert u in all + [t];
      }
    }
  }

  lemma SortKeepsDistinct<T(!new)>(leq: (T, T) -> bool, s: seq<T>)
    requires TotalOrder(leq)
    requires Distinct(s)
    ensures forall x :: x in Sort(leq, s) <==> x in s
    ensures Distinct(Sort(leq, s))
  {
    SortIsSorted(leq, s);
    forall x ensures x in Sort(leq, s) <==> x in s {
      assert x in multiset(s) <==> x in s;
      assert x in multiset(Sort(leq, s)) <==> x in Sort(leq, s);
    }
    DistinctOccurOnce(s);
    OccurOnceDistinct(Sort(leq, s));
  }

  class TenantPool {
    var all: seq<Tenant>
    var byTier: map<string, seq<Tenant>>
    var byRegion: map<string, seq<Tenant>>

    constructor ()
      ensures Indexed() && all == []
    {
      all, byTier, byRegion := [], map[], map[];
    }

    ghost predicate Indexed()
      reads this
    {
      Indexes(all, TierOf(), byTier) && Indexes(all, HomeOf(), byRegion)
    }

    function ByRegion(region: string): seq<Tenant>
      reads this
    {
      Entry(byRegion, region)
    }

    function ByTier(tier: string): seq<Tenant>
      reads this
    {
      Entry(byTier, tier)
    }

    method Add(t: Tenant)
      requires Indexed()
      modifies this
      ensures Indexed() && all == old(all) + [t]
    {
      IndexesAppend(all, TierOf(), byTier, t);
      IndexesAppend(all, HomeOf(), byRegion, t);
      all := all + [t];
      byTier := byTier[t.qos := ByTier(t.qos) + [t]];
      byRegion := byRegion[t.homeRegion := ByRegion(t.homeRegion) + [t]];
    }

    /** The regions that have a tenant, in strictly ascending order. */
    method ActiveRegions() returns (regions: seq<string>)
      requires Indexed()
      ensures SortedBy(StringOrder(), regions) && Distinct(regions)
      ensures forall r :: r in regions <==> exists t :: t in all && t.homeRegion == r
    {
      regions := [];
      var keys := byRegion.Keys;
      while keys != {}
        invariant keys <= byRegion.Keys
        invariant Distinct(regions)
        invariant forall r :: r in regions <==> r in byRegion && r !in keys
        decreases keys
      {
        var r :| r in keys;
        NonemptyFilter(all, HasKey(HomeOf(), r));
        if |byRegion[r]| > 0 { regions := regions + [r]; }
        keys := keys - {r};
      }
      StringsAreOrdered();
      SortIsSorted(StringOrder(), regions);
      SortKeepsDistinct(StringOrder(), regions);
      regions := Sort(StringOrder(), regions);
    }
  }

  /** The listing is determined by what the table holds, whatever order the rows are stored in. */
  lemma ListingDeterminedByContents(a: seq<Tenant>, b: seq<Tenant>)
    ensures LoadOrder(a) == LoadOrder(b) <==> multiset(a) == multiset(b)
  {
    TenantsAreOrdered();
    SortIsSorted(TenantOrder(), a);
    SortIsSorted(TenantOrder(), b);
    if multiset(a) == multiset(b) {
      SortedIsUnique(TenantOrder(), LoadOrder(a), LoadOrder(b));
    }
  }

  /** The listing holds each row of the table as often as the table does. */
  lemma LoadOrderKeepsRows(rows: seq<Tenant>, p: Tenant -> bool)
    ensures Count(LoadOrder(rows), p) == Count(rows, p) && |LoadOrder(rows)| == |rows|
    ensures forall t :: t in LoadOrder(rows) <==> t in rows
  {
    TenantsAreOrdered();
    SortIsSorted(TenantOrder(), rows);
    CountByContents(LoadOrder(rows), rows, p);
    assert |multiset(LoadOrder(rows))| == |multiset(rows)|;
    forall t ensures t in LoadOrder(rows) <==> t in rows {
      assert t in multiset(LoadOrder(rows)) <==> t in multiset(rows);
    }
  }

  method Load(table: TenantTable) returns (pool: TenantPool)
    ensures fresh(pool) && pool.Indexed() && pool.all == LoadOrder(table.rows)
  {
    var rows := LoadOrder(table.rows);
    pool := new TenantPool();
    var i := 0;
    while i < |rows|
      invariant 0 <= i <= |rows|
      invariant fresh(pool) && pool.Indexed() && pool.all == rows[..i]
    {
      pool.Add(rows[i]);
      assert rows[..i] + [rows[i]] == rows[..i + 1];
      i := i + 1;
    }
    assert rows[..i] == rows;
  }

  /** Which database call of SeedOrLoad fails, if any. */
  datatype Faults = Faults(count: bool, insert: nat -> bool, load: bool)

  /** Seeds an empty table, or loads what is there whatever n and regions say. It panics
      exactly when it has to seed and cannot. */
  method SeedOrLoad(table: TenantTable, n: int, regions: seq<string>, ids: nat -> Uuid, faults: Faults)
    returns (pool: TenantPool?, panicked: bool)
    requires FreshIds(table.rows, ids)
    modifies table
    ensures pool != null ==>
      && fresh(pool) && pool.Indexed() && pool.all == LoadOrder(table.rows)
    ensures pool != null && old(table.rows) == [] ==> !SeedPanics(n, regions) && table.rows == Seeded(n, regions, ids)
    ensures old(table.rows) != [] ==> table.rows == old(table.rows)
    ensures panicked <==> !faults.count && old(table.rows) == [] && (n < 0 || regions == [])
    ensures panicked ==> table.rows == []
    ensures pool != null <==>
      && !faults.count && !faults.load
      && (old(table.rows) == [] ==> !SeedPanics(n, regions) && forall k: nat :: k < |Tiers(n)| ==> !faults.insert(k))
  {
    if faults.count { return null, false; }
    if |table.rows| == 0 {
      var outcome := Seed(table, n, regions, ids, faults.insert);
      if outcome != Complete { return null, outcome == Panicked; }
    }
    if faults.load { return null, false; }
    pool := Load(table);
    panicked := false;
  }

  /** A restart finds the same non-empty pool, whatever tenant count and regions it asks for. */
  method SeedThenRestart(table: TenantTable, n: int, regions: seq<string>, ids: nat -> Uuid, faults: Faults,
                         n': int, regions': seq<string>, ids': nat -> Uuid, faults': Faults)
    returns (first: TenantPool?, second: TenantPool?)
    requires FreshIds(table.rows, ids)
    requires forall i: nat, j: nat :: ids(i) != ids'(j)
    requires FreshIds(table.rows, ids')
    modifies table
    ensures first != null ==> first.all != []
    ensures first != null && second != null ==> second.all == first.all
  {
    var panicked;
    first, panicked := SeedOrLoad(table, n, regions, ids, faults);
    if first == null { return null, null; }
    TenantsAreOrdered();
    SortIsSorted(TenantOrder(), table.rows);
    assert |multiset(first.all)| == |multiset(table.rows)|;
    forall i: nat ensures Unused(table.rows, ids'(i)) {
      assert Unused(old(table.rows), ids'(i));
    }
    second, panicked := SeedOrLoad(table, n', regions', ids', faults');
  }
}
