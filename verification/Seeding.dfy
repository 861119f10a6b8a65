/** What a seeded tenants table guarantees about regions and tiers, and what the loaded
    indexes guarantee about sizes. */
module Seeding {
  import opened Sequences
  import opened Store
  import opened Cyclic
  import opened Ordering
  import opened Tenants
  import opened WritePathTheorems

  /** The stretch of the tier list that holds one tier. */
  function Block(n: int, tier: string): (b: (nat, nat))
    requires tier in TIERS
    ensures b.0 <= b.1 <= |Tiers(n)|
  {
    var (c, r, bg) := Split(n);
    if tier == CRITICAL then (0, c) else if tier == REGULAR then (c, c + r) else (c + r, c + r + bg)
  }

  lemma BlockHoldsTier(n: int, i: nat, tier: string)
    requires i < |Tiers(n)| && tier in TIERS
    ensures Tiers(n)[i] == tier <==> Block(n, tier).0 <= i < Block(n, tier).1
  {
  }

  function Clamp(m: nat, lo: nat, hi: nat): nat
    requires lo <= hi
  {
    if m < lo then lo else if m > hi then hi else m
  }

  /** Position i is in the stretch and falls in slot j. */
  predicate DealtIn(block: (nat, nat), k: nat, i: nat, j: nat)
    requires k > 0
  {
    block.0 <= i < block.1 && i % k == j
  }

  lemma RowInCell(n: int, regions: seq<string>, ids: nat -> Uuid, tier: string, j: nat, i: nat)
    requires Distinct(regions) && j < |regions| && tier in TIERS && i < |Tiers(n)|
    ensures InCell(tier, regions[j])(Seeded(n, regions, ids)[i])
        <==> DealtIn(Block(n, tier), |regions|, i, j)
  {
    BlockHoldsTier(n, i, tier);
  }

  lemma ClampStep(m: nat, lo: nat, hi: nat, k: nat, j: nat)
    requires lo <= hi && k > 0 && m > 0
    ensures Dealt(Clamp(m, lo, hi), k, j)
         == Dealt(Clamp(m - 1, lo, hi), k, j) + if DealtIn((lo, hi), k, m - 1, j) then 1 else 0
  {
  }

  lemma CountTake(rows: seq<Tenant>, m: nat, p: Tenant -> bool)
    requires 0 < m <= |rows|
    ensures Count(rows[..m], p) == Count(rows[..m - 1], p) + if p(rows[m - 1]) then 1 else 0
  {
    assert rows[..m] == rows[..m - 1] + [rows[m - 1]];
    CountAppend(rows[..m - 1], rows[m - 1], p);
  }

  lemma {:induction false} CellCount(n: int, regions: seq<string>, ids: nat -> Uuid, tier: string, j: nat, m: nat)
    requires Distinct(regions) && j < |regions| && tier in TIERS && m <= |Tiers(n)|
    ensures var block := Block(n, tier);
      Count(Seeded(n, regions, ids)[..m], InCell(tier, regions[j]))
      == Dealt(Clamp(m, block.0, block.1), |regions|, j) - Dealt(block.0, |regions|, j)
  {
    if m > 0 {
      CellCount(n, regions, ids, tier, j, m - 1);
      RowInCell(n, regions, ids, tier, j, m - 1);
      CountTake(Seeded(n, regions, ids), m, InCell(tier, regions[j]));
      ClampStep(m, Block(n, tier).0, Block(n, tier).1, |regions|, j);
      assert Block(n, tier) == (Block(n, tier).0, Block(n, tier).1);
    }
  }

  lemma {:induction false} RegionCount(n: int, regions: seq<string>, ids: nat -> Uuid, j: nat, m: nat)
    requires Distinct(regions) && j < |regions| && m <= |Tiers(n)|
    ensures Count(Seeded(n, regions, ids)[..m], HasKey(HomeOf(), regions[j])) == Dealt(m, |regions|, j)
  {
    var rows := Seeded(n, regions, ids);
    if m > 0 {
      RegionCount(n, regions, ids, j, m - 1);
      CountTake(rows, m, HasKey(HomeOf(), regions[j]));
    }
  }

  lemma WholeCellCount(n: int, regions: seq<string>, ids: nat -> Uuid, tier: string, j: nat)
    requires Distinct(regions) && j < |regions| && tier in TIERS
    ensures var (lo, hi) := Block(n, tier);
      Count(Seeded(n, regions, ids), InCell(tier, regions[j])) == Dealt(hi, |regions|, j) - Dealt(lo, |regions|, j)
  {
    var rows := Seeded(n, regions, ids);
    var (lo, hi) := Block(n, tier);
    CellCount(n, regions, ids, tier, j, |rows|);
    assert rows[..|rows|] == rows;
    assert Clamp(|rows|, lo, hi) == hi;
  }

  ghost predicate CellSeeded(n: int, regions: seq<string>, ids: nat -> Uuid, tier: string, j: nat)
    requires j < |regions|
  {
    exists t :: t in Seeded(n, regions, ids) && t.qos == tier && t.homeRegion == regions[j]
  }

  lemma CellSeededIffDealt(n: int, regions: seq<string>, ids: nat -> Uuid, tier: string, j: nat)
    requires Distinct(regions) && j < |regions| && tier in TIERS
    ensures CellSeeded(n, regions, ids, tier, j)
        <==> Dealt(Block(n, tier).1, |regions|, j) > Dealt(Block(n, tier).0, |regions|, j)
  {
    WholeCellCount(n, regions, ids, tier, j);
    CountPositive(Seeded(n, regions, ids), InCell(tier, regions[j]));
    if CellSeeded(n, regions, ids, tier, j) {
      var t :| t in Seeded(n, regions, ids) && t.qos == tier && t.homeRegion == regions[j];
      assert InCell(tier, regions[j])(t);
    }
  }

  /** A tier is dealt to every region exactly when its block is a full lap long. */
  lemma TierCoverage(n: int, regions: seq<string>, ids: nat -> Uuid, tier: string)
    requires Distinct(regions) && |regions| > 0 && tier in TIERS
    ensures (forall j: nat :: j < |regions| ==> CellSeeded(n, regions, ids, tier, j))
        <==> Block(n, tier).1 - Block(n, tier).0 >= |regions|
  {
    var lo, hi, k := Block(n, tier).0, Block(n, tier).1, |regions|;
    StretchCovers(lo, hi, k);
    if hi - lo >= k {
      forall j: nat | j < k ensures CellSeeded(n, regions, ids, tier, j) {
        CellSeededIffDealt(n, regions, ids, tier, j);
      }
    } else {
      var j :| 0 <= j < k && Dealt(hi, k, j) <= Dealt(lo, k, j);
      CellSeededIffDealt(n, regions, ids, tier, j);
    }
  }

  /** The pool a complete seeding of an empty table loads. */
  function SeededPool(n: int, regions: seq<string>, ids: nat -> Uuid): seq<Tenant>
    requires |regions| > 0
  {
    LoadOrder(Seeded(n, regions, ids))
  }

  ghost predicate CellCovered(all: seq<Tenant>, tier: string, region: string) {
    exists t :: t in all && t.qos == tier && t.homeRegion == region
  }

  lemma CoveredIffSeeded(n: int, regions: seq<string>, ids: nat -> Uuid, tier: string, j: nat)
    requires j < |regions|
    ensures CellCovered(SeededPool(n, regions, ids), tier, regions[j]) <==> CellSeeded(n, regions, ids, tier, j)
  {
    LoadOrderKeepsRows(Seeded(n, regions, ids), InCell(tier, regions[j]));
  }

  /** With k distinct regions the pool has a tenant for every region-and-tier pair exactly from
      n = 5k - 2 on. */
  lemma SeedingCoverage(n: int, regions: seq<string>, ids: nat -> Uuid)
    requires Distinct(regions) && |regions| > 0
    ensures (forall tier: string, j: nat :: tier in TIERS && j < |regions| ==> CellCovered(SeededPool(n, regions, ids), tier, regions[j]))
        <==> n >= 5 * |regions| - 2
  {
    TierCoverage(n, regions, ids, CRITICAL);
    TierCoverage(n, regions, ids, REGULAR);
    TierCoverage(n, regions, ids, BACKGROUND);
    assert TIERS[0] == CRITICAL && TIERS[1] == REGULAR && TIERS[2] == BACKGROUND;
    forall tier: string, j: nat | tier in TIERS && j < |regions|
      ensures CellCovered(SeededPool(n, regions, ids), tier, regions[j]) <==> CellSeeded(n, regions, ids, tier, j)
    {
      CoveredIffSeeded(n, regions, ids, tier, j);
    }
  }

  lemma RowsBalanced(n: int, regions: seq<string>, ids: nat -> Uuid, i: nat, j: nat, tier: string)
    requires Distinct(regions) && i < |regions| && j < |regions| && tier in TIERS
    ensures var rows := Seeded(n, regions, ids);
      && -1 <= Count(rows, HasKey(HomeOf(), regions[i])) - Count(rows, HasKey(HomeOf(), regions[j])) <= 1
      && -1 <= Count(rows, InCell(tier, regions[i])) - Count(rows, InCell(tier, regions[j])) <= 1
  {
    var rows := Seeded(n, regions, ids);
    RegionCount(n, regions, ids, i, |rows|);
    RegionCount(n, regions, ids, j, |rows|);
    assert rows[..|rows|] == rows;
    StretchBalanced(0, |rows|, |regions|, i, j);
    WholeCellCount(n, regions, ids, tier, i);
    WholeCellCount(n, regions, ids, tier, j);
    StretchBalanced(Block(n, tier).0, Block(n, tier).1, |regions|, i, j);
  }

  /** In the pool, two regions' tenant counts differ by at most one, overall and inside each tier. */
  lemma SeedingBalanced(n: int, regions: seq<string>, ids: nat -> Uuid, i: nat, j: nat, tier: string)
    requires Distinct(regions) && i < |regions| && j < |regions| && tier in TIERS
    ensures var all := SeededPool(n, regions, ids);
      && -1 <= Count(all, HasKey(HomeOf(), regions[i])) - Count(all, HasKey(HomeOf(), regions[j])) <= 1
      && -1 <= Count(all, InCell(tier, regions[i])) - Count(all, InCell(tier, regions[j])) <= 1
  {
    RowsBalanced(n, regions, ids, i, j, tier);
    LoadOrderKeepsRows(Seeded(n, regions, ids), HasKey(HomeOf(), regions[i]));
    LoadOrderKeepsRows(Seeded(n, regions, ids), HasKey(HomeOf(), regions[j]));
    LoadOrderKeepsRows(Seeded(n, regions, ids), InCell(tier, regions[i]));
    LoadOrderKeepsRows(Seeded(n, regions, ids), InCell(tier, regions[j]));
  }

  lemma ClampUp(m: nat, lo: nat, hi: nat)
    requires lo <= hi && m > 0
    ensures Clamp(m, lo, hi) == Clamp(m - 1, lo, hi) + if lo <= m - 1 < hi then 1 else 0
  {
  }

  lemma {:induction false} TierPrefix(n: int, regions: seq<string>, ids: nat -> Uuid, tier: string, m: nat)
    requires |regions| > 0 && tier in TIERS && m <= |Tiers(n)|
    ensures var block := Block(n, tier);
      Count(Seeded(n, regions, ids)[..m], InTier(tier)) == Clamp(m, block.0, block.1) - block.0
  {
    if m > 0 {
      TierPrefix(n, regions, ids, tier, m - 1);
      BlockHoldsTier(n, m - 1, tier);
      CountTake(Seeded(n, regions, ids), m, InTier(tier));
      ClampUp(m, Block(n, tier).0, Block(n, tier).1);
    }
  }

  lemma WholeTier(n: int, regions: seq<string>, ids: nat -> Uuid, tier: string)
    requires |regions| > 0 && tier in TIERS
    ensures Count(SeededPool(n, regions, ids), InTier(tier)) == Block(n, tier).1 - Block(n, tier).0
  {
    var rows := Seeded(n, regions, ids);
    TierPrefix(n, regions, ids, tier, |rows|);
    assert rows[..|rows|] == rows;
    LoadOrderKeepsRows(rows, InTier(tier));
  }

  /** How many tenants of each tier the loaded pool has: a fifth to the nearest critical, as many
      background, the rest regular; below three tenants one critical and one regular. */
  lemma SeededTiers(n: int, regions: seq<string>, ids: nat -> Uuid)
    requires |regions| > 0
    ensures var all := SeededPool(n, regions, ids);
      && Count(all, InTier("critical")) == (if n >= 3 then (n + 2) / 5 else 1)
      && Count(all, InTier("regular")) == (if n >= 3 then n - 2 * ((n + 2) / 5) else 1)
      && Count(all, InTier("background")) == (if n >= 3 then (n + 2) / 5 else 0)
  {
    assert TIERS[0] == "critical" && TIERS[1] == "regular" && TIERS[2] == "background";
    WholeTier(n, regions, ids, "critical");
    WholeTier(n, regions, ids, "regular");
    WholeTier(n, regions, ids, "background");
  }

  /** How many tenants of each region the loaded pool has: the regions listed first get the odd ones. */
  lemma SeededRegions(n: int, regions: seq<string>, ids: nat -> Uuid, j: nat)
    requires Distinct(regions) && j < |regions|
    ensures var size := if n >= 2 then n else 2;
      && |SeededPool(n, regions, ids)| == size
      && Count(SeededPool(n, regions, ids), HomedIn(regions[j])) == size / |regions| + if j < size % |regions| then 1 else 0
  {
    var rows := Seeded(n, regions, ids);
    RegionCount(n, regions, ids, j, |rows|);
    assert rows[..|rows|] == rows;
    DealtClosedForm(|rows|, |regions|, j);
    CountSame(rows, HasKey(HomeOf(), regions[j]), HomedIn(regions[j]));
    LoadOrderKeepsRows(rows, HomedIn(regions[j]));
  }

  function SizeIn(index: map<string, seq<Tenant>>): string -> int {
    (k: string) => |Entry(index, k)|
  }

  lemma EntrySize(all: seq<Tenant>, key: Tenant -> string, index: map<string, seq<Tenant>>, k: string)
    requires Indexes(all, key, index)
    ensures |Entry(index, k)| == Count(all, HasKey(key, k))
  {
    CountIsFilterLength(all, HasKey(key, k));
    CountPositive(all, HasKey(key, k));
  }

  /** The sizes of the region lists add up to the pool. */
  lemma RegionSizesAddUp(pool: TenantPool, regions: seq<string>)
    requires pool.Indexed() && Distinct(regions)
    requires forall r :: r in regions <==> exists t :: t in pool.all && t.homeRegion == r
    ensures Sum(regions, SizeIn(pool.byRegion)) == |pool.all|
  {
    forall r | r in regions ensures SizeIn(pool.byRegion)(r) == GroupSize(pool.all, HomeOf())(r) {
      EntrySize(pool.all, HomeOf(), pool.byRegion, r);
    }
    forall t | t in pool.all ensures HomeOf()(t) in regions { }
    GroupsAddUp(pool.all, HomeOf(), regions);
    SumSame(regions, SizeIn(pool.byRegion), GroupSize(pool.all, HomeOf()));
  }

  lemma {:induction false} TiersCount(all: seq<Tenant>)
    ensures var sizes := Count(all, HasKey(TierOf(), CRITICAL)) + Count(all, HasKey(TierOf(), REGULAR))
                       + Count(all, HasKey(TierOf(), BACKGROUND));
      sizes <= |all| && (sizes == |all| <==> forall t :: t in all ==> t.qos in TIERS)
  {
    if all != [] {
      var n := |all| - 1;
      TiersCount(all[..n]);
      assert all == all[..n] + [all[n]];
      assert TIERS[0] == CRITICAL && TIERS[1] == REGULAR && TIERS[2] == BACKGROUND;
    }
  }

  /** The three tier lists add up to the pool exactly when the table's CHECK on qos_tier holds. */
  lemma TierSizesAddUp(pool: TenantPool)
    requires pool.Indexed()
    ensures |pool.ByTier(CRITICAL)| + |pool.ByTier(REGULAR)| + |pool.ByTier(BACKGROUND)| == |pool.all|
        <==> forall t :: t in pool.all ==> t.qos in TIERS
  {
    EntrySize(pool.all, TierOf(), pool.byTier, CRITICAL);
    EntrySize(pool.all, TierOf(), pool.byTier, REGULAR);
    EntrySize(pool.all, TierOf(), pool.byTier, BACKGROUND);
    TiersCount(pool.all);
  }

  lemma {:induction false} UniqueIdsByContents(rows: seq<Tenant>)
    requires UniqueIds(rows)
    ensures UniqueIds(LoadOrder(rows))
  {
    var all := LoadOrder(rows);
    assert Distinct(rows);
    TenantsAreOrdered();
    SortKeepsDistinct(TenantOrder(), rows);
    forall i, j | 0 <= i < j < |all| ensures all[i].id != all[j].id {
      assert all[i] in all && all[j] in all;
      var x :| 0 <= x < |rows| && rows[x] == all[i];
      var y :| 0 <= y < |rows| && rows[y] == all[j];
    }
  }

  /** The pool a first start loads is one the write path's guarantees are about: fresh ids give a
      pool with unique ids, and mapped regions a pool of mapped tenants. */
  lemma SeededPoolQualifies(n: int, regions: seq<string>, ids: nat -> Uuid)
    requires |regions| > 0 && FreshIds([], ids)
    ensures UniqueIds(SeededPool(n, regions, ids))
    ensures (forall r :: r in regions ==> Mapped(r)) ==> AllMapped(SeededPool(n, regions, ids))
  {
    var rows := Seeded(n, regions, ids);
    UniqueIdsByContents(rows);
    LoadOrderKeepsRows(rows, HasId(0));
    forall t | t in SeededPool(n, regions, ids) && forall r :: r in regions ==> Mapped(r) ensures Mapped(t.homeRegion) {
      assert t in rows;
      var i :| 0 <= i < |rows| && rows[i] == t;
      assert regions[i % |regions|] in regions;
    }
  }

  /** So is the pool a restart loads from any table with a primary key and mapped home regions. */
  lemma LoadedPoolQualifies(rows: seq<Tenant>)
    ensures UniqueIds(rows) ==> UniqueIds(LoadOrder(rows))
    ensures AllMapped(LoadOrder(rows)) <==> AllMapped(rows)
  {
    if UniqueIds(rows) { UniqueIdsByContents(rows); }
    LoadOrderKeepsRows(rows, HasId(0));
  }
}
