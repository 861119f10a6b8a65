/** The tables the workload shares: events, events_regional and event_counters, the
    row-level security predicate, and the queries that read them. UUIDs are naturals. */
module Store {
  import opened Sequences

  type Uuid = nat

  datatype Tenant = Tenant(id: Uuid, qos: string, homeRegion: string)

  datatype Table = Events | Regional

  /** One tenantInsert call: who writes, to which table, counted under which target. */
  datatype Job = Job(id: nat, round: nat, tenant: Tenant, table: Table, target: string)

  /** The columns of an event row that queries or policies look at. The job records which
      write produced the row; no query reads it. */
  datatype Row = Row(tenantId: Uuid, region: string, createdAt: int, job: Job)

  /** An event_counters row. The version is the store's: it changes at every write. */
  datatype Counter = Counter(cnt: nat, version: nat)

  datatype Store = Store(events: seq<Row>, regional: seq<Row>, counters: map<string, Counter>)

  const GLOBAL := "global"
  const TARGETS: seq<string> := ["global", "east", "west", "eu"]

  function EmptyStore(): Store {
    Store([], [], map k: string | k in TARGETS :: Counter(0, 0))
  }

  function RegionTarget(region: string): string {
    if region == "us-east" then "east"
    else if region == "us-west" then "west"
    else if region == "eu-central" then "eu"
    else region
  }

  predicate Mapped(region: string) {
    region == "us-east" || region == "us-west" || region == "eu-central"
  }

  function Rows(s: Store, table: Table): seq<Row> {
    match table case Events => s.events case Regional => s.regional
  }

  function AddRow(s: Store, row: Row): Store {
    match row.job.table
    case Events => s.(events := s.events + [row])
    case Regional => s.(regional := s.regional + [row])
  }

  // ---------- row-level security and counting queries ----------

  /** tenant_id = NULLIF(current_setting('app.current_tenant', true), '')::UUID; NULL never matches. */
  predicate PolicyAllows(setting: Option<Uuid>, tenantId: Uuid) {
    setting == Some(tenantId)
  }

  function Visible(setting: Option<Uuid>): Row -> bool {
    (r: Row) => PolicyAllows(setting, r.tenantId)
  }

  function OfTenant(id: Uuid): Row -> bool { (r: Row) => r.tenantId == id }

  function InRegion(region: string): Row -> bool { (r: Row) => r.region == region }

  function Recent(setting: Option<Uuid>, since: int): Row -> bool {
    (r: Row) => PolicyAllows(setting, r.tenantId) && r.createdAt >= since
  }

  function RecentInRegion(setting: Option<Uuid>, region: string, since: int): Row -> bool {
    (r: Row) => PolicyAllows(setting, r.tenantId) && r.region == region && r.createdAt >= since
  }

  /** CountRecentEvents as appuser. */
  function CountRecentEvents(s: Store, setting: Option<Uuid>, since: int): nat {
    Count(s.events, Recent(setting, since))
  }

  /** CountRecentRegionalEvents as appuser. */
  function CountRecentRegionalEvents(s: Store, setting: Option<Uuid>, region: string, since: int): nat {
    Count(s.regional, RecentInRegion(setting, region, since))
  }

  /** CountAllEvents as root, to whom the policy does not apply. */
  function CountAllEvents(s: Store): nat { |s.events| }

  /** countWithTenant: the query carries its own WHERE tenant_id = $1 on top of the policy. */
  function CountWithTenant(s: Store, policyOn: bool, id: Uuid): nat {
    Count(if policyOn then Filter(s.events, Visible(Some(id))) else s.events, OfTenant(id))
  }
}
