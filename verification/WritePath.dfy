/** The write path as a step machine. Any number of rounds overlap; each spawned write is a
    goroutine running tenantInsert, and the steps of different writes interleave freely.

    The store is serializable and optimistic: a transaction buffers its row and its counter
    update, and RELEASE takes effect only if the counter version it read is still current.
    A step that is not enabled leaves the state alone, so every sequence of actions is a run. */
module WritePath {
  import opened Sequences
  import opened Store

  datatype Label = Label(target: string, qos: string)

  datatype Phase = Idle | Entered | ContextSet | Inserted | Counted

  /** What UPDATE event_counters read inside the transaction; None when no row matched. */
  datatype CounterRead = CounterRead(cnt: nat, version: nat)

  datatype Txn = Txn(phase: Phase, setting: Option<Uuid>, row: Option<Row>, read: Option<CounterRead>)

  datatype Progress =
    | Queued
    | Running(txn: Txn)
    | Returned(ok: bool, committed: bool)
    | Recorded(ok: bool, committed: bool)

  datatype Write = Write(job: Job, attempts: nat, progress: Progress)

  /** A runWrites call: its batch, the items still to spawn, and the tenant whose regional write is next. */
  datatype Round = Round(batch: nat, remaining: nat, pending: Option<Tenant>)

  datatype Metrics = Metrics(total: map<Label, nat>, errors: map<Label, nat>, retries: map<Label, nat>)

  datatype State = State(pool: seq<Tenant>, store: Store, rounds: seq<Round>, writes: seq<Write>, metrics: Metrics)

  /** What one write does next. */
  datatype Stmt =
    | Begin                      // BEGIN and SAVEPOINT cockroach_restart
    | EnterAttempt               // the retry closure is called
    | SetContext                 // the two SET LOCAL statements
    | InsertRow(now: int)
    | IncrementCounter
    | Release                    // RELEASE SAVEPOINT succeeds and the client learns it
    | ReleaseUnseen              // it takes effect but the client sees an error
    | Restart                    // retryable error, then ROLLBACK TO SAVEPOINT
    | Abort                      // any other error, at any point
    | Record                     // recordWrite counts the outcome

  datatype Action =
    | StartRound(batch: int)
    | SpawnGlobal(round: nat, pick: nat)
    | SpawnRegional(round: nat)
    | Own(w: nat, stmt: Stmt)

  /** A process that finds these tables. Its metrics start at zero. */
  function Start(pool: seq<Tenant>, tables: Store): State {
    State(pool, tables, [], [], Metrics(map[], map[], map[]))
  }

  /** A process on freshly migrated tables. */
  function Init(pool: seq<Tenant>): State {
    Start(pool, EmptyStore())
  }

  function LabelOf(job: Job): Label { Label(job.target, job.tenant.qos) }

  function Value(m: map<Label, nat>, l: Label): nat { if l in m then m[l] else 0 }

  function Inc(m: map<Label, nat>, l: Label): map<Label, nat> { m[l := Value(m, l) + 1] }

  function GlobalJob(id: nat, round: nat, t: Tenant): Job {
    Job(id, round, t, Events, GLOBAL)
  }

  function RegionalJob(id: nat, round: nat, t: Tenant): Job {
    Job(id, round, t, Regional, RegionTarget(t.homeRegion))
  }

  /** Ranging over a negative batch spawns nothing. */
  function NewRound(batch: int): Round {
    var n := if batch < 0 then 0 else batch;
    Round(n, n, None)
  }

  const IDLE := Txn(Idle, None, None, None)

  /** The serializable commit rule. */
  predicate StillCurrent(s: Store, job: Job, txn: Txn) {
    match txn.read
    case None => true
    case Some(r) => job.target in s.counters && s.counters[job.target].version == r.version
  }

  function Commit(s: Store, job: Job, txn: Txn): Store {
    var s1 := if txn.row.Some? then AddRow(s, txn.row.value) else s;
    match txn.read
    case None => s1
    case Some(r) => s1.(counters := s1.counters[job.target := Counter(r.cnt + 1, r.version + 1)])
  }

  function ReadCounter(s: Store, target: string): Option<CounterRead> {
    if target in s.counters then Some(CounterRead(s.counters[target].cnt, s.counters[target].version)) else None
  }

  predicate InPhase(w: Write, phase: Phase) {
    w.progress.Running? && w.progress.txn.phase == phase
  }

  /** Is this the statement's turn in the write's own program? */
  predicate InOrder(w: Write, stmt: Stmt) {
    match stmt
    case Begin => w.progress.Queued?
    case EnterAttempt => InPhase(w, Idle)
    case SetContext => InPhase(w, Entered)
    case InsertRow(_) => InPhase(w, ContextSet) && PolicyAllows(w.progress.txn.setting, w.job.tenant.id)
    case IncrementCounter => InPhase(w, Inserted)
    case Release => InPhase(w, Counted)
    case ReleaseUnseen => InPhase(w, Counted)
    case Restart => w.progress.Running? && w.progress.txn.phase != Idle
    case Abort => w.progress.Queued? || w.progress.Running?
    case Record => w.progress.Returned?
  }

  predicate TakesEffect(stmt: Stmt) { stmt.Release? || stmt.ReleaseUnseen? }

  /** May this write execute this statement now? Only the RELEASE depends on the store. */
  predicate Ready(s: Store, w: Write, stmt: Stmt) {
    InOrder(w, stmt) && (TakesEffect(stmt) ==> StillCurrent(s, w.job, w.progress.txn))
  }

  /** The row the insert would add: tenant id and home region come from the tenant itself. */
  function NewRow(job: Job, now: int): Row {
    Row(job.tenant.id, job.tenant.homeRegion, now, job)
  }

  /** The write after its own statement. */
  function Advance(s: Store, w: Write, stmt: Stmt): (w': Write)
    requires Ready(s, w, stmt)
    ensures w'.job == w.job
  {
    match stmt
    case Begin => w.(progress := Running(IDLE))
    case EnterAttempt =>
      w.(attempts := w.attempts + 1, progress := Running(w.progress.txn.(phase := Entered)))
    case SetContext =>
      w.(progress := Running(w.progress.txn.(phase := ContextSet, setting := Some(w.job.tenant.id))))
    case InsertRow(now) =>
      w.(progress := Running(w.progress.txn.(phase := Inserted, row := Some(NewRow(w.job, now)))))
    case IncrementCounter =>
      w.(progress := Running(w.progress.txn.(phase := Counted, read := ReadCounter(s, w.job.target))))
    case Release => w.(progress := Returned(true, true))
    case ReleaseUnseen => w.(progress := Returned(false, true))
    case Restart => w.(progress := Running(IDLE))
    case Abort => w.(progress := Returned(false, false))
    case Record => w.(progress := Recorded(w.progress.ok, w.progress.committed))
  }

  function StoreAfter(s: Store, w: Write, stmt: Stmt): Store
    requires Ready(s, w, stmt)
  {
    if TakesEffect(stmt) then Commit(s, w.job, w.progress.txn) else s
  }

  function MetricsAfter(s: Store, m: Metrics, w: Write, stmt: Stmt): Metrics
    requires Ready(s, w, stmt)
  {
    if stmt.EnterAttempt? && w.attempts > 0 then m.(retries := Inc(m.retries, LabelOf(w.job)))
    else if stmt.Record? && w.progress.ok then m.(total := Inc(m.total, LabelOf(w.job)))
    else if stmt.Record? then m.(errors := Inc(m.errors, LabelOf(w.job)))
    else m
  }

  predicate Enabled(s: State, a: Action) {
    match a
    case StartRound(_) => true
    case SpawnGlobal(r, pick) =>
      r < |s.rounds| && s.rounds[r].remaining > 0 && s.rounds[r].pending.None? && pick < |s.pool|
    case SpawnRegional(r) => r < |s.rounds| && s.rounds[r].remaining > 0 && s.rounds[r].pending.Some?
    case Own(w, stmt) => w < |s.writes| && Ready(s.store, s.writes[w], stmt)
  }

  function Step(s: State, a: Action): State
    requires Enabled(s, a)
  {
    match a
    case StartRound(batch) => s.(rounds := s.rounds + [NewRound(batch)])
    case SpawnGlobal(r, pick) =>
      var t := s.pool[pick];
      s.(rounds := s.rounds[r := s.rounds[r].(pending := Some(t))],
         writes := s.writes + [Write(GlobalJob(|s.writes|, r, t), 0, Queued)])
    case SpawnRegional(r) =>
      var round := s.rounds[r];
      s.(rounds := s.rounds[r := round.(remaining := round.remaining - 1, pending := None)],
         writes := s.writes + [Write(RegionalJob(|s.writes|, r, round.pending.value), 0, Queued)])
    case Own(w, stmt) =>
      s.(store := StoreAfter(s.store, s.writes[w], stmt),
         writes := s.writes[w := Advance(s.store, s.writes[w], stmt)],
         metrics := MetricsAfter(s.store, s.metrics, s.writes[w], stmt))
  }

  function Apply(s: State, a: Action): State {
    if Enabled(s, a) then Step(s, a) else s
  }

  function Run(s: State, trace: seq<Action>): State {
    if trace == [] then s else Apply(Run(s, trace[..|trace| - 1]), trace[|trace| - 1])
  }

  lemma RunAppend(s: State, trace: seq<Action>, a: Action)
    ensures Run(s, trace + [a]) == Apply(Run(s, trace), a)
  {
    assert (trace + [a])[..|trace|] == trace;
  }

  lemma {:induction false} RunConcat(s: State, t1: seq<Action>, t2: seq<Action>)
    ensures Run(s, t1 + t2) == Run(Run(s, t1), t2)
  {
    if t2 == [] {
      assert t1 + t2 == t1;
    } else {
      var n := |t2| - 1;
      RunConcat(s, t1, t2[..n]);
      assert (t1 + t2)[..|t1| + n] == t1 + t2[..n];
    }
  }
}
