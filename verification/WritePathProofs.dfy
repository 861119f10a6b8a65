/** What every run of the write path keeps, from freshly migrated tables and zeroed metrics. */
module WritePathProofs {
  import opened Sequences
  import opened Store
  import opened WritePath

  // ---------- invariants ----------

  ghost predicate JobOk(s: State, i: nat, job: Job) {
    && job.tenant in s.pool
    && (job == GlobalJob(i, job.round, job.tenant) || job == RegionalJob(i, job.round, job.tenant))
  }

  predicate RowOk(row: Row, job: Job) {
    row.job == job && row.tenantId == job.tenant.id && row.region == job.tenant.homeRegion
  }

  ghost predicate ReadOk(store: Store, target: string, read: Option<CounterRead>) {
    match read
    case None => target !in store.counters
    case Some(r) =>
      && target in store.counters
      && r.version <= store.counters[target].version
      && (r.version == store.counters[target].version ==> r.cnt == store.counters[target].cnt)
  }

  ghost predicate TxnOk(store: Store, job: Job, txn: Txn) {
    match txn.phase
    case Idle => txn == IDLE
    case Entered => txn == IDLE.(phase := Entered)
    case ContextSet => txn == Txn(ContextSet, Some(job.tenant.id), None, None)
    case Inserted =>
      txn.setting == Some(job.tenant.id) && txn.row.Some? && RowOk(txn.row.value, job) && txn.read.None?
    case Counted =>
      txn.setting == Some(job.tenant.id) && txn.row.Some? && RowOk(txn.row.value, job)
      && ReadOk(store, job.target, txn.read)
  }

  ghost predicate WriteOk(s: State, i: nat)
    requires i < |s.writes|
  {
    var w := s.writes[i];
    && JobOk(s, i, w.job)
    && (w.progress.Running? ==> TxnOk(s.store, w.job, w.progress.txn))
    && (w.progress.Running? && w.progress.txn.phase != Idle ==> w.attempts > 0)
    && (w.progress.Queued? ==> w.attempts == 0)
    && (w.progress.Returned? && w.progress.ok ==> w.progress.committed)
    && (w.progress.Recorded? && w.progress.ok ==> w.progress.committed)
  }

  ghost predicate WritesOk(s: State) {
    && (forall k :: k in s.store.counters <==> k in TARGETS)
    && (forall i :: 0 <= i < |s.writes| ==> WriteOk(s, i))
    && (forall r :: 0 <= r < |s.rounds| && s.rounds[r].pending.Some? ==>
          s.rounds[r].pending.value in s.pool && s.rounds[r].remaining > 0)
  }

  function CountedUnder(target: string): Row -> bool {
    (r: Row) => RegionTarget(r.region) == target
  }

  /** The rows whose writes bumped a counter: every events row bumps "global", and a regional
      row bumps the target its region maps to. */
  function Tally(store: Store, target: string): nat {
    (if target == GLOBAL then |store.events| else 0) + Count(store.regional, CountedUnder(target))
  }

  ghost predicate CountersAgree(store: Store) {
    forall k :: k in store.counters ==> store.counters[k].cnt == Tally(store, k)
  }

  predicate Committed(w: Write) {
    (w.progress.Returned? || w.progress.Recorded?) && w.progress.committed
  }

  function FromWrite(i: nat): Row -> bool { (r: Row) => r.job.id == i }

  ghost predicate RowsTraceable(s: State) {
    forall table: Table, r: Row :: r in Rows(s.store, table) ==>
      && r.job.table == table
      && RowOk(r, r.job)
      && r.job.id < |s.writes|
      && s.writes[r.job.id].job == r.job
  }

  /** Write i has one row in its table if it took effect, and none otherwise. */
  ghost predicate OneRowIffCommitted(store: Store, i: nat, w: Write) {
    Count(Rows(store, w.job.table), FromWrite(i)) == if Committed(w) then 1 else 0
  }

  ghost predicate ExactlyOnce(s: State) {
    forall i :: 0 <= i < |s.writes| ==> OneRowIffCommitted(s.store, i, s.writes[i])
  }

  function Under(l: Label): Write -> bool { (w: Write) => LabelOf(w.job) == l }

  function RecordedUnder(l: Label, ok: bool): Write -> bool {
    (w: Write) => LabelOf(w.job) == l && w.progress.Recorded? && w.progress.ok == ok
  }

  function InFlightUnder(l: Label): Write -> bool {
    (w: Write) => LabelOf(w.job) == l && !w.progress.Recorded?
  }

  function CommittedUnder(l: Label): Write -> bool {
    (w: Write) => LabelOf(w.job) == l && Committed(w)
  }

  function StartedUnder(l: Label): Write -> bool {
    (w: Write) => LabelOf(w.job) == l && w.attempts > 0
  }

  function AttemptsUnder(l: Label): Write -> int {
    (w: Write) => if LabelOf(w.job) == l then w.attempts else 0
  }

  function RowUnder(l: Label): Row -> bool { (r: Row) => LabelOf(r.job) == l }

  function CommittedRows(store: Store, l: Label): nat {
    Count(store.events, RowUnder(l)) + Count(store.regional, RowUnder(l))
  }

  ghost predicate MetricsOk(s: State) {
    forall l: Label ::
      && Value(s.metrics.total, l) == Count(s.writes, RecordedUnder(l, true))
      && Value(s.metrics.errors, l) == Count(s.writes, RecordedUnder(l, false))
      && Value(s.metrics.retries, l) == Sum(s.writes, AttemptsUnder(l)) - Count(s.writes, StartedUnder(l))
      && CommittedRows(s.store, l) == Count(s.writes, CommittedUnder(l))
  }

  function OfTier(table: Table, qos: string): Write -> bool {
    (w: Write) => w.job.table == table && w.job.tenant.qos == qos
  }

  function HalfSpawned(qos: string): Round -> bool {
    (r: Round) => r.pending.Some? && r.pending.value.qos == qos
  }

  ghost predicate Paired(s: State, qos: string) {
    Count(s.writes, OfTier(Events, qos)) == Count(s.writes, OfTier(Regional, qos)) + Count(s.rounds, HalfSpawned(qos))
  }

  ghost predicate RoundsPaired(s: State) {
    forall qos: string :: Paired(s, qos)
  }

  function OfRound(r: nat, table: Table): Write -> bool {
    (w: Write) => w.job.round == r && w.job.table == table
  }

  /** A round has spawned one write per table for each item it has left behind. */
  ghost predicate RoundSpawned(writes: seq<Write>, r: nat, round: Round) {
    && round.remaining <= round.batch
    && Count(writes, OfRound(r, Regional)) == round.batch - round.remaining
    && Count(writes, OfRound(r, Events)) == round.batch - round.remaining + if round.pending.Some? then 1 else 0
  }

  ghost predicate RoundsSpawned(s: State) {
    && (forall r :: 0 <= r < |s.rounds| ==> RoundSpawned(s.writes, r, s.rounds[r]))
    && (forall w :: w in s.writes ==> w.job.round < |s.rounds|)
  }

  ghost predicate Inv(s: State) {
    RoundsSpawned(s) && WritesOk(s) && CountersAgree(s.store) && RowsTraceable(s) && ExactlyOnce(s) && MetricsOk(s) && RoundsPaired(s)
  }

  // ---------- one step ----------

  /** Another transaction's commit either leaves a buffered read current or makes it stale for good. */
  lemma OthersStayOk(s: State, job: Job, txn: Txn, other: Write)
    requires TxnOk(s.store, job, txn) && StillCurrent(s.store, job, txn) && txn.phase == Counted
    requires other.progress.Running? && TxnOk(s.store, other.job, other.progress.txn)
    ensures TxnOk(Commit(s.store, job, txn), other.job, other.progress.txn)
  {
  }

  lemma OwnStepKeepsOwn(s: State, a: Action)
    requires Enabled(s, a) && a.Own? && WriteOk(s, a.w)
    requires forall k :: k in s.store.counters <==> k in TARGETS
    ensures WriteOk(Step(s, a), a.w)
  {
  }

  lemma OwnStepKeepsOther(s: State, a: Action, i: nat)
    requires Enabled(s, a) && a.Own? && WriteOk(s, a.w) && i < |s.writes| && i != a.w && WriteOk(s, i)
    ensures WriteOk(Step(s, a), i)
  {
    var w := s.writes[a.w];
    if TakesEffect(a.stmt) && s.writes[i].progress.Running? {
      OthersStayOk(s, w.job, w.progress.txn, s.writes[i]);
    }
  }

  lemma StepKeepsWrites(s: State, a: Action)
    requires Enabled(s, a) && WritesOk(s)
    ensures WritesOk(Step(s, a))
  {
    var s' := Step(s, a);
    forall i | 0 <= i < |s'.writes| ensures WriteOk(s', i) {
      if i < |s.writes| { assert WriteOk(s, i); }
      if a.Own? {
        assert WriteOk(s, a.w);
        if i == a.w { OwnStepKeepsOwn(s, a); } else { OwnStepKeepsOther(s, a, i); }
      }
    }
  }

  /** The commit rule is what keeps a cached count equal to the rows it stands for. */
  lemma CommitKeepsCounters(store: Store, job: Job, txn: Txn)
    requires CountersAgree(store) && (forall k :: k in store.counters <==> k in TARGETS)
    requires TxnOk(store, job, txn) && txn.phase == Counted && StillCurrent(store, job, txn)
    requires job == GlobalJob(job.id, job.round, job.tenant) || job == RegionalJob(job.id, job.round, job.tenant)
    ensures CountersAgree(Commit(store, job, txn))
  {
    var row := txn.row.value;
    var after := Commit(store, job, txn);
    forall k | k in after.counters ensures after.counters[k].cnt == Tally(after, k) {
      CountAppend(store.regional, row, CountedUnder(k));
      assert store.counters[k].cnt == Tally(store, k);
    }
  }

  lemma StepKeepsCounters(s: State, a: Action)
    requires Enabled(s, a) && WritesOk(s) && CountersAgree(s.store)
    ensures CountersAgree(Step(s, a).store)
  {
    if a.Own? && TakesEffect(a.stmt) {
      var w := s.writes[a.w];
      assert WriteOk(s, a.w);
      CommitKeepsCounters(s.store, w.job, w.progress.txn);
    }
  }

  lemma StepKeepsTraceable(s: State, a: Action)
    requires Enabled(s, a) && WritesOk(s) && RowsTraceable(s)
    ensures RowsTraceable(Step(s, a))
  {
    var s' := Step(s, a);
    if a.Own? { assert WriteOk(s, a.w); }
    forall table: Table, r: Row | r in Rows(s'.store, table)
      ensures r.job.table == table && RowOk(r, r.job)
      ensures r.job.id < |s'.writes| && s'.writes[r.job.id].job == r.job
    {
      if r !in Rows(s.store, table) {
        assert a.Own? && TakesEffect(a.stmt);
      }
    }
  }

  lemma NoRowsOfNewWrite(s: State, table: Table)
    requires RowsTraceable(s)
    ensures Count(Rows(s.store, table), FromWrite(|s.writes|)) == 0
  {
    CountPositive(Rows(s.store, table), FromWrite(|s.writes|));
  }

  lemma CommitAddsItsRow(store: Store, job: Job, txn: Txn, table: Table)
    requires TxnOk(store, job, txn) && txn.phase == Counted
    ensures Rows(Commit(store, job, txn), table)
         == Rows(store, table) + if table == job.table then [txn.row.value] else []
  {
  }

  lemma CommittedByEffect(store: Store, w: Write, stmt: Stmt)
    requires Ready(store, w, stmt)
    ensures Committed(Advance(store, w, stmt)) <==> Committed(w) || TakesEffect(stmt)
    ensures TakesEffect(stmt) ==> !Committed(w)
  {
  }

  lemma EffectKeepsExactlyOnce(store: Store, w: Write, stmt: Stmt, i: nat, other: Write)
    requires Ready(store, w, stmt) && TakesEffect(stmt) && TxnOk(store, w.job, w.progress.txn)
    requires OneRowIffCommitted(store, i, other) && i != w.job.id
    ensures OneRowIffCommitted(StoreAfter(store, w, stmt), i, other)
  {
    CommitAddsItsRow(store, w.job, w.progress.txn, other.job.table);
    CountAppend(Rows(store, other.job.table), w.progress.txn.row.value, FromWrite(i));
  }

  lemma EffectAddsOwnRow(store: Store, w: Write, stmt: Stmt)
    requires Ready(store, w, stmt) && TakesEffect(stmt) && TxnOk(store, w.job, w.progress.txn)
    requires OneRowIffCommitted(store, w.job.id, w)
    ensures OneRowIffCommitted(StoreAfter(store, w, stmt), w.job.id, Advance(store, w, stmt))
  {
    CommittedByEffect(store, w, stmt);
    CommitAddsItsRow(store, w.job, w.progress.txn, w.job.table);
    CountAppend(Rows(store, w.job.table), w.progress.txn.row.value, FromWrite(w.job.id));
  }

  lemma OwnStepKeepsExactlyOnce(store: Store, w: Write, stmt: Stmt, i: nat, other: Write)
    requires Ready(store, w, stmt) && (w.progress.Running? ==> TxnOk(store, w.job, w.progress.txn))
    requires OneRowIffCommitted(store, i, other)
    requires i == w.job.id ==> other == w
    ensures OneRowIffCommitted(StoreAfter(store, w, stmt), i, if i == w.job.id then Advance(store, w, stmt) else other)
  {
    if !TakesEffect(stmt) {
      CommittedByEffect(store, w, stmt);
    } else if i == w.job.id {
      EffectAddsOwnRow(store, w, stmt);
    } else {
      EffectKeepsExactlyOnce(store, w, stmt, i, other);
    }
  }

  lemma SpawnKeepsExactlyOnce(s: State, a: Action)
    requires Enabled(s, a) && !a.Own? && RowsTraceable(s) && ExactlyOnce(s)
    ensures ExactlyOnce(Step(s, a))
  {
    var s' := Step(s, a);
    assert s'.store == s.store;
    NoRowsOfNewWrite(s, Events);
    NoRowsOfNewWrite(s, Regional);
    forall i: nat | i < |s'.writes| ensures OneRowIffCommitted(s'.store, i, s'.writes[i]) {
      if i < |s.writes| {
        assert OneRowIffCommitted(s.store, i, s.writes[i]) && s'.writes[i] == s.writes[i];
      } else {
        assert i == |s.writes| && !Committed(s'.writes[i]);
      }
    }
  }

  lemma StepKeepsExactlyOnce(s: State, a: Action)
    requires Enabled(s, a) && WritesOk(s) && RowsTraceable(s) && ExactlyOnce(s)
    ensures ExactlyOnce(Step(s, a))
  {
    var s' := Step(s, a);
    if a.Own? {
      assert WriteOk(s, a.w);
      forall i: nat | i < |s'.writes| ensures OneRowIffCommitted(s'.store, i, s'.writes[i]) {
        assert WriteOk(s, i);
        OwnStepKeepsExactlyOnce(s.store, s.writes[a.w], a.stmt, i, s.writes[i]);
      }
    } else {
      SpawnKeepsExactlyOnce(s, a);
    }
  }

  lemma OwnStepOutcomes(s: State, a: Action, l: Label)
    requires Enabled(s, a) && MetricsOk(s) && a.Own?
    ensures var s' := Step(s, a);
      && Value(s'.metrics.total, l) == Count(s'.writes, RecordedUnder(l, true))
      && Value(s'.metrics.errors, l) == Count(s'.writes, RecordedUnder(l, false))
  {
    var w' := Advance(s.store, s.writes[a.w], a.stmt);
    CountUpdate(s.writes, a.w, w', RecordedUnder(l, true));
    CountUpdate(s.writes, a.w, w', RecordedUnder(l, false));
  }

  lemma OwnStepRetries(s: State, a: Action, l: Label)
    requires Enabled(s, a) && MetricsOk(s) && a.Own?
    ensures var s' := Step(s, a);
      Value(s'.metrics.retries, l) == Sum(s'.writes, AttemptsUnder(l)) - Count(s'.writes, StartedUnder(l))
  {
    var w' := Advance(s.store, s.writes[a.w], a.stmt);
    CountUpdate(s.writes, a.w, w', StartedUnder(l));
    SumUpdate(s.writes, a.w, w', AttemptsUnder(l));
  }

  lemma EffectAddsOneLabelledRow(store: Store, w: Write, stmt: Stmt, l: Label)
    requires Ready(store, w, stmt) && (w.progress.Running? ==> TxnOk(store, w.job, w.progress.txn))
    ensures CommittedRows(StoreAfter(store, w, stmt), l)
         == CommittedRows(store, l) + if TakesEffect(stmt) && LabelOf(w.job) == l then 1 else 0
  {
    if TakesEffect(stmt) {
      CommitAddsItsRow(store, w.job, w.progress.txn, Events);
      CommitAddsItsRow(store, w.job, w.progress.txn, Regional);
      CountAppend(Rows(store, w.job.table), w.progress.txn.row.value, RowUnder(l));
    }
  }

  lemma OwnStepCommits(s: State, a: Action, l: Label)
    requires Enabled(s, a) && WritesOk(s) && MetricsOk(s) && a.Own?
    ensures var s' := Step(s, a);
      CommittedRows(s'.store, l) == Count(s'.writes, CommittedUnder(l))
  {
    var w := s.writes[a.w];
    assert WriteOk(s, a.w);
    CountUpdate(s.writes, a.w, Advance(s.store, w, a.stmt), CommittedUnder(l));
    EffectAddsOneLabelledRow(s.store, w, a.stmt, l);
  }

  lemma NewWriteMetrics(s: State, a: Action, l: Label)
    requires Enabled(s, a) && MetricsOk(s) && !a.Own?
    ensures var s' := Step(s, a);
      && Value(s'.metrics.total, l) == Count(s'.writes, RecordedUnder(l, true))
      && Value(s'.metrics.errors, l) == Count(s'.writes, RecordedUnder(l, false))
      && Value(s'.metrics.retries, l) == Sum(s'.writes, AttemptsUnder(l)) - Count(s'.writes, StartedUnder(l))
      && CommittedRows(s'.store, l) == Count(s'.writes, CommittedUnder(l))
  {
    if !a.StartRound? {
      var w := Step(s, a).writes[|s.writes|];
      CountAppend(s.writes, w, RecordedUnder(l, true));
      CountAppend(s.writes, w, RecordedUnder(l, false));
      CountAppend(s.writes, w, CommittedUnder(l));
      CountAppend(s.writes, w, StartedUnder(l));
      SumAppend(s.writes, w, AttemptsUnder(l));
    }
  }

  lemma StepKeepsMetrics(s: State, a: Action)
    requires Enabled(s, a) && WritesOk(s) && MetricsOk(s)
    ensures MetricsOk(Step(s, a))
  {
    var s' := Step(s, a);
    forall l: Label
      ensures
        && Value(s'.metrics.total, l) == Count(s'.writes, RecordedUnder(l, true))
        && Value(s'.metrics.errors, l) == Count(s'.writes, RecordedUnder(l, false))
        && Value(s'.metrics.retries, l) == Sum(s'.writes, AttemptsUnder(l)) - Count(s'.writes, StartedUnder(l))
        && CommittedRows(s'.store, l) == Count(s'.writes, CommittedUnder(l))
    {
      if a.Own? {
        OwnStepOutcomes(s, a, l);
        OwnStepRetries(s, a, l);
        OwnStepCommits(s, a, l);
      } else {
        NewWriteMetrics(s, a, l);
      }
    }
  }

  lemma OwnStepKeepsPairing(s: State, a: Action, qos: string)
    requires Enabled(s, a) && RoundsPaired(s) && a.Own?
    ensures Paired(Step(s, a), qos)
  {
    var w' := Advance(s.store, s.writes[a.w], a.stmt);
    assert Paired(s, qos);
    CountUpdate(s.writes, a.w, w', OfTier(Events, qos));
    CountUpdate(s.writes, a.w, w', OfTier(Regional, qos));
  }

  lemma SpawnKeepsPairing(s: State, a: Action, qos: string)
    requires Enabled(s, a) && RoundsPaired(s) && !a.Own?
    ensures Paired(Step(s, a), qos)
  {
    var s' := Step(s, a);
    assert Paired(s, qos);
    if a.StartRound? {
      CountAppend(s.rounds, s'.rounds[|s.rounds|], HalfSpawned(qos));
    } else {
      CountAppend(s.writes, s'.writes[|s.writes|], OfTier(Events, qos));
      CountAppend(s.writes, s'.writes[|s.writes|], OfTier(Regional, qos));
      CountUpdate(s.rounds, a.round, s'.rounds[a.round], HalfSpawned(qos));
    }
  }

  lemma StepKeepsPairing(s: State, a: Action)
    requires Enabled(s, a) && RoundsPaired(s)
    ensures RoundsPaired(Step(s, a))
  {
    forall qos: string ensures Paired(Step(s, a), qos) {
      if a.Own? { OwnStepKeepsPairing(s, a, qos); } else { SpawnKeepsPairing(s, a, qos); }
    }
  }

  lemma OtherWriteSpawned(writes: seq<Write>, w: Write, r: nat, round: Round)
    requires RoundSpawned(writes, r, round) && w.job.round != r
    ensures RoundSpawned(writes + [w], r, round)
  {
    CountAppend(writes, w, OfRound(r, Events));
    CountAppend(writes, w, OfRound(r, Regional));
  }

  lemma GlobalWriteSpawned(writes: seq<Write>, w: Write, r: nat, round: Round, t: Tenant)
    requires RoundSpawned(writes, r, round) && round.pending.None?
    requires w.job.round == r && w.job.table == Events
    ensures RoundSpawned(writes + [w], r, round.(pending := Some(t)))
  {
    CountAppend(writes, w, OfRound(r, Events));
    CountAppend(writes, w, OfRound(r, Regional));
  }

  lemma RegionalWriteSpawned(writes: seq<Write>, w: Write, r: nat, round: Round)
    requires RoundSpawned(writes, r, round) && round.pending.Some? && round.remaining > 0
    requires w.job.round == r && w.job.table == Regional
    ensures RoundSpawned(writes + [w], r, round.(remaining := round.remaining - 1, pending := None))
  {
    CountAppend(writes, w, OfRound(r, Events));
    CountAppend(writes, w, OfRound(r, Regional));
  }

  lemma SpawnKeepsSpawned(s: State, a: Action)
    requires Enabled(s, a) && RoundsSpawned(s) && (a.SpawnGlobal? || a.SpawnRegional?)
    ensures RoundsSpawned(Step(s, a))
  {
    var s' := Step(s, a);
    var w := s'.writes[|s.writes|];
    assert s'.writes == s.writes + [w];
    forall r | 0 <= r < |s'.rounds| ensures RoundSpawned(s'.writes, r, s'.rounds[r]) {
      assert RoundSpawned(s.writes, r, s.rounds[r]);
      if r != a.round {
        OtherWriteSpawned(s.writes, w, r, s.rounds[r]);
      } else if a.SpawnGlobal? {
        GlobalWriteSpawned(s.writes, w, r, s.rounds[r], s.pool[a.pick]);
      } else {
        RegionalWriteSpawned(s.writes, w, r, s.rounds[r]);
      }
    }
  }

  lemma NewRoundSpawned(s: State, batch: int)
    requires RoundsSpawned(s)
    ensures RoundsSpawned(Step(s, StartRound(batch)))
  {
    CountPositive(s.writes, OfRound(|s.rounds|, Events));
    CountPositive(s.writes, OfRound(|s.rounds|, Regional));
  }

  lemma OwnStepKeepsSpawned(s: State, a: Action)
    requires Enabled(s, a) && RoundsSpawned(s) && a.Own?
    ensures RoundsSpawned(Step(s, a))
  {
    var w' := Advance(s.store, s.writes[a.w], a.stmt);
    forall r | 0 <= r < |s.rounds| ensures RoundSpawned(s.writes[a.w := w'], r, s.rounds[r]) {
      assert RoundSpawned(s.writes, r, s.rounds[r]);
      CountUpdate(s.writes, a.w, w', OfRound(r, Events));
      CountUpdate(s.writes, a.w, w', OfRound(r, Regional));
    }
  }

  lemma StepKeepsSpawned(s: State, a: Action)
    requires Enabled(s, a) && RoundsSpawned(s)
    ensures RoundsSpawned(Step(s, a))
  {
    match a
    case StartRound(batch) => NewRoundSpawned(s, batch);
    case SpawnGlobal(_, _) => SpawnKeepsSpawned(s, a);
    case SpawnRegional(_) => SpawnKeepsSpawned(s, a);
    case Own(_, _) => OwnStepKeepsSpawned(s, a);
  }

  /** Every step of every write keeps the whole invariant. */
  lemma StepKeepsInv(s: State, a: Action)
    requires Inv(s)
    ensures Inv(Apply(s, a))
  {
    if Enabled(s, a) {
      StepKeepsWrites(s, a);
      StepKeepsCounters(s, a);
      StepKeepsTraceable(s, a);
      StepKeepsExactlyOnce(s, a);
      StepKeepsMetrics(s, a);
      StepKeepsPairing(s, a);
      StepKeepsSpawned(s, a);
    }
  }

  lemma {:induction false} InvAlways(pool: seq<Tenant>, trace: seq<Action>)
    ensures Inv(Run(Init(pool), trace))
    ensures Run(Init(pool), trace).pool == pool
  {
    if trace != [] {
      var n := |trace| - 1;
      InvAlways(pool, trace[..n]);
      StepKeepsInv(Run(Init(pool), trace[..n]), trace[n]);
    }
  }
}
