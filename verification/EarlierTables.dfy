/** Runs that start on tables an earlier process left behind. Such a run is the run from freshly
    migrated tables, action by action, on top of what was there. */
module EarlierTables {
  import opened Sequences
  import opened Store
  import opened WritePath

  /** The migrations have run: the four counter rows exist, whatever they hold. */
  ghost predicate Migrated(st: Store) {
    forall k :: k in st.counters <==> k in TARGETS
  }

  function Left(st: Store, target: string): Counter {
    if target in st.counters then st.counters[target] else Counter(0, 0)
  }

  function OnTop(st: Store, s: Store): Store {
    Store(st.events + s.events, st.regional + s.regional,
          map k | k in s.counters :: Counter(Left(st, k).cnt + s.counters[k].cnt, Left(st, k).version + s.counters[k].version))
  }

  function ReadOnTop(st: Store, target: string, read: Option<CounterRead>): Option<CounterRead> {
    match read
    case None => None
    case Some(r) => Some(CounterRead(Left(st, target).cnt + r.cnt, Left(st, target).version + r.version))
  }

  function WriteOnTop(st: Store, w: Write): Write {
    if w.progress.Running?
    then w.(progress := Running(w.progress.txn.(read := ReadOnTop(st, w.job.target, w.progress.txn.read))))
    else w
  }

  function WritesOnTop(st: Store, writes: seq<Write>): (above: seq<Write>)
    ensures |above| == |writes|
    ensures forall i :: 0 <= i < |writes| ==> above[i] == WriteOnTop(st, writes[i])
  {
    seq(|writes|, i requires 0 <= i < |writes| => WriteOnTop(st, writes[i]))
  }

  function StateOnTop(st: Store, s: State): State {
    s.(store := OnTop(st, s.store), writes := WritesOnTop(st, s.writes))
  }

  lemma ReadyOnTop(st: Store, s: Store, w: Write, stmt: Stmt)
    ensures Ready(OnTop(st, s), WriteOnTop(st, w), stmt) <==> Ready(s, w, stmt)
  {
  }

  lemma AddRowOnTop(st: Store, s: Store, row: Row)
    ensures AddRow(OnTop(st, s), row) == OnTop(st, AddRow(s, row))
  {
  }

  lemma CounterOnTop(st: Store, s: Store, target: string, r: CounterRead)
    requires target in s.counters
    ensures var above := Left(st, target);
      OnTop(st, s).counters[target := Counter(above.cnt + r.cnt + 1, above.version + r.version + 1)]
      == OnTop(st, s.(counters := s.counters[target := Counter(r.cnt + 1, r.version + 1)])).counters
  {
  }

  lemma CommitOnTop(st: Store, s: Store, job: Job, txn: Txn)
    requires StillCurrent(s, job, txn)
    ensures Commit(OnTop(st, s), job, txn.(read := ReadOnTop(st, job.target, txn.read))) == OnTop(st, Commit(s, job, txn))
  {
    if txn.row.Some? { AddRowOnTop(st, s, txn.row.value); }
    if txn.read.Some? { CounterOnTop(st, s, job.target, txn.read.value); }
  }

  lemma AdvanceOnTop(st: Store, s: Store, w: Write, stmt: Stmt)
    requires Ready(s, w, stmt) && Ready(OnTop(st, s), WriteOnTop(st, w), stmt)
    ensures Advance(OnTop(st, s), WriteOnTop(st, w), stmt) == WriteOnTop(st, Advance(s, w, stmt))
  {
  }

  lemma OwnStepOnTop(st: Store, s: State, a: Action)
    requires a.Own? && Enabled(s, a)
    ensures Enabled(StateOnTop(st, s), a) && Step(StateOnTop(st, s), a) == StateOnTop(st, Step(s, a))
  {
    var w := s.writes[a.w];
    ReadyOnTop(st, s.store, w, a.stmt);
    AdvanceOnTop(st, s.store, w, a.stmt);
    if TakesEffect(a.stmt) { CommitOnTop(st, s.store, w.job, w.progress.txn); }
    var above, after := Step(StateOnTop(st, s), a), Step(s, a);
    assert above.writes == WritesOnTop(st, after.writes);
  }

  lemma SpawnOnTop(st: Store, s: State, a: Action)
    requires !a.Own? && Enabled(s, a)
    ensures Enabled(StateOnTop(st, s), a) && Step(StateOnTop(st, s), a) == StateOnTop(st, Step(s, a))
  {
    assert Step(StateOnTop(st, s), a).writes == WritesOnTop(st, Step(s, a).writes);
  }

  lemma StepOnTop(st: Store, s: State, a: Action)
    ensures Apply(StateOnTop(st, s), a) == StateOnTop(st, Apply(s, a))
  {
    if Enabled(s, a) {
      if a.Own? { OwnStepOnTop(st, s, a); } else { SpawnOnTop(st, s, a); }
    } else if a.Own? && a.w < |s.writes| {
      ReadyOnTop(st, s.store, s.writes[a.w], a.stmt);
    }
  }

  /** A run on tables left by an earlier process is the run from freshly migrated tables on top of
      them: same writes, outcomes, rounds and metrics, the old rows followed by the new ones, and
      every counter ahead by what it held at the start. */
  lemma {:induction false} RunOnTop(pool: seq<Tenant>, st: Store, trace: seq<Action>)
    requires Migrated(st)
    ensures Run(Start(pool, st), trace) == StateOnTop(st, Run(Init(pool), trace))
  {
    if trace == [] {
      assert OnTop(st, EmptyStore()).counters == st.counters;
      assert WritesOnTop(st, []) == [];
    } else {
      var n := |trace| - 1;
      RunOnTop(pool, st, trace[..n]);
      StepOnTop(st, Run(Init(pool), trace[..n]), trace[n]);
    }
  }
}
