/** The goroutines of the runner. Each method is one of them, executed step by step while any
    other actions of the process are interleaved before every step. The process keeps its own
    history, so whatever holds of every run holds of the state each method leaves behind. */
module Runner {
  import opened Sequences
  import opened Store
  import opened WritePath
  import opened WritePathProofs
  import opened WritePathTheorems

  /** Where an attempt goes wrong, if it does, and whether the error is a retryable one. */
  datatype Fault =
    | NoFault
    | AtContext(retryable: bool)
    | AtInsert(retryable: bool)
    | AtCounter(retryable: bool)
    | AtRelease(retryable: bool, unseen: bool)

  datatype Outcome = Success | Retry | Failure

  /** The library starts over after a retryable error, unless the commit may have gone through. */
  predicate Retryable(f: Fault) {
    match f
    case NoFault => false
    case AtContext(r) => r
    case AtInsert(r) => r
    case AtCounter(r) => r
    case AtRelease(r, unseen) => r && !unseen
  }

  predicate GivesUp(f: Fault) { f != NoFault && !Retryable(f) }

  /** In full: which errors start the transaction over and which end it. */
  lemma RetriesInFull(f: Fault)
    ensures Retryable(f) <==> f in {AtContext(true), AtInsert(true), AtCounter(true), AtRelease(true, false)}
    ensures GivesUp(f) <==>
      f in {AtContext(false), AtInsert(false), AtCounter(false), AtRelease(false, false), AtRelease(false, true), AtRelease(true, true)}
  {
  }

  class Process {
    const pool: seq<Tenant>
    /** What everyone else does before the n-th step taken here. */
    const others: nat -> seq<Action>
    var now: nat
    var state: State
    ghost var history: seq<Action>

    constructor (pool: seq<Tenant>, others: nat -> seq<Action>)
      ensures Valid() && history == [] && this.pool == pool && this.others == others
    {
      this.pool := pool;
      this.others := others;
      this.now := 0;
      this.state := Init(pool);
      this.history := [];
    }

    ghost predicate Valid()
      reads this
    {
      state == Run(Init(pool), history)
    }

    method Do(a: Action)
      requires Valid()
      modifies this
      ensures Valid() && history == old(history) + [a] && now == old(now)
      ensures state == Apply(old(state), a)
    {
      RunAppend(Init(pool), history, a);
      state := Apply(state, a);
      history := history + [a];
    }

    /** Lets the rest of the process run. */
    method Interleave()
      requires Valid()
      modifies this
      ensures Valid() && old(history) <= history
      ensures state == Run(old(state), others(old(now))) && now == old(now) + 1
    {
      var steps := others(now);
      var i := 0;
      while i < |steps|
        invariant 0 <= i <= |steps| && now == old(now)
        invariant Valid() && old(history) <= history
        invariant state == Run(old(state), steps[..i])
      {
        RunAppend(old(state), steps[..i], steps[i]);
        assert steps[..i] + [steps[i]] == steps[..i + 1];
        Do(steps[i]);
        i := i + 1;
      }
      assert steps[..i] == steps;
      now := now + 1;
    }
  }

  ghost predicate LeavesWriteAlone(p: Process, w: nat) {
    forall k: nat, a: Action :: a in p.others(k) ==> !(a.Own? && a.w == w)
  }

  ghost predicate LeavesRoundAlone(p: Process, r: nat) {
    forall k: nat, a: Action :: a in p.others(k) ==> !((a.SpawnGlobal? || a.SpawnRegional?) && a.round == r)
  }

  lemma {:induction false} OthersLeaveWrite(s: State, steps: seq<Action>, w: nat)
    requires w < |s.writes|
    requires forall a :: a in steps ==> !(a.Own? && a.w == w)
    ensures w < |Run(s, steps).writes| && Run(s, steps).writes[w] == s.writes[w]
  {
    if steps != [] {
      var n := |steps| - 1;
      OthersLeaveWrite(s, steps[..n], w);
      assert steps[n] in steps;
    }
  }

  lemma {:induction false} OthersLeaveRound(s: State, steps: seq<Action>, r: nat)
    requires r < |s.rounds|
    requires forall a :: a in steps ==> !((a.SpawnGlobal? || a.SpawnRegional?) && a.round == r)
    ensures r < |Run(s, steps).rounds| && Run(s, steps).rounds[r] == s.rounds[r]
    ensures Run(s, steps).pool == s.pool
  {
    if steps != [] {
      var n := |steps| - 1;
      OthersLeaveRound(s, steps[..n], r);
      assert steps[n] in steps;
    }
  }

  /** One statement of write w, after whatever the others do first. It reports whether the
      store let the statement through. */
  method Execute(p: Process, w: nat, stmt: Stmt) returns (done: bool, ghost at: Store)
    requires p.Valid() && w < |p.state.writes| && LeavesWriteAlone(p, w)
    requires InOrder(p.state.writes[w], stmt)
    modifies p
    ensures p.Valid() && old(p.history) <= p.history
    ensures w < |p.state.writes| && p.state.writes[w].job == old(p.state.writes[w].job)
    ensures !TakesEffect(stmt) ==> done
    ensures !done ==> p.state.writes[w] == old(p.state.writes[w]) && p.state.store == at
    ensures !done ==> !Ready(at, old(p.state.writes[w]), stmt)
    ensures VersionsGrow(old(p.state.store), at) && VersionsGrow(at, p.state.store)
    ensures at.counters.Keys == p.state.store.counters.Keys == old(p.state.store.counters.Keys)
    ensures done ==>
      Ready(at, old(p.state.writes[w]), stmt) && p.state.writes[w] == Advance(at, old(p.state.writes[w]), stmt)
  {
    OthersLeaveWrite(p.state, p.others(p.now), w);
    RunVersionsGrow(p.state, p.others(p.now));
    p.Interleave();
    at := p.state.store;
    StepVersionsGrow(p.state, Own(w, stmt));
    done := Ready(p.state.store, p.state.writes[w], stmt);
    if done { p.Do(Own(w, stmt)); }
  }

  /** After an error the library either rolls back to the savepoint or gives up. */
  method Recover(p: Process, w: nat, retryable: bool) returns (outcome: Outcome)
    requires p.Valid() && w < |p.state.writes| && LeavesWriteAlone(p, w)
    requires p.state.writes[w].progress.Running? && p.state.writes[w].progress.txn.phase != Idle
    modifies p
    ensures p.Valid() && old(p.history) <= p.history
    ensures w < |p.state.writes| && p.state.writes[w].job == old(p.state.writes[w].job)
    ensures p.state.writes[w].attempts == old(p.state.writes[w].attempts)
    ensures VersionsGrow(old(p.state.store), p.state.store)
    ensures outcome == if retryable then Retry else Failure
    ensures p.state.writes[w].progress == if retryable then Running(IDLE) else Returned(false, false)
  {
    var done, at := Execute(p, w, if retryable then Restart else Abort);
    outcome := if retryable then Retry else Failure;
  }

  /** What the update read was current at some moment between the two stores. */
  ghost predicate ReadSince(before: Store, after: Store, target: string, read: Option<CounterRead>) {
    read.Some? ==>
      && target in before.counters && target in after.counters
      && before.counters[target].version <= read.value.version <= after.counters[target].version
  }

  /** The row a write inserts: its tenant's id and home region, at the time of the insert. */
  function RowOf(job: Job, now: int): Row { Row(job.tenant.id, job.tenant.homeRegion, now, job) }

  /** The statements of an attempt after its context: insert, then count. */
  method InsertAndCount(p: Process, w: nat, fault: Fault) returns (outcome: Outcome)
    requires p.Valid() && w < |p.state.writes| && LeavesWriteAlone(p, w)
    requires InOrder(p.state.writes[w], InsertRow(p.now))
    modifies p
    ensures p.Valid() && old(p.history) <= p.history
    ensures w < |p.state.writes| && p.state.writes[w].job == old(p.state.writes[w].job)
    ensures p.state.writes[w].attempts == old(p.state.writes[w].attempts)
    ensures match outcome
      case Success =>
        InPhase(p.state.writes[w], Counted) && !fault.AtCounter?
        && p.state.writes[w].progress.txn.row == Some(RowOf(old(p.state.writes[w].job), old(p.now)))
        && ReadSince(old(p.state.store), p.state.store, p.state.writes[w].job.target, p.state.writes[w].progress.txn.read)
      case Retry => p.state.writes[w].progress == Running(IDLE) && fault.AtCounter? && fault.retryable
      case Failure => p.state.writes[w].progress == Returned(false, false) && fault.AtCounter? && !fault.retryable
  {
    var done, at := Execute(p, w, InsertRow(p.now));
    if fault.AtCounter? { outcome := Recover(p, w, fault.retryable); return; }
    done, at := Execute(p, w, IncrementCounter);
    outcome := Success;
  }

  lemma ReadSinceEarlier(before: Store, mid: Store, after: Store, target: string, read: Option<CounterRead>)
    requires VersionsGrow(before, mid) && before.counters.Keys == mid.counters.Keys && ReadSince(mid, after, target, read)
    ensures ReadSince(before, after, target, read)
  {
  }

  /** The closure is called and sets the tenant context. */
  method EnterContext(p: Process, w: nat, fault: Fault) returns (outcome: Outcome)
    requires p.Valid() && w < |p.state.writes| && LeavesWriteAlone(p, w)
    requires p.state.writes[w].progress == Running(IDLE)
    modifies p
    ensures p.Valid() && old(p.history) <= p.history && VersionsGrow(old(p.state.store), p.state.store)
    ensures w < |p.state.writes| && p.state.writes[w].job == old(p.state.writes[w].job)
    ensures p.state.writes[w].attempts == old(p.state.writes[w].attempts) + 1
    ensures match outcome
      case Success =>
        InPhase(p.state.writes[w], ContextSet) && !fault.AtContext?
        && old(p.state.store.counters.Keys) == p.state.store.counters.Keys
        && p.state.writes[w].progress.txn.setting == Some(p.state.writes[w].job.tenant.id)
      case Retry => p.state.writes[w].progress == Running(IDLE) && fault.AtContext? && fault.retryable
      case Failure => p.state.writes[w].progress == Returned(false, false) && fault.AtContext? && !fault.retryable
  {
    var done, at := Execute(p, w, EnterAttempt);
    if fault.AtContext? { outcome := Recover(p, w, fault.retryable); return; }
    done, at := Execute(p, w, SetContext);
    outcome := Success;
  }

  /** The retry closure of tenantInsert. */
  method Closure(p: Process, w: nat, fault: Fault) returns (outcome: Outcome)
    requires p.Valid() && w < |p.state.writes| && LeavesWriteAlone(p, w)
    requires p.state.writes[w].progress == Running(IDLE)
    modifies p
    ensures p.Valid() && old(p.history) <= p.history
    ensures w < |p.state.writes| && p.state.writes[w].job == old(p.state.writes[w].job)
    ensures p.state.writes[w].attempts == old(p.state.writes[w].attempts) + 1
    ensures match outcome
      case Success =>
        InPhase(p.state.writes[w], Counted) && (fault.NoFault? || fault.AtRelease?)
        && ReadSince(old(p.state.store), p.state.store, p.state.writes[w].job.target, p.state.writes[w].progress.txn.read)
      case Retry => p.state.writes[w].progress == Running(IDLE) && !fault.AtRelease? && Retryable(fault)
      case Failure => p.state.writes[w].progress == Returned(false, false) && !fault.AtRelease? && GivesUp(fault)
  {
    outcome := EnterContext(p, w, fault);
    if outcome != Success { return; }
    if fault.AtInsert? { outcome := Recover(p, w, fault.retryable); return; }
    ghost var mid := p.state.store;
    outcome := InsertAndCount(p, w, fault);
    if outcome == Success {
      ReadSinceEarlier(old(p.state.store), mid, p.state.store, p.state.writes[w].job.target, p.state.writes[w].progress.txn.read);
    }
  }

  /** The closure followed by RELEASE SAVEPOINT, which is where the transaction commits. It restarts
      after a retryable error, or because another write committed to the same counter meanwhile. */
  method Attempt(p: Process, w: nat, fault: Fault) returns (outcome: Outcome)
    requires p.Valid() && w < |p.state.writes| && LeavesWriteAlone(p, w)
    requires p.state.writes[w].progress == Running(IDLE)
    modifies p
    ensures p.Valid() && old(p.history) <= p.history
    ensures w < |p.state.writes| && p.state.writes[w].job == old(p.state.writes[w].job)
    ensures p.state.writes[w].attempts == old(p.state.writes[w].attempts) + 1
    ensures match outcome
      case Success => p.state.writes[w].progress == Returned(true, true) && fault == NoFault
      case Retry =>
        p.state.writes[w].progress == Running(IDLE)
        && (Retryable(fault) || CounterMoved(old(p.state.store), p.state.store, p.state.writes[w].job.target))
      case Failure =>
        p.state.writes[w].progress == Returned(false, fault.AtRelease? && fault.unseen) && GivesUp(fault)
  {
    outcome := Closure(p, w, fault);
    if outcome != Success { return; }
    if fault.AtRelease? && !fault.unseen { outcome := Recover(p, w, fault.retryable); return; }
    var done, at := Execute(p, w, if fault.AtRelease? then ReleaseUnseen else Release);
    if !done {
      outcome := Recover(p, w, true);   // the counter moved on: serialization failure
    } else {
      outcome := if fault.AtRelease? then Failure else Success;
    }
  }

  /** How the attempts on write w went: it was tried as long as there was a reason to. The last of
      them met no fault, if it succeeded; else either none was left or its error was final. Each one
      before had a retryable error, or another write got ahead of it on the same counter. */
  ghost predicate TriedSo(before: State, after: State, w: nat, begins: bool, plan: seq<Fault>, ok: bool)
    requires w < |after.writes|
  {
    var a := after.writes[w].attempts;
    && a <= (if begins then |plan| else 0)
    && (ok ==> a > 0 && plan[a - 1] == NoFault)
    && (!ok && begins ==> a == |plan| || (a > 0 && GivesUp(plan[a - 1])))
    && forall k :: 0 <= k < a && !(k == a - 1 && (ok || GivesUp(plan[k]))) ==>
         Retryable(plan[k]) || RivalCommitted(before, after, w, after.writes[w].job.target)
  }

  /** A first attempt without a fault is enough, unless another write got ahead of it. */
  lemma OneAttemptIsEnough(before: State, after: State, w: nat, plan: seq<Fault>, ok: bool)
    requires w < |after.writes| && TriedSo(before, after, w, true, plan, ok) && plan != [] && plan[0] == NoFault
    ensures (ok && after.writes[w].attempts == 1) || RivalCommitted(before, after, w, after.writes[w].job.target)
  {
  }

  lemma RetryHadARival(pool: seq<Tenant>, h1: seq<Action>, mid: seq<Action>, h2: seq<Action>, w: nat, target: string)
    requires h1 <= mid <= h2 && w < |Run(Init(pool), h2).writes| && !Committed(Run(Init(pool), h2).writes[w])
    requires CounterMoved(Run(Init(pool), mid).store, Run(Init(pool), h2).store, target)
    ensures target in Run(Init(pool), h1).store.counters ==> RivalCommitted(Run(Init(pool), h1), Run(Init(pool), h2), w, target)
  {
    PrefixGrows(pool, h1, mid);
    if target in Run(Init(pool), h1).store.counters { RivalBehindMove(pool, h1, h2, w, target); }
  }

  /** What the retry loop knows after some attempts. */
  ghost predicate LoopState(before: State, now: State, w: nat, plan: seq<Fault>, attempts: nat, outcome: Outcome)
    requires w < |now.writes| && attempts <= |plan|
  {
    var retried := if outcome == Retry then attempts else attempts - 1;
    && now.writes[w].attempts == attempts
    && (forall k :: 0 <= k < retried ==> Retryable(plan[k]) || RivalCommitted(before, now, w, now.writes[w].job.target))
    && match outcome
       case Success => now.writes[w].progress == Returned(true, true) && attempts > 0 && plan[attempts - 1] == NoFault
       case Retry => now.writes[w].progress == Running(IDLE)
       case Failure =>
         && attempts > 0 && GivesUp(plan[attempts - 1])
         && now.writes[w].progress == Returned(false, plan[attempts - 1].AtRelease? && plan[attempts - 1].unseen)
  }

  lemma SameCounters(pool: seq<Tenant>, h1: seq<Action>, h2: seq<Action>)
    ensures Run(Init(pool), h1).store.counters.Keys == Run(Init(pool), h2).store.counters.Keys
  {
    RunVersionsGrow(Init(pool), h1);
    RunVersionsGrow(Init(pool), h2);
  }

  /** One turn of the retry loop. */
  method NextAttempt(p: Process, w: nat, plan: seq<Fault>, attempts: nat, ghost h1: seq<Action>) returns (outcome: Outcome)
    requires p.Valid() && w < |p.state.writes| && LeavesWriteAlone(p, w) && attempts < |plan| && h1 <= p.history
    requires LoopState(Run(Init(p.pool), h1), p.state, w, plan, attempts, Retry)
    modifies p
    ensures p.Valid() && old(p.history) <= p.history
    ensures w < |p.state.writes| && p.state.writes[w].job == old(p.state.writes[w].job)
    ensures LoopState(Run(Init(p.pool), h1), p.state, w, plan, attempts + 1, outcome)
  {
    ghost var mid, target := p.history, p.state.writes[w].job.target;
    ghost var rival := RivalCommitted(Run(Init(p.pool), h1), p.state, w, target);
    outcome := Attempt(p, w, plan[attempts]);
    if rival { RivalStays(p.pool, h1, mid, p.history, w, target); }
    if outcome == Retry && !Retryable(plan[attempts]) {
      SameCounters(p.pool, h1, mid);
      RetryHadARival(p.pool, h1, mid, p.history, w, target);
    }
  }

  /** The context ended: no attempt is left, and the transaction is abandoned. */
  method GiveUp(p: Process, w: nat, plan: seq<Fault>, ghost h1: seq<Action>)
    requires p.Valid() && w < |p.state.writes| && LeavesWriteAlone(p, w) && h1 <= p.history
    requires LoopState(Run(Init(p.pool), h1), p.state, w, plan, |plan|, Retry)
    modifies p
    ensures p.Valid() && old(p.history) <= p.history
    ensures w < |p.state.writes| && p.state.writes[w].job == old(p.state.writes[w].job)
    ensures p.state.writes[w].progress == Returned(false, false)
    ensures TriedSo(Run(Init(p.pool), h1), p.state, w, true, plan, false)
  {
    ghost var mid, target := p.history, p.state.writes[w].job.target;
    ghost var rival := RivalCommitted(Run(Init(p.pool), h1), p.state, w, target);
    var gaveUp, at := Execute(p, w, Abort);
    if rival { RivalStays(p.pool, h1, mid, p.history, w, target); }
  }

  /** Attempts until one succeeds, an error is not retryable, or the plan runs out. */
  method RetryLoop(p: Process, w: nat, plan: seq<Fault>) returns (ok: bool)
    requires p.Valid() && w < |p.state.writes| && LeavesWriteAlone(p, w)
    requires p.state.writes[w].progress == Running(IDLE) && p.state.writes[w].attempts == 0
    modifies p
    ensures p.Valid() && old(p.history) <= p.history
    ensures w < |p.state.writes| && p.state.writes[w].job == old(p.state.writes[w].job)
    ensures TriedSo(old(p.state), p.state, w, true, plan, ok)
    ensures p.state.writes[w].progress.Returned? && p.state.writes[w].progress.ok == ok
    ensures ok ==> p.state.writes[w].progress.committed
    ensures p.state.writes[w].progress.committed ==> ok || exists i :: 0 <= i < |plan| && plan[i].AtRelease? && plan[i].unseen
  {
    ghost var h1 := p.history;
    var attempts := 0;
    var outcome := Retry;
    while attempts < |plan| && outcome == Retry
      invariant 0 <= attempts <= |plan|
      invariant p.Valid() && old(p.history) <= p.history
      invariant w < |p.state.writes| && p.state.writes[w].job == old(p.state.writes[w].job)
      invariant LoopState(Run(Init(p.pool), h1), p.state, w, plan, attempts, outcome)
    {
      outcome := NextAttempt(p, w, plan, attempts, h1);
      attempts := attempts + 1;
    }
    if outcome == Retry { GiveUp(p, w, plan, h1); }
    ok := outcome == Success;
  }

  lemma TriedFromEarlier(pool: seq<Tenant>, h0: seq<Action>, h1: seq<Action>, h2: seq<Action>, w: nat, plan: seq<Fault>, ok: bool)
    requires h0 <= h1 <= h2 && w < |Run(Init(pool), h2).writes|
    requires TriedSo(Run(Init(pool), h1), Run(Init(pool), h2), w, true, plan, ok)
    ensures TriedSo(Run(Init(pool), h0), Run(Init(pool), h2), w, true, plan, ok)
  {
    var s0, s1, s2 := Run(Init(pool), h0), Run(Init(pool), h1), Run(Init(pool), h2);
    var target := s2.writes[w].job.target;
    if RivalCommitted(s1, s2, w, target) {
      var v: nat :| v != w && NewlyCommitted(s1, s2, v) && s2.writes[v].job.target == target;
      if v < |s0.writes| && Committed(s0.writes[v]) { CommittedStays(pool, h0, h1, v); }
      assert NewlyCommitted(s0, s2, v);
    }
  }

  /** tenantInsert: attempts until one succeeds, an error is not retryable, or the context ends
      (the plan runs out). A nil error means exactly one durable row; an error means at most one. */
  method TenantInsert(p: Process, w: nat, begins: bool, plan: seq<Fault>) returns (ok: bool)
    requires p.Valid() && w < |p.state.writes| && LeavesWriteAlone(p, w)
    requires p.state.writes[w].progress.Queued?
    modifies p
    ensures p.Valid() && old(p.history) <= p.history
    ensures w < |p.state.writes| && p.state.writes[w].job == old(p.state.writes[w].job)
    ensures p.state.writes[w].progress.Returned? && p.state.writes[w].progress.ok == ok
    ensures TriedSo(old(p.state), p.state, w, begins, plan, ok)
    ensures begins && plan != [] && plan[0] == NoFault ==>
      (ok && p.state.writes[w].attempts == 1) || RivalCommitted(old(p.state), p.state, w, p.state.writes[w].job.target)
    ensures var rows := Count(Rows(p.state.store, p.state.writes[w].job.table), FromWrite(w));
      rows <= 1 && (ok ==> rows == 1)
    ensures (forall i :: 0 <= i < |plan| ==> !(plan[i].AtRelease? && plan[i].unseen)) ==>
      (ok <==> Count(Rows(p.state.store, p.state.writes[w].job.table), FromWrite(w)) == 1)
  {
    InvAlways(p.pool, p.history);
    assert WriteOk(p.state, w);
    ghost var h0 := p.history;
    if !begins {
      var gaveUp, at := Execute(p, w, Abort);
      ok := false;
    } else {
      var begun, at := Execute(p, w, Begin);
      ghost var h1 := p.history;
      ok := RetryLoop(p, w, plan);
      TriedFromEarlier(p.pool, h0, h1, p.history, w, plan, ok);
      if plan != [] && plan[0] == NoFault { OneAttemptIsEnough(old(p.state), p.state, w, plan, ok); }
    }
    InvAlways(p.pool, p.history);
    assert OneRowIffCommitted(p.state.store, w, p.state.writes[w]);
  }

  lemma ReportedRows(pool: seq<Tenant>, history: seq<Action>, w: nat)
    requires w < |Run(Init(pool), history).writes| && Run(Init(pool), history).writes[w].progress.Recorded?
    ensures var s := Run(Init(pool), history);
      var rows := Count(Rows(s.store, s.writes[w].job.table), FromWrite(w));
      rows <= 1 && (s.writes[w].progress.ok ==> rows == 1)
  {
    InvAlways(pool, history);
    var s := Run(Init(pool), history);
    assert WriteOk(s, w) && OneRowIffCommitted(s.store, w, s.writes[w]);
  }

  /** recordWrite: the outcome of the insert is counted once, as a success or as an error. */
  method RecordWrite(p: Process, w: nat, begins: bool, plan: seq<Fault>)
    requires p.Valid() && w < |p.state.writes| && LeavesWriteAlone(p, w)
    requires p.state.writes[w].progress.Queued?
    modifies p
    ensures p.Valid() && old(p.history) <= p.history
    ensures w < |p.state.writes| && p.state.writes[w].job == old(p.state.writes[w].job)
    ensures p.state.writes[w].progress.Recorded?
    ensures TriedSo(old(p.state), p.state, w, begins, plan, p.state.writes[w].progress.ok)
    ensures var rows := Count(Rows(p.state.store, p.state.writes[w].job.table), FromWrite(w));
      rows <= 1 && (p.state.writes[w].progress.ok ==> rows == 1)
  {
    ghost var h1, target := p.history, p.state.writes[w].job.target;
    var ok := TenantInsert(p, w, begins, plan);
    ghost var mid := p.history;
    ghost var rival := RivalCommitted(old(p.state), p.state, w, target);
    var recorded, at := Execute(p, w, Record);
    if rival { RivalStays(p.pool, h1, mid, p.history, w, target); }
    ReportedRows(p.pool, p.history, w);
  }

  /** The tenants of a round's writes to one table, in the order they were spawned. */
  function Drawn(writes: seq<Write>, r: nat, table: Table): seq<Tenant> {
    if writes == [] then []
    else
      var last := writes[|writes| - 1];
      Drawn(writes[..|writes| - 1], r, table) + if OfRound(r, table)(last) then [last.job.tenant] else []
  }

  lemma {:induction false} DrawnLength(writes: seq<Write>, r: nat, table: Table)
    ensures |Drawn(writes, r, table)| == Count(writes, OfRound(r, table))
  {
    if writes != [] { DrawnLength(writes[..|writes| - 1], r, table); }
  }

  lemma DrawnAppend(writes: seq<Write>, w: Write, r: nat, table: Table)
    ensures Drawn(writes + [w], r, table) == Drawn(writes, r, table) + if OfRound(r, table)(w) then [w.job.tenant] else []
  {
    assert (writes + [w])[..|writes|] == writes;
  }

  lemma {:induction false} DrawnSameJobs(writes: seq<Write>, w: nat, now: Write, r: nat, table: Table)
    requires w < |writes| && now.job == writes[w].job
    ensures Drawn(writes[w := now], r, table) == Drawn(writes, r, table)
  {
    var n := |writes| - 1;
    if w < n {
      DrawnSameJobs(writes[..n], w, now, r, table);
      assert writes[w := now][..n] == writes[..n][w := now];
    } else {
      assert writes[w := now][..n] == writes[..n];
    }
  }

  lemma StepLeavesDrawn(s: State, a: Action, r: nat, table: Table)
    requires !((a.SpawnGlobal? || a.SpawnRegional?) && a.round == r)
    ensures Drawn(Apply(s, a).writes, r, table) == Drawn(s.writes, r, table)
  {
    if Enabled(s, a) {
      match a
      case StartRound(_) =>
      case SpawnGlobal(_, _) => DrawnAppend(s.writes, Apply(s, a).writes[|s.writes|], r, table);
      case SpawnRegional(_) => DrawnAppend(s.writes, Apply(s, a).writes[|s.writes|], r, table);
      case Own(w, stmt) => DrawnSameJobs(s.writes, w, Advance(s.store, s.writes[w], stmt), r, table);
    }
  }

  lemma {:induction false} OthersLeaveDrawn(s: State, steps: seq<Action>, r: nat, table: Table)
    requires forall a :: a in steps ==> !((a.SpawnGlobal? || a.SpawnRegional?) && a.round == r)
    ensures Drawn(Run(s, steps).writes, r, table) == Drawn(s.writes, r, table)
  {
    if steps != [] {
      var n := |steps| - 1;
      OthersLeaveDrawn(s, steps[..n], r, table);
      assert steps[n] in steps;
      StepLeavesDrawn(Run(s, steps[..n]), steps[n], r, table);
    }
  }

  /** The tenants drawn for the first n items of a batch. */
  function Picks(pool: seq<Tenant>, pick: nat -> nat, n: nat): (picks: seq<Tenant>)
    requires forall k :: pick(k) < |pool|
    ensures |picks| == n
    ensures forall i :: 0 <= i < n ==> picks[i] == pool[pick(i)]
  {
    seq(n, i requires 0 <= i < n => pool[pick(i)])
  }

  /** The round's writes to the two tables so far are for these tenants. */
  ghost predicate HasSpawned(s: State, r: nat, global: seq<Tenant>, regional: seq<Tenant>) {
    Drawn(s.writes, r, Events) == global && Drawn(s.writes, r, Regional) == regional
  }

  lemma OthersKeepSpawned(s: State, steps: seq<Action>, r: nat)
    requires forall a :: a in steps ==> !((a.SpawnGlobal? || a.SpawnRegional?) && a.round == r)
    ensures HasSpawned(Run(s, steps), r, Drawn(s.writes, r, Events), Drawn(s.writes, r, Regional))
  {
    OthersLeaveDrawn(s, steps, r, Events);
    OthersLeaveDrawn(s, steps, r, Regional);
  }

  lemma SpawnDraws(s: State, a: Action, r: nat)
    requires Enabled(s, a) && (a == SpawnRegional(r) || (a.SpawnGlobal? && a.round == r))
    ensures var global, regional := Drawn(s.writes, r, Events), Drawn(s.writes, r, Regional);
      if a.SpawnGlobal? then HasSpawned(Step(s, a), r, global + [s.pool[a.pick]], regional)
      else HasSpawned(Step(s, a), r, global, regional + [s.rounds[r].pending.value])
  {
    DrawnAppend(s.writes, Step(s, a).writes[|s.writes|], r, Events);
    DrawnAppend(s.writes, Step(s, a).writes[|s.writes|], r, Regional);
  }

  /** Lets the others run between two statements of round r. */
  method InterleaveOutside(p: Process, r: nat)
    requires p.Valid() && r < |p.state.rounds| && LeavesRoundAlone(p, r)
    modifies p
    ensures p.Valid() && old(p.history) <= p.history && p.state.pool == old(p.state.pool)
    ensures r < |p.state.rounds| && p.state.rounds[r] == old(p.state.rounds[r])
    ensures HasSpawned(p.state, r, old(Drawn(p.state.writes, r, Events)), old(Drawn(p.state.writes, r, Regional)))
    ensures p.now == old(p.now) + 1
  {
    OthersLeaveRound(p.state, p.others(p.now), r);
    OthersKeepSpawned(p.state, p.others(p.now), r);
    p.Interleave();
  }

  function StillRunning(r: nat): Write -> bool {
    (w: Write) => w.job.round == r && !w.progress.Recorded?
  }

  /** wg.Wait: lets the others run until every write of the round is recorded. It may be cut
      short by the end of the process, but not before the others had as many turns as it is given. */
  method Wait(p: Process, r: nat, turns: nat) returns (finished: bool)
    requires p.Valid() && r < |p.state.rounds| && LeavesRoundAlone(p, r)
    modifies p
    ensures p.Valid() && old(p.history) <= p.history
    ensures r < |p.state.rounds| && p.state.rounds[r] == old(p.state.rounds[r])
    ensures HasSpawned(p.state, r, old(Drawn(p.state.writes, r, Events)), old(Drawn(p.state.writes, r, Regional)))
    ensures !finished ==> p.now == old(p.now) + turns
    ensures finished <==> forall w :: w in p.state.writes && w.job.round == r ==> w.progress.Recorded?
  {
    var i := 0;
    while i < turns
      invariant 0 <= i <= turns && p.now == old(p.now) + i
      invariant p.Valid() && old(p.history) <= p.history
      invariant r < |p.state.rounds| && p.state.rounds[r] == old(p.state.rounds[r])
      invariant HasSpawned(p.state, r, old(Drawn(p.state.writes, r, Events)), old(Drawn(p.state.writes, r, Regional)))
    {
      if Count(p.state.writes, StillRunning(r)) == 0 { break; }
      InterleaveOutside(p, r);
      i := i + 1;
    }
    CountPositive(p.state.writes, StillRunning(r));
    finished := Count(p.state.writes, StillRunning(r)) == 0;
    assert finished <==> forall w :: w in p.state.writes ==> !StillRunning(r)(w);
  }

  /** The drawn tenant's write to events. */
  method SpawnEventsWrite(p: Process, r: nat, pick: nat)
    requires p.Valid() && pick < |p.state.pool| && r < |p.state.rounds| && LeavesRoundAlone(p, r)
    requires p.state.rounds[r].remaining > 0 && p.state.rounds[r].pending.None?
    modifies p
    ensures p.Valid() && old(p.history) <= p.history && p.state.pool == old(p.state.pool)
    ensures r < |p.state.rounds| && p.state.rounds[r] == old(p.state.rounds[r]).(pending := Some(p.state.pool[pick]))
    ensures p.now == old(p.now) + 1
    ensures HasSpawned(p.state, r,
      old(Drawn(p.state.writes, r, Events)) + [p.state.pool[pick]], old(Drawn(p.state.writes, r, Regional)))
  {
    InterleaveOutside(p, r);
    SpawnDraws(p.state, SpawnGlobal(r, pick), r);
    p.Do(SpawnGlobal(r, pick));
  }

  /** The same tenant's regional write. */
  method SpawnRegionalWrite(p: Process, r: nat)
    requires p.Valid() && r < |p.state.rounds| && LeavesRoundAlone(p, r)
    requires p.state.rounds[r].remaining > 0 && p.state.rounds[r].pending.Some?
    modifies p
    ensures p.Valid() && old(p.history) <= p.history && p.state.pool == old(p.state.pool)
    ensures r < |p.state.rounds|
    ensures p.state.rounds[r] == old(p.state.rounds[r]).(remaining := old(p.state.rounds[r]).remaining - 1, pending := None)
    ensures p.now == old(p.now) + 1
    ensures HasSpawned(p.state, r,
      old(Drawn(p.state.writes, r, Events)), old(Drawn(p.state.writes, r, Regional)) + [old(p.state.rounds[r]).pending.value])
  {
    InterleaveOutside(p, r);
    SpawnDraws(p.state, SpawnRegional(r), r);
    p.Do(SpawnRegional(r));
  }

  /** One item of the batch. */
  method SpawnItem(p: Process, r: nat, pick: nat)
    requires p.Valid() && pick < |p.state.pool| && r < |p.state.rounds| && LeavesRoundAlone(p, r)
    requires p.state.rounds[r].remaining > 0 && p.state.rounds[r].pending.None?
    modifies p
    ensures p.Valid() && old(p.history) <= p.history && p.state.pool == old(p.state.pool)
    ensures r < |p.state.rounds| && p.state.rounds[r] == old(p.state.rounds[r]).(remaining := old(p.state.rounds[r]).remaining - 1)
    ensures p.now == old(p.now) + 2
    ensures HasSpawned(p.state, r,
      old(Drawn(p.state.writes, r, Events)) + [p.state.pool[pick]],
      old(Drawn(p.state.writes, r, Regional)) + [p.state.pool[pick]])
  {
    SpawnEventsWrite(p, r, pick);
    SpawnRegionalWrite(p, r);
  }

  lemma NewRoundIsEmpty(pool: seq<Tenant>, trace: seq<Action>, batch: int)
    ensures var s := Run(Init(pool), trace); HasSpawned(Apply(s, StartRound(batch)), |s.rounds|, [], [])
  {
    var s, r := Run(Init(pool), trace), |Run(Init(pool), trace).rounds|;
    var s' := Apply(s, StartRound(batch));
    RunAppend(Init(pool), trace, StartRound(batch));
    InvAlways(pool, trace + [StartRound(batch)]);
    assert RoundSpawned(s'.writes, r, s'.rounds[r]);
    DrawnLength(s'.writes, r, Events);
    DrawnLength(s'.writes, r, Regional);
  }

  lemma PicksGrow(pool: seq<Tenant>, pick: nat -> nat, n: nat)
    requires forall k :: pick(k) < |pool|
    ensures Picks(pool, pick, n + 1) == Picks(pool, pick, n) + [pool[pick(n)]]
  {
  }

  /** The loop of runWrites. */
  method SpawnAll(p: Process, r: nat, batch: int, pick: nat -> nat)
    requires p.Valid() && p.state.pool == p.pool && forall k :: pick(k) < |p.pool|
    requires r < |p.state.rounds| && LeavesRoundAlone(p, r)
    requires p.state.rounds[r] == NewRound(batch) && HasSpawned(p.state, r, [], [])
    modifies p
    ensures p.Valid() && old(p.history) <= p.history && p.state.pool == p.pool
    ensures p.now == old(p.now) + 2 * NewRound(batch).batch
    ensures r < |p.state.rounds| && p.state.rounds[r].remaining == 0 && p.state.rounds[r].pending.None?
    ensures var picks := Picks(p.pool, pick, NewRound(batch).batch); HasSpawned(p.state, r, picks, picks)
  {
    var i := 0;
    while i < batch
      invariant 0 <= i && (batch >= 0 ==> i <= batch)
      invariant p.Valid() && old(p.history) <= p.history && p.state.pool == p.pool
      invariant p.now == old(p.now) + 2 * i
      invariant r < |p.state.rounds| && p.state.rounds[r].pending.None?
      invariant p.state.rounds[r].remaining == NewRound(batch).batch - i
      invariant HasSpawned(p.state, r, Picks(p.pool, pick, i), Picks(p.pool, pick, i))
    {
      PicksGrow(p.pool, pick, i);
      SpawnItem(p, r, pick(i));
      i := i + 1;
    }
  }

  /** runWrites: for every item of the batch the drawn tenant gets one write to each table, and
      the round returns only when all of them have been recorded. */
  method RunWrites(p: Process, batch: int, pick: nat -> nat, turns: nat) returns (r: nat, finished: bool)
    requires p.Valid() && forall k :: pick(k) < |p.pool|
    requires LeavesRoundAlone(p, |p.state.rounds|)
    modifies p
    ensures p.Valid() && old(p.history) <= p.history
    ensures r == old(|p.state.rounds|) < |p.state.rounds|
    ensures p.state.rounds[r].remaining == 0 && p.state.rounds[r].pending.None?
    ensures var picks := Picks(p.pool, pick, if batch < 0 then 0 else batch); HasSpawned(p.state, r, picks, picks)
    ensures !finished ==> p.now == old(p.now) + 2 * (if batch < 0 then 0 else batch) + turns
    ensures finished <==> forall w :: w in p.state.writes && w.job.round == r ==> w.progress.Recorded?
  {
    InvAlways(p.pool, p.history);
    r := |p.state.rounds|;
    NewRoundIsEmpty(p.pool, p.history, batch);
    p.Do(StartRound(batch));
    SpawnAll(p, r, batch, pick);
    finished := Wait(p, r, turns);
  }
}
