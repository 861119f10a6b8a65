/** Retrying with capped exponential backoff until a deadline. Times are in milliseconds; what
    each call does, how long it takes and how late a sleep ends are parameters. */
module Retry {
  import opened Sequences
  import opened Store

  /** One attempt: a call that succeeds or fails, possibly after taking effect unseen, and what
      happens during the sleep after a failure. */
  datatype Attempt = Attempt(ok: bool, unseenEffect: bool, callTime: nat, cancelled: bool, lateness: nat)

  /** The sleep after the k-th failure, counting from zero. */
  function Backoff(k: nat): nat {
    if k == 0 then 1000 else if k == 1 then 2000 else if k == 2 then 4000 else 8000
  }

  /** All the sleeping that precedes attempt k, counting from zero. */
  function SleepBefore(k: nat): nat {
    if k == 0 then 0 else SleepBefore(k - 1) + Backoff(k - 1)
  }

  lemma {:induction false} SleepClosedForm(k: nat)
    ensures k >= 3 ==> SleepBefore(k) == 7000 + 8000 * (k - 3)
    ensures k < 3 ==> SleepBefore(k) < 7000
  {
    if k > 0 { SleepClosedForm(k - 1); }
  }

  /** How many attempts fit: attempt n starts only if the sleeping before it ends in time. */
  lemma AttemptsWithin(n: nat, timeout: int)
    requires n >= 4
    ensures SleepBefore(n - 1) < timeout <==> 7000 + 8000 * (n - 4) < timeout
    ensures timeout == 60000 ==> (SleepBefore(n - 1) < timeout <==> n <= 10)
    ensures timeout == 30000 ==> (SleepBefore(n - 1) < timeout <==> n <= 6)
  {
    SleepClosedForm(n - 1);
  }

  datatype PingResult = Ready | Cancelled | NotReady(lastError: Option<nat>)

  predicate Instant(a: Attempt) { !a.ok && a.callTime == 0 && !a.cancelled && a.lateness == 0 }

  /** The time the first k attempts took, each with its call, its sleep and the lateness of that. */
  function Spent(attempts: nat -> Attempt, k: nat): nat {
    if k == 0 then 0
    else Spent(attempts, k - 1) + attempts(k - 1).callTime + Backoff(k - 1) + attempts(k - 1).lateness
  }

  lemma {:induction false} SleepIsSpent(attempts: nat -> Attempt, k: nat)
    ensures SleepBefore(k) <= Spent(attempts, k)
    ensures (forall i: nat :: Instant(attempts(i))) ==> SleepBefore(k) == Spent(attempts, k)
  {
    if k > 0 {
      SleepIsSpent(attempts, k - 1);
      assert (forall i: nat :: Instant(attempts(i))) ==> Instant(attempts(k - 1));
    }
  }

  /** The attempts before number n failed without the context being cancelled. */
  ghost predicate FailedUpTo(attempts: nat -> Attempt, n: nat) {
    forall k: nat :: k < n ==> !attempts(k).ok && !attempts(k).cancelled
  }

  /** Pings go on until one succeeds, the context is cancelled during a sleep, or the time is used
      up: a ping starts only inside the timeout, and NotReady is returned only outside it. */
  method PingWithRetry(start: int, timeout: int, pings: nat -> Attempt) returns (result: PingResult, attempts: nat)
    ensures timeout <= 0 <==> attempts == 0
    ensures attempts > 0 ==> Spent(pings, attempts - 1) < timeout && FailedUpTo(pings, attempts - 1)
    ensures result == Ready <==> attempts > 0 && pings(attempts - 1).ok
    ensures result == Cancelled <==> attempts > 0 && !pings(attempts - 1).ok && pings(attempts - 1).cancelled
    ensures result.NotReady? ==>
      && FailedUpTo(pings, attempts) && Spent(pings, attempts) >= timeout
      && result.lastError == if attempts == 0 then None else Some(attempts - 1)
    ensures attempts > 0 ==> SleepBefore(attempts - 1) < timeout
    ensures (forall k: nat :: Instant(pings(k))) ==> result.NotReady? && SleepBefore(attempts) >= timeout
  {
    var deadline := start + timeout;
    var now := start;
    var backoff := 1000;
    var lastError: Option<nat> := None;
    attempts := 0;
    while now < deadline
      invariant now == start + Spent(pings, attempts)
      invariant backoff == Backoff(attempts)
      invariant FailedUpTo(pings, attempts)
      invariant lastError == if attempts == 0 then None else Some(attempts - 1)
      invariant attempts > 0 ==> Spent(pings, attempts - 1) < timeout
      decreases deadline - now
    {
      SleepIsSpent(pings, attempts);
      assert Instant(pings(attempts)) ==> !pings(attempts).ok && !pings(attempts).cancelled;
      var ping := pings(attempts);
      now := now + ping.callTime;
      if !ping.ok {
        lastError := Some(attempts);
        attempts := attempts + 1;
        if ping.cancelled { return Cancelled, attempts; }
        now := now + backoff + ping.lateness;
        if backoff < 8000 { backoff := backoff * 2; }
        continue;
      }
      return Ready, attempts + 1;
    }
    SleepIsSpent(pings, attempts);
    if attempts > 0 { SleepIsSpent(pings, attempts - 1); }
    result := NotReady(lastError);
  }

  // ---------- zone configurations ----------

  datatype Zone = Zone(replicas: nat, constraint: string, leasePreference: string)

  /** The partitions and the regions they are pinned to. */
  const ZONE_CONFIGS: seq<(string, string)> := [("east", "us-east"), ("west", "us-west"), ("eu", "eu-central")]

  function PinnedTo(region: string): Zone { Zone(3, region, region) }

  class Partitions {
    var zones: map<string, Zone>

    constructor () ensures zones == map[] { zones := map[]; }
  }

  function Configured(zones: map<string, Zone>, config: (string, string)): map<string, Zone> {
    zones[config.0 := PinnedTo(config.1)]
  }

  /** How the retries of one config end. The caller only learns whether they were cancelled. */
  datatype End = Skipped | Applied(attempts: nat) | TimedOut(attempts: nat) | Stopped(attempts: nat)

  /** The last attempt started inside the 60 s, and giving up for lack of time means they are over. */
  ghost predicate EndsSo(end: End, execs: nat -> Attempt) {
    match end
    case Skipped => true
    case Applied(n) => n > 0 && FailedUpTo(execs, n - 1) && Spent(execs, n - 1) < 60000 && execs(n - 1).ok
    case TimedOut(n) => n > 0 && FailedUpTo(execs, n) && Spent(execs, n - 1) < 60000 <= Spent(execs, n)
    case Stopped(n) =>
      n > 0 && FailedUpTo(execs, n - 1) && Spent(execs, n - 1) < 60000 && !execs(n - 1).ok && execs(n - 1).cancelled
  }

  function AttemptsOf(end: End): nat { if end.Skipped? then 0 else end.attempts }

  /** Did one of the first n attempts reach the zone, with or without the client learning it? */
  predicate Reached(execs: nat -> Attempt, n: nat) {
    n > 0 && (Reached(execs, n - 1) || execs(n - 1).ok || execs(n - 1).unseenEffect)
  }

  lemma {:induction false} ReachedIff(execs: nat -> Attempt, n: nat)
    ensures Reached(execs, n) <==> exists k: nat :: k < n && (execs(k).ok || execs(k).unseenEffect)
  {
    if n > 0 { ReachedIff(execs, n - 1); }
  }

  predicate TookEffect(end: End, execs: nat -> Attempt) { Reached(execs, AttemptsOf(end)) }

  /** The backoff alone bounds the attempts, and with instantaneous failures the bound is reached. */
  lemma EndsWithinTime(end: End, execs: nat -> Attempt)
    requires !end.Skipped? && EndsSo(end, execs)
    ensures SleepBefore(end.attempts - 1) < 60000
    ensures (forall k: nat :: Instant(execs(k))) ==> end.TimedOut? && SleepBefore(end.attempts) >= 60000
  {
    SleepIsSpent(execs, end.attempts - 1);
    SleepIsSpent(execs, end.attempts);
    assert (forall k: nat :: Instant(execs(k))) ==> Instant(execs(end.attempts - 1));
  }

  /** A nil error does not mean the config applied: running out of time is not an error here,
      only a cancelled context is. */
  method ApplyWithRetry(p: Partitions, config: (string, string), start: int, execs: nat -> Attempt)
    returns (ok: bool, ghost end: End)
    modifies p
    ensures !end.Skipped? && EndsSo(end, execs)
    ensures ok <==> !end.Stopped?
    ensures p.zones == if TookEffect(end, execs) then Configured(old(p.zones), config) else old(p.zones)
  {
    var backoff := 1000;
    var deadline := start + 60000;
    var now := start;
    var attempts := 0;
    while now < deadline
      invariant now == start + Spent(execs, attempts)
      invariant backoff == Backoff(attempts)
      invariant p.zones == if Reached(execs, attempts) then Configured(old(p.zones), config) else old(p.zones)
      invariant FailedUpTo(execs, attempts)
      invariant attempts > 0 ==> Spent(execs, attempts - 1) < 60000
      decreases deadline - now
    {
      var exec := execs(attempts);
      attempts := attempts + 1;
      now := now + exec.callTime;
      if exec.ok || exec.unseenEffect { p.zones := Configured(p.zones, config); }
      if exec.ok { return true, Applied(attempts); }
      if exec.cancelled { return false, Stopped(attempts); }
      now := now + backoff + exec.lateness;
      if backoff < 8000 { backoff := backoff * 2; }
    }
    ok, end := true, TimedOut(attempts);
  }

  /** The zones once the configs dealt with so far have ended like this. */
  ghost function ZonesAfter(zones: map<string, Zone>, ends: seq<End>, execs: nat -> nat -> Attempt): map<string, Zone>
    requires |ends| <= |ZONE_CONFIGS|
  {
    if ends == [] then zones
    else
      var n := |ends| - 1;
      var before := ZonesAfter(zones, ends[..n], execs);
      if TookEffect(ends[n], execs(n)) then Configured(before, ZONE_CONFIGS[n]) else before
  }

  ghost predicate IsPinned(zones: map<string, Zone>, i: nat)
    requires i < |ZONE_CONFIGS|
  {
    ZONE_CONFIGS[i].0 in zones && zones[ZONE_CONFIGS[i].0] == PinnedTo(ZONE_CONFIGS[i].1)
  }

  /** A partition is pinned to its region exactly when its config reached it or it was before. */
  lemma {:induction false} PinnedIff(zones: map<string, Zone>, ends: seq<End>, execs: nat -> nat -> Attempt, i: nat)
    requires |ends| <= |ZONE_CONFIGS| && i < |ZONE_CONFIGS|
    ensures IsPinned(ZonesAfter(zones, ends, execs), i)
        <==> (i < |ends| && TookEffect(ends[i], execs(i))) || IsPinned(zones, i)
  {
    if ends != [] {
      var n := |ends| - 1;
      PinnedIff(zones, ends[..n], execs, i);
      assert i < n ==> ends[..n][i] == ends[i];
      assert ZONE_CONFIGS[0].0[0] == 'e' && ZONE_CONFIGS[0].0[1] == 'a' && ZONE_CONFIGS[1].0[0] == 'w' && ZONE_CONFIGS[2].0[1] == 'u';
    }
  }

  /** Each config met so far was skipped, as its region is not active, or ended in one of the ways
      its attempts allow; only the last can have been stopped. */
  ghost predicate Ended(ends: seq<End>, regions: seq<string>, execs: nat -> nat -> Attempt) {
    && |ends| <= |ZONE_CONFIGS|
    && (forall i :: 0 <= i < |ends| ==>
          (ends[i].Skipped? <==> ZONE_CONFIGS[i].1 !in regions) && EndsSo(ends[i], execs(i)))
    && (forall i :: 0 <= i < |ends| - 1 ==> !ends[i].Stopped?)
  }

  ghost predicate ActivePinned(zones: map<string, Zone>, regions: seq<string>) {
    forall i :: 0 <= i < |ZONE_CONFIGS| && ZONE_CONFIGS[i].1 in regions ==> IsPinned(zones, i)
  }

  ghost predicate ActiveReached(zones: map<string, Zone>, ends: seq<End>, execs: nat -> nat -> Attempt, regions: seq<string>) {
    forall i :: 0 <= i < |ZONE_CONFIGS| && ZONE_CONFIGS[i].1 in regions ==>
      (i < |ends| && TookEffect(ends[i], execs(i))) || IsPinned(zones, i)
  }

  lemma ActivePinnedIff(zones: map<string, Zone>, ends: seq<End>, execs: nat -> nat -> Attempt, regions: seq<string>)
    requires Ended(ends, regions, execs)
    ensures ActivePinned(ZonesAfter(zones, ends, execs), regions) <==> ActiveReached(zones, ends, execs, regions)
    ensures (forall i: nat :: execs(i)(0).ok) ==>
      && (forall i :: 0 <= i < |ends| ==> !ends[i].Stopped?)
      && (|ends| == |ZONE_CONFIGS| ==> ActiveReached(zones, ends, execs, regions))
  {
    forall i: nat | i < |ZONE_CONFIGS|
      ensures IsPinned(ZonesAfter(zones, ends, execs), i) <==> (i < |ends| && TookEffect(ends[i], execs(i))) || IsPinned(zones, i)
    {
      PinnedIff(zones, ends, execs, i);
    }
  }

  ghost predicate OnlyActiveConfigured(before: map<string, Zone>, after: map<string, Zone>, regions: seq<string>) {
    forall partition: string ::
      || ((partition in after <==> partition in before) && (partition in before ==> after[partition] == before[partition]))
      || exists i :: 0 <= i < |ZONE_CONFIGS| && ZONE_CONFIGS[i].0 == partition && ZONE_CONFIGS[i].1 in regions
           && partition in after && after[partition] == PinnedTo(ZONE_CONFIGS[i].1)
  }

  lemma {:induction false} OnlyActiveTouched(zones: map<string, Zone>, ends: seq<End>, execs: nat -> nat -> Attempt, regions: seq<string>)
    requires Ended(ends, regions, execs)
    ensures OnlyActiveConfigured(zones, ZonesAfter(zones, ends, execs), regions)
  {
    if ends != [] {
      var n := |ends| - 1;
      OnlyActiveTouched(zones, ends[..n], execs, regions);
      assert ends[n].Skipped? ==> !TookEffect(ends[n], execs(n));
    }
  }

  lemma EndedStep(ends: seq<End>, end: End, regions: seq<string>, execs: nat -> nat -> Attempt)
    requires Ended(ends, regions, execs) && |ends| < |ZONE_CONFIGS|
    requires ends != [] ==> !ends[|ends| - 1].Stopped?
    requires (end.Skipped? <==> ZONE_CONFIGS[|ends|].1 !in regions) && EndsSo(end, execs(|ends|))
    ensures Ended(ends + [end], regions, execs)
  {
  }

  lemma ZonesAfterStep(zones: map<string, Zone>, ends: seq<End>, end: End, execs: nat -> nat -> Attempt)
    requires |ends| < |ZONE_CONFIGS|
    ensures ZonesAfter(zones, ends + [end], execs)
         == var before := ZonesAfter(zones, ends, execs);
            if TookEffect(end, execs(|ends|)) then Configured(before, ZONE_CONFIGS[|ends|]) else before
  {
    assert (ends + [end])[..|ends|] == ends;
  }

  method ActiveSet(regions: seq<string>) returns (active: set<string>)
    ensures forall r :: r in active <==> r in regions
  {
    active := {};
    var j := 0;
    while j < |regions|
      invariant 0 <= j <= |regions|
      invariant forall r :: r in active <==> r in regions[..j]
    {
      active := active + {regions[j]};
      j := j + 1;
    }
    assert regions[..j] == regions;
  }

  /** One config of the loop: nothing to do unless its region is active. */
  method ApplyIfActive(p: Partitions, i: nat, active: set<string>, start: int, execs: nat -> Attempt) returns (ok: bool, ghost end: End)
    requires i < |ZONE_CONFIGS|
    modifies p
    ensures (end.Skipped? <==> ZONE_CONFIGS[i].1 !in active) && EndsSo(end, execs)
    ensures ok <==> !end.Stopped?
    ensures p.zones == if TookEffect(end, execs) then Configured(old(p.zones), ZONE_CONFIGS[i]) else old(p.zones)
  {
    ok, end := true, Skipped;
    if ZONE_CONFIGS[i].1 in active { ok, end := ApplyWithRetry(p, ZONE_CONFIGS[i], start, execs); }
  }

  /** Configures the partitions of the given regions and no others, in order, up to the first whose
      retries are cancelled; that is the only error. A partition of an active region ends up with
      three replicas and its leaseholder in its own region exactly when some attempt of its config
      took effect or it was so before. */
  method ApplyZoneConfigs(p: Partitions, regions: seq<string>, start: nat -> int, execs: nat -> nat -> Attempt)
    returns (ok: bool, ghost ends: seq<End>)
    modifies p
    ensures Ended(ends, regions, execs)
    ensures ok <==> |ends| == |ZONE_CONFIGS| && forall i :: 0 <= i < |ends| ==> !ends[i].Stopped?
    ensures !ok <==> ends != [] && ends[|ends| - 1].Stopped?
    ensures p.zones == ZonesAfter(old(p.zones), ends, execs)
    ensures OnlyActiveConfigured(old(p.zones), p.zones, regions)
    ensures ActivePinned(p.zones, regions) <==> ActiveReached(old(p.zones), ends, execs, regions)
    ensures (forall i: nat :: execs(i)(0).ok) ==> ok && ActivePinned(p.zones, regions)
  {
    var active := ActiveSet(regions);
    ends := [];
    var i := 0;
    while i < |ZONE_CONFIGS|
      invariant 0 <= i <= |ZONE_CONFIGS| && |ends| == i
      invariant Ended(ends, regions, execs) && (ends != [] ==> !ends[i - 1].Stopped?)
      invariant p.zones == ZonesAfter(old(p.zones), ends, execs)
    {
      ghost var end;
      ok, end := ApplyIfActive(p, i, active, start(i), execs(i));
      EndedStep(ends, end, regions, execs);
      ZonesAfterStep(old(p.zones), ends, end, execs);
      ends := ends + [end];
      if !ok {
        ActivePinnedIff(old(p.zones), ends, execs, regions);
        OnlyActiveTouched(old(p.zones), ends, execs, regions);
        return;
      }
      i := i + 1;
    }
    ActivePinnedIff(old(p.zones), ends, execs, regions);
    OnlyActiveTouched(old(p.zones), ends, execs, regions);
    ok := true;
  }

  /** In full: which partition is pinned where, for each of the three regions; the partition is the
      one whose rows the region's counter counts. */
  lemma PinsInFull(zones: map<string, Zone>, regions: seq<string>)
    ensures ActivePinned(zones, regions) <==>
      && ("us-east" in regions ==> "east" in zones && zones["east"] == Zone(3, "us-east", "us-east"))
      && ("us-west" in regions ==> "west" in zones && zones["west"] == Zone(3, "us-west", "us-west"))
      && ("eu-central" in regions ==> "eu" in zones && zones["eu"] == Zone(3, "eu-central", "eu-central"))
    ensures forall c :: c in ZONE_CONFIGS ==> Mapped(c.1) && c.0 == RegionTarget(c.1)
  {
    assert |ZONE_CONFIGS| == 3;
    assert IsPinned(zones, 0) <==> "east" in zones && zones["east"] == Zone(3, "us-east", "us-east");
    assert IsPinned(zones, 1) <==> "west" in zones && zones["west"] == Zone(3, "us-west", "us-west");
    assert IsPinned(zones, 2) <==> "eu" in zones && zones["eu"] == Zone(3, "eu-central", "eu-central");
  }
}
