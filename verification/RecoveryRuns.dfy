/**
 * Stale-sync recovery of one connector as a step system: reapers with a pass-wide `now`, manual
 * syncs, and workers that renew, finish or die, interleaved freely. A requester first claims the
 * slot and later records its run; it may die, and a reaper may look, in between.
 */
module RecoveryRuns {
  import opened Common

  type RunId = nat
  type ReaperId = nat

  datatype Config = Config(leaseMs: int, maxRecoveries: nat)

  /** The connector's sync slot. */
  datatype Slot = Slot(inFlight: bool, leaseUntil: Option<int>, requestedAt: Option<int>, current: Option<RunId>)

  datatype RunStatus = Unrecorded | Open | Closed

  /**
   * Why a sync was started. A recovery was told which run it recovers; for the record, `displaced` is
   * the sync whose slot its reaper took, and `found` whether the reaper's look had found that sync.
   */
  datatype Origin = Manual | Recovery(recoveredFrom: Option<RunId>, displaced: Option<RunId>, found: bool)

  /** A sync run; ids are given out in the order in which the slot is claimed. */
  datatype SyncRun = SyncRun(status: RunStatus, recoveryAttempt: nat, origin: Origin)

  /**
   * What a reaper knows after its look: the newest open run and the next attempt number. For the record,
   * `holder` is what the slot held, `found` whether that was the newest open run, and `live` whether its
   * lease reached past the reaper's `now`.
   */
  datatype Stage =
    | Started
    | Looked(previous: Option<RunId>, attempt: nat, holder: Option<RunId>, found: bool, live: bool)
    | Taken(previous: Option<RunId>, attempt: nat, displaced: Option<RunId>, found: bool)
    | Over

  datatype Reaper = Reaper(now: int, stage: Stage)

  /** `created`: the recorded runs, oldest first. */
  datatype State = State(clock: int, slot: Slot, runs: seq<SyncRun>, created: seq<RunId>, reapers: map<ReaperId, Reaper>)

  const Init := State(0, Slot(false, None, None, None), [], [], map[])

  /** The sync lost its lease; records without a lease count from the request time. */
  predicate Expired(c: Config, slot: Slot, now: int) {
    match slot.leaseUntil
    case Some(t) => t <= now
    case None => slot.requestedAt.None? || slot.requestedAt.value <= now - c.leaseMs
  }

  /** The open run that was recorded last. */
  function NewestOpen(runs: seq<SyncRun>, created: seq<RunId>): (r: Option<RunId>)
    ensures r.Some? ==> r.value < |runs| && runs[r.value].status.Open?
  {
    if created == [] then None
    else
      var last := created[|created| - 1];
      if last < |runs| && runs[last].status.Open? then Some(last) else NewestOpen(runs, created[..|created| - 1])
  }

  /** How many recoveries a look counts behind the newest open run. */
  function Counted(s: State): nat {
    var previous := NewestOpen(s.runs, s.created);
    if previous.Some? then s.runs[previous.value].recoveryAttempt else 0
  }

  datatype Action =
    | BeginPass(k: ReaperId)
    | LookUp(k: ReaperId)
    | Reset(k: ReaperId, replayable: bool)
    | Requeue(k: ReaperId, requestedAt: int)
    | ManualSync(requestedAt: int)
    | Record(id: RunId)
    | CloseRun(id: RunId)
    | Renew(until: int)
    | ReleaseSlot
    | Tick(ms: nat)

  /** A claim stamped `at` succeeds when the slot is free or its sync lost its lease. */
  predicate CanClaim(c: Config, s: State, at: int) {
    !s.slot.inFlight || Expired(c, s.slot, at)
  }

  /** A write reaches the database within one lease of the clock reading it carries. */
  predicate InTime(c: Config, s: State, at: int) { at <= s.clock < at + c.leaseMs }

  predicate Enabled(c: Config, s: State, a: Action) {
    match a
    case BeginPass(k) => k !in s.reapers
    case LookUp(k) => k in s.reapers && s.reapers[k].stage.Started?
    case Reset(k, _) => k in s.reapers && s.reapers[k].stage.Looked?
    case Requeue(k, at) => k in s.reapers && s.reapers[k].stage.Taken? && InTime(c, s, at)
    case ManualSync(at) => InTime(c, s, at)
    case Record(id) => id < |s.runs| && s.runs[id].status.Unrecorded?
    case CloseRun(id) => id < |s.runs|
    case Renew(until) => s.slot.inFlight && s.clock < until
    case ReleaseSlot => true
    case Tick(_) => true
  }

  function SetStage(s: State, k: ReaperId, stage: Stage): State
    requires k in s.reapers
  {
    s.(reapers := s.reapers[k := s.reapers[k].(stage := stage)])
  }

  /** Take the slot for a run that is yet to be recorded. */
  function Claim(c: Config, s: State, at: int, attempt: nat, origin: Origin): State {
    s.(slot := Slot(true, Some(at + c.leaseMs), Some(at), Some(|s.runs|)),
       runs := s.runs + [SyncRun(Unrecorded, attempt, origin)])
  }

  function Free(slot: Slot): Slot { slot.(inFlight := false, leaseUntil := None, current := None) }

  /** What a reaper with this `now` sees. */
  function Look(s: State, now: int): Stage {
    var previous := NewestOpen(s.runs, s.created);
    Looked(previous, Counted(s) + 1, s.slot.current, previous.Some? && previous == s.slot.current,
           s.slot.leaseUntil.Some? && now < s.slot.leaseUntil.value)
  }

  function Step(c: Config, s: State, a: Action): State
    requires Enabled(c, s, a)
  {
    match a
    case BeginPass(k) => s.(reapers := s.reapers[k := Reaper(s.clock, Started)])
    case LookUp(k) => SetStage(s, k, Look(s, s.reapers[k].now))
    case Reset(k, replayable) =>
      var seen := s.reapers[k].stage;
      if s.slot.inFlight && Expired(c, s.slot, s.reapers[k].now) then
        SetStage(s.(slot := Free(s.slot)), k,
                 if replayable && seen.attempt <= c.maxRecoveries
                 then Taken(seen.previous, seen.attempt, s.slot.current, seen.found) else Over)
      else SetStage(s, k, Over)
    case Requeue(k, at) =>
      var seen := s.reapers[k].stage;
      var s' := SetStage(s, k, Over);
      if CanClaim(c, s, at) then Claim(c, s', at, seen.attempt, Recovery(seen.previous, seen.displaced, seen.found)) else s'
    case ManualSync(at) => if CanClaim(c, s, at) then Claim(c, s, at, 0, Manual) else s
    case Record(id) => s.(runs := s.runs[id := s.runs[id].(status := Open)], created := s.created + [id])
    case CloseRun(id) => s.(runs := s.runs[id := ClosedRun(s.runs[id])])
    case Renew(until) => s.(slot := s.slot.(leaseUntil := Some(until)))
    case ReleaseSlot => s.(slot := Free(s.slot))
    case Tick(ms) => s.(clock := s.clock + ms)
  }

  /** Closing is conditional on the run being open. */
  function ClosedRun(run: SyncRun): SyncRun {
    if run.status.Open? then run.(status := Closed) else run
  }

  ghost predicate Plays(c: Config, s: State, acts: seq<Action>)
    decreases |acts|
  {
    acts == [] || (Enabled(c, s, acts[0]) && Plays(c, Step(c, s, acts[0]), acts[1..]))
  }

  ghost function Final(c: Config, s: State, acts: seq<Action>): State
    requires Plays(c, s, acts)
    decreases |acts|
  {
    if acts == [] then s else Final(c, Step(c, s, acts[0]), acts[1..])
  }

  lemma {:induction false} PlaysMore(c: Config, s: State, acts: seq<Action>, more: seq<Action>)
    requires Plays(c, s, acts) && Plays(c, Final(c, s, acts), more)
    ensures Plays(c, s, acts + more) && Final(c, s, acts + more) == Final(c, Final(c, s, acts), more)
    decreases |acts|
  {
    if acts == [] {
      assert acts + more == more;
    } else {
      assert (acts + more)[0] == acts[0] && (acts + more)[1..] == acts[1..] + more;
      PlaysMore(c, Step(c, s, acts[0]), acts[1..], more);
    }
  }

  lemma PlaysOneMore(c: Config, s: State, acts: seq<Action>, a: Action)
    requires Plays(c, s, acts) && Enabled(c, Final(c, s, acts), a)
    ensures Plays(c, s, acts + [a]) && Final(c, s, acts + [a]) == Step(c, Final(c, s, acts), a)
  {
    assert [a][1..] == [];
    PlaysMore(c, s, acts, [a]);
  }

  // ----- The invariant, in every run. -----

  ghost predicate SlotOk(s: State) {
    (s.slot.inFlight <==> s.slot.current.Some?) && (s.slot.current.Some? ==> s.slot.current.value == |s.runs| - 1)
  }

  /** What a look that found `previous` may count. */
  predicate CountsFrom(runs: seq<SyncRun>, previous: Option<RunId>, attempt: nat) {
    && (previous.Some? ==> previous.value < |runs|)
    && attempt == 1 + if previous.Some? then runs[previous.value].recoveryAttempt else 0
  }

  /** A manual sync starts at zero; a recovery counts on from the run it was told of, which is the one it displaced exactly if that was found. */
  ghost predicate RunOk(c: Config, runs: seq<SyncRun>, q: nat)
    requires q < |runs|
  {
    match runs[q].origin
    case Manual => runs[q].recoveryAttempt == 0
    case Recovery(recoveredFrom, displaced, found) =>
      && runs[q].recoveryAttempt <= c.maxRecoveries
      && CountsFrom(runs, recoveredFrom, runs[q].recoveryAttempt)
      && displaced.Some? && displaced.value < q
      && (recoveredFrom == displaced <==> found)
  }

  ghost predicate RunsOk(c: Config, runs: seq<SyncRun>) {
    forall q: nat :: q < |runs| ==> RunOk(c, runs, q)
  }

  predicate Displaces(run: SyncRun, p: Option<RunId>) { run.origin.Recovery? && run.origin.displaced == p }

  /** No sync is displaced by two recoveries. */
  ghost predicate DisplacedOnce(runs: seq<SyncRun>) {
    forall q1, q2 :: 0 <= q1 < q2 < |runs| && runs[q1].origin.Recovery? ==> !Displaces(runs[q2], runs[q1].origin.displaced)
  }

  /** If the slot has changed hands since the look, or was not lapsed then, its lease outlives the reaper's `now`. */
  ghost predicate LookedOk(s: State, r: Reaper) {
    r.stage.Looked? ==>
      var seen := r.stage;
      && CountsFrom(s.runs, seen.previous, seen.attempt)
      && (seen.holder.Some? ==> seen.holder.value < |s.runs|)
      && (seen.found <==> seen.previous.Some? && seen.previous == seen.holder)
      && (s.slot.inFlight && (s.slot.current != seen.holder || seen.live) ==>
            s.slot.leaseUntil.Some? && r.now < s.slot.leaseUntil.value)
  }

  /** A sync whose slot a reaper has taken is that reaper's alone to recover. */
  ghost predicate TakenOk(c: Config, s: State, r: Reaper) {
    r.stage.Taken? ==>
      var seen := r.stage;
      && CountsFrom(s.runs, seen.previous, seen.attempt) && seen.attempt <= c.maxRecoveries
      && seen.displaced.Some? && seen.displaced.value < |s.runs|
      && (seen.previous == seen.displaced <==> seen.found)
      && s.slot.current != seen.displaced
      && forall q :: 0 <= q < |s.runs| ==> !Displaces(s.runs[q], seen.displaced)
  }

  ghost predicate ReaperOk(c: Config, s: State, r: Reaper) {
    r.now <= s.clock && LookedOk(s, r) && TakenOk(c, s, r)
  }

  ghost predicate ReapersOk(c: Config, s: State) {
    forall k :: k in s.reapers ==> ReaperOk(c, s, s.reapers[k])
  }

  ghost predicate TakenOnce(s: State) {
    forall k1, k2 ::
      k1 in s.reapers && k2 in s.reapers && k1 != k2 && s.reapers[k1].stage.Taken? && s.reapers[k2].stage.Taken? ==>
        s.reapers[k1].stage.displaced != s.reapers[k2].stage.displaced
  }

  ghost predicate Inv(c: Config, s: State) {
    SlotOk(s) && RunsOk(c, s.runs) && DisplacedOnce(s.runs) && ReapersOk(c, s) && TakenOnce(s)
  }

  /** A reset only succeeds on the sync the reaper looked at, and only if that one was lapsed at the look. */
  lemma ResetOnlyOwnEpisode(c: Config, s: State, k: ReaperId)
    requires ReapersOk(c, s) && k in s.reapers && s.reapers[k].stage.Looked?
    requires s.slot.inFlight && Expired(c, s.slot, s.reapers[k].now)
    ensures s.slot.current == s.reapers[k].stage.holder && !s.reapers[k].stage.live
  {
    assert ReaperOk(c, s, s.reapers[k]);
  }

  /** The newest run has not been displaced yet. */
  lemma NewestIsNotDisplaced(c: Config, s: State)
    requires Inv(c, s) && s.slot.current.Some?
    ensures forall q :: 0 <= q < |s.runs| ==> !Displaces(s.runs[q], s.slot.current)
  {
    forall q | 0 <= q < |s.runs| ensures !Displaces(s.runs[q], s.slot.current) {
      assert RunOk(c, s.runs, q);
    }
  }

  lemma ResetKeepsInv(c: Config, s: State, k: ReaperId, replayable: bool)
    requires Inv(c, s) && Enabled(c, s, Reset(k, replayable))
    ensures Inv(c, Step(c, s, Reset(k, replayable)))
  {
    var s' := Step(c, s, Reset(k, replayable));
    if s.slot.inFlight && Expired(c, s.slot, s.reapers[k].now) {
      ResetOnlyOwnEpisode(c, s, k);
      NewestIsNotDisplaced(c, s);
    }
    forall j | j in s'.reapers ensures ReaperOk(c, s', s'.reapers[j]) {
      assert ReaperOk(c, s, s.reapers[j]);
    }
    forall j | j in s.reapers && s.reapers[j].stage.Taken? ensures s.reapers[j].stage.displaced != s.slot.current {
      assert ReaperOk(c, s, s.reapers[j]);
    }
  }

  lemma ReaperAfterClaim(c: Config, s: State, at: int, attempt: nat, origin: Origin, r: Reaper)
    requires ReaperOk(c, s, r) && InTime(c, s, at)
    requires r.stage.Taken? && origin.Recovery? ==> r.stage.displaced != origin.displaced
    ensures ReaperOk(c, Claim(c, s, at, attempt, origin), r)
  {
    var s' := Claim(c, s, at, attempt, origin);
    assert forall q :: 0 <= q < |s.runs| ==> s'.runs[q] == s.runs[q];
  }

  lemma RunsAfterClaim(c: Config, runs: seq<SyncRun>, run: SyncRun)
    requires RunsOk(c, runs) && DisplacedOnce(runs)
    requires RunOk(c, runs + [run], |runs|)
    requires run.origin.Recovery? ==> forall q :: 0 <= q < |runs| ==> !Displaces(runs[q], run.origin.displaced)
    ensures RunsOk(c, runs + [run]) && DisplacedOnce(runs + [run])
  {
    var longer := runs + [run];
    forall q: nat | q < |longer| ensures RunOk(c, longer, q) {
      if q < |runs| { assert RunOk(c, runs, q); }
    }
    forall q1, q2 | 0 <= q1 < q2 < |longer| && longer[q1].origin.Recovery?
      ensures !Displaces(longer[q2], longer[q1].origin.displaced)
    {
      assert longer[q1] == runs[q1];
      if q2 == |runs| && Displaces(run, runs[q1].origin.displaced) {
        assert Displaces(runs[q1], run.origin.displaced);
      }
    }
  }

  lemma ClaimKeepsInv(c: Config, s: State, at: int, attempt: nat, origin: Origin)
    requires Inv(c, s) && InTime(c, s, at)
    requires RunOk(c, s.runs + [SyncRun(Unrecorded, attempt, origin)], |s.runs|)
    requires origin.Recovery? ==>
               && (forall q :: 0 <= q < |s.runs| ==> !Displaces(s.runs[q], origin.displaced))
               && (forall k :: k in s.reapers && s.reapers[k].stage.Taken? ==> s.reapers[k].stage.displaced != origin.displaced)
    ensures Inv(c, Claim(c, s, at, attempt, origin))
  {
    var s' := Claim(c, s, at, attempt, origin);
    RunsAfterClaim(c, s.runs, SyncRun(Unrecorded, attempt, origin));
    forall j | j in s'.reapers ensures ReaperOk(c, s', s'.reapers[j]) {
      ReaperAfterClaim(c, s, at, attempt, origin, s.reapers[j]);
    }
  }

  lemma RequeueKeepsInv(c: Config, s: State, k: ReaperId, at: int)
    requires Inv(c, s) && Enabled(c, s, Requeue(k, at))
    ensures Inv(c, Step(c, s, Requeue(k, at)))
  {
    assert ReaperOk(c, s, s.reapers[k]);
    var seen := s.reapers[k].stage;
    var s' := SetStage(s, k, Over);
    forall j | j in s'.reapers ensures ReaperOk(c, s', s'.reapers[j]) {
      assert ReaperOk(c, s, s.reapers[j]);
    }
    if CanClaim(c, s, at) {
      ClaimKeepsInv(c, s', at, seen.attempt, Recovery(seen.previous, seen.displaced, seen.found));
    }
  }

  lemma ManualKeepsInv(c: Config, s: State, at: int)
    requires Inv(c, s) && Enabled(c, s, ManualSync(at))
    ensures Inv(c, Step(c, s, ManualSync(at)))
  {
    if CanClaim(c, s, at) {
      ClaimKeepsInv(c, s, at, 0, Manual);
    }
  }

  /** Same attempt numbers and origins. */
  ghost predicate SameHistory(a: seq<SyncRun>, b: seq<SyncRun>) {
    |a| == |b| && forall i :: 0 <= i < |a| ==> a[i].recoveryAttempt == b[i].recoveryAttempt && a[i].origin == b[i].origin
  }

  /** Recording and closing runs touches neither counts nor origins. */
  lemma StatusStepKeepsInv(c: Config, s: State, runs: seq<SyncRun>, created: seq<RunId>)
    requires Inv(c, s) && SameHistory(s.runs, runs)
    ensures Inv(c, s.(runs := runs, created := created))
  {
    var s' := s.(runs := runs, created := created);
    forall q: nat | q < |runs| ensures RunOk(c, runs, q) {
      assert RunOk(c, s.runs, q);
    }
    forall q1, q2 | 0 <= q1 < q2 < |runs| && runs[q1].origin.Recovery?
      ensures !Displaces(runs[q2], runs[q1].origin.displaced)
    {
      assert !Displaces(s.runs[q2], s.runs[q1].origin.displaced);
    }
    forall j | j in s'.reapers ensures ReaperOk(c, s', s'.reapers[j]) {
      assert ReaperOk(c, s, s.reapers[j]);
      forall q | 0 <= q < |runs| && s.reapers[j].stage.Taken? ensures !Displaces(runs[q], s.reapers[j].stage.displaced) {
        assert !Displaces(s.runs[q], s.reapers[j].stage.displaced);
      }
    }
  }

  /** Steps that leave the runs alone and either free the slot, or give it a lease beyond every reaper's `now`. */
  lemma SlotStepKeepsInv(c: Config, s: State, slot: Slot, clock: int)
    requires Inv(c, s) && s.clock <= clock
    requires slot == s.slot || slot == Free(s.slot)
             || (slot.(leaseUntil := None) == s.slot.(leaseUntil := None) && slot.leaseUntil.Some? && s.clock < slot.leaseUntil.value)
    ensures Inv(c, s.(slot := slot, clock := clock))
  {
    var s' := s.(slot := slot, clock := clock);
    forall j | j in s'.reapers ensures ReaperOk(c, s', s'.reapers[j]) {
      assert ReaperOk(c, s, s.reapers[j]);
    }
  }

  lemma LookKeepsInv(c: Config, s: State, k: ReaperId)
    requires Inv(c, s) && Enabled(c, s, LookUp(k))
    ensures Inv(c, Step(c, s, LookUp(k)))
  {
    var s' := Step(c, s, LookUp(k));
    forall j | j in s'.reapers ensures ReaperOk(c, s', s'.reapers[j]) {
      assert ReaperOk(c, s, s.reapers[j]);
    }
  }

  lemma StepKeepsInv(c: Config, s: State, a: Action)
    requires Inv(c, s) && Enabled(c, s, a)
    ensures Inv(c, Step(c, s, a))
  {
    match a {
      case BeginPass(k) =>
        forall j | j in s.reapers ensures ReaperOk(c, Step(c, s, a), s.reapers[j]) {
          assert ReaperOk(c, s, s.reapers[j]);
        }
      case LookUp(k) => LookKeepsInv(c, s, k);
      case Reset(k, replayable) => ResetKeepsInv(c, s, k, replayable);
      case Requeue(k, at) => RequeueKeepsInv(c, s, k, at);
      case ManualSync(at) => ManualKeepsInv(c, s, at);
      case Record(_) => StatusStepKeepsInv(c, s, Step(c, s, a).runs, Step(c, s, a).created);
      case CloseRun(_) => StatusStepKeepsInv(c, s, Step(c, s, a).runs, s.created);
      case Renew(_) => SlotStepKeepsInv(c, s, Step(c, s, a).slot, s.clock);
      case ReleaseSlot => SlotStepKeepsInv(c, s, Step(c, s, a).slot, s.clock);
      case Tick(ms) => SlotStepKeepsInv(c, s, s.slot, s.clock + ms);
    }
  }

  lemma {:induction false} InvHolds(c: Config, s: State, acts: seq<Action>)
    requires Inv(c, s) && Plays(c, s, acts)
    ensures Inv(c, Final(c, s, acts))
    decreases |acts|
  {
    if acts != [] {
      StepKeepsInv(c, s, acts[0]);
      InvHolds(c, Step(c, s, acts[0]), acts[1..]);
    }
  }

  // ----- How long a sync keeps its slot. -----

  /** The slot stays taken by the same sync, and whoever renews it renews past `now`. */
  ghost predicate HeldPast(c: Config, s: State, acts: seq<Action>, now: int)
    requires Plays(c, s, acts)
    decreases |acts|
  {
    acts == [] ||
    var s' := Step(c, s, acts[0]);
    && s'.slot.inFlight && |s'.runs| == |s.runs|
    && (acts[0].Renew? ==> now < acts[0].until)
    && HeldPast(c, s', acts[1..], now)
  }

  /** The slot's lease reaches past `now`. */
  predicate LeasedPast(s: State, now: int) {
    s.slot.inFlight && s.slot.leaseUntil.Some? && now < s.slot.leaseUntil.value
  }

  lemma {:induction false} StaysLeasedPast(c: Config, s: State, acts: seq<Action>, now: int)
    requires Plays(c, s, acts) && LeasedPast(s, now) && HeldPast(c, s, acts, now)
    ensures LeasedPast(Final(c, s, acts), now)
    decreases |acts|
  {
    if acts != [] {
      StaysLeasedPast(c, Step(c, s, acts[0]), acts[1..], now);
    }
  }

  /**
   * A renewed sync is safe from the reaper, in every run: as long as the slot is neither freed nor claimed again, and
   * later renewals reach as far, a reaper whose pass began before the lease ends leaves slot and runs as they are,
   * whether it looked before or after the renewal.
   */
  lemma RenewedSyncIsNotReset(c: Config, before: seq<Action>, until: int, after: seq<Action>, k: ReaperId, replayable: bool)
    requires Plays(c, Init, before) && Enabled(c, Final(c, Init, before), Renew(until))
    requires var s := Step(c, Final(c, Init, before), Renew(until));
             && Plays(c, s, after) && Enabled(c, Final(c, s, after), Reset(k, replayable))
             && Final(c, s, after).reapers[k].now < until
             && HeldPast(c, s, after, Final(c, s, after).reapers[k].now)
    ensures var s := Final(c, Step(c, Final(c, Init, before), Renew(until)), after);
            Step(c, s, Reset(k, replayable)) == s.(reapers := s.reapers[k := Reaper(s.reapers[k].now, Over)])
  {
    var s := Step(c, Final(c, Init, before), Renew(until));
    StaysLeasedPast(c, s, after, Final(c, s, after).reapers[k].now);
  }

  /** The worker gives the slot up, or renews it to no later than `now`. */
  predicate GivesUp(a: Action, now: int) { a.ReleaseSlot? || (a.Renew? && a.until <= now) }

  lemma StepKeepsLiveSync(c: Config, s: State, a: Action, now: int)
    requires ReapersOk(c, s) && Enabled(c, s, a) && LeasedPast(s, now) && s.clock <= now && !GivesUp(a, now)
    ensures var s' := Step(c, s, a);
            LeasedPast(s', now) && s'.slot.(leaseUntil := None) == s.slot.(leaseUntil := None) && |s'.runs| == |s.runs|
  {
    if a.Reset? {
      assert ReaperOk(c, s, s.reapers[a.k]);
    }
  }

  /**
   * A live sync keeps its slot: from any reachable state whose lease reaches past `now`, no reaper, re-queue or manual
   * sync takes the slot while the clock has not passed `now`, unless its own worker gives it up or shortens its lease.
   */
  lemma {:induction false} LiveSyncKeepsItsSlot(c: Config, s: State, acts: seq<Action>, now: int)
    requires Inv(c, s) && Plays(c, s, acts) && LeasedPast(s, now) && Final(c, s, acts).clock <= now
    requires forall a :: a in acts ==> !GivesUp(a, now)
    ensures var s' := Final(c, s, acts);
            LeasedPast(s', now) && s'.slot.(leaseUntil := None) == s.slot.(leaseUntil := None) && |s'.runs| == |s.runs|
    decreases |acts|
  {
    if acts != [] {
      ClockAdvances(c, s, acts);
      assert !GivesUp(acts[0], now);
      StepKeepsLiveSync(c, s, acts[0], now);
      StepKeepsInv(c, s, acts[0]);
      LiveSyncKeepsItsSlot(c, Step(c, s, acts[0]), acts[1..], now);
    }
  }

  lemma {:induction false} ClockAdvances(c: Config, s: State, acts: seq<Action>)
    requires Plays(c, s, acts)
    ensures s.clock <= Final(c, s, acts).clock
    decreases |acts|
  {
    if acts != [] {
      ClockAdvances(c, Step(c, s, acts[0]), acts[1..]);
    }
  }

  /** When the lease of the slot ends after the action: a renewal as asked, a claim that went through one lease after its stamp. */
  predicate LeasesUntil(c: Config, s: State, a: Action, until: int)
    requires Enabled(c, s, a)
  {
    || a == Renew(until)
    || (|Step(c, s, a).runs| > |s.runs|
        && ((a.ManualSync? && until == a.requestedAt + c.leaseMs) || (a.Requeue? && until == a.requestedAt + c.leaseMs)))
  }

  /** The slot stays taken by the same sync, and nobody renews it. */
  ghost predicate LeftAlone(c: Config, s: State, acts: seq<Action>)
    requires Plays(c, s, acts)
    decreases |acts|
  {
    acts == [] ||
    var s' := Step(c, s, acts[0]);
    s'.slot.inFlight && |s'.runs| == |s.runs| && !acts[0].Renew? && LeftAlone(c, s', acts[1..])
  }

  lemma {:induction false} LeaseIsKept(c: Config, s: State, acts: seq<Action>)
    requires Plays(c, s, acts) && LeftAlone(c, s, acts)
    ensures Final(c, s, acts).slot == s.slot
    decreases |acts|
  {
    if acts != [] {
      LeaseIsKept(c, Step(c, s, acts[0]), acts[1..]);
    }
  }

  /**
   * Exactly when a sync loses its slot: after a claim or a renewal, left alone since, a reset goes through if and only if
   * its pass began when the lease was over, and a new claim if and only if its stamp lies there.
   */
  lemma SlotIsLostIff(c: Config, s: State, a: Action, after: seq<Action>, until: int, b: Action)
    requires Enabled(c, s, a) && LeasesUntil(c, s, a, until)
    requires Plays(c, Step(c, s, a), after) && LeftAlone(c, Step(c, s, a), after)
    requires Enabled(c, Final(c, Step(c, s, a), after), b)
    ensures var s' := Final(c, Step(c, s, a), after);
            && (b.Reset? ==> (Step(c, s', b).slot.inFlight <==> s'.reapers[b.k].now < until))
            && (b.Reset? && until <= s'.reapers[b.k].now ==> Step(c, s', b).slot == Slot(false, None, s'.slot.requestedAt, None))
            && (b.ManualSync? || b.Requeue? ==> (|Step(c, s', b).runs| > |s'.runs| <==> until <= b.requestedAt))
  {
    LeaseIsKept(c, Step(c, s, a), after);
    assert Step(c, s, a).slot.inFlight && Step(c, s, a).slot.leaseUntil == Some(until);
  }

  /** A sync in flight without a lease is lost one lease after its request, or at once if that has no time either. */
  lemma UnleasedSlotIsLostIff(c: Config, s: State, b: Action)
    requires Enabled(c, s, b) && s.slot.inFlight && s.slot.leaseUntil.None?
    ensures b.Reset? ==>
              (Step(c, s, b).slot.inFlight
               <==> s.slot.requestedAt.Some? && s.reapers[b.k].now < s.slot.requestedAt.value + c.leaseMs)
    ensures b.ManualSync? || b.Requeue? ==>
              (|Step(c, s, b).runs| > |s.runs|
               <==> (s.slot.requestedAt.Some? ==> s.slot.requestedAt.value + c.leaseMs <= b.requestedAt))
  {
  }

  lemma {:induction false} RunsOnlyGrow(c: Config, s: State, acts: seq<Action>)
    requires Plays(c, s, acts)
    ensures |s.runs| <= |Final(c, s, acts).runs|
    decreases |acts|
  {
    if acts != [] { RunsOnlyGrow(c, Step(c, s, acts[0]), acts[1..]); }
  }

  lemma {:induction false} FreeStaysFree(c: Config, s: State, acts: seq<Action>)
    requires Plays(c, s, acts) && !s.slot.inFlight && |Final(c, s, acts).runs| == |s.runs|
    ensures !Final(c, s, acts).slot.inFlight
    decreases |acts|
  {
    if acts != [] {
      RunsOnlyGrow(c, Step(c, s, acts[0]), acts[1..]);
      FreeStaysFree(c, Step(c, s, acts[0]), acts[1..]);
    }
  }

  /**
   * A worker that gives the slot up frees it, in every run: until somebody claims it no reset goes through, and the first
   * claim does, whatever its stamp.
   */
  lemma ReleasedSlotIsFree(c: Config, s: State, after: seq<Action>, b: Action)
    requires Plays(c, Step(c, s, ReleaseSlot), after) && |Final(c, Step(c, s, ReleaseSlot), after).runs| == |s.runs|
    requires Enabled(c, Final(c, Step(c, s, ReleaseSlot), after), b)
    ensures var s' := Final(c, Step(c, s, ReleaseSlot), after);
            && (b.Reset? ==> Step(c, s', b) == s'.(reapers := s'.reapers[b.k := Reaper(s'.reapers[b.k].now, Over)]))
            && (b.ManualSync? || b.Requeue? ==> |Step(c, s', b).runs| == |s'.runs| + 1 && Step(c, s', b).slot.inFlight)
  {
    FreeStaysFree(c, Step(c, s, ReleaseSlot), after);
  }

  lemma {:induction false} OverStaysOver(c: Config, s: State, acts: seq<Action>, k: ReaperId)
    requires Plays(c, s, acts) && k in s.reapers && s.reapers[k].stage.Over?
    ensures k in Final(c, s, acts).reapers && Final(c, s, acts).reapers[k] == s.reapers[k]
    decreases |acts|
  {
    if acts != [] {
      OverStaysOver(c, Step(c, s, acts[0]), acts[1..], k);
    }
  }

  /** A sync that cannot be replayed, or whose budget is spent, is reset but never re-queued by its reaper. */
  lemma SpentSyncIsNotRequeued(c: Config, s: State, k: ReaperId, replayable: bool, after: seq<Action>, at: int)
    requires Enabled(c, s, Reset(k, replayable)) && (!replayable || c.maxRecoveries < s.reapers[k].stage.attempt)
    requires Plays(c, Step(c, s, Reset(k, replayable)), after)
    ensures !Enabled(c, Final(c, Step(c, s, Reset(k, replayable)), after), Requeue(k, at))
  {
    OverStaysOver(c, Step(c, s, Reset(k, replayable)), after, k);
  }

  /** The recorded runs are those that were created, each once; the others wait for their record. */
  ghost predicate RecordsOk(s: State) {
    && (forall id: nat :: id < |s.runs| ==> (id in s.created <==> !s.runs[id].status.Unrecorded?))
    && (forall i, j :: 0 <= i < j < |s.created| ==> s.created[i] != s.created[j])
    && (forall i :: 0 <= i < |s.created| ==> s.created[i] < |s.runs|)
  }

  /** In every run: nothing closes a run before it is recorded, and no run is recorded twice. */
  lemma {:induction false} RecordsHold(c: Config, s: State, acts: seq<Action>)
    requires RecordsOk(s) && Plays(c, s, acts)
    ensures RecordsOk(Final(c, s, acts))
    decreases |acts|
  {
    if acts != [] {
      StepKeepsRecords(c, s, acts[0]);
      RecordsHold(c, Step(c, s, acts[0]), acts[1..]);
    }
  }

  lemma StepKeepsRecords(c: Config, s: State, a: Action)
    requires RecordsOk(s) && Enabled(c, s, a)
    ensures RecordsOk(Step(c, s, a))
  {
    var s' := Step(c, s, a);
    if a.Record? {
      forall id: nat | id < |s'.runs| ensures id in s'.created <==> !s'.runs[id].status.Unrecorded? {
        assert id in s'.created <==> id in s.created || id == a.id;
      }
    }
  }

  // ----- Old data. -----

  /** In every run: a reaper holding old data never resets a sync that took the slot after it looked. */
  lemma OldDataIsRefused(c: Config, acts: seq<Action>, k: ReaperId, replayable: bool)
    requires Plays(c, Init, acts) && Enabled(c, Final(c, Init, acts), Reset(k, replayable))
    requires var s := Final(c, Init, acts); s.slot.current != s.reapers[k].stage.holder || s.reapers[k].stage.live
    ensures var s := Final(c, Init, acts); Step(c, s, Reset(k, replayable)) == SetStage(s, k, Over)
  {
    InvHolds(c, Init, acts);
    var s := Final(c, Init, acts);
    if s.slot.inFlight && Expired(c, s.slot, s.reapers[k].now) {
      ResetOnlyOwnEpisode(c, s, k);
    }
  }

  predicate ResetsBy(a: Action, k: ReaperId) { a.Reset? && a.k == k }

  lemma {:induction false} LookIsKept(c: Config, s: State, acts: seq<Action>, k: ReaperId)
    requires Plays(c, s, acts) && k in s.reapers && s.reapers[k].stage.Looked?
    requires forall a :: a in acts ==> !ResetsBy(a, k)
    ensures k in Final(c, s, acts).reapers && Final(c, s, acts).reapers[k] == s.reapers[k]
    decreases |acts|
  {
    if acts != [] {
      assert !ResetsBy(acts[0], k);
      LookIsKept(c, Step(c, s, acts[0]), acts[1..], k);
    }
  }

  /**
   * In every run, whatever happens between a reaper's look and its reset: if the reset finds a lapsed sync, that is the
   * sync that held the slot at the look, with its lease already past then; and what the reaper goes on is what it saw.
   */
  lemma ResetTakesTheSlotSeen(c: Config, before: seq<Action>, k: ReaperId, between: seq<Action>)
    requires Plays(c, Init, before) && Enabled(c, Final(c, Init, before), LookUp(k))
    requires Plays(c, Step(c, Final(c, Init, before), LookUp(k)), between)
    requires forall a :: a in between ==> !ResetsBy(a, k)
    requires var s' := Final(c, Step(c, Final(c, Init, before), LookUp(k)), between);
             s'.slot.inFlight && k in s'.reapers && Expired(c, s'.slot, s'.reapers[k].now)
    ensures var s := Final(c, Init, before);
            var s' := Final(c, Step(c, s, LookUp(k)), between);
            && s'.slot.current == s.slot.current && s'.reapers[k].stage == Look(s, s'.reapers[k].now)
            && !(s.slot.leaseUntil.Some? && s'.reapers[k].now < s.slot.leaseUntil.value)
  {
    var s := Final(c, Init, before);
    InvHolds(c, Init, before);
    StepKeepsInv(c, s, LookUp(k));
    var t := Step(c, s, LookUp(k));
    InvHolds(c, t, between);
    LookIsKept(c, t, between, k);
    ResetOnlyOwnEpisode(c, Final(c, t, between), k);
  }

  /** `holder` was recorded at `i`, is open, and no run recorded after it is. */
  predicate OpenAndNewest(runs: seq<SyncRun>, created: seq<RunId>, holder: RunId, i: int) {
    && 0 <= i < |created| && created[i] == holder < |runs| && runs[holder].status.Open?
    && forall j :: i < j < |created| && created[j] < |runs| ==> !runs[created[j]].status.Open?
  }

  lemma {:induction false} NewestOpenStands(runs: seq<SyncRun>, created: seq<RunId>) returns (i: int)
    requires NewestOpen(runs, created).Some?
    ensures OpenAndNewest(runs, created, NewestOpen(runs, created).value, i)
  {
    var n := |created| - 1;
    if created[n] < |runs| && runs[created[n]].status.Open? {
      i := n;
    } else {
      i := NewestOpenStands(runs, created[..n]);
      assert forall j :: i < j < n ==> created[..n][j] == created[j];
    }
  }

  lemma {:induction false} OpenAndNewestIsFound(runs: seq<SyncRun>, created: seq<RunId>, holder: RunId, i: int)
    requires OpenAndNewest(runs, created, holder, i)
    ensures NewestOpen(runs, created) == Some(holder)
  {
    var n := |created| - 1;
    if i < n {
      assert OpenAndNewest(runs, created[..n], holder, i);
      OpenAndNewestIsFound(runs, created[..n], holder, i);
    }
  }

  /** A look finds the slot's holder exactly when the holder's run is open and no run recorded after it is. */
  lemma LookFindsHolderIff(runs: seq<SyncRun>, created: seq<RunId>, holder: RunId)
    ensures NewestOpen(runs, created) == Some(holder) <==> exists i :: OpenAndNewest(runs, created, holder, i)
  {
    if NewestOpen(runs, created) == Some(holder) {
      var i := NewestOpenStands(runs, created);
    }
    if i :| OpenAndNewest(runs, created, holder, i) {
      OpenAndNewestIsFound(runs, created, holder, i);
    }
  }

  // ----- The recovery chain. -----

  /** A recovery recovers the sync it displaced. */
  predicate Continues(run: SyncRun) { run.origin.Recovery? ==> run.origin.recoveredFrom == run.origin.displaced }

  /** The look that led to a recovery had found the sync that held the slot. */
  predicate LookFound(run: SyncRun) { run.origin.Recovery? ==> run.origin.found }

  /**
   * In every run, every re-queue recovers the very sync it displaced if and only if every look that led to a
   * re-queue had found the sync that held the slot: what happens between look and reset does not matter.
   */
  lemma RequeuesContinueIff(c: Config, acts: seq<Action>)
    requires Plays(c, Init, acts)
    ensures var runs := Final(c, Init, acts).runs;
            (forall run :: run in runs ==> Continues(run)) <==> (forall run :: run in runs ==> LookFound(run))
  {
    InvHolds(c, Init, acts);
    var runs := Final(c, Init, acts).runs;
    forall run | run in runs ensures Continues(run) <==> LookFound(run) {
      var q :| 0 <= q < |runs| && runs[q] == run;
      assert RunOk(c, runs, q);
    }
  }

  /** How many recoveries truly lie behind a sync, through the syncs displaced. */
  function Depth(runs: seq<SyncRun>, q: nat): nat
    requires q < |runs|
    decreases q
  {
    match runs[q].origin
    case Manual => 0
    case Recovery(_, displaced, _) => if displaced.Some? && displaced.value < q then 1 + Depth(runs, displaced.value) else 1
  }

  lemma {:induction false} DepthOfSameHistory(a: seq<SyncRun>, b: seq<SyncRun>, q: nat)
    requires q < |a| <= |b| && SameHistory(a, b[..|a|])
    ensures Depth(a, q) == Depth(b, q)
    decreases q
  {
    assert b[..|a|][q] == b[q];
    var origin := a[q].origin;
    if origin.Recovery? && origin.displaced.Some? && origin.displaced.value < q {
      DepthOfSameHistory(a, b, origin.displaced.value);
    }
  }

  /** The stored attempt number is the true count, as long as every look found its holder. */
  lemma {:induction false} CountIsTrue(c: Config, runs: seq<SyncRun>, q: nat)
    requires RunsOk(c, runs) && q < |runs| && forall run :: run in runs ==> LookFound(run)
    ensures runs[q].recoveryAttempt == Depth(runs, q)
    decreases q
  {
    assert RunOk(c, runs, q) && LookFound(runs[q]);
    if runs[q].origin.Recovery? {
      CountIsTrue(c, runs, runs[q].origin.displaced.value);
    }
  }

  /** `q` was re-queued, directly or through other recoveries, after `root` lost its slot. */
  predicate Descends(runs: seq<SyncRun>, q: nat, root: nat)
    requires q < |runs|
    decreases q
  {
    && runs[q].origin.Recovery?
    && var from := runs[q].origin.displaced;
       from.Some? && from.value < q && (from.value == root || Descends(runs, from.value, root))
  }

  lemma {:induction false} DescendantIsDeeper(runs: seq<SyncRun>, q: nat, root: nat)
    requires q < |runs| && root < |runs| && Descends(runs, q, root)
    ensures root < q && Depth(runs, root) < Depth(runs, q)
    decreases q
  {
    var from := runs[q].origin.displaced.value;
    if from != root {
      DescendantIsDeeper(runs, from, root);
    }
  }

  /** A chain never forks: two recoveries of one sync with the same number of recoveries behind them are the same run. */
  lemma {:induction false} ChainNeverForks(runs: seq<SyncRun>, q1: nat, q2: nat, root: nat)
    requires DisplacedOnce(runs) && q1 < |runs| && q2 < |runs| && root < |runs|
    requires Descends(runs, q1, root) && Descends(runs, q2, root) && Depth(runs, q1) == Depth(runs, q2)
    ensures q1 == q2
    decreases q1
  {
    var f1, f2 := runs[q1].origin.displaced.value, runs[q2].origin.displaced.value;
    if f1 != root { DescendantIsDeeper(runs, f1, root); }
    if f2 != root { DescendantIsDeeper(runs, f2, root); }
    if f1 != root && f2 != root {
      ChainNeverForks(runs, f1, f2, root);
    }
    assert f1 == f2;
    assert Displaces(runs[q1], Some(f1)) && Displaces(runs[q2], Some(f1));
  }

  ghost function Recoveries(runs: seq<SyncRun>, root: nat, depth: int): set<nat>
    requires root < |runs|
  {
    set q: nat | q < |runs| && Descends(runs, q, root) && Depth(runs, q) <= depth
  }

  /** Each further depth adds at most one run to the chain. */
  lemma OneRecoveryPerDepth(runs: seq<SyncRun>, root: nat, depth: int)
    requires DisplacedOnce(runs) && root < |runs|
    ensures |Recoveries(runs, root, depth)| <= |Recoveries(runs, root, depth - 1)| + 1
  {
    var all, fewer := Recoveries(runs, root, depth), Recoveries(runs, root, depth - 1);
    if q :| q in all && q !in fewer {
      forall p | p in all && p !in fewer ensures p == q {
        ChainNeverForks(runs, p, q, root);
      }
      assert all == fewer + {q};
    } else {
      assert all == fewer;
    }
  }

  lemma {:induction false} RecoveriesUpTo(runs: seq<SyncRun>, root: nat, m: nat)
    requires DisplacedOnce(runs) && root < |runs|
    ensures |Recoveries(runs, root, Depth(runs, root) + m)| <= m
  {
    var base := Depth(runs, root);
    if m == 0 {
      var none := Recoveries(runs, root, base);
      if q :| q in none {
        DescendantIsDeeper(runs, q, root);
      }
      assert none == {};
    } else {
      RecoveriesUpTo(runs, root, m - 1);
      OneRecoveryPerDepth(runs, root, base + m);
      assert base + m - 1 == base + (m - 1);
    }
  }

  /**
   * Bounded recovery: in every run in which every look that led to a re-queue had found its holder, no sync has
   * more than `maxRecoveries` recoveries behind it, and a sync is re-queued, through its whole chain, at most
   * that often. (In every run at all, each sync that lost its slot is re-queued at most once.)
   */
  lemma BoundedRecoveryChain(c: Config, acts: seq<Action>, root: nat)
    requires Plays(c, Init, acts) && root < |Final(c, Init, acts).runs|
    ensures DisplacedOnce(Final(c, Init, acts).runs)
    ensures var runs := Final(c, Init, acts).runs;
            (forall run :: run in runs ==> LookFound(run)) ==>
              && Depth(runs, root) <= c.maxRecoveries
              && |Recoveries(runs, root, c.maxRecoveries)| <= c.maxRecoveries - Depth(runs, root)
              && forall q: nat :: q < |runs| && Descends(runs, q, root) ==> q in Recoveries(runs, root, c.maxRecoveries)
  {
    InvHolds(c, Init, acts);
    var runs := Final(c, Init, acts).runs;
    if forall run :: run in runs ==> LookFound(run) {
      forall q: nat | q < |runs| ensures Depth(runs, q) <= c.maxRecoveries {
        CountIsTrue(c, runs, q);
        assert RunOk(c, runs, q);
      }
      RecoveriesUpTo(runs, root, c.maxRecoveries - Depth(runs, root));
    }
  }
}
