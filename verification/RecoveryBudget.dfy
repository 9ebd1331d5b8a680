/** When the recovery budget of a connector can be overrun: exactly when, and a run that does it for every budget. */
module RecoveryBudget {
  import opened Common
  import opened RecoveryRuns

  /** A sync in flight whose lease has run out. */
  predicate Lapsed(c: Config, s: State) { s.slot.inFlight && Expired(c, s.slot, s.clock) }

  function ClosedBelow(runs: seq<SyncRun>, n: nat): (r: seq<SyncRun>)
    ensures |r| == |runs| && forall i :: 0 <= i < |runs| ==> r[i] == if i < n then ClosedRun(runs[i]) else runs[i]
  {
    seq(|runs|, i requires 0 <= i < |runs| => if i < n then ClosedRun(runs[i]) else runs[i])
  }

  /** The state after one undisturbed reaper pass over a lapsed slot, at the moment its re-queue has lapsed in turn. */
  function AfterPass(c: Config, s: State, k: ReaperId): State {
    if !Lapsed(c, s) then s
    else
      var runs, reapers := ClosedBelow(s.runs, |s.runs|), s.reapers[k := Reaper(s.clock, Over)];
      var previous := NewestOpen(s.runs, s.created);
      var found := previous.Some? && previous == s.slot.current;
      if Counted(s) + 1 > c.maxRecoveries then State(s.clock, Free(s.slot), runs, s.created, reapers)
      else State(s.clock + Max(0, c.leaseMs), Slot(true, Some(s.clock + c.leaseMs), Some(s.clock), Some(|runs|)),
                 runs + [SyncRun(Open, Counted(s) + 1, Recovery(previous, s.slot.current, found))],
                 s.created + [|runs|], reapers)
  }

  function Passes(c: Config, s: State, k: ReaperId, n: nat): State
    decreases n
  {
    if n == 0 then s else Passes(c, AfterPass(c, s, k), k + 1, n - 1)
  }

  /** The recoveries behind the newest sync. */
  function TrueCount(s: State): nat {
    if s.runs == [] then 0 else Depth(s.runs, |s.runs| - 1)
  }

  lemma NewestOpenIsLast(runs: seq<SyncRun>, created: seq<RunId>, id: RunId)
    requires id < |runs| && runs[id].status.Open?
    ensures NewestOpen(runs, created + [id]) == Some(id)
  {
    assert (created + [id])[|created|] == id;
  }

  /** One more recovery, of the newest sync. */
  lemma DepthOfNext(runs: seq<SyncRun>, closed: seq<SyncRun>, run: SyncRun)
    requires runs != [] && SameHistory(runs, closed) && Displaces(run, Some(|runs| - 1))
    ensures Depth(closed + [run], |runs|) == Depth(runs, |runs| - 1) + 1
  {
    var longer := closed + [run];
    assert longer[..|runs|] == closed;
    DepthOfSameHistory(runs, longer, |runs| - 1);
  }

  lemma PassRequeues(c: Config, s: State, k: ReaperId)
    requires SlotOk(s) && Lapsed(c, s) && Counted(s) < c.maxRecoveries
    ensures var s' := AfterPass(c, s, k);
            SlotOk(s') && Lapsed(c, s') && Counted(s') == Counted(s) + 1 && TrueCount(s') == TrueCount(s) + 1
  {
    var s' := AfterPass(c, s, k);
    var closed := ClosedBelow(s.runs, |s.runs|);
    NewestOpenIsLast(s'.runs, s.created, |s.runs|);
    DepthOfNext(s.runs, closed, s'.runs[|s.runs|]);
  }

  lemma PassGivesUp(c: Config, s: State, k: ReaperId)
    requires SlotOk(s) && Lapsed(c, s) && Counted(s) >= c.maxRecoveries
    ensures var s' := AfterPass(c, s, k);
            SlotOk(s') && !Lapsed(c, s') && TrueCount(s') == TrueCount(s)
  {
    var closed := ClosedBelow(s.runs, |s.runs|);
    assert closed[..|s.runs|] == closed;
    DepthOfSameHistory(s.runs, closed, |s.runs| - 1);
  }

  lemma {:induction false} PassesCount(c: Config, s: State, k: ReaperId, n: nat, left: nat)
    requires SlotOk(s) && Lapsed(c, s) && Counted(s) + left == c.maxRecoveries
    ensures TrueCount(Passes(c, s, k, n)) == TrueCount(s) + Min(n, left)
    decreases n
  {
    if n > 0 {
      var s' := AfterPass(c, s, k);
      if left > 0 {
        PassRequeues(c, s, k);
        PassesCount(c, s', k + 1, n - 1, left - 1);
      } else {
        PassGivesUp(c, s, k);
        PassesIdle(c, s', k + 1, n - 1);
      }
    }
  }

  lemma {:induction false} PassesIdle(c: Config, s: State, k: ReaperId, n: nat)
    requires !Lapsed(c, s)
    ensures Passes(c, s, k, n) == s
    decreases n
  {
    if n > 0 { PassesIdle(c, s, k + 1, n - 1); }
  }

  lemma CountedWithinBudget(c: Config, s: State)
    requires RunsOk(c, s.runs)
    ensures Counted(s) <= c.maxRecoveries
  {
    var previous := NewestOpen(s.runs, s.created);
    if previous.Some? { assert RunOk(c, s.runs, previous.value); }
  }

  // ----- Orderly continuations. -----

  /**
   * A look in good order, given that the sync `h` held the slot to begin with and a look then counted `counted`
   * recoveries: at `h` it still counts that, and a later sync that holds the slot is found.
   */
  predicate GoodLook(h: RunId, counted: nat, s: State) {
    s.slot.current.Some? ==>
      if s.slot.current == Some(h) then Counted(s) == counted else NewestOpen(s.runs, s.created) == s.slot.current
  }

  /** Each sync claimed from here on is recorded, and stays open, until the next look: every look is in good order. */
  ghost predicate Orderly(c: Config, h: RunId, counted: nat, s: State, acts: seq<Action>)
    requires Plays(c, s, acts)
    decreases |acts|
  {
    acts == [] || ((acts[0].LookUp? ==> GoodLook(h, counted, s)) && Orderly(c, h, counted, Step(c, s, acts[0]), acts[1..]))
  }

  lemma {:induction false} OrderlyMore(c: Config, h: RunId, counted: nat, s: State, acts: seq<Action>, more: seq<Action>)
    requires Plays(c, s, acts) && Plays(c, Final(c, s, acts), more)
    requires Orderly(c, h, counted, s, acts) && Orderly(c, h, counted, Final(c, s, acts), more)
    ensures Plays(c, s, acts + more) && Orderly(c, h, counted, s, acts + more)
    decreases |acts|
  {
    PlaysMore(c, s, acts, more);
    if acts == [] {
      assert acts + more == more;
    } else {
      assert (acts + more)[0] == acts[0] && (acts + more)[1..] == acts[1..] + more;
      OrderlyMore(c, h, counted, Step(c, s, acts[0]), acts[1..], more);
    }
  }

  lemma OrderlyOneMore(c: Config, h: RunId, counted: nat, s: State, acts: seq<Action>, a: Action)
    requires Plays(c, s, acts) && Enabled(c, Final(c, s, acts), a) && Orderly(c, h, counted, s, acts)
    requires a.LookUp? ==> GoodLook(h, counted, Final(c, s, acts))
    ensures Plays(c, s, acts + [a]) && Orderly(c, h, counted, s, acts + [a])
    ensures Final(c, s, acts + [a]) == Step(c, Final(c, s, acts), a)
  {
    assert [a][1..] == [];
    OrderlyMore(c, h, counted, s, acts, [a]);
    PlaysOneMore(c, s, acts, a);
  }

  lemma {:induction false} NoLooksOrderly(c: Config, h: RunId, counted: nat, s: State, acts: seq<Action>)
    requires Plays(c, s, acts) && forall a :: a in acts ==> !a.LookUp?
    ensures Orderly(c, h, counted, s, acts)
    decreases |acts|
  {
    if acts != [] { NoLooksOrderly(c, h, counted, Step(c, s, acts[0]), acts[1..]); }
  }

  /** No user starts a sync, and nobody but reapers, and workers that close runs, does anything. */
  predicate NoRequests(acts: seq<Action>) {
    forall a :: a in acts ==> !a.ManualSync? && !a.ReleaseSlot? && !a.Renew?
  }

  /** Closing the runs one after the other. */
  lemma {:induction false} ClosesPlay(c: Config, s: State, n: nat) returns (acts: seq<Action>)
    requires n <= |s.runs|
    ensures Plays(c, s, acts) && Final(c, s, acts) == s.(runs := ClosedBelow(s.runs, n))
    ensures forall a :: a in acts ==> a.CloseRun?
  {
    if n == 0 {
      acts := [];
      assert ClosedBelow(s.runs, 0) == s.runs;
    } else {
      acts := ClosesPlay(c, s, n - 1);
      PlaysOneMore(c, s, acts, CloseRun(n - 1));
      acts := acts + [CloseRun(n - 1)];
      var before := ClosedBelow(s.runs, n - 1);
      assert ClosedBelow(s.runs, n) == before[n - 1 := ClosedRun(before[n - 1])];
    }
  }

  /** Begin, look, reset. */
  lemma TakePlays(c: Config, s: State, k: ReaperId, h: RunId, counted: nat) returns (acts: seq<Action>)
    requires Lapsed(c, s) && k !in s.reapers && GoodLook(h, counted, s)
    ensures Plays(c, s, acts) && NoRequests(acts) && Orderly(c, h, counted, s, acts)
    ensures var found := NewestOpen(s.runs, s.created).Some? && NewestOpen(s.runs, s.created) == s.slot.current;
            var stage := if Counted(s) + 1 <= c.maxRecoveries
                         then Taken(NewestOpen(s.runs, s.created), Counted(s) + 1, s.slot.current, found) else Over;
            Final(c, s, acts) == s.(slot := Free(s.slot), reapers := s.reapers[k := Reaper(s.clock, stage)])
  {
    acts := [];
    assert Plays(c, s, acts) && Final(c, s, acts) == s && Orderly(c, h, counted, s, acts);
    OrderlyOneMore(c, h, counted, s, acts, BeginPass(k));
    acts := acts + [BeginPass(k)];
    assert GoodLook(h, counted, Final(c, s, acts));
    OrderlyOneMore(c, h, counted, s, acts, LookUp(k));
    acts := acts + [LookUp(k)];
    OrderlyOneMore(c, h, counted, s, acts, Reset(k, true));
    acts := acts + [Reset(k, true)];
  }

  /** Re-queue, record, and let the lease run out. */
  lemma RequeuePlays(c: Config, s: State, k: ReaperId) returns (acts: seq<Action>)
    requires c.leaseMs > 0 && !s.slot.inFlight && k in s.reapers && s.reapers[k].stage.Taken?
    ensures Plays(c, s, acts) && NoRequests(acts) && forall a :: a in acts ==> !a.LookUp?
    ensures var seen := s.reapers[k].stage;
            Final(c, s, acts) ==
            State(s.clock + c.leaseMs, Slot(true, Some(s.clock + c.leaseMs), Some(s.clock), Some(|s.runs|)),
                  s.runs + [SyncRun(Open, seen.attempt, Recovery(seen.previous, seen.displaced, seen.found))],
                  s.created + [|s.runs|], s.reapers[k := s.reapers[k].(stage := Over)])
  {
    acts := [];
    assert Plays(c, s, acts) && Final(c, s, acts) == s;
    PlaysOneMore(c, s, acts, Requeue(k, s.clock));
    acts := acts + [Requeue(k, s.clock)];
    PlaysOneMore(c, s, acts, Record(|s.runs|));
    acts := acts + [Record(|s.runs|)];
    PlaysOneMore(c, s, acts, Tick(c.leaseMs));
    acts := acts + [Tick(c.leaseMs)];
  }

  lemma PassPlays(c: Config, s: State, k: ReaperId, h: RunId, counted: nat) returns (acts: seq<Action>)
    requires c.leaseMs > 0 && Lapsed(c, s) && k !in s.reapers && GoodLook(h, counted, s)
    ensures Plays(c, s, acts) && Final(c, s, acts) == AfterPass(c, s, k)
    ensures NoRequests(acts) && Orderly(c, h, counted, s, acts)
  {
    var take := TakePlays(c, s, k, h, counted);
    var s1 := Final(c, s, take);
    var closes := ClosesPlay(c, s1, |s1.runs|);
    NoLooksOrderly(c, h, counted, s1, closes);
    PlaysMore(c, s, take, closes);
    OrderlyMore(c, h, counted, s, take, closes);
    acts := take + closes;
    if Counted(s) + 1 <= c.maxRecoveries {
      var s2 := Final(c, s1, closes);
      var more := RequeuePlays(c, s2, k);
      NoLooksOrderly(c, h, counted, s2, more);
      PlaysMore(c, s, acts, more);
      OrderlyMore(c, h, counted, s, acts, more);
      acts := acts + more;
      assert s1.reapers[k := s1.reapers[k].(stage := Over)] == s.reapers[k := Reaper(s.clock, Over)];
    }
  }

  lemma PassLeavesGoodLook(c: Config, s: State, k: ReaperId, h: RunId, counted: nat)
    requires GoodLook(h, counted, s) && h < |s.runs|
    ensures GoodLook(h, counted, AfterPass(c, s, k)) && h < |AfterPass(c, s, k).runs|
  {
    var s' := AfterPass(c, s, k);
    if Lapsed(c, s) && Counted(s) + 1 <= c.maxRecoveries {
      NewestOpenIsLast(s'.runs, s.created, |s.runs|);
    }
  }

  /** Passes by one fresh reaper after another are an orderly run. */
  lemma {:induction false} PassesPlay(c: Config, s: State, k: ReaperId, n: nat, h: RunId, counted: nat) returns (acts: seq<Action>)
    requires c.leaseMs > 0 && forall j :: j in s.reapers ==> j < k
    requires GoodLook(h, counted, s) && h < |s.runs|
    ensures Plays(c, s, acts) && Final(c, s, acts) == Passes(c, s, k, n)
    ensures NoRequests(acts) && Orderly(c, h, counted, s, acts)
    decreases n
  {
    acts := [];
    if n > 0 {
      if Lapsed(c, s) {
        acts := PassPlays(c, s, k, h, counted);
      }
      OnlyOneMoreReaper(c, s, k);
      PassLeavesGoodLook(c, s, k, h, counted);
      var more := PassesPlay(c, AfterPass(c, s, k), k + 1, n - 1, h, counted);
      PlaysMore(c, s, acts, more);
      OrderlyMore(c, h, counted, s, acts, more);
      acts := acts + more;
    }
  }

  lemma OnlyOneMoreReaper(c: Config, s: State, k: ReaperId)
    requires forall j :: j in s.reapers ==> j < k
    ensures forall j :: j in AfterPass(c, s, k).reapers ==> j < k + 1
  {
  }

  // ----- What orderly continuations keep. -----

  /** The count of a sync claimed since is true, or as far off as a look at the first holder was. */
  ghost predicate Tracked(runs: seq<SyncRun>, q: nat, counted: nat, depth: nat)
    requires q < |runs|
  {
    runs[q].recoveryAttempt == Depth(runs, q) || runs[q].recoveryAttempt + depth == Depth(runs, q) + counted
  }

  /** A reaper that looked at `h` or a later sync, and what it counts. */
  predicate Attempts(runs: seq<SyncRun>, h: RunId, counted: nat, holder: Option<RunId>, attempt: nat) {
    holder.Some? ==>
      && h <= holder.value < |runs|
      && attempt == 1 + if holder.value == h then counted else runs[holder.value].recoveryAttempt
  }

  ghost predicate OrderlyReaper(runs: seq<SyncRun>, h: RunId, counted: nat, r: Reaper) {
    && (r.stage.Looked? ==> Attempts(runs, h, counted, r.stage.holder, r.stage.attempt))
    && (r.stage.Taken? ==> Attempts(runs, h, counted, r.stage.displaced, r.stage.attempt))
  }

  ghost predicate OrderlyInv(c: Config, h: RunId, counted: nat, depth: nat, s: State) {
    && Inv(c, s) && h < |s.runs| && Depth(s.runs, h) == depth
    && (s.slot.current.Some? ==> h <= s.slot.current.value)
    && (forall q :: h < q < |s.runs| ==> Tracked(s.runs, q, counted, depth))
    && (forall k :: k in s.reapers ==> OrderlyReaper(s.runs, h, counted, s.reapers[k]))
  }

  lemma ClaimStaysOrderly(c: Config, h: RunId, counted: nat, depth: nat, s: State, at: int, attempt: nat, origin: Origin)
    requires OrderlyInv(c, h, counted, depth, s) && Inv(c, Claim(c, s, at, attempt, origin))
    requires origin.Manual? ==> attempt == 0
    requires origin.Recovery? ==> origin.displaced.Some? && Attempts(s.runs, h, counted, origin.displaced, attempt)
    ensures OrderlyInv(c, h, counted, depth, Claim(c, s, at, attempt, origin))
  {
    var s' := Claim(c, s, at, attempt, origin);
    assert s'.runs[..|s.runs|] == s.runs;
    forall q: nat | q < |s.runs| ensures Depth(s'.runs, q) == Depth(s.runs, q) {
      DepthOfSameHistory(s.runs, s'.runs, q);
    }
    forall q | h < q < |s'.runs| ensures Tracked(s'.runs, q, counted, depth) {
      if q < |s.runs| {
        assert Tracked(s.runs, q, counted, depth);
      } else if origin.Recovery? {
        var d := origin.displaced.value;
        assert Depth(s'.runs, q) == 1 + Depth(s'.runs, d);
        if d > h { assert Tracked(s.runs, d, counted, depth); }
      }
    }
    forall k | k in s'.reapers ensures OrderlyReaper(s'.runs, h, counted, s'.reapers[k]) {
      assert OrderlyReaper(s.runs, h, counted, s.reapers[k]);
    }
  }

  lemma StatusStaysOrderly(c: Config, h: RunId, counted: nat, depth: nat, s: State, s': State)
    requires OrderlyInv(c, h, counted, depth, s) && Inv(c, s')
    requires SameHistory(s.runs, s'.runs) && s'.slot == s.slot && s'.reapers == s.reapers
    ensures OrderlyInv(c, h, counted, depth, s')
  {
    assert s'.runs[..|s.runs|] == s'.runs;
    forall q: nat | q < |s.runs| ensures Depth(s'.runs, q) == Depth(s.runs, q) {
      DepthOfSameHistory(s.runs, s'.runs, q);
    }
    forall q | h < q < |s'.runs| ensures Tracked(s'.runs, q, counted, depth) {
      assert Tracked(s.runs, q, counted, depth);
    }
    forall k | k in s'.reapers ensures OrderlyReaper(s'.runs, h, counted, s'.reapers[k]) {
      assert OrderlyReaper(s.runs, h, counted, s.reapers[k]);
    }
  }

  /** Steps that leave the runs alone: no new holder, and at most one reaper that moves on in order. */
  lemma ReaperStaysOrderly(c: Config, h: RunId, counted: nat, depth: nat, s: State, s': State)
    requires OrderlyInv(c, h, counted, depth, s) && Inv(c, s')
    requires s'.runs == s.runs && (s'.slot.current == s.slot.current || s'.slot.current.None?)
    requires forall k :: k in s'.reapers ==> OrderlyReaper(s.runs, h, counted, s'.reapers[k])
    ensures OrderlyInv(c, h, counted, depth, s')
  {
  }

  lemma LookStaysOrderly(c: Config, h: RunId, counted: nat, depth: nat, s: State, k: ReaperId)
    requires OrderlyInv(c, h, counted, depth, s) && Enabled(c, s, LookUp(k)) && GoodLook(h, counted, s)
    ensures OrderlyInv(c, h, counted, depth, Step(c, s, LookUp(k)))
  {
    var s' := Step(c, s, LookUp(k));
    StepKeepsInv(c, s, LookUp(k));
    forall j | j in s'.reapers ensures OrderlyReaper(s.runs, h, counted, s'.reapers[j]) {
      if j != k { assert OrderlyReaper(s.runs, h, counted, s.reapers[j]); }
    }
    ReaperStaysOrderly(c, h, counted, depth, s, s');
  }

  lemma ResetStaysOrderly(c: Config, h: RunId, counted: nat, depth: nat, s: State, k: ReaperId, replayable: bool)
    requires OrderlyInv(c, h, counted, depth, s) && Enabled(c, s, Reset(k, replayable))
    ensures OrderlyInv(c, h, counted, depth, Step(c, s, Reset(k, replayable)))
  {
    var s' := Step(c, s, Reset(k, replayable));
    StepKeepsInv(c, s, Reset(k, replayable));
    if s.slot.inFlight && Expired(c, s.slot, s.reapers[k].now) {
      ResetOnlyOwnEpisode(c, s, k);
    }
    forall j | j in s'.reapers ensures OrderlyReaper(s.runs, h, counted, s'.reapers[j]) {
      assert OrderlyReaper(s.runs, h, counted, s.reapers[j]);
    }
    ReaperStaysOrderly(c, h, counted, depth, s, s');
  }

  lemma RequeueStaysOrderly(c: Config, h: RunId, counted: nat, depth: nat, s: State, k: ReaperId, at: int)
    requires OrderlyInv(c, h, counted, depth, s) && Enabled(c, s, Requeue(k, at))
    ensures OrderlyInv(c, h, counted, depth, Step(c, s, Requeue(k, at)))
  {
    var over := SetStage(s, k, Over);
    var seen := s.reapers[k].stage;
    StepKeepsInv(c, s, Requeue(k, at));
    assert ReaperOk(c, s, s.reapers[k]) && OrderlyReaper(s.runs, h, counted, s.reapers[k]);
    OverKeepsInv(c, s, k);
    forall j | j in over.reapers ensures OrderlyReaper(s.runs, h, counted, over.reapers[j]) {
      assert OrderlyReaper(s.runs, h, counted, s.reapers[j]);
    }
    ReaperStaysOrderly(c, h, counted, depth, s, over);
    if CanClaim(c, s, at) {
      ClaimStaysOrderly(c, h, counted, depth, over, at, seen.attempt, Recovery(seen.previous, seen.displaced, seen.found));
    }
  }

  lemma OverKeepsInv(c: Config, s: State, k: ReaperId)
    requires Inv(c, s) && k in s.reapers
    ensures Inv(c, SetStage(s, k, Over))
  {
    var s' := SetStage(s, k, Over);
    forall j | j in s'.reapers ensures ReaperOk(c, s', s'.reapers[j]) {
      assert ReaperOk(c, s, s.reapers[j]);
    }
  }

  lemma StepStaysOrderly(c: Config, h: RunId, counted: nat, depth: nat, s: State, a: Action)
    requires OrderlyInv(c, h, counted, depth, s) && Enabled(c, s, a) && (a.LookUp? ==> GoodLook(h, counted, s))
    ensures OrderlyInv(c, h, counted, depth, Step(c, s, a))
  {
    var s' := Step(c, s, a);
    StepKeepsInv(c, s, a);
    match a {
      case LookUp(k) => LookStaysOrderly(c, h, counted, depth, s, k);
      case Reset(k, replayable) => ResetStaysOrderly(c, h, counted, depth, s, k, replayable);
      case Requeue(k, at) => RequeueStaysOrderly(c, h, counted, depth, s, k, at);
      case ManualSync(at) => if CanClaim(c, s, at) { ClaimStaysOrderly(c, h, counted, depth, s, at, 0, Manual); }
      case Record(_) => StatusStaysOrderly(c, h, counted, depth, s, s');
      case CloseRun(_) => StatusStaysOrderly(c, h, counted, depth, s, s');
      case _ => ReaperStaysOrderly(c, h, counted, depth, s, s');
    }
  }

  lemma {:induction false} OrderlyInvHolds(c: Config, h: RunId, counted: nat, depth: nat, s: State, acts: seq<Action>)
    requires OrderlyInv(c, h, counted, depth, s) && Plays(c, s, acts) && Orderly(c, h, counted, s, acts)
    ensures OrderlyInv(c, h, counted, depth, Final(c, s, acts))
    decreases |acts|
  {
    if acts != [] {
      StepStaysOrderly(c, h, counted, depth, s, acts[0]);
      OrderlyInvHolds(c, h, counted, depth, Step(c, s, acts[0]), acts[1..]);
    }
  }

  // ----- Exactly when. -----

  /** Nobody is between a look and a re-queue. */
  predicate NobodyLooked(s: State) {
    forall k :: k in s.reapers ==> !s.reapers[k].stage.Looked? && !s.reapers[k].stage.Taken?
  }

  /** An orderly continuation of `s` brings the sync that holds the slot, or one after it, past the budget. */
  ghost predicate Overruns(c: Config, s: State, acts: seq<Action>)
    requires s.slot.current.Some?
  {
    && Plays(c, s, acts) && Orderly(c, s.slot.current.value, Counted(s), s, acts)
    && exists q: nat :: s.slot.current.value <= q < |Final(c, s, acts).runs| && Depth(Final(c, s, acts).runs, q) > c.maxRecoveries
  }

  lemma NoOverrun(c: Config, s: State, acts: seq<Action>)
    requires Inv(c, s) && s.slot.current.Some? && NobodyLooked(s) && TrueCount(s) <= Counted(s)
    ensures !Overruns(c, s, acts)
  {
    if Overruns(c, s, acts) {
      var h, counted, depth := s.slot.current.value, Counted(s), TrueCount(s);
      CountedWithinBudget(c, s);
      OrderlyInvHolds(c, h, counted, depth, s, acts);
      var t := Final(c, s, acts);
      forall q: nat | h <= q < |t.runs| ensures Depth(t.runs, q) <= c.maxRecoveries {
        assert RunOk(c, t.runs, q);
        if q > h { assert Tracked(t.runs, q, counted, depth); }
      }
    }
  }

  /** Some reaper id is not in use yet. */
  lemma {:induction false} FreshReaper(ids: set<ReaperId>) returns (k: ReaperId)
    ensures forall j :: j in ids ==> j < k
    decreases |ids|
  {
    if i :| i in ids {
      var rest := FreshReaper(ids - {i});
      k := if i < rest then rest else i + 1;
      assert forall j :: j in ids ==> j == i || j in ids - {i};
    } else {
      k := 0;
    }
  }

  /** How long until the lease of the sync in flight is over. */
  function UntilLapse(c: Config, s: State): nat {
    match s.slot.leaseUntil
    case Some(until) => Max(0, until - s.clock)
    case None => if s.slot.requestedAt.Some? then Max(0, s.slot.requestedAt.value + c.leaseMs - s.clock) else 0
  }

  lemma WaitLapses(c: Config, s: State)
    requires SlotOk(s) && s.slot.current.Some?
    ensures var lapsed := Step(c, s, Tick(UntilLapse(c, s)));
            Lapsed(c, lapsed) && Counted(lapsed) == Counted(s) && TrueCount(lapsed) == TrueCount(s)
  {
  }

  /** From a lapsed slot, one reaper pass for each recovery that is left. */
  lemma PassesOverrun(c: Config, s: State) returns (acts: seq<Action>)
    requires Inv(c, s) && c.leaseMs > 0 && Lapsed(c, s) && Counted(s) < TrueCount(s)
    ensures Overruns(c, s, acts)
  {
    CountedWithinBudget(c, s);
    var left := c.maxRecoveries - Counted(s);
    var k := FreshReaper(s.reapers.Keys);
    PassesCount(c, s, k, left, left);
    acts := PassesPlay(c, s, k, left, s.slot.current.value, Counted(s));
    RunsOnlyGrow(c, s, acts);
    assert Depth(Final(c, s, acts).runs, |Final(c, s, acts).runs| - 1) > c.maxRecoveries;
  }

  lemma WaitAndPass(c: Config, s: State) returns (acts: seq<Action>)
    requires Inv(c, s) && c.leaseMs > 0 && s.slot.current.Some? && Counted(s) < TrueCount(s)
    ensures Overruns(c, s, acts)
  {
    var h, counted := s.slot.current.value, Counted(s);
    var tick := Tick(UntilLapse(c, s));
    assert Plays(c, s, []) && Final(c, s, []) == s && Orderly(c, h, counted, s, []);
    OrderlyOneMore(c, h, counted, s, [], tick);
    var wait, lapsed := [] + [tick], Step(c, s, tick);
    WaitLapses(c, s);
    StepKeepsInv(c, s, tick);
    var more := PassesOverrun(c, lapsed);
    PlaysMore(c, s, wait, more);
    OrderlyMore(c, h, counted, s, wait, more);
    acts := wait + more;
  }

  lemma {:induction false} InFlightNeedsLease(c: Config, s: State, acts: seq<Action>)
    requires Plays(c, s, acts) && (s.slot.inFlight ==> c.leaseMs > 0)
    ensures Final(c, s, acts).slot.inFlight ==> c.leaseMs > 0
    decreases |acts|
  {
    if acts != [] { InFlightNeedsLease(c, Step(c, s, acts[0]), acts[1..]); }
  }

  /**
   * Exactly when the recovery budget can be overrun: from every reachable state with a sync in flight and nobody between
   * a look and a re-queue, for every budget. Over all continuations in which each sync claimed from then on is recorded
   * and stays open until the next look, with any users, workers, reapers and crashes, some sync ends up with more than
   * `maxRecoveries` recoveries behind it if and only if a look counts fewer recoveries than truly lie behind the
   * sync that holds the slot.
   */
  lemma OverrunIff(c: Config, before: seq<Action>)
    requires Plays(c, Init, before) && Final(c, Init, before).slot.inFlight && NobodyLooked(Final(c, Init, before))
    ensures var s := Final(c, Init, before);
            s.slot.current.Some? && ((exists acts :: Overruns(c, s, acts)) <==> Counted(s) < TrueCount(s))
  {
    InvHolds(c, Init, before);
    InFlightNeedsLease(c, Init, before);
    var s := Final(c, Init, before);
    if Counted(s) < TrueCount(s) {
      var acts := WaitAndPass(c, s);
    } else {
      forall acts ensures !Overruns(c, s, acts) {
        NoOverrun(c, s, acts);
      }
    }
  }

  /** With every look so far having found its holder, and the next one finding it too, the budget stands. */
  lemma FoundHolderKeepsBudget(c: Config, before: seq<Action>, acts: seq<Action>)
    requires Plays(c, Init, before) && Final(c, Init, before).slot.inFlight && NobodyLooked(Final(c, Init, before))
    requires var s := Final(c, Init, before);
             (forall run :: run in s.runs ==> LookFound(run)) && NewestOpen(s.runs, s.created) == s.slot.current
    ensures Final(c, Init, before).slot.current.Some? && !Overruns(c, Final(c, Init, before), acts)
  {
    InvHolds(c, Init, before);
    var s := Final(c, Init, before);
    CountIsTrue(c, s.runs, s.slot.current.value);
    NoOverrun(c, s, acts);
  }

  // ----- A run that overruns every budget. -----

  /** A manual sync whose worker died. */
  lemma FirstSyncLapses(c: Config) returns (acts: seq<Action>)
    requires c.leaseMs > 0
    ensures Plays(c, Init, acts) && acts != [] && acts[0].ManualSync? && NoRequests(acts[1..])
    ensures Final(c, Init, acts) ==
            State(c.leaseMs, Slot(true, Some(c.leaseMs), Some(0), Some(0)), [SyncRun(Open, 0, Manual)], [0], map[])
  {
    acts := [];
    PlaysOneMore(c, Init, acts, ManualSync(0));
    acts := acts + [ManualSync(0)];
    PlaysOneMore(c, Init, acts, Record(0));
    acts := acts + [Record(0)];
    PlaysOneMore(c, Init, acts, Tick(c.leaseMs));
    acts := acts + [Tick(c.leaseMs)];
  }

  /** It is recovered once, and lapses again. */
  lemma RecoveredOnce(c: Config) returns (acts: seq<Action>)
    requires c.leaseMs > 0 && c.maxRecoveries >= 1
    ensures Plays(c, Init, acts) && acts != [] && acts[0].ManualSync? && NoRequests(acts[1..])
    ensures var s := Final(c, Init, acts);
            && s.runs == [SyncRun(Closed, 0, Manual), SyncRun(Open, 1, Recovery(Some(0), Some(0), true))]
            && Lapsed(c, s) && SlotOk(s) && s.reapers.Keys == {0}
  {
    acts := FirstSyncLapses(c);
    var s := Final(c, Init, acts);
    assert s.created == [] + [0] && NewestOpen(s.runs, s.created) == Some(0);
    var pass := PassPlays(c, s, 0, 0, 0);
    PlaysMore(c, Init, acts, pass);
    assert (acts + pass)[1..] == acts[1..] + pass;
    assert ClosedBelow(s.runs, 1) == [SyncRun(Closed, 0, Manual)];
    acts := acts + pass;
  }

  /** Then its worker closes the run and dies before it frees the slot. */
  lemma ClosedButNotFreed(c: Config) returns (acts: seq<Action>)
    requires c.leaseMs > 0 && c.maxRecoveries >= 1
    ensures Plays(c, Init, acts) && acts != [] && acts[0].ManualSync? && NoRequests(acts[1..])
    ensures var s := Final(c, Init, acts);
            && Lapsed(c, s) && SlotOk(s) && s.reapers.Keys == {0}
            && Counted(s) == 0 && TrueCount(s) == 1
  {
    var recovered := RecoveredOnce(c);
    PlaysOneMore(c, Init, recovered, CloseRun(1));
    acts := recovered + [CloseRun(1)];
    assert acts[1..] == recovered[1..] + [CloseRun(1)];
    var s := Final(c, Init, acts);
    assert s.runs == [SyncRun(Closed, 0, Manual), SyncRun(Closed, 1, Recovery(Some(0), Some(0), true))];
    assert Depth(s.runs, 0) == 0;
    NoneOpen(s.runs, s.created);
  }

  lemma NoneOpen(runs: seq<SyncRun>, created: seq<RunId>)
    requires forall i :: 0 <= i < |runs| ==> !runs[i].status.Open?
    ensures NewestOpen(runs, created) == None
  {
  }

  /** Whatever the budget, one manual sync, opened by nobody else, ends up re-queued once more than it allows. */
  lemma UnrecordedSlotRestartsChain(c: Config) returns (acts: seq<Action>)
    requires c.leaseMs > 0 && c.maxRecoveries >= 1
    ensures Plays(c, Init, acts) && acts != [] && acts[0].ManualSync? && NoRequests(acts[1..])
    ensures TrueCount(Final(c, Init, acts)) == c.maxRecoveries + 1
  {
    var first := ClosedButNotFreed(c);
    var s := Final(c, Init, first);
    PassesCount(c, s, 1, c.maxRecoveries, c.maxRecoveries);
    var more := PassesPlay(c, s, 1, c.maxRecoveries, s.slot.current.value, Counted(s));
    PlaysMore(c, Init, first, more);
    acts := first + more;
    assert acts[1..] == first[1..] + more;
  }
}
