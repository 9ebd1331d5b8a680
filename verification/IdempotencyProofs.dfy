/** Coalescing, cross-instance exclusion, replay and progress of the idempotency protocol, over every run. */
module IdempotencyProofs {
  import opened Common
  import opened IdempotencyModel

  /** A step of the protocol itself, as opposed to its environment. */
  predicate Protocol(a: Action) {
    !a.Arrive? && !a.Crash? && !a.Tick? && !a.FinishAgain?
  }

  // ----- Coalescing: one claim per process. -----

  /** `inflight` names exactly the request that holds its process's claim, and waiters wait for one of their own process. */
  ghost predicate ClaimsOk(s: State) {
    && (forall p :: p in s.inflight ==>
          s.inflight[p] in s.reqs && s.reqs[s.inflight[p]].proc == p && Claimed(s.reqs[s.inflight[p]].pc))
    && (forall r :: r in s.reqs && Claimed(s.reqs[r].pc) ==>
          s.reqs[r].proc in s.inflight && s.inflight[s.reqs[r].proc] == r)
    && (forall r :: r in s.reqs && s.reqs[r].pc.Waiting? ==>
          var on := s.reqs[r].pc.on;
          on in s.reqs && s.reqs[on].proc == s.reqs[r].proc && (Claimed(s.reqs[on].pc) || Ended(s.reqs[on].pc)))
  }

  lemma MoveKeepsClaims(s: State, r: ReqId, pc: Pc)
    requires ClaimsOk(s) && r in s.reqs && Claimed(s.reqs[r].pc) && Claimed(pc)
    ensures ClaimsOk(Move(s, r, pc))
  {
  }

  lemma EndKeepsClaims(s: State, r: ReqId, reply: Reply)
    requires ClaimsOk(s) && r in s.reqs && Claimed(s.reqs[r].pc)
    ensures ClaimsOk(End(s, r, reply))
  {
  }

  lemma EnterKeepsClaims(c: Config, s: State, r: ReqId)
    requires ClaimsOk(s) && Enabled(s, Enter(r))
    ensures ClaimsOk(Step(c, s, Enter(r)))
  {
  }

  lemma CrashKeepsClaims(c: Config, s: State, proc: Proc)
    requires ClaimsOk(s)
    ensures ClaimsOk(Step(c, s, Crash(proc)))
  {
  }

  /** Giving a claim back a second time changes nothing, whenever it happens. */
  lemma SecondFinishIsNoOp(c: Config, s: State, r: ReqId)
    requires ClaimsOk(s) && Enabled(s, FinishAgain(r))
    ensures Step(c, s, FinishAgain(r)) == s
  {
  }

  /** `s'` is `s` with request `r` moved on to `pc`, and its claim given back if that ends it. */
  predicate MovedOrEnded(s: State, s': State, r: ReqId, pc: Pc)
    requires r in s.reqs
  {
    && (Claimed(pc) || pc.Done?)
    && s'.reqs == s.reqs[r := s.reqs[r].(pc := pc)]
    && s'.inflight == (if pc.Done? then Release(s, r).inflight else s.inflight)
    && s'.now == s.now
  }

  lemma HolderStepIsMoveOrEnd(c: Config, s: State, a: Action)
    requires Enabled(s, a) && (a.Bound? || a.Abort? || a.Respond? || a.Store? || a.Unlock?)
    ensures Claimed(s.reqs[a.r].pc) && MovedOrEnded(s, Step(c, s, a), a.r, Step(c, s, a).reqs[a.r].pc)
  {
    match a {
      case Bound(_, _) =>
      case Abort(_, _) =>
      case Respond(_, _) =>
      case Store(_, _, _) =>
      case Unlock(_, _) =>
    }
  }

  /** A protocol step moves its own request along, or ends it and gives the claim back; nothing else about the claims changes. */
  lemma StepIsMoveOrEnd(c: Config, s: State, a: Action) returns (pc: Pc)
    requires Enabled(s, a) && Protocol(a) && !a.Enter?
    ensures Claimed(s.reqs[a.r].pc) && MovedOrEnded(s, Step(c, s, a), a.r, pc)
  {
    pc := Step(c, s, a).reqs[a.r].pc;
    match a {
      case Read(_, _) =>
      case SendReply(_) =>
      case Increment(_, _) =>
      case Reread(_, _) =>
      case CheckTtl(_, _) =>
      case Repair(_, _) =>
      case _ => HolderStepIsMoveOrEnd(c, s, a);
    }
  }

  /** Apart from INCR and DEL, a protocol step neither starts a span nor weakens the lock. */
  lemma StepKeepsSpan(c: Config, s: State, a: Action)
    requires Enabled(s, a) && Protocol(a) && !a.Enter? && !a.Increment? && !a.Abort? && !a.Unlock?
    ensures var s' := Step(c, s, a);
            && a.r in s'.reqs
            && (Holds(s'.reqs[a.r].pc) ==> Holds(s.reqs[a.r].pc) && s'.reqs[a.r].pc.wonAt == s.reqs[a.r].pc.wonAt)
            && (s'.lock == s.lock || s'.lock == Some(Timed(1, Some(s.now + c.lockTtlMs))))
  {
    match a {
      case Read(_, _) =>
      case SendReply(_) =>
      case Reread(_, _) =>
      case CheckTtl(_, _) =>
      case Repair(_, _) =>
      case Bound(_, _) =>
      case Respond(_, _) =>
      case Store(_, _, _) =>
    }
  }

  lemma StepKeepsClaims(c: Config, s: State, a: Action)
    requires ClaimsOk(s) && Enabled(s, a)
    ensures ClaimsOk(Step(c, s, a))
  {
    if a.Arrive? || a.Tick? {
    } else if a.Enter? {
      EnterKeepsClaims(c, s, a.r);
    } else if a.FinishAgain? {
      SecondFinishIsNoOp(c, s, a.r);
    } else if a.Crash? {
      CrashKeepsClaims(c, s, a.proc);
    } else {
      var pc := StepIsMoveOrEnd(c, s, a);
      if pc.Done? {
        EndKeepsClaims(s, a.r, pc.reply);
      } else {
        MoveKeepsClaims(s, a.r, pc);
      }
    }
  }

  lemma {:induction false} ClaimsHold(c: Config, s: State, acts: seq<Action>)
    requires ClaimsOk(s) && Plays(c, s, acts)
    ensures ClaimsOk(Final(c, s, acts))
    decreases |acts|
  {
    if acts != [] {
      StepKeepsClaims(c, s, acts[0]);
      ClaimsHold(c, Step(c, s, acts[0]), acts[1..]);
    }
  }

  /** In every run, with any cache failures and crashes, at most one request of a process holds the key's claim. */
  lemma OneClaimPerProcess(c: Config, acts: seq<Action>, r1: ReqId, r2: ReqId)
    requires Plays(c, Init, acts)
    requires var s := Final(c, Init, acts);
             && r1 in s.reqs && r2 in s.reqs && s.reqs[r1].proc == s.reqs[r2].proc
             && Claimed(s.reqs[r1].pc) && Claimed(s.reqs[r2].pc)
    ensures r1 == r2
  {
    ClaimsHold(c, Init, acts);
  }

  // ----- Running handlers. -----

  /** The handler may be running: under the key's protection, after its client has gone, or unprotected after a cache failure. */
  predicate Running(pc: Pc) {
    pc.Handling? || (pc.Unlocking? && pc.detached) || pc == Done(RanDetached) || pc == Done(RanUnprotected)
  }

  /** The client stays until the response is over. */
  predicate ClientStays(a: Action) { a.Respond? ==> !a.response.Closed? }

  /** The handler is not running behind a response that is over. */
  predicate Attached(pc: Pc) {
    (pc.Unlocking? ==> !pc.detached) && pc != Done(RanDetached) && pc != Replying(RanDetached)
  }

  ghost predicate AllAttached(s: State) {
    forall r :: r in s.reqs ==> Attached(s.reqs[r].pc)
  }

  lemma OwnStepStaysAttached(c: Config, s: State, a: Action)
    requires Enabled(s, a) && Protocol(a) && !a.Enter? && ClientStays(a) && Attached(s.reqs[a.r].pc)
    ensures a.r in Step(c, s, a).reqs && Attached(Step(c, s, a).reqs[a.r].pc)
  {
    match a {
      case Read(_, _) =>
      case SendReply(_) =>
      case Reread(_, _) =>
      case Respond(_, _) =>
      case Store(_, _, _) =>
      case Unlock(_, _) =>
      case _ =>
    }
  }

  lemma StepStaysAttached(c: Config, s: State, a: Action)
    requires AllAttached(s) && Enabled(s, a) && ClientStays(a)
    ensures AllAttached(Step(c, s, a))
  {
    if Protocol(a) && !a.Enter? {
      var pc := StepIsMoveOrEnd(c, s, a);
      OwnStepStaysAttached(c, s, a);
    }
  }

  lemma {:induction false} RunStaysAttached(c: Config, s: State, acts: seq<Action>)
    requires AllAttached(s) && Plays(c, s, acts) && forall a :: a in acts ==> ClientStays(a)
    ensures AllAttached(Final(c, s, acts))
    decreases |acts|
  {
    if acts != [] {
      StepStaysAttached(c, s, acts[0]);
      RunStaysAttached(c, Step(c, s, acts[0]), acts[1..]);
    }
  }

  /** The four calls whose failure sends a request down the error path. */
  predicate GuardCallOk(a: Action) {
    a.Read? || a.Increment? || a.Reread? || a.Bound? ==> a.call == Ok
  }

  /** Not running unprotected, and not on the way there. */
  predicate Protected(c: Config, pc: Pc) {
    pc != Done(RanUnprotected) && pc != Replying(RanUnprotected) && (c.failOpen ==> !pc.Aborting?)
  }

  ghost predicate AllProtected(c: Config, s: State) {
    forall r :: r in s.reqs ==> Protected(c, s.reqs[r].pc)
  }

  lemma OwnStepStaysProtected(c: Config, s: State, a: Action)
    requires Enabled(s, a) && Protocol(a) && !a.Enter? && (c.failOpen ==> GuardCallOk(a))
    requires Protected(c, s.reqs[a.r].pc)
    ensures a.r in Step(c, s, a).reqs && Protected(c, Step(c, s, a).reqs[a.r].pc)
  {
    match a {
      case Read(_, _) =>
      case SendReply(_) =>
      case Increment(_, _) =>
      case Reread(_, _) =>
      case Bound(_, _) =>
      case Abort(_, _) =>
      case _ =>
    }
  }

  lemma StepStaysProtected(c: Config, s: State, a: Action)
    requires AllProtected(c, s) && Enabled(s, a) && (c.failOpen ==> GuardCallOk(a))
    ensures AllProtected(c, Step(c, s, a))
  {
    if Protocol(a) && !a.Enter? {
      var pc := StepIsMoveOrEnd(c, s, a);
      OwnStepStaysProtected(c, s, a);
    }
  }

  lemma {:induction false} RunStaysProtected(c: Config, s: State, acts: seq<Action>)
    requires AllProtected(c, s) && Plays(c, s, acts)
    requires c.failOpen ==> forall k :: 0 <= k < |acts| ==> GuardCallOk(acts[k])
    ensures AllProtected(c, Final(c, s, acts))
    decreases |acts|
  {
    if acts != [] {
      StepStaysProtected(c, s, acts[0]);
      assert forall k :: 0 <= k < |acts[1..]| ==> acts[1..][k] == acts[k + 1];
      RunStaysProtected(c, Step(c, s, acts[0]), acts[1..]);
    }
  }

  /** No client leaves early, and the middleware fails closed or no guarding cache call fails. */
  predicate Calm(c: Config, acts: seq<Action>) {
    forall a :: a in acts ==> ClientStays(a) && (c.failOpen ==> GuardCallOk(a))
  }

  /** In a calm run the one kind of handler that runs is one that holds its process's claim. */
  lemma CalmRunsOnlyHandle(c: Config, acts: seq<Action>, r: ReqId)
    requires Plays(c, Init, acts) && Calm(c, acts)
    requires r in Final(c, Init, acts).reqs && Running(Final(c, Init, acts).reqs[r].pc)
    ensures Final(c, Init, acts).reqs[r].pc.Handling?
  {
    RunStaysProtected(c, Init, acts);
    RunStaysAttached(c, Init, acts);
    var pc := Final(c, Init, acts).reqs[r].pc;
    assert Protected(c, pc) && Attached(pc);
  }

  /** In a calm run a process runs at most one handler for a key. */
  lemma OneHandlerPerProcess(c: Config, acts: seq<Action>, r1: ReqId, r2: ReqId)
    requires Plays(c, Init, acts) && Calm(c, acts)
    requires var s := Final(c, Init, acts);
             && r1 in s.reqs && r2 in s.reqs && s.reqs[r1].proc == s.reqs[r2].proc
             && Running(s.reqs[r1].pc) && Running(s.reqs[r2].pc)
    ensures r1 == r2
  {
    CalmRunsOnlyHandle(c, acts, r1);
    CalmRunsOnlyHandle(c, acts, r2);
    OneClaimPerProcess(c, acts, r1, r2);
  }

  // ----- Cross-instance exclusion. -----

  /** Each holder has held for less than the lock's TTL. */
  ghost predicate SpansShort(c: Config, s: State) {
    forall r :: r in s.reqs && Holds(s.reqs[r].pc) ==> s.now < s.reqs[r].pc.wonAt + c.lockTtlMs
  }

  ghost predicate Timely(c: Config, s: State, acts: seq<Action>)
    requires Plays(c, s, acts)
    decreases |acts|
  {
    SpansShort(c, s) && (acts == [] || Timely(c, Step(c, s, acts[0]), acts[1..]))
  }

  ghost predicate OneHolder(s: State) {
    forall r1, r2 :: r1 in s.reqs && r2 in s.reqs && Holds(s.reqs[r1].pc) && Holds(s.reqs[r2].pc) ==> r1 == r2
  }

  /** While somebody holds, the counter exists and cannot expire before the holder's span is used up. */
  ghost predicate Guarded(c: Config, s: State, r: ReqId)
    requires r in s.reqs && Holds(s.reqs[r].pc)
  {
    && s.reqs[r].pc.wonAt <= s.now
    && s.lock.Some?
    && (s.lock.value.expiresAt.Some? ==> s.reqs[r].pc.wonAt + c.lockTtlMs <= s.lock.value.expiresAt.value)
  }

  ghost predicate LockOk(c: Config, s: State) {
    && OneHolder(s)
    && (s.lock.Some? ==> s.lock.value.value >= 1)
    && (forall r :: r in s.reqs && Holds(s.reqs[r].pc) ==> Guarded(c, s, r))
  }

  lemma WinKeepsLock(c: Config, s: State, r: ReqId, call: Call)
    requires c.lockTtlMs > 0 && LockOk(c, s) && SpansShort(c, s) && Enabled(s, Increment(r, call))
    ensures LockOk(c, Step(c, s, Increment(r, call)))
  {
    forall h | h in s.reqs && Holds(s.reqs[h].pc) ensures Live(s.lock, s.now).Some? {
      assert Guarded(c, s, h);
    }
  }

  /** A step that leaves everybody's holding as it was and does not weaken the lock. */
  lemma QuietKeepsLock(c: Config, s: State, s': State)
    requires LockOk(c, s) && s.now <= s'.now
    requires forall r :: r in s'.reqs && Holds(s'.reqs[r].pc) ==>
               r in s.reqs && Holds(s.reqs[r].pc) && s'.reqs[r].pc.wonAt == s.reqs[r].pc.wonAt
    requires s'.lock == s.lock || s'.lock == Some(Timed(1, Some(s.now + c.lockTtlMs)))
    ensures LockOk(c, s')
  {
    forall r | r in s'.reqs && Holds(s'.reqs[r].pc) ensures Guarded(c, s', r) {
      assert Guarded(c, s, r);
    }
  }

  /** The holder's own DEL: nobody else holds, so nobody loses protection. */
  lemma LastDelKeepsLock(c: Config, s: State, s': State, r: ReqId)
    requires LockOk(c, s) && r in s.reqs && Holds(s.reqs[r].pc)
    requires s'.now == s.now && (s'.lock == s.lock || s'.lock == None)
    requires r in s'.reqs && s'.reqs == s.reqs[r := s'.reqs[r]] && !Holds(s'.reqs[r].pc)
    ensures LockOk(c, s')
  {
  }

  /** A protocol step other than INCR and DEL: its request keeps holding, stops holding nothing, or never held. */
  lemma OtherStepKeepsLock(c: Config, s: State, a: Action)
    requires c.lockTtlMs > 0 && LockOk(c, s) && Enabled(s, a)
    requires Protocol(a) && !a.Enter? && !a.Increment? && !a.Abort? && !a.Unlock?
    ensures LockOk(c, Step(c, s, a))
  {
    var pc := StepIsMoveOrEnd(c, s, a);
    StepKeepsSpan(c, s, a);
    QuietKeepsLock(c, s, Step(c, s, a));
  }

  lemma EnvironmentKeepsLock(c: Config, s: State, a: Action)
    requires LockOk(c, s) && Enabled(s, a) && (!Protocol(a) || a.Enter?)
    ensures LockOk(c, Step(c, s, a))
  {
    match a {
      case Arrive(_, _, _) => QuietKeepsLock(c, s, Step(c, s, a));
      case Enter(_) => QuietKeepsLock(c, s, Step(c, s, a));
      case FinishAgain(_) => QuietKeepsLock(c, s, Step(c, s, a));
      case Crash(_) => QuietKeepsLock(c, s, Step(c, s, a));
      case Tick(_) => QuietKeepsLock(c, s, Step(c, s, a));
    }
  }

  lemma StepKeepsLock(c: Config, s: State, a: Action)
    requires c.lockTtlMs > 0 && LockOk(c, s) && SpansShort(c, s) && Enabled(s, a)
    ensures LockOk(c, Step(c, s, a))
  {
    if a.Increment? {
      WinKeepsLock(c, s, a.r, a.call);
    } else if a.Abort? || a.Unlock? {
      LastDelKeepsLock(c, s, Step(c, s, a), a.r);
    } else if Protocol(a) && !a.Enter? {
      OtherStepKeepsLock(c, s, a);
    } else {
      EnvironmentKeepsLock(c, s, a);
    }
  }

  lemma {:induction false} LockHolds(c: Config, s: State, acts: seq<Action>)
    requires c.lockTtlMs > 0 && LockOk(c, s) && Plays(c, s, acts) && Timely(c, s, acts)
    ensures LockOk(c, Final(c, s, acts))
    decreases |acts|
  {
    if acts != [] {
      StepKeepsLock(c, s, acts[0]);
      LockHolds(c, Step(c, s, acts[0]), acts[1..]);
    }
  }

  /**
   * Mutual exclusion across instances: in every interleaving of INCR, the bounding SET,
   * the orphan repair, DEL, lost replies and crashes, at most one request is between
   * winning the lock and giving it back, as long as no such span outlives the lock's TTL.
   */
  lemma OneHolderAcrossInstances(c: Config, acts: seq<Action>, r1: ReqId, r2: ReqId)
    requires c.lockTtlMs > 0 && Plays(c, Init, acts) && Timely(c, Init, acts)
    requires var s := Final(c, Init, acts);
             r1 in s.reqs && r2 in s.reqs && Holds(s.reqs[r1].pc) && Holds(s.reqs[r2].pc)
    ensures r1 == r2
  {
    LockHolds(c, Init, acts);
  }

  // ----- Replay. -----

  /** The outcome slot holds a readable entry that stays live before `deadline`. */
  ghost predicate RemembersUntil(c: Config, s: State, deadline: int) {
    && s.outcome.Some?
    && Decode(c, s.outcome.value.value).Some?
    && (s.outcome.value.expiresAt.Some? ==> deadline <= s.outcome.value.expiresAt.value)
  }

  /** A request that has not yet been told anything by the cache. */
  predicate Undecided(pc: Pc) { pc.Entering? || pc.Waiting? || pc.Reading? }

  /** The replies a request can get without its handler running. */
  predicate NotRun(reply: Reply) { reply.Replayed? || reply.KeyReused? || reply.Unavailable? }

  predicate OnReplayPath(pc: Pc) {
    || Undecided(pc) || pc.Crashed?
    || (pc.Replying? && (pc.reply.Replayed? || pc.reply.KeyReused?))
    || (pc.Done? && NotRun(pc.reply))
  }

  /** No cache read fails while the middleware fails open. */
  predicate NoOpenFailure(c: Config, acts: seq<Action>) {
    c.failOpen ==> forall k :: 0 <= k < |acts| ==> (acts[k].Read? ==> acts[k].call == Ok)
  }

  lemma {:induction false} ClockAdvances(c: Config, s: State, acts: seq<Action>)
    requires Plays(c, s, acts)
    ensures s.now <= Final(c, s, acts).now
    decreases |acts|
  {
    if acts != [] {
      ClockAdvances(c, Step(c, s, acts[0]), acts[1..]);
    }
  }

  lemma EncodeDecodes(c: Config, o: Outcome, nonce: nat, fingerprint: string)
    requires ValidConfig(c)
    ensures Decode(c, Encode(c, o, nonce, fingerprint)) == Some(o)
    ensures Encode(c, o, nonce, fingerprint).fingerprint == fingerprint
  {
  }

  lemma StepKeepsMemory(c: Config, s: State, a: Action, deadline: int)
    requires ValidConfig(c) && Enabled(s, a)
    requires RemembersUntil(c, s, deadline) && deadline <= s.now + c.ttlMs
    ensures RemembersUntil(c, Step(c, s, a), deadline)
  {
    if a.Store? {
      EncodeDecodes(c, s.reqs[a.r].pc.outcome, a.nonce, s.reqs[a.r].fingerprint);
    }
  }

  /** A read while a success is remembered leads to a reply from it. */
  lemma ReadLeadsToReply(c: Config, s: State, r: ReqId, call: Call, deadline: int)
    requires Enabled(s, Read(r, call)) && RemembersUntil(c, s, deadline) && s.now < deadline
    requires c.failOpen ==> call == Ok
    ensures OnReplayPath(Step(c, s, Read(r, call)).reqs[r].pc)
  {
    assert Live(s.outcome, s.now) == Some(s.outcome.value.value);
  }

  lemma ProtocolKeepsReplayPath(c: Config, s: State, a: Action, deadline: int)
    requires Enabled(s, a) && RemembersUntil(c, s, deadline) && s.now < deadline
    requires Protocol(a) && !a.Enter? && OnReplayPath(s.reqs[a.r].pc)
    requires a.Read? && c.failOpen ==> a.call == Ok
    ensures a.r in Step(c, s, a).reqs && OnReplayPath(Step(c, s, a).reqs[a.r].pc)
  {
    if a.Read? {
      ReadLeadsToReply(c, s, a.r, a.call, deadline);
    } else {
      assert a.SendReply?;
    }
  }

  lemma StepKeepsReplayPath(c: Config, s: State, a: Action, deadline: int, decided: set<ReqId>)
    requires Enabled(s, a) && RemembersUntil(c, s, deadline) && s.now < deadline
    requires NoOpenFailure(c, [a])
    requires forall r :: r in s.reqs && r !in decided ==> OnReplayPath(s.reqs[r].pc)
    ensures var s' := Step(c, s, a);
            forall r :: r in s'.reqs && r !in decided ==> OnReplayPath(s'.reqs[r].pc)
  {
    if a.Read? && c.failOpen { assert [a][0].call == Ok; }
    if Protocol(a) && !a.Enter? {
      var pc := StepIsMoveOrEnd(c, s, a);
      if a.r !in decided {
        ProtocolKeepsReplayPath(c, s, a, deadline);
      }
    }
  }

  /** While a success is remembered, no request outside `decided` ever reaches its handler. */
  lemma {:induction false} ReplayPathHolds(c: Config, s: State, acts: seq<Action>, deadline: int, decided: set<ReqId>)
    requires ValidConfig(c) && Plays(c, s, acts) && NoOpenFailure(c, acts)
    requires RemembersUntil(c, s, deadline) && deadline <= s.now + c.ttlMs
    requires Final(c, s, acts).now < deadline
    requires forall r :: r in s.reqs && r !in decided ==> OnReplayPath(s.reqs[r].pc)
    ensures var s' := Final(c, s, acts);
            && RemembersUntil(c, s', deadline)
            && forall r :: r in s'.reqs && r !in decided ==> OnReplayPath(s'.reqs[r].pc)
    decreases |acts|
  {
    if acts != [] {
      ClockAdvances(c, s, acts);
      if c.failOpen { assert [acts[0]][0] == acts[0]; }
      StepKeepsMemory(c, s, acts[0], deadline);
      StepKeepsReplayPath(c, s, acts[0], deadline, decided);
      assert NoOpenFailure(c, acts[1..]);
      ReplayPathHolds(c, Step(c, s, acts[0]), acts[1..], deadline, decided);
    }
  }

  /**
   * Replay across instances: after a success was stored by `a`, and until it expires, a
   * request that had not read the cache by then never runs its handler.
   */
  lemma NoRunAfterStore(c: Config, before: seq<Action>, a: Action, after: seq<Action>, r: ReqId)
    requires ValidConfig(c) && a.Store? && a.call != Failed
    requires Plays(c, Init, before + [a] + after) && NoOpenFailure(c, after)
    requires Plays(c, Init, before) && Enabled(Final(c, Init, before), a)
    requires var s := Final(c, Init, before);
             && (r in s.reqs ==> Undecided(s.reqs[r].pc))
             && Final(c, Init, before + [a] + after).now < s.now + c.ttlMs
    requires r in Final(c, Init, before + [a] + after).reqs
    ensures OnReplayPath(Final(c, Init, before + [a] + after).reqs[r].pc)
  {
    var s, s' := StoreOnRun(c, before, a, after);
    var decided := set q | q in s'.reqs && !OnReplayPath(s'.reqs[q].pc);
    assert r !in decided;
    ReplayPathHolds(c, s', after, s.now + c.ttlMs, decided);
  }

  lemma StoreOnRun(c: Config, before: seq<Action>, a: Action, after: seq<Action>) returns (s: State, s': State)
    requires ValidConfig(c) && a.Store? && a.call != Failed
    requires Plays(c, Init, before + [a] + after)
    ensures Plays(c, Init, before) && s == Final(c, Init, before) && Enabled(s, a)
    ensures s' == Step(c, s, a) && Plays(c, s', after)
    ensures Final(c, Init, before + [a] + after) == Final(c, s', after)
    ensures RemembersUntil(c, s', s.now + c.ttlMs)
  {
    assert before + [a] + after == before + ([a] + after);
    FinalOfConcat(c, Init, before, [a] + after);
    s := Final(c, Init, before);
    assert ([a] + after)[0] == a && ([a] + after)[1..] == after;
    s' := Step(c, s, a);
    EncodeDecodes(c, s.reqs[a.r].pc.outcome, a.nonce, s.reqs[a.r].fingerprint);
  }

  // ----- Replay in one process: exactly the stored response. -----

  predicate ArrivalsAt(acts: seq<Action>, p: Proc) {
    forall k :: 0 <= k < |acts| ==> (acts[k].Arrive? ==> acts[k].proc == p)
  }

  ghost predicate AllAt(s: State, p: Proc) {
    forall r :: r in s.reqs ==> s.reqs[r].proc == p
  }

  /** The reply a request with this fingerprint must get from the stored outcome. */
  predicate Faithful(o: Outcome, stored: string, fingerprint: string, reply: Reply) {
    reply == if stored != "" && stored != fingerprint then KeyReused else Replayed(o)
  }

  /** Where a request may be once the process's one success is stored: served from it, or about to be. */
  predicate ServedFrom(o: Outcome, stored: string, q: Request) {
    || Undecided(q.pc) || q.pc.Crashed?
    || (q.pc.Replying? && Faithful(o, stored, q.fingerprint, q.pc.reply))
    || (q.pc.Done? && Faithful(o, stored, q.fingerprint, q.pc.reply))
  }

  /** The request's own read of the cache failed: it was told 503. */
  predicate Excused(q: Request) { q.pc == Done(Unavailable) }

  /** `finished`: past their read when the success was stored; `excused`: those whose read failed since. */
  ghost predicate Settled(s: State, entry: Timed<Entry>, o: Outcome, finished: set<ReqId>, excused: set<ReqId>) {
    && s.outcome == Some(entry)
    && (forall r :: r in s.reqs ==>
          if r in finished then (s.reqs[r].pc.Unlocking? && !s.reqs[r].pc.detached) || Ended(s.reqs[r].pc)
          else ServedFrom(o, entry.value.fingerprint, s.reqs[r]) || (r in excused && Excused(s.reqs[r])))
  }

  predicate FailedRead(a: Action, r: ReqId) { a.Read? && a.r == r && a.call != Ok }

  /** Every failed read in `acts` belongs to a request in `excused`. */
  predicate FailuresExcused(acts: seq<Action>, excused: set<ReqId>) {
    forall k :: 0 <= k < |acts| && acts[k].Read? && acts[k].call != Ok ==> acts[k].r in excused
  }

  /** Of the claim-holding steps only a read, a replay and the storing request's own DEL remain possible. */
  lemma ClaimedStepKeepsSettled(c: Config, s: State, a: Action, entry: Timed<Entry>, o: Outcome, finished: set<ReqId>, excused: set<ReqId>)
    requires Enabled(s, a) && Protocol(a) && !a.Enter? && Settled(s, entry, o, finished, excused)
    requires a.Read? && a.call != Ok ==> !c.failOpen && a.r in excused
    requires Decode(c, entry.value) == Some(o)
    requires entry.expiresAt.Some? && s.now < entry.expiresAt.value
    ensures Settled(Step(c, s, a), entry, o, finished, excused)
  {
    assert ServedFrom(o, entry.value.fingerprint, s.reqs[a.r]) || Excused(s.reqs[a.r]) || a.Unlock?;
    assert a.Read? || a.SendReply? || a.Unlock?;
    if a.Read? {
      assert Live(s.outcome, s.now) == Some(entry.value);
    }
  }

  lemma StepKeepsSettled(c: Config, s: State, a: Action, entry: Timed<Entry>, o: Outcome, finished: set<ReqId>, excused: set<ReqId>)
    requires Enabled(s, a) && NoOpenFailure(c, [a]) && Settled(s, entry, o, finished, excused)
    requires Decode(c, entry.value) == Some(o)
    requires entry.expiresAt.Some? && s.now < entry.expiresAt.value
    requires finished <= s.reqs.Keys && FailuresExcused([a], excused)
    ensures Settled(Step(c, s, a), entry, o, finished, excused) && finished <= Step(c, s, a).reqs.Keys
  {
    if Protocol(a) && !a.Enter? {
      if a.Read? { assert [a][0] == a; }
      ClaimedStepKeepsSettled(c, s, a, entry, o, finished, excused);
      var pc := StepIsMoveOrEnd(c, s, a);
    }
  }

  lemma {:induction false} SettledHolds(c: Config, s: State, acts: seq<Action>, entry: Timed<Entry>, o: Outcome, finished: set<ReqId>, excused: set<ReqId>)
    requires Plays(c, s, acts) && NoOpenFailure(c, acts) && Settled(s, entry, o, finished, excused)
    requires Decode(c, entry.value) == Some(o) && finished <= s.reqs.Keys && FailuresExcused(acts, excused)
    requires entry.expiresAt.Some? && Final(c, s, acts).now < entry.expiresAt.value
    ensures Settled(Final(c, s, acts), entry, o, finished, excused)
    decreases |acts|
  {
    if acts != [] {
      ClockAdvances(c, s, acts);
      assert [acts[0]][0] == acts[0];
      StepKeepsSettled(c, s, acts[0], entry, o, finished, excused);
      assert NoOpenFailure(c, acts[1..]) && FailuresExcused(acts[1..], excused);
      SettledHolds(c, Step(c, s, acts[0]), acts[1..], entry, o, finished, excused);
    }
  }

  /** Whoever runs a handler after a step from a settled state ran it before. */
  lemma StepStartsNoHandler(c: Config, s: State, a: Action, entry: Timed<Entry>, o: Outcome, finished: set<ReqId>, excused: set<ReqId>, r: ReqId)
    requires Enabled(s, a) && Settled(s, entry, o, finished, excused)
    requires Settled(Step(c, s, a), entry, o, finished, excused)
    requires r in Step(c, s, a).reqs && Running(Step(c, s, a).reqs[r].pc)
    ensures r in s.reqs && Running(s.reqs[r].pc)
  {
    if Protocol(a) && !a.Enter? {
      var pc := StepIsMoveOrEnd(c, s, a);
      if a.r == r {
        assert r in finished && a.Unlock?;
      }
    }
  }

  lemma {:induction false} NoHandlerStarts(c: Config, s: State, acts: seq<Action>, entry: Timed<Entry>, o: Outcome, finished: set<ReqId>, excused: set<ReqId>, r: ReqId)
    requires Plays(c, s, acts) && NoOpenFailure(c, acts) && Settled(s, entry, o, finished, excused)
    requires Decode(c, entry.value) == Some(o) && finished <= s.reqs.Keys && FailuresExcused(acts, excused)
    requires entry.expiresAt.Some? && Final(c, s, acts).now < entry.expiresAt.value
    requires r in Final(c, s, acts).reqs && Running(Final(c, s, acts).reqs[r].pc)
    ensures r in s.reqs && Running(s.reqs[r].pc)
    decreases |acts|
  {
    if acts != [] {
      ClockAdvances(c, s, acts);
      assert [acts[0]][0] == acts[0];
      StepKeepsSettled(c, s, acts[0], entry, o, finished, excused);
      assert NoOpenFailure(c, acts[1..]) && FailuresExcused(acts[1..], excused);
      NoHandlerStarts(c, Step(c, s, acts[0]), acts[1..], entry, o, finished, excused, r);
      StepStartsNoHandler(c, s, acts[0], entry, o, finished, excused, r);
    }
  }

  lemma StepStaysAt(c: Config, s: State, a: Action, p: Proc)
    requires AllAt(s, p) && Enabled(s, a) && (a.Arrive? ==> a.proc == p)
    ensures AllAt(Step(c, s, a), p)
  {
    if Protocol(a) && !a.Enter? {
      var pc := StepIsMoveOrEnd(c, s, a);
    }
  }

  lemma {:induction false} AllStayAt(c: Config, s: State, acts: seq<Action>, p: Proc)
    requires AllAt(s, p) && Plays(c, s, acts) && ArrivalsAt(acts, p)
    ensures AllAt(Final(c, s, acts), p)
    decreases |acts|
  {
    if acts != [] {
      StepStaysAt(c, s, acts[0], p);
      AllStayAt(c, Step(c, s, acts[0]), acts[1..], p);
    }
  }

  /** The state just after the store: everybody past the read is the storing request or has ended. */
  lemma SettledAtStore(c: Config, s: State, a: Action, p: Proc, finished: set<ReqId>)
    requires ValidConfig(c) && a.Store? && a.call != Failed && Enabled(s, a)
    requires ClaimsOk(s) && AllAt(s, p)
    requires finished == set q | q in s.reqs && (q == a.r || !Undecided(s.reqs[q].pc))
    ensures var s' := Step(c, s, a);
            && s'.outcome.Some? && finished <= s'.reqs.Keys
            && Settled(s', s'.outcome.value, s.reqs[a.r].pc.outcome, finished, {})
  {
    forall q | q in s.reqs && Claimed(s.reqs[q].pc) ensures q == a.r {
      assert s.inflight[p] == q;
    }
  }

  /**
   * Replay in one process: once a success `o` is stored (and until it expires) no handler
   * starts for the key (one may still run whose client had left or whose cache call had failed
   * before the store; after a calm run there is none), and every request served from then on gets exactly the stored status,
   * headers and body, or is refused for a different payload. The only other answer is 503, and
   * only to a request whose own read of the cache failed.
   */
  lemma ExactReplayInOneProcess(c: Config, before: seq<Action>, a: Action, after: seq<Action>, p: Proc, r: ReqId)
    requires ValidConfig(c) && a.Store? && a.call != Failed
    requires Plays(c, Init, before + [a] + after) && NoOpenFailure(c, after)
    requires ArrivalsAt(before, p) && ArrivalsAt(after, p)
    requires Plays(c, Init, before) && Enabled(Final(c, Init, before), a)
    requires Final(c, Init, before + [a] + after).now < Final(c, Init, before).now + c.ttlMs
    requires r in Final(c, Init, before + [a] + after).reqs
    ensures var s := Final(c, Init, before);
            var q := Final(c, Init, before + [a] + after).reqs[r];
            && (Running(q.pc) ==> r in s.reqs && (s.reqs[r].pc == Done(RanDetached) || s.reqs[r].pc == Done(RanUnprotected)))
            && (Calm(c, before) ==> !Running(q.pc))
            && (r !in s.reqs || Undecided(s.reqs[r].pc) ==>
                  || ServedFrom(s.reqs[a.r].pc.outcome, s.reqs[a.r].fingerprint, q)
                  || (q.pc == Done(Unavailable) && exists k :: 0 <= k < |after| && FailedRead(after[k], r)))
  {
    var s, s' := StoreOnRun(c, before, a, after);
    var o, entry := s.reqs[a.r].pc.outcome, s'.outcome.value;
    EncodeDecodes(c, o, a.nonce, s.reqs[a.r].fingerprint);
    ClaimsHold(c, Init, before);
    AllStayAt(c, Init, before, p);
    var finished := set q | q in s.reqs && (q == a.r || !Undecided(s.reqs[q].pc));
    SettledAtStore(c, s, a, p, finished);
    var excused := set k | 0 <= k < |after| && after[k].Read? && after[k].call != Ok :: after[k].r;
    ExcuseMore(s', entry, o, finished, {}, excused);
    SettledHolds(c, s', after, entry, o, finished, excused);
    ReplayOfSettled(Final(c, s', after), entry, o, finished, excused, after, r);
    if Running(Final(c, s', after).reqs[r].pc) {
      NoHandlerStarts(c, s', after, entry, o, finished, excused, r);
      RunningAtStore(c, before, a, p, r);
    }
  }

  /** At the store of a success no other request of the process is in its handler under protection. */
  lemma RunningAtStore(c: Config, before: seq<Action>, a: Action, p: Proc, r: ReqId)
    requires Plays(c, Init, before) && ArrivalsAt(before, p) && a.Store? && Enabled(Final(c, Init, before), a)
    requires var s := Final(c, Init, before); r in Step(c, s, a).reqs && Running(Step(c, s, a).reqs[r].pc)
    ensures var s := Final(c, Init, before);
            r in s.reqs && (s.reqs[r].pc == Done(RanDetached) || s.reqs[r].pc == Done(RanUnprotected))
    ensures !Calm(c, before)
  {
    var s := Final(c, Init, before);
    AllStayAt(c, Init, before, p);
    assert r != a.r && s.reqs[r] == Step(c, s, a).reqs[r];
    if Claimed(s.reqs[r].pc) {
      OneClaimPerProcess(c, before, r, a.r);
    }
    if Calm(c, before) {
      CalmRunsOnlyHandle(c, before, r);
    }
  }

  lemma ExcuseMore(s: State, entry: Timed<Entry>, o: Outcome, finished: set<ReqId>, few: set<ReqId>, more: set<ReqId>)
    requires Settled(s, entry, o, finished, few) && few <= more
    ensures Settled(s, entry, o, finished, more)
  {
  }

  lemma ReplayOfSettled(s: State, entry: Timed<Entry>, o: Outcome, finished: set<ReqId>, excused: set<ReqId>,
                        after: seq<Action>, r: ReqId)
    requires Settled(s, entry, o, finished, excused) && r in s.reqs
    requires excused == set k | 0 <= k < |after| && after[k].Read? && after[k].call != Ok :: after[k].r
    ensures r !in finished ==>
              || ServedFrom(o, entry.value.fingerprint, s.reqs[r])
              || (s.reqs[r].pc == Done(Unavailable) && exists k :: 0 <= k < |after| && FailedRead(after[k], r))
  {
    if r in excused {
      var k :| 0 <= k < |after| && after[k].Read? && after[k].call != Ok && after[k].r == r;
      assert FailedRead(after[k], r);
    }
  }

  // ----- Progress. -----

  /** Steps a request may still take before somebody's claim ends. */
  function Weight(s: State, pc: Pc): (w: nat)
    ensures w <= 13
  {
    match pc
    case Entering => 13
    case Waiting(on) => if on in s.reqs && Ended(s.reqs[on].pc) then 12 else 0
    case Reading => 11
    case Incrementing => 10
    case Rereading => 9
    case Bounding(_) => 8
    case Handling(_) => 7
    case Storing(_, _) => 6
    case Unlocking(_, _) => 5
    case CheckingTtl => 4
    case Repairing => 3
    case Aborting(_) => 2
    case Replying(_) => 1
    case Done(_) => 0
    case Crashed => 0
  }

  /** Of the requests 0 to n - 1, those still to come included, how many have no answer yet. */
  function Unserved(s: State, n: nat): (k: nat)
    ensures k <= n
  {
    if n == 0 then 0
    else Unserved(s, n - 1) + if n - 1 in s.reqs && Ended(s.reqs[n - 1].pc) then 0 else 1
  }

  function Potential(s: State, n: nat): (k: nat)
    ensures k <= 13 * n
  {
    if n == 0 then 0
    else Potential(s, n - 1) + if n - 1 in s.reqs then Weight(s, s.reqs[n - 1].pc) else 13
  }

  /** The decreasing measure: unserved requests first, then what they can still do meanwhile. */
  function Measure(s: State, n: nat): nat { 14 * n * Unserved(s, n) + Potential(s, n) }

  lemma {:induction false} UnservedOnEnd(s: State, s': State, r: ReqId, n: nat)
    requires r in s.reqs && !Ended(s.reqs[r].pc) && r in s'.reqs && Ended(s'.reqs[r].pc)
    requires s'.reqs == s.reqs[r := s'.reqs[r]]
    ensures Unserved(s', n) == Unserved(s, n) - (if r < n then 1 else 0)
  {
    if n > 0 {
      UnservedOnEnd(s, s', r, n - 1);
    }
  }

  lemma {:induction false} PotentialOnMove(s: State, s': State, r: ReqId, n: nat)
    requires r in s.reqs && !Ended(s.reqs[r].pc) && r in s'.reqs && !Ended(s'.reqs[r].pc)
    requires s'.reqs == s.reqs[r := s'.reqs[r]]
    requires Weight(s', s'.reqs[r].pc) < Weight(s, s.reqs[r].pc)
    ensures Unserved(s', n) == Unserved(s, n)
    ensures Potential(s', n) <= Potential(s, n) && (r < n ==> Potential(s', n) < Potential(s, n))
  {
    if n > 0 {
      PotentialOnMove(s, s', r, n - 1);
      if n - 1 in s.reqs && n - 1 != r {
        assert Weight(s', s'.reqs[n - 1].pc) == Weight(s, s.reqs[n - 1].pc);
      }
    }
  }

  ghost predicate IdsBelow(s: State, n: nat) {
    forall r :: r in s.reqs ==> r < n
  }

  lemma EnterLosesWeight(c: Config, s: State, r: ReqId)
    requires ClaimsOk(s) && Enabled(s, Enter(r))
    ensures var s' := Step(c, s, Enter(r));
            && s'.reqs == s.reqs[r := s'.reqs[r]] && !Ended(s'.reqs[r].pc)
            && Weight(s', s'.reqs[r].pc) < Weight(s, s.reqs[r].pc)
  {
    if s.reqs[r].proc in s.inflight {
      var on := s.inflight[s.reqs[r].proc];
      assert Claimed(s.reqs[on].pc);
    }
  }

  lemma ProtocolStepDecreases(c: Config, s: State, a: Action, n: nat)
    requires ClaimsOk(s) && IdsBelow(s, n) && Enabled(s, a) && Protocol(a)
    ensures Measure(Step(c, s, a), n) < Measure(s, n)
    ensures IdsBelow(Step(c, s, a), n)
  {
    var s' := Step(c, s, a);
    if a.Enter? {
      EnterLosesWeight(c, s, a.r);
      PotentialOnMove(s, s', a.r, n);
    } else {
      var pc := StepIsMoveOrEnd(c, s, a);
      if pc.Done? {
        UnservedOnEnd(s, s', a.r, n);
        MeasureDrops(n, Unserved(s, n), Potential(s', n));
      } else {
        PotentialOnMove(s, s', a.r, n);
      }
    }
  }

  lemma MeasureDrops(n: nat, unserved: nat, potential: nat)
    requires n > 0 && unserved > 0 && potential <= 13 * n
    ensures 14 * n * (unserved - 1) + potential < 14 * n * unserved
  {
    assert 14 * n * (unserved - 1) == 14 * n * unserved - 14 * n;
  }

  lemma {:induction false} MeasureOfReqs(s: State, s': State, n: nat)
    requires s'.reqs == s.reqs
    ensures Unserved(s', n) == Unserved(s, n) && Potential(s', n) == Potential(s, n)
  {
    if n > 0 { MeasureOfReqs(s, s', n - 1); }
  }

  lemma {:induction false} ArrivalKeepsMeasure(s: State, s': State, r: ReqId, n: nat)
    requires r !in s.reqs && r in s'.reqs && s'.reqs == s.reqs[r := s'.reqs[r]] && s'.reqs[r].pc.Entering?
    ensures Unserved(s', n) == Unserved(s, n) && Potential(s', n) <= Potential(s, n)
  {
    if n > 0 { ArrivalKeepsMeasure(s, s', r, n - 1); }
  }

  /** A crash answers nobody's request twice: either somebody is no longer waiting for an answer, or nothing changed. */
  lemma {:induction false} CrashLowersUnserved(s: State, s': State, n: nat)
    requires s'.reqs.Keys == s.reqs.Keys
    requires forall r :: r in s.reqs ==> s'.reqs[r] == s.reqs[r] || (!Ended(s.reqs[r].pc) && Ended(s'.reqs[r].pc))
    ensures Unserved(s', n) <= Unserved(s, n)
    ensures Unserved(s', n) == Unserved(s, n) ==> forall r :: r in s.reqs && r < n ==> s'.reqs[r] == s.reqs[r]
  {
    if n > 0 { CrashLowersUnserved(s, s', n - 1); }
  }

  lemma CrashKeepsMeasure(c: Config, s: State, proc: Proc, n: nat)
    requires IdsBelow(s, n)
    ensures Measure(Step(c, s, Crash(proc)), n) <= Measure(s, n) && IdsBelow(Step(c, s, Crash(proc)), n)
  {
    var s' := Step(c, s, Crash(proc));
    CrashLowersUnserved(s, s', n);
    if Unserved(s', n) == Unserved(s, n) {
      assert s'.reqs == s.reqs;
      MeasureOfReqs(s, s', n);
    } else {
      MeasureDrops(n, Unserved(s, n), Potential(s', n));
      MulMonotone(14 * n, Unserved(s', n), Unserved(s, n) - 1);
    }
  }

  lemma MulMonotone(a: nat, b: int, c: int)
    requires b <= c
    ensures a * b <= a * c
  {
  }

  /** The clock, arrivals, crashes and repeated finishes never raise the measure. */
  lemma EnvironmentKeepsMeasure(c: Config, s: State, a: Action, n: nat)
    requires ClaimsOk(s) && IdsBelow(s, n) && Enabled(s, a) && !Protocol(a) && (a.Arrive? ==> a.r < n)
    ensures Measure(Step(c, s, a), n) <= Measure(s, n) && IdsBelow(Step(c, s, a), n)
  {
    match a {
      case Arrive(r, _, _) => ArrivalKeepsMeasure(s, Step(c, s, a), r, n);
      case FinishAgain(_) => SecondFinishIsNoOp(c, s, a.r);
      case Crash(proc) => CrashKeepsMeasure(c, s, proc, n);
      case Tick(_) => MeasureOfReqs(s, Step(c, s, a), n);
    }
  }

  function ProtocolSteps(acts: seq<Action>): nat {
    if acts == [] then 0 else (if Protocol(acts[0]) then 1 else 0) + ProtocolSteps(acts[1..])
  }

  predicate ArrivalsBelow(acts: seq<Action>, n: nat) {
    forall k :: 0 <= k < |acts| && acts[k].Arrive? ==> acts[k].r < n
  }

  lemma {:induction false} StepsWithinMeasure(c: Config, s: State, acts: seq<Action>, n: nat)
    requires ClaimsOk(s) && IdsBelow(s, n) && Plays(c, s, acts) && ArrivalsBelow(acts, n)
    ensures ProtocolSteps(acts) <= Measure(s, n)
    decreases |acts|
  {
    if acts != [] {
      if Protocol(acts[0]) {
        ProtocolStepDecreases(c, s, acts[0], n);
      } else {
        EnvironmentKeepsMeasure(c, s, acts[0], n);
      }
      StepKeepsClaims(c, s, acts[0]);
      assert forall k :: 0 <= k < |acts[1..]| ==> acts[1..][k] == acts[k + 1];
      StepsWithinMeasure(c, Step(c, s, acts[0]), acts[1..], n);
    }
  }

  lemma {:induction false} MeasureOfInit(n: nat)
    ensures Unserved(Init, n) == n && Potential(Init, n) == 13 * n
  {
    if n > 0 { MeasureOfInit(n - 1); }
  }

  /**
   * With n requests for a key the protocol takes at most 14 n^2 + 13 n steps, in every run: the clock,
   * arrivals, crashes, cache failures and repeated finishes may come in between at will.
   */
  lemma BoundedProtocolRun(c: Config, acts: seq<Action>, n: nat)
    requires Plays(c, Init, acts) && ArrivalsBelow(acts, n)
    ensures ProtocolSteps(acts) <= 14 * n * n + 13 * n
  {
    StepsWithinMeasure(c, Init, acts, n);
    MeasureOfInit(n);
  }

  /** The next protocol step of a request that holds its process's claim. */
  function NextAction(r: ReqId, pc: Pc): Action {
    match pc
    case Reading => Read(r, Ok)
    case Replying(_) => SendReply(r)
    case Incrementing => Increment(r, Ok)
    case Rereading => Reread(r, Ok)
    case CheckingTtl => CheckTtl(r, Ok)
    case Repairing => Repair(r, Ok)
    case Bounding(_) => Bound(r, Ok)
    case Aborting(_) => Abort(r, Ok)
    case Handling(_) => Respond(r, Closed)
    case Storing(_, _) => Store(r, 0, Ok)
    case Unlocking(_, _) => Unlock(r, Ok)
    case _ => Enter(r)
  }

  /** No waiter is ever stuck: while a request is unserved, some request of its process can step. */
  lemma NobodyIsStuck(s: State, r: ReqId) returns (a: Action)
    requires ClaimsOk(s) && r in s.reqs && !Ended(s.reqs[r].pc)
    ensures Enabled(s, a) && Protocol(a) && s.reqs[a.r].proc == s.reqs[r].proc
  {
    var pc := s.reqs[r].pc;
    if pc.Waiting? && Claimed(s.reqs[pc.on].pc) {
      a := NextAction(pc.on, s.reqs[pc.on].pc);
    } else {
      a := NextAction(r, pc);
    }
  }

  ghost predicate Intact(s: State, p: Proc) {
    forall r :: r in s.reqs && s.reqs[r].proc == p ==> !s.reqs[r].pc.Crashed?
  }

  lemma StepKeepsIntact(c: Config, s: State, a: Action, p: Proc)
    requires Intact(s, p) && Enabled(s, a) && a != Crash(p)
    ensures Intact(Step(c, s, a), p)
  {
    if Protocol(a) && !a.Enter? {
      var pc := StepIsMoveOrEnd(c, s, a);
    }
  }

  lemma {:induction false} IntactHolds(c: Config, s: State, acts: seq<Action>, p: Proc)
    requires Intact(s, p) && Plays(c, s, acts) && Crash(p) !in acts
    ensures Intact(Final(c, s, acts), p)
    decreases |acts|
  {
    if acts != [] {
      StepKeepsIntact(c, s, acts[0], p);
      IntactHolds(c, Step(c, s, acts[0]), acts[1..], p);
    }
  }

  /**
   * Whenever the protocol has nothing left to do, every request is served: it has its answer, or its
   * process crashed. Together with the bound, every run that keeps taking protocol steps while it can serves everyone.
   */
  lemma QuietMeansServed(c: Config, acts: seq<Action>, r: ReqId)
    requires Plays(c, Init, acts) && r in Final(c, Init, acts).reqs
    requires forall a :: Protocol(a) ==> !Enabled(Final(c, Init, acts), a)
    ensures var q := Final(c, Init, acts).reqs[r];
            q.pc.Done? || (q.pc.Crashed? && Crash(q.proc) in acts)
  {
    ClaimsHold(c, Init, acts);
    var s := Final(c, Init, acts);
    if !Ended(s.reqs[r].pc) {
      var a := NobodyIsStuck(s, r);
      assert false;
    }
    if Crash(s.reqs[r].proc) !in acts {
      IntactHolds(c, Init, acts, s.reqs[r].proc);
    }
  }

  /** From any reachable point the protocol can be driven until every request is served. */
  lemma {:induction false} EveryRequestCanBeServed(c: Config, s: State, n: nat) returns (acts: seq<Action>)
    requires ClaimsOk(s) && IdsBelow(s, n)
    ensures Plays(c, s, acts) && forall k :: 0 <= k < |acts| ==> Protocol(acts[k])
    ensures forall r :: r in Final(c, s, acts).reqs ==> Ended(Final(c, s, acts).reqs[r].pc)
    decreases Measure(s, n)
  {
    if r :| r in s.reqs && !Ended(s.reqs[r].pc) {
      var a := NobodyIsStuck(s, r);
      ProtocolStepDecreases(c, s, a, n);
      StepKeepsClaims(c, s, a);
      var rest := EveryRequestCanBeServed(c, Step(c, s, a), n);
      acts := [a] + rest;
      assert acts[1..] == rest;
    } else {
      acts := [];
    }
  }
}
