/** Runs that mark the edge of the idempotency guarantees: each shows that a hypothesis of the main results is needed. */
module IdempotencyLimits {
  import opened Common
  import opened IdempotencyModel
  import opened IdempotencyProofs

  lemma {:induction false} PlaysOneMore(c: Config, s: State, acts: seq<Action>, a: Action)
    requires Plays(c, s, acts) && Enabled(Final(c, s, acts), a)
    ensures Plays(c, s, acts + [a]) && Final(c, s, acts + [a]) == Step(c, Final(c, s, acts), a)
    decreases |acts|
  {
    if acts == [] {
      assert acts + [a] == [a] && [a][1..] == [];
    } else {
      assert (acts + [a])[0] == acts[0] && (acts + [a])[1..] == acts[1..] + [a];
      PlaysOneMore(c, Step(c, s, acts[0]), acts[1..], a);
    }
  }

  lemma {:induction false} PlaysMore(c: Config, s: State, acts: seq<Action>, more: seq<Action>)
    requires Plays(c, s, acts) && Plays(c, Final(c, s, acts), more)
    ensures Plays(c, s, acts + more) && Final(c, s, acts + more) == Final(c, Final(c, s, acts), more)
    decreases |acts|
  {
    if acts == [] {
      assert acts + more == more;
    } else {
      assert (acts + more)[0] == acts[0] && (acts + more)[1..] == acts[1..] + more;
      PlaysMore(c, Step(c, s, acts[0]), acts[1..], more);
    }
  }

  /** A request that read "nothing stored" and finds the lock free runs its handler, whatever was stored meanwhile. */
  lemma EarlyReaderCanStillRun(c: Config, s: State, r: ReqId)
    requires r in s.reqs && s.reqs[r].pc.Incrementing? && Live(s.lock, s.now).None?
    ensures Plays(c, s, [Increment(r, Ok), Bound(r, Ok)])
    ensures var s' := Final(c, s, [Increment(r, Ok), Bound(r, Ok)]);
            && s'.outcome == s.outcome && s'.now == s.now && s'.inflight == s.inflight
            && s'.reqs == s.reqs[r := s.reqs[r].(pc := Handling(s.now))]
            && s'.lock == Some(Timed(1, Some(s.now + c.lockTtlMs)))
  {
    assert Plays(c, s, []) && Final(c, s, []) == s;
    PlaysOneMore(c, s, [], Increment(r, Ok));
    assert [] + [Increment(r, Ok)] == [Increment(r, Ok)];
    PlaysOneMore(c, s, [Increment(r, Ok)], Bound(r, Ok));
    assert [Increment(r, Ok)] + [Bound(r, Ok)] == [Increment(r, Ok), Bound(r, Ok)];
  }

  /** Two requests reach `Incrementing` in two processes before anything is stored. */
  lemma BothReadNothing(c: Config, fingerprint: string) returns (acts: seq<Action>)
    ensures Plays(c, Init, acts)
    ensures Final(c, Init, acts) ==
            State(0, None, None, map[0 := 0, 1 := 1],
                  map[0 := Request(0, fingerprint, Incrementing), 1 := Request(1, fingerprint, Incrementing)])
  {
    acts := [];
    PlaysOneMore(c, Init, acts, Arrive(0, 0, fingerprint));
    acts := acts + [Arrive(0, 0, fingerprint)];
    PlaysOneMore(c, Init, acts, Arrive(1, 1, fingerprint));
    acts := acts + [Arrive(1, 1, fingerprint)];
    PlaysOneMore(c, Init, acts, Enter(0));
    acts := acts + [Enter(0)];
    PlaysOneMore(c, Init, acts, Enter(1));
    acts := acts + [Enter(1)];
    PlaysOneMore(c, Init, acts, Read(0, Ok));
    acts := acts + [Read(0, Ok)];
    PlaysOneMore(c, Init, acts, Read(1, Ok));
    acts := acts + [Read(1, Ok)];
  }

  lemma StoreThenUnlock(c: Config, s: State, r: ReqId)
    requires ValidConfig(c) && r in s.reqs && s.reqs[r].pc.Storing?
    ensures Enabled(s, Store(r, 0, Ok)) && Enabled(Step(c, s, Store(r, 0, Ok)), Unlock(r, Ok))
    ensures var s' := Step(c, Step(c, s, Store(r, 0, Ok)), Unlock(r, Ok));
            && s'.now == s.now && s'.lock == None && RemembersUntil(c, s', s.now + c.ttlMs)
            && s'.reqs == s.reqs[r := s.reqs[r].(pc := Done(Ran))]
  {
    EncodeDecodes(c, s.reqs[r].pc.outcome, 0, s.reqs[r].fingerprint);
    assert RemembersUntil(c, Step(c, s, Store(r, 0, Ok)), s.now + c.ttlMs);
  }

  /** A handler that answers with a storable success: the outcome is stored and the lock given back. */
  lemma SuccessIsStored(c: Config, s: State, r: ReqId, response: Response)
    requires ValidConfig(c) && r in s.reqs && s.reqs[r].pc.Handling? && Storable(response).Some?
    ensures var acts := [Respond(r, response), Store(r, 0, Ok), Unlock(r, Ok)];
            Plays(c, s, acts)
            && var s' := Final(c, s, acts);
               && s'.now == s.now && s'.lock == None && RemembersUntil(c, s', s.now + c.ttlMs)
               && s'.reqs == s.reqs[r := s.reqs[r].(pc := Done(Ran))]
  {
    var a1, a2, a3 := Respond(r, response), Store(r, 0, Ok), Unlock(r, Ok);
    var s1 := Step(c, s, a1);
    assert s1 == Move(s, r, Storing(s.reqs[r].pc.wonAt, Storable(response).value));
    StoreThenUnlock(c, s1, r);
    assert Step(c, Step(c, s1, a2), a3).reqs == s.reqs[r := s.reqs[r].(pc := Done(Ran))];
    PlaysThree(c, s, a1, a2, a3);
  }

  lemma PlaysThree(c: Config, s: State, a1: Action, a2: Action, a3: Action)
    requires Enabled(s, a1) && Enabled(Step(c, s, a1), a2) && Enabled(Step(c, Step(c, s, a1), a2), a3)
    ensures Plays(c, s, [a1, a2, a3]) && Final(c, s, [a1, a2, a3]) == Step(c, Step(c, Step(c, s, a1), a2), a3)
  {
    assert Plays(c, s, []) && Final(c, s, []) == s;
    PlaysOneMore(c, s, [], a1);
    assert [] + [a1] == [a1];
    PlaysOneMore(c, s, [a1], a2);
    assert [a1] + [a2] == [a1, a2];
    PlaysOneMore(c, s, [a1, a2], a3);
    assert [a1, a2] + [a3] == [a1, a2, a3];
  }

  /** From there the first request runs to the end: its success is stored and the lock is free again. */
  lemma FirstSucceeds(c: Config, fingerprint: string) returns (acts: seq<Action>)
    requires ValidConfig(c)
    ensures Plays(c, Init, acts)
    ensures var s := Final(c, Init, acts);
            && s.now == 0 && RemembersUntil(c, s, c.ttlMs) && s.lock == None
            && s.reqs == map[0 := Request(0, fingerprint, Done(Ran)), 1 := Request(1, fingerprint, Incrementing)]
  {
    acts := BothReadNothing(c, fingerprint);
    EarlyReaderCanStillRun(c, Final(c, Init, acts), 0);
    PlaysMore(c, Init, acts, [Increment(0, Ok), Bound(0, Ok)]);
    acts := acts + [Increment(0, Ok), Bound(0, Ok)];
    var created := Finished(201, map[], Some(Empty));
    assert Storable(created).Some?;
    SuccessIsStored(c, Final(c, Init, acts), 0, created);
    PlaysMore(c, Init, acts, [Respond(0, created), Store(0, 0, Ok), Unlock(0, Ok)]);
    acts := acts + [Respond(0, created), Store(0, 0, Ok), Unlock(0, Ok)];
  }

  /**
   * Across instances a key can run twice: the second request read the cache before the first
   * one's success was stored and took the lock after it was given back.
   */
  lemma TwoRunsAcrossInstances(c: Config, fingerprint: string) returns (acts: seq<Action>)
    requires ValidConfig(c)
    ensures Plays(c, Init, acts)
    ensures var s := Final(c, Init, acts);
            && s.now == 0 && RemembersUntil(c, s, c.ttlMs)
            && 0 in s.reqs && 1 in s.reqs && s.reqs[0].pc == Done(Ran) && s.reqs[1].pc.Handling?
  {
    acts := FirstSucceeds(c, fingerprint);
    EarlyReaderCanStillRun(c, Final(c, Init, acts), 1);
    PlaysMore(c, Init, acts, [Increment(1, Ok), Bound(1, Ok)]);
    acts := acts + [Increment(1, Ok), Bound(1, Ok)];
  }

  /** Two handlers of one process run for the key at once. */
  ghost predicate HandlersMeet(c: Config, acts: seq<Action>, r1: ReqId, r2: ReqId) {
    && Plays(c, Init, acts) && r1 != r2
    && var s := Final(c, Init, acts);
       && r1 in s.reqs && r2 in s.reqs && s.reqs[r1].proc == s.reqs[r2].proc
       && Running(s.reqs[r1].pc) && Running(s.reqs[r2].pc)
  }

  /** No cache call of the action fails. */
  predicate CallOk(a: Action) {
    match a
    case Read(_, call) => call == Ok
    case Increment(_, call) => call == Ok
    case Reread(_, call) => call == Ok
    case CheckTtl(_, call) => call == Ok
    case Repair(_, call) => call == Ok
    case Bound(_, call) => call == Ok
    case Abort(_, call) => call == Ok
    case Store(_, _, call) => call == Ok
    case Unlock(_, call) => call == Ok
    case _ => true
  }

  /** A read of the cache would find an outcome. */
  predicate Readable(c: Config, s: State) {
    Live(s.outcome, s.now).Some? && Decode(c, Live(s.outcome, s.now).value).Some?
  }

  /** With nothing to replay, the lock free and the key unclaimed in its process, the next request runs its handler. */
  lemma NextRequestRuns(c: Config, s: State, r: ReqId, p: Proc, fingerprint: string) returns (acts: seq<Action>)
    requires r !in s.reqs && p !in s.inflight && !Readable(c, s) && Live(s.lock, s.now).None?
    ensures Plays(c, s, acts) && forall a :: a in acts ==> CallOk(a) && ClientStays(a)
    ensures Final(c, s, acts).reqs == s.reqs[r := Request(p, fingerprint, Handling(s.now))]
    ensures Final(c, s, acts).now == s.now && Final(c, s, acts).outcome == s.outcome
  {
    PlaysThree(c, s, Arrive(r, p, fingerprint), Enter(r), Read(r, Ok));
    acts := [Arrive(r, p, fingerprint), Enter(r), Read(r, Ok)];
    var t := Final(c, s, acts);
    assert t.reqs == s.reqs[r := Request(p, fingerprint, Incrementing)];
    EarlyReaderCanStillRun(c, t, r);
    PlaysMore(c, s, acts, [Increment(r, Ok), Bound(r, Ok)]);
    acts := acts + [Increment(r, Ok), Bound(r, Ok)];
  }

  /** Failing open, a first request that runs unprotected does not keep a second one out. */
  lemma UnprotectedRunMeetsSecond(c: Config, fingerprint: string) returns (acts: seq<Action>)
    requires c.failOpen
    ensures HandlersMeet(c, acts, 0, 1) && ClientsStay(acts)
  {
    PlaysThree(c, Init, Arrive(0, 0, fingerprint), Enter(0), Read(0, Failed));
    acts := [Arrive(0, 0, fingerprint), Enter(0), Read(0, Failed)];
    var s := Final(c, Init, acts);
    assert s.reqs == map[0 := Request(0, fingerprint, Done(RanUnprotected))] && s.inflight == map[];
    var more := NextRequestRuns(c, s, 1, 0, fingerprint);
    PlaysMore(c, Init, acts, more);
    acts := acts + more;
  }

  /** A client that leaves early gives its claim and the lock back while its handler runs on: the next request runs a second one. */
  lemma DisconnectMeetsSecond(c: Config, fingerprint: string) returns (acts: seq<Action>)
    ensures HandlersMeet(c, acts, 0, 1)
    ensures forall a :: a in acts ==> GuardCallOk(a)
  {
    acts := FirstDisconnects(c, fingerprint);
    var more := NextRequestRuns(c, Final(c, Init, acts), 1, 0, fingerprint);
    PlaysMore(c, Init, acts, more);
    acts := acts + more;
  }

  lemma FirstDisconnects(c: Config, fingerprint: string) returns (acts: seq<Action>)
    ensures Plays(c, Init, acts) && forall a :: a in acts ==> GuardCallOk(a)
    ensures Final(c, Init, acts) == State(0, None, None, map[], map[0 := Request(0, fingerprint, Done(RanDetached))])
  {
    acts := [];
    PlaysOneMore(c, Init, acts, Arrive(0, 0, fingerprint));
    acts := acts + [Arrive(0, 0, fingerprint)];
    PlaysOneMore(c, Init, acts, Enter(0));
    acts := acts + [Enter(0)];
    PlaysOneMore(c, Init, acts, Read(0, Ok));
    acts := acts + [Read(0, Ok)];
    EarlyReaderCanStillRun(c, Final(c, Init, acts), 0);
    PlaysMore(c, Init, acts, [Increment(0, Ok), Bound(0, Ok)]);
    acts := acts + [Increment(0, Ok), Bound(0, Ok)];
    PlaysOneMore(c, Init, acts, Respond(0, Closed));
    acts := acts + [Respond(0, Closed)];
    PlaysOneMore(c, Init, acts, Unlock(0, Ok));
    acts := acts + [Unlock(0, Ok)];
  }

  predicate ClientsStay(acts: seq<Action>) {
    forall a :: a in acts ==> ClientStays(a)
  }

  /**
   * When two handlers of one process can run for a key at once: with clients that stay, exactly when the
   * middleware fails open; with a client that leaves, always.
   */
  lemma HandlersMeetIff(c: Config)
    ensures (exists acts, r1, r2 :: ClientsStay(acts) && HandlersMeet(c, acts, r1, r2)) <==> c.failOpen
    ensures exists acts, r1, r2 :: HandlersMeet(c, acts, r1, r2) && forall a :: a in acts ==> GuardCallOk(a)
  {
    if c.failOpen {
      var acts := UnprotectedRunMeetsSecond(c, "");
      assert ClientsStay(acts) && HandlersMeet(c, acts, 0, 1);
    }
    forall acts, r1, r2 | ClientsStay(acts) && HandlersMeet(c, acts, r1, r2) ensures c.failOpen {
      if !c.failOpen { OneHandlerPerProcess(c, acts, r1, r2); }
    }
    var acts := DisconnectMeetsSecond(c, "");
    assert HandlersMeet(c, acts, 0, 1);
  }

  // ----- Who can still run once a success is stored. -----

  /** A request past its read of the cache and not yet done with the lock race. */
  predicate PastRead(pc: Pc) { pc.Incrementing? || pc.Bounding? || pc.Handling? }

  /** Failing open, a request with a cache call to come that can fail may run unprotected. */
  predicate MayFailOpen(pc: Pc) {
    pc.Entering? || pc.Waiting? || pc.Reading? || pc.Rereading? || pc.Aborting?
  }

  /** The condition: what the request has read so far, or what it may yet fail at. */
  predicate MayRun(c: Config, pc: Pc) {
    PastRead(pc) || Running(pc) || (c.failOpen && MayFailOpen(pc))
  }

  /** A reply on its way is one from the cache. */
  ghost predicate RepliesFromCache(s: State) {
    forall r :: r in s.reqs && s.reqs[r].pc.Replying? ==> s.reqs[r].pc.reply.Replayed? || s.reqs[r].pc.reply.KeyReused?
  }

  lemma StepRepliesFromCache(c: Config, s: State, a: Action)
    requires RepliesFromCache(s) && Enabled(s, a)
    ensures RepliesFromCache(Step(c, s, a))
  {
    if Protocol(a) && !a.Enter? {
      var pc := StepIsMoveOrEnd(c, s, a);
    }
  }

  lemma {:induction false} AllRepliesFromCache(c: Config, s: State, acts: seq<Action>)
    requires RepliesFromCache(s) && Plays(c, s, acts)
    ensures RepliesFromCache(Final(c, s, acts))
    decreases |acts|
  {
    if acts != [] {
      StepRepliesFromCache(c, s, acts[0]);
      AllRepliesFromCache(c, Step(c, s, acts[0]), acts[1..]);
    }
  }

  lemma OwnStepStaysBehind(c: Config, s: State, a: Action, deadline: int)
    requires Enabled(s, a) && Protocol(a) && !a.Enter? && RemembersUntil(c, s, deadline) && s.now < deadline
    requires RepliesFromCache(s) && !MayRun(c, s.reqs[a.r].pc)
    ensures a.r in Step(c, s, a).reqs && !MayRun(c, Step(c, s, a).reqs[a.r].pc)
  {
    assert Live(s.outcome, s.now) == Some(s.outcome.value.value);
    match a {
      case Read(_, _) =>
      case SendReply(_) =>
      case Reread(_, _) =>
      case CheckTtl(_, _) =>
      case Repair(_, _) =>
      case Abort(_, _) =>
      case Store(_, _, _) =>
      case Unlock(_, _) =>
      case _ => assert false;
    }
  }

  lemma StepStaysBehind(c: Config, s: State, a: Action, deadline: int, r: ReqId)
    requires Enabled(s, a) && RemembersUntil(c, s, deadline) && s.now < deadline
    requires RepliesFromCache(s) && r in s.reqs && !MayRun(c, s.reqs[r].pc)
    ensures r in Step(c, s, a).reqs && !MayRun(c, Step(c, s, a).reqs[r].pc)
  {
    if Protocol(a) && !a.Enter? {
      var pc := StepIsMoveOrEnd(c, s, a);
      if a.r == r {
        OwnStepStaysBehind(c, s, a, deadline);
      }
    }
  }

  /** While a success is remembered, a request that may not run never gets into its handler. */
  lemma {:induction false} StaysBehind(c: Config, s: State, acts: seq<Action>, deadline: int, r: ReqId)
    requires ValidConfig(c) && Plays(c, s, acts) && RepliesFromCache(s)
    requires RemembersUntil(c, s, deadline) && deadline <= s.now + c.ttlMs && Final(c, s, acts).now < deadline
    requires r in s.reqs && !MayRun(c, s.reqs[r].pc)
    ensures r in Final(c, s, acts).reqs && !MayRun(c, Final(c, s, acts).reqs[r].pc)
    decreases |acts|
  {
    if acts != [] {
      ClockAdvances(c, s, acts);
      StepKeepsMemory(c, s, acts[0], deadline);
      StepStaysBehind(c, s, acts[0], deadline, r);
      StepRepliesFromCache(c, s, acts[0]);
      StaysBehind(c, Step(c, s, acts[0]), acts[1..], deadline, r);
    }
  }

  /** Some continuation, while the success is still remembered, has `r`'s handler running. */
  ghost predicate CanReachHandler(c: Config, s: State, r: ReqId, deadline: int) {
    exists acts :: ReachesHandler(c, s, r, deadline, acts)
  }

  ghost predicate ReachesHandler(c: Config, s: State, r: ReqId, deadline: int, acts: seq<Action>) {
    && Plays(c, s, acts) && Final(c, s, acts).now < deadline
    && r in Final(c, s, acts).reqs && Running(Final(c, s, acts).reqs[r].pc)
  }

  /**
   * Exactly which requests can still run once a success is stored, in every reachable state with the lock free: those past their read of the cache or running already, and, failing open, those
   * with a cache call still to come.
   */
  lemma CanStillRunIff(c: Config, before: seq<Action>, r: ReqId, deadline: int)
    requires ValidConfig(c) && Plays(c, Init, before)
    requires var s := Final(c, Init, before);
             r in s.reqs && Live(s.lock, s.now).None? && RemembersUntil(c, s, deadline) && s.now < deadline <= s.now + c.ttlMs
    ensures CanReachHandler(c, Final(c, Init, before), r, deadline) <==> MayRun(c, Final(c, Init, before).reqs[r].pc)
  {
    var s := Final(c, Init, before);
    if PastRead(s.reqs[r].pc) || Running(s.reqs[r].pc) {
      PastReadReaches(c, s, r, deadline);
    } else if MayRun(c, s.reqs[r].pc) {
      ClaimsHold(c, Init, before);
      FailingOpenReaches(c, s, r, deadline);
    } else if CanReachHandler(c, s, r, deadline) {
      var acts :| ReachesHandler(c, s, r, deadline, acts);
      AllRepliesFromCache(c, Init, before);
      StaysBehind(c, s, acts, deadline, r);
    }
  }

  lemma PastReadReaches(c: Config, s: State, r: ReqId, deadline: int)
    requires r in s.reqs && Live(s.lock, s.now).None? && s.now < deadline
    requires PastRead(s.reqs[r].pc) || Running(s.reqs[r].pc)
    ensures CanReachHandler(c, s, r, deadline)
  {
    assert Plays(c, s, []) && Final(c, s, []) == s;
    var acts: seq<Action> := [];
    if s.reqs[r].pc.Incrementing? {
      EarlyReaderCanStillRun(c, s, r);
      acts := [Increment(r, Ok), Bound(r, Ok)];
    } else if s.reqs[r].pc.Bounding? {
      PlaysOneMore(c, s, [], Bound(r, Ok));
      acts := [] + [Bound(r, Ok)];
    }
    assert ReachesHandler(c, s, r, deadline, acts);
  }

  /** A claiming request can be brought to its end at once, every cache call failing; nothing else changes. */
  lemma ClaimantEnds(c: Config, s: State, h: ReqId) returns (acts: seq<Action>)
    requires ClaimsOk(s) && h in s.reqs && Claimed(s.reqs[h].pc)
    ensures Plays(c, s, acts)
    ensures var s' := Final(c, s, acts);
            && s'.now == s.now && s'.inflight == s.inflight - {s.reqs[h].proc}
            && h in s'.reqs && Ended(s'.reqs[h].pc) && s'.reqs == s.reqs[h := s'.reqs[h]]
    ensures s.reqs[h].pc.Aborting? || s.reqs[h].pc.Reading? || s.reqs[h].pc.Rereading? ==>
              Final(c, s, acts).reqs[h].pc == Done(FailureReply(c))
  {
    assert Plays(c, s, []) && Final(c, s, []) == s;
    var a := FailingStep(s, h);
    PlaysOneMore(c, s, [], a);
    acts := [] + [a];
    var s1 := Final(c, s, acts);
    if !Ended(s1.reqs[h].pc) {
      var b := FailingStep(s1, h);
      StepKeepsClaims(c, s, a);
      LastFailingStepEnds(c, s1, h);
      PlaysOneMore(c, s, acts, b);
      acts := acts + [b];
    }
  }

  /** The next step of a claiming request, with its cache call failing. */
  function FailingStep(s: State, h: ReqId): Action
    requires h in s.reqs
  {
    match s.reqs[h].pc
    case Reading => Read(h, Failed)
    case Replying(_) => SendReply(h)
    case Incrementing => Increment(h, Failed)
    case Rereading => Reread(h, Failed)
    case CheckingTtl => CheckTtl(h, Failed)
    case Repairing => Repair(h, Failed)
    case Bounding(_) => Bound(h, Failed)
    case Aborting(_) => Abort(h, Failed)
    case Handling(_) => Respond(h, Closed)
    case Storing(_, _) => Store(h, 0, Failed)
    case _ => Unlock(h, Failed)
  }

  lemma LastFailingStepEnds(c: Config, s: State, h: ReqId)
    requires ClaimsOk(s) && h in s.reqs && (s.reqs[h].pc.Aborting? || s.reqs[h].pc.Unlocking?)
    ensures Enabled(s, FailingStep(s, h))
    ensures var s' := Step(c, s, FailingStep(s, h));
            && s'.now == s.now && s'.inflight == s.inflight - {s.reqs[h].proc}
            && h in s'.reqs && Ended(s'.reqs[h].pc) && s'.reqs == s.reqs[h := s'.reqs[h]]
  {
  }

  /** Failing open, a request whose read is still to come reads when the cache is down. */
  lemma FailingOpenReaches(c: Config, s: State, r: ReqId, deadline: int)
    requires c.failOpen && ClaimsOk(s) && r in s.reqs && MayFailOpen(s.reqs[r].pc) && s.now < deadline
    ensures CanReachHandler(c, s, r, deadline)
  {
    if Claimed(s.reqs[r].pc) {
      var acts := ClaimantEnds(c, s, r);
      assert ReachesHandler(c, s, r, deadline, acts);
    } else {
      var p := s.reqs[r].proc;
      var acts: seq<Action> := [];
      assert Plays(c, s, []) && Final(c, s, []) == s;
      if p in s.inflight {
        acts := ClaimantEnds(c, s, s.inflight[p]);
      }
      var s1 := Final(c, s, acts);
      assert Enabled(s1, Enter(r));
      EnterAndFail(c, s1, r);
      PlaysMore(c, s, acts, [Enter(r), Read(r, Failed)]);
      assert ReachesHandler(c, s, r, deadline, acts + [Enter(r), Read(r, Failed)]);
    }
  }

  lemma EnterAndFail(c: Config, s: State, r: ReqId)
    requires c.failOpen && Enabled(s, Enter(r)) && s.reqs[r].proc !in s.inflight
    ensures Plays(c, s, [Enter(r), Read(r, Failed)])
    ensures var s' := Final(c, s, [Enter(r), Read(r, Failed)]);
            s'.now == s.now && r in s'.reqs && s'.reqs[r].pc == Done(RanUnprotected)
  {
    assert Plays(c, s, []) && Final(c, s, []) == s;
    PlaysOneMore(c, s, [], Enter(r));
    assert [] + [Enter(r)] == [Enter(r)];
    PlaysOneMore(c, s, [Enter(r)], Read(r, Failed));
    assert [Enter(r)] + [Read(r, Failed)] == [Enter(r), Read(r, Failed)];
  }

  /** The span bound is tight: a handler that runs for exactly the lock's TTL can meet a second one. */
  lemma OverrunAdmitsSecondHolder(c: Config, fingerprint: string) returns (acts: seq<Action>)
    requires c.lockTtlMs > 0
    ensures Plays(c, Init, acts)
    ensures var s := Final(c, Init, acts);
            && 0 in s.reqs && 1 in s.reqs && s.reqs[0].pc.Handling? && s.reqs[1].pc.Handling?
            && s.now == s.reqs[0].pc.wonAt + c.lockTtlMs
  {
    acts := BothReadNothing(c, fingerprint);
    EarlyReaderCanStillRun(c, Final(c, Init, acts), 0);
    PlaysMore(c, Init, acts, [Increment(0, Ok), Bound(0, Ok)]);
    acts := acts + [Increment(0, Ok), Bound(0, Ok)];
    PlaysOneMore(c, Init, acts, Tick(c.lockTtlMs));
    acts := acts + [Tick(c.lockTtlMs)];
    EarlyReaderCanStillRun(c, Final(c, Init, acts), 1);
    PlaysMore(c, Init, acts, [Increment(1, Ok), Bound(1, Ok)]);
    acts := acts + [Increment(1, Ok), Bound(1, Ok)];
  }
}
