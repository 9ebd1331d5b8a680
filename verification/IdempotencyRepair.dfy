/**
 * No key is locked out for ever: an orphaned lock is bounded, a holder gives its lock back, and a retry
 * gets through; and exactly which outcomes are remembered for it, in which form.
 */
module IdempotencyRepair {
  import opened Common
  import opened IdempotencyModel
  import opened IdempotencyProofs
  import opened IdempotencyLimits

  // ----- The orphan repair. -----

  /** The lock is free, or will be so one TTL from now at the latest. */
  predicate WillBeFree(c: Config, s: State) {
    Live(s.lock, s.now).Some? ==> s.lock.value.expiresAt.Some? && s.lock.value.expiresAt.value <= s.now + c.lockTtlMs
  }

  /** The counter has counted somebody, and its expiry, if it has one, is no further away than the TTL. */
  predicate LockSane(c: Config, s: State) {
    s.lock.Some? ==>
      && s.lock.value.value >= 1
      && (s.lock.value.expiresAt.Some? ==> s.lock.value.expiresAt.value <= s.now + c.lockTtlMs)
  }

  lemma StepKeepsLockSane(c: Config, s: State, a: Action)
    requires LockSane(c, s) && Enabled(s, a)
    ensures LockSane(c, Step(c, s, a))
  {
    if Protocol(a) && !a.Enter? && !a.Increment? && !a.Abort? && !a.Unlock? {
      StepKeepsSpan(c, s, a);
      var pc := StepIsMoveOrEnd(c, s, a);
    }
  }

  lemma {:induction false} LockStaysSane(c: Config, s: State, acts: seq<Action>)
    requires LockSane(c, s) && Plays(c, s, acts)
    ensures LockSane(c, Final(c, s, acts))
    decreases |acts|
  {
    if acts != [] {
      StepKeepsLockSane(c, s, acts[0]);
      LockStaysSane(c, Step(c, s, acts[0]), acts[1..]);
    }
  }

  /** The action answers its request with 409, and no cache call failed. */
  predicate AnswersInProgress(c: Config, s: State, a: Action)
    requires Enabled(s, a)
  {
    && Protocol(a) && CallOk(a) && a.r in Step(c, s, a).reqs
    && s.reqs[a.r].pc != Done(InProgress) && Step(c, s, a).reqs[a.r].pc == Done(InProgress)
  }

  /** In every run: once a request has been answered 409, its cache calls done, the lock it met ends within one TTL. */
  lemma InProgressBoundsLock(c: Config, before: seq<Action>, a: Action)
    requires Plays(c, Init, before) && Enabled(Final(c, Init, before), a)
    requires AnswersInProgress(c, Final(c, Init, before), a)
    ensures WillBeFree(c, Step(c, Final(c, Init, before), a))
  {
    var s := Final(c, Init, before);
    LockStaysSane(c, Init, before);
    AllRepliesFromCache(c, Init, before);
    var pc := StepIsMoveOrEnd(c, s, a);
    assert a.CheckTtl? || a.Repair?;
  }

  /** Nobody wins the lock: every INCR that takes effect finds it taken. */
  ghost predicate NobodyWins(c: Config, s: State, acts: seq<Action>)
    requires Plays(c, s, acts)
    decreases |acts|
  {
    acts == [] ||
    ((acts[0].Increment? && acts[0].call != Failed ==> Live(s.lock, s.now).Some?) && NobodyWins(c, Step(c, s, acts[0]), acts[1..]))
  }

  lemma StepKeepsWillBeFree(c: Config, s: State, a: Action)
    requires c.lockTtlMs >= 0 && WillBeFree(c, s) && Enabled(s, a)
    requires a.Increment? && a.call != Failed ==> Live(s.lock, s.now).Some?
    ensures WillBeFree(c, Step(c, s, a))
  {
    if Protocol(a) && !a.Enter? && !a.Increment? && !a.Abort? && !a.Unlock? {
      StepKeepsSpan(c, s, a);
      var pc := StepIsMoveOrEnd(c, s, a);
    }
  }

  lemma {:induction false} StaysToBeFree(c: Config, s: State, acts: seq<Action>)
    requires c.lockTtlMs >= 0 && WillBeFree(c, s) && Plays(c, s, acts) && NobodyWins(c, s, acts)
    ensures WillBeFree(c, Final(c, s, acts))
    decreases |acts|
  {
    if acts != [] {
      StepKeepsWillBeFree(c, s, acts[0]);
      StaysToBeFree(c, Step(c, s, acts[0]), acts[1..]);
    }
  }

  /** One TTL later the lock is free, and a request in an unclaimed process runs its handler. */
  lemma RunsAfterTtl(c: Config, s: State, r: ReqId, p: Proc, fingerprint: string) returns (acts: seq<Action>)
    requires c.lockTtlMs >= 0 && WillBeFree(c, s)
    requires r !in s.reqs && p !in s.inflight && !Readable(c, s.(now := s.now + c.lockTtlMs))
    ensures Plays(c, s, acts) && forall a :: a in acts ==> CallOk(a)
    ensures Final(c, s, acts).reqs == s.reqs[r := Request(p, fingerprint, Handling(s.now + c.lockTtlMs))]
    ensures Final(c, s, acts).now == s.now + c.lockTtlMs
  {
    assert Plays(c, s, []) && Final(c, s, []) == s;
    PlaysOneMore(c, s, [], Tick(c.lockTtlMs));
    acts := [] + [Tick(c.lockTtlMs)];
    var more := NextRequestRuns(c, Final(c, s, acts), r, p, fingerprint);
    PlaysMore(c, s, acts, more);
    acts := acts + more;
  }

  /**
   * The orphan repair repairs, over every run: after a request was answered 409 without a failed cache call, if nobody
   * wins the lock in between, one lock TTL later the next request for the key runs its handler, unless a read finds an
   * outcome. The instance that made the lock may have died before it set an expiry, and others may come and go.
   */
  lemma OrphanedLockIsRepaired(c: Config, before: seq<Action>, a: Action, between: seq<Action>, r: ReqId, p: Proc, fingerprint: string)
    returns (acts: seq<Action>)
    requires c.lockTtlMs > 0 && Plays(c, Init, before) && Enabled(Final(c, Init, before), a)
    requires AnswersInProgress(c, Final(c, Init, before), a)
    requires var s := Step(c, Final(c, Init, before), a);
             && Plays(c, s, between) && NobodyWins(c, s, between)
             && var t := Final(c, s, between);
                r !in t.reqs && p !in t.inflight && !Readable(c, t.(now := t.now + c.lockTtlMs))
    ensures var t := Final(c, Step(c, Final(c, Init, before), a), between);
            && Plays(c, t, acts) && (forall b :: b in acts ==> CallOk(b))
            && Final(c, t, acts).reqs == t.reqs[r := Request(p, fingerprint, Handling(t.now + c.lockTtlMs))]
  {
    InProgressBoundsLock(c, before, a);
    StaysToBeFree(c, Step(c, Final(c, Init, before), a), between);
    acts := RunsAfterTtl(c, Final(c, Step(c, Final(c, Init, before), a), between), r, p, fingerprint);
  }

  /** The lock is gone or ends at `expiry`, and nobody is about to give it a new end. */
  ghost predicate EndsAt(s: State, expiry: int) {
    && (s.lock.Some? ==> s.lock.value.value >= 1 && s.lock.value.expiresAt == Some(expiry))
    && forall r :: r in s.reqs ==> !s.reqs[r].pc.Bounding? && !s.reqs[r].pc.Repairing?
  }

  lemma OwnStepKeepsEnd(c: Config, s: State, a: Action, expiry: int)
    requires EndsAt(s, expiry) && Enabled(s, a) && Protocol(a) && !a.Enter?
    requires a.Increment? && a.call != Failed ==> Live(s.lock, s.now).Some?
    ensures var s' := Step(c, s, a);
            && a.r in s'.reqs && !s'.reqs[a.r].pc.Bounding? && !s'.reqs[a.r].pc.Repairing?
            && (s'.lock.Some? ==> s'.lock.value.value >= 1 && s'.lock.value.expiresAt == Some(expiry))
  {
    match a {
      case Read(_, _) =>
      case SendReply(_) =>
      case Increment(_, _) =>
      case Reread(_, _) =>
      case CheckTtl(_, _) =>
      case Abort(_, _) =>
      case Respond(_, _) =>
      case Store(_, _, _) =>
      case Unlock(_, _) =>
      case _ => assert false;
    }
  }

  /**
   * The repair leaves a sound lock alone: however many contenders meet a lock that has an expiry, they do not move it,
   * so they cannot keep the key locked.
   */
  lemma {:induction false} SoundLockIsNotProlonged(c: Config, s: State, acts: seq<Action>, expiry: int)
    requires EndsAt(s, expiry) && Plays(c, s, acts) && NobodyWins(c, s, acts)
    ensures EndsAt(Final(c, s, acts), expiry)
    decreases |acts|
  {
    if acts != [] {
      if Protocol(acts[0]) && !acts[0].Enter? {
        var pc := StepIsMoveOrEnd(c, s, acts[0]);
        OwnStepKeepsEnd(c, s, acts[0], expiry);
      }
      SoundLockIsNotProlonged(c, Step(c, s, acts[0]), acts[1..], expiry);
    }
  }

  // ----- Retrying. -----

  /** The request a fresh arrival becomes: its handler runs, or it was told 409. */
  predicate RunsOrInProgress(pc: Pc) { pc.Handling? || pc == Done(InProgress) }

  /** A contender whose calls succeed: it finds the lock taken, repairs it if it has no expiry, and is told 409. */
  lemma ContenderEnds(c: Config, s: State, r: ReqId) returns (acts: seq<Action>)
    requires r in s.reqs && s.reqs[r].pc.Rereading? && !Readable(c, s) && LockSane(c, s)
    requires Live(s.lock, s.now).Some?
    ensures Plays(c, s, acts) && forall a :: a in acts ==> CallOk(a)
    ensures var s' := Final(c, s, acts);
            && s'.now == s.now && s'.outcome == s.outcome && WillBeFree(c, s') && s'.inflight == Release(s, r).inflight
            && s'.reqs == s.reqs[r := s.reqs[r].(pc := Done(InProgress))]
  {
    assert Plays(c, s, []) && Final(c, s, []) == s;
    PlaysOneMore(c, s, [], Reread(r, Ok));
    acts := [] + [Reread(r, Ok)];
    var s1 := Final(c, s, acts);
    assert s1 == Move(s, r, CheckingTtl);
    PlaysOneMore(c, s, acts, CheckTtl(r, Ok));
    acts := acts + [CheckTtl(r, Ok)];
    var s2 := Final(c, s, acts);
    if s2.reqs[r].pc.Repairing? {
      PlaysOneMore(c, s, acts, Repair(r, Ok));
      acts := acts + [Repair(r, Ok)];
    }
  }

  /** A fresh request whose calls succeed runs its handler, or is told 409 and leaves a lock that will be free. */
  lemma FreshRequest(c: Config, s: State, r: ReqId, p: Proc, fingerprint: string) returns (acts: seq<Action>)
    requires r !in s.reqs && p !in s.inflight && !Readable(c, s) && LockSane(c, s)
    ensures Plays(c, s, acts) && forall a :: a in acts ==> CallOk(a)
    ensures var s' := Final(c, s, acts);
            && s'.now == s.now && s'.outcome == s.outcome && r in s'.reqs && s'.reqs == s.reqs[r := Request(p, fingerprint, s'.reqs[r].pc)]
            && RunsOrInProgress(s'.reqs[r].pc)
            && (s'.reqs[r].pc.Done? ==> WillBeFree(c, s') && s'.inflight == s.inflight)
  {
    if Live(s.lock, s.now).None? {
      acts := NextRequestRuns(c, s, r, p, fingerprint);
    } else {
      acts := FreshLoses(c, s, r, p, fingerprint);
      var s1 := Final(c, s, acts);
      var more := ContenderEnds(c, s1, r);
      PlaysMore(c, s, acts, more);
      acts := acts + more;
      assert s1.inflight - {p} == s.inflight;
    }
  }

  lemma FreshLoses(c: Config, s: State, r: ReqId, p: Proc, fingerprint: string) returns (acts: seq<Action>)
    requires r !in s.reqs && p !in s.inflight && !Readable(c, s) && LockSane(c, s) && Live(s.lock, s.now).Some?
    ensures Plays(c, s, acts) && forall a :: a in acts ==> CallOk(a)
    ensures var s' := Final(c, s, acts);
            && s'.now == s.now && s'.outcome == s.outcome && s'.inflight == s.inflight[p := r]
            && s'.lock == Some(Timed(s.lock.value.value + 1, s.lock.value.expiresAt))
            && s'.reqs == s.reqs[r := Request(p, fingerprint, Rereading)]
  {
    PlaysThree(c, s, Arrive(r, p, fingerprint), Enter(r), Read(r, Ok));
    acts := [Arrive(r, p, fingerprint), Enter(r), Read(r, Ok)];
    var s1 := Final(c, s, acts);
    assert s1.inflight == s.inflight[p := r] && s1.reqs == s.reqs[r := Request(p, fingerprint, Incrementing)];
    LoserRereads(c, s1, r);
    PlaysOneMore(c, s, acts, Increment(r, Ok));
    acts := acts + [Increment(r, Ok)];
  }

  /** A second INCR on a running lock reads the cache again and leaves the expiry as it is. */
  lemma LoserRereads(c: Config, s: State, r: ReqId)
    requires r in s.reqs && s.reqs[r].pc.Incrementing? && Live(s.lock, s.now).Some? && s.lock.value.value >= 1
    ensures Step(c, s, Increment(r, Ok)) == Move(s.(lock := Some(Timed(s.lock.value.value + 1, s.lock.value.expiresAt))), r, Rereading)
  {
  }

  /**
   * No key is locked out for ever: in every reachable state with nothing to replay, a retry in an unclaimed process gets
   * through. Either the first fresh request runs its handler, or it is told 409 and the one sent a lock TTL later does,
   * whatever instances have died with the lock.
   */
  lemma RetryGetsThrough(c: Config, before: seq<Action>, r1: ReqId, r2: ReqId, p: Proc, fingerprint: string) returns (acts: seq<Action>)
    requires c.lockTtlMs > 0 && Plays(c, Init, before) && r1 != r2
    requires var s := Final(c, Init, before); r1 !in s.reqs && r2 !in s.reqs && p !in s.inflight && !Readable(c, s)
    ensures var s := Final(c, Init, before);
            && Plays(c, s, acts) && (forall a :: a in acts ==> CallOk(a))
            && var s' := Final(c, s, acts);
               || (s'.now == s.now && r1 in s'.reqs && s'.reqs == s.reqs[r1 := s'.reqs[r1]] && s'.reqs[r1].pc.Handling?)
               || (s'.now == s.now + c.lockTtlMs && r2 in s'.reqs && s'.reqs[r2].pc.Handling?
                   && s'.reqs == s.reqs[r1 := Request(p, fingerprint, Done(InProgress))][r2 := s'.reqs[r2]])
  {
    var s := Final(c, Init, before);
    LockStaysSane(c, Init, before);
    acts := FreshRequest(c, s, r1, p, fingerprint);
    var s1 := Final(c, s, acts);
    if s1.reqs[r1].pc.Done? {
      var more := RunsAfterTtl(c, s1, r2, p, fingerprint);
      PlaysMore(c, s, acts, more);
      acts := acts + more;
    }
  }

  // ----- Giving the lock back, and replaying. -----

  /** A holder that ends, its DEL done, leaves the lock free. */
  lemma HolderLeavesLockFree(c: Config, s: State, a: Action)
    requires Enabled(s, a) && Protocol(a) && !a.Enter? && CallOk(a)
    requires Holds(s.reqs[a.r].pc) && a.r in Step(c, s, a).reqs && !Holds(Step(c, s, a).reqs[a.r].pc)
    ensures Step(c, s, a).lock.None? && Ended(Step(c, s, a).reqs[a.r].pc)
    ensures Step(c, s, a).inflight == Release(s, a.r).inflight && Step(c, s, a).outcome == s.outcome
  {
    match a {
      case Bound(_, _) =>
      case Abort(_, _) =>
      case Respond(_, _) =>
      case Store(_, _, _) =>
      case Unlock(_, _) =>
      case _ => assert false;
    }
  }

  /** After an outcome that is not remembered the lock is given back, and a retry runs its handler at once. */
  lemma RetryAfterFailure(c: Config, s: State, h: ReqId, response: Response, r: ReqId, fingerprint: string) returns (acts: seq<Action>)
    requires ClaimsOk(s) && h in s.reqs && s.reqs[h].pc.Handling? && Storable(response).None?
    requires r !in s.reqs && !Readable(c, s)
    ensures Plays(c, s, [Respond(h, response), Unlock(h, Ok)] + acts) && forall a :: a in acts ==> CallOk(a)
    ensures var s' := Final(c, s, [Respond(h, response), Unlock(h, Ok)] + acts);
            s'.now == s.now && r in s'.reqs && s'.reqs[r].pc.Handling? && s'.reqs[r].proc == s.reqs[h].proc
  {
    assert Plays(c, s, []) && Final(c, s, []) == s;
    PlaysOneMore(c, s, [], Respond(h, response));
    assert [] + [Respond(h, response)] == [Respond(h, response)];
    PlaysOneMore(c, s, [Respond(h, response)], Unlock(h, Ok));
    var first := [Respond(h, response), Unlock(h, Ok)];
    assert [Respond(h, response)] + [Unlock(h, Ok)] == first;
    var s1 := Final(c, s, first);
    acts := NextRequestRuns(c, s1, r, s.reqs[h].proc, fingerprint);
    PlaysMore(c, s, first, acts);
  }

  /**
   * A read that finds an outcome, at first or after losing the lock race, is answered from it: with exactly the stored
   * status, headers and body, or 422 when both requests carry fingerprints and they differ. The claim is given back.
   */
  lemma FoundIsReplayed(c: Config, s: State, r: ReqId, a: Action, e: Entry, o: Outcome)
    requires ClaimsOk(s) && Enabled(s, a) && (a == Read(r, Ok) || a == Reread(r, Ok))
    requires Live(s.outcome, s.now) == Some(e) && Decode(c, e) == Some(o)
    ensures Plays(c, s, [a, SendReply(r)])
    ensures var s', q := Final(c, s, [a, SendReply(r)]), s.reqs[r];
            && s'.lock == s.lock && s'.outcome == s.outcome && s'.inflight == s.inflight - {q.proc}
            && (e.fingerprint == "" || e.fingerprint == q.fingerprint ==> s'.reqs == s.reqs[r := q.(pc := Done(Replayed(o)))])
            && (e.fingerprint != "" && e.fingerprint != q.fingerprint ==> s'.reqs == s.reqs[r := q.(pc := Done(KeyReused))])
  {
    assert Plays(c, s, []) && Final(c, s, []) == s;
    PlaysOneMore(c, s, [], a);
    assert [] + [a] == [a];
    PlaysOneMore(c, s, [a], SendReply(r));
    assert [a] + [SendReply(r)] == [a, SendReply(r)];
  }

  /** Nothing else goes through to the outcome's key. */
  predicate StoresNothing(acts: seq<Action>) {
    forall a :: a in acts ==> (a.Store? ==> a.call == Failed)
  }

  lemma {:induction false} OutcomeIsKept(c: Config, s: State, acts: seq<Action>)
    requires Plays(c, s, acts) && StoresNothing(acts)
    ensures Final(c, s, acts).outcome == s.outcome
    decreases |acts|
  {
    if acts != [] {
      var a := acts[0];
      assert a in acts;
      if Protocol(a) && !a.Enter? && !a.Store? && !a.Respond? {
        OtherStepStoresNothing(c, s, a);
      }
      OutcomeIsKept(c, Step(c, s, a), acts[1..]);
    }
  }

  /** How long a success is remembered, in every run: a read finds it exactly until its TTL after the store is over. */
  lemma RememberedExactlyForTtl(c: Config, before: seq<Action>, a: Action, after: seq<Action>)
    requires ValidConfig(c) && a.Store? && a.call != Failed && Plays(c, Init, before) && Enabled(Final(c, Init, before), a)
    requires Plays(c, Step(c, Final(c, Init, before), a), after) && StoresNothing(after)
    ensures var s := Final(c, Init, before);
            Readable(c, Final(c, Step(c, s, a), after)) <==> Final(c, Step(c, s, a), after).now < s.now + c.ttlMs
  {
    var s := Final(c, Init, before);
    EncodeDecodes(c, s.reqs[a.r].pc.outcome, a.nonce, s.reqs[a.r].fingerprint);
    OutcomeIsKept(c, Step(c, s, a), after);
  }

  /** An entry whose body cannot be decrypted counts for nothing: with the lock free, the next request runs its handler. */
  lemma UndecryptableEntryIsAbsent(c: Config, s: State, e: Entry, r: ReqId, p: Proc, fingerprint: string) returns (acts: seq<Action>)
    requires s.outcome.Some? && s.outcome.value.value == e && e.encrypted && c.decrypt(e.body).None?
    requires r !in s.reqs && p !in s.inflight && Live(s.lock, s.now).None?
    ensures Plays(c, s, acts) && forall a :: a in acts ==> CallOk(a)
    ensures Final(c, s, acts).reqs == s.reqs[r := Request(p, fingerprint, Handling(s.now))]
  {
    acts := NextRequestRuns(c, s, r, p, fingerprint);
  }

  // ----- What is remembered. -----

  /** The bytes of a text are those of its parts, and a character has one to four by its code. */
  lemma {:induction false} BytesAddUp(a: string, b: string)
    ensures Utf8Length(a + b) == Utf8Length(a) + Utf8Length(b)
    ensures forall ch: char :: Utf8Length([ch]) == (if ch as int <= 0x7F then 1 else if ch as int <= 0x7FF then 2 else if ch as int <= 0xFFFF then 3 else 4)
  {
    if a == [] {
      assert a + b == b;
    } else {
      assert (a + b)[0] == a[0] && (a + b)[1..] == a[1..] + b;
      BytesAddUp(a[1..], b);
    }
  }

  /** `kept` are the headers of `all` that may be replayed. */
  predicate SafeHeaders(all: map<string, string>, kept: map<string, string>) {
    && (forall name :: name in kept ==> name in all && kept[name] == all[name] && (name == "content-type" || name == "cache-control"))
    && ("content-type" in all ==> "content-type" in kept) && ("cache-control" in all ==> "cache-control" in kept)
  }

  /** Exactly what is worth remembering: a finished 2xx response with a text of at most 65536 bytes, with its two safe headers. */
  lemma StoredExactly(status: int, headers: map<string, string>, sent: Payload, text: string)
    requires sent == Text(text) || sent == Json(text) || (sent == Empty && text == "")
    ensures Storable(Finished(status, headers, Some(sent))).Some? <==> 200 <= status <= 299 && Utf8Length(text) <= 65536
    ensures var o := Storable(Finished(status, headers, Some(sent)));
            o.Some? ==> o.value.statusCode == status && o.value.body == text && SafeHeaders(headers, o.value.headers)
    ensures Storable(Closed).None? && Storable(Finished(status, headers, None)).None?
    ensures Storable(Finished(status, headers, Some(Binary))).None?
  {
  }

  /** An outcome as it may be remembered. */
  predicate Rememberable(o: Outcome) {
    && 200 <= o.statusCode <= 299 && Utf8Length(o.body) <= 65536
    && forall name :: name in o.headers ==> name == "content-type" || name == "cache-control"
  }

  /** An entry as it may lie in the cache: its body is empty, or encrypted. */
  ghost predicate Sealed(c: Config, e: Entry) {
    exists text, nonce :: SealedAs(c, e, text, nonce)
  }

  predicate SealedAs(c: Config, e: Entry, text: string, nonce: nat) {
    && Rememberable(Outcome(e.statusCode, e.headers, text))
    && (if text == "" then e.body == "" && !e.encrypted else e.body == c.encrypt(text, nonce) && e.encrypted)
  }

  ghost predicate OnlySealed(c: Config, s: State) {
    && (s.outcome.Some? ==> Sealed(c, s.outcome.value.value))
    && forall r :: r in s.reqs && s.reqs[r].pc.Storing? ==> Rememberable(s.reqs[r].pc.outcome)
  }

  lemma EncodedIsSealed(c: Config, o: Outcome, nonce: nat, fingerprint: string)
    requires Rememberable(o)
    ensures Sealed(c, Encode(c, o, nonce, fingerprint))
  {
    assert SealedAs(c, Encode(c, o, nonce, fingerprint), o.body, nonce);
  }

  lemma RespondedIsRememberable(response: Response)
    ensures Storable(response).Some? ==> Rememberable(Storable(response).value)
  {
  }

  lemma OtherStepStoresNothing(c: Config, s: State, a: Action)
    requires Enabled(s, a) && Protocol(a) && !a.Enter? && !a.Store? && !a.Respond?
    ensures var s' := Step(c, s, a); a.r in s'.reqs && s'.outcome == s.outcome && !s'.reqs[a.r].pc.Storing?
  {
    match a {
      case Read(_, _) =>
      case SendReply(_) =>
      case Increment(_, _) =>
      case Reread(_, _) =>
      case CheckTtl(_, _) =>
      case Repair(_, _) =>
      case Bound(_, _) =>
      case Abort(_, _) =>
      case Unlock(_, _) =>
    }
  }

  lemma StepKeepsSealed(c: Config, s: State, a: Action)
    requires OnlySealed(c, s) && Enabled(s, a)
    ensures OnlySealed(c, Step(c, s, a))
  {
    if Protocol(a) && !a.Enter? {
      var pc := StepIsMoveOrEnd(c, s, a);
      if a.Store? {
        EncodedIsSealed(c, s.reqs[a.r].pc.outcome, a.nonce, s.reqs[a.r].fingerprint);
      } else if a.Respond? {
        RespondedIsRememberable(a.response);
      } else {
        OtherStepStoresNothing(c, s, a);
      }
    }
  }

  /** In every run, what lies in the cache is a 2xx outcome of at most 65536 bytes with safe headers, its body encrypted unless empty. */
  lemma {:induction false} CacheHoldsSealedOutcomes(c: Config, s: State, acts: seq<Action>)
    requires OnlySealed(c, s) && Plays(c, s, acts)
    ensures OnlySealed(c, Final(c, s, acts))
    decreases |acts|
  {
    if acts != [] {
      StepKeepsSealed(c, s, acts[0]);
      CacheHoldsSealedOutcomes(c, Step(c, s, acts[0]), acts[1..]);
    }
  }
}
