/**
 * The idempotency middleware for one storage key: requests in several processes,
 * each a program counter over the awaits of `handle`, sharing one cache. Every
 * cache command is one atomic step; any step of any request may come next.
 */
module IdempotencyModel {
  import opened Common

  type Proc = nat
  type ReqId = nat

  const MAX_STORED_BYTES := 64 * 1024

  // ----- Responses and stored outcomes. -----

  /** What a handler passes to `res.send`; `Json` carries the serialised text. */
  datatype Payload = Text(text: string) | Json(text: string) | Empty | Binary

  /** How the response ended: finished (with the last payload sent, if any) or closed early. */
  datatype Response =
    | Finished(statusCode: int, headers: map<string, string>, sent: Option<Payload>)
    | Closed

  datatype Outcome = Outcome(statusCode: int, headers: map<string, string>, body: string)

  /** A cache entry for an outcome: the body is ciphertext when `encrypted`. */
  datatype Entry = Entry(statusCode: int, headers: map<string, string>, body: string, encrypted: bool, fingerprint: string)

  datatype Config = Config(ttlMs: int, lockTtlMs: int, failOpen: bool,
                           encrypt: (string, nat) -> string, decrypt: string -> Option<string>)

  ghost predicate ValidConfig(c: Config) {
    && c.ttlMs > 0 && c.lockTtlMs > 0
    && forall text, nonce :: c.decrypt(c.encrypt(text, nonce)) == Some(text)
  }

  function SerialiseBody(p: Payload): Option<string> {
    match p
    case Text(t) => Some(t)
    case Json(t) => Some(t)
    case Empty => Some("")
    case Binary => None
  }

  function Utf8Length(s: string): nat {
    if s == [] then 0
    else
      var c := s[0] as int;
      (if c < 0x80 then 1 else if c < 0x800 then 2 else if c < 0x10000 then 3 else 4) + Utf8Length(s[1..])
  }

  function PickHeaders(headers: map<string, string>): map<string, string> {
    map name | name in headers && name in ["content-type", "cache-control"] :: headers[name]
  }

  /** The outcome worth remembering: a finished 2xx response with a text body of at most 64 KiB. */
  function Storable(response: Response): Option<Outcome> {
    match response
    case Closed => None
    case Finished(status, headers, sent) =>
      var body := if sent.Some? then SerialiseBody(sent.value) else None;
      if 200 <= status < 300 && body.Some? && Utf8Length(body.value) <= MAX_STORED_BYTES
      then Some(Outcome(status, PickHeaders(headers), body.value))
      else None
  }

  function Encode(c: Config, o: Outcome, nonce: nat, fingerprint: string): Entry {
    var encrypted := |o.body| > 0;
    Entry(o.statusCode, o.headers, if encrypted then c.encrypt(o.body, nonce) else "", encrypted, fingerprint)
  }

  /** An entry that cannot be decrypted reads as absent. */
  function Decode(c: Config, e: Entry): Option<Outcome> {
    if !e.encrypted then Some(Outcome(e.statusCode, e.headers, e.body))
    else
      match c.decrypt(e.body)
      case Some(body) => Some(Outcome(e.statusCode, e.headers, body))
      case None => None
  }

  // ----- The shared cache. -----

  datatype Timed<T> = Timed(value: T, expiresAt: Option<int>)

  function Live<T>(slot: Option<Timed<T>>, now: int): Option<T> {
    if slot.Some? && (slot.value.expiresAt.Some? ==> now < slot.value.expiresAt.value) then Some(slot.value.value) else None
  }

  /** INCR: a missing or expired counter restarts at 1 without expiry; a live one keeps its expiry. */
  function Incremented(lock: Option<Timed<int>>, now: int): Timed<int> {
    if Live(lock, now).Some? then Timed(lock.value.value + 1, lock.value.expiresAt) else Timed(1, None)
  }

  /** A cache call succeeds, fails without effect, or takes effect and then loses its reply. */
  datatype Call = Ok | Failed | Lost

  // ----- Requests. -----

  /** What a request was told; `RanDetached`: nothing, its client had gone while the handler was still running. */
  datatype Reply =
    | Replayed(outcome: Outcome)
    | KeyReused
    | InProgress
    | Unavailable
    | Ran
    | RanDetached
    | RanUnprotected

  datatype Pc =
    | Entering
    | Waiting(on: ReqId)
    | Reading
    | Replying(reply: Reply)
    | Incrementing
    | Rereading
    | CheckingTtl
    | Repairing
    | Bounding(wonAt: int)
    | Aborting(wonAt: int)
    | Handling(wonAt: int)
    | Storing(wonAt: int, outcome: Outcome)
    | Unlocking(wonAt: int, detached: bool)
    | Done(reply: Reply)
    | Crashed

  datatype Request = Request(proc: Proc, fingerprint: string, pc: Pc)

  datatype State = State(now: int, outcome: Option<Timed<Entry>>, lock: Option<Timed<int>>,
                         inflight: map<Proc, ReqId>, reqs: map<ReqId, Request>)

  const Init := State(0, None, None, map[], map[])

  /** From the synchronous claim of the key in its process until `finish`. */
  predicate Claimed(pc: Pc) {
    !pc.Entering? && !pc.Waiting? && !pc.Done? && !pc.Crashed?
  }

  /** Between the INCR that returned 1 and the DEL. */
  predicate Holds(pc: Pc) {
    pc.Bounding? || pc.Aborting? || pc.Handling? || pc.Storing? || pc.Unlocking?
  }

  predicate Ended(pc: Pc) { pc.Done? || pc.Crashed? }

  datatype Action =
    | Arrive(r: ReqId, proc: Proc, fingerprint: string)
    | Enter(r: ReqId)
    | Read(r: ReqId, call: Call)
    | SendReply(r: ReqId)
    | Increment(r: ReqId, call: Call)
    | Reread(r: ReqId, call: Call)
    | CheckTtl(r: ReqId, call: Call)
    | Repair(r: ReqId, call: Call)
    | Bound(r: ReqId, call: Call)
    | Abort(r: ReqId, call: Call)
    | Respond(r: ReqId, response: Response)
    | Store(r: ReqId, nonce: nat, call: Call)
    | Unlock(r: ReqId, call: Call)
    | FinishAgain(r: ReqId)
    | Crash(proc: Proc)
    | Tick(ms: nat)

  predicate Enabled(s: State, a: Action) {
    match a
    case Arrive(r, _, _) => r !in s.reqs
    case Crash(_) => true
    case Tick(_) => true
    case _ =>
      && a.r in s.reqs
      && var pc := s.reqs[a.r].pc;
      match a
      case Enter(_) => pc.Entering? || (pc.Waiting? && pc.on in s.reqs && Ended(s.reqs[pc.on].pc))
      case Read(_, _) => pc.Reading?
      case SendReply(_) => pc.Replying?
      case Increment(_, _) => pc.Incrementing?
      case Reread(_, _) => pc.Rereading?
      case CheckTtl(_, _) => pc.CheckingTtl?
      case Repair(_, _) => pc.Repairing?
      case Bound(_, _) => pc.Bounding?
      case Abort(_, _) => pc.Aborting?
      case Respond(_, _) => pc.Handling?
      case Store(_, _, _) => pc.Storing?
      case Unlock(_, _) => pc.Unlocking?
      case FinishAgain(_) => pc.Done?
      case _ => true
  }

  function Move(s: State, r: ReqId, pc: Pc): State
    requires r in s.reqs
  {
    s.(reqs := s.reqs[r := s.reqs[r].(pc := pc)])
  }

  /** `finish`: give the claim back, but only if it is still this request's. */
  function Release(s: State, r: ReqId): State
    requires r in s.reqs
  {
    var p := s.reqs[r].proc;
    if p in s.inflight && s.inflight[p] == r then s.(inflight := s.inflight - {p}) else s
  }

  function End(s: State, r: ReqId, reply: Reply): State
    requires r in s.reqs
  {
    Move(Release(s, r), r, Done(reply))
  }

  /** What the error path tells the client once the claim is back. */
  function FailureReply(c: Config): Reply {
    if c.failOpen then RanUnprotected else Unavailable
  }

  /** Replay a stored outcome, or refuse the key for another payload. */
  function ReplayOrRefuse(stored: string, fingerprint: string, o: Outcome): Reply {
    if stored != "" && stored != fingerprint then KeyReused else Replayed(o)
  }

  function ReadReply(c: Config, s: State, r: ReqId): Option<Reply>
    requires r in s.reqs
  {
    match Live(s.outcome, s.now)
    case None => None
    case Some(e) =>
      match Decode(c, e)
      case None => None
      case Some(o) => Some(ReplayOrRefuse(e.fingerprint, s.reqs[r].fingerprint, o))
  }

  function BoundedLock(c: Config, s: State): State {
    s.(lock := Some(Timed(1, Some(s.now + c.lockTtlMs))))
  }

  function Step(c: Config, s: State, a: Action): State
    requires Enabled(s, a)
  {
    match a
    case Arrive(r, proc, fingerprint) => s.(reqs := s.reqs[r := Request(proc, fingerprint, Entering)])
    case Enter(r) =>
      var p := s.reqs[r].proc;
      if p in s.inflight then Move(s, r, Waiting(s.inflight[p]))
      else Move(s.(inflight := s.inflight[p := r]), r, Reading)
    case Read(r, call) =>
      if call != Ok then End(s, r, FailureReply(c))
      else (match ReadReply(c, s, r)
            case Some(reply) => Move(s, r, Replying(reply))
            case None => Move(s, r, Incrementing))
    case SendReply(r) => End(s, r, s.reqs[r].pc.reply)
    case Increment(r, call) =>
      if call == Failed then End(s, r, FailureReply(c))
      else
        var s' := s.(lock := Some(Incremented(s.lock, s.now)));
        if call == Lost then End(s', r, FailureReply(c))
        else Move(s', r, if s'.lock.value.value > 1 then Rereading else Bounding(s.now))
    case Reread(r, call) =>
      if call != Ok then End(s, r, FailureReply(c))
      else (match ReadReply(c, s, r)
            case Some(reply) => Move(s, r, Replying(reply))
            case None => Move(s, r, CheckingTtl))
    case CheckTtl(r, call) =>
      if call == Ok && Live(s.lock, s.now).Some? && s.lock.value.expiresAt.None?
      then Move(s, r, Repairing)
      else End(s, r, InProgress)
    case Repair(r, call) => End(if call == Failed then s else BoundedLock(c, s), r, InProgress)
    case Bound(r, call) =>
      var wonAt := s.reqs[r].pc.wonAt;
      Move(if call == Failed then s else BoundedLock(c, s), r, if call == Ok then Handling(wonAt) else Aborting(wonAt))
    case Abort(r, call) => End(if call == Failed then s else s.(lock := None), r, FailureReply(c))
    case Respond(r, response) =>
      var wonAt := s.reqs[r].pc.wonAt;
      (match Storable(response)
       case Some(o) => Move(s, r, Storing(wonAt, o))
       case None => Move(s, r, Unlocking(wonAt, response.Closed?)))
    case Store(r, nonce, call) =>
      var pc := s.reqs[r].pc;
      var entry := Encode(c, pc.outcome, nonce, s.reqs[r].fingerprint);
      Move(if call == Failed then s else s.(outcome := Some(Timed(entry, Some(s.now + c.ttlMs)))), r, Unlocking(pc.wonAt, false))
    case Unlock(r, call) =>
      End(if call == Failed then s else s.(lock := None), r, if s.reqs[r].pc.detached then RanDetached else Ran)
    case FinishAgain(r) => Release(s, r)
    case Crash(proc) =>
      s.(inflight := s.inflight - {proc},
         reqs := map r | r in s.reqs ::
           if s.reqs[r].proc == proc && !Ended(s.reqs[r].pc) then s.reqs[r].(pc := Crashed) else s.reqs[r])
    case Tick(ms) => s.(now := s.now + ms)
  }

  // ----- Runs. -----

  ghost predicate Plays(c: Config, s: State, acts: seq<Action>)
    decreases |acts|
  {
    acts == [] || (Enabled(s, acts[0]) && Plays(c, Step(c, s, acts[0]), acts[1..]))
  }

  ghost function Final(c: Config, s: State, acts: seq<Action>): State
    requires Plays(c, s, acts)
    decreases |acts|
  {
    if acts == [] then s else Final(c, Step(c, s, acts[0]), acts[1..])
  }

  lemma {:induction false} FinalOfConcat(c: Config, s: State, first: seq<Action>, rest: seq<Action>)
    requires Plays(c, s, first + rest)
    ensures Plays(c, s, first) && Plays(c, Final(c, s, first), rest)
    ensures Final(c, s, first + rest) == Final(c, Final(c, s, first), rest)
    decreases |first|
  {
    if first == [] {
      assert first + rest == rest;
    } else {
      assert (first + rest)[0] == first[0] && (first + rest)[1..] == first[1..] + rest;
      FinalOfConcat(c, Step(c, s, first[0]), first[1..], rest);
    }
  }
}
