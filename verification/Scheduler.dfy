/**
 * One job tick: acquire, run under a heartbeat, release with the tick fence, and every way in which a
 * throw can leave the tick before its release.
 */
module Scheduler {
  import opened Common
  import opened JobLock
  import opened LeaseRuns

  // ----- Thrown values. -----

  /** What reading a property of a thrown value gives; `Raises`: the read itself throws. */
  datatype Field = Missing | Text | Other | Raises

  /** A thrown value; `printable` says whether it converts to a string, `counts` covers the entries read out of it. */
  datatype Thrown =
    | Nullish
    | Scalar
    | Object(code: Field, message: Field, stack: Field, counts: Field, printable: bool)

  /** Building the stored `{ code, message }` record throws. */
  predicate SanitizeRaises(e: Thrown) {
    e.Object? && (e.code.Raises? || e.message.Raises? || (!e.message.Text? && !e.printable))
  }

  /** Reading `counts` off the value, or its entries, throws. */
  predicate CountsRaise(e: Thrown) { e.Object? && e.counts.Raises? }

  /** Reading `stack`, or `message` where there is no stack, throws. */
  predicate StackRaises(e: Thrown) { e.Object? && (e.stack.Raises? || (e.stack.Missing? && e.message.Raises?)) }

  predicate MessageRaises(e: Thrown) { e.Object? && e.message.Raises? }

  // ----- One tick. -----

  datatype Reply = Resolves | Rejects(err: Thrown) | RaisesNow

  datatype AcquireReply = Unreachable(err: Thrown) | Taken | Got(token: Token)

  /** The handler's end; `Unreadable`: it returned counts whose entries cannot be read. */
  datatype HandlerReply = Returns | Unreadable(err: Thrown) | Throws(err: Thrown)

  /** What every call of one tick does. */
  datatype Ticket = Ticket(acquire: AcquireReply, create: Reply, beats: nat, handler: HandlerReply, reportRaises: bool,
                           metricsRaise: bool, finish: Reply, release: Reply)

  datatype Status = Succeeded | Failed | Skipped(reason: string) | Rejected

  datatype LockCall =
    | AcquireCall(key: Key, leaseMs: int)
    | RenewCall(key: Key, token: Token, leaseMs: int)
    | ReleaseCall(key: Key, token: Token, holdUntil: Option<int>)

  /** A value every handler in the tick can report: its properties can be read, and it has a text. */
  predicate Reportable(e: Thrown) {
    e.Object? ==>
      && !e.code.Raises? && !e.message.Raises? && !e.stack.Raises? && !e.counts.Raises?
      && (e.message.Text? || e.printable)
  }

  /** A promise that resolves, or whose rejection the tick can log: its message can be read. */
  predicate Loggable(r: Reply) {
    !r.RaisesNow? && (r.Rejects? && r.err.Object? ==> !r.err.message.Raises?)
  }

  /** The handler is reached: the recording call is best effort, but its failure is logged by its message. */
  predicate Started(t: Ticket) { t.create.RaisesNow? || Loggable(t.create) }

  /** Nothing thrown escapes before the release: a condition on what the calls answered, not on the control flow. */
  predicate NothingEscapes(t: Ticket) {
    && Started(t)
    && (t.handler.Returns? || (Reportable(t.handler.err) && !t.reportRaises))
    && !t.metricsRaise
    && (t.create.Resolves? ==> Loggable(t.finish))
  }

  function Releases(calls: seq<LockCall>, token: Token): nat {
    if calls == [] then 0
    else Releases(calls[..|calls| - 1], token)
         + if calls[|calls| - 1].ReleaseCall? && calls[|calls| - 1].token == token then 1 else 0
  }

  function Beats(key: Key, token: Token, leaseMs: int, n: nat): seq<LockCall> {
    seq(n, _ => RenewCall(key, token, leaseMs))
  }

  /** The lock calls of an execution under a granted token. */
  function ExecutionCalls(key: Key, token: Token, leaseMs: int, tickAt: Option<int>, t: Ticket): seq<LockCall> {
    (if Started(t) then Beats(key, token, leaseMs, t.beats) else [])
    + (if NothingEscapes(t) then [ReleaseCall(key, token, HoldUntil(tickAt, leaseMs))] else [])
  }

  function TickCalls(name: string, leaseMs: int, tickAt: Option<int>, t: Ticket): seq<LockCall> {
    [AcquireCall("job:" + name, leaseMs)]
    + (if t.acquire.Got? then ExecutionCalls("job:" + name, t.acquire.token, leaseMs, tickAt, t) else [])
  }

  // ----- Every place where a tick can throw before its release. -----

  datatype Property = CodeOf | MessageOf | StackOf | CountsOf

  /** An expression that the tick evaluates: a property of a thrown value, its text, or a call that may throw at once. */
  datatype Evaluation = ReadOf(thrown: Thrown, property: Property) | TextOf(thrown: Thrown) | CallOf(raises: bool)

  predicate Raising(e: Evaluation) {
    match e
    case ReadOf(Object(code, message, stack, counts, _), property) =>
      (match property case CodeOf => code case MessageOf => message case StackOf => stack case CountsOf => counts) == Raises
    case ReadOf(_, _) => false
    case TextOf(thrown) => thrown.Object? && !thrown.printable
    case CallOf(raises) => raises
  }

  /** The log line of a rejected call reads the error's message. */
  function LogOf(r: Reply): seq<Evaluation> {
    if r.Rejects? then [ReadOf(r.err, MessageOf)] else []
  }

  /** The catch block around the handler: sanitizeError, the counts, the error log, the report. */
  function CatchBlock(err: Thrown, reportRaises: bool): seq<Evaluation> {
    [ReadOf(err, CodeOf), ReadOf(err, MessageOf)]
    + (if err.Object? && !err.message.Text? then [TextOf(err)] else [])
    + [ReadOf(err, CountsOf), ReadOf(err, StackOf)]
    + (if err.Object? && err.stack.Missing? then [ReadOf(err, MessageOf)] else [])
    + [CallOf(reportRaises)]
  }

  /** All of them, in order, from the record of the run to the release. */
  function BeforeRelease(t: Ticket): seq<Evaluation> {
    LogOf(t.create)
    + (if t.handler.Returns? then [] else CatchBlock(t.handler.err, t.reportRaises))
    + [CallOf(t.metricsRaise)]
    + (if t.create.Resolves? then [CallOf(t.finish.RaisesNow?)] + LogOf(t.finish) else [])
  }

  ghost predicate NoneRaising(evaluations: seq<Evaluation>) {
    forall e :: e in evaluations ==> !Raising(e)
  }

  lemma NoneRaisingConcat(a: seq<Evaluation>, b: seq<Evaluation>)
    ensures NoneRaising(a + b) <==> NoneRaising(a) && NoneRaising(b)
  {
    if NoneRaising(a + b) {
      forall e | e in a || e in b ensures !Raising(e) { assert e in a + b; }
    }
  }

  lemma CatchBlockRaisesIff(err: Thrown, reportRaises: bool)
    ensures NoneRaising(CatchBlock(err, reportRaises)) <==> Reportable(err) && !reportRaises
  {
    var all := CatchBlock(err, reportRaises);
    assert ReadOf(err, CodeOf) in all && ReadOf(err, MessageOf) in all && ReadOf(err, CountsOf) in all && ReadOf(err, StackOf) in all;
    assert CallOf(reportRaises) in all;
    if err.Object? && !err.message.Text? { assert TextOf(err) in all; }
    if err.Object? && err.stack.Missing? { assert ReadOf(err, MessageOf) in all; }
  }

  /** Nothing escapes exactly when no evaluation before the release throws. */
  lemma NothingEscapesIff(t: Ticket)
    ensures NothingEscapes(t) <==> NoneRaising(BeforeRelease(t))
  {
    var caught := if t.handler.Returns? then [] else CatchBlock(t.handler.err, t.reportRaises);
    var finished := if t.create.Resolves? then [CallOf(t.finish.RaisesNow?)] + LogOf(t.finish) else [];
    if !t.handler.Returns? { CatchBlockRaisesIff(t.handler.err, t.reportRaises); }
    NoneRaisingConcat(LogOf(t.create), caught);
    NoneRaisingConcat(LogOf(t.create) + caught, [CallOf(t.metricsRaise)]);
    NoneRaisingConcat(LogOf(t.create) + caught + [CallOf(t.metricsRaise)], finished);
    NoneRaisingConcat([CallOf(t.finish.RaisesNow?)], LogOf(t.finish));
    LogRaisesIff(t.create);
    LogRaisesIff(t.finish);
    assert CallOf(t.metricsRaise) in [CallOf(t.metricsRaise)] && CallOf(t.finish.RaisesNow?) in [CallOf(t.finish.RaisesNow?)];
  }

  lemma LogRaisesIff(r: Reply)
    ensures NoneRaising(LogOf(r)) <==> (r.RaisesNow? || Loggable(r))
  {
    if r.Rejects? { assert ReadOf(r.err, MessageOf) in LogOf(r); }
  }

  /** An ordinary value: its properties can be read, and it has a text. */
  predicate Ordinary(e: Thrown) {
    e.Object? ==> e.code != Raises && e.message != Raises && e.stack != Raises && e.counts != Raises && e.printable
  }

  /** A tick like any other: whatever is thrown is ordinary, and reports, metrics and the finish call do not throw at once. */
  predicate OrdinaryTick(t: Ticket) {
    && (t.create.Rejects? ==> Ordinary(t.create.err)) && (t.finish.Rejects? ==> Ordinary(t.finish.err))
    && (t.release.Rejects? ==> Ordinary(t.release.err)) && (!t.handler.Returns? ==> Ordinary(t.handler.err))
    && !t.reportRaises && !t.metricsRaise && !t.finish.RaisesNow?
  }

  /** A granted tick rejects exactly when something throws before its release, or in the log of a failed one. */
  lemma RejectsIff(t: Ticket)
    ensures NothingEscapes(t) && (t.release.Rejects? ==> Loggable(t.release)) <==> NoneRaising(BeforeRelease(t) + LogOf(t.release))
  {
    NothingEscapesIff(t);
    LogRaisesIff(t.release);
    NoneRaisingConcat(BeforeRelease(t), LogOf(t.release));
  }

  /** An ordinary tick that is granted the lock gives it back, exactly once. */
  lemma OrdinaryTickReleases(tick: Tick)
    requires tick.ticket.acquire.Got? && OrdinaryTick(tick.ticket)
    ensures NothingEscapes(tick.ticket) && (tick.ticket.release.Rejects? ==> Loggable(tick.ticket.release))
    ensures Releases(TickCalls(tick.name, tick.leaseMs, tick.tickAt, tick.ticket), tick.ticket.acquire.token) == 1
  {
    TickReleases(tick, tick.ticket.acquire.token);
  }

  class Scheduler {
    var stopping: bool
    var inFlight: set<nat>
    /** The lock calls this process made, in order. */
    var calls: seq<LockCall>

    constructor ()
      ensures !stopping && inFlight == {} && calls == []
    {
      stopping, inFlight, calls := false, {}, [];
    }

    method RunJob(name: string, leaseMs: int, tickAt: Option<int>, t: Ticket, execution: nat) returns (status: Status)
      requires execution !in inFlight
      modifies this
      ensures inFlight == old(inFlight) && stopping == old(stopping)
      ensures calls == if old(stopping) then old(calls) else old(calls) + TickCalls(name, leaseMs, tickAt, t)
      ensures old(stopping) ==> status == Skipped("stopping")
      ensures !old(stopping) && t.acquire.Taken? ==> status == Skipped("locked")
      ensures !old(stopping) && t.acquire.Unreachable? ==>
                status == if MessageRaises(t.acquire.err) then Rejected else Skipped("lock_unavailable")
      ensures !old(stopping) && t.acquire.Got? ==>
                (status == Rejected <==> !(NothingEscapes(t) && (t.release.Rejects? ==> Loggable(t.release))))
      ensures !old(stopping) && t.acquire.Got? && status != Rejected ==>
                status == if t.handler.Returns? then Succeeded else Failed
      ensures !old(stopping) && t.acquire.Got? ==>
                (status == Rejected <==> !NoneRaising(BeforeRelease(t) + LogOf(t.release)))
      // Whatever an ordinary tick's handler does, its lock is given back.
      ensures !old(stopping) && t.acquire.Got? && OrdinaryTick(t) ==>
                && (t.handler.Returns? ==> status == Succeeded) && (!t.handler.Returns? ==> status == Failed)
                && Releases(TickCalls(name, leaseMs, tickAt, t), t.acquire.token) == 1
    {
      RejectsIff(t);
      if t.acquire.Got? && OrdinaryTick(t) {
        OrdinaryTickReleases(Tick(name, leaseMs, tickAt, t));
      }
      if stopping {
        return Skipped("stopping");
      }
      var key := "job:" + name;
      calls := calls + [AcquireCall(key, leaseMs)];
      match t.acquire {
        case Unreachable(err) =>
          // The catch block logs `err?.message`.
          return if MessageRaises(err) then Rejected else Skipped("lock_unavailable");
        case Taken => return Skipped("locked");
        case Got(_) =>
      }
      inFlight := inFlight + {execution};
      status := Execute(key, t.acquire.token, leaseMs, tickAt, t);
      // finally
      inFlight := inFlight - {execution};
    }

    method Execute(key: Key, token: Token, leaseMs: int, tickAt: Option<int>, t: Ticket) returns (status: Status)
      modifies this`calls
      ensures calls == old(calls) + ExecutionCalls(key, token, leaseMs, tickAt, t)
      ensures status == Rejected <==> !(NothingEscapes(t) && (t.release.Rejects? ==> Loggable(t.release)))
      ensures status != Rejected ==> status == if t.handler.Returns? then Succeeded else Failed
      // A tick that does not reject has released last, with a hold to its time plus at most 30 seconds.
      ensures status != Rejected ==>
                && |calls| > |old(calls)| && calls[|calls| - 1].ReleaseCall?
                && calls[|calls| - 1].key == key && calls[|calls| - 1].token == token
                && (tickAt.None? ==> calls[|calls| - 1].holdUntil == None)
                && (tickAt.Some? ==> calls[|calls| - 1].holdUntil == Some(tickAt.value + if leaseMs < 30000 then leaseMs else 30000))
    {
      var recorded := false;
      match t.create {
        case Resolves => recorded := true;
        case Rejects(err) =>
          if MessageRaises(err) {
            return Rejected;
          }
        // `await` of a call that throws at once is caught like a rejection, by an ordinary error.
        case RaisesNow =>
      }
      var ran := RunHandler(key, token, leaseMs, t);
      if ran.Rejected? {
        return Rejected;
      }
      if t.metricsRaise {
        return Rejected;
      }
      if recorded {
        match t.finish {
          case Resolves =>
          case Rejects(err) =>
            if MessageRaises(err) {
              return Rejected;
            }
          case RaisesNow => return Rejected;
        }
      }
      var holdUntil := if tickAt.Some? then Some(tickAt.value + Min(TICK_FENCE_MS, leaseMs)) else None;
      calls := calls + [ReleaseCall(key, token, holdUntil)];
      if t.release.Rejects? && MessageRaises(t.release.err) {
        return Rejected;
      }
      status := ran;
    }

    /** The handler between the start and the end of the heartbeat, and the catch block around it. */
    method RunHandler(key: Key, token: Token, leaseMs: int, t: Ticket) returns (ran: Status)
      modifies this`calls
      ensures calls == old(calls) + Beats(key, token, leaseMs, t.beats)
      ensures ran == if t.handler.Returns? then Succeeded
                     else if Reportable(t.handler.err) && !t.reportRaises then Failed
                     else Rejected
    {
      var beat := 0;
      while beat < t.beats
        invariant 0 <= beat <= t.beats
        invariant calls == old(calls) + Beats(key, token, leaseMs, beat)
      {
        calls := calls + [RenewCall(key, token, leaseMs)];
        beat := beat + 1;
      }
      if t.handler.Returns? {
        return Succeeded;
      }
      var err := t.handler.err;
      if SanitizeRaises(err) {
        return Rejected;
      }
      if CountsRaise(err) {
        return Rejected;
      }
      if StackRaises(err) {
        return Rejected;
      }
      ran := if t.reportRaises then Rejected else Failed;
    }
  }

  // ----- Whole histories of a process. -----

  datatype Tick = Tick(name: string, leaseMs: int, tickAt: Option<int>, ticket: Ticket)

  function History(ticks: seq<Tick>): seq<LockCall> {
    if ticks == [] then []
    else
      var last := ticks[|ticks| - 1];
      History(ticks[..|ticks| - 1]) + TickCalls(last.name, last.leaseMs, last.tickAt, last.ticket)
  }

  /** Tokens are unique to one acquisition. */
  predicate FreshTokens(ticks: seq<Tick>) {
    forall i, j :: 0 <= i < j < |ticks| && ticks[i].ticket.acquire.Got? && ticks[j].ticket.acquire.Got? ==>
      ticks[i].ticket.acquire.token != ticks[j].ticket.acquire.token
  }

  lemma {:induction false} ReleasesConcat(a: seq<LockCall>, b: seq<LockCall>, token: Token)
    ensures Releases(a + b, token) == Releases(a, token) + Releases(b, token)
    decreases |b|
  {
    if b == [] {
      assert a + b == a;
    } else {
      assert (a + b)[..|a + b| - 1] == a + b[..|b| - 1];
      ReleasesConcat(a, b[..|b| - 1], token);
    }
  }

  lemma {:induction false} NoReleaseInBeats(key: Key, token: Token, leaseMs: int, n: nat, other: Token)
    ensures Releases(Beats(key, token, leaseMs, n), other) == 0
  {
    if n > 0 {
      assert Beats(key, token, leaseMs, n)[..n - 1] == Beats(key, token, leaseMs, n - 1);
      NoReleaseInBeats(key, token, leaseMs, n - 1, other);
    }
  }

  /** The releases of one tick: one of its own token, or none. */
  lemma TickReleases(tick: Tick, token: Token)
    ensures Releases(TickCalls(tick.name, tick.leaseMs, tick.tickAt, tick.ticket), token)
            == if tick.ticket.acquire == Got(token) && NothingEscapes(tick.ticket) then 1 else 0
  {
    var key, t := "job:" + tick.name, tick.ticket;
    var first := [AcquireCall(key, tick.leaseMs)];
    assert first[..0] == [];
    if t.acquire.Got? {
      var own := t.acquire.token;
      var beats := if Started(t) then Beats(key, own, tick.leaseMs, t.beats) else [];
      var last := if NothingEscapes(t) then [ReleaseCall(key, own, HoldUntil(tick.tickAt, tick.leaseMs))] else [];
      NoReleaseInBeats(key, own, tick.leaseMs, t.beats, token);
      ReleasesConcat(beats, last, token);
      ReleasesConcat(first, beats + last, token);
      if last != [] { assert last[..0] == []; }
    }
  }

  lemma {:induction false} NoReleaseOfForeignToken(ticks: seq<Tick>, token: Token)
    requires forall i :: 0 <= i < |ticks| ==> ticks[i].ticket.acquire != Got(token)
    ensures Releases(History(ticks), token) == 0
  {
    if ticks != [] {
      var n := |ticks| - 1;
      NoReleaseOfForeignToken(ticks[..n], token);
      TickReleases(ticks[n], token);
      ReleasesConcat(History(ticks[..n]), TickCalls(ticks[n].name, ticks[n].leaseMs, ticks[n].tickAt, ticks[n].ticket), token);
    }
  }

  /**
   * Over every history of ticks, a token that was granted is released exactly once if nothing thrown
   * escaped its tick, and never otherwise.
   */
  lemma {:induction false} ReleasedOnceIffNothingEscapes(ticks: seq<Tick>, i: nat)
    requires FreshTokens(ticks) && i < |ticks| && ticks[i].ticket.acquire.Got?
    ensures Releases(History(ticks), ticks[i].ticket.acquire.token) == if NothingEscapes(ticks[i].ticket) then 1 else 0
  {
    var n, token := |ticks| - 1, ticks[i].ticket.acquire.token;
    var last := TickCalls(ticks[n].name, ticks[n].leaseMs, ticks[n].tickAt, ticks[n].ticket);
    ReleasesConcat(History(ticks[..n]), last, token);
    TickReleases(ticks[n], token);
    if i == n {
      NoReleaseOfForeignToken(ticks[..n], token);
    } else {
      ReleasedOnceIffNothingEscapes(ticks[..n], i);
    }
  }

  /**
   * The same from the places where something can throw: over every history a granted token is released exactly once
   * if no evaluation before its tick's release throws, and never otherwise.
   */
  lemma ReleasedOnceIffNoneRaising(ticks: seq<Tick>, i: nat)
    requires FreshTokens(ticks) && i < |ticks| && ticks[i].ticket.acquire.Got?
    ensures Releases(History(ticks), ticks[i].ticket.acquire.token) == 1 <==> NoneRaising(BeforeRelease(ticks[i].ticket))
    ensures Releases(History(ticks), ticks[i].ticket.acquire.token) <= 1
  {
    ReleasedOnceIffNothingEscapes(ticks, i);
    NothingEscapesIff(ticks[i].ticket);
  }

  /**
   * What a tick sends to the lock: one acquire; only when that is granted, one renewal for every beat of a handler that
   * was reached; and as its last call at most one release, which carries the tick's time plus min(30000, lease), and no
   * hold for a manual run.
   */
  lemma TickCallsAre(tick: Tick, i: nat)
    requires i < |TickCalls(tick.name, tick.leaseMs, tick.tickAt, tick.ticket)|
    ensures var calls := TickCalls(tick.name, tick.leaseMs, tick.tickAt, tick.ticket);
            && (calls[i].AcquireCall? <==> i == 0)
            && calls[i].key == "job:" + tick.name
            && (i > 0 ==> tick.ticket.acquire == Got(calls[i].token))
            && (!calls[i].ReleaseCall? ==> calls[i].leaseMs == tick.leaseMs)
            && (calls[i].RenewCall? ==> i <= tick.ticket.beats)
            && (calls[i].ReleaseCall? ==>
                  && i == |calls| - 1
                  && (tick.tickAt.None? ==> calls[i].holdUntil == None)
                  && (tick.tickAt.Some? ==>
                        calls[i].holdUntil == Some(tick.tickAt.value + if tick.leaseMs < 30000 then tick.leaseMs else 30000)))
  {
  }

  /** A handler that throws an object without a prototype: it has no text, so its lock is never released. */
  lemma BareObjectIsNeverReleased(token: Token)
    ensures var bare := Object(Missing, Missing, Missing, Missing, false);
            var t := Ticket(Got(token), Resolves, 0, Throws(bare), false, false, Resolves, Resolves);
            !NothingEscapes(t) && Releases(TickCalls("cleanup", 60000, Some(0), t), token) == 0
  {
    var bare := Object(Missing, Missing, Missing, Missing, false);
    var t := Ticket(Got(token), Resolves, 0, Throws(bare), false, false, Resolves, Resolves);
    TickReleases(Tick("cleanup", 60000, Some(0), t), token);
  }
}
