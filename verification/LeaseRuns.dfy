/**
 * Whole runs of the job lock for one job: any number of instances, late ticks,
 * manual runs, heartbeats still in flight after a release, and crashes (an
 * instance that issues no further command).
 */
module LeaseRuns {
  import opened Common
  import opened JobLock

  const TICK_FENCE_MS := 30000

  datatype Backend = Redis | Mongo

  /**
   * One lock command. `readAt` is the caller's clock reading, `now` the instant the
   * command takes effect. Redis measures expiry at `now`; the MongoDB filters and
   * updates carry `readAt`.
   */
  datatype Command =
    | Acquire(token: Token, tick: Option<int>, readAt: int, now: int)
    | Renew(token: Token, readAt: int, now: int)
    | Release(token: Token, readAt: int, now: int)

  /** A lease that was granted: from when, and until when it holds the lock (so far). */
  datatype Grant = Grant(token: Token, tick: Option<int>, from: int, until: int)

  datatype World = World(clock: int, cell: Cell, grants: seq<Grant>, used: set<Token>)

  const Init := World(0, None, [], {})

  function EffectTime(backend: Backend, c: Command): int {
    if backend.Redis? then c.now else c.readAt
  }

  function FenceMs(leaseMs: int): int { Min(TICK_FENCE_MS, leaseMs) }

  /** The hold time a run passes to release: the tick fence, or nothing for a manual run. */
  function HoldUntil(tick: Option<int>, leaseMs: int): Option<int> {
    if tick.Some? then Some(tick.value + FenceMs(leaseMs)) else None
  }

  function TickOf(grants: seq<Grant>, token: Token): Option<int> {
    if grants == [] then None
    else if grants[|grants| - 1].token == token then grants[|grants| - 1].tick
    else TickOf(grants[..|grants| - 1], token)
  }

  /** The cell and the reply after a command reaches the store. */
  function Effect(backend: Backend, leaseMs: int, w: World, c: Command): (Cell, bool) {
    var at := EffectTime(backend, c);
    match c
    case Acquire(token, _, _, _) =>
      if backend.Redis? then RedisAcquire(w.cell, token, leaseMs, at) else MongoAcquire(w.cell, token, leaseMs, at)
    case Renew(token, _, _) =>
      if backend.Redis? then RedisRenew(w.cell, token, leaseMs, at) else MongoRenew(w.cell, token, leaseMs, at)
    case Release(token, readAt, _) =>
      var hold := HoldUntil(TickOf(w.grants, token), leaseMs);
      if backend.Redis? then RedisRelease(w.cell, token, hold, readAt, at) else MongoRelease(w.cell, token, hold, at)
  }

  function Granted(backend: Backend, leaseMs: int, w: World, c: Command): bool {
    c.Acquire? && Effect(backend, leaseMs, w, c).1
  }

  function Extend(grants: seq<Grant>, token: Token, until: int): (r: seq<Grant>)
    ensures |r| == |grants|
    ensures forall i :: 0 <= i < |r| ==>
              r[i] == if grants[i].token == token then grants[i].(until := until) else grants[i]
  {
    seq(|grants|, i requires 0 <= i < |grants| =>
      if grants[i].token == token then grants[i].(until := until) else grants[i])
  }

  function Apply(backend: Backend, leaseMs: int, w: World, c: Command): World {
    var (cell, ok) := Effect(backend, leaseMs, w, c);
    var until := if cell.Some? then cell.value.until else EffectTime(backend, c);
    var grants :=
      if !ok then w.grants
      else if c.Acquire? then w.grants + [Grant(c.token, c.tick, EffectTime(backend, c), until)]
      else Extend(w.grants, c.token, until);
    World(c.now, cell, grants, if c.Acquire? then w.used + {c.token} else w.used)
  }

  /** One clock; fresh tokens; a tick fires at or after its own time; a run uses its token only once granted. */
  ghost predicate Enabled(w: World, c: Command) {
    && w.clock <= c.now && c.readAt <= c.now
    && match c
       case Acquire(token, tick, readAt, _) => token !in w.used && (tick.Some? ==> tick.value <= readAt)
       case Renew(token, readAt, _) => exists i :: 0 <= i < |w.grants| && w.grants[i].token == token && w.grants[i].from <= readAt
       case Release(token, readAt, _) => exists i :: 0 <= i < |w.grants| && w.grants[i].token == token && w.grants[i].from <= readAt
  }

  ghost predicate Run(backend: Backend, leaseMs: int, ws: seq<World>, cs: seq<Command>) {
    && |ws| == |cs| + 1
    && ws[0] == Init
    && forall k :: 0 <= k < |cs| ==> Enabled(ws[k], cs[k]) && ws[k + 1] == Apply(backend, leaseMs, ws[k], cs[k])
  }

  // ----- The invariant. -----

  ghost predicate DistinctTokens(w: World) {
    && (forall i :: 0 <= i < |w.grants| ==> w.grants[i].token in w.used)
    && (forall i, j :: 0 <= i < j < |w.grants| ==> w.grants[i].token != w.grants[j].token)
  }

  /** Every lease ended before the next one began. */
  ghost predicate Disjoint(w: World) {
    && (forall i :: 0 <= i < |w.grants| ==> w.grants[i].from <= w.grants[i].until)
    && (forall i, j :: 0 <= i < j < |w.grants| ==> w.grants[i].until <= w.grants[j].from)
  }

  /** A scheduled run holds the lock at least to its tick plus the fence. */
  ghost predicate Fenced(leaseMs: int, w: World) {
    forall i :: 0 <= i < |w.grants| && w.grants[i].tick.Some? ==>
      && w.grants[i].tick.value <= w.grants[i].from
      && w.grants[i].tick.value + FenceMs(leaseMs) <= w.grants[i].until
  }

  /** The stored cell is the last grant's lease, or that lease is over. */
  ghost predicate CellIsLastGrant(backend: Backend, w: World) {
    if w.grants == [] then w.cell.None?
    else
      var last := w.grants[|w.grants| - 1];
      if w.cell.None? then backend.Redis? && last.until <= w.clock
      else w.cell.value.until == last.until && (w.cell.value.token.Some? ==> w.cell.value.token.value == last.token)
  }

  ghost predicate Inv(backend: Backend, leaseMs: int, w: World) {
    && DistinctTokens(w)
    && Disjoint(w)
    && Fenced(leaseMs, w)
    && CellIsLastGrant(backend, w)
  }

  lemma {:induction false} TickOfGrant(grants: seq<Grant>, i: nat)
    requires i < |grants|
    requires forall a, b :: 0 <= a < b < |grants| ==> grants[a].token != grants[b].token
    ensures TickOf(grants, grants[i].token) == grants[i].tick
  {
    if i < |grants| - 1 {
      TickOfGrant(grants[..|grants| - 1], i);
    }
  }

  /** Only the last grantee's token can change the cell. */
  lemma OnlyLastGrantMatches(backend: Backend, leaseMs: int, w: World, c: Command, i: nat)
    requires Inv(backend, leaseMs, w)
    requires !c.Acquire? && Effect(backend, leaseMs, w, c).1
    requires i < |w.grants| && w.grants[i].token == c.token
    ensures i == |w.grants| - 1
  {
  }

  /** A new grant begins after the last lease ended. */
  lemma AcquireStartsAfterLast(backend: Backend, leaseMs: int, w: World, c: Command)
    requires CellIsLastGrant(backend, w) && Enabled(w, c) && Granted(backend, leaseMs, w, c) && w.grants != []
    ensures w.grants[|w.grants| - 1].until <= EffectTime(backend, c)
  {
  }

  lemma AppendKeepsDistinct(w: World, g: Grant, w': World)
    requires DistinctTokens(w) && g.token !in w.used
    requires w'.grants == w.grants + [g] && w'.used == w.used + {g.token}
    ensures DistinctTokens(w')
  {
  }

  lemma AppendKeepsDisjoint(w: World, g: Grant, w': World)
    requires Disjoint(w) && g.from <= g.until && w'.grants == w.grants + [g]
    requires w.grants != [] ==> w.grants[|w.grants| - 1].until <= g.from
    ensures Disjoint(w')
  {
    var n := |w.grants|;
    forall i | 0 <= i < n ensures w.grants[i].until <= g.from {
      if i < n - 1 {
        assert w.grants[i].until <= w.grants[n - 1].from <= w.grants[n - 1].until;
      }
    }
    forall i, j | 0 <= i < j < n + 1 ensures w'.grants[i].until <= w'.grants[j].from {
      assert w'.grants[i] == w.grants[i];
      if j < n { assert w'.grants[j] == w.grants[j]; }
    }
  }

  lemma AcquireKeepsInv(backend: Backend, leaseMs: int, w: World, c: Command)
    requires leaseMs >= 1
    requires Inv(backend, leaseMs, w) && Enabled(w, c) && Granted(backend, leaseMs, w, c)
    ensures Inv(backend, leaseMs, Apply(backend, leaseMs, w, c))
  {
    var w' := Apply(backend, leaseMs, w, c);
    var at := EffectTime(backend, c);
    var g := Grant(c.token, c.tick, at, at + leaseMs);
    assert w'.grants == w.grants + [g];
    if w.grants != [] { AcquireStartsAfterLast(backend, leaseMs, w, c); }
    AppendKeepsDistinct(w, g, w');
    AppendKeepsDisjoint(w, g, w');
  }

  /** When the lease in the cell ends after a command; a cell that is gone ended with it. */
  function LeaseEnd(backend: Backend, leaseMs: int, w: World, c: Command): int {
    var cell := Effect(backend, leaseMs, w, c).0;
    if cell.Some? then cell.value.until else EffectTime(backend, c)
  }

  /**
   * A renewal or release that goes through finds its token in the cell and ends the lease: one lease from now; at once, for
   * a manual run; at the tick plus min(30000, lease), or at once if that is past. Redis counts the hold from when it runs.
   */
  lemma ExtensionEnds(backend: Backend, leaseMs: int, w: World, c: Command)
    requires leaseMs >= 1 && !c.Acquire? && Effect(backend, leaseMs, w, c).1
    ensures HeldBy(w.cell, c.token)
    ensures backend.Mongo? || c.readAt <= c.now ==>
              EffectTime(backend, c) <= LeaseEnd(backend, leaseMs, w, c)
    ensures c.Renew? ==> LeaseEnd(backend, leaseMs, w, c) == EffectTime(backend, c) + leaseMs
    ensures c.Release? && HoldUntil(TickOf(w.grants, c.token), leaseMs).Some? && c.readAt <= c.now ==>
              HoldUntil(TickOf(w.grants, c.token), leaseMs).value <= LeaseEnd(backend, leaseMs, w, c)
    ensures c.Release? ==>
              var tick, end := TickOf(w.grants, c.token), LeaseEnd(backend, leaseMs, w, c);
              && (tick.None? ==> end == EffectTime(backend, c))
              && (tick.Some? ==>
                    var fence := tick.value + if leaseMs < 30000 then leaseMs else 30000;
                    && (fence <= c.readAt ==> end == EffectTime(backend, c))
                    && (c.readAt < fence ==> end == if backend.Redis? then c.now + (fence - c.readAt) else fence))
  {
  }

  /** Where the last lease ends after a renewal or release that went through. */
  lemma LastLeaseEndsLater(backend: Backend, leaseMs: int, w: World, c: Command)
    requires leaseMs >= 1
    requires Inv(backend, leaseMs, w) && Enabled(w, c)
    requires !c.Acquire? && Effect(backend, leaseMs, w, c).1
    ensures w.grants != []
    ensures var last, until := w.grants[|w.grants| - 1], LeaseEnd(backend, leaseMs, w, c);
            && last.token == c.token && last.from <= until
            && (last.tick.Some? ==> last.tick.value + FenceMs(leaseMs) <= until)
  {
    var i :| 0 <= i < |w.grants| && w.grants[i].token == c.token && w.grants[i].from <= c.readAt;
    OnlyLastGrantMatches(backend, leaseMs, w, c, i);
    TickOfGrant(w.grants, i);
    ExtensionEnds(backend, leaseMs, w, c);
  }

  lemma ExtendKeepsDisjoint(w: World, until: int, w': World)
    requires w.grants != [] && Disjoint(w) && w.grants[|w.grants| - 1].from <= until
    requires w'.grants == w.grants[|w.grants| - 1 := w.grants[|w.grants| - 1].(until := until)]
    ensures Disjoint(w')
  {
    forall i, j | 0 <= i < j < |w.grants| ensures w'.grants[i].until <= w'.grants[j].from {
      assert w.grants[i].until <= w.grants[j].from;
    }
  }

  /** What a renewal or release that went through does to the history. */
  lemma ExtendMovesLastEnd(backend: Backend, leaseMs: int, w: World, c: Command)
    requires DistinctTokens(w) && w.grants != [] && w.grants[|w.grants| - 1].token == c.token
    requires !c.Acquire? && Effect(backend, leaseMs, w, c).1
    ensures var n, w' := |w.grants| - 1, Apply(backend, leaseMs, w, c);
            && w'.grants == w.grants[n := w.grants[n].(until := LeaseEnd(backend, leaseMs, w, c))]
            && w'.cell == Effect(backend, leaseMs, w, c).0 && w'.used == w.used && w'.clock == c.now
  {
  }

  lemma ExtendKeepsCell(backend: Backend, leaseMs: int, w: World, c: Command, w': World)
    requires CellIsLastGrant(backend, w) && w.grants != [] && c.readAt <= c.now
    requires !c.Acquire? && Effect(backend, leaseMs, w, c).1 && w.grants[|w.grants| - 1].token == c.token
    requires |w'.grants| == |w.grants| && w'.grants[|w.grants| - 1].token == c.token
    requires w'.grants[|w.grants| - 1].until == LeaseEnd(backend, leaseMs, w, c)
    requires w'.cell == Effect(backend, leaseMs, w, c).0 && w'.clock == c.now
    ensures CellIsLastGrant(backend, w')
  {
  }

  lemma ExtendKeepsInv(backend: Backend, leaseMs: int, w: World, c: Command)
    requires leaseMs >= 1
    requires Inv(backend, leaseMs, w) && Enabled(w, c)
    requires !c.Acquire? && Effect(backend, leaseMs, w, c).1
    ensures Inv(backend, leaseMs, Apply(backend, leaseMs, w, c))
  {
    var w' := Apply(backend, leaseMs, w, c);
    LastLeaseEndsLater(backend, leaseMs, w, c);
    ExtendMovesLastEnd(backend, leaseMs, w, c);
    ExtendKeepsDisjoint(w, LeaseEnd(backend, leaseMs, w, c), w');
    ExtendKeepsCell(backend, leaseMs, w, c, w');
  }

  lemma StepKeepsInv(backend: Backend, leaseMs: int, w: World, c: Command)
    requires leaseMs >= 1
    requires Inv(backend, leaseMs, w) && Enabled(w, c)
    ensures Inv(backend, leaseMs, Apply(backend, leaseMs, w, c))
  {
    if Granted(backend, leaseMs, w, c) {
      AcquireKeepsInv(backend, leaseMs, w, c);
    } else if Effect(backend, leaseMs, w, c).1 {
      ExtendKeepsInv(backend, leaseMs, w, c);
    }
  }

  lemma {:induction false} InvHolds(backend: Backend, leaseMs: int, ws: seq<World>, cs: seq<Command>, k: nat)
    requires leaseMs >= 1
    requires Run(backend, leaseMs, ws, cs) && k <= |cs|
    ensures Inv(backend, leaseMs, ws[k])
  {
    if k > 0 {
      InvHolds(backend, leaseMs, ws, cs, k - 1);
      StepKeepsInv(backend, leaseMs, ws[k - 1], cs[k - 1]);
    }
  }

  /** A grant stays in the history; only its `until` moves. */
  lemma {:induction false} GrantPersists(backend: Backend, leaseMs: int, ws: seq<World>, cs: seq<Command>, a: nat, b: nat, i: nat)
    requires Run(backend, leaseMs, ws, cs) && a <= b <= |cs| && i < |ws[a].grants|
    ensures i < |ws[b].grants| && ws[b].grants[i].(until := 0) == ws[a].grants[i].(until := 0)
    decreases b - a
  {
    if a < b {
      GrantPersists(backend, leaseMs, ws, cs, a, b - 1, i);
    }
  }

  // ----- Main results. -----

  /**
   * The lease history: when a second run is granted the lock, the first one's lease
   * (with every renewal and hold it got) is over.
   */
  lemma SecondGrantAfterFirstLease(backend: Backend, leaseMs: int, ws: seq<World>, cs: seq<Command>, a: nat, b: nat)
    returns (i: nat)
    requires leaseMs >= 1
    requires Run(backend, leaseMs, ws, cs) && a < b < |cs|
    requires Granted(backend, leaseMs, ws[a], cs[a]) && Granted(backend, leaseMs, ws[b], cs[b])
    ensures i == |ws[a].grants| < |ws[b].grants|
    ensures ws[b].grants[i].token == cs[a].token && ws[b].grants[i].tick == cs[a].tick
    ensures ws[b].grants[i].from == EffectTime(backend, cs[a])
    ensures ws[b].grants[i].until <= EffectTime(backend, cs[b])
  {
    i := |ws[a].grants|;
    assert ws[a + 1] == Apply(backend, leaseMs, ws[a], cs[a]);
    GrantPersists(backend, leaseMs, ws, cs, a + 1, b, i);
    InvHolds(backend, leaseMs, ws, cs, b + 1);
    assert ws[b + 1] == Apply(backend, leaseMs, ws[b], cs[b]);
    var n := |ws[b].grants|;
    assert ws[b + 1].grants[i] == ws[b].grants[i] && ws[b + 1].grants[n].from == EffectTime(backend, cs[b]);
  }

  /** Once tick T got the lock, no run at all (scheduled or manual) gets it before T plus the fence. */
  lemma NothingRunsBeforeTheFence(backend: Backend, leaseMs: int, ws: seq<World>, cs: seq<Command>, a: nat, b: nat)
    requires leaseMs >= 1
    requires Run(backend, leaseMs, ws, cs) && a < b < |cs|
    requires Granted(backend, leaseMs, ws[a], cs[a]) && cs[a].tick.Some?
    requires Granted(backend, leaseMs, ws[b], cs[b])
    ensures cs[a].tick.value + FenceMs(leaseMs) <= EffectTime(backend, cs[b])
  {
    var i := SecondGrantAfterFirstLease(backend, leaseMs, ws, cs, a, b);
    InvHolds(backend, leaseMs, ws, cs, b);
    assert ws[b].grants[i].tick.Some?;
  }

  /** The scheduler's promise: within the fence of a tick at most one run of that tick gets the lock. */
  lemma AtMostOncePerTick(backend: Backend, leaseMs: int, ws: seq<World>, cs: seq<Command>, a: nat, b: nat, tick: int)
    requires Run(backend, leaseMs, ws, cs) && a < |cs| && b < |cs|
    requires Granted(backend, leaseMs, ws[a], cs[a]) && cs[a].tick == Some(tick)
    requires Granted(backend, leaseMs, ws[b], cs[b]) && cs[b].tick == Some(tick)
    requires tick <= EffectTime(backend, cs[a]) < tick + FenceMs(leaseMs)
    requires tick <= EffectTime(backend, cs[b]) < tick + FenceMs(leaseMs)
    ensures a == b
  {
    if a < b {
      NothingRunsBeforeTheFence(backend, leaseMs, ws, cs, a, b);
    } else if b < a {
      NothingRunsBeforeTheFence(backend, leaseMs, ws, cs, b, a);
    }
  }

  /** A superseded token is powerless: renew and release refuse it and change nothing. */
  lemma SupersededTokenIsRefused(backend: Backend, leaseMs: int, ws: seq<World>, cs: seq<Command>, k: nat, i: nat)
    requires leaseMs >= 1
    requires Run(backend, leaseMs, ws, cs) && k < |cs| && !cs[k].Acquire?
    requires i < |ws[k].grants| - 1 && ws[k].grants[i].token == cs[k].token
    ensures Effect(backend, leaseMs, ws[k], cs[k]) == (ws[k].cell, false)
  {
    InvHolds(backend, leaseMs, ws, cs, k);
    if Effect(backend, leaseMs, ws[k], cs[k]).1 {
      OnlyLastGrantMatches(backend, leaseMs, ws[k], cs[k], i);
    }
  }

  // ----- When the lock is free again. -----

  /** No command between the `k`-th and the `b`-th goes through: nobody else acquires, and late heartbeats are refused. */
  ghost predicate NothingBetween(backend: Backend, leaseMs: int, ws: seq<World>, cs: seq<Command>, k: nat, b: nat)
    requires |ws| == |cs| + 1
  {
    forall j :: k < j < b < |cs| ==> !Effect(backend, leaseMs, ws[j], cs[j]).1
  }

  lemma {:induction false} CellIsKept(backend: Backend, leaseMs: int, ws: seq<World>, cs: seq<Command>, k: nat, b: nat)
    requires Run(backend, leaseMs, ws, cs) && k < b < |cs| && NothingBetween(backend, leaseMs, ws, cs, k, b)
    ensures ws[b].cell == Effect(backend, leaseMs, ws[k], cs[k]).0 && cs[k].now <= ws[b].clock
    decreases b - k
  {
    if b == k + 1 {
      assert ws[k + 1] == Apply(backend, leaseMs, ws[k], cs[k]);
    } else {
      CellIsKept(backend, leaseMs, ws, cs, k, b - 1);
      assert ws[b] == Apply(backend, leaseMs, ws[b - 1], cs[b - 1]);
    }
  }

  /** A holder that never releases: the next acquire is granted exactly from one lease after its last grant or renewal on. */
  lemma UnreleasedLockComesFree(backend: Backend, leaseMs: int, ws: seq<World>, cs: seq<Command>, k: nat, b: nat)
    requires leaseMs >= 1 && Run(backend, leaseMs, ws, cs) && k < b < |cs|
    requires !cs[k].Release? && Effect(backend, leaseMs, ws[k], cs[k]).1
    requires NothingBetween(backend, leaseMs, ws, cs, k, b) && cs[b].Acquire?
    ensures Granted(backend, leaseMs, ws[b], cs[b]) <==> EffectTime(backend, cs[k]) + leaseMs <= EffectTime(backend, cs[b])
  {
    CellIsKept(backend, leaseMs, ws, cs, k, b);
  }

  lemma ReleaserTick(backend: Backend, leaseMs: int, ws: seq<World>, cs: seq<Command>, a: nat, k: nat)
    requires leaseMs >= 1 && Run(backend, leaseMs, ws, cs) && a < k < |cs|
    requires Granted(backend, leaseMs, ws[a], cs[a]) && cs[k].Release? && cs[k].token == cs[a].token
    ensures TickOf(ws[k].grants, cs[k].token) == cs[a].tick
  {
    var i := |ws[a].grants|;
    assert ws[a + 1] == Apply(backend, leaseMs, ws[a], cs[a]);
    GrantPersists(backend, leaseMs, ws, cs, a + 1, k, i);
    InvHolds(backend, leaseMs, ws, cs, k);
    TickOfGrant(ws[k].grants, i);
  }

  /** After a manual run's release the lock is free at once. */
  lemma ManualReleaseFreesAtOnce(backend: Backend, leaseMs: int, ws: seq<World>, cs: seq<Command>, a: nat, k: nat, b: nat)
    requires leaseMs >= 1 && Run(backend, leaseMs, ws, cs) && a < k < b < |cs|
    requires Granted(backend, leaseMs, ws[a], cs[a]) && cs[a].tick.None?
    requires cs[k].Release? && cs[k].token == cs[a].token && Effect(backend, leaseMs, ws[k], cs[k]).1
    requires NothingBetween(backend, leaseMs, ws, cs, k, b) && cs[b].Acquire?
    ensures Granted(backend, leaseMs, ws[b], cs[b]) <==> EffectTime(backend, cs[k]) <= EffectTime(backend, cs[b])
  {
    CellIsKept(backend, leaseMs, ws, cs, k, b);
    ReleaserTick(backend, leaseMs, ws, cs, a, k);
    assert Enabled(ws[b], cs[b]);
  }

  /**
   * After the release of tick T the lock is held to T plus the fence and no longer: the next acquire is granted exactly
   * from max(release, T + min(30000, lease)) on. On Redis the remaining hold, measured at the releaser's clock, starts
   * when the script runs.
   */
  lemma ReleasedTickComesFree(backend: Backend, leaseMs: int, ws: seq<World>, cs: seq<Command>, a: nat, k: nat, b: nat, tick: int)
    requires leaseMs >= 1 && Run(backend, leaseMs, ws, cs) && a < k < b < |cs|
    requires Granted(backend, leaseMs, ws[a], cs[a]) && cs[a].tick == Some(tick)
    requires cs[k].Release? && cs[k].token == cs[a].token && Effect(backend, leaseMs, ws[k], cs[k]).1
    requires NothingBetween(backend, leaseMs, ws, cs, k, b) && cs[b].Acquire?
    ensures var fence := tick + if leaseMs < 30000 then leaseMs else 30000;
            && (cs[k].readAt == cs[k].now ==>
                  (Granted(backend, leaseMs, ws[b], cs[b])
                   <==> cs[k].now <= EffectTime(backend, cs[b]) && fence <= EffectTime(backend, cs[b])))
            && (backend.Redis? ==>
                  (Granted(backend, leaseMs, ws[b], cs[b]) <==> cs[k].now + (fence - cs[k].readAt) <= cs[b].now || fence <= cs[k].readAt))
            && (backend.Mongo? ==>
                  (Granted(backend, leaseMs, ws[b], cs[b]) <==> cs[k].readAt <= cs[b].readAt && fence <= cs[b].readAt))
  {
    CellIsKept(backend, leaseMs, ws, cs, k, b);
    ReleaserTick(backend, leaseMs, ws, cs, a, k);
    assert Enabled(ws[b], cs[b]);
  }

  /** The next tick is not kept out: a tick at least 30 seconds later that fires after the release gets the lock. */
  lemma FollowingTickRuns(backend: Backend, leaseMs: int, ws: seq<World>, cs: seq<Command>, a: nat, k: nat, b: nat, tick: int, next: int)
    requires leaseMs >= 1 && Run(backend, leaseMs, ws, cs) && a < k < b < |cs|
    requires Granted(backend, leaseMs, ws[a], cs[a]) && cs[a].tick == Some(tick)
    requires cs[k].Release? && cs[k].token == cs[a].token && Effect(backend, leaseMs, ws[k], cs[k]).1
    requires NothingBetween(backend, leaseMs, ws, cs, k, b) && cs[b].Acquire? && cs[b].tick == Some(next)
    requires cs[k].readAt == cs[k].now <= cs[b].readAt && tick + 30000 <= next
    ensures Granted(backend, leaseMs, ws[b], cs[b])
  {
    ReleasedTickComesFree(backend, leaseMs, ws, cs, a, k, b, tick);
    assert Enabled(ws[b], cs[b]);
  }

  // ----- Heartbeats. -----

  /** The heartbeat interval of a run. */
  function BeatMs(leaseMs: int): int { Max(1000, leaseMs / 3) }

  /**
   * Does the lease hold at every beat? `cell` is the store after the beat at `t`;
   * `sent[k]` says whether the k-th following beat reached the store.
   */
  ghost predicate HeldAtEveryBeat(backend: Backend, leaseMs: int, cell: Cell, token: Token, t: int, sent: seq<bool>)
    decreases |sent|
  {
    sent == [] ||
    var now := t + BeatMs(leaseMs);
    && HeldBy(Live(cell, now), token)
    && HeldAtEveryBeat(backend, leaseMs, Beat(backend, leaseMs, cell, token, now, sent[0]), token, now, sent[1..])
  }

  function Beat(backend: Backend, leaseMs: int, cell: Cell, token: Token, now: int, sent: bool): Cell {
    if !sent then cell
    else if backend.Redis? then RedisRenew(cell, token, leaseMs, now).0
    else MongoRenew(cell, token, leaseMs, now).0
  }

  ghost predicate MissedFrom(sent: seq<bool>, from: int, to: int)
    requires 0 <= from <= to <= |sent|
  {
    forall k :: from <= k < to ==> !sent[k]
  }

  /**
   * Every streak of missed beats is bridged by the lease. `age`: how long before the time the beats are counted from
   * the lease was last granted or renewed.
   */
  ghost predicate StreaksBridged(leaseMs: int, age: int, sent: seq<bool>) {
    && (forall n :: 0 <= n < |sent| && MissedFrom(sent, 0, n) ==> age + (n + 1) * BeatMs(leaseMs) < leaseMs)
    && (forall f, n :: 0 < f <= n < |sent| && MissedFrom(sent, f, n) ==> (n - f + 1) * BeatMs(leaseMs) < leaseMs)
  }

  lemma MulStep(n: int, c: int)
    ensures (n + 1) * c == n * c + c
  {
  }

  lemma StreaksOfTail(leaseMs: int, age: int, sent: seq<bool>)
    requires sent != [] && StreaksBridged(leaseMs, age, sent)
    ensures age + BeatMs(leaseMs) < leaseMs
    ensures StreaksBridged(leaseMs, if sent[0] then 0 else age + BeatMs(leaseMs), sent[1..])
  {
    var tail, beat := sent[1..], BeatMs(leaseMs);
    assert MissedFrom(sent, 0, 0);
    forall n | 0 <= n < |tail| && MissedFrom(tail, 0, n)
      ensures (if sent[0] then 0 else age + beat) + (n + 1) * beat < leaseMs
    {
      assert forall k :: 1 <= k < n + 1 ==> sent[k] == tail[k - 1];
      MulStep(n + 1, beat);
      if sent[0] { assert MissedFrom(sent, 1, n + 1); } else { assert MissedFrom(sent, 0, n + 1); }
    }
    forall f, n | 0 < f <= n < |tail| && MissedFrom(tail, f, n) ensures (n - f + 1) * beat < leaseMs {
      assert forall k :: f + 1 <= k < n + 1 ==> sent[k] == tail[k - 1];
      assert MissedFrom(sent, f + 1, n + 1);
    }
  }

  lemma StreaksFromTail(leaseMs: int, age: int, sent: seq<bool>)
    requires sent != [] && age >= 0 && age + BeatMs(leaseMs) < leaseMs
    requires StreaksBridged(leaseMs, if sent[0] then 0 else age + BeatMs(leaseMs), sent[1..])
    ensures StreaksBridged(leaseMs, age, sent)
  {
    var tail, beat := sent[1..], BeatMs(leaseMs);
    forall n | 0 <= n < |sent| && MissedFrom(sent, 0, n) ensures age + (n + 1) * beat < leaseMs {
      if n > 0 {
        assert !sent[0];
        assert MissedFrom(tail, 0, n - 1);
        MulStep(n, beat);
      }
    }
    forall f, n | 0 < f <= n < |sent| && MissedFrom(sent, f, n) ensures (n - f + 1) * beat < leaseMs {
      assert MissedFrom(tail, f - 1, n - 1);
      if f == 1 {
        assert MissedFrom(tail, 0, n - 1);
        assert n - 1 + 1 == n - f + 1;
      }
    }
  }

  /** A run of any length keeps its lease exactly when every streak of missed beats fits inside the lease. */
  lemma {:induction false} LeaseHeldIffStreaksBridged(backend: Backend, leaseMs: int, cell: Cell, token: Token, t: int, age: nat, sent: seq<bool>)
    requires leaseMs >= 1
    requires cell == Some(Stored(Some(token), t - age + leaseMs))
    ensures HeldAtEveryBeat(backend, leaseMs, cell, token, t, sent) <==> StreaksBridged(leaseMs, age, sent)
    decreases |sent|
  {
    if sent != [] {
      var beat := BeatMs(leaseMs);
      var now, later := t + beat, if sent[0] then 0 else age + beat;
      if HeldBy(Live(cell, now), token) {
        var next := Beat(backend, leaseMs, cell, token, now, sent[0]);
        LeaseHeldIffStreaksBridged(backend, leaseMs, next, token, now, later, sent[1..]);
        if StreaksBridged(leaseMs, later, sent[1..]) {
          StreaksFromTail(leaseMs, age, sent);
        }
      }
      if StreaksBridged(leaseMs, age, sent) {
        StreaksOfTail(leaseMs, age, sent);
      }
    }
  }

  /** The lease from the acquire at `t - delay`; the heartbeat is armed at `t`, once the run has been recorded. */
  function Acquired(leaseMs: int, token: Token, t: int, delay: nat): Cell {
    Some(Stored(Some(token), t - delay + leaseMs))
  }

  /** A run that renews on schedule keeps its lease exactly when recording it left enough of the lease for the first beat. */
  lemma PunctualRunKeepsLeaseIff(backend: Backend, leaseMs: int, token: Token, t: int, delay: nat, sent: seq<bool>)
    requires leaseMs > 1000 && sent != [] && forall k :: 0 <= k < |sent| ==> sent[k]
    ensures HeldAtEveryBeat(backend, leaseMs, Acquired(leaseMs, token, t, delay), token, t, sent)
            <==> delay + BeatMs(leaseMs) < leaseMs
  {
    LeaseHeldIffStreaksBridged(backend, leaseMs, Acquired(leaseMs, token, t, delay), token, t, delay, sent);
    assert MissedFrom(sent, 0, 0);
    forall n | 0 < n < |sent| ensures !MissedFrom(sent, 0, n) {
      assert sent[0];
    }
    forall f, n | 0 < f <= n < |sent| && MissedFrom(sent, f, n) ensures n == f {
      assert sent[f];
    }
  }

  /** Two beats fit in the lease after the delay: then it survives every single missed beat. */
  lemma HeartbeatKeepsLease(backend: Backend, leaseMs: int, token: Token, t: int, delay: nat, sent: seq<bool>)
    requires leaseMs >= 1 && delay + 2 * BeatMs(leaseMs) < leaseMs
    requires forall i, j :: 0 <= i < j < |sent| && j == i + 1 ==> sent[i] || sent[j]
    ensures HeldAtEveryBeat(backend, leaseMs, Acquired(leaseMs, token, t, delay), token, t, sent)
  {
    forall f, n | 0 <= f <= n < |sent| && MissedFrom(sent, f, n) ensures n <= f + 1 {
      if f + 1 < |sent| { assert sent[f] || sent[f + 1]; }
    }
    LeaseHeldIffStreaksBridged(backend, leaseMs, Acquired(leaseMs, token, t, delay), token, t, delay, sent);
  }

  /** From three seconds on there is room for that, with up to a third of the lease to record the run. */
  lemma ThreeSecondsBridgeOneMiss(leaseMs: int, delay: nat)
    ensures leaseMs >= 3000 && 3 * delay < leaseMs ==> delay + 2 * BeatMs(leaseMs) < leaseMs
  {
  }

  /** A lease of one and a half seconds is lost to a run record that takes 600 ms to write. */
  lemma SlowRecordLosesLease(backend: Backend, token: Token)
    ensures !HeldAtEveryBeat(backend, 1500, Acquired(1500, token, 600, 600), token, 600, [true])
  {
    PunctualRunKeepsLeaseIff(backend, 1500, token, 600, 600, [true]);
  }

  /** At one second or less the beat never arrives in time: the lease is lost at the first one. */
  lemma ShortLeaseIsLost(backend: Backend, leaseMs: int, token: Token, t: int, delay: nat, sent: seq<bool>)
    requires 1 <= leaseMs <= 1000 && sent != []
    ensures !HeldAtEveryBeat(backend, leaseMs, Acquired(leaseMs, token, t, delay), token, t, sent)
  {
  }
}
