/**
 * The distributed job lock: the lease contract, its Redis backend (one key with
 * a PX expiry, compare-and-set scripts) and its MongoDB backend (one JobLock
 * document, conditional updates).
 */
module JobLock {
  import opened Common

  type Key = string
  type Token = string

  /** What a backend stores for one lock key; a released MongoDB document has no token. */
  datatype Stored = Stored(token: Option<Token>, until: int)
  type Cell = Option<Stored>

  /** The lease somebody holds at `now`, if any. */
  function Live(cell: Cell, now: int): Cell {
    if cell.Some? && now < cell.value.until then cell else None
  }

  predicate HeldBy(cell: Cell, token: Token) {
    cell.Some? && cell.value.token == Some(token)
  }

  // ----- The contract, on the live lease of one key. -----

  function AcquireSpec(live: Cell, token: Token, until: int): (Cell, bool) {
    if live.None? then (Some(Stored(Some(token), until)), true) else (live, false)
  }

  function RenewSpec(live: Cell, token: Token, until: int): (Cell, bool) {
    if HeldBy(live, token) then (Some(Stored(Some(token), until)), true) else (live, false)
  }

  function ReleaseSpec(live: Cell, token: Token, hold: Option<int>, now: int): (Cell, bool) {
    if !HeldBy(live, token) then (live, false)
    else if hold.Some? && now < hold.value then (Some(Stored(Some(token), hold.value)), true)
    else (None, true)
  }

  // ----- Redis: one cell under SET NX PX and the two scripts. -----

  function RedisAcquire(cell: Cell, token: Token, leaseMs: int, now: int): (Cell, bool) {
    if Live(cell, now).Some? then (cell, false)
    else (Some(Stored(Some(token), now + Max(1, leaseMs))), true)
  }

  function RedisRenew(cell: Cell, token: Token, leaseMs: int, now: int): (Cell, bool) {
    if HeldBy(Live(cell, now), token)
    then (Some(Stored(Some(token), now + Max(1, leaseMs))), true)
    else (cell, false)
  }

  /** `readAt` is the caller's clock when it turned `hold` into a duration; the script runs at `now`. */
  function RedisRelease(cell: Cell, token: Token, hold: Option<int>, readAt: int, now: int): (Cell, bool) {
    var holdMs := if hold.Some? then Max(0, hold.value - readAt) else 0;
    if !HeldBy(Live(cell, now), token) then (cell, false)
    else if holdMs > 0 then (Some(Stored(Some(token), now + holdMs)), true)
    else (None, true)
  }

  // ----- MongoDB: one document under three conditional updates. -----

  function MongoAcquire(cell: Cell, token: Token, leaseMs: int, now: int): (Cell, bool) {
    if cell.None? || cell.value.until <= now
    then (Some(Stored(Some(token), now + leaseMs)), true)
    else (cell, false)
  }

  function MongoRenew(cell: Cell, token: Token, leaseMs: int, now: int): (Cell, bool) {
    if HeldBy(cell, token) && now < cell.value.until
    then (Some(Stored(Some(token), now + leaseMs)), true)
    else (cell, false)
  }

  /** The release filter is `{ _id, token }` alone: it does not ask whether the lease is still running. */
  function MongoRelease(cell: Cell, token: Token, hold: Option<int>, now: int): (Cell, bool) {
    if !HeldBy(cell, token) then (cell, false)
    else if hold.Some? && now < hold.value then (Some(Stored(Some(token), hold.value)), true)
    else (Some(Stored(None, now)), true)
  }

  // ----- Refinement: each backend against the contract. -----

  /** Redis meets the contract for every cell, token, lease and hold time. */
  lemma RedisMeetsContract(cell: Cell, token: Token, leaseMs: int, hold: Option<int>, now: int)
    ensures var (c, ok) := RedisAcquire(cell, token, leaseMs, now);
            (Live(c, now), ok) == AcquireSpec(Live(cell, now), token, now + Max(1, leaseMs))
    ensures var (c, ok) := RedisRenew(cell, token, leaseMs, now);
            (Live(c, now), ok) == RenewSpec(Live(cell, now), token, now + Max(1, leaseMs))
    ensures var (c, ok) := RedisRelease(cell, token, hold, now, now);
            (Live(c, now), ok) == ReleaseSpec(Live(cell, now), token, hold, now)
  {
  }

  /** MongoDB's acquire meets the contract exactly when it is refused or the lease is positive. */
  lemma MongoAcquireMeetsContractIff(cell: Cell, token: Token, leaseMs: int, now: int)
    ensures var (c, ok) := MongoAcquire(cell, token, leaseMs, now);
            (Live(c, now), ok) == AcquireSpec(Live(cell, now), token, now + leaseMs)
            <==> Live(cell, now).Some? || leaseMs >= 1
  {
  }

  /** MongoDB's renew meets the contract exactly when it is refused or the lease is positive. */
  lemma MongoRenewMeetsContractIff(cell: Cell, token: Token, leaseMs: int, now: int)
    ensures var (c, ok) := MongoRenew(cell, token, leaseMs, now);
            (Live(c, now), ok) == RenewSpec(Live(cell, now), token, now + leaseMs)
            <==> !HeldBy(Live(cell, now), token) || leaseMs >= 1
  {
  }

  /** A lease that ran out while its token is still the stored one. */
  predicate LapsedOwner(cell: Cell, token: Token, now: int) {
    HeldBy(cell, token) && cell.value.until <= now
  }

  /**
   * MongoDB's release meets the contract exactly when the caller's own lease has
   * not lapsed in place; in that one case it reports success for a lock nobody held.
   */
  lemma MongoReleaseMeetsContractIff(cell: Cell, token: Token, hold: Option<int>, now: int)
    ensures var (c, ok) := MongoRelease(cell, token, hold, now);
            (Live(c, now), ok) == ReleaseSpec(Live(cell, now), token, hold, now)
            <==> !LapsedOwner(cell, token, now)
  {
  }

  /** A concrete lapsed owner: its release takes a free lock again, until the hold time. */
  lemma MongoReleaseRevivesLapsedLease()
    ensures var cell := Some(Stored(Some("a:1"), 1000));
            && Live(cell, 2000) == None
            && MongoRelease(cell, "a:1", Some(5000), 2000) == (Some(Stored(Some("a:1"), 5000)), true)
            && MongoAcquire(MongoRelease(cell, "a:1", Some(5000), 2000).0, "b:1", 60000, 3000).1 == false
            && RedisRelease(cell, "a:1", Some(5000), 2000, 2000) == (cell, false)
  {
  }

  // ----- The backends as the stores they update. -----

  function At<V>(m: map<Key, V>, key: Key): Option<V> {
    if key in m then Some(m[key]) else None
  }

  function Put<V>(m: map<Key, V>, key: Key, v: Option<V>): map<Key, V> {
    if v.Some? then m[key := v.value] else m - {key}
  }

  /** The four Redis commands the lock uses; every entry here carries a PX expiry. */
  class RedisServer {
    var entries: map<Key, Stored>

    constructor ()
      ensures entries == map[]
    {
      entries := map[];
    }

    method Get(key: Key, now: int) returns (value: Option<Token>)
      ensures value == (if Live(At(entries, key), now).Some? then entries[key].token else None)
    {
      if key in entries && now < entries[key].until {
        value := entries[key].token;
      } else {
        value := None;
      }
    }

    method SetNxPx(key: Key, token: Token, px: int, now: int) returns (ok: bool)
      requires px > 0
      modifies this
      ensures ok == Live(old(At(entries, key)), now).None?
      ensures entries == if ok then old(entries)[key := Stored(Some(token), now + px)] else old(entries)
    {
      ok := key !in entries || entries[key].until <= now;
      if ok {
        entries := entries[key := Stored(Some(token), now + px)];
      }
    }

    method PExpire(key: Key, ms: int, now: int) returns (reply: int)
      requires ms > 0
      modifies this
      ensures reply == if Live(old(At(entries, key)), now).Some? then 1 else 0
      ensures entries == if reply == 1 then old(entries)[key := Stored(old(entries)[key].token, now + ms)]
                         else old(entries)
    {
      reply := 0;
      if key in entries && now < entries[key].until {
        entries := entries[key := Stored(entries[key].token, now + ms)];
        reply := 1;
      }
    }

    method Del(key: Key, now: int) returns (reply: int)
      modifies this
      ensures reply == if Live(old(At(entries, key)), now).Some? then 1 else 0
      ensures entries == old(entries) - {key}
    {
      reply := if key in entries && now < entries[key].until then 1 else 0;
      entries := entries - {key};
    }
  }

  class RedisLock {
    const server: RedisServer
    const prefix: string

    constructor (server: RedisServer, prefix: string)
      ensures this.server == server && this.prefix == prefix
    {
      this.server := server;
      this.prefix := prefix;
    }

    method Acquire(key: Key, token: Token, leaseMs: int, now: int) returns (result: Option<Token>)
      modifies server
      ensures var (c, ok) := RedisAcquire(old(At(server.entries, prefix + key)), token, leaseMs, now);
              && server.entries == Put(old(server.entries), prefix + key, c)
              && result == if ok then Some(token) else None
    {
      var ok := server.SetNxPx(prefix + key, token, Max(1, leaseMs), now);
      result := if ok then Some(token) else None;
    }

    // The RENEW script: GET, compare, PEXPIRE, in one atomic evaluation.
    method Renew(key: Key, token: Token, leaseMs: int, now: int) returns (ok: bool)
      modifies server
      ensures var (c, done) := RedisRenew(old(At(server.entries, prefix + key)), token, leaseMs, now);
              && server.entries == Put(old(server.entries), prefix + key, c)
              && ok == done
    {
      var reply := 0;
      var value := server.Get(prefix + key, now);
      if value == Some(token) {
        reply := server.PExpire(prefix + key, Max(1, leaseMs), now);
      }
      ok := reply == 1;
    }

    // The RELEASE script: GET, compare, then PEXPIRE while held or DEL.
    method Release(key: Key, token: Token, hold: Option<int>, readAt: int, now: int) returns (ok: bool)
      modifies server
      ensures var (c, done) := RedisRelease(old(At(server.entries, prefix + key)), token, hold, readAt, now);
              && server.entries == Put(old(server.entries), prefix + key, c)
              && ok == done
    {
      var holdMs := if hold.Some? then Max(0, hold.value - readAt) else 0;
      var reply := 0;
      var value := server.Get(prefix + key, now);
      if value == Some(token) {
        if holdMs > 0 {
          reply := server.PExpire(prefix + key, holdMs, now);
        } else {
          reply := server.Del(prefix + key, now);
        }
      }
      ok := reply == 1;
    }
  }

  /** The JobLock collection; each method is one atomic document write. */
  class JobLockCollection {
    var docs: map<Key, Stored>

    constructor ()
      ensures docs == map[]
    {
      docs := map[];
    }

    // findOneAndUpdate({ _id, lockedUntil <= now }, $set, { upsert }): a miss collides on _id.
    method Acquire(key: Key, token: Token, leaseMs: int, now: int) returns (ok: bool)
      modifies this
      ensures var (c, done) := MongoAcquire(old(At(docs, key)), token, leaseMs, now);
              docs == Put(old(docs), key, c) && ok == done
    {
      ok := key !in docs || docs[key].until <= now;
      if ok {
        docs := docs[key := Stored(Some(token), now + leaseMs)];
      }
    }

    method Renew(key: Key, token: Token, leaseMs: int, now: int) returns (ok: bool)
      modifies this
      ensures var (c, done) := MongoRenew(old(At(docs, key)), token, leaseMs, now);
              docs == Put(old(docs), key, c) && ok == done
    {
      ok := key in docs && docs[key].token == Some(token) && now < docs[key].until;
      if ok {
        docs := docs[key := docs[key].(until := now + leaseMs)];
      }
    }

    method Release(key: Key, token: Token, hold: Option<int>, now: int) returns (ok: bool)
      modifies this
      ensures var (c, done) := MongoRelease(old(At(docs, key)), token, hold, now);
              docs == Put(old(docs), key, c) && ok == done
    {
      ok := key in docs && docs[key].token == Some(token);
      if ok {
        var held := hold.Some? && now < hold.value;
        var until := if held then hold.value else now;
        docs := docs[key := Stored(if held then Some(token) else None, until)];
      }
    }
  }
}
