/**
 * The in-memory cache driver: a map with per-key expiry that is purged lazily, against
 * a plain map that never contains an expired entry.
 */
module MemoryCache {
  import opened Common

  /** A cached value; `number` is what `Number(value)` makes of it (None for NaN). */
  datatype Value = Null | Value(text: string, number: Option<int>)

  datatype Entry = Entry(value: Value, expiresAt: Option<int>)

  /** Keyed by full key (driver prefix included). */
  type Store = map<string, Entry>

  predicate IsExpired(e: Entry, now: int) {
    e.expiresAt.Some? && e.expiresAt.value <= now
  }

  /** The entries a reader may still see at `now`. */
  function LiveView(store: Store, now: int): Store {
    map k | k in store && !IsExpired(store[k], now) :: store[k]
  }

  function Purged(store: Store, key: string, now: int): Store {
    if key in store && IsExpired(store[key], now) then store - {key} else store
  }

  /** Only a positive whole number of seconds sets an expiry. */
  function ExpiryOf(ttlSec: Option<int>, now: int): Option<int> {
    if ttlSec.Some? && ttlSec.value > 0 then Some(now + ttlSec.value * 1000) else None
  }

  function CeilSeconds(ms: int): int { -((-ms) / 1000) }

  function RemoveByPrefix(store: Store, fullPrefix: string): Store {
    map k | k in store && !(fullPrefix <= k) :: store[k]
  }

  /** The stored keys that a prefix delete removes and counts. */
  function Matching(store: Store, fullPrefix: string): set<string> {
    set k | k in store && fullPrefix <= k
  }

  /** The driver's operations; `Probe` and `Fill` are getOrSet before and after its wait for the factory. */
  datatype Op =
    | Get(key: string)
    | Set(key: string, value: Value, ttlSec: Option<int>)
    | Ttl(key: string)
    | SetIfAbsent(key: string, value: Value, ttlSec: Option<int>)
    | Probe(key: string)
    | Fill(key: string, made: Value, ttlSec: Option<int>)
    | Del(key: string)
    | DelByPrefix(fullPrefix: string)

  datatype Answer = Got(value: Value) | Seconds(n: int) | Claimed(ok: bool) | Missed | Removed(count: nat) | Acknowledged

  function ValueAt(store: Store, key: string): Value {
    if key in store then store[key].value else Null
  }

  /** The driver's step on its own map. */
  function Step(store: Store, op: Op, now: int): (Store, Answer) {
    match op
    case Get(key) =>
      var s := Purged(store, key, now);
      (s, Got(ValueAt(s, key)))
    case Set(key, value, ttlSec) => (store[key := Entry(value, ExpiryOf(ttlSec, now))], Acknowledged)
    case Ttl(key) =>
      if key !in store then (store, Seconds(-2))
      else if store[key].expiresAt.None? then (store, Seconds(-1))
      else
        var remaining := CeilSeconds(store[key].expiresAt.value - now);
        if remaining <= 0 then (store - {key}, Seconds(-2)) else (store, Seconds(remaining))
    case SetIfAbsent(key, value, ttlSec) =>
      var s := Purged(store, key, now);
      if key in s then (s, Claimed(false)) else (s[key := Entry(value, ExpiryOf(ttlSec, now))], Claimed(true))
    case Probe(key) =>
      var s := Purged(store, key, now);
      (s, if key in s then Got(s[key].value) else Missed)
    case Fill(key, made, ttlSec) =>
      (if made.Null? then store else store[key := Entry(made, ExpiryOf(ttlSec, now))], Got(made))
    case Del(key) => (store - {key}, Removed(if key in store then 1 else 0))
    case DelByPrefix(fullPrefix) => (RemoveByPrefix(store, fullPrefix), Removed(|Matching(store, fullPrefix)|))
  }

  /** The same operation on a plain map in which every entry is live; the answers say nothing of purging. */
  function PlainStep(view: Store, op: Op, now: int): (Store, Answer) {
    match op
    case Get(key) => (view, Got(ValueAt(view, key)))
    case Set(key, value, ttlSec) => (view[key := Entry(value, ExpiryOf(ttlSec, now))], Acknowledged)
    case Ttl(key) =>
      (view, Seconds(if key !in view then -2
                     else if view[key].expiresAt.None? then -1
                     else CeilSeconds(view[key].expiresAt.value - now)))
    case SetIfAbsent(key, value, ttlSec) =>
      if key in view then (view, Claimed(false)) else (view[key := Entry(value, ExpiryOf(ttlSec, now))], Claimed(true))
    case Probe(key) => (view, if key in view then Got(view[key].value) else Missed)
    case Fill(key, made, ttlSec) =>
      (if made.Null? then view else view[key := Entry(made, ExpiryOf(ttlSec, now))], Got(made))
    case Del(key) => (view - {key}, Removed(if key in view then 1 else 0))
    case DelByPrefix(fullPrefix) => (RemoveByPrefix(view, fullPrefix), Removed(|Matching(view, fullPrefix)|))
  }

  // ----- Refinement, step by step and over whole histories. -----

  /** Time only removes entries from a view; looking later is looking at the earlier view later. */
  lemma ViewOfView(store: Store, t: int, later: int)
    requires t <= later
    ensures LiveView(LiveView(store, t), later) == LiveView(store, later)
  {
  }

  lemma RemainingIsPositiveIff(expiresAt: int, now: int)
    ensures CeilSeconds(expiresAt - now) > 0 <==> now < expiresAt
  {
  }

  /** Purging a key drops exactly what the live view leaves out at that key. */
  lemma PurgedIsLive(store: Store, key: string, now: int, later: int)
    requires now <= later
    ensures LiveView(Purged(store, key, now), later) == LiveView(store, later)
    ensures key in Purged(store, key, now) <==> key in LiveView(store, now)
    ensures ValueAt(Purged(store, key, now), key) == ValueAt(LiveView(store, now), key)
  {
  }

  lemma PutOnView(store: Store, key: string, e: Entry, now: int, later: int)
    requires now <= later
    ensures LiveView(store[key := e], later) == LiveView(LiveView(store, now)[key := e], later)
  {
  }

  lemma RemoveOnView(store: Store, key: string, fullPrefix: string, now: int, later: int)
    requires now <= later
    ensures LiveView(store - {key}, later) == LiveView(LiveView(store, now) - {key}, later)
    ensures LiveView(RemoveByPrefix(store, fullPrefix), later) == LiveView(RemoveByPrefix(LiveView(store, now), fullPrefix), later)
  {
  }

  lemma TtlOnView(store: Store, key: string, now: int, later: int)
    requires now <= later
    ensures Step(store, Ttl(key), now).1 == PlainStep(LiveView(store, now), Ttl(key), now).1
    ensures LiveView(Step(store, Ttl(key), now).0, later) == LiveView(store, later)
  {
    if key in store && store[key].expiresAt.Some? {
      RemainingIsPositiveIff(store[key].expiresAt.value, now);
    }
  }

  lemma ClaimOnView(store: Store, key: string, value: Value, ttlSec: Option<int>, now: int, later: int)
    requires now <= later
    ensures var op := SetIfAbsent(key, value, ttlSec);
            && Step(store, op, now).1 == PlainStep(LiveView(store, now), op, now).1
            && LiveView(Step(store, op, now).0, later) == LiveView(PlainStep(LiveView(store, now), op, now).0, later)
  {
    PurgedIsLive(store, key, now, later);
    PutOnView(store, key, Entry(value, ExpiryOf(ttlSec, now)), now, later);
    PurgedPut(store, key, Entry(value, ExpiryOf(ttlSec, now)), now);
    ViewOfView(store, now, later);
  }

  lemma PurgedPut(store: Store, key: string, e: Entry, now: int)
    ensures Purged(store, key, now)[key := e] == store[key := e]
  {
  }

  predicate HoldsExpired(store: Store, key: string, now: int) {
    key in store && IsExpired(store[key], now)
  }

  /** The operation is a delete that finds an expired entry: the driver counts it, a plain map would not. */
  predicate MeetsExpired(store: Store, op: Op, now: int) {
    match op
    case Del(key) => HoldsExpired(store, key, now)
    case DelByPrefix(fullPrefix) => exists k :: k in Matching(store, fullPrefix) && IsExpired(store[k], now)
    case _ => false
  }

  lemma SameSizeIffSame(a: set<string>, b: set<string>)
    requires a <= b
    ensures |a| == |b| <==> a == b
  {
    assert b == a + (b - a);
  }

  lemma CountFollowsViewIff(store: Store, fullPrefix: string, now: int)
    ensures |Matching(store, fullPrefix)| == |Matching(LiveView(store, now), fullPrefix)|
            <==> !MeetsExpired(store, DelByPrefix(fullPrefix), now)
  {
    SameSizeIffSame(Matching(LiveView(store, now), fullPrefix), Matching(store, fullPrefix));
    if MeetsExpired(store, DelByPrefix(fullPrefix), now) {
      var k :| k in Matching(store, fullPrefix) && IsExpired(store[k], now);
      assert k !in Matching(LiveView(store, now), fullPrefix);
    } else {
      assert Matching(LiveView(store, now), fullPrefix) == Matching(store, fullPrefix);
    }
  }

  /** One operation: the same live view ever after, and the same answer as on it exactly unless it is a delete that finds an expired entry. */
  lemma StepActsOnLiveView(store: Store, op: Op, now: int, later: int)
    requires now <= later
    ensures Step(store, op, now).1 == PlainStep(LiveView(store, now), op, now).1 <==> !MeetsExpired(store, op, now)
    ensures LiveView(Step(store, op, now).0, later) == LiveView(PlainStep(LiveView(store, now), op, now).0, later)
  {
    ViewOfView(store, now, later);
    match op {
      case Get(key) => PurgedIsLive(store, key, now, later);
      case Set(key, value, ttlSec) => PutOnView(store, key, Entry(value, ExpiryOf(ttlSec, now)), now, later);
      case Ttl(key) => TtlOnView(store, key, now, later);
      case SetIfAbsent(key, value, ttlSec) => ClaimOnView(store, key, value, ttlSec, now, later);
      case Probe(key) => PurgedIsLive(store, key, now, later);
      case Fill(key, made, ttlSec) => PutOnView(store, key, Entry(made, ExpiryOf(ttlSec, now)), now, later);
      case Del(key) => RemoveOnView(store, key, "", now, later);
      case DelByPrefix(fullPrefix) =>
        RemoveOnView(store, "", fullPrefix, now, later);
        CountFollowsViewIff(store, fullPrefix, now);
    }
  }

  datatype Timed = Timed(now: int, op: Op)

  /** The clock never goes back. */
  predicate Ordered(ops: seq<Timed>, from: int)
    decreases |ops|
  {
    ops == [] || (from <= ops[0].now && Ordered(ops[1..], ops[0].now))
  }

  function Answers(store: Store, ops: seq<Timed>): seq<Answer>
    decreases |ops|
  {
    if ops == [] then []
    else var (s, a) := Step(store, ops[0].op, ops[0].now); [a] + Answers(s, ops[1..])
  }

  /** The plain map forgets what has expired whenever the clock is read. */
  function PlainAnswers(view: Store, ops: seq<Timed>): seq<Answer>
    decreases |ops|
  {
    if ops == [] then []
    else var (v, a) := PlainStep(LiveView(view, ops[0].now), ops[0].op, ops[0].now); [a] + PlainAnswers(v, ops[1..])
  }

  /** What the driver stores just before the i-th operation. */
  function StoreAt(store: Store, ops: seq<Timed>, i: nat): Store
    requires i < |ops|
    decreases i
  {
    if i == 0 then store else StoreAt(Step(store, ops[0].op, ops[0].now).0, ops[1..], i - 1)
  }

  /**
   * Lazy purging is invisible: over every history of operations each answer is the plain map's, exactly unless
   * the operation is a delete that finds an expired entry; and such a delete disturbs no later answer.
   */
  lemma {:induction false} LazyPurgeIsInvisible(store: Store, view: Store, ops: seq<Timed>, from: int)
    requires Ordered(ops, from)
    requires LiveView(store, from) == LiveView(view, from)
    ensures |Answers(store, ops)| == |PlainAnswers(view, ops)| == |ops|
    ensures forall i :: 0 <= i < |ops| ==>
              (Answers(store, ops)[i] == PlainAnswers(view, ops)[i] <==> !MeetsExpired(StoreAt(store, ops, i), ops[i].op, ops[i].now))
    decreases |ops|
  {
    if ops != [] {
      var op, now := ops[0].op, ops[0].now;
      ViewOfView(store, from, now);
      ViewOfView(view, from, now);
      StepActsOnLiveView(store, op, now, now);
      var s, v := Step(store, op, now).0, PlainStep(LiveView(view, now), op, now).0;
      LazyPurgeIsInvisible(s, v, ops[1..], now);
      forall i | 0 <= i < |ops|
        ensures Answers(store, ops)[i] == PlainAnswers(view, ops)[i] <==> !MeetsExpired(StoreAt(store, ops, i), ops[i].op, ops[i].now)
      {
        if i > 0 {
          assert Answers(store, ops)[i] == Answers(s, ops[1..])[i - 1];
          assert PlainAnswers(view, ops)[i] == PlainAnswers(v, ops[1..])[i - 1];
          assert ops[1..][i - 1] == ops[i];
        }
      }
    }
  }

  /** `ttl` right after `set` with s seconds is s; it is positive exactly for a live entry with an expiry. */
  lemma TtlReportsRemaining(store: Store, key: string, value: Value, s: int, now: int)
    requires s > 0
    ensures Step(Step(store, Set(key, value, Some(s)), now).0, Ttl(key), now).1 == Seconds(s)
    ensures var n := Step(store, Ttl(key), now).1.n;
            n > 0 <==> key in LiveView(store, now) && store[key].expiresAt.Some?
  {
    assert CeilSeconds(s * 1000) == s;
    if key in store && store[key].expiresAt.Some? {
      RemainingIsPositiveIff(store[key].expiresAt.value, now);
    }
  }

  // ----- What was written can be read back. -----

  /** The operation, answered like this, wrote `v` under the key with this TTL. */
  predicate Writes(op: Op, a: Answer, key: string, v: Value, ttlSec: Option<int>) {
    || op == Set(key, v, ttlSec)
    || (op == SetIfAbsent(key, v, ttlSec) && a == Claimed(true))
    || (op == Fill(key, v, ttlSec) && !v.Null?)
  }

  /** The operation, answered like this, wrote or deleted the key. */
  predicate Touches(op: Op, a: Answer, key: string) {
    match op
    case Set(k, _, _) => k == key
    case SetIfAbsent(k, _, _) => k == key && a == Claimed(true)
    case Fill(k, made, _) => k == key && !made.Null?
    case Del(k) => k == key
    case DelByPrefix(fullPrefix) => fullPrefix <= key
    case _ => false
  }

  /** Still there at `now`: written `at` without a positive TTL, or less than `ttlSec` seconds before. */
  predicate StillThere(ttlSec: Option<int>, at: int, now: int) {
    ttlSec.None? || ttlSec.value <= 0 || now < at + 1000 * ttlSec.value
  }

  /** The store holds what was written `at`, or lost it once its time was up. */
  ghost predicate Keeps(store: Store, key: string, v: Value, ttlSec: Option<int>, at: int, now: int) {
    if key in store
    then store[key].value == v
         && store[key].expiresAt == if ttlSec.Some? && ttlSec.value > 0 then Some(at + 1000 * ttlSec.value) else None
    else !StillThere(ttlSec, at, now)
  }

  /** No operation from the `from`-th up to the `to`-th wrote or deleted the key. */
  predicate Untouched(ops: seq<Timed>, answers: seq<Answer>, key: string, from: int, to: int) {
    && 0 <= from && to <= |ops| == |answers|
    && forall m :: from <= m < to ==> !Touches(ops[m].op, answers[m], key)
  }

  lemma UntouchedTail(ops: seq<Timed>, answers: seq<Answer>, key: string, from: int, to: int)
    requires ops != [] && Untouched(ops, answers, key, from, to)
    ensures Untouched(ops[1..], answers[1..], key, Max(0, from - 1), to - 1)
  {
    forall m | Max(0, from - 1) <= m < to - 1 ensures !Touches(ops[1..][m].op, answers[1..][m], key) {
      assert !Touches(ops[m + 1].op, answers[m + 1], key);
    }
  }

  lemma AnswerAtFront(store: Store, ops: seq<Timed>)
    requires ops != []
    ensures Answers(store, ops) != [] && Answers(store, ops)[0] == Step(store, ops[0].op, ops[0].now).1
    ensures Answers(store, ops)[1..] == Answers(Step(store, ops[0].op, ops[0].now).0, ops[1..])
  {
  }

  lemma WriteStands(store: Store, op: Op, now: int, key: string, v: Value, ttlSec: Option<int>)
    requires Writes(op, Step(store, op, now).1, key, v, ttlSec)
    ensures Keeps(Step(store, op, now).0, key, v, ttlSec, now, now)
  {
  }

  lemma StepKeepsWritten(store: Store, op: Op, now: int, key: string, v: Value, ttlSec: Option<int>, at: int)
    requires Keeps(store, key, v, ttlSec, at, now) && !Touches(op, Step(store, op, now).1, key)
    ensures Keeps(Step(store, op, now).0, key, v, ttlSec, at, now)
  {
    if op.Ttl? && op.key == key && key in store && store[key].expiresAt.Some? {
      RemainingIsPositiveIff(store[key].expiresAt.value, now);
    }
  }

  lemma {:induction false} KeptUntilTouched(store: Store, ops: seq<Timed>, from: int, key: string, v: Value, ttlSec: Option<int>, at: int, j: nat)
    requires Ordered(ops, from) && j < |ops|
    requires Keeps(store, key, v, ttlSec, at, from)
    requires Untouched(ops, Answers(store, ops), key, 0, j)
    ensures Keeps(StoreAt(store, ops, j), key, v, ttlSec, at, ops[j].now)
    ensures Answers(store, ops)[j] == Step(StoreAt(store, ops, j), ops[j].op, ops[j].now).1
    decreases j
  {
    AnswerAtFront(store, ops);
    if j > 0 {
      assert !Touches(ops[0].op, Answers(store, ops)[0], key);
      StepKeepsWritten(store, ops[0].op, ops[0].now, key, v, ttlSec, at);
      UntouchedTail(ops, Answers(store, ops), key, 0, j);
      KeptUntilTouched(Step(store, ops[0].op, ops[0].now).0, ops[1..], ops[0].now, key, v, ttlSec, at, j - 1);
    }
  }

  /** How a key is answered for that was last written `at`: as long as it is still there, and from then on. */
  ghost predicate AnsweredFor(op: Op, a: Answer, key: string, v: Value, ttlSec: Option<int>, at: int, now: int) {
    var there := StillThere(ttlSec, at, now);
    && (op == Get(key) ==> a == Got(if there then v else Null))
    && (op == Probe(key) ==> a == if there then Got(v) else Missed)
    && (op == Del(key) && there ==> a == Removed(1))
    && (op.DelByPrefix? && op.fullPrefix <= key && there ==> a.Removed? && a.count >= 1)
    && (op.SetIfAbsent? && op.key == key ==> a == Claimed(!there))
    && (op == Ttl(key) ==>
          a.Seconds?
          && (a.n == -1 <==> there && (ttlSec.None? || ttlSec.value <= 0))
          && (a.n == -2 <==> !there)
          && (a.n >= 0 ==> ttlSec.Some? && 1000 * (a.n - 1) < at + 1000 * ttlSec.value - now <= 1000 * a.n))
  }

  lemma AnswersOfKept(store: Store, op: Op, now: int, key: string, v: Value, ttlSec: Option<int>, at: int)
    requires Keeps(store, key, v, ttlSec, at, now)
    ensures AnsweredFor(op, Step(store, op, now).1, key, v, ttlSec, at, now)
  {
    if op.DelByPrefix? && op.fullPrefix <= key && StillThere(ttlSec, at, now) {
      assert key in Matching(store, op.fullPrefix);
    }
    if op == Ttl(key) && key in store && store[key].expiresAt.Some? {
      RemainingIsPositiveIff(store[key].expiresAt.value, now);
    }
  }

  lemma ReadBackFrom(store: Store, ops: seq<Timed>, from: int, j: nat, key: string, v: Value, ttlSec: Option<int>, at: int)
    requires Ordered(ops, from) && j < |ops| && Keeps(store, key, v, ttlSec, at, from)
    requires Untouched(ops, Answers(store, ops), key, 0, j)
    ensures AnsweredFor(ops[j].op, Answers(store, ops)[j], key, v, ttlSec, at, ops[j].now)
  {
    KeptUntilTouched(store, ops, from, key, v, ttlSec, at, j);
    AnswersOfKept(StoreAt(store, ops, j), ops[j].op, ops[j].now, key, v, ttlSec, at);
  }

  /**
   * Over every history: after a set, a successful setIfAbsent or a fill at `i`, and until the key is written or deleted,
   * reads at any later time `j` give the value written: always, if its TTL is absent or not positive; for a TTL of s
   * seconds exactly until 1000 * s milliseconds after the write, and nothing from then on.
   */
  lemma {:induction false} WrittenIsReadBack(store: Store, ops: seq<Timed>, from: int, i: nat, j: nat, key: string, v: Value, ttlSec: Option<int>)
    requires Ordered(ops, from) && i < j < |ops| == |Answers(store, ops)|
    requires Writes(ops[i].op, Answers(store, ops)[i], key, v, ttlSec)
    requires Untouched(ops, Answers(store, ops), key, i + 1, j)
    ensures AnsweredFor(ops[j].op, Answers(store, ops)[j], key, v, ttlSec, ops[i].now, ops[j].now)
    decreases i
  {
    var s := Step(store, ops[0].op, ops[0].now).0;
    AnswerAtFront(store, ops);
    UntouchedTail(ops, Answers(store, ops), key, i + 1, j);
    if i == 0 {
      WriteStands(store, ops[0].op, ops[0].now, key, v, ttlSec);
      ReadBackFrom(s, ops[1..], ops[0].now, j - 1, key, v, ttlSec, ops[0].now);
    } else {
      WrittenIsReadBack(s, ops[1..], ops[0].now, i - 1, j - 1, key, v, ttlSec);
    }
  }

  /** How a key is answered for that nothing is stored under. */
  ghost predicate AnsweredGone(op: Op, a: Answer, key: string) {
    && (op == Get(key) ==> a == Got(Null))
    && (op == Probe(key) ==> a == Missed)
    && (op.SetIfAbsent? && op.key == key ==> a == Claimed(true))
    && (op == Ttl(key) ==> a == Seconds(-2))
    && (op == Del(key) ==> a == Removed(0))
  }

  lemma {:induction false} GoneUntilTouched(store: Store, ops: seq<Timed>, key: string, j: nat)
    requires key !in store && j < |ops| && Untouched(ops, Answers(store, ops), key, 0, j)
    ensures j < |Answers(store, ops)| && AnsweredGone(ops[j].op, Answers(store, ops)[j], key)
    decreases j
  {
    AnswerAtFront(store, ops);
    if j > 0 {
      assert !Touches(ops[0].op, Answers(store, ops)[0], key);
      UntouchedTail(ops, Answers(store, ops), key, 0, j);
      GoneUntilTouched(Step(store, ops[0].op, ops[0].now).0, ops[1..], key, j - 1);
    }
  }

  /** Over every history: what is deleted, by its key or by a prefix, is gone until it is written again. */
  lemma {:induction false} DeletedIsGone(store: Store, ops: seq<Timed>, i: nat, j: nat, key: string)
    requires i < j < |ops| == |Answers(store, ops)|
    requires ops[i].op == Del(key) || (ops[i].op.DelByPrefix? && ops[i].op.fullPrefix <= key)
    requires Untouched(ops, Answers(store, ops), key, i + 1, j)
    ensures AnsweredGone(ops[j].op, Answers(store, ops)[j], key)
    decreases i
  {
    var s := Step(store, ops[0].op, ops[0].now).0;
    AnswerAtFront(store, ops);
    UntouchedTail(ops, Answers(store, ops), key, i + 1, j);
    if i == 0 {
      GoneUntilTouched(s, ops[1..], key, j - 1);
    } else {
      DeletedIsGone(s, ops[1..], i - 1, j - 1, key);
    }
  }

  // ----- Where the driver does not look at the expiry. -----

  /** `del` says whether an entry was stored, live or not: it agrees with the live view unless an expired one lay there. */
  lemma DelAnswerFollowsViewIff(store: Store, key: string, now: int)
    ensures (key in store <==> key in LiveView(store, now)) <==> !HoldsExpired(store, key, now)
  {
  }

  function NumberOf(v: Value): Option<int> {
    if v.Null? then Some(0) else v.number
  }

  /** INCR in the driver: the next value, or None where it throws; an existing entry keeps its expiry. */
  function Incremented(store: Store, key: string, delta: int): Option<int> {
    match if key in store then NumberOf(store[key].value) else Some(0)
    case None => None
    case Some(n) => Some(n + delta)
  }

  function NumberValue(n: int): Value { Value("", Some(n)) }

  function AfterIncrement(store: Store, key: string, delta: int): Store {
    match Incremented(store, key, delta)
    case None => store
    case Some(n) => store[key := Entry(NumberValue(n), if key in store then store[key].expiresAt else None)]
  }

  function Sum(deltas: seq<int>): int {
    if deltas == [] then 0 else Sum(deltas[..|deltas| - 1]) + deltas[|deltas| - 1]
  }

  function AfterIncrements(store: Store, key: string, deltas: seq<int>): Store {
    if deltas == [] then store
    else AfterIncrement(AfterIncrements(store, key, deltas[..|deltas| - 1]), key, deltas[|deltas| - 1])
  }

  /**
   * Counting loses nothing: any number of increments add up, from 0 for a key that is absent or holds null; the counter
   * keeps the expiry it had (none, if it is new), no other key changes, and a value without a number stays as it is.
   */
  lemma {:induction false} IncrementsAddUp(store: Store, key: string, deltas: seq<int>)
    requires deltas != []
    ensures var after := AfterIncrements(store, key, deltas);
            && after - {key} == store - {key}
            && (key !in store ==> key in after && after[key] == Entry(Value("", Some(Sum(deltas))), None))
            && (key in store && store[key].value.Null? ==>
                  key in after && after[key] == Entry(Value("", Some(Sum(deltas))), store[key].expiresAt))
            && (key in store && !store[key].value.Null? && store[key].value.number.Some? ==>
                  key in after && after[key] == Entry(Value("", Some(store[key].value.number.value + Sum(deltas))), store[key].expiresAt))
            && (key in store && !store[key].value.Null? && store[key].value.number.None? ==> after == store)
  {
    var n := |deltas| - 1;
    if n > 0 {
      IncrementsAddUp(store, key, deltas[..n]);
    } else {
      assert deltas[..0] == [];
    }
  }

  /**
   * `increment` acts on the live view unless an expired entry lies there; then it counts on from
   * the dead value and leaves the counter expired.
   */
  lemma IncrementActsOnLiveViewIff(store: Store, key: string, delta: int, now: int)
    ensures LiveView(AfterIncrement(store, key, delta), now) == AfterIncrement(LiveView(store, now), key, delta)
            <==> !HoldsExpired(store, key, now)
  {
    if HoldsExpired(store, key, now) {
      assert key !in LiveView(AfterIncrement(store, key, delta), now);
      assert key in AfterIncrement(LiveView(store, now), key, delta);
    } else {
      assert LiveView(AfterIncrement(store, key, delta), now) == AfterIncrement(LiveView(store, now), key, delta);
    }
  }

  // ----- The driver. -----

  lemma RemovedAre(before: Store, after: Store, fullPrefix: string, gone: set<string>)
    requires after == before - gone && gone <= before.Keys
    requires forall k :: k in gone ==> fullPrefix <= k
    requires forall k :: k in after ==> !(fullPrefix <= k)
    ensures gone == Matching(before, fullPrefix) && after == RemoveByPrefix(before, fullPrefix)
  {
    forall k | k in Matching(before, fullPrefix) ensures k in gone {
      assert k in gone || k in after;
    }
    assert gone == Matching(before, fullPrefix);
  }

  datatype Result<T> = Returned(value: T) | Threw(message: string)

  class MemoryCache {
    var store: Store
    const keyPrefix: string

    constructor (keyPrefix: string)
      ensures this.keyPrefix == keyPrefix && store == map[]
    {
      this.keyPrefix := keyPrefix;
      store := map[];
    }

    method PurgeIfExpired(fullKey: string, now: int)
      modifies this
      ensures store == Purged(old(store), fullKey, now)
    {
      if fullKey in store && IsExpired(store[fullKey], now) {
        store := store - {fullKey};
      }
    }

    method Get(key: string, now: int) returns (r: Result<Value>)
      modifies this
      ensures key == "" ==> r.Threw? && store == old(store)
      ensures key != "" ==> var (s, a) := Step(old(store), Op.Get(keyPrefix + key), now); store == s && r.Returned? && a == Got(r.value)
    {
      if key == "" {
        return Threw("cache.get requires a non-empty key");
      }
      var fullKey := keyPrefix + key;
      PurgeIfExpired(fullKey, now);
      r := Returned(if fullKey in store then store[fullKey].value else Null);
    }

    method Set(key: string, value: Value, ttlSec: Option<int>, now: int) returns (r: Result<()>)
      modifies this
      ensures key == "" ==> r.Threw? && store == old(store)
      ensures key != "" ==> r.Returned? && store == Step(old(store), Op.Set(keyPrefix + key, value, ttlSec), now).0
      // A reader sees the value exactly until 1000 * ttlSec ms later, or for ever.
      ensures key != "" ==> forall later :: now <= later ==> (keyPrefix + key in LiveView(store, later) <==> StillThere(ttlSec, now, later))
      ensures key != "" ==> keyPrefix + key in store && store[keyPrefix + key].value == value
    {
      if key == "" {
        return Threw("cache.set requires a non-empty key");
      }
      store := store[keyPrefix + key := Entry(value, ExpiryOf(ttlSec, now))];
      r := Returned(());
    }

    method Del(key: string) returns (r: Result<bool>)
      modifies this
      ensures key == "" ==> r.Threw? && store == old(store)
      ensures key != "" ==> var (s, a) := Step(old(store), Op.Del(keyPrefix + key), 0);
                            store == s && r.Returned? && a == Removed(if r.value then 1 else 0)
    {
      if key == "" {
        return Threw("cache.del requires a non-empty key");
      }
      r := Returned(keyPrefix + key in store);
      store := store - {keyPrefix + key};
    }

    method Ttl(key: string, now: int) returns (r: Result<int>)
      modifies this
      ensures key == "" ==> r.Threw? && store == old(store)
      ensures key != "" ==> var (s, a) := Step(old(store), Op.Ttl(keyPrefix + key), now); store == s && r.Returned? && a == Seconds(r.value)
    {
      if key == "" {
        return Threw("cache.ttl requires a non-empty key");
      }
      var fullKey := keyPrefix + key;
      if fullKey !in store {
        return Returned(-2);
      }
      if store[fullKey].expiresAt.None? {
        return Returned(-1);
      }
      var remaining := CeilSeconds(store[fullKey].expiresAt.value - now);
      if remaining <= 0 {
        store := store - {fullKey};
        return Returned(-2);
      }
      r := Returned(remaining);
    }

    method Increment(key: string, delta: int) returns (r: Result<int>)
      modifies this
      ensures key == "" || Incremented(old(store), keyPrefix + key, delta).None? ==> r.Threw? && store == old(store)
      ensures key != "" && Incremented(old(store), keyPrefix + key, delta).Some? ==>
                && r == Returned(Incremented(old(store), keyPrefix + key, delta).value)
                && store == AfterIncrement(old(store), keyPrefix + key, delta)
    {
      if key == "" {
        return Threw("cache.increment requires a non-empty key");
      }
      var fullKey := keyPrefix + key;
      var current := if fullKey in store then NumberOf(store[fullKey].value) else Some(0);
      if current.None? {
        return Threw("cache.increment produced a non-finite value");
      }
      var next := current.value + delta;
      var expiresAt := if fullKey in store then store[fullKey].expiresAt else None;
      store := store[fullKey := Entry(NumberValue(next), expiresAt)];
      r := Returned(next);
    }

    method SetIfAbsent(key: string, value: Value, ttlSec: Option<int>, now: int) returns (r: Result<bool>)
      modifies this
      ensures key == "" ==> r.Threw? && store == old(store)
      ensures key != "" ==> var (s, a) := Step(old(store), Op.SetIfAbsent(keyPrefix + key, value, ttlSec), now);
                            store == s && r.Returned? && a == Claimed(r.value)
      ensures r == Returned(true) ==>
                && keyPrefix + key in store && store[keyPrefix + key].value == value
                && forall later :: now <= later ==> (keyPrefix + key in LiveView(store, later) <==> StillThere(ttlSec, now, later))
    {
      if key == "" {
        return Threw("cache.setIfAbsent requires a non-empty key");
      }
      var fullKey := keyPrefix + key;
      PurgeIfExpired(fullKey, now);
      if fullKey in store {
        return Returned(false);
      }
      store := store[fullKey := Entry(value, ExpiryOf(ttlSec, now))];
      r := Returned(true);
    }

    /**
     * `made` is what the factory returns when it is called; `resumed` is whatever the other operations have
     * made of the store by `later`, when the wait for the factory is over.
     */
    method GetOrSet(key: string, made: Value, ttlSec: Option<int>, now: int, resumed: Store, later: int) returns (r: Value)
      modifies this
      ensures var (s, a) := Step(old(store), Op.Probe(keyPrefix + key), now);
              && (a.Got? ==> store == s && r == a.value)
              && (a.Missed? ==> (store, Got(r)) == Step(resumed, Op.Fill(keyPrefix + key, made, ttlSec), later))
    {
      var fullKey := keyPrefix + key;
      PurgeIfExpired(fullKey, now);
      if fullKey in store {
        return store[fullKey].value;
      }
      // await fn()
      store := resumed;
      r := made;
      if made.Null? {
        return;
      }
      store := store[fullKey := Entry(made, ExpiryOf(ttlSec, later))];
    }

    method DelByPrefix(prefix: string) returns (r: Result<nat>)
      modifies this
      ensures prefix == "" ==> r.Threw? && store == old(store)
      ensures prefix != "" ==> var (s, a) := Step(old(store), Op.DelByPrefix(keyPrefix + prefix), 0);
                               store == s && r.Returned? && a == Removed(r.value)
    {
      if prefix == "" {
        return Threw("cache.delByPrefix requires a non-empty prefix");
      }
      var fullPrefix := keyPrefix + prefix;
      var removed := 0;
      var keys := store.Keys;
      ghost var gone: set<string> := {};
      while keys != {}
        invariant keys <= store.Keys && store == old(store) - gone && gone <= old(store).Keys
        invariant forall k :: k in gone ==> fullPrefix <= k
        invariant forall k :: k in store && k !in keys ==> !(fullPrefix <= k)
        invariant removed == |gone|
        decreases |keys|
      {
        var fullKey :| fullKey in keys;
        keys := keys - {fullKey};
        if fullPrefix <= fullKey {
          gone := gone + {fullKey};
          store := store - {fullKey};
          removed := removed + 1;
        }
      }
      RemovedAre(old(store), store, fullPrefix, gone);
      r := Returned(removed);
    }

    method FlushAll()
      modifies this
      ensures store == map[]
    {
      store := map[];
    }
  }
}
