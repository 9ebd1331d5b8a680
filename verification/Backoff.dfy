/** Background reconnect with capped exponential backoff. */
module Backoff {
  import opened Common

  /** One round of the loop: what the abort signal says before the wait, after it, and what the attempt answers. */
  datatype Round = Round(abortedBefore: bool, abortedAfter: bool, connected: bool)

  /** `Pending`: still trying when the observed rounds end. */
  datatype Ending = Connected | Aborted | Pending

  function Pow2(k: nat): nat {
    if k == 0 then 1 else 2 * Pow2(k - 1)
  }

  /** The k-th wait, in closed form. */
  function Wait(initialDelayMs: int, maxDelayMs: int, k: nat): int {
    if k == 0 then Max(1, initialDelayMs)
    else Min(Pow2(k) * Max(1, initialDelayMs), Max(1, maxDelayMs))
  }

  lemma {:induction false} Pow2Positive(k: nat)
    ensures Pow2(k) >= 1
  {
    if k > 0 { Pow2Positive(k - 1); }
  }

  /** Doubling and capping the previous wait gives the next one. */
  lemma NextWait(initialDelayMs: int, maxDelayMs: int, k: nat)
    ensures Wait(initialDelayMs, maxDelayMs, k + 1) == Min(Wait(initialDelayMs, maxDelayMs, k) * 2, Max(1, maxDelayMs))
  {
    var d := Max(1, initialDelayMs);
    assert Pow2(k + 1) * d == 2 * (Pow2(k) * d);
    Pow2Positive(k);
  }

  /** Does round `r` end the loop? */
  predicate Ends(r: Round) { r.abortedBefore || r.abortedAfter || r.connected }

  /** The loop ended in round `n`, the first that ends it: with true only after a successful attempt, else after an abort. */
  predicate EndedIn(rounds: seq<Round>, n: int, ending: Ending, waits: nat) {
    && 0 <= n < |rounds| && Ends(rounds[n])
    && (forall k :: 0 <= k < n ==> !Ends(rounds[k]))
    && waits == (if rounds[n].abortedBefore then n else n + 1)
    && (ending.Connected? <==> !rounds[n].abortedBefore && !rounds[n].abortedAfter && rounds[n].connected)
  }

  /** The first wait is at least 1 ms and not capped; each later one is twice the one before, or the cap. */
  predicate DoublesUpTo(initialDelayMs: int, maxDelayMs: int, waits: seq<int>) {
    && (waits != [] ==> waits[0] == if initialDelayMs < 1 then 1 else initialDelayMs)
    && forall k :: 0 < k < |waits| ==>
         waits[k] == if 2 * waits[k - 1] < maxDelayMs then 2 * waits[k - 1] else if maxDelayMs < 1 then 1 else maxDelayMs
  }

  lemma WaitsDouble(initialDelayMs: int, maxDelayMs: int, waits: seq<int>)
    requires forall k :: 0 <= k < |waits| ==> waits[k] == Wait(initialDelayMs, maxDelayMs, k)
    ensures DoublesUpTo(initialDelayMs, maxDelayMs, waits)
  {
    forall k | 0 < k < |waits|
      ensures waits[k] == if 2 * waits[k - 1] < maxDelayMs then 2 * waits[k - 1] else if maxDelayMs < 1 then 1 else maxDelayMs
    {
      WaitIsPositive(initialDelayMs, maxDelayMs, k - 1);
      NextWait(initialDelayMs, maxDelayMs, k - 1);
      assert waits[k - 1] == Wait(initialDelayMs, maxDelayMs, k - 1);
    }
  }

  lemma WaitIsPositive(initialDelayMs: int, maxDelayMs: int, k: nat)
    ensures Wait(initialDelayMs, maxDelayMs, k) >= 1
  {
    Pow2Positive(k);
    assert Pow2(k) * Max(1, initialDelayMs) >= 1;
  }

  method ReconnectUntilConnected(initialDelayMs: int, maxDelayMs: int, rounds: seq<Round>)
    returns (ending: Ending, waits: seq<int>)
    ensures forall k :: 0 <= k < |waits| ==> waits[k] == Wait(initialDelayMs, maxDelayMs, k)
    ensures DoublesUpTo(initialDelayMs, maxDelayMs, waits)
    ensures ending.Pending? <==> forall k :: 0 <= k < |rounds| ==> !Ends(rounds[k])
    ensures ending.Pending? ==> |waits| == |rounds|
    ensures !ending.Pending? ==> exists n :: EndedIn(rounds, n, ending, |waits|)
  {
    waits := [];
    var delay := Max(1, initialDelayMs);
    var n := 0;
    while n < |rounds|
      invariant 0 <= n <= |rounds|
      invariant |waits| == n && delay == Wait(initialDelayMs, maxDelayMs, n)
      invariant forall k :: 0 <= k < n ==> waits[k] == Wait(initialDelayMs, maxDelayMs, k)
      invariant forall k :: 0 <= k < n ==> !Ends(rounds[k])
    {
      if rounds[n].abortedBefore {
        assert EndedIn(rounds, n, Aborted, |waits|);
        WaitsDouble(initialDelayMs, maxDelayMs, waits);
        return Aborted, waits;
      }
      waits := waits + [delay];
      if rounds[n].abortedAfter {
        assert EndedIn(rounds, n, Aborted, |waits|);
        WaitsDouble(initialDelayMs, maxDelayMs, waits);
        return Aborted, waits;
      }
      if rounds[n].connected {
        assert EndedIn(rounds, n, Connected, |waits|);
        WaitsDouble(initialDelayMs, maxDelayMs, waits);
        return Connected, waits;
      }
      NextWait(initialDelayMs, maxDelayMs, n);
      delay := Min(delay * 2, Max(1, maxDelayMs));
      n := n + 1;
    }
    WaitsDouble(initialDelayMs, maxDelayMs, waits);
    ending := Pending;
  }

  lemma {:induction false} LaterWaitsGrow(initialDelayMs: int, maxDelayMs: int, j: nat, k: nat)
    requires 1 <= j <= k
    ensures Wait(initialDelayMs, maxDelayMs, j) <= Wait(initialDelayMs, maxDelayMs, k)
    decreases k
  {
    if j < k {
      LaterWaitsGrow(initialDelayMs, maxDelayMs, j, k - 1);
      NextWait(initialDelayMs, maxDelayMs, k - 1);
    }
  }

  /** The waits never shrink exactly when the first one is within the cap; they are always at least 1 ms and, after it, within the cap. */
  lemma WaitsNeverShrinkIff(initialDelayMs: int, maxDelayMs: int)
    ensures (forall j: nat, k: nat :: j <= k ==> Wait(initialDelayMs, maxDelayMs, j) <= Wait(initialDelayMs, maxDelayMs, k))
            <==> Max(1, initialDelayMs) <= Max(1, maxDelayMs)
    ensures forall k: nat :: 1 <= Wait(initialDelayMs, maxDelayMs, k) <= Max(Max(1, initialDelayMs), Max(1, maxDelayMs))
  {
    var d, cap := Max(1, initialDelayMs), Max(1, maxDelayMs);
    NextWait(initialDelayMs, maxDelayMs, 0);
    if d <= cap {
      forall j: nat, k: nat | j <= k ensures Wait(initialDelayMs, maxDelayMs, j) <= Wait(initialDelayMs, maxDelayMs, k) {
        if 1 <= k {
          LaterWaitsGrow(initialDelayMs, maxDelayMs, Max(1, j), k);
        }
      }
    } else {
      assert Wait(initialDelayMs, maxDelayMs, 1) < Wait(initialDelayMs, maxDelayMs, 0);
    }
    forall k: nat ensures 1 <= Wait(initialDelayMs, maxDelayMs, k) <= Max(d, cap) {
      Pow2Positive(k);
      assert Pow2(k) * d >= 1;
    }
  }
}
