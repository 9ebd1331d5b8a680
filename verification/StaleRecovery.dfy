/**
 * One pass of the stale-sync reaper over its candidates: what each awaited call
 * answered decides a candidate's fate and the counters the job run stores.
 */
module StaleRecovery {
  import opened Common

  const INTERRUPTED_MESSAGE := "The sync was interrupted before it finished"

  /** Providers whose data can be pulled again without the original message. */
  predicate Replayable(provider: string) { provider == "mongodb" }

  function InterruptedReason(active: bool, replay: bool, provider: string): string {
    if !active then "Sync stopped: the workspace is not active"
    else if replay then INTERRUPTED_MESSAGE + "; it was queued again"
    else if Replayable(provider) then INTERRUPTED_MESSAGE + "; start a new sync"
    else if provider == "webhook" then INTERRUPTED_MESSAGE + "; events not stored will need to be sent again"
    else INTERRUPTED_MESSAGE + "; upload the file again"
  }

  /** The stored text says that the sync was queued again. */
  predicate Announces(reason: string) { reason == INTERRUPTED_MESSAGE + "; it was queued again" }

  /** The text speaks of a new attempt exactly when one is planned. */
  lemma ReasonAnnouncesRequeue(active: bool, replay: bool, provider: string)
    ensures Announces(InterruptedReason(active, replay, provider)) <==> active && replay
  {
    var reason, queued := InterruptedReason(active, replay, provider), "; it was queued again";
    var n := |INTERRUPTED_MESSAGE|;
    assert (INTERRUPTED_MESSAGE + queued)[0] == 'T' && (INTERRUPTED_MESSAGE + queued)[n + 2] == queued[2] == 'i';
    if !active {
      assert reason[0] == 'S';
    } else if !replay {
      var tail := if Replayable(provider) then "; start a new sync"
                  else if provider == "webhook" then "; events not stored will need to be sent again"
                  else "; upload the file again";
      assert reason == INTERRUPTED_MESSAGE + tail && reason[n + 2] == tail[2] != 'i';
    }
  }

  datatype ResetReply = Reset | Refused | ResetThrew
  datatype CloseReply = Closed | AlreadyClosed | CloseThrew

  /** An open sync run of a candidate, newest first, and what closing it answered. */
  datatype OpenRun = OpenRun(recoveryAttempt: nat, close: CloseReply)

  /** What the awaited calls answer for one candidate; None where a lookup throws. */
  datatype Trial = Trial(provider: string, openRuns: Option<seq<OpenRun>>, active: Option<bool>,
                         reset: ResetReply, requeueThrows: bool)

  datatype Counts = Counts(scanned: nat, recovered: nat, requeued: nat, failed: nat, syncRunsAbandoned: nat)

  datatype Fate = LookupFailed | NotReset | CloseFailed | NotReplayed | RequeueFailed | Requeued

  function Attempt(runs: seq<OpenRun>): nat {
    1 + if runs == [] then 0 else runs[0].recoveryAttempt
  }

  predicate Replays(t: Trial, maxRecoveries: nat)
    requires t.openRuns.Some? && t.active.Some?
  {
    t.active.value && Replayable(t.provider) && Attempt(t.openRuns.value) <= maxRecoveries
  }

  predicate SomeCloseThrows(runs: seq<OpenRun>) {
    exists k :: 0 <= k < |runs| && runs[k].close.CloseThrew?
  }

  function FateOf(t: Trial, maxRecoveries: nat): Fate {
    if t.openRuns.None? || t.active.None? || t.reset.ResetThrew? then LookupFailed
    else if t.reset.Refused? then NotReset
    else if SomeCloseThrows(t.openRuns.value) then CloseFailed
    else if !Replays(t, maxRecoveries) then NotReplayed
    else if t.requeueThrows then RequeueFailed
    else Requeued
  }

  /** The reason that the reset of a candidate stores. */
  function StoredReason(t: Trial, maxRecoveries: nat): string
    requires t.openRuns.Some? && t.active.Some?
  {
    InterruptedReason(t.active.value, Replays(t, maxRecoveries), t.provider)
  }

  /**
   * What the user of a candidate that was reset is told: a sync that is queued again is always announced, and a new
   * attempt is announced that is never made exactly when closing a run or the re-queue itself then fails.
   */
  lemma AnnouncedButNotRequeuedIff(t: Trial, maxRecoveries: nat)
    requires t.openRuns.Some? && t.active.Some? && t.reset.Reset?
    ensures FateOf(t, maxRecoveries).Requeued? ==> Announces(StoredReason(t, maxRecoveries))
    ensures Announces(StoredReason(t, maxRecoveries)) && !FateOf(t, maxRecoveries).Requeued?
            <==> Replays(t, maxRecoveries) && (SomeCloseThrows(t.openRuns.value) || t.requeueThrows)
  {
    ReasonAnnouncesRequeue(t.active.value, Replays(t, maxRecoveries), t.provider);
  }

  /** How many candidates of a list meet a fate in `fates`. */
  function Tally(trials: seq<Trial>, maxRecoveries: nat, fates: set<Fate>): (n: nat)
    ensures n <= |trials|
  {
    if trials == [] then 0
    else Tally(trials[..|trials| - 1], maxRecoveries, fates)
         + if FateOf(trials[|trials| - 1], maxRecoveries) in fates then 1 else 0
  }

  /** Runs marked abandoned before the first close that throws. */
  function Abandoned(runs: seq<OpenRun>): (n: nat)
    ensures n <= |runs|
  {
    if runs == [] || runs[0].close.CloseThrew? then 0
    else (if runs[0].close.Closed? then 1 else 0) + Abandoned(runs[1..])
  }

  /** Runs abandoned over a list of candidates: those of the candidates that were reset. */
  function TotalAbandoned(trials: seq<Trial>, maxRecoveries: nat): nat {
    if trials == [] then 0
    else
      var last := trials[|trials| - 1];
      TotalAbandoned(trials[..|trials| - 1], maxRecoveries)
      + if FateOf(last, maxRecoveries) in {LookupFailed, NotReset} then 0 else Abandoned(last.openRuns.value)
  }

  /** The closes answer up to the `n`-th, which throws if there is one. */
  predicate AnswersUpTo(runs: seq<OpenRun>, n: nat) {
    && n <= |runs| && (n < |runs| ==> runs[n].close == CloseThrew)
    && forall k :: 0 <= k < n ==> runs[k].close != CloseThrew
  }

  lemma {:induction false} AbandonedGrows(runs: seq<OpenRun>, n: nat)
    requires 0 < n <= |runs| && forall k :: 0 <= k < n ==> runs[k].close != CloseThrew
    ensures Abandoned(runs[..n]) == Abandoned(runs[..n - 1]) + if runs[n - 1].close == Closed then 1 else 0
    decreases n
  {
    assert runs[..n][1..] == runs[1..][..n - 1];
    if n > 1 {
      assert runs[..n - 1][1..] == runs[1..][..n - 2];
      AbandonedGrows(runs[1..], n - 1);
    }
  }

  lemma {:induction false} AbandonedStops(runs: seq<OpenRun>, n: nat)
    requires AnswersUpTo(runs, n)
    ensures Abandoned(runs) == Abandoned(runs[..n])
    decreases n
  {
    if n == |runs| {
      assert runs[..n] == runs;
    } else if n > 0 {
      assert runs[..n][1..] == runs[1..][..n - 1];
      AbandonedStops(runs[1..], n - 1);
    }
  }

  /** What is counted as abandoned: the runs that were still open, up to the first close that throws. */
  lemma {:induction false} AbandonedAre(runs: seq<OpenRun>, n: nat, m: nat)
    requires AnswersUpTo(runs, n) && m <= n
    ensures Abandoned(runs[..m]) == |set k | 0 <= k < m && runs[k].close == Closed|
    ensures Abandoned(runs) == Abandoned(runs[..n])
    decreases m
  {
    AbandonedStops(runs, n);
    if m > 0 {
      AbandonedAre(runs, n, m - 1);
      AbandonedGrows(runs, m);
      var fewer, all := set k | 0 <= k < m - 1 && runs[k].close == Closed, set k | 0 <= k < m && runs[k].close == Closed;
      assert all == if runs[m - 1].close == Closed then fewer + {m - 1} else fewer;
    }
  }

  // ----- The same, counted on what the calls answered. -----

  function Count(trials: seq<Trial>, p: Trial -> bool): nat {
    if trials == [] then 0
    else Count(trials[..|trials| - 1], p) + if p(trials[|trials| - 1]) then 1 else 0
  }

  lemma {:induction false} TallyCounts(trials: seq<Trial>, maxRecoveries: nat, fates: set<Fate>, p: Trial -> bool)
    requires forall t :: p(t) <==> FateOf(t, maxRecoveries) in fates
    ensures Tally(trials, maxRecoveries, fates) == Count(trials, p)
  {
    if trials != [] {
      TallyCounts(trials[..|trials| - 1], maxRecoveries, fates, p);
    }
  }

  /** A lookup or the reset itself threw. */
  predicate NeverKnown(t: Trial) { t.openRuns.None? || t.active.None? || t.reset == ResetThrew }

  /** The conditional reset found the sync renewed, finished or taken by another reaper. */
  predicate WasRefused(t: Trial) { t.openRuns.Some? && t.active.Some? && t.reset == Refused }

  /** The reset took the slot. */
  predicate WasReset(t: Trial) { t.openRuns.Some? && t.active.Some? && t.reset == Reset }

  /** Every run closed, a replay within the budget, and the re-queue went through. */
  predicate WasRequeued(t: Trial, maxRecoveries: nat) {
    && WasReset(t)
    && t.active.value && t.provider == "mongodb" && !t.requeueThrows
    && (forall k :: 0 <= k < |t.openRuns.value| ==> t.openRuns.value[k].close != CloseThrew)
    && (t.openRuns.value == [] ==> maxRecoveries >= 1)
    && (t.openRuns.value != [] ==> t.openRuns.value[0].recoveryAttempt < maxRecoveries)
  }

  /** The runs abandoned over a list of candidates: those closed for each one that was reset, even if a later close throws. */
  function ClosedRuns(trials: seq<Trial>): nat {
    if trials == [] then 0
    else
      var last := trials[|trials| - 1];
      ClosedRuns(trials[..|trials| - 1]) + if WasReset(last) then Abandoned(last.openRuns.value) else 0
  }

  lemma {:induction false} TotalIsClosedRuns(trials: seq<Trial>, maxRecoveries: nat)
    ensures TotalAbandoned(trials, maxRecoveries) == ClosedRuns(trials)
  {
    if trials != [] {
      TotalIsClosedRuns(trials[..|trials| - 1], maxRecoveries);
    }
  }

  /** The counters of a pass, candidate by candidate. */
  lemma CountersAre(trials: seq<Trial>, maxRecoveries: nat)
    ensures Tally(trials, maxRecoveries, {Requeued}) == Count(trials, t => WasRequeued(t, maxRecoveries))
    ensures Tally(trials, maxRecoveries, {LookupFailed, CloseFailed, NotReplayed, RequeueFailed})
            == Count(trials, t => NeverKnown(t) || (WasReset(t) && !WasRequeued(t, maxRecoveries)))
    ensures Tally(trials, maxRecoveries, {CloseFailed, NotReplayed, RequeueFailed, Requeued}) == Count(trials, t => WasReset(t))
    ensures Tally(trials, maxRecoveries, {NotReset}) == Count(trials, t => WasRefused(t))
  {
    TallyCounts(trials, maxRecoveries, {Requeued}, t => WasRequeued(t, maxRecoveries));
    TallyCounts(trials, maxRecoveries, {LookupFailed, CloseFailed, NotReplayed, RequeueFailed},
                t => NeverKnown(t) || (WasReset(t) && !WasRequeued(t, maxRecoveries)));
    TallyCounts(trials, maxRecoveries, {CloseFailed, NotReplayed, RequeueFailed, Requeued}, t => WasReset(t));
    TallyCounts(trials, maxRecoveries, {NotReset}, t => WasRefused(t));
  }

  method CloseRuns(runs: seq<OpenRun>) returns (closed: nat, threw: bool)
    ensures closed == Abandoned(runs)
    ensures threw == SomeCloseThrows(runs)
  {
    closed, threw := 0, false;
    var i := 0;
    while i < |runs|
      invariant 0 <= i <= |runs|
      invariant closed + Abandoned(runs[i..]) == Abandoned(runs)
      invariant !SomeCloseThrows(runs[..i])
    {
      assert runs[i..][0] == runs[i] && runs[i..][1..] == runs[i + 1..];
      if runs[i].close.CloseThrew? {
        threw := true;
        return;
      }
      if runs[i].close.Closed? {
        closed := closed + 1;
      }
      i := i + 1;
    }
    assert runs[..i] == runs && runs[i..] == [];
  }

  /** One pass. `trials` are the stale connectors found, in order, with what each call answered. */
  method RecoverStaleConnectors(trials: seq<Trial>, maxRecoveries: nat) returns (counts: Counts)
    ensures counts.scanned == |trials|
    ensures counts.requeued == Tally(trials, maxRecoveries, {Requeued})
    ensures counts.failed == Tally(trials, maxRecoveries, {LookupFailed, CloseFailed, NotReplayed, RequeueFailed})
    ensures counts.recovered == Tally(trials, maxRecoveries, {CloseFailed, NotReplayed, RequeueFailed, Requeued})
    ensures counts.syncRunsAbandoned == TotalAbandoned(trials, maxRecoveries)
    ensures counts.scanned == counts.requeued + counts.failed + Tally(trials, maxRecoveries, {NotReset})
    ensures counts.recovered <= counts.requeued + counts.failed
    // The same counters, on the lookups and the resets themselves.
    ensures counts.requeued == Count(trials, t => WasRequeued(t, maxRecoveries))
    ensures counts.failed == Count(trials, t => NeverKnown(t) || (WasReset(t) && !WasRequeued(t, maxRecoveries)))
    ensures counts.recovered == Count(trials, t => WasReset(t))
    ensures counts.scanned == counts.requeued + counts.failed + Count(trials, t => WasRefused(t))
    ensures counts.syncRunsAbandoned == ClosedRuns(trials)
  {
    counts := Counts(|trials|, 0, 0, 0, 0);
    var i := 0;
    while i < |trials|
      invariant 0 <= i <= |trials|
      invariant counts.scanned == |trials|
      invariant counts.requeued == Tally(trials[..i], maxRecoveries, {Requeued})
      invariant counts.failed == Tally(trials[..i], maxRecoveries, {LookupFailed, CloseFailed, NotReplayed, RequeueFailed})
      invariant counts.recovered == Tally(trials[..i], maxRecoveries, {CloseFailed, NotReplayed, RequeueFailed, Requeued})
      invariant counts.syncRunsAbandoned == TotalAbandoned(trials[..i], maxRecoveries)
    {
      var t := trials[i];
      assert trials[..i + 1][..i] == trials[..i] && trials[..i + 1][i] == t;
      i := i + 1;
      if t.openRuns.None? || t.active.None? || t.reset.ResetThrew? {
        counts := counts.(failed := counts.failed + 1);
        continue;
      }
      var recoveryAttempt := (if t.openRuns.value == [] then 0 else t.openRuns.value[0].recoveryAttempt) + 1;
      var replay := t.active.value && Replayable(t.provider) && recoveryAttempt <= maxRecoveries;
      if t.reset.Refused? {
        continue;
      }
      counts := counts.(recovered := counts.recovered + 1);
      var closed, threw := CloseRuns(t.openRuns.value);
      counts := counts.(syncRunsAbandoned := counts.syncRunsAbandoned + closed);
      if threw || !replay || t.requeueThrows {
        counts := counts.(failed := counts.failed + 1);
      } else {
        counts := counts.(requeued := counts.requeued + 1);
      }
    }
    assert trials[..i] == trials;
    ReaperConserves(trials, maxRecoveries);
    CountersAre(trials, maxRecoveries);
    TotalIsClosedRuns(trials, maxRecoveries);
  }

  /** Disjoint fates are counted separately. */
  lemma {:induction false} TallySplits(trials: seq<Trial>, maxRecoveries: nat, a: set<Fate>, b: set<Fate>)
    requires a !! b
    ensures Tally(trials, maxRecoveries, a + b) == Tally(trials, maxRecoveries, a) + Tally(trials, maxRecoveries, b)
  {
    if trials != [] {
      TallySplits(trials[..|trials| - 1], maxRecoveries, a, b);
    }
  }

  lemma {:induction false} EveryFateCounts(trials: seq<Trial>, maxRecoveries: nat)
    ensures Tally(trials, maxRecoveries, {LookupFailed, NotReset, CloseFailed, NotReplayed, RequeueFailed, Requeued}) == |trials|
  {
    if trials != [] {
      EveryFateCounts(trials[..|trials| - 1], maxRecoveries);
    }
  }

  /**
   * Conservation, for every pattern of failures: each candidate is re-queued, failed, or was
   * refused by the conditional reset; what was recovered and not re-queued has failed.
   */
  lemma ReaperConserves(trials: seq<Trial>, maxRecoveries: nat)
    ensures var requeued := Tally(trials, maxRecoveries, {Requeued});
            var failed := Tally(trials, maxRecoveries, {LookupFailed, CloseFailed, NotReplayed, RequeueFailed});
            var recovered := Tally(trials, maxRecoveries, {CloseFailed, NotReplayed, RequeueFailed, Requeued});
            && |trials| == requeued + failed + Tally(trials, maxRecoveries, {NotReset})
            && requeued + failed == recovered + Tally(trials, maxRecoveries, {LookupFailed})
  {
    var afterReset := {CloseFailed, NotReplayed, RequeueFailed};
    EveryFateCounts(trials, maxRecoveries);
    TallySplits(trials, maxRecoveries, {LookupFailed}, afterReset);
    assert {LookupFailed} + afterReset == {LookupFailed, CloseFailed, NotReplayed, RequeueFailed};
    TallySplits(trials, maxRecoveries, afterReset, {Requeued});
    assert afterReset + {Requeued} == {CloseFailed, NotReplayed, RequeueFailed, Requeued};
    TallySplits(trials, maxRecoveries, {LookupFailed} + afterReset, {Requeued});
    TallySplits(trials, maxRecoveries, {LookupFailed} + afterReset + {Requeued}, {NotReset});
    assert {LookupFailed} + afterReset + {Requeued} + {NotReset}
        == {LookupFailed, NotReset, CloseFailed, NotReplayed, RequeueFailed, Requeued};
  }
}
