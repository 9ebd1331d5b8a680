/** Graceful shutdown: steps in order, each within its own budget and the overall deadline. */
module Shutdown {
  import opened Common

  /** A step; `margin` is what a draining step keeps back from its budget for closing connections. */
  datatype StepSpec = StepSpec(name: string, timeoutMs: Option<int>, always: bool, margin: Option<nat>)

  /** How a step's `run` behaves: when it settles (if ever) and whether it then throws. */
  datatype Behaviour = Behaviour(settlesAfter: Option<nat>, throws: bool)

  datatype Status = Ok | TimedOut | Errored | Skipped

  /** A step's entry in the report, with the budget and drain time it was granted. */
  datatype StepResult = StepResult(name: string, status: Status, durationMs: nat, startedAt: int, budget: int, drain: Option<int>)

  function AlwaysBudget(steps: seq<StepSpec>): nat {
    if steps == [] then 0
    else
      var last := steps[|steps| - 1];
      AlwaysBudget(steps[..|steps| - 1])
      + if last.always then Max(1, if last.timeoutMs.Some? then last.timeoutMs.value else 1000) else 0
  }

  /** The budget shared by the drains: its deadline is fixed by the first step that asks. */
  class DrainBudget {
    const drainTimeoutMs: int
    var drainDeadline: Option<int>

    constructor (drainTimeoutMs: int)
      ensures this.drainTimeoutMs == drainTimeoutMs && drainDeadline == None
    {
      this.drainTimeoutMs := drainTimeoutMs;
      drainDeadline := None;
    }

    method Grant(stepBudget: int, now: int) returns (ms: int)
      modifies this
      ensures drainDeadline == Some(if old(drainDeadline).Some? then old(drainDeadline).value else now + drainTimeoutMs)
      ensures 0 <= ms <= Max(0, stepBudget)
      ensures ms == 0 || now + ms <= drainDeadline.value
      ensures ms == Max(0, stepBudget) || ms == Max(0, drainDeadline.value - now)
    {
      if drainDeadline.None? {
        drainDeadline := Some(now + drainTimeoutMs);
      }
      ms := Max(0, Min(drainDeadline.value - now, stepBudget));
    }
  }

  function StatusOf(b: Behaviour, budget: int): Status {
    if b.settlesAfter.None? || budget < b.settlesAfter.value then TimedOut
    else if b.throws then Errored
    else Ok
  }

  predicate InTime(b: Behaviour, budget: int) {
    b.settlesAfter.Some? && b.settlesAfter.value <= budget
  }

  /** The budget of a step that starts `remaining` milliseconds before the deadline. */
  function BudgetOf(step: StepSpec, remaining: int): int {
    if remaining <= 0 then Max(1, if step.timeoutMs.Some? then step.timeoutMs.value else 1000)
    else Max(1, Min(if step.timeoutMs.Some? then step.timeoutMs.value else remaining, remaining))
  }

  /**
   * What a step's entry must say: it is skipped exactly when the deadline has passed and it is not an
   * `always` step; otherwise it ends with what its `run` did in time, or at its budget, which does not
   * reach past a deadline still ahead; a draining step keeps its margin.
   */
  ghost predicate Reported(step: StepSpec, b: Behaviour, deadline: int, r: StepResult) {
    && r.name == step.name
    && (r.status.Skipped? <==> !step.always && deadline <= r.startedAt)
    && (if r.status.Skipped? then r.durationMs == 0 && r.drain.None?
        else
          && r.budget == BudgetOf(step, deadline - r.startedAt) && 1 <= r.budget
          && (r.startedAt < deadline ==> r.startedAt + r.budget <= deadline)
          && r.status == StatusOf(b, r.budget)
          && r.durationMs == (if InTime(b, r.budget) then b.settlesAfter.value else r.budget)
          && (r.drain.Some? <==> step.margin.Some?)
          && (r.drain.Some? ==> 0 <= r.drain.value <= Max(0, r.budget - step.margin.value)))
  }

  /** The steps run back to back, the first at `from`, the last over at `to`. */
  ghost predicate BackToBack(results: seq<StepResult>, from: int, to: int) {
    if results == [] then from == to
    else
      var last := results[|results| - 1];
      last.startedAt + last.durationMs == to && BackToBack(results[..|results| - 1], from, last.startedAt)
  }

  /** `r`'s drain ends by `end`, unless it got none. */
  predicate DrainsBy(r: StepResult, end: int) {
    r.drain.Some? ==> r.drain.value == 0 || r.startedAt + r.drain.value <= end
  }

  /** Drains share one budget: none reaches past the end of the budget of any drain before it. */
  ghost predicate DrainsShared(results: seq<StepResult>, drainTimeoutMs: int) {
    forall i, j :: 0 <= i <= j < |results| && results[i].drain.Some? ==>
      DrainsBy(results[j], results[i].startedAt + drainTimeoutMs)
  }

  /** With the drain deadline fixed at `end`, every drain so far started after it was fixed and ends by it. */
  ghost predicate DrainsEndBy(results: seq<StepResult>, drainTimeoutMs: int, end: Option<int>) {
    forall i :: 0 <= i < |results| && results[i].drain.Some? ==>
      end.Some? && end.value <= results[i].startedAt + drainTimeoutMs && DrainsBy(results[i], end.value)
  }

  lemma DrainsEndTogether(results: seq<StepResult>, drainTimeoutMs: int, end: Option<int>)
    requires DrainsEndBy(results, drainTimeoutMs, end)
    ensures DrainsShared(results, drainTimeoutMs)
  {
  }

  lemma OneMoreStep(steps: seq<StepSpec>, i: nat)
    requires i < |steps|
    ensures AlwaysBudget(steps[..i + 1]) == AlwaysBudget(steps[..i]) + AlwaysBudget([steps[i]])
  {
    assert steps[..i + 1][..i] == steps[..i];
    assert [steps[i]][..0] == [];
  }

  lemma OneMoreResult(results: seq<StepResult>, r: StepResult, from: int)
    requires BackToBack(results, from, r.startedAt)
    ensures BackToBack(results + [r], from, r.startedAt + r.durationMs)
  {
    assert (results + [r])[..|results|] == results;
  }

  /** Each step run so far has its entry. */
  ghost predicate AllReported(steps: seq<StepSpec>, behaviours: seq<Behaviour>, deadline: int, results: seq<StepResult>)
    requires |results| <= |steps| && |behaviours| == |steps|
  {
    forall i :: 0 <= i < |results| ==> Reported(steps[i], behaviours[i], deadline, results[i])
  }

  lemma OneMoreReport(steps: seq<StepSpec>, behaviours: seq<Behaviour>, deadline: int, results: seq<StepResult>, r: StepResult)
    requires |results| < |steps| && |behaviours| == |steps| && AllReported(steps, behaviours, deadline, results)
    requires Reported(steps[|results|], behaviours[|results|], deadline, r)
    ensures AllReported(steps, behaviours, deadline, results + [r])
  {
  }

  lemma OneMoreDrain(results: seq<StepResult>, r: StepResult, drainTimeoutMs: int, before: Option<int>, end: Option<int>)
    requires DrainsEndBy(results, drainTimeoutMs, before) && (before.Some? ==> end == before)
    requires r.drain.Some? ==> end.Some? && end.value <= r.startedAt + drainTimeoutMs && DrainsBy(r, end.value)
    ensures DrainsEndBy(results + [r], drainTimeoutMs, end)
  {
  }

  /** One step, started at `now`. */
  method RunStep(step: StepSpec, b: Behaviour, deadline: int, now: int, drain: DrainBudget) returns (r: StepResult)
    modifies drain
    ensures Reported(step, b, deadline, r) && r.startedAt == now
    ensures now + r.durationMs <= Max(now, deadline) + AlwaysBudget([step])
    ensures old(drain.drainDeadline).Some? ==> drain.drainDeadline == old(drain.drainDeadline)
    ensures r.drain.Some? ==>
              && drain.drainDeadline.Some? && DrainsBy(r, drain.drainDeadline.value)
              && (old(drain.drainDeadline).None? ==> drain.drainDeadline.value == now + drain.drainTimeoutMs)
    ensures r.drain.None? ==> drain.drainDeadline == old(drain.drainDeadline)
  {
    assert [step][..0] == [];
    var remaining := deadline - now;
    if remaining <= 0 && !step.always {
      return StepResult(step.name, Skipped, 0, now, 0, None);
    }
    var budget := BudgetOf(step, remaining);
    var granted: Option<int> := None;
    if step.margin.Some? {
      var ms := drain.Grant(budget - step.margin.value, now);
      granted := Some(ms);
    }
    var elapsed := if InTime(b, budget) then b.settlesAfter.value else budget;
    r := StepResult(step.name, StatusOf(b, budget), elapsed, now, budget, granted);
  }

  /**
   * How long a step may take: never longer than its own timeout or the time left to the deadline, whichever is shorter,
   * and one that does not settle is cut off exactly there; after the deadline, an `always` step has its own timeout, or
   * one second. No step gets less than a millisecond.
   */
  lemma StepIsCutOff(steps: seq<StepSpec>, behaviours: seq<Behaviour>, deadline: int, results: seq<StepResult>, i: nat)
    requires |results| <= |steps| && |behaviours| == |steps| && AllReported(steps, behaviours, deadline, results) && i < |results|
    requires !results[i].status.Skipped?
    ensures var r, own, left := results[i], steps[i].timeoutMs, deadline - results[i].startedAt;
            && r.durationMs <= r.budget
            && (behaviours[i].settlesAfter.None? ==> r.status.TimedOut? && r.durationMs == r.budget)
            && (left > 0 && (own.None? || left <= own.value) ==> r.budget == left)
            && (left > 0 && own.Some? && 1 <= own.value <= left ==> r.budget == own.value)
            && (left <= 0 ==> steps[i].always)
            && (left <= 0 && own.None? ==> r.budget == 1000)
            && (left <= 0 && own.Some? && own.value >= 1 ==> r.budget == own.value)
            && (own.Some? && own.value < 1 ==> r.budget == 1)
    ensures behaviours[i].settlesAfter.Some? ==>
              var r, settles := results[i], behaviours[i].settlesAfter.value;
              && (settles <= r.budget ==> r.durationMs == settles && !r.status.TimedOut?)
              && (r.budget < settles ==> r.durationMs == r.budget && r.status.TimedOut?)
              && (r.status.Errored? <==> settles <= r.budget && behaviours[i].throws)
  {
    assert Reported(steps[i], behaviours[i], deadline, results[i]);
  }

  /** Runs every step in order; at most the `always` steps outlive the overall deadline, each within its own budget. */
  method RunShutdownSteps(steps: seq<StepSpec>, behaviours: seq<Behaviour>, timeoutMs: int, startedAt: int, drain: DrainBudget)
    returns (ok: bool, durationMs: int, results: seq<StepResult>)
    requires |behaviours| == |steps|
    requires drain.drainDeadline.None?
    modifies drain
    ensures |results| == |steps|
    ensures AllReported(steps, behaviours, startedAt + timeoutMs, results)
    ensures BackToBack(results, startedAt, startedAt + durationMs)
    ensures ok <==> forall i :: 0 <= i < |steps| ==> results[i].status.Ok?
    ensures 0 <= durationMs <= Max(0, timeoutMs) + AlwaysBudget(steps)
    ensures DrainsShared(results, drain.drainTimeoutMs)
  {
    var now := startedAt;
    var deadline := startedAt + timeoutMs;
    results := [];
    var i := 0;
    while i < |steps|
      invariant 0 <= i == |results| <= |steps|
      invariant startedAt <= now <= Max(startedAt, deadline) + AlwaysBudget(steps[..i])
      invariant AllReported(steps, behaviours, deadline, results)
      invariant BackToBack(results, startedAt, now)
      invariant DrainsEndBy(results, drain.drainTimeoutMs, drain.drainDeadline)
      invariant drain.drainDeadline.Some? ==> drain.drainDeadline.value <= now + drain.drainTimeoutMs
    {
      ghost var before := drain.drainDeadline;
      var r := RunStep(steps[i], behaviours[i], deadline, now, drain);
      OneMoreStep(steps, i);
      OneMoreReport(steps, behaviours, deadline, results, r);
      OneMoreResult(results, r, startedAt);
      OneMoreDrain(results, r, drain.drainTimeoutMs, before, drain.drainDeadline);
      results := results + [r];
      now := now + r.durationMs;
      i := i + 1;
    }
    assert steps[..i] == steps;
    DrainsEndTogether(results, drain.drainTimeoutMs, drain.drainDeadline);
    ok := forall k :: 0 <= k < |results| ==> results[k].status.Ok?;
    durationMs := now - startedAt;
  }

  // ----- The steps of a process. -----

  const SCHEDULER_MARGIN_MS := 50
  const QUEUES_MARGIN_MS := 500
  const FORCE_EXIT_GRACE_MS := 2000

  function Plain(name: string): StepSpec { StepSpec(name, Some(1000), false, None) }

  function When(condition: bool, step: StepSpec): seq<StepSpec> {
    if condition then [step] else []
  }

  /** The ordered steps; the flags say which optional resources the process owns. */
  function BuildShutdownSteps(server: bool, httpTimeoutMs: int, drainTimeoutMs: int,
                              socketAdapter: bool, rateLimitStore: bool, storage: bool): seq<StepSpec> {
    When(server, StepSpec("http", Some(httpTimeoutMs), false, None))
    + [StepSpec("scheduler", Some(drainTimeoutMs + 250), false, Some(SCHEDULER_MARGIN_MS)),
       StepSpec("queues", Some(drainTimeoutMs + 1500), false, Some(QUEUES_MARGIN_MS)),
       Plain("locks")]
    + When(socketAdapter, Plain("socket-adapter"))
    + When(rateLimitStore, Plain("rate-limit"))
    + [Plain("access-log"), Plain("cache"), Plain("mail")]
    + When(storage, Plain("storage"))
    + [StepSpec("database", Some(2000), true, None)]
  }

  lemma {:induction false} NoAlwaysNoBudget(steps: seq<StepSpec>)
    requires forall i :: 0 <= i < |steps| ==> !steps[i].always
    ensures AlwaysBudget(steps) == 0
  {
    if steps != [] {
      NoAlwaysNoBudget(steps[..|steps| - 1]);
    }
  }

  /** The database step is the last, and the only one that outlives the deadline. */
  predicate DatabaseLast(steps: seq<StepSpec>) {
    && steps != [] && steps[|steps| - 1] == StepSpec("database", Some(2000), true, None)
    && forall i :: 0 <= i < |steps| - 1 ==> !steps[i].always
  }

  predicate NoneAlways(steps: seq<StepSpec>) {
    forall i :: 0 <= i < |steps| ==> !steps[i].always
  }

  lemma NoneAlwaysConcat(a: seq<StepSpec>, b: seq<StepSpec>)
    requires NoneAlways(a) && NoneAlways(b)
    ensures NoneAlways(a + b)
  {
  }

  lemma BuiltDatabaseLast(server: bool, httpTimeoutMs: int, drainTimeoutMs: int,
                          socketAdapter: bool, rateLimitStore: bool, storage: bool)
    ensures DatabaseLast(BuildShutdownSteps(server, httpTimeoutMs, drainTimeoutMs, socketAdapter, rateLimitStore, storage))
  {
    var steps := When(server, StepSpec("http", Some(httpTimeoutMs), false, None));
    var drains := [StepSpec("scheduler", Some(drainTimeoutMs + 250), false, Some(SCHEDULER_MARGIN_MS)),
                   StepSpec("queues", Some(drainTimeoutMs + 1500), false, Some(QUEUES_MARGIN_MS)), Plain("locks")];
    NoneAlwaysConcat(steps, drains);
    NoneAlwaysConcat(steps + drains, When(socketAdapter, Plain("socket-adapter")));
    steps := steps + drains + When(socketAdapter, Plain("socket-adapter"));
    NoneAlwaysConcat(steps, When(rateLimitStore, Plain("rate-limit")));
    steps := steps + When(rateLimitStore, Plain("rate-limit"));
    NoneAlwaysConcat(steps, [Plain("access-log"), Plain("cache"), Plain("mail")]);
    steps := steps + [Plain("access-log"), Plain("cache"), Plain("mail")];
    NoneAlwaysConcat(steps, When(storage, Plain("storage")));
    steps := steps + When(storage, Plain("storage"));
    var all := steps + [StepSpec("database", Some(2000), true, None)];
    assert all == BuildShutdownSteps(server, httpTimeoutMs, drainTimeoutMs, socketAdapter, rateLimitStore, storage);
  }

  lemma DatabaseBudget(steps: seq<StepSpec>)
    requires DatabaseLast(steps)
    ensures AlwaysBudget(steps) == FORCE_EXIT_GRACE_MS
  {
    NoAlwaysNoBudget(steps[..|steps| - 1]);
  }

  /** What a full run may add to its timeout is exactly the force-exit grace. */
  lemma BuiltStepsFitForceExit(server: bool, httpTimeoutMs: int, drainTimeoutMs: int,
                               socketAdapter: bool, rateLimitStore: bool, storage: bool)
    ensures var steps := BuildShutdownSteps(server, httpTimeoutMs, drainTimeoutMs, socketAdapter, rateLimitStore, storage);
            AlwaysBudget(steps) == FORCE_EXIT_GRACE_MS && DatabaseLast(steps)
  {
    BuiltDatabaseLast(server, httpTimeoutMs, drainTimeoutMs, socketAdapter, rateLimitStore, storage);
    DatabaseBudget(BuildShutdownSteps(server, httpTimeoutMs, drainTimeoutMs, socketAdapter, rateLimitStore, storage));
  }

  /** Without `always` steps, the steps run so far end by the deadline. */
  lemma {:induction false} EndsByDeadline(steps: seq<StepSpec>, behaviours: seq<Behaviour>, deadline: int,
                                          results: seq<StepResult>, from: int, to: int)
    requires |results| <= |steps| && |behaviours| == |steps| && AllReported(steps, behaviours, deadline, results)
    requires BackToBack(results, from, to) && forall i :: 0 <= i < |results| ==> !steps[i].always
    ensures to <= Max(from, deadline)
  {
    if results != [] {
      var n := |results| - 1;
      assert Reported(steps[n], behaviours[n], deadline, results[n]);
      EndsByDeadline(steps, behaviours, deadline, results[..n], from, results[n].startedAt);
    }
  }

  lemma DatabaseAttempted(steps: seq<StepSpec>, behaviours: seq<Behaviour>, deadline: int,
                          results: seq<StepResult>, from: int, to: int)
    requires |results| == |behaviours| == |steps| && AllReported(steps, behaviours, deadline, results)
    requires BackToBack(results, from, to) && DatabaseLast(steps)
    ensures var last := results[|results| - 1];
            && last.name == "database" && !last.status.Skipped? && last.startedAt <= Max(from, deadline)
            && last.startedAt + last.durationMs == to
  {
    var n := |results| - 1;
    assert Reported(steps[n], behaviours[n], deadline, results[n]);
    EndsByDeadline(steps, behaviours, deadline, results[..n], from, results[n].startedAt);
  }

  /** What the entries of the two draining steps, the first at `s`, say. */
  ghost predicate DrainsKeepMargins(results: seq<StepResult>, drainTimeoutMs: int, s: nat) {
    && s + 1 < |results|
    && var scheduler, queues := results[s], results[s + 1];
       && scheduler.name == "scheduler" && queues.name == "queues"
       && (scheduler.drain.Some? ==> scheduler.drain.value <= Max(0, scheduler.budget - SCHEDULER_MARGIN_MS))
       && (queues.drain.Some? ==> queues.drain.value <= Max(0, queues.budget - QUEUES_MARGIN_MS))
       && (scheduler.drain.Some? ==> DrainsBy(queues, scheduler.startedAt + drainTimeoutMs))
  }

  /** The two draining steps stand at `s`. */
  predicate DrainStepsAt(steps: seq<StepSpec>, drainTimeoutMs: int, s: nat) {
    && s + 1 < |steps|
    && steps[s] == StepSpec("scheduler", Some(drainTimeoutMs + 250), false, Some(SCHEDULER_MARGIN_MS))
    && steps[s + 1] == StepSpec("queues", Some(drainTimeoutMs + 1500), false, Some(QUEUES_MARGIN_MS))
  }

  lemma DrainsReported(steps: seq<StepSpec>, behaviours: seq<Behaviour>, deadline: int, results: seq<StepResult>,
                       drainTimeoutMs: int, s: nat)
    requires |results| == |behaviours| == |steps| && AllReported(steps, behaviours, deadline, results)
    requires DrainsShared(results, drainTimeoutMs) && DrainStepsAt(steps, drainTimeoutMs, s)
    ensures DrainsKeepMargins(results, drainTimeoutMs, s)
  {
    assert Reported(steps[s], behaviours[s], deadline, results[s]);
    assert Reported(steps[s + 1], behaviours[s + 1], deadline, results[s + 1]);
  }

  /** The two draining steps follow the optional HTTP step. */
  lemma DrainStepsStandAt(server: bool, httpTimeoutMs: int, drainTimeoutMs: int,
                          socketAdapter: bool, rateLimitStore: bool, storage: bool)
    ensures DrainStepsAt(BuildShutdownSteps(server, httpTimeoutMs, drainTimeoutMs, socketAdapter, rateLimitStore, storage),
                         drainTimeoutMs, if server then 1 else 0)
  {
  }

  /** Every built step, its place and its own timeout; those of resources the process does not own leave no gap. */
  lemma BuiltStepsStandAt(server: bool, httpTimeoutMs: int, drainTimeoutMs: int,
                          socketAdapter: bool, rateLimitStore: bool, storage: bool)
    ensures var steps := BuildShutdownSteps(server, httpTimeoutMs, drainTimeoutMs, socketAdapter, rateLimitStore, storage);
            var h, s, r, g := if server then 1 else 0, if socketAdapter then 1 else 0, if rateLimitStore then 1 else 0,
                              if storage then 1 else 0;
            && |steps| == h + s + r + g + 7
            && (server ==> steps[0] == StepSpec("http", Some(httpTimeoutMs), false, None))
            && steps[h] == StepSpec("scheduler", Some(drainTimeoutMs + 250), false, Some(50))
            && steps[h + 1] == StepSpec("queues", Some(drainTimeoutMs + 1500), false, Some(500))
            && steps[h + 2] == StepSpec("locks", Some(1000), false, None)
            && (socketAdapter ==> steps[h + 3] == StepSpec("socket-adapter", Some(1000), false, None))
            && (rateLimitStore ==> steps[h + s + 3] == StepSpec("rate-limit", Some(1000), false, None))
            && steps[h + s + r + 3] == StepSpec("access-log", Some(1000), false, None)
            && steps[h + s + r + 4] == StepSpec("cache", Some(1000), false, None)
            && steps[h + s + r + 5] == StepSpec("mail", Some(1000), false, None)
            && (storage ==> steps[h + s + r + 6] == StepSpec("storage", Some(1000), false, None))
            && steps[h + s + r + g + 6] == StepSpec("database", Some(2000), true, None)
  {
  }

  /** The database step of a run: attempted, and all that can make the run outlast its timeout. */
  predicate EndsInTime(results: seq<StepResult>, timeoutMs: nat, durationMs: int) {
    && results != []
    && var last := results[|results| - 1];
       && last.name == "database" && !last.status.Skipped? && last.durationMs <= FORCE_EXIT_GRACE_MS
       && last.durationMs <= durationMs <= timeoutMs + last.durationMs
  }

  /** A run of steps that end with the database and have their drains at `s`. */
  method RunProcessSteps(steps: seq<StepSpec>, behaviours: seq<Behaviour>, drainTimeoutMs: int, s: nat, timeoutMs: nat,
                         startedAt: int)
    returns (ok: bool, durationMs: int, results: seq<StepResult>)
    requires |behaviours| == |steps| && DatabaseLast(steps) && DrainStepsAt(steps, drainTimeoutMs, s)
    ensures |results| == |behaviours| && EndsInTime(results, timeoutMs, durationMs)
    ensures AllReported(steps, behaviours, startedAt + timeoutMs, results)
    ensures BackToBack(results, startedAt, startedAt + durationMs)
    ensures DrainsKeepMargins(results, drainTimeoutMs, s)
    ensures ok <==> forall i :: 0 <= i < |results| ==> results[i].status.Ok?
  {
    var drain := new DrainBudget(drainTimeoutMs);
    ok, durationMs, results := RunShutdownSteps(steps, behaviours, timeoutMs, startedAt, drain);
    DatabaseAttempted(steps, behaviours, startedAt + timeoutMs, results, startedAt, startedAt + durationMs);
    PrefixTakesTime(results[..|results| - 1], startedAt, results[|results| - 1].startedAt);
    DrainsReported(steps, behaviours, startedAt + timeoutMs, results, drainTimeoutMs, s);
  }

  lemma {:induction false} PrefixTakesTime(results: seq<StepResult>, from: int, to: int)
    requires BackToBack(results, from, to)
    ensures from <= to
  {
    if results != [] {
      PrefixTakesTime(results[..|results| - 1], from, results[|results| - 1].startedAt);
    }
  }

  /**
   * The built steps of a process: the run is over no later than its timeout plus what its database step took, which
   * is always attempted and takes at most the force-exit grace; the drains keep their margins.
   */
  method RunBuiltSteps(server: bool, httpTimeoutMs: int, drainTimeoutMs: int, socketAdapter: bool, rateLimitStore: bool,
                       storage: bool, timeoutMs: nat, startedAt: int, behaviours: seq<Behaviour>)
    returns (ok: bool, durationMs: int, results: seq<StepResult>)
    requires |behaviours| == |BuildShutdownSteps(server, httpTimeoutMs, drainTimeoutMs, socketAdapter, rateLimitStore, storage)|
    ensures |results| == |behaviours| && EndsInTime(results, timeoutMs, durationMs)
    ensures AllReported(BuildShutdownSteps(server, httpTimeoutMs, drainTimeoutMs, socketAdapter, rateLimitStore, storage),
                        behaviours, startedAt + timeoutMs, results)
    ensures BackToBack(results, startedAt, startedAt + durationMs)
    ensures DrainsKeepMargins(results, drainTimeoutMs, if server then 1 else 0)
    ensures ok <==> forall i :: 0 <= i < |results| ==> results[i].status.Ok?
  {
    var steps := BuildShutdownSteps(server, httpTimeoutMs, drainTimeoutMs, socketAdapter, rateLimitStore, storage);
    BuiltDatabaseLast(server, httpTimeoutMs, drainTimeoutMs, socketAdapter, rateLimitStore, storage);
    DrainStepsStandAt(server, httpTimeoutMs, drainTimeoutMs, socketAdapter, rateLimitStore, storage);
    ok, durationMs, results := RunProcessSteps(steps, behaviours, drainTimeoutMs, if server then 1 else 0, timeoutMs, startedAt);
  }

  // ----- From the last step to the exit. -----

  const REPORT_FLUSH_MS := 1000

  /** How the process ends: by itself, or by the force-exit timer. */
  datatype Ending = Exits(code: int, at: int) | ForcedOut(at: int)

  /** How long the wait for error reports takes: until they are delivered (None: never), but no longer than its cap. */
  function ReportsTake(reports: Option<nat>): nat {
    if reports.Some? && reports.value <= REPORT_FLUSH_MS then reports.value else REPORT_FLUSH_MS
  }

  /** The force-exit timer was armed before the steps began: when both are due at once, it fires first. */
  function EndingOf(ok: bool, durationMs: int, reports: Option<nat>, logFlush: Option<nat>, timeoutMs: nat, startedAt: int): Ending {
    if logFlush.None? || timeoutMs + FORCE_EXIT_GRACE_MS <= durationMs + ReportsTake(reports) + logFlush.value
    then ForcedOut(startedAt + timeoutMs + FORCE_EXIT_GRACE_MS)
    else Exits(if ok then 0 else 1, startedAt + durationMs + ReportsTake(reports) + logFlush.value)
  }

  /**
   * A whole process shutdown: the steps, then the wait for error reports and for the logger. It exits by itself exactly
   * if all of that together ends before the force-exit timer is due. It surely does if the database disconnects, the
   * reports go out and the log is flushed within the grace together: a condition on those three alone.
   */
  method ShutdownProcess(server: bool, httpTimeoutMs: int, drainTimeoutMs: int, socketAdapter: bool, rateLimitStore: bool,
                         storage: bool, timeoutMs: nat, startedAt: int, behaviours: seq<Behaviour>,
                         reports: Option<nat>, logFlush: Option<nat>)
    returns (ending: Ending, ok: bool, durationMs: int)
    requires |behaviours| == |BuildShutdownSteps(server, httpTimeoutMs, drainTimeoutMs, socketAdapter, rateLimitStore, storage)|
    ensures var flushed := if reports.Some? && reports.value < 1000 then reports.value else 1000;
            && (ending.Exits? <==> logFlush.Some? && durationMs + flushed + logFlush.value < timeoutMs + 2000)
            && (ending.Exits? ==> ending == Exits(if ok then 0 else 1, startedAt + durationMs + flushed + logFlush.value))
            && (ending.ForcedOut? ==> ending.at == startedAt + timeoutMs + 2000)
    ensures behaviours != []
    ensures var database := behaviours[|behaviours| - 1].settlesAfter;
            (database.Some? && logFlush.Some?
             && database.value + (if reports.Some? && reports.value < 1000 then reports.value else 1000) + logFlush.value < 2000)
            ==> ending.Exits?
  {
    var results;
    ok, durationMs, results := RunBuiltSteps(server, httpTimeoutMs, drainTimeoutMs, socketAdapter, rateLimitStore, storage,
                                             timeoutMs, startedAt, behaviours);
    ghost var steps := BuildShutdownSteps(server, httpTimeoutMs, drainTimeoutMs, socketAdapter, rateLimitStore, storage);
    StepTakesNoLonger(steps, behaviours, startedAt + timeoutMs, results, |results| - 1);
    var flushed := if reports.Some? && reports.value <= REPORT_FLUSH_MS then reports.value else REPORT_FLUSH_MS;
    if logFlush.None? || timeoutMs + FORCE_EXIT_GRACE_MS <= durationMs + flushed + logFlush.value {
      ending := ForcedOut(startedAt + timeoutMs + FORCE_EXIT_GRACE_MS);
    } else {
      ending := Exits(if ok then 0 else 1, startedAt + durationMs + flushed + logFlush.value);
    }
  }

  lemma StepTakesNoLonger(steps: seq<StepSpec>, behaviours: seq<Behaviour>, deadline: int, results: seq<StepResult>, i: nat)
    requires |results| <= |steps| && |behaviours| == |steps| && AllReported(steps, behaviours, deadline, results) && i < |results|
    ensures behaviours[i].settlesAfter.Some? ==> results[i].durationMs <= behaviours[i].settlesAfter.value
  {
    assert Reported(steps[i], behaviours[i], deadline, results[i]);
  }

  /** A first step that never settles uses up the timeout; of the rest, those that are not `always` are skipped. */
  lemma {:induction false} StuckStepUsesTimeout(steps: seq<StepSpec>, behaviours: seq<Behaviour>, timeoutMs: nat, results: seq<StepResult>, to: int)
    requires 0 < |results| <= |steps| && |behaviours| == |steps| && AllReported(steps, behaviours, timeoutMs, results)
    requires BackToBack(results, 0, to) && forall i :: 0 <= i < |results| ==> !steps[i].always
    requires timeoutMs > 0 && steps[0].timeoutMs.Some? && steps[0].timeoutMs.value >= timeoutMs
    requires behaviours[0].settlesAfter.None?
    ensures to == timeoutMs
  {
    var n := |results| - 1;
    assert Reported(steps[n], behaviours[n], timeoutMs, results[n]);
    if n == 0 {
      assert results[..0] == [];
    } else {
      StuckStepUsesTimeout(steps, behaviours, timeoutMs, results[..n], results[n].startedAt);
    }
  }

  /**
   * A worker that is cut off though every step kept its budget: the scheduler never drains and uses up ten seconds, the
   * database takes one and a half, and a pending error report six tenths more. The process would have exited at 12100 ms.
   */
  lemma SlowReportIsCutOff(behaviours: seq<Behaviour>, results: seq<StepResult>, to: int, ok: bool)
    requires var steps := BuildShutdownSteps(false, 5000, 30000, false, false, false);
             && |results| == |behaviours| == |steps|
             && AllReported(steps, behaviours, 10000, results) && BackToBack(results, 0, to)
    requires behaviours[0] == Behaviour(None, false) && behaviours[|behaviours| - 1] == Behaviour(Some(1500), false)
    ensures to == 11500 && EndingOf(ok, to, Some(600), Some(0), 10000, 0) == ForcedOut(12000)
  {
    var steps := BuildShutdownSteps(false, 5000, 30000, false, false, false);
    var n := |results| - 1;
    DrainStepsStandAt(false, 5000, 30000, false, false, false);
    BuiltDatabaseLast(false, 5000, 30000, false, false, false);
    StuckStepUsesTimeout(steps, behaviours, 10000, results[..n], results[n].startedAt);
    assert Reported(steps[n], behaviours[n], 10000, results[n]);
  }

  // ----- Closing the HTTP server. -----

  datatype CloseEvent = ServerClosed | TimerFired

  /** Settles once: with the first of the server's own close and the timer that destroys what is left. */
  class HttpClose {
    var settled: bool
    var forced: bool
    var timerSet: bool
    var destroyed: bool

    constructor ()
      ensures !settled && timerSet && !destroyed
    {
      settled, forced, timerSet, destroyed := false, false, true, false;
    }

    method Finish(force: bool)
      modifies this`settled, this`forced, this`timerSet
      ensures settled
      ensures forced == if old(settled) then old(forced) else force
      ensures timerSet == (old(settled) && old(timerSet))
    {
      if settled {
        return;
      }
      settled, timerSet, forced := true, false, force;
    }

    /** Deliver the events in the order they happen; a cleared timer no longer fires. */
    method CloseHttpServer(events: seq<CloseEvent>, server: bool)
      requires !settled && timerSet && !destroyed
      modifies this
      ensures settled <==> !server || events != []
      ensures settled ==> (forced <==> server && events[0].TimerFired?)
      ensures destroyed <==> settled && forced
    {
      if !server {
        Finish(false);
        return;
      }
      var i := 0;
      while i < |events|
        invariant 0 <= i <= |events|
        invariant settled <==> i > 0
        invariant timerSet <==> !settled
        invariant settled ==> (forced <==> events[0].TimerFired?)
        invariant destroyed <==> settled && forced
      {
        if events[i].ServerClosed? {
          Finish(false);
        } else if timerSet {
          destroyed := true;
          Finish(true);
        }
        i := i + 1;
      }
    }
  }
}
