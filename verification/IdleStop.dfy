/**
 * Stopping Workspaces that were idle for the whole policy window, and what the Portal says about
 * it. The Portal computes one instant; the sweep decides in four places, one of them in SQL.
 */
module IdleStop {
  import opened Wrappers
  import opened WorkspaceRows
  import ComputeActivity
  import AT = AccessTracker

  const CANDIDATES_PER_SWEEP := 50
  const STOPS_PER_SWEEP := 10

  /** The idle policy; the window is a positive number of hours. */
  datatype Policy = Policy(windowMs: nat, threshold: real)

  /** The columns of a Workspace row that idle stop reads. */
  datatype IdleRow = IdleRow(row: Row, lastActivityAt: Time, lastAccessAt: Option<Time>)

  /** What the Control Plane knows of a Workspace in memory. */
  datatype Known = Known(
    workerConnected: bool, activeConnections: nat, latestAccess: Option<Time>, compute: Option<ComputeActivity.ComputeState>)

  datatype IdleView = IdleView(connected: bool, idleSince: Time, stopAt: Time)

  function Later(a: Time, b: Time): Time {
    if a > b then a else b
  }

  function LaterOf(a: Time, b: Option<Time>): Time {
    if b.Some? then Later(a, b.value) else a
  }

  /** What the Portal shows: since when the Workspace is idle, and when it would be stopped. */
  function ViewOf(w: IdleRow, policy: Policy, known: Known, startedAt: Time, now: Time): Option<IdleView> {
    if w.row.state != Running then None
    else
      var connected := known.activeConnections > 0;
      var computed := ComputeActivity.LastActive(known.compute, now, policy.threshold);
      var idleSince :=
        if connected then now
        else Later(LaterOf(LaterOf(Later(w.lastActivityAt, startedAt), w.lastAccessAt), known.latestAccess), computed);
      Some(IdleView(connected, idleSince, idleSince + policy.windowMs))
  }

  // ---------------------------------------------------------------- the sweep

  predicate NotAfter(t: Option<Time>, cutoff: Time) {
    t.Some? ==> t.value <= cutoff
  }

  /** Whether a row is in the candidate query; `available`: its Worker is enabled and online. */
  predicate IsCandidate(w: IdleRow, available: bool, cutoff: Time) {
    && available && w.row.worker.Some? && w.row.state == Running && w.row.desired == WantRunning
    && w.lastActivityAt <= cutoff && NotAfter(w.lastAccessAt, cutoff)
  }

  predicate IdleSince(known: Known, threshold: real, cutoff: Time, now: Time) {
    && known.workerConnected
    && known.activeConnections == 0
    && NotAfter(known.latestAccess, cutoff)
    && ComputeActivity.LastActive(known.compute, now, threshold) <= cutoff
  }

  /** The stop statement, with its own look at the row. */
  function BeginStopOf(w: IdleRow, worker: WorkerId, cutoff: Time): Option<Row> {
    BeginIdleStop(w.row, worker, w.lastActivityAt <= cutoff && NotAfter(w.lastAccessAt, cutoff))
  }

  predicate StartupGuard(startedAt: Time, policy: Policy, now: Time) {
    now - startedAt >= policy.windowMs
  }

  /**
   * For a running Workspace that is meant to run on a connected, enabled and online Worker, the
   * Portal's instant has come exactly when each of the sweep's four conditions holds.
   */
  lemma StopAtIff(w: IdleRow, policy: Policy, known: Known, startedAt: Time, now: Time)
    requires policy.windowMs > 0 && w.row.worker.Some? && w.row.state == Running && w.row.desired == WantRunning
    requires known.workerConnected
    ensures var cutoff := now - policy.windowMs;
      ViewOf(w, policy, known, startedAt, now).value.stopAt <= now <==>
        && StartupGuard(startedAt, policy, now)
        && IsCandidate(w, true, cutoff)
        && IdleSince(known, policy.threshold, cutoff, now)
        && BeginStopOf(w, w.row.worker.value, cutoff).Some?
  {
  }

  /**
   * What happens to one candidate: what is known when it is checked, the instant of the stop
   * statement with the row it finds and what is known by then, and whether the Worker stopped it.
   */
  datatype Candidate = Candidate(worker: WorkerId, known: Known, at: Time, found: IdleRow, knownAt: Known, stops: bool)

  /** Candidates whose stop has begun, and the counts the sweep reports. */
  datatype Swept = Swept(begun: seq<Candidate>, stopped: nat, skipped: nat)

  function SweepOver(candidates: seq<Candidate>, policy: Policy, cutoff: Time, now: Time): Swept {
    if candidates == [] then Swept([], 0, 0)
    else
      var n := |candidates| - 1;
      var before := SweepOver(candidates[..n], policy, cutoff, now);
      var c := candidates[n];
      if before.stopped >= STOPS_PER_SWEEP || !IdleSince(c.known, policy.threshold, cutoff, now) then before
      else if BeginStopOf(c.found, c.worker, cutoff).None? then before.(skipped := before.skipped + 1)
      else before.(begun := before.begun + [c], stopped := if c.stops then before.stopped + 1 else before.stopped)
  }

  /** `listed` is the answer of the candidate query, each with what happens to it later. */
  method Sweep(policy: Policy, startedAt: Time, now: Time, listed: seq<Candidate>) returns (swept: Swept)
    requires |listed| <= CANDIDATES_PER_SWEEP
    ensures swept ==
      if StartupGuard(startedAt, policy, now) then SweepOver(listed, policy, now - policy.windowMs, now) else Swept([], 0, 0)
  {
    if now - startedAt < policy.windowMs { return Swept([], 0, 0); }
    var cutoff := now - policy.windowMs;
    var begun, stopped, skipped := [], 0, 0;
    var i := 0;
    while i < |listed|
      invariant 0 <= i <= |listed|
      invariant Swept(begun, stopped, skipped) == SweepOver(listed[..i], policy, cutoff, now)
    {
      assert listed[..i + 1][..i] == listed[..i];
      if stopped >= STOPS_PER_SWEEP {
        FullSweepStands(listed, i, policy, cutoff, now);
        break;
      }
      var candidate := listed[i];
      i := i + 1;
      if !IdleSince(candidate.known, policy.threshold, cutoff, now) { continue; }
      if BeginStopOf(candidate.found, candidate.worker, cutoff).None? {
        skipped := skipped + 1;
        continue;
      }
      begun := begun + [candidate];
      if candidate.stops { stopped := stopped + 1; }
    }
    assert listed[..|listed|] == listed;
    return Swept(begun, stopped, skipped);
  }

  /** Once the limit is reached the rest of the candidates change nothing. */
  lemma {:induction false} FullSweepStands(candidates: seq<Candidate>, i: nat, policy: Policy, cutoff: Time, now: Time)
    requires i <= |candidates| && SweepOver(candidates[..i], policy, cutoff, now).stopped >= STOPS_PER_SWEEP
    ensures SweepOver(candidates, policy, cutoff, now) == SweepOver(candidates[..i], policy, cutoff, now)
  {
    if i < |candidates| {
      var rest := candidates[..|candidates| - 1];
      assert rest[..i] == candidates[..i];
      FullSweepStands(rest, i, policy, cutoff, now);
    } else {
      assert candidates[..i] == candidates;
    }
  }

  /** What the Portal shows of the candidate at the instant of its stop statement. */
  predicate DueAtStop(c: Candidate, policy: Policy, startedAt: Time) {
    var view := ViewOf(c.found, policy, c.knownAt, startedAt, c.at);
    view.Some? && view.value.stopAt <= c.at
  }

  /** Between check and statement no connection opened, and no access or work moved into the window. */
  predicate StayedQuiet(c: Candidate, policy: Policy) {
    && c.knownAt.activeConnections == 0
    && NotAfter(c.knownAt.latestAccess, c.at - policy.windowMs)
    && ComputeActivity.LastActive(c.knownAt.compute, c.at, policy.threshold) <= c.at - policy.windowMs
  }

  /** The sweep's two checks of a candidate. */
  predicate BeginsStop(c: Candidate, policy: Policy, cutoff: Time, now: Time) {
    IdleSince(c.known, policy.threshold, cutoff, now) && BeginStopOf(c.found, c.worker, cutoff).Some?
  }

  /** A stop that begins is due at that instant exactly when memory stayed quiet since its check. */
  lemma DueAtStopIff(c: Candidate, policy: Policy, startedAt: Time, now: Time)
    requires StartupGuard(startedAt, policy, now) && now <= c.at && BeginsStop(c, policy, now - policy.windowMs, now)
    requires policy.windowMs > 0
    ensures DueAtStop(c, policy, startedAt) <==> StayedQuiet(c, policy)
  {
    var cutoff := now - policy.windowMs;
    assert c.found.lastActivityAt <= cutoff && NotAfter(c.found.lastAccessAt, cutoff);
    assert c.found.row.state == Running;
  }

  /**
   * For every sweep: a stop that begins is due at the instant of its statement exactly when nothing
   * in memory moved into the window since the check; at most ten stops succeed; and below that
   * limit a candidate's stop begins exactly when both its checks pass.
   */
  lemma {:induction false} SweepStopsDueIff(candidates: seq<Candidate>, policy: Policy, startedAt: Time, now: Time)
    requires policy.windowMs > 0 && StartupGuard(startedAt, policy, now)
    requires forall c :: c in candidates ==> now <= c.at
    ensures var cutoff := now - policy.windowMs;
      var swept := SweepOver(candidates, policy, cutoff, now);
      && swept.stopped <= STOPS_PER_SWEEP
      && (forall c :: c in swept.begun ==>
          && c in candidates && c.found.row.worker == Some(c.worker)
          && (DueAtStop(c, policy, startedAt) <==> StayedQuiet(c, policy)))
      && (swept.stopped < STOPS_PER_SWEEP ==> forall c :: c in candidates ==>
          (c in swept.begun <==> BeginsStop(c, policy, cutoff, now)))
  {
    if candidates != [] {
      var n := |candidates| - 1;
      SweepStopsDueIff(candidates[..n], policy, startedAt, now);
      assert candidates == candidates[..n] + [candidates[n]];
      var c := candidates[n];
      var cutoff := now - policy.windowMs;
      if BeginsStop(c, policy, cutoff, now) { DueAtStopIff(c, policy, startedAt, now); }
      hide ViewOf, StayedQuiet, DueAtStop;
    }
  }

  /** The candidates whose stops begin, when nothing limits the sweep. */
  function Beginning(candidates: seq<Candidate>, policy: Policy, cutoff: Time, now: Time): seq<Candidate> {
    if candidates == [] then []
    else
      var n := |candidates| - 1;
      Beginning(candidates[..n], policy, cutoff, now)
      + (if BeginsStop(candidates[n], policy, cutoff, now) then [candidates[n]] else [])
  }

  /** How many looked idle in memory and not to the stop statement. */
  function Raced(candidates: seq<Candidate>, policy: Policy, cutoff: Time, now: Time): nat {
    if candidates == [] then 0
    else
      var n := |candidates| - 1;
      var c := candidates[n];
      Raced(candidates[..n], policy, cutoff, now)
      + (if IdleSince(c.known, policy.threshold, cutoff, now) && !BeginsStop(c, policy, cutoff, now) then 1 else 0)
  }

  function Succeeded(begun: seq<Candidate>): nat {
    if begun == [] then 0 else Succeeded(begun[..|begun| - 1]) + (if begun[|begun| - 1].stops then 1 else 0)
  }

  lemma SucceededMore(begun: seq<Candidate>, c: Candidate)
    ensures Succeeded(begun + [c]) == Succeeded(begun) + (if c.stops then 1 else 0)
  {
    assert (begun + [c])[..|begun|] == begun;
  }

  /**
   * The sweep handles the candidates up to the one with the tenth successful stop, or all of them:
   * of these it begins the stops in order, and it counts the successful ones and those that raced.
   */
  lemma {:induction false} SweepCounts(candidates: seq<Candidate>, policy: Policy, cutoff: Time, now: Time)
    returns (handled: nat)
    ensures handled <= |candidates|
    ensures var swept := SweepOver(candidates, policy, cutoff, now);
      && swept.begun == Beginning(candidates[..handled], policy, cutoff, now)
      && swept.skipped == Raced(candidates[..handled], policy, cutoff, now)
      && swept.stopped == Succeeded(swept.begun)
      && (if handled < |candidates| then swept.stopped == STOPS_PER_SWEEP else swept.stopped <= STOPS_PER_SWEEP)
  {
    hide BeginsStop, IdleSince, BeginStopOf;
    handled := |candidates|;
    assert candidates[..handled] == candidates;
    if candidates != [] {
      var n := |candidates| - 1;
      handled := SweepCounts(candidates[..n], policy, cutoff, now);
      assert candidates[..n][..handled] == candidates[..handled];
      SweepStep(candidates, policy, cutoff, now);
      var before := SweepOver(candidates[..n], policy, cutoff, now);
      hide SweepOver;
      if before.stopped < STOPS_PER_SWEEP {
        assert handled == n;
        handled := n + 1;
        SucceededMore(before.begun, candidates[n]);
        assert candidates[..n + 1] == candidates;
      }
    }
  }

  lemma SweepStep(candidates: seq<Candidate>, policy: Policy, cutoff: Time, now: Time)
    requires candidates != []
    ensures var n := |candidates| - 1;
      var c, before := candidates[n], SweepOver(candidates[..n], policy, cutoff, now);
      var begins := BeginsStop(c, policy, cutoff, now);
      SweepOver(candidates, policy, cutoff, now) ==
        if before.stopped >= STOPS_PER_SWEEP then before
        else Swept(
          before.begun + (if begins then [c] else []), before.stopped + (if begins && c.stops then 1 else 0),
          before.skipped + (if IdleSince(c.known, policy.threshold, cutoff, now) && !begins then 1 else 0))
  {
  }

  // ---------------------------------------------------------------- an access that races with the sweep

  /** Apart from accesses, the stop statement may stop the row it finds. */
  predicate MayStop(c: Candidate, cutoff: Time) {
    && c.found.row.worker == Some(c.worker) && c.found.row.state == Running && c.found.row.desired == WantRunning
    && c.found.lastActivityAt <= cutoff
  }

  /** A write that carries an access of the Workspace past the cutoff has reached the database. */
  ghost predicate PersistedPast(states: seq<AT.Sys>, steps: seq<AT.Step>, k: nat, w: AT.WorkspaceId, cutoff: Time)
    requires k <= |steps| && |states| == |steps| + 1
  {
    || (w in states[0].stored && states[0].stored[w].Some? && states[0].stored[w].value > cutoff)
    || exists j :: 0 <= j < k && WritesPast(states[j], steps[j], w, cutoff)
  }

  predicate WritesPast(s: AT.Sys, step: AT.Step, w: AT.WorkspaceId, cutoff: Time) {
    && step.WriteLands? && step.index < |s.flushes|
    && w in s.flushes[step.index].entries && s.flushes[step.index].entries[w] > cutoff
  }

  /** What the row stores is past a time exactly when some write past that time has landed. */
  lemma {:induction false} StoredPastIff(states: seq<AT.Sys>, steps: seq<AT.Step>, k: nat, w: AT.WorkspaceId, cutoff: Time)
    requires AT.IsRun(states, steps) && k < |states| && w in states[k].stored
    ensures !NotAfter(states[k].stored[w], cutoff) <==> PersistedPast(states, steps, k, w, cutoff)
  {
    if k > 0 {
      var s, step := states[k - 1], steps[k - 1];
      assert states[k - 1 + 1] == AT.Apply(s, step);
      assert w in s.stored;
      StoredPastIff(states, steps, k - 1, w, cutoff);
      StoredStep(s, step, w, cutoff);
      hide AT.Apply, AT.Enabled, WritesPast;
      if PersistedPast(states, steps, k, w, cutoff) && !PersistedPast(states, steps, k - 1, w, cutoff) {
        var j :| 0 <= j < k && WritesPast(states[j], steps[j], w, cutoff);
        assert j == k - 1;
      }
      if WritesPast(s, step, w, cutoff) { assert PersistedPast(states, steps, k, w, cutoff); }
    }
  }

  lemma StoredStep(s: AT.Sys, step: AT.Step, w: AT.WorkspaceId, cutoff: Time)
    requires AT.Enabled(s, step) && w in s.stored && w in AT.Apply(s, step).stored
    ensures !NotAfter(AT.Apply(s, step).stored[w], cutoff) <==> !NotAfter(s.stored[w], cutoff) || WritesPast(s, step, w, cutoff)
  {
  }

  /**
   * The stop statement runs in state `k` of a run of the access tracker. An access that races with
   * the sweep wins exactly when a write that carries it, or one past the cutoff too, has landed by
   * then; otherwise the stop begins although memory may know better.
   */
  lemma RacingAccessWinsIff(
    c: Candidate, policy: Policy, cutoff: Time, now: Time,
    states: seq<AT.Sys>, steps: seq<AT.Step>, k: nat, w: AT.WorkspaceId)
    requires IdleSince(c.known, policy.threshold, cutoff, now) && MayStop(c, cutoff)
    requires AT.IsRun(states, steps) && k < |states| && w in states[k].stored && c.found.lastAccessAt == states[k].stored[w]
    ensures !BeginsStop(c, policy, cutoff, now) <==> PersistedPast(states, steps, k, w, cutoff)
  {
    StoredPastIff(states, steps, k, w, cutoff);
  }

  /** What the process knows of the latest access, by its own tracker. */
  function LatestOf(s: AT.Sys, w: AT.WorkspaceId): Option<Time> {
    if w in s.states then Some(s.states[w].latest) else None
  }

  /** Touching a Workspace changes nothing the stop statement looks at: a lone access in memory loses. */
  lemma AccessInMemoryLoses(
    c: Candidate, policy: Policy, startedAt: Time, now: Time, s: AT.Sys, w: AT.WorkspaceId, ended: bool, at: Time)
    requires policy.windowMs > 0 && StartupGuard(startedAt, policy, now) && now - policy.windowMs <= c.at - policy.windowMs < at
    requires BeginsStop(c, policy, now - policy.windowMs, now) && w in s.stored && c.found.lastAccessAt == s.stored[w]
    ensures var t := AT.Apply(s, AT.Touch(w, ended, at));
      var raced := c.(found := c.found.(lastAccessAt := t.stored[w]), knownAt := c.knownAt.(latestAccess := LatestOf(t, w)));
      BeginsStop(raced, policy, now - policy.windowMs, now) && !DueAtStop(raced, policy, startedAt)
  {
    var t := AT.Apply(s, AT.Touch(w, ended, at));
    var raced := c.(found := c.found.(lastAccessAt := t.stored[w]), knownAt := c.knownAt.(latestAccess := LatestOf(t, w)));
    assert t.stored == s.stored && LatestOf(t, w).Some? && LatestOf(t, w).value >= at;
    DueAtStopIff(raced, policy, startedAt, now);
  }
}
