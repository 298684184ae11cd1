/**
 * Why the protocol needs its conditions: for each of them a run of the protocol's own steps with
 * one step that violates it, and what is lost by that.
 */
module RuntimeLimits {
  import opened Wrappers
  import opened WorkspaceRows
  import opened RuntimeProtocol
  import RuntimeLife
  import SR = SetRuntime

  const A: ImageRef := 0
  const B: ImageRef := 1

  /** A run, with the state each step leads to. */
  datatype Trace = First(now: Sys) | Then(before: Trace, step: Step, now: Sys)

  predicate IsStep(s: Sys, step: Step, t: Sys) {
    Enabled(s, step) && t == Apply(s, step)
  }

  ghost predicate IsTrace(t: Trace) {
    match t
    case First(s) => Initial(s)
    case Then(before, step, s) => IsTrace(before) && IsStep(before.now, step, s)
  }

  /** How many conditions of `Careful`, and how many of `Timely`, the steps of a run break. */
  datatype Broken = Broken(careless: nat, untimely: nat)

  const NONE: Broken := Broken(0, 0)
  const CARELESS: Broken := Broken(1, 0)
  const UNTIMELY: Broken := Broken(0, 1)
  const BOTH: Broken := Broken(1, 1)

  function With(n: Broken, s: Sys, step: Step): Broken
    requires Enabled(s, step)
  {
    Broken(
      n.careless + (if Careful(s, step) then 0 else 1),
      n.untimely + (if RuntimeLife.Timely(s, step) then 0 else 1))
  }

  function BrokenBy(t: Trace): Broken
    requires IsTrace(t)
  {
    if t.First? then NONE else With(BrokenBy(t.before), t.before.now, t.step)
  }

  /** Some run of the protocol that breaks so many conditions leads to the state. */
  ghost predicate Reached(s: Sys, n: Broken) {
    exists t: Trace :: IsTrace(t) && BrokenBy(t) == n && t.now == s
  }

  lemma Extend(s: Sys, n: Broken, step: Step, r: Sys)
    requires Reached(s, n) && IsStep(s, step, r)
    ensures Reached(r, With(n, s, step))
  {
    var t :| IsTrace(t) && BrokenBy(t) == n && t.now == s;
    var u := Then(t, step, r);
    hide With, Apply, Enabled;
    assert IsTrace(u) && u.now == r && BrokenBy(u) == With(n, s, step);
  }

  /** One more step; it counts when it breaks a condition. */
  lemma Take(s: Sys, n: Broken, step: Step) returns (r: Sys)
    requires Reached(s, n) && Enabled(s, step)
    ensures r == Apply(s, step) && Reached(r, With(n, s, step))
  {
    r := Apply(s, step);
    Extend(s, n, step, r);
  }

  /** Steps that no condition speaks of. */
  predicate IsFree(step: Step) {
    step.Read? || step.TakeSet? || step.TakeInspect? || step.Crash? || step.GiveUp? || step.ReconBegin? || step.ReconSend?
    || step.StopBegin? || step.Lifecycle?
  }

  lemma TakeFree(s: Sys, n: Broken, step: Step) returns (r: Sys)
    requires Reached(s, n) && Enabled(s, step) && IsFree(step)
    ensures r == Apply(s, step) && Reached(r, n)
  {
    r := Take(s, n, step);
    hide Apply, Enabled, Reached;
  }

  function Carelessly(n: Broken): Broken {
    n.(careless := n.careless + 1)
  }

  lemma TakeBegin(s: Sys, n: Broken, snap: Row, target: ImageRef) returns (r: Sys)
    requires Reached(s, n) && snap in s.snaps && FromImage(snap, target).Some?
    requires BeginRuntimeChange(s.row, WORKER, FromImage(snap, target).value, target).Some?
    ensures Reached(r, if SafeSnapshot(s.row, snap, target) then n else Carelessly(n))
    ensures var source := FromImage(snap, target).value;
      r == s.(row := BeginRuntimeChange(s.row, WORKER, source, target).value, epoch := s.epoch + 1,
              changes := s.changes[s.epoch + 1 := Change(snap, source, target, false, false, None)])
  {
    TakenBegin(s, snap, target);
    hide Apply, Enabled, Careful, Reached, SafeSnapshot, BeginRuntimeChange, FromImage;
    r := Take(s, n, Begin(snap, target));
  }

  lemma TakenBegin(s: Sys, snap: Row, target: ImageRef)
    requires snap in s.snaps && FromImage(snap, target).Some?
    requires BeginRuntimeChange(s.row, WORKER, FromImage(snap, target).value, target).Some?
    ensures Enabled(s, Begin(snap, target))
    ensures Careful(s, Begin(snap, target)) == SafeSnapshot(s.row, snap, target)
    ensures var source := FromImage(snap, target).value;
      Apply(s, Begin(snap, target)) ==
        s.(row := BeginRuntimeChange(s.row, WORKER, source, target).value, epoch := s.epoch + 1,
           changes := s.changes[s.epoch + 1 := Change(snap, source, target, false, false, None)])
  {
  }

  lemma TakeRead(s: Sys, n: Broken) returns (r: Sys)
    requires Reached(s, n)
    ensures Reached(r, n) && r == s.(snaps := s.snaps + {s.row})
  {
    hide Careful, RuntimeLife.Timely, Reached, With, IsTrace, BrokenBy;
    r := TakeFree(s, n, Read);
  }

  lemma TakeRevert(s: Sys, n: Broken, c: nat) returns (r: Sys)
    requires Reached(s, n) && c in s.changes && s.changes[c].verdict == Some(Refused)
    requires s.row.worker == Some(WORKER) && s.row.state == Upgrading
    ensures r == s.(row := Restored(s.row, RestoreOf(s.changes[c].snap)))
    ensures Reached(r, if c == s.epoch then n else Carelessly(n))
  {
    r := Take(s, n, Revert(c));
  }

  lemma TakeLifecycle(s: Sys, n: Broken, u: Update) returns (r: Sys)
    requires Reached(s, n) && IsLifecycle(u) && Updated(s.row, WORKER, u).Some?
    ensures r == LifecycleStep(s, u) && Reached(r, n)
  {
    hide Careful, RuntimeLife.Timely, Reached, With, IsTrace, BrokenBy;
    r := TakeFree(s, n, Lifecycle(u));
  }

  lemma TakeWork(s: Sys, n: Broken, id: SR.ImageId, fault: Option<SR.Code>, answered: bool) returns (r: Sys)
    requires Reached(s, n) && s.exec.Some? && s.exec.value.change in s.changes
    requires fault.Some? ==> CanRaise(s.exec.value.pc, fault.value)
    ensures r == WorkStep(s, id, fault, answered)
    ensures Reached(r, if Careful(s, Work(id, fault, answered)) then n else Carelessly(n))
  {
    r := Take(s, n, Work(id, fault, answered));
  }

  /** A step of the Worker without a fault, on an image whose reference has not moved. */
  lemma TakeGoodWork(s: Sys, n: Broken, id: SR.ImageId, answered: bool) returns (r: Sys)
    requires Reached(s, n) && s.exec.Some? && s.exec.value.change in s.changes
    requires s.exec.value.pc.Confirming? ==> s.exec.value.offerId == Some(s.exec.value.pc.id)
    ensures r == WorkStep(s, id, None, answered) && Reached(r, n)
  {
    r := TakeWork(s, n, id, None, answered);
    hide WorkStep, Reached;
  }

  /** At rest: no command is waiting or being carried out. */
  predicate Idle(s: Sys) {
    s.queue == [] && s.exec.None?
  }

  const OFFER_B: Option<SR.Offer> := Some(SR.Offer(B, Some(B)))

  const STOPPED_ON_A: Row := Row(Some(WORKER), Stopped, WantStopped, A, None, None)

  const UPGRADING_TO_B: Row := Row(Some(WORKER), Upgrading, WantStopped, B, Some(A), None)

  const INTERRUPTED: Row := Row(Some(WORKER), Error, WantStopped, B, Some(A), None)

  const DISK_ON_A: SR.Disk := SR.Disk(SR.Metadata(A, None, Some(A)), Some(SR.Container(A, A, false)), true)

  const DISK_ON_B: SR.Disk := SR.Disk(SR.Metadata(B, Some(A), Some(B)), Some(SR.Container(B, B, false)), true)

  lemma Fresh() returns (s: Sys)
    ensures Reached(s, NONE) && s == Sys(STOPPED_ON_A, 0, 0, {}, map[], [], DISK_ON_A, [], None)
  {
    s := Sys(STOPPED_ON_A, 0, 0, {}, map[], [], DISK_ON_A, [], None);
    assert IsTrace(First(s));
  }

  /** A change from A to B of a fresh Workspace, begun and not sent yet. */
  lemma BegunChange() returns (s: Sys)
    ensures Reached(s, NONE) && Idle(s)
    ensures s.row == UPGRADING_TO_B && s.epoch == 1 && s.wishes == 0 && s.snaps == {STOPPED_ON_A} && s.recons == [] && s.disk == DISK_ON_A
    ensures s.changes == map[1 := Change(STOPPED_ON_A, A, B, false, false, None)]
  {
    s := Fresh();
    s := TakeRead(s, NONE);
    s := TakeBegin(s, NONE, STOPPED_ON_A, B);
  }

  /** The handler sends the latest change and the Worker takes it up, or refuses it for lack of an offer. */
  lemma SendAndTake(s: Sys, n: Broken, c: nat, offer: Option<SR.Offer>) returns (r: Sys)
    requires Reached(s, n) && Idle(s) && c in s.changes && c == s.epoch && !s.changes[c].sent
    requires s.changes[c].verdict.None?
    requires offer.Some? ==> offer.value.image == s.changes[c].toImage
    requires offer.Some? ==> SR.Check(s.disk, s.changes[c].fromImage, s.changes[c].toImage, offer).None?
    ensures Reached(r, n)
    ensures offer.None? ==>
      r == s.(changes := s.changes[c := s.changes[c].(sent := true, verdict := Some(Refused))])
    ensures offer.Some? ==> r == s.(
      changes := s.changes[c := s.changes[c].(sent := true, touched := true)],
      exec := Some(Exec(c, offer.value.imageId, Switching)))
  {
    hide Careful, RuntimeLife.Timely, Reached, With, IsTrace, BrokenBy;
    var change := s.changes[c];
    var sent := TakeSend(s, n, c);
    assert sent.queue == [SetCmd(c)] && sent.changes[c] == change.(sent := true);
    r := TakeFree(sent, n, TakeSet(offer, None, true));
    assert r.queue == [];
  }

  lemma TakeSend(s: Sys, n: Broken, c: nat) returns (r: Sys)
    requires Reached(s, n) && c in s.changes && !s.changes[c].sent
    ensures r == SendStep(s, c, true) && Reached(r, if c == s.epoch then n else Carelessly(n))
  {
    r := Take(s, n, Send(c, true));
    hide Reached;
  }

  /** The Worker's first three durable steps. */
  lemma SwitchAndCreate(s: Sys, id: SR.ImageId) returns (r: Sys)
    requires Reached(s, NONE) && s.exec.Some? && s.exec.value.pc == Switching && s.exec.value.change in s.changes
    ensures Reached(r, NONE)
    ensures var change := s.changes[s.exec.value.change];
      r == s.(
        disk := SR.AfterSteps(s.disk, change.fromImage, change.toImage, id, 3),
        exec := Some(s.exec.value.(pc := Confirming(id))))
  {
    hide Careful, RuntimeLife.Timely, Reached, With, IsTrace, BrokenBy, Apply;
    r := TakeGoodWork(s, NONE, id, true);
    r := TakeGoodWork(r, NONE, id, true);
    r := TakeGoodWork(r, NONE, id, true);
  }

  lemma PinAndAnswer(s: Sys, id: SR.ImageId, answered: bool) returns (r: Sys)
    requires Reached(s, NONE) && s.exec.Some? && s.exec.value.pc == Confirming(id) && s.exec.value.offerId == Some(id)
    requires s.exec.value.change in s.changes
    ensures Reached(r, NONE)
    ensures r == Answer(s.(exec := None, disk := SR.PinImageId(s.disk, id)), s.exec.value.change, Ok, answered)
  {
    hide Careful, RuntimeLife.Timely, Reached, With, IsTrace, BrokenBy, Apply;
    r := TakeGoodWork(s, NONE, id, true);
    r := TakeGoodWork(r, NONE, id, true);
    r := TakeGoodWork(r, NONE, id, answered);
  }

  /** The first change is taken up by the Worker. */
  lemma FirstChange() returns (s: Sys)
    ensures Reached(s, NONE) && s.queue == [] && s.exec == Some(Exec(1, Some(B), Switching))
    ensures s.row == UPGRADING_TO_B && s.epoch == 1 && s.wishes == 0 && s.snaps == {STOPPED_ON_A} && s.recons == [] && s.disk == DISK_ON_A
    ensures s.changes == map[1 := Change(STOPPED_ON_A, A, B, true, true, None)]
  {
    s := BegunChange();
    s := SendAndTake(s, NONE, 1, OFFER_B);
  }

  /** The Worker carries out the first change to its end; the row still says it is being made. */
  lemma DoneChange(answered: bool) returns (s: Sys)
    ensures Reached(s, NONE) && Idle(s) && s.row == UPGRADING_TO_B && s.epoch == 1 && s.wishes == 0 && s.recons == [] && s.disk == DISK_ON_B
    ensures s.snaps == {STOPPED_ON_A}
    ensures s.changes == map[1 := Change(STOPPED_ON_A, A, B, true, true, if answered then Some(Ok) else None)]
  {
    hide Apply, Enabled, Careful, IsTrace, BrokenBy, Reached;
    s := FirstChange();
    s := SwitchAndCreate(s, B);
    s := PinAndAnswer(s, B, answered);
  }

  /** A handler gives up waiting and records the change as interrupted. */
  lemma GiveUpAndFail(s: Sys, c: nat) returns (r: Sys)
    requires Reached(s, NONE) && c in s.changes && s.changes[c].sent && s.changes[c].verdict.None?
    requires s.row.worker == Some(WORKER) && s.row.state == Upgrading
    ensures Reached(r, NONE)
    ensures r == s.(row := s.row.(state := Error), changes := s.changes[c := s.changes[c].(verdict := Some(Incomplete(false)))])
  {
    hide Careful, RuntimeLife.Timely, Reached, With, IsTrace, BrokenBy;
    r := TakeFree(s, NONE, GiveUp(c, false));
    r := TakeLifecycle(r, NONE, RuntimeFailure(false));
  }

  /**
   * A handler that read the row before an interrupted change, and begins after it, restores the
   * older row when its own command is refused, although the Worker has switched.
   */
  lemma StaleSnapshotLosesCoupling() returns (s: Sys)
    ensures Reached(s, CARELESS) && !Coupled(s) && s.row.state == Stopped && Idle(s)
  {
    hide Apply, Enabled, Careful, IsTrace, BrokenBy, Reached;
    s := DoneChange(false);
    s := GiveUpAndFail(s, 1);
    s := TakeBegin(s, NONE, STOPPED_ON_A, B);
    s := SendAndTake(s, CARELESS, 2, None);
    s := TakeRevert(s, CARELESS, 2);
  }

  /** The Worker answers with a code that means "unchanged" although it has switched the metadata. */
  lemma RefuseAfterCreation(s: Sys, id: SR.ImageId, fault: Option<SR.Code>) returns (r: Sys)
    requires Reached(s, NONE) && s.exec.Some? && s.exec.value.pc == Confirming(id) && s.exec.value.change in s.changes
    requires s.changes[s.exec.value.change].verdict.None?
    requires fault.Some? ==> SR.MeansUnchanged(fault.value)
    requires fault.None? ==> s.exec.value.offerId.Some? && s.exec.value.offerId != Some(id)
    ensures Reached(r, CARELESS)
    ensures r == Answer(
      s.(exec := None, disk := if fault.Some? then SR.Found(s.disk, fault.value) else SR.RemoveContainer(s.disk)), s.exec.value.change, Refused, true)
  {
    r := Take(s, NONE, Work(id, fault, true));
  }

  /** Creation that ends with an "unchanged" code after the metadata switch. */
  lemma LateRefusalLosesCoupling() returns (s: Sys)
    ensures Reached(s, CARELESS) && !Coupled(s) && s.row.state == Stopped && Idle(s)
  {
    hide Apply, Enabled, Careful, IsTrace, BrokenBy, Reached;
    s := FirstChange();
    s := SwitchAndCreate(s, B);
    s := RefuseAfterCreation(s, B, Some(SR.WorkspaceNotManaged));
    s := TakeRevert(s, CARELESS, 1);
  }

  /** The image reference moves to another ID between verification and creation. */
  lemma MovedReferenceLosesCoupling() returns (s: Sys)
    ensures Reached(s, CARELESS) && !Coupled(s) && s.row.state == Stopped && Idle(s)
  {
    hide Apply, Enabled, Careful, IsTrace, BrokenBy, Reached;
    s := FirstChange();
    s := SwitchAndCreate(s, A);
    s := RefuseAfterCreation(s, A, None);
    s := TakeRevert(s, CARELESS, 1);
  }

  /** The Worker reconnects, still on A: the change to B is found interrupted, and a handler reads the row. */
  lemma Reconciled(s: Sys) returns (r: Sys)
    requires Reached(s, NONE) && Idle(s) && s.row == UPGRADING_TO_B && s.recons == [] && s.disk == DISK_ON_A
    ensures Reached(r, NONE)
    ensures r == s.(
      row := INTERRUPTED, snaps := s.snaps + {INTERRUPTED}, recons := [Recon(s.epoch, s.wishes, B, WantStopped, Reconciles, Some(Invalid(false)))])
  {
    hide Apply, Enabled, Careful, IsTrace, BrokenBy, Reached;
    r := Reported(s);
    r := WriteError(r);
    r := TakeRead(r, NONE);
  }

  lemma WriteError(s: Sys) returns (r: Sys)
    requires Reached(s, NONE) && s.row == UPGRADING_TO_B.(state := WorkerOffline)
    requires s.recons == [Recon(s.epoch, s.wishes, B, WantStopped, Reconciles, Some(Invalid(false)))]
    ensures Reached(r, NONE) && r == s.(row := INTERRUPTED)
  {
    hide Reached, BrokenBy, IsTrace;
    r := Take(s, NONE, ReconWrite(0, 0));
  }

  lemma Reported(s: Sys) returns (r: Sys)
    requires Reached(s, NONE) && Idle(s) && s.row == UPGRADING_TO_B && s.recons == [] && s.disk == DISK_ON_A
    ensures Reached(r, NONE)
    ensures r == s.(
      row := UPGRADING_TO_B.(state := WorkerOffline), recons := [Recon(s.epoch, s.wishes, B, WantStopped, Reconciles, Some(Invalid(false)))])
  {
    hide Careful, RuntimeLife.Timely, Reached, With, IsTrace, BrokenBy;
    r := TakeFree(s, NONE, ReconBegin);
    r := TakeFree(r, NONE, ReconSend(0));
    assert r.queue == [InspectCmd(0)];
    r := TakeFree(r, NONE, TakeInspect(false, true));
  }

  /** A refused change reverts only after a later change has begun and been carried out. */
  lemma OvertakenRevertLosesCoupling() returns (s: Sys)
    ensures Reached(s, CARELESS) && !Coupled(s) && s.row.state == Stopped && Idle(s)
  {
    hide Apply, Enabled, Careful, IsTrace, BrokenBy, Reached;
    s := BegunChange();
    s := SendAndTake(s, NONE, 1, None);
    s := Reconciled(s);
    s := TakeBegin(s, NONE, INTERRUPTED, B);
    s := SendAndTake(s, NONE, 2, OFFER_B);
    s := SwitchAndCreate(s, B);
    s := PinAndAnswer(s, B, true);
    s := TakeRevert(s, NONE, 1);
  }

  const ROLLING_BACK: Row := Row(Some(WORKER), Error, WantStopped, A, Some(B), None)

  /** The row of a Workspace that is done changing to B, or was interrupted after the Worker was done. */
  predicate DoneOnB(row: Row) {
    row == INTERRUPTED || row == UPGRADING_TO_B.(state := Stopped, changedAt := Some(0))
  }

  /** A rollback to A is carried out and its answer is lost. */
  lemma LostRollback(s: Sys) returns (r: Sys)
    requires Reached(s, NONE) && Idle(s) && s.epoch == 1 && s.disk == DISK_ON_B && 1 in s.changes && DoneOnB(s.row)
    requires s.row in s.snaps
    ensures Reached(r, NONE) && Idle(r) && r.epoch == 2 && r.row == ROLLING_BACK && r.disk.managed && r.disk.meta.image == A
    ensures 1 in r.changes && r.changes[1] == s.changes[1] && r.recons == s.recons && r.wishes == s.wishes
  {
    hide Apply, Enabled, Careful, IsTrace, BrokenBy, Reached;
    r := TakeBegin(s, NONE, s.row, A);
    r := SendAndTake(r, NONE, 2, Some(SR.Offer(A, Some(A))));
    r := SwitchAndCreate(r, A);
    r := PinAndAnswer(r, A, false);
    r := GiveUpAndFail(r, 2);
  }

  /** From B, a change to A is carried out, its answer is lost, and a change back to B begins. */
  lemma ThereAndBack(s: Sys) returns (r: Sys)
    requires Reached(s, NONE) && Idle(s) && s.epoch == 1 && s.disk == DISK_ON_B && 1 in s.changes && DoneOnB(s.row)
    ensures Reached(r, NONE) && Idle(r) && r.epoch == 3 && r.row == UPGRADING_TO_B && r.disk.managed && r.disk.meta.image == A
    ensures 1 in r.changes && r.changes[1] == s.changes[1] && r.recons == s.recons && r.wishes == s.wishes
  {
    hide Apply, Enabled, Careful, IsTrace, BrokenBy, Reached;
    r := TakeRead(s, NONE);
    r := LostRollback(r);
    r := TakeRead(r, NONE);
    r := TakeBegin(r, NONE, ROLLING_BACK, B);
  }

  /** The Worker is done and has answered, but the handler records it only after two later changes have begun. */
  lemma OvertakenFinishLosesCoupling() returns (s: Sys)
    ensures Reached(s, CARELESS) && !Coupled(s) && s.row.state == Stopped && Idle(s)
  {
    hide Apply, Enabled, Careful, IsTrace, BrokenBy, Reached;
    s := DoneChange(true);
    s := TakeLifecycle(s, NONE, RuntimeFailure(false));
    s := ThereAndBack(s);
    s := TakeFinish(s, 1);
  }

  lemma TakeFinish(s: Sys, c: nat) returns (r: Sys)
    requires Reached(s, NONE) && c in s.changes && s.changes[c].verdict == Some(Ok) && c != s.epoch
    requires s.row.worker == Some(WORKER) && s.row.state == Upgrading && s.row.image == s.changes[c].toImage
    ensures Reached(r, CARELESS) && r == s.(row := s.row.(state := Stopped, changedAt := Some(0)))
  {
    r := Take(s, NONE, Finish(c, 0));
  }

  /** Two reconciliations see the Worker stopped on B; the second one settles the Workspace. */
  lemma SeenTwice(s: Sys) returns (r: Sys)
    requires Reached(s, NONE) && Idle(s) && s.row == UPGRADING_TO_B && s.recons == [] && s.disk == DISK_ON_B && s.epoch == 1 && s.wishes == 0
    ensures Reached(r, NONE)
    ensures var seen := Recon(1, 0, B, WantStopped, Reconciles, Some(Seen(Stopped)));
      r == s.(row := UPGRADING_TO_B.(state := Stopped, changedAt := Some(0)), recons := [seen, seen])
  {
    hide Apply, Enabled, Careful, IsTrace, BrokenBy, Reached;
    r := AskAgain(s, 0);
    r := AskAgain(r, 1);
    r := TakeSettle(r, NONE, 1, Stopped);
  }

  /** What a reconciliation saw is written only after two later changes have begun. */
  lemma LateRecoveryLosesCoupling() returns (s: Sys)
    ensures Reached(s, CARELESS) && !Coupled(s) && s.row.state == Stopped && Idle(s)
  {
    hide Apply, Enabled, Careful, IsTrace, BrokenBy, Reached;
    s := DoneChange(false);
    s := SeenTwice(s);
    s := ThereAndBack(s);
    s := TakeLifecycle(s, NONE, Offline);
    s := TakeSettle(s, NONE, 0, Stopped);
  }

  /** A reconciliation settles the row on what it saw. */
  lemma TakeSettle(s: Sys, n: Broken, i: nat, state: State) returns (r: Sys)
    requires Reached(s, n) && i < |s.recons| && s.recons[i].purpose == Reconciles && s.recons[i].report == Some(Seen(state))
    requires s.row.worker == Some(WORKER) && s.row.state == WorkerOffline
    requires s.row.image == s.recons[i].image && s.row.desired == s.recons[i].desired
    requires (state == Running && s.row.desired == WantRunning) || (state == Stopped && s.row.desired == WantStopped)
    ensures r == s.(row := s.row.(state := state, changedAt := if InChange(s.row) then Some(0) else s.row.changedAt))
    ensures Reached(r, Broken(
      n.careless + (if s.recons[i].epoch == s.epoch then 0 else 1), n.untimely + (if s.recons[i].wishes == s.wishes then 0 else 1)))
  {
    SettleIs(s, n, i, state);
    hide Reached, With, Enabled, Apply, Careful, RuntimeLife.Timely, IsTrace, BrokenBy;
    r := Take(s, n, ReconWrite(i, 0));
  }

  lemma SettleIs(s: Sys, n: Broken, i: nat, state: State)
    requires i < |s.recons| && s.recons[i].purpose == Reconciles && s.recons[i].report == Some(Seen(state))
    requires s.row.worker == Some(WORKER) && s.row.state == WorkerOffline
    requires s.row.image == s.recons[i].image && s.row.desired == s.recons[i].desired
    requires (state == Running && s.row.desired == WantRunning) || (state == Stopped && s.row.desired == WantStopped)
    ensures Enabled(s, ReconWrite(i, 0))
    ensures Apply(s, ReconWrite(i, 0))
      == s.(row := s.row.(state := state, changedAt := if InChange(s.row) then Some(0) else s.row.changedAt))
    ensures With(n, s, ReconWrite(i, 0)) == Broken(
      n.careless + (if s.recons[i].epoch == s.epoch then 0 else 1), n.untimely + (if s.recons[i].wishes == s.wishes then 0 else 1))
  {
    assert Settles(s, i, 0);
    assert Careful(s, ReconWrite(i, 0)) <==> s.recons[i].epoch == s.epoch;
    assert RuntimeLife.Timely(s, ReconWrite(i, 0)) <==> s.recons[i].wishes == s.wishes;
  }

  /** A command whose dispatch was delayed past the end of its change undoes a later one. */
  lemma DelayedDispatchLosesCoupling() returns (s: Sys)
    ensures Reached(s, CARELESS) && !Coupled(s) && s.row.state == Stopped
  {
    hide Apply, Enabled, Careful, IsTrace, BrokenBy, Reached;
    s := BegunChange();
    s := Reconciled(s);
    s := TakeBegin(s, NONE, INTERRUPTED, A);
    s := RolledBack(s);
    s := SendLate(s);
    s := SwitchLate(s);
  }

  lemma SendLate(s: Sys) returns (r: Sys)
    requires Reached(s, NONE) && Idle(s) && s.epoch == 2 && 1 in s.changes && s.disk == DISK_ON_A
    requires s.changes[1] == Change(STOPPED_ON_A, A, B, false, false, None)
    ensures Reached(r, CARELESS) && r.row == s.row && r.disk == s.disk && r.queue == [SetCmd(1)] && r.exec.None?
    ensures 1 in r.changes && r.changes[1] == s.changes[1].(sent := true)
  {
    r := TakeSend(s, NONE, 1);
  }

  lemma SwitchLate(s: Sys) returns (r: Sys)
    requires Reached(s, CARELESS) && s.queue == [SetCmd(1)] && s.exec.None? && 1 in s.changes && s.disk == DISK_ON_A
    requires s.changes[1] == Change(STOPPED_ON_A, A, B, true, false, None)
    ensures Reached(r, CARELESS) && r.row == s.row && r.disk.managed && r.disk.meta.image == B
  {
    hide Careful, RuntimeLife.Timely, Reached, With, IsTrace, BrokenBy;
    r := TakeFree(s, CARELESS, TakeSet(OFFER_B, None, true));
    r := TakeGoodWork(r, CARELESS, B, true);
  }

  /** The Worker, which never saw the first change, confirms the rollback. */
  lemma RolledBack(s: Sys) returns (r: Sys)
    requires Reached(s, NONE) && Idle(s) && s.epoch == 2 && 1 in s.changes && 2 in s.changes && s.disk == DISK_ON_A
    requires s.row == UPGRADING_TO_B.(image := A, previous := Some(B))
    requires s.changes[2] == Change(INTERRUPTED, B, A, false, false, None)
    ensures Reached(r, NONE) && Idle(r) && r.epoch == 2 && r.disk == DISK_ON_A && 1 in r.changes && r.changes[1] == s.changes[1]
    ensures r.row == STOPPED_ON_A.(previous := Some(B), changedAt := Some(0))
  {
    hide Apply, Enabled, Careful, IsTrace, BrokenBy, Reached;
    r := SendAndConfirm(s);
    r := FinishOnA(r);
  }

  lemma SendAndConfirm(s: Sys) returns (r: Sys)
    requires Reached(s, NONE) && Idle(s) && s.epoch == 2 && 1 in s.changes && 2 in s.changes && s.disk == DISK_ON_A
    requires s.changes[2] == Change(INTERRUPTED, B, A, false, false, None)
    ensures Reached(r, NONE) && Idle(r) && r == s.(changes := r.changes) && 1 in r.changes && r.changes[1] == s.changes[1]
    ensures 2 in r.changes && r.changes[2] == s.changes[2].(sent := true, verdict := Some(Ok))
  {
    hide Careful, RuntimeLife.Timely, Reached, With, IsTrace, BrokenBy;
    r := TakeSend(s, NONE, 2);
    assert r.queue == [SetCmd(2)];
    r := TakeFree(r, NONE, TakeSet(Some(SR.Offer(A, Some(A))), None, true));
    assert r.queue == [];
  }

  // ---------------------------------------------------------------- interrupted changes that are stuck

  /** The Worker was offline, and the row is still in the middle of the change. */
  lemma Undelivered() returns (s: Sys)
    ensures Reached(s, NONE) && Idle(s) && s.row == UPGRADING_TO_B.(state := WorkerOffline)
    ensures s.epoch == 1 && s.wishes == 0 && s.recons == [] && s.disk == DISK_ON_A && STOPPED_ON_A in s.snaps
  {
    hide Apply, Enabled, Careful, IsTrace, BrokenBy, Reached;
    s := BegunChange();
    s := SendInVain(s);
    s := TakeLifecycle(s, NONE, RuntimeFailure(true));
  }

  lemma SendInVain(s: Sys) returns (r: Sys)
    requires Reached(s, NONE) && 1 in s.changes && !s.changes[1].sent
    ensures Reached(r, NONE) && r == s.(changes := r.changes)
  {
    r := Take(s, NONE, Send(1, false));
  }

  /** A handler reads the row and its start is accepted. */
  lemma TakeStart(s: Sys) returns (r: Sys)
    requires Reached(s, NONE) && ScheduleStart(s.row, WORKER).Some? && !ChangeIncomplete(s.row)
    ensures Reached(r, NONE) && r == StartStep(s.(snaps := s.snaps + {s.row}), s.row)
  {
    r := TakeRead(s, NONE);
    r := Take(r, NONE, StartBegin(s.row));
  }

  lemma TakeStop(s: Sys) returns (r: Sys)
    requires Reached(s, NONE) && s.row.worker == Some(WORKER) && s.row.state == Running
    ensures Reached(r, NONE)
    ensures r == s.(
      row := s.row.(state := Stopping, desired := WantStopped), wishes := s.wishes + 1,
      recons := s.recons + [Recon(s.epoch, s.wishes + 1, s.row.image, WantStopped, Stops, None)])
  {
    hide Careful, RuntimeLife.Timely, Reached, With, IsTrace, BrokenBy;
    r := TakeFree(s, NONE, StopBegin(WorkspaceRows.Update.Stop));
  }

  /** Neither a retry nor a rollback nor any other change passes the store guard. */
  ghost predicate Stuck(s: Sys) {
    && ChangeIncomplete(s.row)
    && forall fromImage, toImage :: BeginRuntimeChange(s.row, WORKER, fromImage, toImage).None?
  }

  /** A start scheduled while the Worker is offline in the middle of a change wants the Workspace running. */
  lemma StartStrandsInterruptedChange() returns (s: Sys)
    ensures Reached(s, NONE) && Stuck(s)
  {
    hide Apply, Enabled, Careful, IsTrace, BrokenBy, Reached;
    s := Undelivered();
    s := TakeStart(s);
    s := TakeLifecycle(s, NONE, RuntimeFailure(false));
  }

  /** The Worker switches the metadata and crashes; the handler gives up. */
  lemma CrashedSwitch() returns (s: Sys)
    ensures Reached(s, NONE) && Idle(s) && s.row == INTERRUPTED
    ensures s.disk == SR.SwitchMetadata(DISK_ON_A, A, B)
  {
    s := FirstChange();
    s := TakeWork(s, NONE, B, None, true);
    s := TakeCrash(s);
    s := GiveUpAndFail(s, 1);
  }

  lemma TakeCrash(s: Sys) returns (r: Sys)
    requires Reached(s, NONE)
    ensures Reached(r, NONE) && r == s.(queue := [], exec := None)
  {
    r := TakeFree(s, NONE, Crash);
  }

  lemma TakeDeleteAtWorker(s: Sys) returns (r: Sys)
    requires Reached(s, NONE) && s.exec.None?
    ensures Reached(r, if s.row.desired == WantDeleted then NONE else UNTIMELY)
    ensures r == s.(disk := SR.Deleted(s.disk, 2).0)
  {
    r := Take(s, NONE, TakeDelete(2));
  }

  /**
   * A delete accepted in the middle of a change, and refused by the Worker because the container
   * is not from the image the metadata names: the Workspace is neither deleted nor changed.
   */
  lemma DeleteStrandsInterruptedChange() returns (s: Sys)
    ensures Reached(s, NONE) && Stuck(s) && s.disk.managed
    ensures SR.Deleted(s.disk, 2).1 == SR.Failed(SR.RuntimeConfigurationMismatch)
  {
    hide Apply, Enabled, Careful, IsTrace, BrokenBy, Reached;
    s := CrashedSwitch();
    s := TakeLifecycle(s, NONE, Delete);
    s := TakeDeleteAtWorker(s);
    s := TakeLifecycle(s, NONE, RuntimeFailure(false));
  }

  // ---------------------------------------------------------------- starting and stopping

  /** The Worker has a container of the image, from the metadata it keeps. */
  predicate Sound(d: SR.Disk, image: ImageRef) {
    && d.managed && d.meta.image == image && d.container.Some? && d.container.value.image == image
    && SR.ContainerMatches(d.meta, d.container.value)
  }

  function Up(d: SR.Disk): SR.Disk
    requires d.container.Some?
  {
    d.(container := Some(d.container.value.(running := true)))
  }

  lemma GoUp(s: Sys, n: Broken) returns (r: Sys)
    requires Reached(s, n) && Idle(s) && Sound(s.disk, s.disk.meta.image) && !IsUp(s.disk)
    ensures Reached(r, if s.row.desired == WantRunning then n else n.(untimely := n.untimely + 1))
    ensures r == s.(disk := Up(s.disk))
  {
    r := Take(s, n, OtherCommand(Up(s.disk)));
  }

  lemma GoDown(s: Sys, d: SR.Disk) returns (r: Sys)
    requires Reached(s, NONE) && Idle(s) && !IsUp(d) && Sound(d, d.meta.image) && s.disk == Up(d)
    ensures Reached(r, NONE) && r == s.(disk := d)
  {
    r := Take(s, NONE, OtherCommand(d));
  }

  /** The Worker answers a handler that asks about the image it has. */
  lemma AskAndSee(s: Sys, n: Broken, i: nat) returns (r: Sys)
    requires Reached(s, n) && Idle(s) && i < |s.recons| && Sound(s.disk, s.recons[i].image)
    ensures Reached(r, n)
    ensures r == s.(recons := s.recons[i := s.recons[i].(report := Some(Seen(if IsUp(s.disk) then Running else Stopped)))])
  {
    hide Careful, RuntimeLife.Timely, Reached, With, IsTrace, BrokenBy;
    r := TakeFree(s, n, ReconSend(i));
    assert r.queue == [InspectCmd(i)];
    r := TakeFree(r, n, TakeInspect(false, true));
    assert r.queue == [];
  }

  /** A start is accepted and carried out; its handler knows, but has not recorded it. */
  lemma Started(s: Sys) returns (r: Sys)
    requires Reached(s, NONE) && Idle(s) && Sound(s.disk, s.row.image) && !IsUp(s.disk)
    requires s.row.worker == Some(WORKER) && Startable(s.row.state) && !ChangeIncomplete(s.row)
    ensures Reached(r, NONE)
    ensures r == s.(
      row := s.row.(state := Starting, desired := WantRunning), wishes := s.wishes + 1, snaps := s.snaps + {s.row}, disk := Up(s.disk),
      recons := s.recons + [Recon(s.epoch, s.wishes + 1, s.row.image, WantRunning, Starts, Some(Seen(Running)))])
  {
    hide Apply, Enabled, Careful, IsTrace, BrokenBy, Reached;
    r := TakeStart(s);
    r := GoUp(r, NONE);
    r := AskAndSee(r, NONE, |s.recons|);
  }

  lemma TakeStartWrite(s: Sys, n: Broken, i: nat) returns (r: Sys)
    requires Reached(s, n) && i < |s.recons| && s.recons[i].purpose == Starts && s.recons[i].report == Some(Seen(Running))
    requires s.row.worker == Some(WORKER) && s.row.state == Starting
    ensures r == s.(row := s.row.(state := Running))
    ensures Reached(r, Broken(
      n.careless + (if s.recons[i].epoch == s.epoch then 0 else 1), n.untimely + (if s.recons[i].wishes == s.wishes then 0 else 1)))
  {
    r := Take(s, n, StartWrite(i));
  }

  lemma StartUp(s: Sys) returns (r: Sys)
    requires Reached(s, NONE) && Idle(s) && Sound(s.disk, s.row.image) && !IsUp(s.disk)
    requires s.row.worker == Some(WORKER) && Startable(s.row.state) && !ChangeIncomplete(s.row)
    ensures Reached(r, NONE)
    ensures r == s.(
      row := s.row.(state := Running, desired := WantRunning), wishes := s.wishes + 1, snaps := s.snaps + {s.row}, disk := Up(s.disk),
      recons := s.recons + [Recon(s.epoch, s.wishes + 1, s.row.image, WantRunning, Starts, Some(Seen(Running)))])
  {
    hide Apply, Enabled, Careful, IsTrace, BrokenBy, Reached;
    r := Started(s);
    r := TakeStartWrite(r, NONE, |s.recons|);
  }

  /** A stop is accepted and carried out; its handler knows, but has not recorded it. */
  lemma StopDown(s: Sys, d: SR.Disk) returns (r: Sys)
    requires Reached(s, NONE) && Idle(s) && Sound(d, s.row.image) && !IsUp(d) && s.disk == Up(d)
    requires s.row.worker == Some(WORKER) && s.row.state == Running
    ensures Reached(r, NONE)
    ensures r == s.(
      row := s.row.(state := Stopping, desired := WantStopped), wishes := s.wishes + 1, disk := d,
      recons := s.recons + [Recon(s.epoch, s.wishes + 1, s.row.image, WantStopped, Stops, Some(Seen(Stopped)))])
  {
    hide Apply, Enabled, Careful, IsTrace, BrokenBy, Reached;
    r := TakeStop(s);
    r := GoDown(r, d);
    r := AskAndSee(r, NONE, |s.recons|);
  }

  lemma TakeStopWrite(s: Sys, i: nat) returns (r: Sys)
    requires Reached(s, NONE) && i < |s.recons| && s.recons[i].purpose == Stops && s.recons[i].report == Some(Seen(Stopped))
    requires s.row.worker == Some(WORKER) && s.row.state == Stopping
    ensures r == s.(row := s.row.(state := Stopped))
    ensures Reached(r, if s.recons[i].wishes == s.wishes then NONE else UNTIMELY)
  {
    r := Take(s, NONE, StopWrite(i));
  }

  // ---------------------------------------------------------------- a start in the middle of a change

  lemma DoneThenOffline() returns (s: Sys)
    ensures Reached(s, NONE) && Idle(s) && s.row == UPGRADING_TO_B.(state := WorkerOffline) && s.disk == DISK_ON_B
    ensures s.recons == [] && s.epoch == 1 && s.wishes == 0
  {
    hide Apply, Enabled, Careful, IsTrace, BrokenBy, Reached;
    s := DoneChange(false);
    s := TakeLifecycle(s, NONE, Offline);
  }

  /** A start and then a stop are accepted in the middle of a change; the stop is given up. */
  lemma StartThenStop(s: Sys) returns (r: Sys)
    requires Reached(s, NONE) && Idle(s) && s.disk == DISK_ON_B
    requires s.row == UPGRADING_TO_B.(state := WorkerOffline, desired := s.row.desired)
    ensures Reached(r, NONE) && Idle(r) && r.disk == Up(DISK_ON_B) && r.row == INTERRUPTED && r.wishes == s.wishes + 2
  {
    hide Apply, Enabled, Careful, IsTrace, BrokenBy, Reached;
    r := StartUp(s);
    r := TakeStop(r);
    r := TakeLifecycle(r, NONE, RuntimeFailure(false));
  }

  /**
   * A start accepted in the middle of a change need not strand it: once the Workspace was started
   * and a stop was accepted, the guard passes again, though the attempt is refused until the
   * container is down.
   */
  lemma StopReopensInterruptedChange() returns (s: Sys)
    ensures Reached(s, NONE) && ChangeIncomplete(s.row) && s.wishes == 2 && IsUp(s.disk)
    ensures BeginRuntimeChange(s.row, WORKER, A, B).Some? && BeginRuntimeChange(s.row, WORKER, B, A).Some?
    ensures SR.Check(s.disk, A, B, OFFER_B) == Some(SR.Failed(SR.WorkspaceRunning))
  {
    s := DoneThenOffline();
    hide Apply, Enabled, Careful, IsTrace, BrokenBy, Reached;
    s := StartThenStop(s);
  }

  // ---------------------------------------------------------------- starts that do not match a change

  /**
   * A start whose handler had read the row before the change is accepted in the middle of it: the
   * Worker, still on A, starts what it is asked for, and the row says it runs B.
   */
  lemma StaleStartLosesCoupling() returns (s: Sys)
    ensures Reached(s, CARELESS) && !Coupled(s) && s.row.state == Running && Idle(s)
  {
    hide Apply, Enabled, Careful, IsTrace, BrokenBy, Reached;
    s := Undelivered();
    s := StartStale(s);
    s := GoUp(s, CARELESS);
    s := AskAndSee(s, CARELESS, 0);
    s := TakeStartWrite(s, CARELESS, 0);
  }

  lemma StartStale(s: Sys) returns (r: Sys)
    requires Reached(s, NONE) && s.row == UPGRADING_TO_B.(state := WorkerOffline) && STOPPED_ON_A in s.snaps
    ensures Reached(r, CARELESS) && r == StartStep(s, STOPPED_ON_A)
  {
    r := Take(s, NONE, StartBegin(STOPPED_ON_A));
  }

  const STOPPED_ON_B: Row := Row(Some(WORKER), Stopped, WantStopped, B, Some(A), Some(0))

  /** A reconciliation finds the Workspace of a start that was cut off running, and settles it. */
  lemma SettleStarted(s: Sys) returns (r: Sys)
    requires Reached(s, NONE) && Idle(s) && s.disk == Up(DISK_ON_B) && |s.recons| == 1
    requires s.row == UPGRADING_TO_B.(state := WorkerOffline, desired := WantRunning)
    ensures Reached(r, NONE) && Idle(r) && r.disk == s.disk && r.epoch == s.epoch && r.wishes == s.wishes
    ensures r.row == STOPPED_ON_B.(state := Running, desired := WantRunning) && |r.recons| == 2 && r.recons[0] == s.recons[0]
  {
    hide Apply, Enabled, Careful, IsTrace, BrokenBy, Reached;
    r := AskAgain(s, 1);
    r := TakeSettle(r, NONE, 1, Running);
  }

  /** A reconciliation asks the Worker and is answered. */
  lemma AskAgain(s: Sys, i: nat) returns (r: Sys)
    requires Reached(s, NONE) && Idle(s) && Sound(s.disk, s.row.image) && i == |s.recons|
    ensures Reached(r, NONE)
    ensures var seen := Seen(if IsUp(s.disk) then Running else Stopped);
      r == s.(
        row := s.row.(state := WorkerOffline),
        recons := s.recons + [Recon(s.epoch, s.wishes, s.row.image, s.row.desired, Reconciles, Some(seen))])
  {
    r := TakeReconBegin(s);
    hide Apply, Enabled, Careful, IsTrace, BrokenBy, Reached;
    r := AskAndSee(r, NONE, i);
  }

  lemma TakeReconBegin(s: Sys) returns (r: Sys)
    requires Reached(s, NONE)
    ensures Reached(r, NONE)
    ensures r == s.(
      row := s.row.(state := WorkerOffline),
      recons := s.recons + [Recon(s.epoch, s.wishes, s.row.image, s.row.desired, Reconciles, None)])
  {
    hide Careful, RuntimeLife.Timely, Reached, With, IsTrace, BrokenBy;
    r := TakeFree(s, NONE, ReconBegin);
  }

  /** A start that was confirmed, but not recorded by its own handler, and a stop afterwards. */
  lemma StoppedAfterStart() returns (s: Sys)
    ensures Reached(s, NONE) && Idle(s) && s.disk == DISK_ON_B && s.row == STOPPED_ON_B && s.epoch == 1 && s.wishes == 2
    ensures |s.recons| == 3 && s.recons[0] == Recon(1, 1, B, WantRunning, Starts, Some(Seen(Running)))
  {
    hide Apply, Enabled, Careful, IsTrace, BrokenBy, Reached;
    s := DoneThenOffline();
    s := Started(s);
    s := TakeLifecycle(s, NONE, Offline);
    s := SettleStarted(s);
    s := StopDown(s, DISK_ON_B);
    s := TakeStopWrite(s, 2);
  }

  /** The handler of an earlier start records it after a later change has begun. */
  lemma LateStartLosesCoupling() returns (s: Sys)
    ensures Reached(s, BOTH) && !Coupled(s) && s.row.state == Running && Idle(s)
  {
    hide Apply, Enabled, Careful, IsTrace, BrokenBy, Reached;
    s := StoppedAfterStart();
    s := TakeRead(s, NONE);
    s := TakeBegin(s, NONE, STOPPED_ON_B, A);
    s := TakeLifecycle(s, NONE, RuntimeFailure(true));
    s := TakeStart(s);
    s := TakeStartWrite(s, NONE, 0);
  }

  /** The ensure command of an earlier start brings back a deleted Workspace on the image it was sent with. */
  lemma LateEnsureLosesCoupling() returns (s: Sys)
    ensures Reached(s, CARELESS) && !Coupled(s) && s.row.state == Deleting && Idle(s)
  {
    hide Apply, Enabled, Careful, IsTrace, BrokenBy, Reached;
    s := StoppedAfterStart();
    s := TakeRead(s, NONE);
    s := TakeBegin(s, NONE, STOPPED_ON_B, A);
    s := SendAndTake(s, NONE, 2, Some(SR.Offer(A, Some(A))));
    s := SwitchAndCreate(s, A);
    s := PinAndAnswer(s, A, true);
    s := FinishOnA(s);
    s := TakeLifecycle(s, NONE, Delete);
    s := TakeDeleteAtWorker(s);
    s := EnsureLate(s);
  }

  lemma FinishOnA(s: Sys) returns (r: Sys)
    requires Reached(s, NONE) && s.epoch == 2 && 2 in s.changes && s.changes[2].verdict == Some(Ok) && s.changes[2].toImage == A
    requires s.row.worker == Some(WORKER) && s.row.state == Upgrading && s.row.image == A
    ensures Reached(r, NONE) && r == s.(row := s.row.(state := Stopped, changedAt := Some(0)))
  {
    r := Take(s, NONE, Finish(2, 0));
  }

  lemma EnsureLate(s: Sys) returns (r: Sys)
    requires Reached(s, NONE) && s.exec.None? && !s.disk.managed && s.epoch == 2
    requires s.recons != [] && s.recons[0].purpose == Starts && s.recons[0].epoch == 1 && s.recons[0].image == B
    ensures Reached(r, CARELESS) && r == s.(disk := SR.Disk(SR.Metadata(B, None, Some(B)), None, true))
  {
    r := Take(s, NONE, Recreate(0, Some(B), None));
  }

  // ---------------------------------------------------------------- what outlives its wish

  /** A delete command carried out after the wish to delete is gone leaves nothing to retry on. */
  lemma LateDeleteDefeatsRetry() returns (s: Sys)
    ensures Reached(s, UNTIMELY) && ChangeIncomplete(s.row) && s.row.desired == WantStopped
    ensures SR.Check(s.disk, A, B, OFFER_B) == Some(SR.Failed(SR.WorkspaceNotManaged))
  {
    s := DoneThenOffline();
    hide Apply, Enabled, Careful, IsTrace, BrokenBy, Reached;
    s := TakeLifecycle(s, NONE, Delete);
    s := TakeLifecycle(s, NONE, RuntimeFailure(true));
    s := StartThenStop(s);
    s := GoDown(s, DISK_ON_B);
    s := TakeDeleteAtWorker(s);
  }

  /** A start command carried out after the wish to run is gone has every retry refused. */
  lemma LateStartDefeatsRetry() returns (s: Sys)
    ensures Reached(s, UNTIMELY) && ChangeIncomplete(s.row) && s.row.desired == WantStopped
    ensures SR.Check(s.disk, A, B, OFFER_B) == Some(SR.Failed(SR.WorkspaceRunning))
  {
    s := DoneThenOffline();
    hide Apply, Enabled, Careful, IsTrace, BrokenBy, Reached;
    s := StartThenStop(s);
    s := GoDown(s, DISK_ON_B);
    s := GoUp(s, NONE);
  }

  /**
   * The handler of a stop records it only after the Workspace was started again and another stop
   * was accepted: the row says stopped while the container is up.
   */
  lemma LateStopLeavesItUp() returns (s: Sys)
    ensures Reached(s, UNTIMELY) && Idle(s) && s.row == STOPPED_ON_A && s.disk == Up(DISK_ON_A) && s.epoch == 0
  {
    hide Apply, Enabled, Careful, IsTrace, BrokenBy, Reached;
    s := Fresh();
    s := StartUp(s);
    s := StopDown(s, DISK_ON_A);
    s := TakeLifecycle(s, NONE, Offline);
    s := StartUp(s);
    s := TakeStop(s);
    s := TakeStopWrite(s, 1);
  }

  /**
   * A change begun on such a row and interrupted passes the store guard, with no start or delete
   * accepted since it began, and the Worker refuses retry and rollback.
   */
  lemma LateStopDefeatsRetry() returns (s: Sys)
    ensures Reached(s, UNTIMELY) && s.row == INTERRUPTED && s.epoch == 1 && 1 in s.changes && s.changes[1].snap.state == Stopped
    ensures BeginRuntimeChange(s.row, WORKER, A, B).Some? && BeginRuntimeChange(s.row, WORKER, B, A).Some?
    ensures SR.Check(s.disk, A, B, OFFER_B) == Some(SR.Failed(SR.WorkspaceRunning))
    ensures SR.Check(s.disk, B, A, Some(SR.Offer(A, Some(A)))) == Some(SR.Failed(SR.WorkspaceRunning))
  {
    hide Apply, Enabled, Careful, IsTrace, BrokenBy, Reached;
    s := LateStopLeavesItUp();
    s := TakeRead(s, UNTIMELY);
    s := TakeBegin(s, UNTIMELY, STOPPED_ON_A, B);
    s := TakeLifecycle(s, UNTIMELY, RuntimeFailure(false));
  }

  /** What a reconciliation saw stopped is written after a start, a stop and another disconnect. */
  lemma LateReportLeavesItUp() returns (s: Sys)
    ensures Reached(s, UNTIMELY) && Idle(s) && s.row == STOPPED_ON_A && s.disk == Up(DISK_ON_A)
  {
    hide Apply, Enabled, Careful, IsTrace, BrokenBy, Reached;
    s := Fresh();
    s := AskAgain(s, 0);
    s := StartUp(s);
    s := TakeStop(s);
    s := TakeLifecycle(s, NONE, Offline);
    s := TakeSettle(s, NONE, 0, Stopped);
  }

  /** The handler of a start records it after the Workspace was deleted and another start was accepted. */
  lemma LateStartWithoutWorkspace() returns (s: Sys)
    ensures Reached(s, UNTIMELY) && s.row.state == Running && !s.disk.managed
  {
    hide Apply, Enabled, Careful, IsTrace, BrokenBy, Reached;
    s := Fresh();
    s := Started(s);
    s := TakeLifecycle(s, NONE, Offline);
    s := TakeLifecycle(s, NONE, Delete);
    s := TakeDeleteAtWorker(s);
    s := TakeLifecycle(s, NONE, RuntimeFailure(true));
    s := TakeStart(s);
    s := TakeStartWrite(s, NONE, 0);
  }
}
