/**
 * Whether the Worker has the Workspace, and whether its container is up, as the wish for the
 * Workspace is turned by starts, stops and deletes in the middle of changes.
 */
module RuntimeLife {
  import opened Wrappers
  import opened WorkspaceRows
  import opened RuntimeProtocol
  import RuntimeCoupling
  import SR = SetRuntime

  /**
   * No command and no settling write outlives the wish it belongs to: the Worker starts the
   * container only while the Workspace is to run and deletes it only while it is to be deleted,
   * and a handler settles the row only while no later start, stop or delete was accepted.
   */
  predicate Timely(s: Sys, step: Step)
    requires Enabled(s, step)
  {
    match step
    case OtherCommand(d) => IsUp(d) && !IsUp(s.disk) ==> s.row.desired == WantRunning
    case TakeDelete(_) => s.row.desired == WantDeleted
    case ReconWrite(r, now) => Settles(s, r, now) ==> s.recons[r].wishes == s.wishes
    case StartWrite(r) => FinishStart(s.row, WORKER).Some? ==> s.recons[r].wishes == s.wishes
    case StopWrite(r) => FinishStop(s.row, WORKER).Some? ==> s.recons[r].wishes == s.wishes
    case _ => true
  }

  ghost predicate IsTimelyRun(states: seq<Sys>, steps: seq<Step>) {
    && RuntimeProtocol.IsCarefulRun(states, steps)
    && forall k :: 0 <= k < |steps| ==> Timely(states[k], steps[k])
  }

  /** A stopped row, and a change begun on one or carried out by the Worker, has its container down. */
  predicate DownOk(s: Sys) {
    && (s.row.state == Stopped ==> !IsUp(s.disk))
    && (s.row.state == Upgrading && s.epoch in s.changes ==>
        (s.changes[s.epoch].snap.state == Stopped || s.changes[s.epoch].verdict == Some(Ok) ==> !IsUp(s.disk)))
    && (s.exec.Some? ==>
        (s.exec.value.pc.Confirming? || s.exec.value.pc.Pinning? || s.exec.value.pc.Verifying? ==> !IsUp(s.disk)))
  }

  /** The Worker has the Workspace unless it is to be deleted, or is being brought back. */
  predicate ManagedOk(s: Sys) {
    s.disk.managed || s.row.desired == WantDeleted || (s.row.desired == WantRunning && s.row.state != Running)
  }

  /** What a handler that belongs to the present wish has seen is still so. */
  predicate SeenOk(s: Sys, recon: Recon) {
    && recon.wishes <= s.wishes
    && (recon.purpose == Starts ==> recon.desired == WantRunning)
    && (recon.purpose == Stops ==> recon.desired == WantStopped)
    && (recon.wishes == s.wishes ==>
        && (recon.desired != WantDeleted ==>
            && s.row.desired != WantDeleted
            && (recon.report.Some? && recon.report.value.Seen? ==> s.disk.managed))
        && (recon.desired != WantRunning ==>
            && s.row.desired != WantRunning
            && (recon.report == Some(Seen(Stopped)) ==> !IsUp(s.disk))))
  }

  ghost predicate LifeInv(s: Sys) {
    && StateAgrees(s.row) && s.row.desired != Unknown
    && DownOk(s)
    && ManagedOk(s)
    && (forall r :: 0 <= r < |s.recons| ==> SeenOk(s, s.recons[r]))
  }

  // ---------------------------------------------------------------- steps that do not touch the Worker

  lemma BeginKeepsLife(s: Sys, snap: Row, target: ImageRef)
    requires LifeInv(s) && Enabled(s, Begin(snap, target)) && Careful(s, Begin(snap, target))
    ensures LifeInv(Apply(s, Begin(snap, target)))
  {
  }

  /** The latest handler may hear of anything but a success it has not earned. */
  lemma HearingKeepsLife(s: Sys, c: nat, v: Verdict, answered: bool)
    requires LifeInv(s) && c in s.changes && (v == Ok && c == s.epoch ==> !IsUp(s.disk))
    ensures LifeInv(Answer(s, c, v, answered))
  {
  }

  lemma SendKeepsLife(s: Sys, c: nat, delivered: bool)
    requires LifeInv(s) && c in s.changes
    ensures LifeInv(SendStep(s, c, delivered))
  {
  }

  /** The row changes its state without turning the wish to running or deleted. */
  lemma RowKeepsLife(s: Sys, row: Row)
    requires LifeInv(s) && StateAgrees(row) && row.desired != Unknown
    requires row.desired == s.row.desired || row.desired == WantStopped
    requires row.desired == WantStopped && s.row.desired != WantStopped ==> s.disk.managed
    requires row.state == Stopped ==> !IsUp(s.disk)
    requires row.state == Running ==> s.disk.managed
    requires row.state == Upgrading ==> s.row.state == Upgrading
    ensures LifeInv(s.(row := row))
  {
    var t := s.(row := row);
    forall r | 0 <= r < |s.recons| ensures SeenOk(t, t.recons[r]) { assert SeenOk(s, s.recons[r]); }
  }

  /** A wish is accepted, so that no handler at work belongs to it. */
  lemma TurningKeepsLife(s: Sys, row: Row)
    requires LifeInv(s) && StateAgrees(row)
    requires
      || (row.state == Starting && row.desired == WantRunning)
      || (row.state == Stopping && row.desired == WantStopped && s.row.state == Running)
      || (row.state == Deleting && row.desired == WantDeleted)
    ensures LifeInv(s.(row := row, wishes := s.wishes + 1))
  {
    var t := s.(row := row, wishes := s.wishes + 1);
    forall r | 0 <= r < |s.recons| ensures SeenOk(t, t.recons[r]) { assert SeenOk(s, s.recons[r]); }
  }

  lemma AskingKeepsLife(s: Sys, recon: Recon)
    requires LifeInv(s) && recon.wishes == s.wishes && recon.desired == s.row.desired && recon.report.None?
    requires recon.purpose == Starts ==> recon.desired == WantRunning
    requires recon.purpose == Stops ==> recon.desired == WantStopped
    ensures LifeInv(s.(recons := s.recons + [recon]))
  {
    var t := s.(recons := s.recons + [recon]);
    forall r | 0 <= r < |t.recons| ensures SeenOk(t, t.recons[r]) {
      if r < |s.recons| { assert SeenOk(s, s.recons[r]); }
    }
  }

  lemma StartBeginKeepsLife(s: Sys, snap: Row)
    requires LifeInv(s) && Enabled(s, StartBegin(snap))
    ensures LifeInv(Apply(s, StartBegin(snap)))
  {
    var row := ScheduleStart(s.row, WORKER).value;
    assert Apply(s, StartBegin(snap)) == StartStep(s, snap);
    assert StateAgrees(row) && row.state == Starting && row.desired == WantRunning;
    hide Apply, Enabled, LifeInv;
    var t := s.(row := row, wishes := s.wishes + 1);
    TurningKeepsLife(s, row);
    AskingKeepsLife(t, Recon(s.epoch, s.wishes + 1, snap.image, WantRunning, Starts, None));
  }

  lemma StopBeginKeepsLife(s: Sys, u: Update)
    requires LifeInv(s) && Enabled(s, StopBegin(u))
    ensures LifeInv(Apply(s, StopBegin(u)))
  {
    var row := Updated(s.row, WORKER, u).value;
    assert Apply(s, StopBegin(u)) == StopStep(s, u);
    UpdatedAgrees(s.row, WORKER, u);
    assert row.state == Stopping && s.row.state == Running;
    hide Apply, Enabled, LifeInv;
    var t := s.(row := row, wishes := s.wishes + 1);
    TurningKeepsLife(s, row);
    AskingKeepsLife(t, Recon(s.epoch, s.wishes + 1, s.row.image, WantStopped, Stops, None));
  }

  lemma StopWriteKeepsLife(s: Sys, r: nat)
    requires LifeInv(s) && Enabled(s, StopWrite(r)) && Timely(s, StopWrite(r))
    ensures LifeInv(Apply(s, StopWrite(r)))
  {
    var next := FinishStop(s.row, WORKER);
    assert Apply(s, StopWrite(r)) == WithRow(s, next);
    if next.Some? {
      assert SeenOk(s, s.recons[r]);
      RowKeepsLife(s, next.value);
    }
  }

  lemma ReconBeginKeepsLife(s: Sys)
    requires LifeInv(s) && s.row.worker == Some(WORKER)
    ensures LifeInv(Apply(s, ReconBegin))
  {
    var row := s.row.(state := WorkerOffline);
    RowKeepsLife(s, row);
    AskingKeepsLife(s.(row := row), Recon(s.epoch, s.wishes, s.row.image, s.row.desired, Reconciles, None));
  }

  lemma LifecycleKeepsLife(s: Sys, u: Update)
    requires LifeInv(s) && Enabled(s, Lifecycle(u))
    ensures LifeInv(Apply(s, Lifecycle(u)))
  {
    var next := Updated(s.row, WORKER, u);
    assert Apply(s, Lifecycle(u)) == LifecycleStep(s, u);
    if next.Some? {
      UpdatedAgrees(s.row, WORKER, u);
      if u.Delete? {
        TurningKeepsLife(s, next.value);
      } else {
        RowKeepsLife(s, next.value);
      }
    }
  }

  lemma FinishKeepsLife(s: Sys, c: nat, now: Time)
    requires Inv(s) && LifeInv(s) && Enabled(s, Finish(c, now)) && Careful(s, Finish(c, now))
    ensures LifeInv(Apply(s, Finish(c, now)))
  {
    var next := FinishRuntimeChange(s.row, WORKER, s.changes[c].toImage, now);
    assert Apply(s, Finish(c, now)) == WithRow(s, next);
    if next.Some? { RowKeepsLife(s, next.value); }
  }

  lemma RevertKeepsLife(s: Sys, c: nat)
    requires Inv(s) && LifeInv(s) && Enabled(s, Revert(c)) && Careful(s, Revert(c))
    ensures LifeInv(Apply(s, Revert(c)))
  {
    var next := RevertRuntimeChange(s.row, WORKER, RestoreOf(s.changes[c].snap));
    assert Apply(s, Revert(c)) == WithRow(s, next);
    if next.Some? {
      assert LatestOk(s);
      var snap := s.changes[c].snap;
      assert snap.state == Stopped || snap.state == Error;
      RowKeepsLife(s, next.value);
    }
  }

  lemma ReconWriteKeepsLife(s: Sys, r: nat, now: Time)
    requires LifeInv(s) && s.row.worker == Some(WORKER) && Enabled(s, ReconWrite(r, now)) && Timely(s, ReconWrite(r, now))
    ensures LifeInv(Apply(s, ReconWrite(r, now)))
  {
    var recon := s.recons[r];
    var state := RecoveredState(recon.desired, recon.report.value);
    assert Apply(s, ReconWrite(r, now)) == ReconWriteStep(s, r, now);
    if state.Some? {
      var next := ReconcileRecovery(s.row, WORKER, recon.image, recon.desired, state.value, now);
      if next.Some? {
        assert SeenOk(s, recon);
        RowKeepsLife(s, next.value);
      }
    }
  }

  lemma StartWriteKeepsLife(s: Sys, r: nat)
    requires LifeInv(s) && Enabled(s, StartWrite(r)) && Timely(s, StartWrite(r))
    ensures LifeInv(Apply(s, StartWrite(r)))
  {
    var next := FinishStart(s.row, WORKER);
    assert Apply(s, StartWrite(r)) == WithRow(s, next);
    if next.Some? {
      assert SeenOk(s, s.recons[r]);
      RowKeepsLife(s, next.value);
    }
  }

  // ---------------------------------------------------------------- steps of the Worker

  /** The disk changes, and goes up or away only as the wish allows. */
  lemma DiskKeepsLife(s: Sys, d: SR.Disk, exec: Option<Exec>)
    requires LifeInv(s)
    requires IsUp(d) ==> IsUp(s.disk) || s.row.desired == WantRunning
    requires !d.managed && s.disk.managed ==> s.row.desired == WantDeleted
    requires exec.Some? && (exec.value.pc.Confirming? || exec.value.pc.Pinning? || exec.value.pc.Verifying?) ==> !IsUp(d)
    ensures LifeInv(s.(disk := d, exec := exec))
  {
    var t := s.(disk := d, exec := exec);
    forall r | 0 <= r < |s.recons| ensures SeenOk(t, t.recons[r]) { assert SeenOk(s, s.recons[r]); }
  }

  lemma QueueKeepsLife(s: Sys, queue: seq<Command>)
    requires LifeInv(s)
    ensures LifeInv(s.(queue := queue))
  {
    var t := s.(queue := queue);
    forall r | 0 <= r < |s.recons| ensures SeenOk(t, t.recons[r]) { assert SeenOk(s, s.recons[r]); }
  }

  lemma TakeSetKeepsLife(s: Sys, offer: Option<SR.Offer>, fault: Option<SR.Code>, answered: bool)
    requires LifeInv(s) && Enabled(s, TakeSet(offer, fault, answered))
    ensures LifeInv(Apply(s, TakeSet(offer, fault, answered)))
  {
    var c := s.queue[0].change;
    var change := s.changes[c];
    var checked := if fault.Some? then Some(SR.Failed(fault.value))
                   else SR.Check(s.disk, change.fromImage, change.toImage, offer);
    QueueKeepsLife(s, s.queue[1..]);
    var rest := s.(queue := s.queue[1..]);
    assert Apply(s, TakeSet(offer, fault, answered)) == TakeSetStep(s, offer, fault, answered);
    if checked.Some? {
      HearingKeepsLife(rest, c, VerdictOf(checked.value), answered);
    } else {
      DiskKeepsLife(rest, s.disk, Some(Exec(c, offer.value.imageId, Switching)));
      TouchingKeepsLife(rest.(exec := Some(Exec(c, offer.value.imageId, Switching))), c);
    }
  }

  lemma TouchingKeepsLife(s: Sys, c: nat)
    requires LifeInv(s) && c in s.changes
    ensures LifeInv(s.(changes := s.changes[c := s.changes[c].(touched := true)]))
  {
    var t := s.(changes := s.changes[c := s.changes[c].(touched := true)]);
    forall r | 0 <= r < |s.recons| ensures SeenOk(t, t.recons[r]) { assert SeenOk(s, s.recons[r]); }
  }

  lemma TakeInspectKeepsLife(s: Sys, retryable: bool, answered: bool)
    requires LifeInv(s) && Enabled(s, TakeInspect(retryable, answered))
    ensures LifeInv(Apply(s, TakeInspect(retryable, answered)))
  {
    var t := TakeInspectStep(s, retryable, answered);
    assert t == Apply(s, TakeInspect(retryable, answered));
    forall r | 0 <= r < |t.recons| ensures SeenOk(t, t.recons[r]) { assert SeenOk(s, s.recons[r]); }
  }

  lemma WorkKeepsLife(s: Sys, id: SR.ImageId, fault: Option<SR.Code>, answered: bool)
    requires LifeInv(s) && Enabled(s, Work(id, fault, answered))
    ensures LifeInv(Apply(s, Work(id, fault, answered)))
  {
    var x := s.exec.value;
    var change := s.changes[x.change];
    assert Apply(s, Work(id, fault, answered)) == WorkStep(s, id, fault, answered);
    hide Apply, Enabled, LifeInv;
    if fault.Some? {
      var d := if x.pc.Confirming? || x.pc.Verifying? then SR.Found(s.disk, fault.value) else s.disk;
      DiskKeepsLife(s, d, None);
      HearingKeepsLife(s.(disk := d, exec := None), x.change, VerdictOf(SR.Failed(fault.value)), answered);
    } else {
      match x.pc
      case Switching =>
        DiskKeepsLife(s, SR.SwitchMetadata(s.disk, change.fromImage, change.toImage), Some(x.(pc := Removing)));
      case Removing => DiskKeepsLife(s, SR.RemoveContainer(s.disk), Some(x.(pc := Creating)));
      case Creating => DiskKeepsLife(s, SR.CreateContainer(s.disk, change.toImage, id), Some(x.(pc := Confirming(id))));
      case Confirming(created) =>
        ExecIsDown(s);
        DiskKeepsLife(s, s.disk, Some(x.(pc := Pinning(created))));
        DiskKeepsLife(s, SR.RemoveContainer(s.disk), None);
        HearingKeepsLife(
          s.(disk := SR.RemoveContainer(s.disk), exec := None), x.change, VerdictOf(SR.Failed(SR.RuntimeImageUnavailable)), answered);
      case Pinning(created) =>
        ExecIsDown(s);
        DiskKeepsLife(s, SR.PinImageId(s.disk, created), Some(x.(pc := Verifying)));
      case Verifying =>
        ExecIsDown(s);
        DiskKeepsLife(s, s.disk, None);
        HearingKeepsLife(s.(exec := None), x.change, Ok, answered);
    }
  }

  lemma ExecIsDown(s: Sys)
    requires LifeInv(s) && s.exec.Some?
    requires s.exec.value.pc.Confirming? || s.exec.value.pc.Pinning? || s.exec.value.pc.Verifying?
    ensures !IsUp(s.disk)
  {
  }

  lemma KeepsLife(s: Sys, step: Step)
    requires Inv(s) && LifeInv(s) && Enabled(s, step) && Careful(s, step) && Timely(s, step)
    ensures LifeInv(Apply(s, step))
  {
    assert s.row.worker == Some(WORKER) by { assert RowOk(s.row); }
    match step
    case Read =>
    case Begin(snap, target) => BeginKeepsLife(s, snap, target);
    case Send(c, delivered) => SendKeepsLife(s, c, delivered);
    case TakeSet(offer, fault, answered) => TakeSetKeepsLife(s, offer, fault, answered);
    case TakeInspect(retryable, answered) => TakeInspectKeepsLife(s, retryable, answered);
    case Work(id, fault, answered) => WorkKeepsLife(s, id, fault, answered);
    case Crash => DiskKeepsLife(s, s.disk, None); QueueKeepsLife(s.(exec := None), []);
    case OtherCommand(d) => DiskKeepsLife(s, d, None);
    case TakeDelete(steps) => DiskKeepsLife(s, SR.Deleted(s.disk, steps).0, None);
    case Recreate(r, pin, container) =>
      DiskKeepsLife(s, SR.Disk(SR.Metadata(s.recons[r].image, None, pin), container, true), None);
    case GiveUp(c, offline) => HearingKeepsLife(s, c, Incomplete(offline), true);
    case Finish(c, now) => FinishKeepsLife(s, c, now);
    case Revert(c) => RevertKeepsLife(s, c);
    case ReconBegin => ReconBeginKeepsLife(s);
    case ReconSend(r) => QueueKeepsLife(s, s.queue + [InspectCmd(r)]);
    case ReconWrite(r, now) => ReconWriteKeepsLife(s, r, now);
    case StartBegin(snap) => StartBeginKeepsLife(s, snap);
    case StartWrite(r) => StartWriteKeepsLife(s, r);
    case StopBegin(u) => StopBeginKeepsLife(s, u);
    case StopWrite(r) => StopWriteKeepsLife(s, r);
    case Lifecycle(u) => LifecycleKeepsLife(s, u);
  }

  lemma {:induction false} LifeOnTimelyRuns(states: seq<Sys>, steps: seq<Step>, k: nat)
    requires IsTimelyRun(states, steps) && k < |states|
    ensures LifeInv(states[k])
  {
    if k > 0 {
      LifeOnTimelyRuns(states, steps, k - 1);
      RuntimeCoupling.InvOnCarefulRuns(states, steps, k - 1);
      KeepsLife(states[k - 1], steps[k - 1]);
      assert states[k - 1 + 1] == Apply(states[k - 1], steps[k - 1]);
    }
  }
}
