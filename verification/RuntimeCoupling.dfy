/** The coupling of the stored image and what the Worker holds, over every careful run. */
module RuntimeCoupling {
  import opened Wrappers
  import opened WorkspaceRows
  import opened RuntimeProtocol
  import SR = SetRuntime

  lemma KeepsRead(s: Sys)
    requires Inv(s)
    ensures Inv(Apply(s, Read))
  {
  }

  lemma KeepsBegin(s: Sys, snap: Row, target: ImageRef)
    requires Inv(s) && Enabled(s, Begin(snap, target)) && Careful(s, Begin(snap, target))
    ensures Inv(Apply(s, Begin(snap, target)))
  {
    var source := FromImage(snap, target).value;
    var row := BeginRuntimeChange(s.row, WORKER, source, target);
    if row.Some? {
      var t := BeginStep(s, snap, target);
      BeginImages(s, snap, target);
      BeginHandlers(s, t, snap, row.value, Change(snap, source, target, false, false, None));
      hide HandlersOk, LatestOk, LatestIsLast, ReconsOk, PendingWithin, NotStranded, ExecOk, Within, RowOk, FromImage;
      assert Inv(t);
    }
  }

  /** What the Worker may hold is covered by the new row and by the snapshot a refusal would restore. */
  lemma BeginImages(s: Sys, snap: Row, target: ImageRef)
    requires RowOk(s.row) && RowOk(snap) && FromImage(snap, target).Some? && SafeSnapshot(s.row, snap, target)
    requires BeginRuntimeChange(s.row, WORKER, FromImage(snap, target).value, target).Some?
    ensures snap.state == Stopped || ChangeIncomplete(snap)
    ensures var row := BeginRuntimeChange(s.row, WORKER, FromImage(snap, target).value, target).value;
      && RowOk(row) && row.image == target && row.state == Upgrading
      && Allowed(s.row) <= Allowed(row) && Allowed(s.row) <= Allowed(snap)
  {
  }

  lemma BeginHandlers(s: Sys, t: Sys, snap: Row, row: Row, change: Change)
    requires Inv(s) && RowOk(snap) && RowOk(row) && (snap.state == Stopped || ChangeIncomplete(snap))
    requires Allowed(s.row) <= Allowed(row) && Allowed(s.row) <= Allowed(snap)
    requires change == Change(snap, change.fromImage, row.image, false, false, None)
    requires t == s.(row := row, epoch := s.epoch + 1, changes := s.changes[s.epoch + 1 := change])
    ensures Inv(t)
  {
    hide Allowed;
    assert s.epoch + 1 !in s.changes;
    forall c | Pending(t, c) ensures Pending(s, c) {}
    assert !Pending(t, t.epoch);
    forall c | Pending(t, c) ensures c != t.epoch && t.changes[c] == s.changes[c] {}
  }

  lemma KeepsGiveUp(s: Sys, c: nat, offline: bool)
    requires Inv(s) && Enabled(s, GiveUp(c, offline))
    ensures Inv(Apply(s, GiveUp(c, offline)))
  {
    var t := s.(changes := s.changes[c := s.changes[c].(verdict := Some(Incomplete(offline)))]);
    assert t == Apply(s, GiveUp(c, offline));
    GiveUpHandlers(s, c, offline);
    GiveUpLatest(s, c, offline);
    hide Apply, Enabled, Within, NotStranded, RowOk, ExecOk, LatestIsLast, LatestOk, HandlersOk, PendingWithin;
  }

  lemma GiveUpHandlers(s: Sys, c: nat, offline: bool)
    requires HandlersOk(s) && c in s.changes && s.changes[c].sent
    ensures var t := s.(changes := s.changes[c := s.changes[c].(verdict := Some(Incomplete(offline)))]);
      && HandlersOk(t)
      && ExecOk(t) == ExecOk(s) && LatestIsLast(t) == LatestIsLast(s)
      && forall images :: PendingWithin(s, images) ==> PendingWithin(t, images)
  {
    var t := s.(changes := s.changes[c := s.changes[c].(verdict := Some(Incomplete(offline)))]);
    forall d | Pending(t, d) ensures Pending(s, d) {}
  }

  lemma GiveUpLatest(s: Sys, c: nat, offline: bool)
    requires LatestOk(s) && HandlersOk(s) && c in s.changes && s.changes[c].sent && s.changes[c].verdict.None?
    ensures LatestOk(s.(changes := s.changes[c := s.changes[c].(verdict := Some(Incomplete(offline)))]))
  {
    hide Within, RowOk;
    var t := s.(changes := s.changes[c := s.changes[c].(verdict := Some(Incomplete(offline)))]);
    forall d | Pending(t, d) ensures Pending(s, d) {}
  }

  lemma KeepsSend(s: Sys, c: nat, delivered: bool)
    requires Inv(s) && Enabled(s, Send(c, delivered)) && Careful(s, Send(c, delivered))
    ensures Inv(Apply(s, Send(c, delivered)))
  {
    if delivered {
      KeepsEnqueue(s);
    } else {
      KeepsNotSent(s, c);
    }
  }

  lemma KeepsNotSent(s: Sys, c: nat)
    requires Inv(s) && c in s.changes && !s.changes[c].sent
    ensures Inv(SendStep(s, c, false))
  {
    var t := SendStep(s, c, false);
    forall d | Pending(t, d) ensures Pending(s, d) {}
    forall d | Pending(s, d) ensures d in t.changes && d != c && t.changes[d] == s.changes[d] {}
  }

  lemma KeepsEnqueue(s: Sys)
    requires Inv(s) && s.epoch in s.changes && !s.changes[s.epoch].sent
    ensures Inv(SendStep(s, s.epoch, true))
  {
    var t := SendStep(s, s.epoch, true);
    forall c | Pending(t, c) ensures c == s.epoch || Pending(s, c) {}
    forall c | Pending(s, c) ensures Pending(t, c) {}
  }

  lemma KeepsDropHead(s: Sys)
    requires Inv(s) && s.queue != []
    ensures Inv(s.(queue := s.queue[1..]))
  {
    var t := s.(queue := s.queue[1..]);
    forall c | Pending(t, c) ensures Pending(s, c) {}
  }

  lemma KeepsDropExec(s: Sys)
    requires Inv(s)
    ensures Inv(s.(exec := None))
  {
    var t := s.(exec := None);
    forall c | Pending(t, c) ensures Pending(s, c) {}
  }

  /** A verdict may be recorded when it is true of what the latest change left at the Worker. */
  lemma KeepsAnswer(s: Sys, c: nat, v: Verdict, answered: bool)
    requires Inv(s) && c in s.changes && s.changes[c].sent && (c == s.epoch ==> !Pending(s, c))
    requires v == Refused && c == s.epoch ==> !s.changes[c].touched && NonePending(s)
    requires v == Ok && c == s.epoch ==> NonePending(s) && Within(s.disk, {s.changes[c].toImage})
    ensures Inv(Answer(s, c, v, answered))
  {
    var t := Answer(s, c, v, answered);
    forall d | Pending(t, d) ensures Pending(s, d) {}
  }

  /** The Worker passes its checks and starts on the change. */
  lemma KeepsStart(s: Sys, c: nat, offerId: Option<SR.ImageId>)
    requires Inv(s) && s.exec.None? && s.queue != [] && s.queue[0] == SetCmd(c) && c in s.changes
    requires s.disk.meta.image == s.changes[c].fromImage || s.disk.meta.image == s.changes[c].toImage
    ensures Inv(s.(
      queue := s.queue[1..], exec := Some(Exec(c, offerId, Switching)),
      changes := s.changes[c := s.changes[c].(touched := true)]))
  {
    var t := s.(
      queue := s.queue[1..], exec := Some(Exec(c, offerId, Switching)),
      changes := s.changes[c := s.changes[c].(touched := true)]);
    forall d | Pending(t, d) ensures Pending(s, d) {}
  }

  lemma KeepsTakeSet(s: Sys, offer: Option<SR.Offer>, fault: Option<SR.Code>, answered: bool)
    requires Inv(s) && Enabled(s, TakeSet(offer, fault, answered))
    ensures Inv(Apply(s, TakeSet(offer, fault, answered)))
  {
    var c := s.queue[0].change;
    var change := s.changes[c];
    var checked := if fault.Some? then Some(SR.Failed(fault.value))
                   else SR.Check(s.disk, change.fromImage, change.toImage, offer);
    assert Pending(s, c);
    if checked.None? {
      KeepsStart(s, c, offer.value.imageId);
    } else {
      KeepsDropHead(s);
      var t := s.(queue := s.queue[1..]);
      KeepsAnswer(t, c, VerdictOf(checked.value), answered);
    }
  }

  /** A report may say that it saw the recorded image when nothing else is left at the Worker. */
  lemma KeepsReport(s: Sys, r: nat, report: Report)
    requires Inv(s) && r < |s.recons|
    requires report.Seen? && s.recons[r].epoch == s.epoch ==>
      Within(s.disk, {s.recons[r].image}) && PendingWithin(s, {s.recons[r].image})
    ensures Inv(s.(recons := s.recons[r := s.recons[r].(report := Some(report))]))
  {
    hide LatestOk, LatestIsLast, ExecOk, Within, NotStranded;
    var t := s.(recons := s.recons[r := s.recons[r].(report := Some(report))]);
    SameChanges(s, t);
    forall c | Pending(t, c) ensures Pending(s, c) {}
    forall c | Pending(s, c) ensures Pending(t, c) {}
  }

  /** The reconciliation handlers are apart from the changes. */
  lemma SameChanges(s: Sys, t: Sys)
    requires t == s.(recons := t.recons)
    ensures LatestOk(t) == LatestOk(s) && LatestIsLast(t) == LatestIsLast(s) && ExecOk(t) == ExecOk(s)
  {
    hide Within, RowOk;
    forall c | Pending(t, c) ensures Pending(s, c) {}
    forall c | Pending(s, c) ensures Pending(t, c) {}
  }

  lemma KeepsTakeInspect(s: Sys, retryable: bool, answered: bool)
    requires Inv(s) && Enabled(s, TakeInspect(retryable, answered))
    ensures Inv(Apply(s, TakeInspect(retryable, answered)))
  {
    KeepsDropHead(s);
    if answered {
      if CurrentInspect(s, s.queue[0]) { InspectedAlone(s); }
      var r := s.queue[0].recon;
      var t := Apply(s, TakeInspect(retryable, answered));
      hide Inv;
      KeepsReport(s.(queue := s.queue[1..]), r, t.recons[r].report.value);
    }
  }

  /** When a current inspection is served, only commands of its own change are left. */
  lemma InspectedAlone(s: Sys)
    requires Inv(s) && s.exec.None? && s.queue != [] && CurrentInspect(s, s.queue[0])
    ensures PendingWithin(s.(queue := s.queue[1..]), {s.recons[s.queue[0].recon].image})
  {
  }

  /** A durable step keeps to the images of the change, and to the target once it is switched. */
  lemma WorkDisk(s: Sys, d: SR.Disk)
    requires Inv(s) && s.exec.Some? && s.exec.value.change in s.changes
    requires var change := s.changes[s.exec.value.change];
      || d == SR.SwitchMetadata(s.disk, change.fromImage, change.toImage)
      || (s.disk.meta.image == change.toImage && d == SR.RemoveContainer(s.disk))
      || (s.disk.meta.image == change.toImage && exists id :: d == SR.CreateContainer(s.disk, change.toImage, id))
      || exists id :: d == SR.PinImageId(s.disk, id)
    requires s.exec.value.pc.Switching? || d.meta.image == s.disk.meta.image
    ensures NotStranded(d)
    ensures forall images :: Within(s.disk, images) && s.changes[s.exec.value.change].toImage in images ==> Within(d, images)
  {
    var change := s.changes[s.exec.value.change];
    assert Pending(s, s.exec.value.change);
    if s.exec.value.pc.Switching? && s.disk.meta.image != change.toImage {
      var m, c, allowed := s.disk.meta, s.disk.container, Allowed(s.row);
      assert m.image in allowed && change.toImage in allowed;
      assert c.Some? ==> c.value.image == m.image || c.value.image == change.toImage;
    }
  }

  lemma KeepsProgress(s: Sys, d: SR.Disk, pc: Pc)
    requires Inv(s) && s.exec.Some? && s.exec.value.change in s.changes
    requires NotStranded(d)
    requires forall images :: Within(s.disk, images) && s.changes[s.exec.value.change].toImage in images ==> Within(d, images)
    requires ExecOk(s.(disk := d, exec := Some(s.exec.value.(pc := pc))))
    ensures Inv(s.(disk := d, exec := Some(s.exec.value.(pc := pc))))
  {
    var t := s.(disk := d, exec := Some(s.exec.value.(pc := pc)));
    assert Pending(s, s.exec.value.change);
    forall c | Pending(t, c) ensures Pending(s, c) {}
    forall c | Pending(s, c) ensures Pending(t, c) {}
  }

  lemma KeepsWork(s: Sys, id: SR.ImageId, fault: Option<SR.Code>, answered: bool)
    requires Inv(s) && Enabled(s, Work(id, fault, answered)) && Careful(s, Work(id, fault, answered))
    ensures Inv(Apply(s, Work(id, fault, answered)))
  {
    var x := s.exec.value;
    var change := s.changes[x.change];
    var done := s.(exec := None);
    assert Pending(s, x.change);
    KeepsDropExec(s);
    if fault.Some? {
      // A code that finds no container counts as "unchanged", which careful runs exclude here.
      assert !SR.MeansUnchanged(fault.value) && SR.Found(s.disk, fault.value) == s.disk;
      KeepsAnswerAfterWork(s, VerdictOf(SR.Failed(fault.value)), answered);
    } else {
      match x.pc
      case Switching =>
        var d := SR.SwitchMetadata(s.disk, change.fromImage, change.toImage);
        WorkDisk(s, d);
        KeepsProgress(s, d, Removing);
      case Removing =>
        WorkDisk(s, SR.RemoveContainer(s.disk));
        KeepsProgress(s, SR.RemoveContainer(s.disk), Creating);
      case Creating =>
        WorkDisk(s, SR.CreateContainer(s.disk, change.toImage, id));
        KeepsProgress(s, SR.CreateContainer(s.disk, change.toImage, id), Confirming(id));
      case Confirming(created) =>
        KeepsProgress(s, s.disk, Pinning(created));
      case Pinning(created) =>
        WorkDisk(s, SR.PinImageId(s.disk, created));
        KeepsProgress(s, SR.PinImageId(s.disk, created), Verifying);
      case Verifying =>
        KeepsAnswerAfterWork(s, Ok, answered);
    }
  }

  lemma KeepsAnswerAfterWork(s: Sys, v: Verdict, answered: bool)
    requires Inv(s) && s.exec.Some? && s.exec.value.change in s.changes
    requires v != Refused && (v == Ok ==> s.exec.value.pc.Verifying?)
    ensures Inv(Answer(s.(exec := None), s.exec.value.change, v, answered))
  {
    var c := s.exec.value.change;
    assert Pending(s, c);
    KeepsDropExec(s);
    var done := s.(exec := None);
    KeepsAnswer(done, c, v, answered);
  }

  lemma KeepsCrash(s: Sys)
    requires Inv(s)
    ensures Inv(Apply(s, Crash))
  {
    forall c ensures !Pending(Apply(s, Crash), c) {}
  }

  lemma KeepsFinish(s: Sys, c: nat, now: Time)
    requires Inv(s) && Enabled(s, Finish(c, now)) && Careful(s, Finish(c, now))
    ensures Inv(Apply(s, Finish(c, now)))
  {
  }

  lemma KeepsRevert(s: Sys, c: nat)
    requires Inv(s) && Enabled(s, Revert(c)) && Careful(s, Revert(c))
    ensures Inv(Apply(s, Revert(c)))
  {
    if s.row.state == Upgrading {
      // No reconciliation belongs to a change that is still being made.
      forall r | 0 <= r < |s.recons| ensures s.recons[r].epoch != s.epoch {}
    }
  }

  /** A row may change its state and wish as long as it keeps the fields of the change. */
  lemma KeepsRowState(s: Sys, row: Row)
    requires Inv(s) && RowOk(row)
    requires row.image == s.row.image && row.previous == s.row.previous && row.changedAt == s.row.changedAt
    requires row.state == Upgrading ==> s.row.state == Upgrading
    requires IsSettled(row.state) ==> IsSettled(s.row.state)
    ensures Inv(s.(row := row))
  {
    var t := s.(row := row);
    forall c | Pending(t, c) ensures Pending(s, c) {}
    assert Allowed(s.row) <= Allowed(row);
  }

  /** The counter of turned wishes is no part of the coupling. */
  lemma KeepsWishes(s: Sys, wishes: nat)
    requires Inv(s)
    ensures Inv(s.(wishes := wishes))
  {
    var t := s.(wishes := wishes);
    forall c | Pending(t, c) ensures Pending(s, c) {}
    forall c | Pending(s, c) ensures Pending(t, c) {}
  }

  /** A row is settled only on what was seen at the Worker since the latest change began. */
  lemma KeepsSettle(s: Sys, r: nat, row: Row)
    requires Inv(s) && r < |s.recons| && s.recons[r].epoch == s.epoch
    requires s.recons[r].report.Some? && s.recons[r].report.value.Seen?
    requires RowOk(row) && IsSettled(row.state)
    requires row.image == s.row.image && row.previous == s.row.previous
    ensures Inv(s.(row := row))
  {
    var t := s.(row := row);
    forall c | Pending(t, c) ensures Pending(s, c) {}
    assert Allowed(row) == {s.recons[r].image};
  }

  lemma KeepsReconWrite(s: Sys, r: nat, now: Time)
    requires Inv(s) && Enabled(s, ReconWrite(r, now)) && Careful(s, ReconWrite(r, now))
    ensures Inv(Apply(s, ReconWrite(r, now)))
  {
    var recon := s.recons[r];
    var state := RecoveredState(recon.desired, recon.report.value);
    if state.Some? {
      var row := ReconcileRecovery(s.row, WORKER, recon.image, recon.desired, state.value, now);
      if row.Some? {
        if state.value == Error { KeepsRowState(s, row.value); } else { KeepsSettle(s, r, row.value); }
      }
    }
  }

  lemma KeepsStartWrite(s: Sys, r: nat)
    requires Inv(s) && Enabled(s, StartWrite(r)) && Careful(s, StartWrite(r))
    ensures Inv(Apply(s, StartWrite(r)))
  {
    var row := FinishStart(s.row, WORKER);
    if row.Some? { KeepsSettle(s, r, row.value); }
  }

  /** A handler that starts asking the Worker, on a row that is not being changed. */
  lemma KeepsAsking(s: Sys, recon: Recon)
    requires Inv(s) && s.row.state != Upgrading
    requires recon.epoch == s.epoch && recon.image == s.row.image && recon.report.None?
    ensures Inv(s.(recons := s.recons + [recon]))
  {
    hide LatestOk, LatestIsLast, ExecOk, Within, NotStranded;
    var t := s.(recons := s.recons + [recon]);
    SameChanges(s, t);
    forall c | Pending(t, c) ensures Pending(s, c) {}
    forall c | Pending(s, c) ensures Pending(t, c) {}
  }

  lemma KeepsReconBegin(s: Sys)
    requires Inv(s)
    ensures Inv(Apply(s, ReconBegin))
  {
    assert RowOk(s.row);
    hide Inv;
    var row := s.row.(state := WorkerOffline);
    KeepsRowState(s, row);
    KeepsAsking(s.(row := row), Recon(s.epoch, s.wishes, s.row.image, s.row.desired, Reconciles, None));
  }

  lemma StartRow(s: Sys, snap: Row)
    requires RowOk(s.row) && Enabled(s, StartBegin(snap))
    ensures Apply(s, StartBegin(snap)) == StartStep(s, snap)
    ensures var row := ScheduleStart(s.row, WORKER).value;
      RowOk(row) && row == s.row.(state := Starting, desired := WantRunning)
  {
  }

  lemma KeepsStartBegin(s: Sys, snap: Row)
    requires Inv(s) && Enabled(s, StartBegin(snap)) && snap.image == s.row.image
    ensures Inv(Apply(s, StartBegin(snap)))
  {
    hide Inv, RowOk, Apply;
    InvRow(s);
    StartRow(s, snap);
    KeepsTurning(s, ScheduleStart(s.row, WORKER).value, Recon(s.epoch, s.wishes + 1, snap.image, WantRunning, Starts, None));
  }

  lemma StopRow(s: Sys, u: Update)
    requires RowOk(s.row) && Enabled(s, StopBegin(u))
    ensures Apply(s, StopBegin(u)) == StopStep(s, u)
    ensures var row := Updated(s.row, WORKER, u).value;
      RowOk(row) && s.row.state == Running && row == s.row.(state := Stopping, desired := WantStopped)
  {
  }

  lemma KeepsStopBegin(s: Sys, u: Update)
    requires Inv(s) && Enabled(s, StopBegin(u))
    ensures Inv(Apply(s, StopBegin(u)))
  {
    hide Inv, RowOk, Apply;
    InvRow(s);
    StopRow(s, u);
    KeepsTurning(s, Updated(s.row, WORKER, u).value, Recon(s.epoch, s.wishes + 1, s.row.image, WantStopped, Stops, None));
  }

  lemma InvRow(s: Sys)
    requires Inv(s)
    ensures RowOk(s.row)
  {
  }

  /** A start or stop is accepted, and its handler asks the Worker. */
  lemma KeepsTurning(s: Sys, row: Row, recon: Recon)
    requires Inv(s) && RowOk(row) && row == s.row.(state := row.state, desired := row.desired)
    requires row.state != Upgrading && (IsSettled(row.state) ==> IsSettled(s.row.state))
    requires recon.epoch == s.epoch && recon.image == s.row.image && recon.report.None?
    ensures Inv(s.(row := row, wishes := s.wishes + 1, recons := s.recons + [recon]))
  {
    hide Inv, RowOk;
    var t := s.(row := row);
    KeepsRowState(s, row);
    KeepsAsking(t, recon);
    KeepsWishes(t.(recons := t.recons + [recon]), s.wishes + 1);
  }

  lemma KeepsStopWrite(s: Sys, r: nat)
    requires Inv(s) && Enabled(s, StopWrite(r))
    ensures Inv(Apply(s, StopWrite(r)))
  {
    var row := FinishStop(s.row, WORKER);
    if row.Some? {
      assert RowOk(row.value) by { assert RowOk(s.row); }
      KeepsRowState(s, row.value);
    }
  }

  lemma KeepsReconSend(s: Sys, r: nat)
    requires Inv(s) && Enabled(s, ReconSend(r))
    ensures Inv(Apply(s, ReconSend(r)))
  {
    var t := s.(queue := s.queue + [InspectCmd(r)]);
    assert t == Apply(s, ReconSend(r));
    hide Apply, Enabled, Within, RowOk, NotStranded;
    forall c | Pending(t, c) ensures Pending(s, c) {}
    forall c | Pending(s, c) ensures Pending(t, c) {}
  }

  /** The Worker may come to hold fewer images, or the stored one when no change is being made. */
  lemma KeepsDisk(s: Sys, d: SR.Disk)
    requires Inv(s) && s.exec.None? && NotStranded(d)
    requires (forall images :: Within(s.disk, images) ==> Within(d, images))
      || (s.row.state != Upgrading && Within(d, {s.row.image}))
    ensures Inv(s.(disk := d))
  {
    var t := s.(disk := d);
    forall c | Pending(t, c) ensures Pending(s, c) {}
    forall c | Pending(s, c) ensures Pending(t, c) {}
    assert s.row.image in Allowed(s.row);
  }

  lemma KeepsOtherCommand(s: Sys, d: SR.Disk)
    requires Inv(s) && Enabled(s, OtherCommand(d))
    ensures Inv(Apply(s, OtherCommand(d)))
  {
    KeepsDisk(s, d);
  }

  lemma KeepsTakeDelete(s: Sys, steps: nat)
    requires Inv(s) && Enabled(s, TakeDelete(steps))
    ensures Inv(Apply(s, TakeDelete(steps)))
  {
    KeepsDisk(s, SR.Deleted(s.disk, steps).0);
  }

  lemma KeepsRecreate(s: Sys, r: nat, pin: Option<SR.ImageId>, container: Option<SR.Container>)
    requires Inv(s) && Enabled(s, Recreate(r, pin, container)) && Careful(s, Recreate(r, pin, container))
    ensures Inv(Apply(s, Recreate(r, pin, container)))
  {
    KeepsDisk(s, SR.Disk(SR.Metadata(s.recons[r].image, None, pin), container, true));
  }

  lemma LifecycleRow(row: Row, u: Update)
    requires RowOk(row) && IsLifecycle(u) && Updated(row, WORKER, u).Some?
    ensures var next := Updated(row, WORKER, u).value;
      && RowOk(next)
      && next.image == row.image && next.previous == row.previous && next.changedAt == row.changedAt
      && next.state != Upgrading && (IsSettled(next.state) ==> IsSettled(row.state))
  {
  }

  lemma KeepsLifecycle(s: Sys, u: Update)
    requires Inv(s) && Enabled(s, Lifecycle(u))
    ensures Inv(Apply(s, Lifecycle(u)))
  {
    assert RowOk(s.row);
    assert Apply(s, Lifecycle(u)) == LifecycleStep(s, u);
    hide Inv, Apply, Enabled;
    var next := Updated(s.row, WORKER, u);
    if next.Some? {
      LifecycleRow(s.row, u);
      KeepsLifecycleRow(s, next.value, u);
    }
  }

  lemma KeepsLifecycleRow(s: Sys, row: Row, u: Update)
    requires Inv(s) && RowOk(row) && Updated(s.row, WORKER, u) == Some(row)
    requires row.image == s.row.image && row.previous == s.row.previous && row.changedAt == s.row.changedAt
    requires row.state != Upgrading && (IsSettled(row.state) ==> IsSettled(s.row.state))
    ensures Inv(LifecycleStep(s, u))
  {
    hide Inv, RowOk, Updated;
    KeepsRowState(s, row);
    KeepsWishes(s.(row := row), s.wishes + 1);
  }

  lemma StartIsFresh(s: Sys, snap: Row)
    requires Enabled(s, StartBegin(snap)) && Careful(s, StartBegin(snap))
    ensures snap.image == s.row.image
  {
  }

  lemma KeepsInvariant(s: Sys, step: Step)
    requires Inv(s) && Enabled(s, step) && Careful(s, step)
    ensures Inv(Apply(s, step))
  {
    hide *;
    match step
    case Read => KeepsRead(s);
    case Begin(snap, target) => KeepsBegin(s, snap, target);
    case Send(c, delivered) => KeepsSend(s, c, delivered);
    case TakeSet(offer, fault, answered) => KeepsTakeSet(s, offer, fault, answered);
    case TakeInspect(retryable, answered) => KeepsTakeInspect(s, retryable, answered);
    case Work(id, fault, answered) => KeepsWork(s, id, fault, answered);
    case Crash => KeepsCrash(s);
    case OtherCommand(d) => KeepsOtherCommand(s, d);
    case TakeDelete(steps) => KeepsTakeDelete(s, steps);
    case Recreate(r, pin, container) => KeepsRecreate(s, r, pin, container);
    case GiveUp(c, offline) => KeepsGiveUp(s, c, offline);
    case Finish(c, now) => KeepsFinish(s, c, now);
    case Revert(c) => KeepsRevert(s, c);
    case ReconBegin => KeepsReconBegin(s);
    case ReconSend(r) => KeepsReconSend(s, r);
    case ReconWrite(r, now) => KeepsReconWrite(s, r, now);
    case StartBegin(snap) => StartIsFresh(s, snap); KeepsStartBegin(s, snap);
    case StartWrite(r) => KeepsStartWrite(s, r);
    case StopBegin(u) => KeepsStopBegin(s, u);
    case StopWrite(r) => KeepsStopWrite(s, r);
    case Lifecycle(u) => KeepsLifecycle(s, u);
  }

  lemma InvIsCoupled(s: Sys)
    requires Inv(s)
    ensures Coupled(s)
  {
  }

  lemma {:induction false} InvOnCarefulRuns(states: seq<Sys>, steps: seq<Step>, k: nat)
    requires IsCarefulRun(states, steps) && k < |states|
    ensures Inv(states[k])
  {
    if k == 0 {
      forall c ensures !Pending(states[0], c) {}
    } else {
      InvOnCarefulRuns(states, steps, k - 1);
      KeepsInvariant(states[k - 1], steps[k - 1]);
      assert states[k - 1 + 1] == Apply(states[k - 1], steps[k - 1]);
    }
  }

  /**
   * Over every careful interleaving of changes, reverts, lost replies, timeouts, crashes, starts,
   * stops, deletes and reconciliations, as long as the Worker has the Workspace: outside a change
   * it holds only the stored image, during one only the two images of the change, and the metadata
   * always accounts for the container.
   */
  lemma CoupledOnEveryCarefulRun(states: seq<Sys>, steps: seq<Step>, k: nat)
    requires IsCarefulRun(states, steps) && k < |states|
    ensures Coupled(states[k])
  {
    InvOnCarefulRuns(states, steps, k);
    InvIsCoupled(states[k]);
  }
}
