/**
 * The handler of a Runtime change as it runs from its first check to its last write, when nothing
 * else touches the Workspace: the row in the database on one side, the Worker's disk on the other.
 * `RuntimeProtocol` takes the same handler apart at its awaits.
 */
module RuntimeChange {
  import opened Wrappers
  import opened WorkspaceRows
  import P = RuntimeProtocol
  import SR = SetRuntime
  import WT = WorkspaceTable

  datatype Outcome =
    | NotStopped | AlreadyCurrent | ImageUnavailable | WorkerUnavailable | WorkspaceChanged
    | Done | Reverted | Unfinished(offline: bool)

  /**
   * What becomes of the command: it is not delivered, or the Worker carries it out as far as it
   * gets, and the answer arrives or not.
   */
  datatype Delivery =
    | Undelivered
    | Delivered(offer: Option<SR.Offer>, createdId: SR.ImageId, halt: SR.Halt, arrives: bool, closed: bool)

  /** The checks before anything is written: `None` lets the change go ahead. */
  function Guard(snap: Row, target: ImageRef, offered: set<ImageRef>, connected: bool): Option<Outcome> {
    if !(snap.state == Stopped || ChangeIncomplete(snap)) || snap.worker.None? then Some(NotStopped)
    else if target == snap.image && !ChangeIncomplete(snap) then Some(AlreadyCurrent)
    else if target !in offered then Some(ImageUnavailable)
    else if !connected then Some(WorkerUnavailable)
    else if P.FromImage(snap, target).None? then Some(AlreadyCurrent)
    else None
  }

  function VerdictOf(delivery: Delivery, result: SR.Result): P.Verdict {
    if delivery.Undelivered? then P.Incomplete(true)
    else if result.Crashed? || !delivery.arrives then P.Incomplete(delivery.closed)
    else P.VerdictOf(result)
  }

  function Attempted(d: SR.Disk, fromImage: ImageRef, target: ImageRef, delivery: Delivery): (SR.Disk, SR.Result) {
    if delivery.Undelivered? then (d, SR.Crashed)
    else SR.Attempt(d, fromImage, target, delivery.offer, delivery.createdId, delivery.halt)
  }

  function FollowUp(snap: Row, target: ImageRef, verdict: P.Verdict, now: Time): Update {
    match verdict
    case Ok => ChangeDone(target, now)
    case Refused => ChangeRevert(P.RestoreOf(snap))
    case Incomplete(offline) => RuntimeFailure(offline)
  }

  function OutcomeOf(verdict: P.Verdict): Outcome {
    match verdict
    case Ok => Done
    case Refused => Reverted
    case Incomplete(offline) => Unfinished(offline)
  }

  /** The table, the disk and the answer after the handler. */
  function Handled(
    t: Table, d: SR.Disk, id: WorkspaceId, snap: Row, target: ImageRef,
    offered: set<ImageRef>, connected: bool, delivery: Delivery, now: Time): (Table, SR.Disk, Outcome)
  {
    var refusal := Guard(snap, target, offered, connected);
    if refusal.Some? then (t, d, refusal.value)
    else
      var worker, fromImage := snap.worker.value, P.FromImage(snap, target).value;
      if id !in t || BeginRuntimeChange(t[id], worker, fromImage, target).None? then (t, d, WorkspaceChanged)
      else
        var begun := UpdateAll(t, {id}, worker, ChangeBegin(fromImage, target));
        var (disk, result) := Attempted(d, fromImage, target, delivery);
        var verdict := VerdictOf(delivery, result);
        (UpdateAll(begun, {id}, worker, FollowUp(snap, target, verdict, now)), disk, OutcomeOf(verdict))
  }

  method Change(
    table: WT.WorkspaceTable, runtime: SR.WorkspaceRuntime, id: WorkspaceId, snap: Row, target: ImageRef,
    offered: set<ImageRef>, connected: bool, delivery: Delivery, now: Time) returns (outcome: Outcome)
    requires OffersTarget(delivery, target)
    modifies table, runtime
    ensures (table.rows, runtime.OnDisk(), outcome)
      == Handled(old(table.rows), old(runtime.OnDisk()), id, snap, target, offered, connected, delivery, now)
    ensures AllAgree(old(table.rows)) ==> AllAgree(table.rows)
  {
    hide AllAgree, SR.Attempt, SR.Check, SR.AfterSteps, UpdateAll;
    var incomplete := snap.state == Error && snap.previous.Some? && snap.changedAt.None?;
    if !(snap.state == Stopped || incomplete) || snap.worker.None? { return NotStopped; }
    if target == snap.image && !incomplete { return AlreadyCurrent; }
    var workerId := snap.worker.value;
    if target !in offered { return ImageUnavailable; }
    if !connected { return WorkerUnavailable; }
    var source := if target == snap.image then snap.previous else Some(snap.image);
    if source.None? || source.value == target { return AlreadyCurrent; }
    // The columns as the handler had read them, for the revert.
    var restore := Restore(snap.image, snap.previous, snap.changedAt, if snap.state == Error then Error else Stopped);
    var begun := table.BeginWorkspaceRuntimeChange(id, workerId, source.value, target);
    if !begun {
      UpdateAllNone(old(table.rows), id, workerId, ChangeBegin(source.value, target));
      return WorkspaceChanged;
    }
    if delivery.Undelivered? {
      table.MarkWorkspaceRuntimeFailure(id, workerId, true);
      return Unfinished(true);
    }
    var result := runtime.SetRuntime(source.value, target, delivery.offer, delivery.createdId, delivery.halt);
    if result.Crashed? || !delivery.arrives {
      table.MarkWorkspaceRuntimeFailure(id, workerId, delivery.closed);
      return Unfinished(delivery.closed);
    }
    if result.Observed? {
      var ok := table.FinishWorkspaceRuntimeChange(id, workerId, target, now);
      return Done;
    }
    if SR.MeansUnchanged(result.code) {
      var ok := table.RevertWorkspaceRuntimeChange(id, workerId, restore);
      return Reverted;
    }
    table.MarkWorkspaceRuntimeFailure(id, workerId, false);
    return Unfinished(false);
  }

  lemma UpdateAllNone(t: Table, id: WorkspaceId, worker: WorkerId, u: Update)
    requires id in t ==> Updated(t[id], worker, u).None?
    ensures UpdateAll(t, {id}, worker, u) == t
  {
  }

  // ---------------------------------------------------------------- what the handler answers

  /** A Workspace that can be changed at all: stopped, or in the middle of a change that was interrupted. */
  predicate Changeable(snap: Row) {
    snap.worker.Some? && (snap.state == Stopped || (snap.state == Error && snap.previous.Some? && snap.changedAt.None?))
  }

  /** The change leads to another image: not the current one of a stopped Workspace, nor the one it comes from. */
  predicate LeadsElsewhere(snap: Row, target: ImageRef) {
    target != snap.image || (snap.state == Error && snap.previous != Some(target))
  }

  /** Where a change comes from: a retry of the stored image from the previous one, any other from the stored one. */
  function SourceOf(snap: Row, target: ImageRef): Option<ImageRef> {
    if target != snap.image then Some(snap.image) else snap.previous
  }

  predicate MayChange(snap: Row, target: ImageRef, offered: set<ImageRef>, connected: bool) {
    Changeable(snap) && LeadsElsewhere(snap, target) && target in offered && connected
  }

  /** The row still allows it when the intent is recorded. */
  predicate StillAllows(t: Table, id: WorkspaceId, snap: Row, target: ImageRef) {
    && id in t && t[id].worker == snap.worker && t[id].desired == WantStopped
    && (|| (t[id].state == Stopped && Some(t[id].image) == SourceOf(snap, target))
        || (&& t[id].state == Error && t[id].previous.Some? && t[id].changedAt.None?
            && Some(t[id].image) in {SourceOf(snap, target), Some(target)}
            && t[id].previous in {SourceOf(snap, target), Some(target)}))
  }

  /** The answers that follow a begun change. */
  predicate IsEnd(outcome: Outcome) {
    outcome == Done || outcome == Reverted || outcome.Unfinished?
  }

  /** Each refusal has its own condition on what the handler had read, and a refused change touches nothing. */
  lemma RefusalIff(
    t: Table, d: SR.Disk, id: WorkspaceId, snap: Row, target: ImageRef,
    offered: set<ImageRef>, connected: bool, delivery: Delivery, now: Time)
    ensures var (after, disk, outcome) := Handled(t, d, id, snap, target, offered, connected, delivery, now);
      var current := snap.state == Stopped && target == snap.image;
      && (outcome == NotStopped <==> !Changeable(snap))
      && (outcome == ImageUnavailable <==> Changeable(snap) && !current && target !in offered)
      && (outcome == WorkerUnavailable <==> Changeable(snap) && !current && target in offered && !connected)
      && (outcome == AlreadyCurrent <==>
          Changeable(snap) && (current || (target in offered && connected && !LeadsElsewhere(snap, target))))
      && (outcome == WorkspaceChanged <==>
          MayChange(snap, target, offered, connected) && !StillAllows(t, id, snap, target))
      && (IsEnd(outcome) <==>
          MayChange(snap, target, offered, connected) && StillAllows(t, id, snap, target))
      && (!IsEnd(outcome) ==> after == t && disk == d)
  {
    hide UpdateAll, SR.Attempt;
  }

  /** The codes that the Control Plane takes to mean that nothing was changed. */
  const UNCHANGED: set<SR.Code> := {
    SR.RuntimeImageUnavailable, SR.WorkspaceRunning, SR.StorageMigrationRequired,
    SR.WorkspaceMetadataMismatch, SR.WorkspaceNotManaged, SR.UnmanagedContainerConflict}

  /**
   * How a begun change ends: finished exactly when the Worker's success arrives, reverted exactly
   * when one of its unchanged-refusals arrives, and otherwise left unfinished; the columns are the
   * target's or those that were read, and no other row is touched.
   */
  lemma EndIff(
    t: Table, d: SR.Disk, id: WorkspaceId, snap: Row, target: ImageRef,
    offered: set<ImageRef>, connected: bool, delivery: Delivery, now: Time)
    requires MayChange(snap, target, offered, connected) && StillAllows(t, id, snap, target)
    ensures var (after, disk, outcome) := Handled(t, d, id, snap, target, offered, connected, delivery, now);
      var source := SourceOf(snap, target).value;
      var (reached, answer) :=
        if delivery.Delivered? then SR.Attempt(d, source, target, delivery.offer, delivery.createdId, delivery.halt) else (d, SR.Crashed);
      var heard := delivery.Delivered? && delivery.arrives && !answer.Crashed?;
      && disk == reached
      && (outcome == Done <==> heard && answer.Observed?)
      && (outcome == Reverted <==> heard && answer.Failed? && answer.code in UNCHANGED)
      && (outcome.Unfinished? <==> !heard || (answer.Failed? && answer.code !in UNCHANGED))
      && (outcome.Unfinished? ==> outcome.offline == (delivery.Undelivered? || (!heard && delivery.closed)))
      && after == t[id := match outcome
           case Done => t[id].(state := Stopped, image := target, previous := Some(source), changedAt := Some(now))
           case Reverted =>
             t[id].(state := if snap.state == Error then Error else Stopped,
                    image := snap.image, previous := snap.previous, changedAt := snap.changedAt)
           case _ =>
             t[id].(state := if outcome == Unfinished(true) then WorkerOffline else Error,
                    image := target, previous := Some(source), changedAt := None)]
  {
    hide UpdateAll, SR.Attempt;
    var source, worker := SourceOf(snap, target).value, snap.worker.value;
    assert P.FromImage(snap, target) == Some(source);
    var begun := BeginRuntimeChange(t[id], worker, source, target).value;
    var verdict := VerdictOf(delivery, Attempted(d, source, target, delivery).1);
    UpdateAllOne(t, id, worker, ChangeBegin(source, target));
    UpdateAllOne(t[id := begun], id, worker, FollowUp(snap, target, verdict, now));
    hide P.FromImage;
  }

  predicate OffersTarget(delivery: Delivery, target: ImageRef) {
    delivery.Delivered? && delivery.offer.Some? ==> delivery.offer.value.image == target
  }

  /**
   * The Worker had passed its checks when it refused, and left something else behind: another
   * image in the metadata, another pin, or another container.
   */
  predicate RefusedLate(d: SR.Disk, fromImage: ImageRef, target: ImageRef, delivery: Delivery) {
    && delivery.Delivered?
    && SR.CheckOrFail(d, fromImage, target, delivery.offer, delivery.halt).None?
    && (|| d.meta.image != target
        || d.container != SR.ContainerLeft(target, delivery.offer, delivery.createdId, delivery.halt)
        || (delivery.halt.FailsConfirming? && !SR.Moved(delivery.offer, delivery.createdId)
            && d.meta.pin != Some(delivery.createdId)))
  }

  /** An interrupted change accepts only the two images it is about. */
  predicate ThirdImage(snap: Row, target: ImageRef) {
    ChangeIncomplete(snap) && target != snap.image && Some(target) != snap.previous
  }

  /** As every run keeps it: a change has two images. */
  predicate ChangeOk(snap: Row) {
    InChange(snap) ==> snap.previous.value != snap.image
  }

  /** What the handler leaves behind when it alone acts on the Workspace. */
  predicate EndsWell(
    snap: Row, d: SR.Disk, fromImage: ImageRef, target: ImageRef, delivery: Delivery, now: Time,
    row: Row, disk: SR.Disk, outcome: Outcome)
  {
    match outcome
    case Done =>
      && row == snap.(state := Stopped, image := target, previous := Some(fromImage), changedAt := Some(now))
      && disk.meta.image == target && disk.container.Some? && disk.container.value.image == target
    case Reverted => row == snap && (disk == d <==> !RefusedLate(d, fromImage, target, delivery))
    case Unfinished(offline) =>
      && row == snap.(
        state := if offline then WorkerOffline else Error, image := target, previous := Some(fromImage), changedAt := None)
      && P.Within(disk, {fromImage, target}) && P.NotStranded(disk)
    case WorkspaceChanged => row == snap && disk == d && ThirdImage(snap, target)
    case _ => false
  }

  /**
   * Undisturbed, a change that starts coupled ends in one of four ways: finished on the target on
   * both sides; refused with the row as before, and the disk exactly unless it was refused late;
   * interrupted with both images recorded and nothing but them on the Worker; or turned down,
   * exactly when a change towards a third image is under way.
   */
  lemma UndisturbedChange(
    t: Table, d: SR.Disk, id: WorkspaceId, snap: Row, target: ImageRef,
    offered: set<ImageRef>, connected: bool, delivery: Delivery, now: Time)
    requires id in t && t[id] == snap && snap.desired == WantStopped && ChangeOk(snap)
    requires MayChange(snap, target, offered, connected) && OffersTarget(delivery, target)
    requires P.Within(d, P.Allowed(snap)) && P.NotStranded(d)
    ensures var (after, disk, outcome) := Handled(t, d, id, snap, target, offered, connected, delivery, now);
      && after == t[id := after[id]]
      && EndsWell(snap, d, SourceOf(snap, target).value, target, delivery, now, after[id], disk, outcome)
      && (outcome == WorkspaceChanged <==> ThirdImage(snap, target))
  {
    var fromImage, worker := P.FromImage(snap, target).value, snap.worker.value;
    BeginsUnlessThird(snap, target);
    if ThirdImage(snap, target) {
      assert t == t[id := t[id]];
    } else {
      AttemptStaysWithin(d, fromImage, target, delivery);
      var verdict := VerdictOf(delivery, Attempted(d, fromImage, target, delivery).1);
      HandledAlone(t, id, snap, target, verdict, now);
      hide UpdateAll, SR.Attempt, P.FromImage, Guard, P.Within, P.NotStranded;
    }
  }

  /** The two writes of a change that begins, on the row the handler had read. */
  lemma HandledAlone(t: Table, id: WorkspaceId, snap: Row, target: ImageRef, verdict: P.Verdict, now: Time)
    requires id in t && t[id] == snap && snap.worker.Some? && P.FromImage(snap, target).Some?
    requires BeginRuntimeChange(snap, snap.worker.value, P.FromImage(snap, target).value, target).Some?
    ensures var worker, fromImage := snap.worker.value, P.FromImage(snap, target).value;
      UpdateAll(UpdateAll(t, {id}, worker, ChangeBegin(fromImage, target)), {id}, worker, FollowUp(snap, target, verdict, now))
        == t[id := match verdict
             case Ok => snap.(state := Stopped, image := target, previous := Some(fromImage), changedAt := Some(now))
             case Refused => snap
             case Incomplete(offline) => snap.(
               state := if offline then WorkerOffline else Error, image := target, previous := Some(fromImage), changedAt := None)]
  {
    var worker, fromImage := snap.worker.value, P.FromImage(snap, target).value;
    var begun := BeginRuntimeChange(snap, worker, fromImage, target).value;
    UpdateAllOne(t, id, worker, ChangeBegin(fromImage, target));
    UpdateAllOne(t[id := begun], id, worker, FollowUp(snap, target, verdict, now));
    hide UpdateAll;
  }

  lemma BeginsUnlessThird(snap: Row, target: ImageRef)
    requires snap.worker.Some? && snap.desired == WantStopped && P.FromImage(snap, target).Some?
    requires ChangeOk(snap)
    ensures var fromImage := P.FromImage(snap, target).value;
      && (BeginRuntimeChange(snap, snap.worker.value, fromImage, target).Some? <==> !ThirdImage(snap, target))
      && (!ThirdImage(snap, target) ==> P.Allowed(snap) <= {fromImage, target})
  {
  }

  lemma UpdateAllOne(t: Table, id: WorkspaceId, worker: WorkerId, u: Update)
    requires id in t && Updated(t[id], worker, u).Some?
    ensures UpdateAll(t, {id}, worker, u) == t[id := Updated(t[id], worker, u).value]
  {
  }

  lemma AttemptStaysWithin(d: SR.Disk, fromImage: ImageRef, target: ImageRef, delivery: Delivery)
    requires P.Within(d, {fromImage, target}) && P.NotStranded(d) && OffersTarget(delivery, target)
    ensures var (disk, result) := Attempted(d, fromImage, target, delivery);
      && P.Within(disk, {fromImage, target}) && P.NotStranded(disk)
      && (result.Observed? ==> disk.meta.image == target && disk.container.Some? && disk.container.value.image == target)
      && (result.Failed? && SR.MeansUnchanged(result.code) ==> (disk == d <==> !RefusedLate(d, fromImage, target, delivery)))
  {
    var (disk, result) := Attempted(d, fromImage, target, delivery);
    if result.Failed? && SR.MeansUnchanged(result.code) {
      SR.UnchangedRefusalAltersIff(d, fromImage, target, delivery.offer, delivery.createdId, delivery.halt);
    }
  }
}
