/**
 * A Runtime change as a protocol between the Control Plane, its database and one Worker. Every
 * SQL update is one step, every `await` an interleaving point; the Worker serves one FIFO command
 * queue that a crash empties; replies are lost, delayed past a timeout, or answered.
 */
module RuntimeProtocol {
  import opened Wrappers
  import opened WorkspaceRows
  import SR = SetRuntime

  /** The Worker the Workspace is assigned to. */
  const WORKER: WorkerId := 0

  /** How the Control Plane classifies the end of a dispatched change. */
  datatype Verdict = Ok | Refused | Incomplete(offline: bool)

  /**
   * A change handler past its begin: the row it had read, and what the Worker answered. `touched`
   * records that the Worker went past its checks.
   */
  datatype Change = Change(
    snap: Row, fromImage: ImageRef, toImage: ImageRef, sent: bool, touched: bool, verdict: Option<Verdict>)

  datatype Report = Seen(state: State) | Invalid(retryable: bool)

  datatype Purpose = Reconciles | Starts | Stops

  /**
   * A handler that settles the row on what the Worker answers: a reconciliation, a start or a stop.
   * It keeps the image it read, the wish, the change current then, and how often a wish had been
   * accepted.
   */
  datatype Recon = Recon(
    epoch: nat, wishes: nat, image: ImageRef, desired: Desired, purpose: Purpose, report: Option<Report>)

  datatype Command = SetCmd(change: nat) | InspectCmd(recon: nat)

  datatype Pc = Switching | Removing | Creating | Confirming(id: SR.ImageId) | Pinning(id: SR.ImageId) | Verifying

  datatype Exec = Exec(change: nat, offerId: Option<SR.ImageId>, pc: Pc)

  /**
   * `epoch` counts the changes begun so far and names the latest one; `wishes` counts the starts,
   * stops and deletes accepted so far.
   */
  datatype Sys = Sys(
    row: Row, epoch: nat, wishes: nat, snaps: set<Row>, changes: map<nat, Change>, recons: seq<Recon>,
    disk: SR.Disk, queue: seq<Command>, exec: Option<Exec>)

  datatype Step =
    | Read
    | Begin(snap: Row, target: ImageRef)
    | Send(change: nat, delivered: bool)
    | TakeSet(offer: Option<SR.Offer>, fault: Option<SR.Code>, answered: bool)
    | TakeInspect(retryable: bool, answered: bool)
    | Work(id: SR.ImageId, fault: Option<SR.Code>, answered: bool)
    | Crash
    | OtherCommand(disk: SR.Disk)
    | TakeDelete(steps: nat)
    | Recreate(start: nat, pin: Option<SR.ImageId>, container: Option<SR.Container>)
    | GiveUp(change: nat, offline: bool)
    | Finish(change: nat, now: Time)
    | Revert(change: nat)
    | ReconBegin
    | ReconSend(recon: nat)
    | ReconWrite(recon: nat, now: Time)
    | StartBegin(snap: Row)
    | StartWrite(start: nat)
    | StopBegin(stop: Update)
    | StopWrite(stopped: nat)
    | Lifecycle(update: Update)

  // ---------------------------------------------------------------- the Control Plane's decisions

  /** The source image of a change, from the row the handler read; `None` refuses it. */
  function FromImage(snap: Row, target: ImageRef): Option<ImageRef> {
    if !(snap.state == Stopped || ChangeIncomplete(snap)) then None
    else if target == snap.image && !ChangeIncomplete(snap) then None
    else
      var source := if target == snap.image then snap.previous else Some(snap.image);
      if source == Some(target) then None else source
  }

  function RestoreOf(snap: Row): Restore {
    Restore(snap.image, snap.previous, snap.changedAt, if snap.state == Error then Error else Stopped)
  }

  function VerdictOf(r: SR.Result): Verdict
    requires !r.Crashed?
  {
    match r
    case Observed(_) => Ok
    case Failed(code) => if SR.MeansUnchanged(code) then Refused else Incomplete(false)
  }

  /** The state a reconciliation settles on; `None` leaves the Workspace offline. */
  function RecoveredState(desired: Desired, report: Report): Option<State> {
    match report
    case Invalid(retryable) => if retryable then None else Some(Error)
    case Seen(state) =>
      if desired == WantRunning && state == Running then Some(Running)
      else if desired == WantStopped && state == Stopped then Some(Stopped)
      else if desired == Unknown && (state == Running || state == Stopped) then Some(state)
      else Some(Error)
  }

  // ---------------------------------------------------------------- steps

  predicate IsLifecycle(u: Update) {
    u.Delete? || u.RuntimeFailure? || u.Offline? || u.EgressLost?
  }

  predicate IsUp(d: SR.Disk) {
    d.container.Some? && d.container.value.running
  }

  /** Ensure, start and stop: they keep the recorded images and create from the current one. */
  predicate KeepsImages(d: SR.Disk, e: SR.Disk) {
    && d.managed && e.managed
    && e.meta.image == d.meta.image && e.meta.previous == d.meta.previous
    && (e.container.Some? ==>
        || e.container.value.image == d.meta.image
        || (d.container.Some? && e.container.value.image == d.container.value.image))
  }

  /** The codes the Worker can raise once it is past its checks. */
  predicate CanRaise(pc: Pc, code: SR.Code) {
    match pc
    case Confirming(_) => true
    case Verifying => true
    case _ => code == SR.RuntimeEngineError
  }

  predicate Enabled(s: Sys, step: Step) {
    match step
    case Read => true
    case Begin(snap, target) => snap in s.snaps && FromImage(snap, target).Some?
    case Send(c, _) => c in s.changes && !s.changes[c].sent
    case TakeSet(offer, _, _) =>
      && s.exec.None? && s.queue != [] && s.queue[0].SetCmd? && s.queue[0].change in s.changes
      && (offer.Some? ==> offer.value.image == s.changes[s.queue[0].change].toImage)
    case TakeInspect(_, _) => s.exec.None? && s.queue != [] && s.queue[0].InspectCmd? && s.queue[0].recon < |s.recons|
    case Work(_, fault, _) =>
      && s.exec.Some? && s.exec.value.change in s.changes
      && (fault.Some? ==> CanRaise(s.exec.value.pc, fault.value))
    case Crash => true
    case OtherCommand(disk) => s.exec.None? && KeepsImages(s.disk, disk)
    case TakeDelete(_) => s.exec.None?
    case Recreate(r, _, container) =>
      && s.exec.None? && !s.disk.managed && r < |s.recons| && s.recons[r].purpose == Starts
      && (container.Some? ==> container.value.image == s.recons[r].image && !container.value.running)
    case GiveUp(c, _) => c in s.changes && s.changes[c].sent && s.changes[c].verdict.None?
    case Finish(c, _) => c in s.changes && s.changes[c].verdict == Some(Ok)
    case Revert(c) => c in s.changes && s.changes[c].verdict == Some(Refused)
    case ReconBegin => true
    case ReconSend(r) => r < |s.recons|
    case ReconWrite(r, _) => r < |s.recons| && s.recons[r].purpose == Reconciles && s.recons[r].report.Some?
    case StartBegin(snap) =>
      && snap in s.snaps && !ChangeIncomplete(snap) && snap.state != Running
      && ScheduleStart(s.row, WORKER).Some?
    case StartWrite(r) => r < |s.recons| && s.recons[r].purpose == Starts && s.recons[r].report == Some(Seen(Running))
    case StopBegin(u) => (u.Stop? || u.IdleStop?) && Updated(s.row, WORKER, u).Some?
    case StopWrite(r) => r < |s.recons| && s.recons[r].purpose == Stops && s.recons[r].report == Some(Seen(Stopped))
    case Lifecycle(u) => IsLifecycle(u)
  }

  function WithRow(s: Sys, r: Option<Row>): Sys {
    if r.Some? then s.(row := r.value) else s
  }

  /** The handler hears of the result unless the reply is lost or it no longer waits. */
  function Answer(s: Sys, c: nat, v: Verdict, answered: bool): Sys
    requires c in s.changes
  {
    if answered && s.changes[c].verdict.None?
    then s.(changes := s.changes[c := s.changes[c].(verdict := Some(v))]) else s
  }

  function BeginStep(s: Sys, snap: Row, target: ImageRef): Sys
    requires Enabled(s, Begin(snap, target))
  {
    var fromImage := FromImage(snap, target).value;
    match BeginRuntimeChange(s.row, WORKER, fromImage, target)
    case None => s
    case Some(row) =>
      var change := Change(snap, fromImage, target, false, false, None);
      s.(row := row, epoch := s.epoch + 1, changes := s.changes[s.epoch + 1 := change])
  }

  function SendStep(s: Sys, c: nat, delivered: bool): Sys
    requires c in s.changes
  {
    if delivered
    then s.(changes := s.changes[c := s.changes[c].(sent := true)], queue := s.queue + [SetCmd(c)])
    else s.(changes := s.changes[c := s.changes[c].(sent := true, verdict := Some(Incomplete(true)))])
  }

  function TakeSetStep(s: Sys, offer: Option<SR.Offer>, fault: Option<SR.Code>, answered: bool): Sys
    requires Enabled(s, TakeSet(offer, fault, answered))
  {
    var c := s.queue[0].change;
    var change := s.changes[c];
    var rest := s.(queue := s.queue[1..]);
    var checked := if fault.Some? then Some(SR.Failed(fault.value))
                   else SR.Check(s.disk, change.fromImage, change.toImage, offer);
    if checked.Some? then Answer(rest, c, VerdictOf(checked.value), answered)
    else rest.(exec := Some(Exec(c, offer.value.imageId, Switching)), changes := s.changes[c := change.(touched := true)])
  }

  function TakeInspectStep(s: Sys, retryable: bool, answered: bool): Sys
    requires Enabled(s, TakeInspect(retryable, answered))
  {
    var r := s.queue[0].recon;
    var recon := s.recons[r];
    var d := s.disk;
    var report :=
      if && d.managed && d.meta.image == recon.image && d.container.Some?
         && d.container.value.image == d.meta.image && SR.ContainerMatches(d.meta, d.container.value)
      then Seen(if d.container.value.running then Running else Stopped)
      else Invalid(retryable);
    s.(queue := s.queue[1..], recons := if answered then s.recons[r := recon.(report := Some(report))] else s.recons)
  }

  function WorkStep(s: Sys, id: SR.ImageId, fault: Option<SR.Code>, answered: bool): Sys
    requires Enabled(s, Work(id, fault, answered))
  {
    var x := s.exec.value;
    var change := s.changes[x.change];
    var done := s.(exec := None);
    if fault.Some? then
      var disk := if x.pc.Confirming? || x.pc.Verifying? then SR.Found(s.disk, fault.value) else s.disk;
      Answer(done.(disk := disk), x.change, VerdictOf(SR.Failed(fault.value)), answered)
    else
      match x.pc
      case Switching =>
        s.(disk := SR.SwitchMetadata(s.disk, change.fromImage, change.toImage), exec := Some(x.(pc := Removing)))
      case Removing => s.(disk := SR.RemoveContainer(s.disk), exec := Some(x.(pc := Creating)))
      case Creating => s.(disk := SR.CreateContainer(s.disk, change.toImage, id), exec := Some(x.(pc := Confirming(id))))
      case Confirming(created) =>
        if x.offerId.Some? && x.offerId != Some(created)
        then Answer(done.(disk := SR.RemoveContainer(s.disk)), x.change, VerdictOf(SR.Failed(SR.RuntimeImageUnavailable)), answered)
        else s.(exec := Some(x.(pc := Pinning(created))))
      case Pinning(created) => s.(disk := SR.PinImageId(s.disk, created), exec := Some(x.(pc := Verifying)))
      case Verifying => Answer(done, x.change, Ok, answered)
  }

  function ReconWriteStep(s: Sys, r: nat, now: Time): Sys
    requires Enabled(s, ReconWrite(r, now))
  {
    var recon := s.recons[r];
    match RecoveredState(recon.desired, recon.report.value)
    case None => s
    case Some(state) => WithRow(s, ReconcileRecovery(s.row, WORKER, recon.image, recon.desired, state, now))
  }

  /** The placement transaction of a start, whose handler then sends ensure, for the image it had read, and start. */
  function StartStep(s: Sys, snap: Row): Sys
    requires ScheduleStart(s.row, WORKER).Some?
  {
    s.(row := ScheduleStart(s.row, WORKER).value, wishes := s.wishes + 1,
       recons := s.recons + [Recon(s.epoch, s.wishes + 1, snap.image, WantRunning, Starts, None)])
  }

  /**
   * A stop or idle stop is accepted and its handler sends the command. A handler that had read
   * another image does not accept the answer, and so writes nothing but a failure.
   */
  function StopStep(s: Sys, u: Update): Sys
    requires Updated(s.row, WORKER, u).Some?
  {
    s.(row := Updated(s.row, WORKER, u).value, wishes := s.wishes + 1,
       recons := s.recons + [Recon(s.epoch, s.wishes + 1, s.row.image, WantStopped, Stops, None)])
  }

  function LifecycleStep(s: Sys, u: Update): Sys {
    var next := Updated(s.row, WORKER, u);
    if next.Some? && u.Delete? then s.(row := next.value, wishes := s.wishes + 1) else WithRow(s, next)
  }

  function Apply(s: Sys, step: Step): Sys
    requires Enabled(s, step)
  {
    match step
    case Read => s.(snaps := s.snaps + {s.row})
    case Begin(snap, target) => BeginStep(s, snap, target)
    case Send(c, delivered) => SendStep(s, c, delivered)
    case TakeSet(offer, fault, answered) => TakeSetStep(s, offer, fault, answered)
    case TakeInspect(retryable, answered) => TakeInspectStep(s, retryable, answered)
    case Work(id, fault, answered) => WorkStep(s, id, fault, answered)
    case Crash => s.(queue := [], exec := None)
    case OtherCommand(disk) => s.(disk := disk)
    case TakeDelete(steps) => s.(disk := SR.Deleted(s.disk, steps).0)
    case Recreate(r, pin, container) =>
      s.(disk := SR.Disk(SR.Metadata(s.recons[r].image, None, pin), container, true))
    case GiveUp(c, offline) => s.(changes := s.changes[c := s.changes[c].(verdict := Some(Incomplete(offline)))])
    case Finish(c, now) => WithRow(s, FinishRuntimeChange(s.row, WORKER, s.changes[c].toImage, now))
    case Revert(c) => WithRow(s, RevertRuntimeChange(s.row, WORKER, RestoreOf(s.changes[c].snap)))
    case ReconBegin =>
      s.(row := s.row.(state := WorkerOffline),
         recons := s.recons + [Recon(s.epoch, s.wishes, s.row.image, s.row.desired, Reconciles, None)])
    case ReconSend(r) => s.(queue := s.queue + [InspectCmd(r)])
    case ReconWrite(r, now) => ReconWriteStep(s, r, now)
    case StartBegin(snap) => StartStep(s, snap)
    case StartWrite(r) => WithRow(s, FinishStart(s.row, WORKER))
    case StopBegin(u) => StopStep(s, u)
    case StopWrite(r) => WithRow(s, FinishStop(s.row, WORKER))
    case Lifecycle(u) => LifecycleStep(s, u)
  }

  // ---------------------------------------------------------------- what a run may rely on

  /** The row a refused change restores still covers what the Worker may hold when it begins. */
  predicate SafeSnapshot(row: Row, snap: Row, target: ImageRef) {
    row.state == Stopped || (ChangeIncomplete(snap) && (target == snap.image || Some(target) == snap.previous))
  }

  /** The recovery write settles the row on RUNNING or STOPPED. */
  predicate Settles(s: Sys, r: nat, now: Time)
    requires Enabled(s, ReconWrite(r, now))
  {
    var recon := s.recons[r];
    var state := RecoveredState(recon.desired, recon.report.value);
    && state.Some? && state.value != Error
    && ReconcileRecovery(s.row, WORKER, recon.image, recon.desired, state.value, now).Some?
  }

  /**
   * The conditions under which the protocol keeps its coupling. No follow-up write or late command
   * of a handler overtakes a later change of the same Workspace; a restore snapshot is not stale,
   * nor the image a start had read; container creation never answers with a code that means
   * "unchanged".
   */
  predicate Careful(s: Sys, step: Step)
    requires Enabled(s, step)
  {
    match step
    case Begin(snap, target) => SafeSnapshot(s.row, snap, target)
    case Send(c, delivered) => delivered ==> c == s.epoch
    case Work(_, fault, _) =>
      && (fault.Some? ==> !SR.MeansUnchanged(fault.value))
      && (s.exec.value.pc.Confirming? && s.exec.value.offerId.Some? ==> s.exec.value.offerId == Some(s.exec.value.pc.id))
    case Finish(c, now) => FinishRuntimeChange(s.row, WORKER, s.changes[c].toImage, now).Some? ==> c == s.epoch
    case Revert(c) => RevertRuntimeChange(s.row, WORKER, RestoreOf(s.changes[c].snap)).Some? ==> c == s.epoch
    case Recreate(r, _, _) => s.recons[r].epoch == s.epoch
    case ReconWrite(r, now) => Settles(s, r, now) ==> s.recons[r].epoch == s.epoch
    case StartBegin(snap) => snap.image == s.row.image
    case StartWrite(r) => FinishStart(s.row, WORKER).Some? ==> s.recons[r].epoch == s.epoch
    case _ => true
  }

  /** A stopped Workspace on one image, and no handler at work. */
  ghost predicate Initial(s: Sys) {
    && s.row.worker == Some(WORKER) && s.row.state == Stopped && s.row.desired == WantStopped && !InChange(s.row)
    && s.epoch == 0 && s.wishes == 0 && s.snaps == {} && s.changes == map[] && s.recons == [] && s.queue == [] && s.exec == None
    && s.disk.managed && s.disk.meta.image == s.row.image
    && (s.disk.container.Some? ==> s.disk.container.value.image == s.row.image && !s.disk.container.value.running)
  }

  ghost predicate IsRun(states: seq<Sys>, steps: seq<Step>) {
    && |states| == |steps| + 1
    && Initial(states[0])
    && forall k :: 0 <= k < |steps| ==> Enabled(states[k], steps[k]) && states[k + 1] == Apply(states[k], steps[k])
  }

  ghost predicate IsCarefulRun(states: seq<Sys>, steps: seq<Step>) {
    && IsRun(states, steps)
    && forall k :: 0 <= k < |steps| ==> Careful(states[k], steps[k])
  }

  // ---------------------------------------------------------------- the coupling invariant

  /** In these states the Worker has confirmed the stored image. */
  predicate IsSettled(s: State) {
    s == Stopped || s == Running || s == Stopping
  }

  /** The images the Worker may hold: the stored one, and the previous one while a change is unsettled. */
  function Allowed(r: Row): set<ImageRef> {
    if InChange(r) && !IsSettled(r.state) then {r.image, r.previous.value} else {r.image}
  }

  predicate Within(d: SR.Disk, images: set<ImageRef>) {
    d.meta.image in images && (d.container.Some? ==> d.container.value.image in images)
  }

  /** The metadata knows the image of the container, so no later step strands it. */
  predicate NotStranded(d: SR.Disk) {
    d.container.Some? ==> d.container.value.image == d.meta.image || Some(d.container.value.image) == d.meta.previous
  }

  /** What the protocol promises of every state in which the Worker has the Workspace. */
  predicate Coupled(s: Sys) {
    s.disk.managed ==>
      && Within(s.disk, Allowed(s.row))
      && NotStranded(s.disk)
      && (IsSettled(s.row.state) ==> s.disk.meta.image == s.row.image)
  }

  predicate RowOk(r: Row) {
    && r.worker == Some(WORKER)
    && (InChange(r) ==> r.previous.value != r.image)
    && (r.state == Upgrading ==> InChange(r) && r.desired == WantStopped)
  }

  predicate Pending(s: Sys, c: nat) {
    SetCmd(c) in s.queue || (s.exec.Some? && s.exec.value.change == c)
  }

  predicate NonePending(s: Sys) {
    s.exec.None? && forall i :: 0 <= i < |s.queue| ==> !s.queue[i].SetCmd?
  }

  ghost predicate PendingWithin(s: Sys, images: set<ImageRef>) {
    forall c :: Pending(s, c) ==> c in s.changes && s.changes[c].toImage in images
  }

  predicate ExecOk(s: Sys) {
    s.exec.Some? && s.exec.value.change in s.changes ==>
      var x, change := s.exec.value, s.changes[s.exec.value.change];
      match x.pc
      case Switching => s.disk.meta.image == change.fromImage || s.disk.meta.image == change.toImage
      case Removing => s.disk.meta.image == change.toImage
      case Creating => s.disk.meta.image == change.toImage && s.disk.container.None?
      case _ => s.disk.meta.image == change.toImage && s.disk.container.Some? && s.disk.container.value.image == change.toImage
  }

  ghost predicate HandlersOk(s: Sys) {
    && (forall r :: r in s.snaps ==> RowOk(r))
    && (forall c :: c in s.changes ==> c <= s.epoch)
    && (s.epoch > 0 ==> s.epoch in s.changes)
    && (forall c :: Pending(s, c) ==> c in s.changes && s.changes[c].sent)
    && (forall c :: c in s.changes && !s.changes[c].sent ==> s.changes[c].verdict.None?)
  }

  /** Nothing of a change is queued behind the latest one. */
  ghost predicate LatestIsLast(s: Sys) {
    && (forall i, j :: 0 <= i < j < |s.queue| && s.queue[i] == SetCmd(s.epoch) ==> !s.queue[j].SetCmd?)
    && (s.exec.Some? && s.exec.value.change == s.epoch ==> forall j :: 0 <= j < |s.queue| ==> !s.queue[j].SetCmd?)
  }

  /** What holds of the latest change until another one begins. */
  ghost predicate LatestOk(s: Sys) {
    s.epoch in s.changes ==>
      var c := s.changes[s.epoch];
      && RowOk(c.snap) && (c.snap.state == Stopped || ChangeIncomplete(c.snap))
      && (!c.sent ==> !Pending(s, s.epoch) && !c.touched)
      && (c.touched ==> SetCmd(s.epoch) !in s.queue)
      && (s.exec.Some? && s.exec.value.change == s.epoch ==> c.touched)
      && (!c.sent || Pending(s, s.epoch) ==> c.toImage == s.row.image && c.verdict != Some(Ok) && c.verdict != Some(Refused))
      && (!c.touched && s.row.state == Upgrading ==>
          && Within(s.disk, Allowed(c.snap))
          && forall d :: Pending(s, d) && d != s.epoch ==> d in s.changes && s.changes[d].toImage in Allowed(c.snap))
      && (c.verdict == Some(Refused) ==> !c.touched && NonePending(s))
      && (c.verdict == Some(Ok) ==> NonePending(s) && (s.row.state == Upgrading ==> Within(s.disk, {c.toImage})))
  }

  /** What holds of a reconciliation until a change begins after it. */
  ghost predicate ReconsOk(s: Sys) {
    && (forall r :: 0 <= r < |s.recons| ==> s.recons[r].epoch <= s.epoch)
    && (forall r :: 0 <= r < |s.recons| && s.recons[r].epoch == s.epoch ==>
        && s.row.state != Upgrading && s.row.image == s.recons[r].image
        && (s.recons[r].report.Some? && s.recons[r].report.value.Seen? ==>
            Within(s.disk, {s.recons[r].image}) && PendingWithin(s, {s.recons[r].image})))
    && (forall i :: 0 <= i < |s.queue| && s.queue[i].InspectCmd? ==> s.queue[i].recon < |s.recons|)
    && (forall i, j :: 0 <= i < j < |s.queue| && CurrentInspect(s, s.queue[i]) && s.queue[j].SetCmd? ==>
        s.queue[j].change == s.epoch)
  }

  predicate CurrentInspect(s: Sys, cmd: Command) {
    cmd.InspectCmd? && cmd.recon < |s.recons| && s.recons[cmd.recon].epoch == s.epoch
  }

  ghost predicate Inv(s: Sys) {
    && RowOk(s.row)
    && HandlersOk(s)
    && Within(s.disk, Allowed(s.row))
    && PendingWithin(s, Allowed(s.row))
    && NotStranded(s.disk)
    && ExecOk(s)
    && LatestIsLast(s)
    && LatestOk(s)
    && ReconsOk(s)
  }
}
