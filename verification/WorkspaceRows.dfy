/**
 * The Workspace row of the Control Plane database. Every SQL update is one guarded function on
 * the row: `None` when its WHERE clause matches no row. `WorkspaceTable` performs the same
 * updates in place.
 */
module WorkspaceRows {
  import opened Wrappers

  /** Image references and identifiers are only ever compared for equality. */
  type ImageRef = nat
  type WorkerId = nat
  type WorkspaceId = nat
  type Time = int

  datatype State = Created | Starting | Running | Stopping | Stopped | Deleting | Error | WorkerOffline | Upgrading

  datatype Desired = WantRunning | WantStopped | WantDeleted | Unknown

  datatype Row = Row(
    worker: Option<WorkerId>, state: State, desired: Desired,
    image: ImageRef, previous: Option<ImageRef>, changedAt: Option<Time>)

  /** What a change was before it began, to put back on a clean refusal. */
  datatype Restore = Restore(image: ImageRef, previous: Option<ImageRef>, changedAt: Option<Time>, state: State)

  function NewRow(image: ImageRef): Row {
    Row(None, Created, WantStopped, image, None, None)
  }

  predicate IsTransient(s: State) {
    s == Starting || s == Stopping || s == Deleting || s == Upgrading
  }

  /** The states a Worker's disappearance turns into WORKER_OFFLINE. */
  predicate IsReported(s: State) {
    s == Starting || s == Running || s == Stopping || s == Stopped || s == Error || s == Upgrading
  }

  /** A Runtime change was begun and neither completed nor reverted. */
  predicate InChange(r: Row) {
    r.previous.Some? && r.changedAt.None?
  }

  /** What the Control Plane offers to retry or roll back. */
  predicate ChangeIncomplete(r: Row) {
    r.state == Error && InChange(r)
  }

  // ---------------------------------------------------------------- lifecycle

  predicate Startable(s: State) {
    s == Created || s == Stopped || s == Error || s == WorkerOffline
  }

  /** The placement transaction; `selected` is the scheduler's choice for an unassigned row. */
  function ScheduleStart(r: Row, selected: WorkerId): Option<Row> {
    if Startable(r.state)
    then Some(r.(worker := if r.worker.Some? then r.worker else Some(selected), state := Starting, desired := WantRunning))
    else None
  }

  function FinishStart(r: Row, worker: WorkerId): Option<Row> {
    if r.worker == Some(worker) && r.state == Starting then Some(r.(state := Running)) else None
  }

  function BeginStop(r: Row, worker: WorkerId): Option<Row> {
    if r.worker == Some(worker) && r.state == Running
    then Some(r.(state := Stopping, desired := WantStopped)) else None
  }

  /** `eligible`: not active since the cutoff, by the row's own times. */
  function BeginIdleStop(r: Row, worker: WorkerId, eligible: bool): Option<Row> {
    if r.worker == Some(worker) && r.state == Running && r.desired == WantRunning && eligible
    then Some(r.(state := Stopping, desired := WantStopped)) else None
  }

  function FinishStop(r: Row, worker: WorkerId): Option<Row> {
    if r.worker == Some(worker) && r.state == Stopping then Some(r.(state := Stopped)) else None
  }

  function BeginDelete(r: Row, worker: WorkerId): Option<Row> {
    if r.worker == Some(worker) && !IsTransient(r.state)
    then Some(r.(state := Deleting, desired := WantDeleted)) else None
  }

  function MarkRuntimeFailure(r: Row, worker: WorkerId, offline: bool): Option<Row> {
    if r.worker == Some(worker) && IsTransient(r.state)
    then Some(r.(state := if offline then WorkerOffline else Error)) else None
  }

  // ---------------------------------------------------------------- Runtime changes

  function BeginRuntimeChange(r: Row, worker: WorkerId, fromImage: ImageRef, toImage: ImageRef): Option<Row> {
    if && r.worker == Some(worker)
       && r.desired == WantStopped
       && (|| (r.state == Stopped && r.image == fromImage)
           || (&& ChangeIncomplete(r)
               && (r.image == fromImage || r.image == toImage)
               && (r.previous.value == fromImage || r.previous.value == toImage)))
    then Some(r.(state := Upgrading, image := toImage, previous := Some(fromImage), changedAt := None))
    else None
  }

  function FinishRuntimeChange(r: Row, worker: WorkerId, toImage: ImageRef, now: Time): Option<Row> {
    if r.worker == Some(worker) && r.state == Upgrading && r.image == toImage
    then Some(r.(state := Stopped, changedAt := Some(now))) else None
  }

  function Restored(r: Row, restore: Restore): Row {
    r.(state := restore.state, image := restore.image, previous := restore.previous, changedAt := restore.changedAt)
  }

  function RevertRuntimeChange(r: Row, worker: WorkerId, restore: Restore): Option<Row> {
    if r.worker == Some(worker) && r.state == Upgrading then Some(Restored(r, restore)) else None
  }

  // ---------------------------------------------------------------- Workers and recovery

  /** Heartbeat timeout, credential rotation and Worker disable. */
  function MarkOffline(r: Row, worker: WorkerId): Option<Row> {
    if r.worker == Some(worker) && IsReported(r.state) then Some(r.(state := WorkerOffline)) else None
  }

  /** Control Plane start-up and the beginning of a reconciliation. */
  function BeginReconciliation(r: Row, worker: WorkerId): Option<Row> {
    if r.worker == Some(worker) then Some(r.(state := WorkerOffline)) else None
  }

  /** The Worker lost its egress rules and stopped its containers. */
  function LoseEgress(r: Row, worker: WorkerId): Option<Row> {
    if r.worker == Some(worker) && r.state == Running then Some(r.(state := Error)) else None
  }

  function ReconcileRecovery(
    r: Row, worker: WorkerId, image: ImageRef, desired: Desired, state: State, now: Time): Option<Row>
  {
    if r.worker == Some(worker) && r.image == image && r.desired == desired && r.state == WorkerOffline then
      var settled := state == Running || state == Stopped;
      Some(r.(
        state := state,
        desired := if r.desired == Unknown && settled then (if state == Running then WantRunning else WantStopped) else r.desired,
        changedAt := if settled && InChange(r) then Some(now) else r.changedAt))
    else None
  }

  predicate CanDeleteRecovered(r: Row, worker: WorkerId, image: ImageRef) {
    r.worker == Some(worker) && r.image == image && r.desired == WantDeleted && r.state == WorkerOffline
  }

  predicate CanDeleteConfirmed(r: Row, worker: WorkerId) {
    r.worker == Some(worker) && r.state == Deleting
  }

  predicate CanDeleteOwned(r: Row) {
    r.worker.None? && r.state == Created
  }

  // ---------------------------------------------------------------- updates as data

  datatype Update =
    | Schedule(selected: WorkerId)
    | StartDone | Stop | IdleStop(eligible: bool) | StopDone | Delete
    | RuntimeFailure(offline: bool)
    | ChangeBegin(fromImage: ImageRef, toImage: ImageRef)
    | ChangeDone(toImage: ImageRef, now: Time)
    | ChangeRevert(restore: Restore)
    | Offline | Recover | EgressLost
    | Settle(image: ImageRef, desired: Desired, state: State, now: Time)

  /** One SQL update addressed to a row, under the Worker its caller believes it is assigned to. */
  function Updated(r: Row, worker: WorkerId, u: Update): Option<Row> {
    match u
    case Schedule(selected) => ScheduleStart(r, selected)
    case StartDone => FinishStart(r, worker)
    case Stop => BeginStop(r, worker)
    case IdleStop(eligible) => BeginIdleStop(r, worker, eligible)
    case StopDone => FinishStop(r, worker)
    case Delete => BeginDelete(r, worker)
    case RuntimeFailure(offline) => MarkRuntimeFailure(r, worker, offline)
    case ChangeBegin(fromImage, toImage) => BeginRuntimeChange(r, worker, fromImage, toImage)
    case ChangeDone(toImage, now) => FinishRuntimeChange(r, worker, toImage, now)
    case ChangeRevert(restore) => RevertRuntimeChange(r, worker, restore)
    case Offline => MarkOffline(r, worker)
    case Recover => BeginReconciliation(r, worker)
    case EgressLost => LoseEgress(r, worker)
    case Settle(image, desired, state, now) => ReconcileRecovery(r, worker, image, desired, state, now)
  }

  /**
   * What the callers guarantee about the values they pass: a revert restores STOPPED or ERROR,
   * and a reconciliation settles on the observed state only where it agrees with the wish.
   */
  predicate CallerObliges(u: Update) {
    match u
    case ChangeRevert(restore) => restore.state == Stopped || restore.state == Error
    case Settle(_, desired, state, _) =>
      || state == Error
      || (state == Running && (desired == WantRunning || desired == Unknown))
      || (state == Stopped && (desired == WantStopped || desired == Unknown))
    case _ => true
  }

  predicate StateAgrees(r: Row) {
    && (r.state == Starting || r.state == Running ==> r.desired == WantRunning)
    && (r.state == Stopping || r.state == Stopped || r.state == Upgrading ==> r.desired == WantStopped)
    && (r.state == Deleting ==> r.desired == WantDeleted)
    && (r.state == Upgrading ==> InChange(r))
    && (r.worker.Some? <==> r.state != Created)
  }

  // ---------------------------------------------------------------- the state chart

  /** The moves between states, by what makes them. */
  predicate Moves(u: Update, from: State, to: State) {
    match u
    case Schedule(_) => from in {Created, Stopped, Error, WorkerOffline} && to == Starting
    case StartDone => (from, to) == (Starting, Running)
    case Stop => (from, to) == (Running, Stopping)
    case IdleStop(_) => (from, to) == (Running, Stopping)
    case StopDone => (from, to) == (Stopping, Stopped)
    case Delete => from in {Created, Running, Stopped, Error, WorkerOffline} && to == Deleting
    case RuntimeFailure(offline) =>
      from in {Starting, Stopping, Deleting, Upgrading} && to == if offline then WorkerOffline else Error
    case ChangeBegin(_, _) => from in {Stopped, Error} && to == Upgrading
    case ChangeDone(_, _) => (from, to) == (Upgrading, Stopped)
    case ChangeRevert(restore) => (from, to) == (Upgrading, restore.state)
    case Offline => from in {Starting, Running, Stopping, Stopped, Error, Upgrading} && to == WorkerOffline
    case Recover => to == WorkerOffline
    case EgressLost => (from, to) == (Running, Error)
    case Settle(_, _, state, _) => (from, to) == (WorkerOffline, state)
  }

  /** What an update asks of the row besides its state and Worker. */
  predicate Asks(u: Update, r: Row) {
    match u
    case IdleStop(eligible) => eligible && r.desired == WantRunning
    case ChangeBegin(fromImage, toImage) =>
      && r.desired == WantStopped
      && (r.state == Stopped ==> r.image == fromImage)
      && (r.state == Error ==>
          r.previous.Some? && r.changedAt.None? && {r.image, r.previous.value} <= {fromImage, toImage})
    case ChangeDone(toImage, _) => r.image == toImage
    case Settle(image, desired, _, _) => r.image == image && r.desired == desired
    case _ => true
  }

  /** The wish after an update; an unknown one is learnt from what the Worker runs. */
  function WishAfter(u: Update, r: Row): Desired {
    match u
    case Schedule(_) => WantRunning
    case Stop => WantStopped
    case IdleStop(_) => WantStopped
    case Delete => WantDeleted
    case Settle(_, _, state, _) =>
      if r.desired != Unknown then r.desired
      else if state == Running then WantRunning
      else if state == Stopped then WantStopped
      else Unknown
    case _ => r.desired
  }

  /** Image, previous image and completion time after an update: only a Runtime change and its recovery touch them. */
  function ImagesAfter(u: Update, r: Row): (ImageRef, Option<ImageRef>, Option<Time>) {
    match u
    case ChangeBegin(fromImage, toImage) => (toImage, Some(fromImage), None)
    case ChangeDone(_, now) => (r.image, r.previous, Some(now))
    case ChangeRevert(restore) => (restore.image, restore.previous, restore.changedAt)
    case Settle(_, _, state, now) =>
      (r.image, r.previous,
       if (state == Running || state == Stopped) && r.previous.Some? && r.changedAt.None? then Some(now) else r.changedAt)
    case _ => (r.image, r.previous, r.changedAt)
  }

  /**
   * An update is accepted exactly where the chart has a move for it, from the row's own Worker and
   * with what it asks; then state, wish and images are these, and the Worker stays or is the first.
   */
  lemma AcceptedIff(r: Row, worker: WorkerId, u: Update)
    ensures Updated(r, worker, u).Some? <==>
      (exists to :: Moves(u, r.state, to)) && (u.Schedule? || r.worker == Some(worker)) && Asks(u, r)
    ensures Updated(r, worker, u).Some? ==>
      var t := Updated(r, worker, u).value;
      && Moves(u, r.state, t.state) && t.desired == WishAfter(u, r)
      && (t.image, t.previous, t.changedAt) == ImagesAfter(u, r)
      && t.worker == if r.worker.None? && u.Schedule? then Some(u.selected) else r.worker
  {
    var next := Updated(r, worker, u);
    if next.Some? {
      assert Moves(u, r.state, next.value.state);
    }
    if to :| Moves(u, r.state, to) {
      assert (u.Schedule? || r.worker == Some(worker)) && Asks(u, r) ==> next.Some?;
    }
  }

  type Table = map<WorkspaceId, Row>

  /** One step of the table: an insert, an update of every row, or a delete. */
  datatype TableStep =
    | Insert(id: WorkspaceId, image: ImageRef)
    | UpdateRows(ids: set<WorkspaceId>, worker: WorkerId, update: Update)
    | DeleteRow(id: WorkspaceId)

  /** Applies one update to each of the given rows whose guard holds. */
  function UpdateAll(t: Table, ids: set<WorkspaceId>, worker: WorkerId, u: Update): Table {
    map id | id in t :: if id in ids && Updated(t[id], worker, u).Some? then Updated(t[id], worker, u).value else t[id]
  }

  function StepTable(t: Table, s: TableStep): Table {
    match s
    case Insert(id, image) => if id in t then t else t[id := NewRow(image)]
    case UpdateRows(ids, worker, u) => UpdateAll(t, ids, worker, u)
    case DeleteRow(id) => t - {id}
  }

  predicate StepObliges(s: TableStep) {
    s.UpdateRows? ==> CallerObliges(s.update)
  }

  /**
   * The tables between consecutive steps. The first is empty, or what an older version left: rows
   * whose wish is unknown are in ERROR or WORKER_OFFLINE.
   */
  ghost predicate IsRun(tables: seq<Table>, steps: seq<TableStep>) {
    && |tables| == |steps| + 1
    && (forall id :: id in tables[0] ==> StateAgrees(tables[0][id]))
    && forall k :: 0 <= k < |steps| ==> StepObliges(steps[k]) && tables[k + 1] == StepTable(tables[k], steps[k])
  }

  lemma UpdatedAgrees(r: Row, worker: WorkerId, u: Update)
    requires StateAgrees(r) && CallerObliges(u) && Updated(r, worker, u).Some?
    ensures StateAgrees(Updated(r, worker, u).value)
    ensures r.worker.Some? ==> Updated(r, worker, u).value.worker == r.worker
  {
  }

  lemma StepAgrees(t: Table, s: TableStep, id: WorkspaceId)
    requires id in t ==> StateAgrees(t[id])
    requires StepObliges(s) && id in StepTable(t, s)
    ensures StateAgrees(StepTable(t, s)[id])
    ensures id in t && t[id].worker.Some? ==> StepTable(t, s)[id].worker == t[id].worker
  {
    if id in t && s.UpdateRows? && Updated(t[id], s.worker, s.update).Some? {
      UpdatedAgrees(t[id], s.worker, s.update);
    }
  }

  /** Every row of a table agrees with its wish. */
  predicate AllAgree(t: Table) {
    forall id :: id in t ==> StateAgrees(t[id])
  }

  lemma TableAgrees(t: Table, s: TableStep)
    ensures AllAgree(t) && StepObliges(s) ==> AllAgree(StepTable(t, s))
  {
    if AllAgree(t) && StepObliges(s) {
      forall id | id in StepTable(t, s) ensures StateAgrees(StepTable(t, s)[id]) { StepAgrees(t, s, id); }
    }
  }

  /** On every run of every Workspace transition, each row's state and wish agree. */
  lemma {:induction false} EveryRunAgrees(tables: seq<Table>, steps: seq<TableStep>, k: nat, id: WorkspaceId)
    requires IsRun(tables, steps) && k < |tables| && id in tables[k]
    ensures StateAgrees(tables[k][id])
  {
    if k > 0 {
      if id in tables[k - 1] { EveryRunAgrees(tables, steps, k - 1, id); }
      StepAgrees(tables[k - 1], steps[k - 1], id);
    }
  }

  /** A row keeps the Worker it once got for as long as it exists. */
  lemma {:induction false} AssignmentIsForever(tables: seq<Table>, steps: seq<TableStep>, i: nat, j: nat, id: WorkspaceId)
    requires IsRun(tables, steps) && i <= j < |tables|
    requires forall k :: i <= k <= j ==> id in tables[k]
    requires tables[i][id].worker.Some?
    ensures tables[j][id].worker == tables[i][id].worker
  {
    if i < j {
      AssignmentIsForever(tables, steps, i, j - 1, id);
      EveryRunAgrees(tables, steps, j - 1, id);
      assert tables[j - 1 + 1] == StepTable(tables[j - 1], steps[j - 1]);
      StepAgrees(tables[j - 1], steps[j - 1], id);
    }
  }
}
