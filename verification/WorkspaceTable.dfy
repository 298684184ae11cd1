/**
 * The repository methods that update Workspace rows in place. Each is the row transition of the same
 * name on the rows it addresses, and keeps every row of the table agreeing with its wish.
 */
module WorkspaceTable {
  import opened Wrappers
  import opened WorkspaceRows

  class WorkspaceTable {
    var rows: Table

    constructor ()
      ensures rows == map[]
    {
      rows := map[];
    }

    method CreateWorkspace(id: WorkspaceId, image: ImageRef)
      requires id !in rows
      modifies this
      ensures rows == StepTable(old(rows), Insert(id, image))
      ensures AllAgree(old(rows)) ==> AllAgree(rows)
    {
      TableAgrees(rows, Insert(id, image));
      rows := rows[id := Row(None, Created, WantStopped, image, None, None)];
    }

    method FinishWorkspaceStart(id: WorkspaceId, workerId: WorkerId) returns (ok: bool)
      modifies this
      ensures rows == UpdateAll(old(rows), {id}, workerId, StartDone)
      ensures AllAgree(old(rows)) ==> AllAgree(rows)
      ensures ok <==> id in old(rows) && Updated(old(rows)[id], workerId, StartDone).Some?
    {
      TableAgrees(rows, UpdateRows({id}, workerId, StartDone));
      if id !in rows || rows[id].worker != Some(workerId) || rows[id].state != Starting { return false; }
      rows := rows[id := rows[id].(state := Running)];
      return true;
    }

    method BeginWorkspaceStop(id: WorkspaceId, workerId: WorkerId) returns (ok: bool)
      modifies this
      ensures rows == UpdateAll(old(rows), {id}, workerId, WorkspaceRows.Update.Stop)
      ensures AllAgree(old(rows)) ==> AllAgree(rows)
      ensures ok <==> id in old(rows) && Updated(old(rows)[id], workerId, WorkspaceRows.Update.Stop).Some?
    {
      TableAgrees(rows, UpdateRows({id}, workerId, WorkspaceRows.Update.Stop));
      if id !in rows || rows[id].worker != Some(workerId) || rows[id].state != Running { return false; }
      rows := rows[id := rows[id].(state := Stopping, desired := WantStopped)];
      return true;
    }

    method FinishWorkspaceStop(id: WorkspaceId, workerId: WorkerId) returns (ok: bool)
      modifies this
      ensures rows == UpdateAll(old(rows), {id}, workerId, StopDone)
      ensures AllAgree(old(rows)) ==> AllAgree(rows)
      ensures ok <==> id in old(rows) && Updated(old(rows)[id], workerId, StopDone).Some?
    {
      TableAgrees(rows, UpdateRows({id}, workerId, StopDone));
      if id !in rows || rows[id].worker != Some(workerId) || rows[id].state != Stopping { return false; }
      rows := rows[id := rows[id].(state := Stopped)];
      return true;
    }

    method BeginWorkspaceDelete(id: WorkspaceId, workerId: WorkerId) returns (ok: bool)
      modifies this
      ensures rows == UpdateAll(old(rows), {id}, workerId, Delete)
      ensures AllAgree(old(rows)) ==> AllAgree(rows)
      ensures ok <==> id in old(rows) && Updated(old(rows)[id], workerId, Delete).Some?
    {
      TableAgrees(rows, UpdateRows({id}, workerId, Delete));
      if id !in rows || rows[id].worker != Some(workerId) { return false; }
      var state := rows[id].state;
      if state == Starting || state == Stopping || state == Deleting || state == Upgrading { return false; }
      rows := rows[id := rows[id].(state := Deleting, desired := WantDeleted)];
      return true;
    }

    method MarkWorkspaceRuntimeFailure(id: WorkspaceId, workerId: WorkerId, workerOffline: bool)
      modifies this
      ensures rows == UpdateAll(old(rows), {id}, workerId, RuntimeFailure(workerOffline))
      ensures AllAgree(old(rows)) ==> AllAgree(rows)
    {
      TableAgrees(rows, UpdateRows({id}, workerId, RuntimeFailure(workerOffline)));
      if id !in rows || rows[id].worker != Some(workerId) { return; }
      var state := rows[id].state;
      if state == Starting || state == Stopping || state == Deleting || state == Upgrading {
        rows := rows[id := rows[id].(state := if workerOffline then WorkerOffline else Error)];
      }
    }

    /** Persists the intent of a Runtime change before the Worker is told. */
    method BeginWorkspaceRuntimeChange(
      id: WorkspaceId, workerId: WorkerId, fromImage: ImageRef, toImage: ImageRef) returns (ok: bool)
      modifies this
      ensures rows == UpdateAll(old(rows), {id}, workerId, ChangeBegin(fromImage, toImage))
      ensures AllAgree(old(rows)) ==> AllAgree(rows)
      ensures ok <==> id in old(rows) && Updated(old(rows)[id], workerId, ChangeBegin(fromImage, toImage)).Some?
    {
      TableAgrees(rows, UpdateRows({id}, workerId, ChangeBegin(fromImage, toImage)));
      if id !in rows || rows[id].worker != Some(workerId) || rows[id].desired != WantStopped { return false; }
      var row := rows[id];
      var pair := {fromImage, toImage};
      var settled := row.state == Stopped && row.image == fromImage;
      var interrupted :=
        && row.state == Error && row.previous.Some? && row.changedAt.None?
        && row.image in pair && row.previous.value in pair;
      if !settled && !interrupted { return false; }
      rows := rows[id := row.(state := Upgrading, image := toImage, previous := Some(fromImage), changedAt := None)];
      return true;
    }

    method FinishWorkspaceRuntimeChange(id: WorkspaceId, workerId: WorkerId, toImage: ImageRef, now: Time) returns (ok: bool)
      modifies this
      ensures rows == UpdateAll(old(rows), {id}, workerId, ChangeDone(toImage, now))
      ensures AllAgree(old(rows)) ==> AllAgree(rows)
      ensures ok <==> id in old(rows) && Updated(old(rows)[id], workerId, ChangeDone(toImage, now)).Some?
    {
      TableAgrees(rows, UpdateRows({id}, workerId, ChangeDone(toImage, now)));
      if id !in rows || rows[id].worker != Some(workerId) { return false; }
      if rows[id].state != Upgrading || rows[id].image != toImage { return false; }
      rows := rows[id := rows[id].(state := Stopped, changedAt := Some(now))];
      return true;
    }

    method RevertWorkspaceRuntimeChange(id: WorkspaceId, workerId: WorkerId, restore: Restore) returns (ok: bool)
      modifies this
      ensures rows == UpdateAll(old(rows), {id}, workerId, ChangeRevert(restore))
      ensures CallerObliges(ChangeRevert(restore)) && AllAgree(old(rows)) ==> AllAgree(rows)
      ensures ok <==> id in old(rows) && Updated(old(rows)[id], workerId, ChangeRevert(restore)).Some?
    {
      TableAgrees(rows, UpdateRows({id}, workerId, ChangeRevert(restore)));
      if id !in rows || rows[id].worker != Some(workerId) || rows[id].state != Upgrading { return false; }
      rows := rows[id := rows[id].(
        state := restore.state, image := restore.image,
        previous := restore.previous, changedAt := restore.changedAt)];
      return true;
    }

    /** Marks every Workspace of the Worker unreachable and reports their new rows. */
    method BeginWorkerReconciliation(workerId: WorkerId) returns (ours: Table)
      modifies this
      ensures rows == UpdateAll(old(rows), old(rows).Keys, workerId, Recover)
      ensures AllAgree(old(rows)) ==> AllAgree(rows)
      ensures ours == map id | id in rows && rows[id].worker == Some(workerId) :: rows[id]
    {
      TableAgrees(rows, UpdateRows(rows.Keys, workerId, Recover));
      rows := map id | id in rows ::
        if rows[id].worker == Some(workerId) then rows[id].(state := WorkerOffline) else rows[id];
      ours := map id | id in rows && rows[id].worker == Some(workerId) :: rows[id];
    }

    method ReconcileWorkspaceRecovery(
      id: WorkspaceId, workerId: WorkerId, image: ImageRef, desired: Desired, state: State, now: Time)
      returns (ok: bool)
      modifies this
      ensures rows == UpdateAll(old(rows), {id}, workerId, Settle(image, desired, state, now))
      ensures CallerObliges(Settle(image, desired, state, now)) && AllAgree(old(rows)) ==> AllAgree(rows)
      ensures ok <==> id in old(rows) && Updated(old(rows)[id], workerId, Settle(image, desired, state, now)).Some?
    {
      TableAgrees(rows, UpdateRows({id}, workerId, Settle(image, desired, state, now)));
      if id !in rows || rows[id].worker != Some(workerId) { return false; }
      var row := rows[id];
      if row.image != image || row.desired != desired || row.state != WorkerOffline { return false; }
      var observed := state == Running || state == Stopped;
      if row.desired == Unknown && observed {
        row := row.(desired := if state == Running then WantRunning else WantStopped);
      }
      if observed && row.previous.Some? && row.changedAt.None? {
        row := row.(changedAt := Some(now));
      }
      rows := rows[id := row.(state := state)];
      return true;
    }

    method DeleteRecoveredWorkspace(id: WorkspaceId, workerId: WorkerId, image: ImageRef) returns (ok: bool)
      modifies this
      ensures ok <==> id in old(rows) && CanDeleteRecovered(old(rows)[id], workerId, image)
      ensures rows == if ok then StepTable(old(rows), DeleteRow(id)) else old(rows)
      ensures AllAgree(old(rows)) ==> AllAgree(rows)
    {
      TableAgrees(rows, DeleteRow(id));
      if id !in rows || rows[id].worker != Some(workerId) || rows[id].image != image { return false; }
      if rows[id].desired != WantDeleted || rows[id].state != WorkerOffline { return false; }
      rows := rows - {id};
      return true;
    }

    method MarkWorkersOffline(workerId: WorkerId)
      modifies this
      ensures rows == UpdateAll(old(rows), old(rows).Keys, workerId, Offline)
      ensures AllAgree(old(rows)) ==> AllAgree(rows)
    {
      TableAgrees(rows, UpdateRows(rows.Keys, workerId, Offline));
      rows := map id | id in rows ::
        if && rows[id].worker == Some(workerId)
           && rows[id].state in {Starting, Running, Stopping, Stopped, Error, Upgrading}
        then rows[id].(state := WorkerOffline) else rows[id];
    }

    /** The end of the placement transaction; an assigned Workspace keeps its Worker. */
    method ScheduleWorkspaceStart(id: WorkspaceId, selected: WorkerId) returns (ok: bool)
      modifies this
      ensures rows == UpdateAll(old(rows), {id}, selected, Schedule(selected))
      ensures AllAgree(old(rows)) ==> AllAgree(rows)
      ensures ok <==> id in old(rows) && Updated(old(rows)[id], selected, Schedule(selected)).Some?
    {
      TableAgrees(rows, UpdateRows({id}, selected, Schedule(selected)));
      if id !in rows || rows[id].state !in {Created, Stopped, Error, WorkerOffline} { return false; }
      var row := rows[id];
      if row.worker.None? { row := row.(worker := Some(selected)); }
      rows := rows[id := row.(state := Starting, desired := WantRunning)];
      return true;
    }

    /** `eligible`: neither the run nor the last access is later than the cutoff. */
    method BeginIdleStop(id: WorkspaceId, workerId: WorkerId, eligible: bool) returns (ok: bool)
      modifies this
      ensures rows == UpdateAll(old(rows), {id}, workerId, WorkspaceRows.Update.IdleStop(eligible))
      ensures AllAgree(old(rows)) ==> AllAgree(rows)
      ensures ok <==> id in old(rows) && Updated(old(rows)[id], workerId, WorkspaceRows.Update.IdleStop(eligible)).Some?
    {
      TableAgrees(rows, UpdateRows({id}, workerId, WorkspaceRows.Update.IdleStop(eligible)));
      if id !in rows || rows[id].worker != Some(workerId) || rows[id].state != Running { return false; }
      if rows[id].desired != WantRunning || !eligible { return false; }
      rows := rows[id := rows[id].(state := Stopping, desired := WantStopped)];
      return true;
    }

    method DeleteConfirmedWorkspace(id: WorkspaceId, workerId: WorkerId) returns (ok: bool)
      modifies this
      ensures ok <==> id in old(rows) && CanDeleteConfirmed(old(rows)[id], workerId)
      ensures rows == if ok then StepTable(old(rows), DeleteRow(id)) else old(rows)
      ensures AllAgree(old(rows)) ==> AllAgree(rows)
    {
      TableAgrees(rows, DeleteRow(id));
      if id !in rows || rows[id].worker != Some(workerId) || rows[id].state != Deleting { return false; }
      rows := rows - {id};
      return true;
    }

    /** A Workspace that never got a Worker is removed at once. */
    method DeleteOwnedWorkspace(id: WorkspaceId) returns (ok: bool)
      modifies this
      ensures ok <==> id in old(rows) && CanDeleteOwned(old(rows)[id])
      ensures rows == if ok then StepTable(old(rows), DeleteRow(id)) else old(rows)
      ensures AllAgree(old(rows)) ==> AllAgree(rows)
    {
      TableAgrees(rows, DeleteRow(id));
      if id !in rows || rows[id].worker.Some? || rows[id].state != Created { return false; }
      rows := rows - {id};
      return true;
    }

    /** The Worker lost its egress rules and stopped its containers. */
    method LoseEgressEnforcement(workerId: WorkerId)
      modifies this
      ensures rows == UpdateAll(old(rows), old(rows).Keys, workerId, EgressLost)
      ensures AllAgree(old(rows)) ==> AllAgree(rows)
    {
      TableAgrees(rows, UpdateRows(rows.Keys, workerId, EgressLost));
      rows := map id | id in rows ::
        if rows[id].worker == Some(workerId) && rows[id].state == Running then rows[id].(state := Error) else rows[id];
    }
  }

  // ---------------------------------------------------------------- runs of the repository's methods

  /** One call of a repository method; callers create under an ID nothing has. */
  datatype Call =
    | Create(id: WorkspaceId, image: ImageRef)
    | OneRow(id: WorkspaceId, worker: WorkerId, update: Update)
    | EveryRow(worker: WorkerId, update: Update)
    | RemoveConfirmed(id: WorkspaceId, worker: WorkerId)
    | RemoveRecovered(id: WorkspaceId, worker: WorkerId, image: ImageRef)
    | RemoveOwned(id: WorkspaceId)

  predicate OfWorker(u: Update) {
    u.Offline? || u.Recover? || u.EgressLost?
  }

  predicate MayCall(t: Table, c: Call) {
    match c
    case Create(id, _) => id !in t
    case OneRow(_, worker, u) => !OfWorker(u) && CallerObliges(u) && (u.Schedule? ==> worker == u.selected)
    case EveryRow(_, u) => OfWorker(u)
    case _ => true
  }

  function Removed(t: Table, id: WorkspaceId, allowed: bool): Table {
    if allowed then StepTable(t, DeleteRow(id)) else t
  }

  /** The table after the call. */
  function Called(t: Table, c: Call): Table {
    match c
    case Create(id, image) => StepTable(t, Insert(id, image))
    case OneRow(id, worker, u) => UpdateAll(t, {id}, worker, u)
    case EveryRow(worker, u) => UpdateAll(t, t.Keys, worker, u)
    case RemoveConfirmed(id, worker) => Removed(t, id, id in t && CanDeleteConfirmed(t[id], worker))
    case RemoveRecovered(id, worker, image) => Removed(t, id, id in t && CanDeleteRecovered(t[id], worker, image))
    case RemoveOwned(id) => Removed(t, id, id in t && CanDeleteOwned(t[id]))
  }

  /** Every row transition is one of the methods on the table in place. */
  method Perform(table: WorkspaceTable, c: Call)
    requires MayCall(table.rows, c)
    modifies table
    ensures table.rows == Called(old(table.rows), c)
    ensures AllAgree(old(table.rows)) ==> AllAgree(table.rows)
  {
    hide AllAgree, UpdateAll, StepTable;
    match c {
      case Create(id, image) => table.CreateWorkspace(id, image);
      case OneRow(id, worker, u) => PerformUpdate(table, id, worker, u);
      case EveryRow(worker, u) =>
        if u.Offline? {
          table.MarkWorkersOffline(worker);
        } else if u.Recover? {
          var _ := table.BeginWorkerReconciliation(worker);
        } else {
          table.LoseEgressEnforcement(worker);
        }
      case RemoveConfirmed(id, worker) => var _ := table.DeleteConfirmedWorkspace(id, worker);
      case RemoveRecovered(id, worker, image) => var _ := table.DeleteRecoveredWorkspace(id, worker, image);
      case RemoveOwned(id) => var _ := table.DeleteOwnedWorkspace(id);
    }
  }

  method PerformUpdate(table: WorkspaceTable, id: WorkspaceId, worker: WorkerId, u: Update)
    requires !OfWorker(u) && CallerObliges(u) && (u.Schedule? ==> worker == u.selected)
    modifies table
    ensures table.rows == UpdateAll(old(table.rows), {id}, worker, u)
    ensures AllAgree(old(table.rows)) ==> AllAgree(table.rows)
  {
    hide AllAgree, UpdateAll, Updated;
    var ok := true;
    match u {
      case Schedule(selected) => ok := table.ScheduleWorkspaceStart(id, selected);
      case StartDone => ok := table.FinishWorkspaceStart(id, worker);
      case Stop => ok := table.BeginWorkspaceStop(id, worker);
      case IdleStop(eligible) => ok := table.BeginIdleStop(id, worker, eligible);
      case StopDone => ok := table.FinishWorkspaceStop(id, worker);
      case Delete => ok := table.BeginWorkspaceDelete(id, worker);
      case RuntimeFailure(offline) => table.MarkWorkspaceRuntimeFailure(id, worker, offline);
      case ChangeBegin(fromImage, toImage) => ok := table.BeginWorkspaceRuntimeChange(id, worker, fromImage, toImage);
      case ChangeDone(toImage, now) => ok := table.FinishWorkspaceRuntimeChange(id, worker, toImage, now);
      case ChangeRevert(restore) => ok := table.RevertWorkspaceRuntimeChange(id, worker, restore);
      case Settle(image, desired, state, now) =>
        ok := table.ReconcileWorkspaceRecovery(id, worker, image, desired, state, now);
    }
  }

  /** A new Workspace belongs to no Worker, is not to run and has had one image only; a call of any other kind adds none. */
  lemma AddedIff(t: Table, c: Call, id: WorkspaceId)
    requires id !in t && MayCall(t, c)
    ensures id in Called(t, c) <==> c.Create? && c.id == id
    ensures id in Called(t, c) ==> Called(t, c)[id] == Row(None, Created, WantStopped, c.image, None, None)
  {
  }

  /** A call changes no row but those it is addressed to. */
  lemma OthersStay(t: Table, c: Call, id: WorkspaceId)
    requires id in t && MayCall(t, c) && id in Called(t, c)
    ensures Called(t, c)[id] != t[id] ==>
      (c.OneRow? && c.id == id && Called(t, c)[id].worker.Some?) || (c.EveryRow? && t[id].worker == Some(c.worker))
  {
  }

  /** A call removes a row exactly when it confirms its deletion, finds it gone, or drops one that never had a Worker. */
  lemma RemovedIff(t: Table, c: Call, id: WorkspaceId)
    requires id in t && MayCall(t, c)
    ensures id !in Called(t, c) <==>
      match c
      case RemoveConfirmed(other, worker) => other == id && t[id].worker == Some(worker) && t[id].state == Deleting
      case RemoveRecovered(other, worker, image) =>
        && other == id && t[id].worker == Some(worker) && t[id].state == WorkerOffline && t[id].desired == WantDeleted
        && t[id].image == image
      case RemoveOwned(other) => other == id && t[id].worker.None? && t[id].state == Created
      case _ => false
  {
  }

  /** The tables between consecutive calls, from one that agrees. */
  ghost predicate IsCallRun(tables: seq<Table>, calls: seq<Call>) {
    && |tables| == |calls| + 1 && AllAgree(tables[0])
    && forall k :: 0 <= k < |calls| ==> MayCall(tables[k], calls[k]) && tables[k + 1] == Called(tables[k], calls[k])
  }

  lemma CallAgrees(t: Table, c: Call)
    requires AllAgree(t) && MayCall(t, c)
    ensures AllAgree(Called(t, c))
  {
    match c
    case Create(id, image) => TableAgrees(t, Insert(id, image));
    case OneRow(id, worker, u) => TableAgrees(t, UpdateRows({id}, worker, u));
    case EveryRow(worker, u) => TableAgrees(t, UpdateRows(t.Keys, worker, u));
    case RemoveConfirmed(id, _) => TableAgrees(t, DeleteRow(id));
    case RemoveRecovered(id, _, _) => TableAgrees(t, DeleteRow(id));
    case RemoveOwned(id) => TableAgrees(t, DeleteRow(id));
  }

  lemma {:induction false} CallsAgree(tables: seq<Table>, calls: seq<Call>, k: nat)
    requires IsCallRun(tables, calls) && k < |tables|
    ensures AllAgree(tables[k])
  {
    if k > 0 {
      CallsAgree(tables, calls, k - 1);
      CallAgrees(tables[k - 1], calls[k - 1]);
      assert tables[k - 1 + 1] == Called(tables[k - 1], calls[k - 1]);
    }
  }

  /**
   * Over every run of repository calls a Workspace disappears only when it is meant to be deleted,
   * and is being deleted or unreachable, or when it never had a Worker.
   */
  lemma RemovedOnlyWhenWanted(tables: seq<Table>, calls: seq<Call>, k: nat, id: WorkspaceId)
    requires IsCallRun(tables, calls) && k < |calls| && id in tables[k] && id !in tables[k + 1]
    ensures var row := tables[k][id];
      if row.worker.None? then row.state == Created
      else row.desired == WantDeleted && (row.state == Deleting || row.state == WorkerOffline)
  {
    CallsAgree(tables, calls, k);
    assert StateAgrees(tables[k][id]);
  }
}
