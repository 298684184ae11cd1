/**
 * Quota project IDs of a Worker's Workspaces: the lowest unused ones above the probe's, allocated
 * one task at a time from a scan that runs beside deletions and new directories.
 */
module ProjectIds {
  import opened Wrappers

  type WorkspaceId = nat

  const WINDOW := 1048576

  /** The candidates below the limit that are not used, in order, at most `count` of them. */
  function LowestUnused(used: set<nat>, candidate: nat, limit: nat, count: nat): seq<nat>
    decreases if candidate < limit then limit - candidate else 0
  {
    if count == 0 || candidate >= limit then []
    else if candidate in used then LowestUnused(used, candidate + 1, limit, count)
    else [candidate] + LowestUnused(used, candidate + 1, limit, count - 1)
  }

  method UnusedProjectIds(used: set<nat>, projectIdMin: nat, count: nat) returns (ids: seq<nat>)
    ensures ids == LowestUnused(used, projectIdMin + 1, projectIdMin + 1 + WINDOW, count)
  {
    ids := [];
    var first := projectIdMin + 1;
    var candidate := first;
    while |ids| < count && candidate < first + WINDOW
      invariant |ids| <= count && first <= candidate <= first + WINDOW
      invariant ids + LowestUnused(used, candidate, first + WINDOW, count - |ids|)
        == LowestUnused(used, first, first + WINDOW, count)
      decreases first + WINDOW - candidate
    {
      if candidate !in used { ids := ids + [candidate]; }
      candidate := candidate + 1;
    }
    assert LowestUnused(used, candidate, first + WINDOW, count - |ids|) == [];
  }

  /** What the allocation means: ascending, unused, no smaller unused one skipped, short only when none is left. */
  lemma {:induction false} LowestUnusedIsLowest(used: set<nat>, candidate: nat, limit: nat, count: nat)
    ensures var ids := LowestUnused(used, candidate, limit, count);
      && |ids| <= count
      && (forall i :: 0 <= i < |ids| ==> candidate <= ids[i] < limit && ids[i] !in used)
      && (forall i, j :: 0 <= i < j < |ids| ==> ids[i] < ids[j])
      && (forall id :: candidate <= id < limit && id !in used && id !in ids ==>
          |ids| == count && forall i :: 0 <= i < |ids| ==> ids[i] < id)
    decreases if candidate < limit then limit - candidate else 0
  {
    if count > 0 && candidate < limit {
      if candidate in used {
        LowestUnusedIsLowest(used, candidate + 1, limit, count);
      } else {
        LowestUnusedIsLowest(used, candidate + 1, limit, count - 1);
        var rest := LowestUnused(used, candidate + 1, limit, count - 1);
        forall id | candidate <= id < limit && id !in used && id !in [candidate] + rest
          ensures |rest| + 1 == count && forall i :: 0 <= i < |rest| ==> rest[i] < id
        {
          assert id != candidate by { assert ([candidate] + rest)[0] == candidate; }
          assert id !in rest;
        }
      }
    }
  }

  // ---------------------------------------------------------------- the Worker's metadata files

  datatype Quota = Quota(data: nat, pi: nat)

  /** The allocation that is running: what `readdir` listed, what was read of it, and the IDs found. */
  datatype Task = Task(workspace: WorkspaceId, listed: set<WorkspaceId>, read: set<WorkspaceId>, used: set<nat>)

  /** Every Workspace directory with the quota its metadata records, if any. */
  datatype Sys = Sys(metadata: map<WorkspaceId, Option<Quota>>, task: Option<Task>)

  datatype Step =
    | CreateDirectory(workspace: WorkspaceId)
    | DeleteDirectory(workspace: WorkspaceId)
    | StartAllocation(workspace: WorkspaceId)
    | ReadMetadata(workspace: WorkspaceId)
    | FinishAllocation
    | Crash

  predicate Enabled(s: Sys, step: Step) {
    match step
    case CreateDirectory(w) => w !in s.metadata
    case DeleteDirectory(_) => true
    case StartAllocation(w) => s.task.None?
    case ReadMetadata(w) => s.task.Some? && w in s.task.value.listed && w !in s.task.value.read
    case FinishAllocation => s.task.Some? && s.task.value.read == s.task.value.listed
    case Crash => true
  }

  function IdsOf(q: Option<Quota>): set<nat> {
    if q.Some? then {q.value.data, q.value.pi} else {}
  }

  /** Two IDs for the Workspace, or none when fewer than two are left or its directory is gone. */
  function Allocated(s: Sys, task: Task, projectIdMin: nat): map<WorkspaceId, Option<Quota>> {
    var ids := LowestUnused(task.used, projectIdMin + 1, projectIdMin + 1 + WINDOW, 2);
    if |ids| == 2 && task.workspace in s.metadata
    then s.metadata[task.workspace := Some(Quota(ids[0], ids[1]))] else s.metadata
  }

  function Apply(s: Sys, step: Step, projectIdMin: nat): Sys
    requires Enabled(s, step)
  {
    match step
    case CreateDirectory(w) => s.(metadata := s.metadata[w := None])
    case DeleteDirectory(w) => s.(metadata := s.metadata - {w})
    case StartAllocation(w) => s.(task := Some(Task(w, s.metadata.Keys, {}, {})))
    case ReadMetadata(w) =>
      var task := s.task.value;
      var found := if w in s.metadata then IdsOf(s.metadata[w]) else {};
      s.(task := Some(task.(read := task.read + {w}, used := task.used + found)))
    case FinishAllocation => Sys(Allocated(s, s.task.value, projectIdMin), None)
    case Crash => s.(task := None)
  }

  ghost predicate IsRun(states: seq<Sys>, steps: seq<Step>, projectIdMin: nat) {
    && |states| == |steps| + 1
    && states[0] == Sys(map[], None)
    && forall k :: 0 <= k < |steps| ==> Enabled(states[k], steps[k]) && states[k + 1] == Apply(states[k], steps[k], projectIdMin)
  }

  predicate QuotaOk(s: Sys, w: WorkspaceId, projectIdMin: nat) {
    w in s.metadata && s.metadata[w].Some? ==>
      var q := s.metadata[w].value;
      q.data != q.pi && q.data > projectIdMin && q.pi > projectIdMin
  }

  predicate Apart(s: Sys, w: WorkspaceId, v: WorkspaceId) {
    w in s.metadata && v in s.metadata && w != v ==> IdsOf(s.metadata[w]) !! IdsOf(s.metadata[v])
  }

  /** The scan has missed no recorded ID of a directory that it was past. */
  predicate ScanOk(s: Sys, w: WorkspaceId) {
    s.task.Some? && w in s.metadata && s.metadata[w].Some? ==>
      w in s.task.value.listed && (w in s.task.value.read ==> IdsOf(s.metadata[w]) <= s.task.value.used)
  }

  ghost predicate Inv(s: Sys, projectIdMin: nat) {
    && (forall w :: QuotaOk(s, w, projectIdMin) && ScanOk(s, w))
    && (forall w, v :: Apart(s, w, v))
  }

  lemma KeepsScan(s: Sys, step: Step, projectIdMin: nat, w: WorkspaceId)
    requires Enabled(s, step) && ScanOk(s, w)
    ensures ScanOk(Apply(s, step, projectIdMin), w)
  {
  }

  lemma KeepsQuota(s: Sys, step: Step, projectIdMin: nat, w: WorkspaceId)
    requires Enabled(s, step) && QuotaOk(s, w, projectIdMin)
    ensures QuotaOk(Apply(s, step, projectIdMin), w, projectIdMin)
  {
    if step.FinishAllocation? {
      LowestUnusedIsLowest(s.task.value.used, projectIdMin + 1, projectIdMin + 1 + WINDOW, 2);
    }
  }

  lemma KeepsApart(s: Sys, step: Step, projectIdMin: nat, w: WorkspaceId, v: WorkspaceId)
    requires Enabled(s, step) && Apart(s, w, v) && ScanOk(s, w) && ScanOk(s, v)
    ensures Apart(Apply(s, step, projectIdMin), w, v)
  {
    if step.FinishAllocation? {
      LowestUnusedIsLowest(s.task.value.used, projectIdMin + 1, projectIdMin + 1 + WINDOW, 2);
    }
  }

  lemma {:induction false} InvOnRuns(states: seq<Sys>, steps: seq<Step>, projectIdMin: nat, k: nat)
    requires IsRun(states, steps, projectIdMin) && k < |states|
    ensures Inv(states[k], projectIdMin)
  {
    if k > 0 {
      InvOnRuns(states, steps, projectIdMin, k - 1);
      var s, t := states[k - 1], states[k];
      assert states[k - 1 + 1] == Apply(s, steps[k - 1], projectIdMin);
      forall w ensures QuotaOk(t, w, projectIdMin) && ScanOk(t, w) {
        assert QuotaOk(s, w, projectIdMin) && ScanOk(s, w);
        KeepsQuota(s, steps[k - 1], projectIdMin, w);
        KeepsScan(s, steps[k - 1], projectIdMin, w);
      }
      forall w, v ensures Apart(t, w, v) {
        assert Apart(s, w, v) && ScanOk(s, w) && ScanOk(s, v);
        KeepsApart(s, steps[k - 1], projectIdMin, w, v);
      }
    }
  }

  /** Over every run of ensures and deletes the recorded project IDs are pairwise distinct and above the probe's. */
  lemma ProjectIdsAreDistinct(states: seq<Sys>, steps: seq<Step>, projectIdMin: nat, k: nat, w: WorkspaceId, v: WorkspaceId)
    requires IsRun(states, steps, projectIdMin) && k < |states| && w in states[k].metadata && v in states[k].metadata
    ensures var m := states[k].metadata;
      && (m[w].Some? ==> m[w].value.data != m[w].value.pi && m[w].value.data > projectIdMin && m[w].value.pi > projectIdMin)
      && (w != v && m[w].Some? && m[v].Some? ==>
          && m[w].value.data != m[v].value.data && m[w].value.data != m[v].value.pi
          && m[w].value.pi != m[v].value.data && m[w].value.pi != m[v].value.pi)
  {
    InvOnRuns(states, steps, projectIdMin, k);
    assert QuotaOk(states[k], w, projectIdMin) && Apart(states[k], w, v);
    var m := states[k].metadata;
    if w != v && m[w].Some? && m[v].Some? {
      assert m[w].value.data in IdsOf(m[w]) && m[w].value.pi in IdsOf(m[w]);
      assert m[v].value.data in IdsOf(m[v]) && m[v].value.pi in IdsOf(m[v]);
    }
  }

  // ---------------------------------------------------------------- an undisturbed allocation

  /** The steps can be taken one after the other and lead to the state. */
  ghost predicate Takes(s: Sys, steps: seq<Step>, t: Sys, projectIdMin: nat)
    decreases |steps|
  {
    if steps == [] then s == t
    else Enabled(s, steps[0]) && Takes(Apply(s, steps[0], projectIdMin), steps[1..], t, projectIdMin)
  }

  lemma {:induction false} TakesMore(s: Sys, steps: seq<Step>, t: Sys, step: Step, projectIdMin: nat)
    requires Takes(s, steps, t, projectIdMin) && Enabled(t, step)
    ensures Takes(s, steps + [step], Apply(t, step, projectIdMin), projectIdMin)
    decreases |steps|
  {
    hide Apply, Enabled;
    if steps == [] {
      assert (steps + [step])[1..] == [];
    } else {
      assert (steps + [step])[1..] == steps[1..] + [step];
      TakesMore(Apply(s, steps[0], projectIdMin), steps[1..], t, step, projectIdMin);
    }
  }

  /** The metadata of some directory records the ID. */
  ghost predicate IsRecorded(metadata: map<WorkspaceId, Option<Quota>>, ws: set<WorkspaceId>, id: nat) {
    exists w :: w in ws && w in metadata && metadata[w].Some? && (id == metadata[w].value.data || id == metadata[w].value.pi)
  }

  lemma ReadOne(t: Sys, w: WorkspaceId, projectIdMin: nat) returns (next: Sys)
    requires t.task.Some? && w in t.task.value.listed && w !in t.task.value.read
    ensures Enabled(t, ReadMetadata(w)) && next == Apply(t, ReadMetadata(w), projectIdMin)
    ensures next.metadata == t.metadata && next.task.Some?
    ensures next.task.value == t.task.value.(read := t.task.value.read + {w}, used := next.task.value.used)
    ensures forall id: nat :: id in next.task.value.used <==> id in t.task.value.used || IsRecorded(t.metadata, {w}, id)
  {
    next := Apply(t, ReadMetadata(w), projectIdMin);
  }

  lemma RecordedMore(metadata: map<WorkspaceId, Option<Quota>>, left: set<WorkspaceId>, w: WorkspaceId)
    requires w in left
    ensures forall id: nat :: IsRecorded(metadata, left, id) <==> IsRecorded(metadata, {w}, id) || IsRecorded(metadata, left - {w}, id)
  {
    forall id: nat
      ensures IsRecorded(metadata, left, id) <==> IsRecorded(metadata, {w}, id) || IsRecorded(metadata, left - {w}, id)
    {
    }
  }

  /** The scan reads on until it has read everything that was listed. */
  lemma {:induction false} ScanCompletes(s: Sys, steps: seq<Step>, t: Sys, projectIdMin: nat) returns (more: seq<Step>, u: Sys)
    requires Takes(s, steps, t, projectIdMin) && t.task.Some? && t.task.value.read <= t.task.value.listed
    ensures Takes(s, more, u, projectIdMin) && u.metadata == t.metadata && u.task.Some?
    ensures u.task.value == t.task.value.(read := t.task.value.listed, used := u.task.value.used)
    ensures forall id: nat :: id in u.task.value.used <==>
      id in t.task.value.used || IsRecorded(t.metadata, t.task.value.listed - t.task.value.read, id)
    decreases |t.task.value.listed - t.task.value.read|
  {
    hide Takes, Apply, Enabled;
    var task := t.task.value;
    var left := task.listed - task.read;
    if left == {} {
      more, u := steps, t;
      assert task.read == task.listed by {
        forall v | v in task.listed ensures v in task.read { assert v !in left; }
      }
    } else {
      var w :| w in left;
      var next := ReadOne(t, w, projectIdMin);
      TakesMore(s, steps, t, ReadMetadata(w), projectIdMin);
      RecordedMore(t.metadata, left, w);
      assert next.task.value.listed - next.task.value.read == left - {w};
      hide IsRecorded;
      more, u := ScanCompletes(s, steps + [ReadMetadata(w)], next, projectIdMin);
    }
  }

  /** Above the probe's, within the window and recorded by no directory. */
  ghost predicate IsFree(s: Sys, id: nat, projectIdMin: nat) {
    projectIdMin < id <= projectIdMin + WINDOW && !IsRecorded(s.metadata, s.metadata.Keys, id)
  }

  /** Both are free, and no other free ID is below the second. */
  ghost predicate LowestPair(s: Sys, q: Quota, projectIdMin: nat) {
    && q.data < q.pi && IsFree(s, q.data, projectIdMin) && IsFree(s, q.pi, projectIdMin)
    && forall id: nat :: IsFree(s, id, projectIdMin) && id != q.data ==> q.pi <= id
  }

  ghost predicate TwoFree(s: Sys, projectIdMin: nat) {
    exists a: nat, b: nat :: a < b && IsFree(s, a, projectIdMin) && IsFree(s, b, projectIdMin)
  }

  lemma LowestTwo(s: Sys, used: set<nat>, projectIdMin: nat)
    requires forall id: nat :: id in used <==> IsRecorded(s.metadata, s.metadata.Keys, id)
    ensures var ids := LowestUnused(used, projectIdMin + 1, projectIdMin + 1 + WINDOW, 2);
      if TwoFree(s, projectIdMin) then |ids| == 2 && LowestPair(s, Quota(ids[0], ids[1]), projectIdMin) else |ids| < 2
  {
    var ids := LowestUnused(used, projectIdMin + 1, projectIdMin + 1 + WINDOW, 2);
    LowestUnusedIsLowest(used, projectIdMin + 1, projectIdMin + 1 + WINDOW, 2);
    hide LowestUnused, IsRecorded;
    if |ids| == 2 {
      assert IsFree(s, ids[0], projectIdMin) && IsFree(s, ids[1], projectIdMin);
      forall id: nat | IsFree(s, id, projectIdMin) && id != ids[0] ensures ids[1] <= id {
        if id in ids { assert id == ids[1]; }
      }
    } else if a: nat, b: nat :| a < b && IsFree(s, a, projectIdMin) && IsFree(s, b, projectIdMin) {
      assert false;
    }
  }

  /**
   * From every state without a running allocation, an allocation that nothing disturbs records for
   * an existing Workspace the two lowest free IDs, whenever there are two, and changes nothing else.
   */
  lemma UndisturbedAllocation(s: Sys, w: WorkspaceId, projectIdMin: nat) returns (steps: seq<Step>, t: Sys)
    requires s.task.None? && w in s.metadata
    ensures Takes(s, steps, t, projectIdMin) && t.task.None?
    ensures if TwoFree(s, projectIdMin)
      then exists q: Quota :: LowestPair(s, q, projectIdMin) && t.metadata == s.metadata[w := Some(q)]
      else t.metadata == s.metadata
  {
    var start := Apply(s, StartAllocation(w), projectIdMin);
    assert Takes(s, [], s, projectIdMin);
    TakesMore(s, [], s, StartAllocation(w), projectIdMin);
    assert s.metadata.Keys - {} == s.metadata.Keys;
    hide Takes, IsRecorded;
    var u: Sys;
    steps, u := ScanCompletes(s, [] + [StartAllocation(w)], start, projectIdMin);
    LowestTwo(s, u.task.value.used, projectIdMin);
    hide LowestUnused, LowestPair, TwoFree;
    TakesMore(s, steps, u, FinishAllocation, projectIdMin);
    steps, t := steps + [FinishAllocation], Apply(u, FinishAllocation, projectIdMin);
  }
}
