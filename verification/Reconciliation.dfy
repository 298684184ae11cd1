/**
 * Reconciliation after a reconnect. The Worker takes a full inventory and reports on every
 * assignment; the Control Plane settles each Workspace on what was observed, or removes it.
 */
module Reconciliation {
  import opened Wrappers
  import opened WorkspaceRows
  import RuntimeProtocol

  const MAX_ISSUES := 10000

  // ---------------------------------------------------------------- the Worker's report

  datatype Assignment = Assignment(workspace: WorkspaceId, image: ImageRef, desired: Desired)

  /** The Worker that reports. */
  const SELF: WorkerId := RuntimeProtocol.WORKER

  /**
   * A container or network: in the platform's namespace or labelled by it, the Workspaces its name
   * and its labels name, and the Worker its platform labels name.
   */
  datatype Resource = Resource(
    ours: bool, named: Option<WorkspaceId>, labelled: Option<WorkspaceId>, owner: Option<WorkerId>)

  /**
   * An entry of the Workspaces directory: `workspace` when its name is a Workspace ID, `owner` the
   * Worker its metadata names when it can be read and names that Workspace.
   */
  datatype Entry = Entry(workspace: Option<WorkspaceId>, isDirectory: bool, owner: Option<WorkerId>)

  datatype Kind = ContainerKind | NetworkKind | DirectoryKind

  datatype Classification = ManagedOrphan | ForeignManaged | UnknownResource

  datatype Issue = Issue(kind: Kind, workspace: Option<WorkspaceId>, classification: Classification, invalidEntry: bool)

  /** What inspecting a Workspace's own directory, network and container finds. */
  datatype Local = Local(
    image: ImageRef, fault: Option<bool>, running: bool, enforced: bool, stable: bool, exits: bool, becomesReady: bool)

  datatype Result =
    | Missing(workspace: WorkspaceId)
    | Observed(workspace: WorkspaceId, image: ImageRef, state: State)
    | InvalidResult(workspace: WorkspaceId, retryable: bool)

  datatype Report = Report(results: seq<Result>, issues: seq<Issue>)

  /** `fault` is a failed identity or baseline check, with whether it may be retried. */
  function InspectForRecovery(a: Assignment, local: map<WorkspaceId, Local>): Result {
    if a.workspace !in local then InvalidResult(a.workspace, false)
    else
      var l := local[a.workspace];
      if l.image != a.image then InvalidResult(a.workspace, false)
      else if l.fault.Some? then InvalidResult(a.workspace, l.fault.value)
      else if l.running && !l.enforced then InvalidResult(a.workspace, false)
      else if !l.stable then InvalidResult(a.workspace, true)
      else if !l.running then Observed(a.workspace, l.image, Stopped)
      else if l.exits then InvalidResult(a.workspace, false)
      else if l.becomesReady then Observed(a.workspace, l.image, Running)
      else InvalidResult(a.workspace, true)
  }

  function IdsOf(r: Resource): seq<WorkspaceId> {
    (if r.named.Some? then [r.named.value] else []) + (if r.labelled.Some? then [r.labelled.value] else [])
  }

  predicate Mentions(r: Resource, w: WorkspaceId) {
    r.ours && w in IdsOf(r)
  }

  predicate AnyMentions(rs: seq<Resource>, w: WorkspaceId) {
    exists r :: r in rs && Mentions(r, w)
  }

  predicate AnyEntry(entries: seq<Entry>, w: WorkspaceId) {
    exists e :: e in entries && e.workspace == Some(w)
  }

  function Classify(r: Resource, workspace: Option<WorkspaceId>): Classification {
    if r.owner.Some? && r.owner != Some(SELF) then ForeignManaged
    else if workspace.Some? && r.named == workspace && r.labelled == workspace && r.owner == Some(SELF) then ManagedOrphan
    else UnknownResource
  }

  function ClassifyEntry(e: Entry): Classification {
    if e.workspace.None? || !e.isDirectory || e.owner.None? then UnknownResource
    else if e.owner == Some(SELF) then ManagedOrphan
    else ForeignManaged
  }

  /** The issue one container or network gives rise to: it names a Workspace that is not assigned, or none. */
  function IssueOf(r: Resource, kind: Kind, expected: set<WorkspaceId>): Option<Issue> {
    var ids := IdsOf(r);
    if !r.ours || (ids != [] && forall w :: w in ids ==> w in expected) then None
    else
      var workspace :=
        if r.named.Some? && r.named.value !in expected then r.named
        else if r.labelled.Some? && r.labelled.value !in expected then r.labelled
        else if r.labelled.Some? then r.labelled else r.named;
      Some(Issue(kind, workspace, Classify(r, workspace), false))
  }

  /**
   * A container or network of the platform is an issue unless every Workspace it names is assigned
   * here, and then the issue names one that is not, by the name first, if there is one; it is an
   * orphan of this Worker exactly when name and labels agree on that Workspace and the labels on
   * this Worker, and foreign exactly when they name another one.
   */
  lemma IssueIff(r: Resource, kind: Kind, expected: set<WorkspaceId>)
    ensures IssueOf(r, kind, expected).Some? <==>
      r.ours && ((forall w :: !Mentions(r, w)) || exists w :: Mentions(r, w) && w !in expected)
    ensures IssueOf(r, kind, expected).Some? && (exists w :: Mentions(r, w)) ==>
      var named := IssueOf(r, kind, expected).value.workspace;
      named.Some? && Mentions(r, named.value) && named.value !in expected
    ensures IssueOf(r, kind, expected).Some? ==>
      var issue := IssueOf(r, kind, expected).value;
      && issue.kind == kind && !issue.invalidEntry
      && (issue.workspace.None? <==> forall w :: !Mentions(r, w))
      && (r.named.Some? && r.named.value !in expected ==> issue.workspace == r.named)
      && (issue.classification == ManagedOrphan <==>
          r.owner == Some(SELF) && r.named.Some? && r.labelled == r.named)
      && (issue.classification == ForeignManaged <==> r.owner.Some? && r.owner.value != SELF)
  {
    var ids := IdsOf(r);
    assert r.ours && ids != [] ==> Mentions(r, ids[0]);
    assert forall w :: Mentions(r, w) <==> r.ours && w in ids;
  }

  function EntryIssue(e: Entry, expected: set<WorkspaceId>): Option<Issue> {
    if e.workspace.Some? && e.workspace.value in expected then None
    else Some(Issue(DirectoryKind, e.workspace, ClassifyEntry(e), !e.isDirectory))
  }

  function IssuesOf(rs: seq<Resource>, kind: Kind, expected: set<WorkspaceId>): seq<Issue> {
    if rs == [] then []
    else
      var n := |rs| - 1;
      var issue := IssueOf(rs[n], kind, expected);
      IssuesOf(rs[..n], kind, expected) + (if issue.Some? then [issue.value] else [])
  }

  function EntryIssues(es: seq<Entry>, expected: set<WorkspaceId>): seq<Issue> {
    if es == [] then []
    else
      var n := |es| - 1;
      var issue := EntryIssue(es[n], expected);
      EntryIssues(es[..n], expected) + (if issue.Some? then [issue.value] else [])
  }

  /** A directory is an issue unless it is that of an assigned Workspace; whose it is, its metadata says. */
  lemma EntryIssueIff(e: Entry, expected: set<WorkspaceId>)
    ensures EntryIssue(e, expected).None? <==> e.workspace.Some? && e.workspace.value in expected
    ensures EntryIssue(e, expected).Some? ==>
      var issue := EntryIssue(e, expected).value;
      var telling := e.workspace.Some? && e.isDirectory && e.owner.Some?;
      && issue.kind == DirectoryKind && issue.workspace == e.workspace && (issue.invalidEntry <==> !e.isDirectory)
      && (issue.classification == ManagedOrphan <==> telling && e.owner.value == SELF)
      && (issue.classification == ForeignManaged <==> telling && e.owner.value != SELF)
  {
  }

  /** The issue of the `k`-th resource stands behind as many issues as there are before it. */
  lemma {:induction false} IssuesAt(rs: seq<Resource>, kind: Kind, expected: set<WorkspaceId>, k: nat)
    requires k < |rs| && IssueOf(rs[k], kind, expected).Some?
    ensures var before, all := |IssuesOf(rs[..k], kind, expected)|, IssuesOf(rs, kind, expected);
      before < |all| && all[before] == IssueOf(rs[k], kind, expected).value
  {
    var n := |rs| - 1;
    if k < n {
      IssuesAt(rs[..n], kind, expected, k);
      assert rs[..n][..k] == rs[..k];
    }
    hide IssueOf;
  }

  /** And every issue is that of some resource. */
  lemma {:induction false} IssuesFrom(rs: seq<Resource>, kind: Kind, expected: set<WorkspaceId>, i: nat) returns (k: nat)
    requires i < |IssuesOf(rs, kind, expected)|
    ensures k < |rs| && |IssuesOf(rs[..k], kind, expected)| == i
    ensures IssueOf(rs[k], kind, expected) == Some(IssuesOf(rs, kind, expected)[i])
  {
    var n := |rs| - 1;
    if i < |IssuesOf(rs[..n], kind, expected)| {
      k := IssuesFrom(rs[..n], kind, expected, i);
      assert rs[..n][..k] == rs[..k];
    } else {
      k := n;
    }
    hide IssueOf;
  }

  lemma {:induction false} EntryIssuesAt(es: seq<Entry>, expected: set<WorkspaceId>, k: nat)
    requires k < |es| && EntryIssue(es[k], expected).Some?
    ensures var before, all := |EntryIssues(es[..k], expected)|, EntryIssues(es, expected);
      before < |all| && all[before] == EntryIssue(es[k], expected).value
  {
    var n := |es| - 1;
    if k < n {
      EntryIssuesAt(es[..n], expected, k);
      assert es[..n][..k] == es[..k];
    }
    hide EntryIssue;
  }

  lemma {:induction false} EntryIssuesFrom(es: seq<Entry>, expected: set<WorkspaceId>, i: nat) returns (k: nat)
    requires i < |EntryIssues(es, expected)|
    ensures k < |es| && |EntryIssues(es[..k], expected)| == i
    ensures EntryIssue(es[k], expected) == Some(EntryIssues(es, expected)[i])
  {
    var n := |es| - 1;
    if i < |EntryIssues(es[..n], expected)| {
      k := EntryIssuesFrom(es[..n], expected, i);
      assert es[..n][..k] == es[..k];
    } else {
      k := n;
    }
    hide EntryIssue;
  }

  function AssignedIds(assignments: seq<Assignment>): set<WorkspaceId> {
    set a | a in assignments :: a.workspace
  }

  /** One loop over containers or networks; `None` when the issues exceed the limit. */
  method TakeInventory(rs: seq<Resource>, kind: Kind, expected: set<WorkspaceId>, before: seq<Issue>)
    returns (ids: set<WorkspaceId>, issues: Option<seq<Issue>>)
    requires |before| <= MAX_ISSUES
    ensures issues.Some? <==> |before + IssuesOf(rs, kind, expected)| <= MAX_ISSUES
    ensures issues.Some? ==> issues.value == before + IssuesOf(rs, kind, expected)
    ensures issues.Some? ==> forall w :: w in ids <==> AnyMentions(rs, w)
  {
    ids := {};
    var list := before;
    assert IssuesOf(rs[..0], kind, expected) == [] && forall w :: !AnyMentions(rs[..0], w);
    hide IssuesOf, AnyMentions, IssueOf;
    for i := 0 to |rs|
      invariant list == before + IssuesOf(rs[..i], kind, expected) && |list| <= MAX_ISSUES
      invariant forall w :: w in ids <==> AnyMentions(rs[..i], w)
    {
      PrefixIssues(rs, i, kind, expected);
      MentionsMore(rs, i, ids);
      var r := rs[i];
      ForeignIsNoIssue(r, kind, expected);
      if !r.ours { continue; }
      if r.named.Some? { ids := ids + {r.named.value}; }
      if r.labelled.Some? { ids := ids + {r.labelled.value}; }
      var issue := IssueOf(r, kind, expected);
      if issue.None? { continue; }
      if |list| >= MAX_ISSUES {
        IssuesGrow(rs, i + 1, kind, expected);
        return ids, None;
      }
      list := list + [issue.value];
    }
    assert rs[..|rs|] == rs;
    return ids, Some(list);
  }

  lemma ForeignIsNoIssue(r: Resource, kind: Kind, expected: set<WorkspaceId>)
    ensures !r.ours ==> IssueOf(r, kind, expected).None?
  {
  }

  lemma PrefixIssues(rs: seq<Resource>, i: nat, kind: Kind, expected: set<WorkspaceId>)
    requires i < |rs|
    ensures var issue := IssueOf(rs[i], kind, expected);
      IssuesOf(rs[..i + 1], kind, expected) == IssuesOf(rs[..i], kind, expected) + (if issue.Some? then [issue.value] else [])
  {
    assert rs[..i + 1][..i] == rs[..i];
  }

  lemma MentionsMore(rs: seq<Resource>, i: nat, ids: set<WorkspaceId>)
    requires i < |rs| && forall w :: w in ids <==> AnyMentions(rs[..i], w)
    ensures var r := rs[i];
      var named := if r.ours && r.named.Some? then {r.named.value} else {};
      var labelled := if r.ours && r.labelled.Some? then {r.labelled.value} else {};
      forall w :: w in ids + named + labelled <==> AnyMentions(rs[..i + 1], w)
  {
    assert rs[..i + 1] == rs[..i] + [rs[i]];
    assert forall w :: AnyMentions(rs[..i + 1], w) <==> AnyMentions(rs[..i], w) || Mentions(rs[i], w);
  }

  lemma {:induction false} IssuesGrow(rs: seq<Resource>, i: nat, kind: Kind, expected: set<WorkspaceId>)
    requires i <= |rs|
    ensures |IssuesOf(rs[..i], kind, expected)| <= |IssuesOf(rs, kind, expected)|
  {
    if i < |rs| {
      IssuesGrow(rs[..|rs| - 1], i, kind, expected);
      assert rs[..|rs| - 1][..i] == rs[..i];
    } else {
      assert rs[..i] == rs;
    }
  }

  method TakeEntries(es: seq<Entry>, expected: set<WorkspaceId>, before: seq<Issue>)
    returns (ids: set<WorkspaceId>, issues: Option<seq<Issue>>)
    requires |before| <= MAX_ISSUES
    ensures issues.Some? <==> |before + EntryIssues(es, expected)| <= MAX_ISSUES
    ensures issues.Some? ==> issues.value == before + EntryIssues(es, expected)
    ensures issues.Some? ==> forall w :: w in ids <==> AnyEntry(es, w)
  {
    ids := {};
    var list := before;
    for i := 0 to |es|
      invariant list == before + EntryIssues(es[..i], expected) && |list| <= MAX_ISSUES
      invariant forall w :: w in ids <==> AnyEntry(es[..i], w)
    {
      assert es[..i + 1][..i] == es[..i] && es[..i + 1] == es[..i] + [es[i]];
      var e := es[i];
      if e.workspace.Some? { ids := ids + {e.workspace.value}; }
      var issue := EntryIssue(e, expected);
      if issue.None? { continue; }
      if |list| >= MAX_ISSUES {
        EntryIssuesGrow(es, i + 1, expected);
        return ids, None;
      }
      list := list + [issue.value];
    }
    assert es[..|es|] == es;
    return ids, Some(list);
  }

  lemma {:induction false} EntryIssuesGrow(es: seq<Entry>, i: nat, expected: set<WorkspaceId>)
    requires i <= |es|
    ensures |EntryIssues(es[..i], expected)| <= |EntryIssues(es, expected)|
  {
    if i < |es| {
      EntryIssuesGrow(es[..|es| - 1], i, expected);
      assert es[..|es| - 1][..i] == es[..i];
    } else {
      assert es[..i] == es;
    }
  }

  /** Nothing on the Worker names the Workspace. */
  predicate HasNothing(w: WorkspaceId, containers: seq<Resource>, networks: seq<Resource>, entries: seq<Entry>) {
    !AnyMentions(containers, w) && !AnyMentions(networks, w) && !AnyEntry(entries, w)
  }

  /**
   * One result per assignment, in order: missing exactly when no container, network or directory
   * names it. The report fails only when the inventory cannot be listed or there are too many issues.
   */
  method Reconcile(
    assignments: seq<Assignment>, containers: seq<Resource>, networks: seq<Resource>, entries: seq<Entry>,
    local: map<WorkspaceId, Local>, listed: bool) returns (report: Option<Report>)
    ensures var expected := AssignedIds(assignments);
      var issues := IssuesOf(containers, ContainerKind, expected) + IssuesOf(networks, NetworkKind, expected)
        + EntryIssues(entries, expected);
      && (report.None? <==> !listed || |issues| > MAX_ISSUES)
      && (report.Some? ==> report.value.issues == issues)
    ensures report.Some? ==>
      && |report.value.results| == |assignments|
      && forall i :: 0 <= i < |assignments| ==>
        var a := assignments[i];
        report.value.results[i] ==
          if HasNothing(a.workspace, containers, networks, entries) then Missing(a.workspace) else InspectForRecovery(a, local)
  {
    hide IssuesOf, EntryIssues, InspectForRecovery, AnyMentions, AnyEntry;
    if !listed { return None; }
    var expected := AssignedIds(assignments);
    var containerIds, first := TakeInventory(containers, ContainerKind, expected, []);
    if first.None? { return None; }
    var networkIds, second := TakeInventory(networks, NetworkKind, expected, first.value);
    if second.None? { return None; }
    var directoryIds, third := TakeEntries(entries, expected, second.value);
    if third.None? { return None; }
    var results: seq<Result> := [];
    for i := 0 to |assignments|
      invariant |results| == i
      invariant forall k :: 0 <= k < i ==>
        var a := assignments[k];
        results[k] == if HasNothing(a.workspace, containers, networks, entries) then Missing(a.workspace) else InspectForRecovery(a, local)
    {
      var a := assignments[i];
      if a.workspace !in containerIds && a.workspace !in networkIds && a.workspace !in directoryIds {
        results := results + [Missing(a.workspace)];
        continue;
      }
      results := results + [InspectForRecovery(a, local)];
    }
    return Some(Report(results, third.value));
  }

  // ---------------------------------------------------------------- the Control Plane's writes

  /** A guarded write of the recovery loop, under the image and wish read at its start. */
  datatype Write =
    | Remove(workspace: WorkspaceId, image: ImageRef)
    | Settled(workspace: WorkspaceId, image: ImageRef, desired: Desired, state: State)

  /** The result as far as settling the row goes. */
  function Seen(a: Assignment, result: Result): RuntimeProtocol.Report {
    match result
    case Observed(_, image, state) =>
      if image == a.image then RuntimeProtocol.Seen(state) else RuntimeProtocol.Invalid(false)
    case InvalidResult(_, retryable) => RuntimeProtocol.Invalid(retryable)
    case Missing(_) => RuntimeProtocol.Invalid(false)
  }

  function WriteFor(a: Assignment, result: Result): Option<Write> {
    if result.Missing? && a.desired == WantDeleted then Some(Remove(a.workspace, a.image))
    else
      var state := RuntimeProtocol.RecoveredState(a.desired, Seen(a, result));
      if state.None? then None else Some(Settled(a.workspace, a.image, a.desired, state.value))
  }

  function ResultMap(results: seq<Result>): map<WorkspaceId, Result> {
    if results == [] then map[]
    else
      var n := |results| - 1;
      ResultMap(results[..n])[results[n].workspace := results[n]]
  }

  /** The writes for the first rows, as long as the Worker stays connected. */
  function WritesFor(rows: seq<Assignment>, results: map<WorkspaceId, Result>): seq<Write>
    requires forall a :: a in rows ==> a.workspace in results
  {
    if rows == [] then []
    else
      var n := |rows| - 1;
      var write := WriteFor(rows[n], results[rows[n].workspace]);
      WritesFor(rows[..n], results) + (if write.Some? then [write.value] else [])
  }

  predicate Answers(rows: seq<Assignment>, results: seq<Result>) {
    |ResultMap(results)| == |rows| && forall a :: a in rows ==> a.workspace in ResultMap(results)
  }

  /** What the loop has written when the Worker disconnects after `n` rows. */
  function LoopWrites(rows: seq<Assignment>, results: seq<Result>, n: nat): seq<Write> {
    if Answers(rows, results) then WritesFor(rows[..if n < |rows| then n else |rows|], ResultMap(results)) else []
  }

  method BuildResultMap(results: seq<Result>) returns (m: map<WorkspaceId, Result>)
    ensures m == ResultMap(results)
  {
    m := map[];
    for i := 0 to |results|
      invariant m == ResultMap(results[..i])
    {
      assert results[..i + 1][..i] == results[..i];
      m := m[results[i].workspace := results[i]];
    }
    assert results[..|results|] == results;
  }

  /** `connectedFor` is how many rows are handled before the Worker disconnects. */
  method ReconcileWorkerWorkspaces(rows: seq<Assignment>, results: seq<Result>, connectedFor: nat) returns (writes: seq<Write>)
    ensures writes == LoopWrites(rows, results, connectedFor)
  {
    var m := BuildResultMap(results);
    writes := [];
    if |m| != |rows| || exists a :: a in rows && a.workspace !in m { return; }
    var i := 0;
    while i < |rows|
      invariant 0 <= i <= |rows| && i <= connectedFor
      invariant writes == WritesFor(rows[..i], m)
    {
      if i == connectedFor { return; }
      assert rows[..i + 1][..i] == rows[..i];
      var row, result := rows[i], m[rows[i].workspace];
      i := i + 1;
      if result.Missing? && row.desired == WantDeleted {
        writes := writes + [Remove(row.workspace, row.image)];
        continue;
      }
      if result.InvalidResult? && result.retryable { continue; }
      var state := Error;
      if result.Observed? && result.image == row.image {
        if row.desired == WantRunning && result.state == Running { state := Running; }
        else if row.desired == WantStopped && result.state == Stopped { state := Stopped; }
        else if row.desired == Unknown && (result.state == Running || result.state == Stopped) { state := result.state; }
      }
      writes := writes + [Settled(row.workspace, row.image, row.desired, state)];
    }
  }

  // ---------------------------------------------------------------- what a reconciliation guarantees

  /** The report the Worker gives on these assignments. */
  function Honest(
    assignments: seq<Assignment>, containers: seq<Resource>, networks: seq<Resource>, entries: seq<Entry>,
    local: map<WorkspaceId, Local>): seq<Result>
  {
    seq(|assignments|, i requires 0 <= i < |assignments| =>
      if HasNothing(assignments[i].workspace, containers, networks, entries) then Missing(assignments[i].workspace)
      else InspectForRecovery(assignments[i], local))
  }

  predicate DistinctRows(rows: seq<Assignment>) {
    forall i, j :: 0 <= i < j < |rows| ==> rows[i].workspace != rows[j].workspace
  }

  lemma {:induction false} HonestMap(
    rows: seq<Assignment>, containers: seq<Resource>, networks: seq<Resource>, entries: seq<Entry>,
    local: map<WorkspaceId, Local>, i: nat)
    requires DistinctRows(rows) && i < |rows|
    ensures var m := ResultMap(Honest(rows, containers, networks, entries, local));
      && rows[i].workspace in m && m[rows[i].workspace] == Honest(rows, containers, networks, entries, local)[i]
    ensures |ResultMap(Honest(rows, containers, networks, entries, local))| == |rows|
  {
    hide HasNothing;
    var n := |rows| - 1;
    var results := Honest(rows, containers, networks, entries, local);
    assert results[..n] == Honest(rows[..n], containers, networks, entries, local);
    assert results[n].workspace == rows[n].workspace;
    if n > 0 {
      HonestMap(rows[..n], containers, networks, entries, local, if i < n then i else 0);
      ResultMapKeys(results[..n], rows[n].workspace);
      assert rows[n].workspace !in ResultMap(results[..n]);
    } else {
      assert ResultMap(results[..n]) == map[];
    }
  }

  lemma {:induction false} ResultMapKeys(results: seq<Result>, w: WorkspaceId)
    ensures w in ResultMap(results) <==> exists k :: 0 <= k < |results| && results[k].workspace == w
  {
    if results != [] {
      var n := |results| - 1;
      ResultMapKeys(results[..n], w);
      if w in ResultMap(results[..n]) {
        var k :| 0 <= k < n && results[..n][k].workspace == w;
        assert results[k].workspace == w;
      }
    }
  }

  /** Why a write may be made. */
  ghost predicate Justified(
    write: Write, rows: seq<Assignment>, containers: seq<Resource>, networks: seq<Resource>, entries: seq<Entry>,
    local: map<WorkspaceId, Local>)
  {
    exists a :: a in rows && a.workspace == write.workspace && a.image == write.image &&
      match write
      case Remove(_, _) => a.desired == WantDeleted && HasNothing(a.workspace, containers, networks, entries)
      case Settled(_, _, desired, state) =>
        && desired == a.desired
        && (state == Running || state == Stopped ==>
            && InspectForRecovery(a, local) == Observed(a.workspace, a.image, state)
            && (desired == (if state == Running then WantRunning else WantStopped) || desired == Unknown))
  }

  /**
   * On the Worker's own report RUNNING or STOPPED is written only when the Worker observed that state on the recorded image
   * and the wish agrees or is unknown; a row is removed only when it is to be deleted and nothing
   * on the Worker names it.
   */
  lemma WritesAreJustified(
    rows: seq<Assignment>, containers: seq<Resource>, networks: seq<Resource>, entries: seq<Entry>,
    local: map<WorkspaceId, Local>, n: nat, write: Write)
    requires DistinctRows(rows)
    requires write in LoopWrites(rows, Honest(rows, containers, networks, entries, local), n)
    ensures Justified(write, rows, containers, networks, entries, local)
  {
    HonestAnswers(rows, containers, networks, entries, local);
    PrefixIsJustified(rows, containers, networks, entries, local, if n < |rows| then n else |rows|, write);
  }

  lemma {:induction false} PrefixIsJustified(
    rows: seq<Assignment>, containers: seq<Resource>, networks: seq<Resource>, entries: seq<Entry>,
    local: map<WorkspaceId, Local>, n: nat, write: Write)
    requires DistinctRows(rows) && n <= |rows|
    requires Answers(rows, Honest(rows, containers, networks, entries, local))
    requires write in WritesFor(rows[..n], ResultMap(Honest(rows, containers, networks, entries, local)))
    ensures Justified(write, rows, containers, networks, entries, local)
  {
    hide InspectForRecovery, HasNothing, Justified, ResultMap;
    var m := ResultMap(Honest(rows, containers, networks, entries, local));
    assert rows[..n][..n - 1] == rows[..n - 1];
    if write in WritesFor(rows[..n - 1], m) {
      PrefixIsJustified(rows, containers, networks, entries, local, n - 1, write);
    } else {
      var a := rows[n - 1];
      HonestMap(rows, containers, networks, entries, local, n - 1);
      assert WriteFor(a, m[a.workspace]) == Some(write);
      WriteIsJustified(rows, containers, networks, entries, local, n - 1, write);
    }
  }

  lemma WriteIsJustified(
    rows: seq<Assignment>, containers: seq<Resource>, networks: seq<Resource>, entries: seq<Entry>,
    local: map<WorkspaceId, Local>, i: nat, write: Write)
    requires i < |rows| && WriteFor(rows[i], Honest(rows, containers, networks, entries, local)[i]) == Some(write)
    ensures Justified(write, rows, containers, networks, entries, local)
  {
    hide HasNothing;
    assert rows[i] in rows;
  }

  /** The Worker's own report answers every assignment, so the writes are not held back. */
  lemma HonestAnswers(
    rows: seq<Assignment>, containers: seq<Resource>, networks: seq<Resource>, entries: seq<Entry>, local: map<WorkspaceId, Local>)
    requires DistinctRows(rows)
    ensures Answers(rows, Honest(rows, containers, networks, entries, local))
  {
    if rows == [] {
    } else {
      HonestMap(rows, containers, networks, entries, local, 0);
      forall a | a in rows ensures a.workspace in ResultMap(Honest(rows, containers, networks, entries, local)) {
        var i :| 0 <= i < |rows| && rows[i] == a;
        HonestMap(rows, containers, networks, entries, local, i);
      }
    }
  }

  /** Conversely, every row is settled or removed unless its result may be retried. */
  lemma {:induction false} EveryRowIsAnswered(
    rows: seq<Assignment>, results: map<WorkspaceId, Result>, n: nat, i: nat)
    requires DistinctRows(rows) && i < n <= |rows| && forall a :: a in rows ==> a.workspace in results
    ensures (exists write :: write in WritesFor(rows[..n], results) && write.workspace == rows[i].workspace)
      <==> !(results[rows[i].workspace].InvalidResult? && results[rows[i].workspace].retryable)
  {
    assert rows[..n][..n - 1] == rows[..n - 1];
    var last := WriteFor(rows[n - 1], results[rows[n - 1].workspace]);
    if i < n - 1 {
      EveryRowIsAnswered(rows, results, n - 1, i);
      assert last.Some? ==> last.value.workspace != rows[i].workspace;
      assert forall write :: write in WritesFor(rows[..n - 1], results) ==> write in WritesFor(rows[..n], results);
    } else {
      NoEarlierWrite(rows, results, n - 1, rows[i].workspace);
      assert last.Some? ==> last.value in WritesFor(rows[..n], results);
    }
  }

  lemma {:induction false} NoEarlierWrite(rows: seq<Assignment>, results: map<WorkspaceId, Result>, n: nat, w: WorkspaceId)
    requires n <= |rows| && forall a :: a in rows ==> a.workspace in results
    requires forall k :: 0 <= k < n ==> rows[k].workspace != w
    ensures forall write :: write in WritesFor(rows[..n], results) ==> write.workspace != w
  {
    if n > 0 {
      assert rows[..n][..n - 1] == rows[..n - 1];
      NoEarlierWrite(rows, results, n - 1, w);
    }
  }

  // ---------------------------------------------------------------- exactly what is written for a row

  /** Everything about the container is in order, and it runs and becomes ready. */
  predicate FoundRunning(l: Local, a: Assignment) {
    l.image == a.image && l.fault.None? && l.stable && l.running && l.enforced && !l.exits && l.becomesReady
  }

  /** Everything about the container is in order, and it does not run. */
  predicate FoundStopped(l: Local, a: Assignment) {
    l.image == a.image && l.fault.None? && l.stable && !l.running
  }

  /** The image is right, but the rest cannot be told yet: a fault that may pass, or a container on its way. */
  predicate CannotTell(l: Local, a: Assignment) {
    && l.image == a.image
    && (|| l.fault == Some(true)
        || (l.fault.None? && (l.enforced || !l.running) && (!l.stable || (l.running && !l.exits && !l.becomesReady))))
  }

  /** The wish is for this, or is not known. */
  predicate Wished(a: Assignment, desired: Desired) {
    a.desired == desired || a.desired == Unknown
  }

  /** A container or network of the platform carries the Workspace's ID in its name or its labels. */
  ghost predicate IsNamedBy(rs: seq<Resource>, w: WorkspaceId) {
    exists r :: r in rs && r.ours && (r.named == Some(w) || r.labelled == Some(w))
  }

  /** The Worker has a directory for it. */
  ghost predicate HasEntry(entries: seq<Entry>, w: WorkspaceId) {
    exists e :: e in entries && e.workspace == Some(w)
  }

  lemma HasNothingIff(w: WorkspaceId, containers: seq<Resource>, networks: seq<Resource>, entries: seq<Entry>)
    ensures HasNothing(w, containers, networks, entries) <==>
      !IsNamedBy(containers, w) && !IsNamedBy(networks, w) && !HasEntry(entries, w)
  {
    forall r: Resource ensures Mentions(r, w) <==> r.ours && (r.named == Some(w) || r.labelled == Some(w)) {}
  }

  lemma {:induction false} WritesOfRow(
    rows: seq<Assignment>, results: map<WorkspaceId, Result>, n: nat, i: nat, write: Write)
    requires DistinctRows(rows) && i < n <= |rows| && forall a :: a in rows ==> a.workspace in results
    requires write.workspace == rows[i].workspace
    ensures write in WritesFor(rows[..n], results) <==> WriteFor(rows[i], results[rows[i].workspace]) == Some(write)
  {
    assert rows[..n][..n - 1] == rows[..n - 1];
    var last := WriteFor(rows[n - 1], results[rows[n - 1].workspace]);
    assert last.Some? ==> last.value.workspace == rows[n - 1].workspace;
    if i < n - 1 {
      WritesOfRow(rows, results, n - 1, i, write);
    } else {
      NoEarlierWrite(rows, results, n - 1, rows[i].workspace);
    }
    hide WriteFor;
  }

  lemma RowWrite(a: Assignment, local: map<WorkspaceId, Local>, none: bool, write: Write)
    requires write.workspace == a.workspace
    ensures var result := if none then Missing(a.workspace) else InspectForRecovery(a, local);
      var known := !none && a.workspace in local;
      var running := known && FoundRunning(local[a.workspace], a) && Wished(a, WantRunning);
      var stopped := known && FoundStopped(local[a.workspace], a) && Wished(a, WantStopped);
      var later := known && CannotTell(local[a.workspace], a);
      WriteFor(a, result) == Some(write) <==>
        || (write == Remove(a.workspace, a.image) && none && a.desired == WantDeleted)
        || (write == Settled(a.workspace, a.image, a.desired, Running) && running)
        || (write == Settled(a.workspace, a.image, a.desired, Stopped) && stopped)
        || (write == Settled(a.workspace, a.image, a.desired, Error)
            && !running && !stopped && !later && !(none && a.desired == WantDeleted))
  {
  }

  /**
   * On the Worker's own report exactly this is written for a row the loop gets to: it is removed
   * when it is to be deleted and nothing names it; settled as running or stopped when the container
   * was found so and the wish agrees or is unknown; left alone when the Worker cannot tell yet; and
   * settled as an error otherwise.
   */
  lemma WrittenIff(
    rows: seq<Assignment>, containers: seq<Resource>, networks: seq<Resource>, entries: seq<Entry>,
    local: map<WorkspaceId, Local>, n: nat, i: nat, write: Write)
    requires DistinctRows(rows) && i < |rows| && i < n && write.workspace == rows[i].workspace
    ensures var a := rows[i];
      var none := !IsNamedBy(containers, a.workspace) && !IsNamedBy(networks, a.workspace) && !HasEntry(entries, a.workspace);
      var known := !none && a.workspace in local;
      var running := known && FoundRunning(local[a.workspace], a) && Wished(a, WantRunning);
      var stopped := known && FoundStopped(local[a.workspace], a) && Wished(a, WantStopped);
      var later := known && CannotTell(local[a.workspace], a);
      write in LoopWrites(rows, Honest(rows, containers, networks, entries, local), n) <==>
        || (write == Remove(a.workspace, a.image) && none && a.desired == WantDeleted)
        || (write == Settled(a.workspace, a.image, a.desired, Running) && running)
        || (write == Settled(a.workspace, a.image, a.desired, Stopped) && stopped)
        || (write == Settled(a.workspace, a.image, a.desired, Error)
            && !running && !stopped && !later && !(none && a.desired == WantDeleted))
  {
    hide HasNothing, InspectForRecovery, WriteFor, ResultMap, WritesFor, IsNamedBy, HasEntry;
    HasNothingIff(rows[i].workspace, containers, networks, entries);
    var results := Honest(rows, containers, networks, entries, local);
    HonestAnswers(rows, containers, networks, entries, local);
    HonestMap(rows, containers, networks, entries, local, i);
    WritesOfRow(rows, ResultMap(results), if n < |rows| then n else |rows|, i, write);
    RowWrite(rows[i], local, HasNothing(rows[i].workspace, containers, networks, entries), write);
  }
}
