/** Placing a Workspace on the least loaded Worker that may run it, within the Workers' capacities. */
module Scheduler {
  import opened Wrappers

  type WorkspaceId = nat
  type Capability = nat
  type Time = int

  datatype RuntimeImage = RuntimeImage(image: nat, capabilities: map<Capability, bool>)

  /** What the database knows of a Worker, with the number of Workspaces assigned to it. */
  datatype Candidate = Candidate(
    id: string, architecture: Option<nat>, online: bool, enabled: bool, schedulable: bool,
    runtimeImages: seq<RuntimeImage>, maxWorkspaces: Option<nat>, assignedWorkspaces: nat,
    lastHeartbeatAt: Option<Time>, egressEnforced: bool, egressRevision: Option<nat>, storageEnforced: bool)

  datatype Wanted = Wanted(runtimeImage: nat, requiredArchitecture: Option<nat>, requiredCapabilities: map<Capability, bool>)

  datatype Input = Input(wanted: Wanted, connected: set<string>, heartbeatCutoff: Time, egressRevision: nat)

  function FindImage(images: seq<RuntimeImage>, image: nat): Option<RuntimeImage> {
    if images == [] then None else if images[0].image == image then Some(images[0]) else FindImage(images[1..], image)
  }

  predicate IsCompatible(c: Candidate, input: Input) {
    var image := FindImage(c.runtimeImages, input.wanted.runtimeImage);
    && image.Some?
    && c.id in input.connected
    && c.enabled && c.schedulable && c.online
    && c.lastHeartbeatAt.Some? && c.lastHeartbeatAt.value > input.heartbeatCutoff
    && c.maxWorkspaces.Some? && c.assignedWorkspaces < c.maxWorkspaces.value
    && c.egressEnforced && c.egressRevision == Some(input.egressRevision)
    && c.storageEnforced
    && (input.wanted.requiredArchitecture.Some? ==> c.architecture == input.wanted.requiredArchitecture)
    && forall capability :: capability in input.wanted.requiredCapabilities ==>
        && capability in image.value.capabilities
        && image.value.capabilities[capability] == input.wanted.requiredCapabilities[capability]
  }

  // ---------------------------------------------------------------- the order

  /** Strings compare by their first difference, and a prefix comes first. */
  predicate Precedes(a: string, b: string) {
    b != [] && (a == [] || a[0] < b[0] || (a[0] == b[0] && Precedes(a[1..], b[1..])))
  }

  /** Negative when the left one comes first; loads are compared by cross-multiplying. */
  function CompareLoad(left: Candidate, right: Candidate): int
    requires left.maxWorkspaces.Some? && right.maxWorkspaces.Some?
  {
    var leftScaled := left.assignedWorkspaces * right.maxWorkspaces.value;
    var rightScaled := right.assignedWorkspaces * left.maxWorkspaces.value;
    if leftScaled != rightScaled then leftScaled - rightScaled
    else if Precedes(left.id, right.id) then -1
    else if Precedes(right.id, left.id) then 1
    else 0
  }

  /** Eligible Workers declare a capacity and have room. */
  predicate HasRoom(c: Candidate) {
    c.maxWorkspaces.Some? && c.assignedWorkspaces < c.maxWorkspaces.value
  }

  lemma {:induction false} PrecedesIsTotal(a: string, b: string)
    ensures Precedes(a, b) || Precedes(b, a) || a == b
    ensures !(Precedes(a, b) && Precedes(b, a))
    ensures !Precedes(a, a)
  {
    if a != [] && b != [] {
      PrecedesIsTotal(a[1..], b[1..]);
      assert a == [a[0]] + a[1..] && b == [b[0]] + b[1..];
    }
    if a != [] { PrecedesIsTotal(a[1..], a[1..]); }
  }

  /** A proper prefix, or smaller at the first difference. */
  ghost predicate ComesFirst(a: string, b: string) {
    exists k :: 0 <= k <= |a| && k < |b| && a[..k] == b[..k] && (k == |a| || a[k] < b[k])
  }

  lemma SameHead(a: string, b: string, k: nat)
    requires 0 < k <= |a| && k <= |b| && a[..k] == b[..k]
    ensures a[0] == b[0]
  {
    assert a[..k][0] == a[0] && b[..k][0] == b[0];
  }

  lemma {:induction false} PrecedesIff(a: string, b: string)
    ensures Precedes(a, b) <==> ComesFirst(a, b)
  {
    if a != [] && b != [] && a[0] == b[0] {
      PrecedesIff(a[1..], b[1..]);
      if ComesFirst(a[1..], b[1..]) {
        var k :| 0 <= k <= |a| - 1 && k < |b| - 1 && a[1..][..k] == b[1..][..k] && (k == |a| - 1 || a[1..][k] < b[1..][k]);
        assert a[..k + 1] == [a[0]] + a[1..][..k] && b[..k + 1] == [b[0]] + b[1..][..k];
      }
      if ComesFirst(a, b) {
        var k :| 0 <= k <= |a| && k < |b| && a[..k] == b[..k] && (k == |a| || a[k] < b[k]);
        assert k > 0;
        assert a[1..][..k - 1] == a[..k][1..] && b[1..][..k - 1] == b[..k][1..];
      }
    } else if b != [] {
      assert a[..0] == b[..0];
      if ComesFirst(a, b) && a != [] {
        var k :| 0 <= k <= |a| && k < |b| && a[..k] == b[..k] && (k == |a| || a[k] < b[k]);
        if k > 0 { SameHead(a, b, k); }
      }
    }
  }

  lemma {:induction false} PrecedesIsTransitive(a: string, b: string, c: string)
    requires Precedes(a, b) && Precedes(b, c)
    ensures Precedes(a, c)
  {
    if a != [] && a[0] == b[0] && b[0] == c[0] { PrecedesIsTransitive(a[1..], b[1..], c[1..]); }
  }

  /** Ratios compared by cross-multiplying are transitive over positive denominators. */
  lemma CrossTransitive(a: nat, x: nat, b: nat, y: nat, c: nat, z: nat)
    requires x > 0 && y > 0 && z > 0
    requires a * y <= b * x && b * z <= c * y
    ensures a * z <= c * x
    ensures a * y < b * x || b * z < c * y ==> a * z < c * x
  {
    var left, middle, right := a * y * z, b * x * z, c * y * x;
    MulMono(a * y, b * x, z);
    MulMono(b * z, c * y, x);
    assert middle == b * z * x;
    assert left == (a * z) * y && right == (c * x) * y;
    if a * z >= c * x + 1 { MulMono(c * x + 1, a * z, y); }
    if a * z >= c * x { MulMono(c * x, a * z, y); }
  }

  lemma MulMono(a: int, b: int, k: nat)
    requires a <= b
    ensures a * k <= b * k
    ensures a < b && k > 0 ==> a * k < b * k
  {
  }

  /** The comparator puts the first candidate before the second. */
  predicate Before(a: Candidate, b: Candidate) {
    HasRoom(a) && HasRoom(b) && CompareLoad(a, b) < 0
  }

  /** On candidates with room the comparator is consistent, and a tie means the same ID. */
  lemma BeforeIsTotal(a: Candidate, b: Candidate)
    requires HasRoom(a) && HasRoom(b)
    ensures Before(a, b) <==> CompareLoad(b, a) > 0
    ensures CompareLoad(a, b) == 0 ==> a.id == b.id
    ensures a.id != b.id ==> Before(a, b) || Before(b, a)
    ensures !(Before(a, b) && Before(b, a))
  {
    PrecedesIsTotal(a.id, b.id);
  }

  lemma BeforeIsTransitive(a: Candidate, b: Candidate, c: Candidate)
    requires Before(a, b) && Before(b, c)
    ensures Before(a, c)
  {
    CrossTransitive(a.assignedWorkspaces, a.maxWorkspaces.value, b.assignedWorkspaces, b.maxWorkspaces.value,
                    c.assignedWorkspaces, c.maxWorkspaces.value);
    if Precedes(a.id, b.id) && Precedes(b.id, c.id) { PrecedesIsTransitive(a.id, b.id, c.id); }
  }

  // ---------------------------------------------------------------- selection

  function Eligible(candidates: seq<Candidate>, input: Input): seq<Candidate> {
    if candidates == [] then []
    else if IsCompatible(candidates[0], input) then [candidates[0]] + Eligible(candidates[1..], input)
    else Eligible(candidates[1..], input)
  }

  /** Worker IDs are a primary key. */
  predicate DistinctIds(candidates: seq<Candidate>) {
    forall i, j :: 0 <= i < j < |candidates| ==> candidates[i].id != candidates[j].id
  }

  /** The candidate that sorting puts first, found without sorting. */
  function First(eligible: seq<Candidate>): (c: Candidate)
    requires eligible != []
    ensures c in eligible
  {
    if |eligible| == 1 then eligible[0]
    else
      var rest := First(eligible[1..]);
      if Before(eligible[0], rest) then eligible[0] else rest
  }

  function SelectWorker(candidates: seq<Candidate>, input: Input): Option<Candidate> {
    var eligible := Eligible(candidates, input);
    if eligible == [] then None else Some(First(eligible))
  }

  lemma {:induction false} EligibleIff(candidates: seq<Candidate>, input: Input, c: Candidate)
    ensures c in Eligible(candidates, input) <==> c in candidates && IsCompatible(c, input)
  {
    if candidates != [] {
      EligibleIff(candidates[1..], input, c);
      assert candidates == [candidates[0]] + candidates[1..];
    }
  }

  /** Candidates with room, and equal ones wherever the IDs are equal. */
  ghost predicate Comparable(cs: seq<Candidate>) {
    && (forall c :: c in cs ==> HasRoom(c))
    && (forall c, d :: c in cs && d in cs && c.id == d.id ==> c == d)
  }

  lemma {:induction false} FirstIsBefore(cs: seq<Candidate>, d: Candidate)
    requires cs != [] && Comparable(cs) && d in cs && d != First(cs)
    ensures Before(First(cs), d)
  {
    if |cs| > 1 {
      var head, tail := cs[0], cs[1..];
      assert forall c :: c in tail ==> c in cs;
      var rest := First(tail);
      BeforeIsTotal(head, rest);
      assert d == head || d in tail;
      if d in tail && d != rest {
        FirstIsBefore(tail, d);
        if Before(head, rest) { BeforeIsTransitive(head, rest, d); }
      }
    }
  }

  lemma EligibleComparable(candidates: seq<Candidate>, input: Input)
    requires DistinctIds(candidates)
    ensures Comparable(Eligible(candidates, input))
  {
    var eligible := Eligible(candidates, input);
    forall c | c in eligible ensures HasRoom(c) && c in candidates { EligibleIff(candidates, input, c); }
  }

  /** Less of its capacity is taken, or as much and its ID comes first; loads as ratios, without dividing. */
  ghost predicate LessLoaded(a: Candidate, b: Candidate)
    requires a.maxWorkspaces.Some? && b.maxWorkspaces.Some?
  {
    var left, right := a.assignedWorkspaces * b.maxWorkspaces.value, b.assignedWorkspaces * a.maxWorkspaces.value;
    left < right || (left == right && ComesFirst(a.id, b.id))
  }

  lemma BeforeIffLessLoaded(a: Candidate, b: Candidate)
    requires HasRoom(a) && HasRoom(b)
    ensures Before(a, b) <==> LessLoaded(a, b)
  {
    PrecedesIff(a.id, b.id);
  }

  /**
   * The selected Worker is eligible, and its load is the least: no other eligible one has a smaller
   * ratio of assigned to possible Workspaces, and among equals its ID is the first.
   */
  lemma SelectedIsLeastLoaded(candidates: seq<Candidate>, input: Input)
    requires DistinctIds(candidates)
    ensures var selected := SelectWorker(candidates, input);
      && (selected.None? <==> forall c :: c in candidates ==> !IsCompatible(c, input))
      && (selected.Some? ==>
          && selected.value in candidates && IsCompatible(selected.value, input)
          && forall d :: d in candidates && IsCompatible(d, input) && d != selected.value ==>
              Before(selected.value, d) && LessLoaded(selected.value, d))
  {
    var eligible := Eligible(candidates, input);
    forall c ensures c in eligible <==> c in candidates && IsCompatible(c, input) { EligibleIff(candidates, input, c); }
    EligibleComparable(candidates, input);
    if eligible != [] {
      forall d | d in eligible && d != First(eligible) ensures Before(First(eligible), d) && LessLoaded(First(eligible), d) {
        FirstIsBefore(eligible, d);
        BeforeIffLessLoaded(First(eligible), d);
      }
    } else {
      forall c | c in candidates ensures !IsCompatible(c, input) { assert c !in eligible; }
    }
  }

  /** Sorting the eligible candidates by the comparator, however it is done, puts the selected one first. */
  lemma SortingPutsSelectedFirst(candidates: seq<Candidate>, input: Input, sorted: seq<Candidate>)
    requires DistinctIds(candidates) && sorted != []
    requires forall c :: c in sorted <==> c in Eligible(candidates, input)
    requires forall i, j :: 0 <= i < j < |sorted| ==> Before(sorted[i], sorted[j])
    ensures SelectWorker(candidates, input) == Some(sorted[0])
  {
    EligibleComparable(candidates, input);
    var eligible := Eligible(candidates, input);
    assert sorted[0] in eligible;
    var first := First(eligible);
    if first != sorted[0] {
      FirstIsBefore(eligible, sorted[0]);
      var j :| 0 <= j < |sorted| && sorted[j] == first;
      BeforeIsTotal(first, sorted[0]);
    }
  }

  /** The selection does not depend on the order of the candidates. */
  lemma SelectionIgnoresOrder(candidates: seq<Candidate>, permuted: seq<Candidate>, input: Input)
    requires DistinctIds(candidates) && DistinctIds(permuted) && multiset(candidates) == multiset(permuted)
    ensures SelectWorker(candidates, input) == SelectWorker(permuted, input)
  {
    forall c ensures c in candidates <==> c in permuted {
      assert c in candidates <==> c in multiset(candidates);
      assert c in permuted <==> c in multiset(permuted);
    }
    SelectedIsLeastLoaded(candidates, input);
    SelectedIsLeastLoaded(permuted, input);
    var a, b := SelectWorker(candidates, input), SelectWorker(permuted, input);
    if a.Some? && b.Some? && a != b {
      assert Before(a.value, b.value) && Before(b.value, a.value);
      BeforeIsTotal(a.value, b.value);
    }
  }

  // ---------------------------------------------------------------- placement

  /** The Workspace rows, as far as placement goes: the assigned Worker, if any. */
  type Assignments = map<WorkspaceId, Option<string>>

  function AssignedTo(t: Assignments, worker: string): set<WorkspaceId> {
    set w | w in t && t[w] == Some(worker)
  }

  /** The candidate query: every Worker with the number of Workspaces assigned to it. */
  function WithCounts(workers: seq<Candidate>, t: Assignments): seq<Candidate> {
    seq(|workers|, i requires 0 <= i < |workers| => workers[i].(assignedWorkspaces := |AssignedTo(t, workers[i].id)|))
  }

  datatype Outcome = WorkspaceChanged | NoEligibleWorker | Starting(worker: string, sticky: bool)

  /** The placement transaction; `startable` by the row's state. */
  function Placed(t: Assignments, w: WorkspaceId, startable: bool, workers: seq<Candidate>, input: Input): (Assignments, Outcome) {
    if w !in t || !startable then (t, WorkspaceChanged)
    else if t[w].Some? then (t, Starting(t[w].value, true))
    else
      var selected := SelectWorker(WithCounts(workers, t), input);
      if selected.None? then (t, NoEligibleWorker)
      else (t[w := Some(selected.value.id)], Starting(selected.value.id, false))
  }

  /** `capacity` is what each Worker last declared. */
  datatype Sys = Sys(assignments: Assignments, capacity: map<string, nat>)

  datatype Step =
    | Insert(workspace: WorkspaceId)
    | Delete(workspace: WorkspaceId)
    | Start(workspace: WorkspaceId, startable: bool, workers: seq<Candidate>, input: Input)
    | Declare(worker: string, max: nat)

  /** The transaction reads the Workers as they last declared themselves. */
  predicate Enabled(s: Sys, step: Step) {
    match step
    case Insert(w) => w !in s.assignments
    case Delete(_) => true
    case Start(_, _, workers, _) =>
      && DistinctIds(workers)
      && forall c :: c in workers && c.maxWorkspaces.Some? ==>
          c.id in s.capacity && s.capacity[c.id] == c.maxWorkspaces.value
    case Declare(_, _) => true
  }

  function Apply(s: Sys, step: Step): Sys
    requires Enabled(s, step)
  {
    match step
    case Insert(w) => s.(assignments := s.assignments[w := None])
    case Delete(w) => s.(assignments := s.assignments - {w})
    case Start(w, startable, workers, input) => s.(assignments := Placed(s.assignments, w, startable, workers, input).0)
    case Declare(worker, max) => s.(capacity := s.capacity[worker := max])
  }

  ghost predicate IsRun(states: seq<Sys>, steps: seq<Step>) {
    && |states| == |steps| + 1
    && states[0] == Sys(map[], map[])
    && forall k :: 0 <= k < |steps| ==> Enabled(states[k], steps[k]) && states[k + 1] == Apply(states[k], steps[k])
  }

  predicate WithinCapacity(s: Sys, worker: string) {
    |AssignedTo(s.assignments, worker)| <= if worker in s.capacity then s.capacity[worker] else 0
  }

  predicate StaysWithin(t: Assignments, c: Candidate) {
    c.maxWorkspaces.Some? && |AssignedTo(t, c.id)| <= c.maxWorkspaces.value
  }

  /**
   * A placement raises the count of the chosen Worker by one and no other, up to its maximum at
   * most; a start of an assigned Workspace changes no assignment.
   */
  lemma PlacementHasRoom(t: Assignments, w: WorkspaceId, startable: bool, workers: seq<Candidate>, input: Input)
    requires DistinctIds(workers)
    ensures var (after, outcome) := Placed(t, w, startable, workers, input);
      if outcome.Starting? && !outcome.sticky then
        && AssignedTo(after, outcome.worker) == AssignedTo(t, outcome.worker) + {w} && w !in AssignedTo(t, outcome.worker)
        && (exists c :: c in workers && c.id == outcome.worker && StaysWithin(after, c))
        && forall other :: other != outcome.worker ==> AssignedTo(after, other) == AssignedTo(t, other)
      else after == t
  {
    var (after, outcome) := Placed(t, w, startable, workers, input);
    if outcome.Starting? && !outcome.sticky {
      var candidates := WithCounts(workers, t);
      var c := SelectWorker(candidates, input).value;
      EligibleIff(candidates, input, c);
      var i :| 0 <= i < |candidates| && candidates[i] == c;
      assert workers[i] in workers;
      forall other | other != outcome.worker ensures AssignedTo(after, other) == AssignedTo(t, other) {}
    }
  }

  /** Of the images the Worker reports, the first entry for the wanted one has the required capabilities. */
  ghost predicate Offers(c: Candidate, wanted: Wanted) {
    exists i :: 0 <= i < |c.runtimeImages| && IsFirst(c.runtimeImages, i, wanted.runtimeImage)
      && HasCapabilities(c.runtimeImages[i], wanted)
  }

  predicate IsFirst(images: seq<RuntimeImage>, i: nat, image: nat)
    requires i < |images|
  {
    images[i].image == image && forall j :: 0 <= j < i ==> images[j].image != image
  }

  predicate HasCapabilities(image: RuntimeImage, wanted: Wanted) {
    forall capability :: capability in wanted.requiredCapabilities ==>
      capability in image.capabilities && image.capabilities[capability] == wanted.requiredCapabilities[capability]
  }

  /** The Worker may run the Workspace: reachable, heard of lately, willing, enforcing the current policy, with the right image. */
  ghost predicate MayRun(c: Candidate, input: Input) {
    && c.id in input.connected && c.enabled && c.schedulable && c.online
    && c.lastHeartbeatAt.Some? && c.lastHeartbeatAt.value > input.heartbeatCutoff
    && c.egressEnforced && c.egressRevision == Some(input.egressRevision) && c.storageEnforced
    && (input.wanted.requiredArchitecture.None? || c.architecture == input.wanted.requiredArchitecture)
    && Offers(c, input.wanted)
  }

  /** Room for one more besides the given number. */
  predicate Takes(c: Candidate, assignedCount: nat) {
    c.maxWorkspaces.Some? && assignedCount + 1 <= c.maxWorkspaces.value
  }

  lemma {:induction false} FoundImage(images: seq<RuntimeImage>, image: nat, i: nat)
    requires i <= |images|
    ensures i < |images| && IsFirst(images, i, image) ==> FindImage(images, image) == Some(images[i])
    ensures FindImage(images, image).Some? <==> exists k :: 0 <= k < |images| && IsFirst(images, k, image)
  {
    if images != [] {
      if images[0].image == image {
        assert IsFirst(images, 0, image);
      } else {
        FoundImage(images[1..], image, if i > 0 then i - 1 else 0);
        if k :| 0 <= k < |images| - 1 && IsFirst(images[1..], k, image) { assert IsFirst(images, k + 1, image); }
        if k :| 0 <= k < |images| && IsFirst(images, k, image) { ShiftsFirst(images, k, image); }
        if 0 < i < |images| && IsFirst(images, i, image) { ShiftsFirst(images, i, image); }
      }
    }
  }

  lemma ShiftsFirst(images: seq<RuntimeImage>, k: nat, image: nat)
    requires 0 < k < |images| && IsFirst(images, k, image)
    ensures IsFirst(images[1..], k - 1, image)
  {
    forall j | 0 <= j < k - 1 ensures images[1..][j].image != image { assert images[j + 1].image != image; }
  }

  /** Eligibility, on what is known of the Worker. */
  lemma CompatibleIff(c: Candidate, input: Input)
    ensures IsCompatible(c, input) <==> MayRun(c, input) && Takes(c, c.assignedWorkspaces)
  {
    var images, image := c.runtimeImages, input.wanted.runtimeImage;
    FoundImage(images, image, 0);
    if k :| 0 <= k < |images| && IsFirst(images, k, image) {
      FoundImage(images, image, k);
      forall i | 0 <= i < |images| && IsFirst(images, i, image) ensures i == k {}
      assert Offers(c, input.wanted) <==> HasCapabilities(images[k], input.wanted);
    }
    hide FindImage;
  }

  /** The Worker may run the Workspace and has room, with the Workspaces it has in the table. */
  ghost predicate CanTake(t: Assignments, c: Candidate, input: Input) {
    MayRun(c, input) && Takes(c, |AssignedTo(t, c.id)|)
  }

  /** By the Workspaces in the table. */
  ghost predicate LessLoadedIn(t: Assignments, a: Candidate, b: Candidate)
    requires a.maxWorkspaces.Some? && b.maxWorkspaces.Some?
  {
    var left, right := |AssignedTo(t, a.id)| * b.maxWorkspaces.value, |AssignedTo(t, b.id)| * a.maxWorkspaces.value;
    left < right || (left == right && ComesFirst(a.id, b.id))
  }

  lemma CountedIff(t: Assignments, workers: seq<Candidate>, input: Input, i: nat)
    requires i < |workers|
    ensures IsCompatible(WithCounts(workers, t)[i], input) <==> CanTake(t, workers[i], input)
  {
    CompatibleIff(WithCounts(workers, t)[i], input);
    assert Offers(WithCounts(workers, t)[i], input.wanted) <==> Offers(workers[i], input.wanted);
    hide IsCompatible, Offers;
  }

  /** Some Worker takes the Workspace, and no other that could is less loaded. */
  ghost predicate BestTaker(t: Assignments, workers: seq<Candidate>, input: Input, c: Candidate) {
    && c in workers && CanTake(t, c, input)
    && forall d :: d in workers && d != c && CanTake(t, d, input) ==> LessLoadedIn(t, c, d)
  }

  lemma SelectedIsBest(t: Assignments, workers: seq<Candidate>, input: Input)
    requires DistinctIds(workers)
    ensures var selected := SelectWorker(WithCounts(workers, t), input);
      && (selected.None? <==> forall c :: c in workers ==> !CanTake(t, c, input))
      && (selected.Some? ==> exists c :: BestTaker(t, workers, input, c) && c.id == selected.value.id)
  {
    var candidates := WithCounts(workers, t);
    var selected := SelectWorker(candidates, input);
    assert DistinctIds(candidates);
    SelectedIsLeastLoaded(candidates, input);
    forall i | 0 <= i < |workers| ensures IsCompatible(candidates[i], input) <==> CanTake(t, workers[i], input) {
      CountedIff(t, workers, input, i);
    }
    hide CanTake, IsCompatible, SelectWorker, Before, DistinctIds;
    if selected.Some? {
      var i :| 0 <= i < |candidates| && candidates[i] == selected.value;
      forall d | d in workers && d != workers[i] && CanTake(t, d, input) ensures LessLoadedIn(t, workers[i], d) {
        var j :| 0 <= j < |workers| && workers[j] == d;
        assert candidates[j] in candidates && candidates[j] != candidates[i] by { DistinctAt(candidates, i, j); }
      }
      assert workers[i] in workers;
      assert BestTaker(t, workers, input, workers[i]);
    } else {
      forall c | c in workers ensures !CanTake(t, c, input) {
        var i :| 0 <= i < |workers| && workers[i] == c;
        assert candidates[i] in candidates;
      }
    }
  }

  lemma DistinctAt(candidates: seq<Candidate>, i: nat, j: nat)
    requires DistinctIds(candidates) && i < |candidates| && j < |candidates| && i != j
    ensures candidates[i] != candidates[j]
  {
  }

  /**
   * What a start decides: nothing for a Workspace that is gone or cannot start; its own Worker when
   * it has one; otherwise the least loaded Worker that may run it and has room, if there is any.
   */
  lemma StartedOnlyWhereItMayRun(t: Assignments, w: WorkspaceId, startable: bool, workers: seq<Candidate>, input: Input)
    requires DistinctIds(workers)
    ensures var (after, outcome) := Placed(t, w, startable, workers, input);
      && (outcome == WorkspaceChanged <==> w !in t || !startable)
      && (outcome == NoEligibleWorker <==>
          w in t && startable && t[w].None? && forall c :: c in workers ==> !CanTake(t, c, input))
      && (outcome.Starting? ==> w in t && startable && after == t[w := Some(outcome.worker)])
      && (outcome.Starting? && outcome.sticky ==> t[w] == Some(outcome.worker))
      && (outcome.Starting? && !outcome.sticky ==>
          t[w].None? && exists c :: BestTaker(t, workers, input, c) && c.id == outcome.worker)
      && (!outcome.Starting? ==> after == t)
  {
    if w in t && startable && t[w].None? {
      SelectedIsBest(t, workers, input);
      hide BestTaker, CanTake, SelectWorker;
    } else if w in t && startable {
      assert t[w := t[w]] == t;
    }
  }

  lemma AssignedShrinks(small: Assignments, large: Assignments, worker: string)
    requires AssignedTo(small, worker) <= AssignedTo(large, worker)
    ensures |AssignedTo(small, worker)| <= |AssignedTo(large, worker)|
  {
    var a, b := AssignedTo(small, worker), AssignedTo(large, worker);
    assert b == a + (b - a);
  }

  /** The Worker declares a maximum below what it has already. */
  predicate DeclaresLess(s: Sys, step: Step, worker: string) {
    step.Declare? && step.worker == worker && step.max < |AssignedTo(s.assignments, worker)|
  }

  lemma KeepsCapacity(s: Sys, step: Step, worker: string)
    requires Enabled(s, step) && WithinCapacity(s, worker)
    ensures WithinCapacity(Apply(s, step), worker) <==> !DeclaresLess(s, step, worker)
  {
    var t := Apply(s, step);
    match step
    case Insert(w) => AssignedShrinks(t.assignments, s.assignments, worker);
    case Delete(w) => AssignedShrinks(t.assignments, s.assignments, worker);
    case Start(w, startable, workers, input) => PlacementHasRoom(s.assignments, w, startable, workers, input);
    case Declare(other, max) =>
  }

  /** Beyond its maximum or not, a Worker gets another Workspace only while it is within it afterwards. */
  lemma OnlyPlacementsWithinRaise(s: Sys, step: Step, worker: string)
    requires Enabled(s, step)
    ensures |AssignedTo(Apply(s, step).assignments, worker)| > |AssignedTo(s.assignments, worker)| ==>
      WithinCapacity(Apply(s, step), worker)
  {
    var t := Apply(s, step);
    match step
    case Insert(w) => AssignedShrinks(t.assignments, s.assignments, worker);
    case Delete(w) => AssignedShrinks(t.assignments, s.assignments, worker);
    case Start(w, startable, workers, input) => PlacementHasRoom(s.assignments, w, startable, workers, input);
    case Declare(other, max) =>
  }

  /**
   * Over every serialised run a Worker has more Workspaces than its maximum only if it has itself
   * declared less than it had, and never because of a placement.
   */
  lemma {:induction false} CapacityIsNeverExceeded(states: seq<Sys>, steps: seq<Step>, k: nat, worker: string)
    requires IsRun(states, steps) && k < |states|
    ensures WithinCapacity(states[k], worker) || exists j :: 0 <= j < k && DeclaresLess(states[j], steps[j], worker)
    ensures k > 0 && !WithinCapacity(states[k], worker) ==>
      |AssignedTo(states[k].assignments, worker)| <= |AssignedTo(states[k - 1].assignments, worker)|
  {
    if k == 0 {
      assert AssignedTo(states[0].assignments, worker) == {};
    } else {
      CapacityIsNeverExceeded(states, steps, k - 1, worker);
      assert states[k - 1 + 1] == Apply(states[k - 1], steps[k - 1]);
      OnlyPlacementsWithinRaise(states[k - 1], steps[k - 1], worker);
      if WithinCapacity(states[k - 1], worker) { KeepsCapacity(states[k - 1], steps[k - 1], worker); }
    }
  }

  /** The table of assignments, changed only by the placement transaction. */
  class Placement {
    var assignments: Assignments

    constructor (t: Assignments)
      ensures assignments == t
    {
      assignments := t;
    }

    method ScheduleWorkspaceStart(w: WorkspaceId, startable: bool, workers: seq<Candidate>, input: Input) returns (outcome: Outcome)
      modifies this
      ensures (assignments, outcome) == Placed(old(assignments), w, startable, workers, input)
    {
      if w !in assignments || !startable { return WorkspaceChanged; }
      var workerId := assignments[w];
      var sticky := workerId.Some?;
      if workerId.None? {
        var selected := SelectWorker(WithCounts(workers, assignments), input);
        if selected.None? { return NoEligibleWorker; }
        workerId := Some(selected.value.id);
      }
      assert sticky ==> assignments[w := workerId] == assignments;
      assignments := assignments[w := workerId];
      return Starting(workerId.value, sticky);
    }
  }
}
