/**
 * The last activity of a Workspace as samples of its CPU counter show it, where a gap or a reset
 * counts as activity. Exact arithmetic: the average is a quotient of reals.
 */
module ComputeActivity {
  import opened Wrappers

  type WorkspaceId = nat
  type WorkerId = nat

  /** Milliseconds. */
  type Time = int

  const COMPUTE_BUCKET_MS := 300000
  const COMPUTE_MAX_SAMPLE_GAP_MS := 60000

  datatype Point = Point(at: Time, nanos: nat)

  /** `at` is `None` when the sample's time does not parse. */
  datatype Sample = Sample(workspace: WorkspaceId, at: Option<Time>, nanos: nat)

  datatype ComputeState = ComputeState(worker: WorkerId, bucketStart: Point, last: Point, activeAt: Time)

  type States = map<WorkspaceId, ComputeState>

  /** Average number of cores between two points. */
  function Cores(from: Point, to: Point): real
    requires from.at < to.at
  {
    (to.nanos - from.nanos) as real / 1000000000.0 / ((to.at - from.at) as real / 1000.0)
  }

  /** One sample of a Workspace that already has a state from the same Worker. */
  function Advance(s: ComputeState, point: Point, threshold: real): ComputeState {
    if point.at <= s.last.at then s
    else if point.at - s.last.at > COMPUTE_MAX_SAMPLE_GAP_MS || point.nanos < s.last.nanos then
      s.(activeAt := point.at, bucketStart := point, last := point)
    else if point.at - s.bucketStart.at >= COMPUTE_BUCKET_MS then
      s.(activeAt := if Cores(s.bucketStart, point) >= threshold then point.at else s.activeAt,
         bucketStart := point, last := point)
    else s.(last := point)
  }

  function Observe(state: Option<ComputeState>, worker: WorkerId, point: Point, threshold: real): ComputeState {
    if state.None? || state.value.worker != worker then ComputeState(worker, point, point, point.at)
    else Advance(state.value, point, threshold)
  }

  function Lookup(states: States, w: WorkspaceId): Option<ComputeState> {
    if w in states then Some(states[w]) else None
  }

  function Recorded(states: States, worker: WorkerId, samples: seq<Sample>, threshold: real): States {
    if samples == [] then states
    else
      var n := |samples| - 1;
      var before := Recorded(states, worker, samples[..n], threshold);
      var sample := samples[n];
      if sample.at.None? then before
      else before[sample.workspace :=
        Observe(Lookup(before, sample.workspace), worker, Point(sample.at.value, sample.nanos), threshold)]
  }

  function Forgotten(states: States, worker: WorkerId): States {
    map w | w in states && states[w].worker != worker :: states[w]
  }

  /** `now` whenever the recent history is unknown. */
  function LastActive(state: Option<ComputeState>, now: Time, threshold: real): Time {
    if state.None? || now - state.value.last.at > COMPUTE_MAX_SAMPLE_GAP_MS then now
    else
      var s := state.value;
      if s.last.at - s.bucketStart.at >= 60000 && Cores(s.bucketStart, s.last) >= threshold then s.last.at
      else s.activeAt
  }

  class ComputeActivityTracker {
    var states: States
    const thresholdCores: real

    constructor (threshold: real)
      ensures states == map[] && thresholdCores == threshold
    {
      states := map[];
      thresholdCores := threshold;
    }

    method Record(workerId: WorkerId, samples: seq<Sample>)
      modifies this
      ensures states == Recorded(old(states), workerId, samples, thresholdCores)
    {
      for i := 0 to |samples|
        invariant states == Recorded(old(states), workerId, samples[..i], thresholdCores)
      {
        assert samples[..i + 1][..i] == samples[..i];
        var sample := samples[i];
        if sample.at.None? { continue; }
        var point := Point(sample.at.value, sample.nanos);
        if sample.workspace !in states || states[sample.workspace].worker != workerId {
          states := states[sample.workspace := ComputeState(workerId, point, point, point.at)];
          continue;
        }
        var state := states[sample.workspace];
        if point.at > state.last.at {
          if point.at - state.last.at > COMPUTE_MAX_SAMPLE_GAP_MS || point.nanos < state.last.nanos {
            state := state.(activeAt := point.at);
            state := state.(bucketStart := point);
          } else if point.at - state.bucketStart.at >= COMPUTE_BUCKET_MS {
            if Cores(state.bucketStart, point) >= thresholdCores { state := state.(activeAt := point.at); }
            state := state.(bucketStart := point);
          }
          state := state.(last := point);
        }
        states := states[sample.workspace := state];
      }
      assert samples[..|samples|] == samples;
    }

    /** Afterwards nothing is known of the Workspaces that the Worker had reported last. */
    method ForgetWorker(workerId: WorkerId)
      modifies this
      ensures states == Forgotten(old(states), workerId)
    {
      var left := states.Keys;
      while left != {}
        invariant left <= old(states).Keys
        invariant states == map w | w in old(states) && (w in left || old(states)[w].worker != workerId) :: old(states)[w]
        decreases |left|
      {
        var w :| w in left;
        left := left - {w};
        if states[w].worker == workerId { states := states - {w}; }
      }
    }

    function LastActiveAt(workspaceId: WorkspaceId, now: Time): Time
      reads this
    {
      LastActive(Lookup(states, workspaceId), now, thresholdCores)
    }
  }

  // ---------------------------------------------------------------- one Workspace over a run

  /** What happens to one Workspace: a sample with a valid time, or its Worker disconnects. */
  datatype Event = Sampled(worker: WorkerId, point: Point) | Disconnected(worker: WorkerId)

  function After(events: seq<Event>, threshold: real): Option<ComputeState> {
    if events == [] then None
    else
      var before := After(events[..|events| - 1], threshold);
      match events[|events| - 1]
      case Sampled(worker, point) => Some(Observe(before, worker, point, threshold))
      case Disconnected(worker) => if before.Some? && before.value.worker == worker then None else before
  }

  /** The samples used since the Workspace last counted as active, the first being that one. */
  function Trail(events: seq<Event>, threshold: real): seq<Point> {
    if events == [] then []
    else
      var before := After(events[..|events| - 1], threshold);
      var trail := Trail(events[..|events| - 1], threshold);
      match events[|events| - 1]
      case Disconnected(_) => if After(events, threshold).None? then [] else trail
      case Sampled(_, point) =>
        if before == After(events, threshold) then trail
        else if After(events, threshold).value.activeAt == point.at then [point]
        else trail + [point]
  }

  /** Consecutive samples: time moves on by at most the gap, and the counter never drops. */
  predicate Unbroken(trail: seq<Point>) {
    forall k :: 0 <= k < |trail| - 1 ==>
      && trail[k].at < trail[k + 1].at <= trail[k].at + COMPUTE_MAX_SAMPLE_GAP_MS
      && trail[k].nanos <= trail[k + 1].nanos
  }

  /** CPU used between two points is below the threshold times the time between them. */
  predicate Below(from: Point, to: Point, threshold: real) {
    (to.nanos - from.nanos) as real < threshold * 1000000.0 * (to.at - from.at) as real
  }

  /** The state describes its trail. */
  ghost predicate Describes(s: ComputeState, trail: seq<Point>, b: nat, threshold: real) {
    && |trail| > 0 && Unbroken(trail)
    && trail[0].at == s.activeAt && trail[|trail| - 1] == s.last
    && b < |trail| && trail[b] == s.bucketStart
    && s.activeAt <= s.bucketStart.at <= s.last.at && s.last.at - s.bucketStart.at < COMPUTE_BUCKET_MS
    && (b > 0 ==> s.activeAt < s.bucketStart.at && Below(trail[0], s.bucketStart, threshold))
  }

  lemma CoresBelow(from: Point, to: Point, threshold: real)
    requires from.at < to.at
    ensures Cores(from, to) < threshold <==> Below(from, to, threshold)
  {
    var used, elapsed := (to.nanos - from.nanos) as real, (to.at - from.at) as real;
    var seconds := elapsed / 1000.0;
    assert Cores(from, to) == used / 1000000000.0 / seconds;
    QuotientBelow(used / 1000000000.0, seconds, threshold);
    assert threshold * seconds * 1000000000.0 == threshold * 1000000.0 * elapsed;
  }

  lemma QuotientBelow(a: real, b: real, c: real)
    requires b > 0.0
    ensures a / b < c <==> a < c * b
  {
    var q := a / b;
    assert q * b == a;
    if q < c { assert q * b < c * b; }
    if q >= c { assert q * b >= c * b; }
  }

  lemma BelowAdds(a: Point, b: Point, c: Point, threshold: real)
    requires Below(a, b, threshold) && Below(b, c, threshold)
    ensures Below(a, c, threshold)
  {
    var rate := threshold * 1000000.0;
    var t1, t2 := (b.at - a.at) as real, (c.at - b.at) as real;
    assert rate * t1 + rate * t2 == rate * (t1 + t2);
    assert (c.at - a.at) as real == t1 + t2;
  }

  lemma AdvanceDescribes(s: ComputeState, trail: seq<Point>, b: nat, point: Point, threshold: real) returns (c: nat)
    requires Describes(s, trail, b, threshold) && Advance(s, point, threshold) != s
    ensures var t := Advance(s, point, threshold);
      Describes(t, if t.activeAt == point.at then [point] else trail + [point], c, threshold)
  {
    var t := Advance(s, point, threshold);
    c := if t.activeAt == point.at then 0 else if t.bucketStart == point then |trail| else b;
    if t.activeAt != point.at && t.bucketStart == point {
      CoresBelow(s.bucketStart, point, threshold);
      if b > 0 { BelowAdds(trail[0], s.bucketStart, point, threshold); }
    }
  }

  /** For every sample stream the state describes the samples since the last activity. */
  lemma {:induction false} StateDescribesTrail(events: seq<Event>, threshold: real) returns (b: nat)
    ensures After(events, threshold).Some? ==> Describes(After(events, threshold).value, Trail(events, threshold), b, threshold)
  {
    b := 0;
    if events != [] {
      var n := |events| - 1;
      b := StateDescribesTrail(events[..n], threshold);
      var before := After(events[..n], threshold);
      if events[n].Sampled? {
        var point := events[n].point;
        if before.None? || before.value.worker != events[n].worker {
          b := FreshDescribes(events, threshold);
        } else if Advance(before.value, point, threshold) != before.value {
          b := AdvanceDescribes(before.value, Trail(events[..n], threshold), b, point, threshold);
        }
      }
    }
  }

  lemma FreshDescribes(events: seq<Event>, threshold: real) returns (b: nat)
    requires events != [] && events[|events| - 1].Sampled?
    requires var before := After(events[..|events| - 1], threshold);
      before.None? || before.value.worker != events[|events| - 1].worker
    ensures Describes(After(events, threshold).value, Trail(events, threshold), b, threshold)
  {
    b := 0;
    var point := events[|events| - 1].point;
    assert Trail(events, threshold) == [point];
  }

  predicate SampledBy(events: seq<Event>, worker: WorkerId, point: Point) {
    exists k :: 0 <= k < |events| && events[k] == Sampled(worker, point)
  }

  /** Every point of the trail is a sample that the Workspace's own Worker reported. */
  lemma {:induction false} TrailIsSampled(events: seq<Event>, threshold: real, point: Point)
    requires After(events, threshold).Some? && point in Trail(events, threshold)
    ensures SampledBy(events, After(events, threshold).value.worker, point)
  {
    var n := |events| - 1;
    var before := After(events[..n], threshold);
    var worker := After(events, threshold).value.worker;
    if events[n] == Sampled(worker, point) {
    } else {
      TrailIsSampled(events[..n], threshold, point);
      var k :| 0 <= k < n && events[..n][k] == Sampled(worker, point);
      assert events[k] == Sampled(worker, point);
    }
  }

  /**
   * An idle verdict is a fact about the samples: from a sample at or before the cutoff to one at
   * most two minutes before now, no gap exceeds a minute, the counter never drops, and the CPU
   * used is below the threshold times the time between them.
   */
  lemma IdleVerdict(events: seq<Event>, threshold: real, now: Time, cutoff: Time) returns (e: nat)
    requires cutoff + 120000 <= now && LastActive(After(events, threshold), now, threshold) <= cutoff
    ensures After(events, threshold).Some?
    ensures var trail := Trail(events, threshold);
      && 0 < e < |trail| && Unbroken(trail)
      && trail[0].at <= cutoff && now - 120000 <= trail[e].at
      && Below(trail[0], trail[e], threshold)
      && forall k :: 0 <= k <= e ==> SampledBy(events, After(events, threshold).value.worker, trail[k])
  {
    var s := After(events, threshold).value;
    var trail := Trail(events, threshold);
    var b := StateDescribesTrail(events, threshold);
    e := b;
    if s.last.at - s.bucketStart.at >= 60000 {
      CoresBelow(s.bucketStart, s.last, threshold);
      e := |trail| - 1;
      if b > 0 { BelowAdds(trail[0], s.bucketStart, s.last, threshold); }
    }
    forall k | 0 <= k <= e ensures SampledBy(events, s.worker, trail[k]) {
      TrailIsSampled(events, threshold, trail[k]);
    }
  }

  /** Samples of one Worker without gap or drop, and below the threshold from each to the next. */
  predicate Quiet(points: seq<Point>, threshold: real) {
    Unbroken(points) && forall k :: 0 <= k < |points| - 1 ==> Below(points[k], points[k + 1], threshold)
  }

  function SampledAt(worker: WorkerId, points: seq<Point>): seq<Event> {
    seq(|points|, k requires 0 <= k < |points| => Sampled(worker, points[k]))
  }

  /** The open bucket of a quiet history is quiet as a whole. */
  predicate QuietBucket(bucketStart: Point, last: Point, threshold: real) {
    bucketStart == last || (bucketStart.at < last.at && Below(bucketStart, last, threshold))
  }

  lemma QuietStep(s: ComputeState, point: Point, threshold: real)
    requires QuietBucket(s.bucketStart, s.last, threshold)
    requires s.last.at < point.at <= s.last.at + COMPUTE_MAX_SAMPLE_GAP_MS && s.last.nanos <= point.nanos
    requires Below(s.last, point, threshold)
    ensures var t := Advance(s, point, threshold);
      t == s.(last := point, bucketStart := t.bucketStart) && QuietBucket(t.bucketStart, point, threshold)
  {
    if s.bucketStart != s.last { BelowAdds(s.bucketStart, s.last, point, threshold); }
    CoresBelow(s.bucketStart, point, threshold);
    hide Cores, Below;
  }

  lemma {:induction false} QuietState(worker: WorkerId, points: seq<Point>, threshold: real) returns (bucketStart: Point)
    requires points != [] && Quiet(points, threshold)
    ensures After(SampledAt(worker, points), threshold)
      == Some(ComputeState(worker, bucketStart, points[|points| - 1], points[0].at))
    ensures QuietBucket(bucketStart, points[|points| - 1], threshold)
  {
    var n := |points| - 1;
    var events := SampledAt(worker, points);
    assert events[..n] == SampledAt(worker, points[..n]);
    if n == 0 {
      bucketStart := points[0];
      assert After([], threshold) == None;
    } else {
      var before := QuietState(worker, points[..n], threshold);
      var s := ComputeState(worker, before, points[n - 1], points[0].at);
      assert points[n - 1].at < points[n].at && Below(points[n - 1], points[n], threshold);
      QuietStep(s, points[n], threshold);
      hide Below, QuietBucket, Advance;
      bucketStart := Advance(s, points[n], threshold).bucketStart;
    }
  }

  /**
   * A quiet history that is not older than a gap is idle since its first sample, so that whatever
   * the cutoff, the verdict is idle once that sample is not after it.
   */
  lemma QuietIsIdle(worker: WorkerId, points: seq<Point>, threshold: real, now: Time)
    requires points != [] && Quiet(points, threshold) && now - points[|points| - 1].at <= COMPUTE_MAX_SAMPLE_GAP_MS
    ensures LastActive(After(SampledAt(worker, points), threshold), now, threshold) == points[0].at
  {
    var bucketStart := QuietState(worker, points, threshold);
    var last := points[|points| - 1];
    if bucketStart.at < last.at { CoresBelow(bucketStart, last, threshold); }
  }

  // ---------------------------------------------------------------- the tracker's map

  /** What the Control Plane hears of one Worker. */
  datatype Heard = Heartbeat(worker: WorkerId, samples: seq<Sample>) | Gone(worker: WorkerId)

  /** The tracker's map after the calls of `Record` and `ForgetWorker` that this makes. */
  function StatesAfter(history: seq<Heard>, threshold: real): States {
    if history == [] then map[]
    else
      var before := StatesAfter(history[..|history| - 1], threshold);
      match history[|history| - 1]
      case Heartbeat(worker, samples) => Recorded(before, worker, samples, threshold)
      case Gone(worker) => Forgotten(before, worker)
  }

  function SamplesOf(worker: WorkerId, samples: seq<Sample>, w: WorkspaceId): seq<Event> {
    if samples == [] then []
    else
      var n := |samples| - 1;
      var sample := samples[n];
      SamplesOf(worker, samples[..n], w) +
      (if sample.workspace == w && sample.at.Some? then [Sampled(worker, Point(sample.at.value, sample.nanos))] else [])
  }

  function EventsOf(history: seq<Heard>, w: WorkspaceId): seq<Event> {
    if history == [] then []
    else
      EventsOf(history[..|history| - 1], w) +
      match history[|history| - 1]
      case Heartbeat(worker, samples) => SamplesOf(worker, samples, w)
      case Gone(worker) => [Disconnected(worker)]
  }

  lemma {:induction false} RecordedAfter(
    states: States, worker: WorkerId, samples: seq<Sample>, threshold: real, events: seq<Event>, w: WorkspaceId)
    requires Lookup(states, w) == After(events, threshold)
    ensures Lookup(Recorded(states, worker, samples, threshold), w) == After(events + SamplesOf(worker, samples, w), threshold)
  {
    if samples == [] {
      assert events + [] == events;
    } else {
      var n := |samples| - 1;
      RecordedAfter(states, worker, samples[..n], threshold, events, w);
      var before := events + SamplesOf(worker, samples[..n], w);
      if samples[n].workspace == w && samples[n].at.Some? {
        var e := Sampled(worker, Point(samples[n].at.value, samples[n].nanos));
        assert events + SamplesOf(worker, samples, w) == before + [e];
        assert (before + [e])[..|before + [e]| - 1] == before;
      } else {
        assert events + SamplesOf(worker, samples, w) == before;
      }
    }
  }

  /** After any history of heartbeats and disconnects the map's entry is that of the Workspace's own events. */
  lemma {:induction false} MapEntryIsAfter(history: seq<Heard>, threshold: real, w: WorkspaceId)
    ensures Lookup(StatesAfter(history, threshold), w) == After(EventsOf(history, w), threshold)
  {
    if history != [] {
      var n := |history| - 1;
      MapEntryIsAfter(history[..n], threshold, w);
      var before := EventsOf(history[..n], w);
      match history[n]
      case Heartbeat(worker, samples) =>
        RecordedAfter(StatesAfter(history[..n], threshold), worker, samples, threshold, before, w);
      case Gone(worker) =>
        assert (before + [Disconnected(worker)])[..|before + [Disconnected(worker)]| - 1] == before;
    }
  }

  // ---------------------------------------------------------------- not monotone

  /** The bucket that is still being filled looks active. */
  predicate OpenBucketActive(s: ComputeState, threshold: real) {
    s.last.at - s.bucketStart.at >= 60000 && Cores(s.bucketStart, s.last) >= threshold
  }

  /**
   * Over one more sample the last activity moves back exactly when the open bucket looked active
   * and the sample, neither after a gap nor below the counter, averages the bucket below the threshold.
   */
  lemma MovesBackIff(s: ComputeState, trail: seq<Point>, b: nat, point: Point, threshold: real)
    requires Describes(s, trail, b, threshold) && s.last.at < point.at
    ensures LastActive(Some(Advance(s, point, threshold)), point.at, threshold) < LastActive(Some(s), s.last.at, threshold) <==>
      && OpenBucketActive(s, threshold)
      && point.at - s.last.at <= COMPUTE_MAX_SAMPLE_GAP_MS
      && point.nanos >= s.last.nanos
      && Cores(s.bucketStart, point) < threshold
  {
    var t := Advance(s, point, threshold);
    assert t.activeAt == point.at || t.activeAt == s.activeAt;
    assert OpenBucketActive(s, threshold) ==> s.activeAt < s.last.at && s.bucketStart.at < point.at - COMPUTE_MAX_SAMPLE_GAP_MS;
  }

  /** A minute of work that the bucket then averages away. */
  lemma LastActivityMovesBack()
    ensures var events := [
        Sampled(0, Point(0, 0)), Sampled(0, Point(60000, 60000000000)), Sampled(0, Point(120000, 60000000000))];
      LastActive(After(events, 1.0), 120000, 1.0) < LastActive(After(events[..2], 1.0), 60000, 1.0)
  {
    var first, second, third := Point(0, 0), Point(60000, 60000000000), Point(120000, 60000000000);
    var events := [Sampled(0, first), Sampled(0, second), Sampled(0, third)];
    assert events[..2] == [Sampled(0, first), Sampled(0, second)] && events[..2][..1] == [Sampled(0, first)];
    assert events[..2][..1][..0] == [];
    var s1 := ComputeState(0, first, first, 0);
    assert After(events[..2][..1], 1.0) == Some(s1);
    var s2 := ComputeState(0, first, second, 0);
    assert After(events[..2], 1.0) == Some(s2);
    var s3 := ComputeState(0, first, third, 0);
    assert After(events, 1.0) == Some(s3);
    CoresBelow(first, second, 1.0);
    CoresBelow(first, third, 1.0);
    assert !Below(first, second, 1.0) && Below(first, third, 1.0);
  }
}
