/**
 * When an interrupted Runtime change can be retried or rolled back, over every run, and that the
 * attempt then completes, as a continuation of the same run.
 */
module RuntimeRecovery {
  import opened Wrappers
  import opened WorkspaceRows
  import opened RuntimeProtocol
  import RuntimeCoupling
  import RuntimeLife
  import SR = SetRuntime

  // ---------------------------------------------------------------- the store guard, on every run

  predicate BeginAccepted(s: Sys, step: Step) {
    step.Begin? && Enabled(s, step)
    && BeginRuntimeChange(s.row, WORKER, FromImage(step.snap, step.target).value, step.target).Some?
  }

  /** A start or a delete is accepted and turns the wish away from being stopped. */
  predicate TurnsWish(s: Sys, step: Step) {
    step.StartBegin? || (step == Lifecycle(Delete) && Updated(s.row, WORKER, Delete).Some?)
  }

  /** A stop is accepted and turns the wish back. */
  predicate StopsIt(s: Sys, step: Step) {
    step.StopBegin? && Updated(s.row, WORKER, step.stop).Some?
  }

  /** Every start and delete accepted since the step `b` was followed by an accepted stop. */
  ghost predicate StoppedSince(states: seq<Sys>, steps: seq<Step>, b: nat, k: nat)
    requires k <= |steps| && |states| == |steps| + 1
  {
    forall j :: b < j < k && TurnsWish(states[j], steps[j]) ==> exists i :: j < i < k && StopsIt(states[i], steps[i])
  }

  /** Rows of this Worker in which a change, if there is one, has two different images. */
  ghost predicate PairsOk(s: Sys) {
    && PairOk(s.row)
    && (forall r :: r in s.snaps ==> PairOk(r))
    && (forall c :: c in s.changes ==> PairOk(s.changes[c].snap))
  }

  predicate PairOk(r: Row) {
    r.worker == Some(WORKER) && (InChange(r) ==> r.previous.value != r.image)
  }

  lemma KeepsPairs(s: Sys, step: Step)
    requires PairsOk(s) && Enabled(s, step)
    ensures PairsOk(Apply(s, step))
  {
    var t := Apply(s, step);
    RowKeepsPair(s, step);
    HandlersOfStep(s, step);
    hide Apply, Enabled;
    forall c | c in t.changes ensures PairOk(t.changes[c].snap) {
      assert (c in s.changes && t.changes[c].snap == s.changes[c].snap) || t.changes[c].snap in s.snaps;
    }
  }

  lemma RowKeepsPair(s: Sys, step: Step)
    requires PairsOk(s) && Enabled(s, step)
    ensures PairOk(Apply(s, step).row)
  {
    if step.Revert? {
      assert PairOk(s.changes[step.change].snap);
    }
    hide PairsOk;
  }

  /** Handlers know only rows that were read. */
  lemma HandlersOfStep(s: Sys, step: Step)
    requires Enabled(s, step)
    ensures var t := Apply(s, step);
      && t.snaps <= s.snaps + {s.row}
      && forall c :: c in t.changes ==>
          (c in s.changes && t.changes[c].snap == s.changes[c].snap) || t.changes[c].snap in s.snaps
  {
  }

  lemma {:induction false} PairsOnRuns(states: seq<Sys>, steps: seq<Step>, k: nat)
    requires RuntimeProtocol.IsRun(states, steps) && k < |states|
    ensures PairsOk(states[k])
  {
    if k > 0 {
      PairsOnRuns(states, steps, k - 1);
      KeepsPairs(states[k - 1], steps[k - 1]);
      assert states[k - 1 + 1] == Apply(states[k - 1], steps[k - 1]);
    }
  }

  lemma WishAfter(s: Sys, step: Step)
    requires Enabled(s, step) && s.row.desired != Unknown
    ensures var t := Apply(s, step);
      && t.row.desired != Unknown
      && (TurnsWish(s, step) ==> t.row.desired != WantStopped)
      && (StopsIt(s, step) ==> t.row.desired == WantStopped)
      && (!TurnsWish(s, step) && !StopsIt(s, step) ==> t.row.desired == s.row.desired)
  {
  }

  lemma BegunIsStopped(s: Sys, step: Step)
    requires BeginAccepted(s, step)
    ensures Enabled(s, step) && Apply(s, step).row.desired == WantStopped
  {
  }

  lemma {:induction false} WishSince(states: seq<Sys>, steps: seq<Step>, b: nat, k: nat)
    requires RuntimeProtocol.IsRun(states, steps) && b < k < |states| && BeginAccepted(states[b], steps[b])
    ensures states[k].row.desired != Unknown
    ensures states[k].row.desired == WantStopped <==> StoppedSince(states, steps, b, k)
  {
    hide Apply, Enabled, Updated, Initial, BeginAccepted, TurnsWish, StopsIt;
    assert states[k - 1 + 1] == Apply(states[k - 1], steps[k - 1]);
    if k - 1 == b {
      BegunIsStopped(states[b], steps[b]);
    } else {
      var s, step := states[k - 1], steps[k - 1];
      WishSince(states, steps, b, k - 1);
      WishAfter(s, step);
      if StopsIt(s, step) {
        forall j | b < j < k && TurnsWish(states[j], steps[j]) ensures exists i :: j < i < k && StopsIt(states[i], steps[i]) {
          assert StopsIt(states[k - 1], steps[k - 1]);
        }
      } else if TurnsWish(s, step) {
        assert TurnsWish(states[k - 1], steps[k - 1]);
      } else {
        SameStops(states, steps, b, k);
      }
    }
  }

  lemma SameStops(states: seq<Sys>, steps: seq<Step>, b: nat, k: nat)
    requires |states| == |steps| + 1 && b + 1 < k <= |steps|
    requires !TurnsWish(states[k - 1], steps[k - 1]) && !StopsIt(states[k - 1], steps[k - 1])
    ensures StoppedSince(states, steps, b, k) <==> StoppedSince(states, steps, b, k - 1)
  {
    hide TurnsWish, StopsIt;
    if StoppedSince(states, steps, b, k - 1) {
      forall j | b < j < k && TurnsWish(states[j], steps[j]) ensures exists i :: j < i < k && StopsIt(states[i], steps[i]) {
        assert j < k - 1;
        var i :| j < i < k - 1 && StopsIt(states[i], steps[i]);
      }
    }
    if StoppedSince(states, steps, b, k) {
      forall j | b < j < k - 1 && TurnsWish(states[j], steps[j])
        ensures exists i :: j < i < k - 1 && StopsIt(states[i], steps[i])
      {
        var i :| j < i < k && StopsIt(states[i], steps[i]);
      }
    }
  }

  /** The image a retry (towards the stored one) or a rollback (towards the previous one) starts from. */
  function OtherImage(r: Row, target: ImageRef): ImageRef
    requires r.previous.Some?
  {
    if target == r.image then r.previous.value else r.image
  }

  predicate IsOfChange(r: Row, target: ImageRef) {
    target == r.image || Some(target) == r.previous
  }

  /** A rollback or retry passes the store guard exactly while the Workspace is meant to be stopped. */
  lemma ChangeGuardIff(r: Row, target: ImageRef)
    requires PairOk(r) && ChangeIncomplete(r) && IsOfChange(r, target)
    ensures FromImage(r, target) == Some(OtherImage(r, target))
    ensures BeginRuntimeChange(r, WORKER, OtherImage(r, target), target).Some? <==> r.desired == WantStopped
  {
  }

  /**
   * On every run, careful or not: an interrupted change passes the route and the store guard, for
   * retry and for rollback, exactly when every start and delete accepted since a change was last
   * begun has been followed by a stop.
   */
  lemma InterruptedChangePassesIff(states: seq<Sys>, steps: seq<Step>, b: nat, k: nat, target: ImageRef)
    requires RuntimeProtocol.IsRun(states, steps) && b < k < |states| && BeginAccepted(states[b], steps[b])
    requires ChangeIncomplete(states[k].row) && IsOfChange(states[k].row, target)
    ensures var row := states[k].row;
      && FromImage(row, target) == Some(OtherImage(row, target))
      && (BeginRuntimeChange(row, WORKER, OtherImage(row, target), target).Some? <==> StoppedSince(states, steps, b, k))
  {
    WishSince(states, steps, b, k);
    PairsOnRuns(states, steps, k);
    ChangeGuardIff(states[k].row, target);
  }

  // ---------------------------------------------------------------- stable image references

  /** Every image reference keeps naming one image ID. */
  type ImageIds = ImageRef -> SR.ImageId

  predicate PinsOk(d: SR.Disk, ids: ImageIds) {
    && (d.meta.pin.Some? ==> d.meta.pin.value == ids(d.meta.image))
    && (d.container.Some? ==> d.container.value.imageId == ids(d.container.value.image))
  }

  /** No image reference moves to another image ID during the step. */
  predicate Stable(s: Sys, step: Step, ids: ImageIds)
    requires Enabled(s, step)
  {
    match step
    case TakeSet(offer, _, _) => offer.Some? ==> offer.value.imageId == Some(ids(offer.value.image))
    case Work(id, _, _) => id == ids(s.changes[s.exec.value.change].toImage)
    case OtherCommand(d) => PinsOk(d, ids)
    case Recreate(_, _, _) => PinsOk(Apply(s, step).disk, ids)
    case _ => true
  }

  /** A careful and timely run on which image references stay stable. */
  ghost predicate IsStableRun(states: seq<Sys>, steps: seq<Step>, ids: ImageIds) {
    && RuntimeLife.IsTimelyRun(states, steps)
    && PinsOk(states[0].disk, ids)
    && forall k :: 0 <= k < |steps| ==> Stable(states[k], steps[k], ids)
  }

  predicate PinInv(s: Sys, ids: ImageIds) {
    && PinsOk(s.disk, ids)
    && (s.exec.Some? && s.exec.value.change in s.changes ==>
        var expected := ids(s.changes[s.exec.value.change].toImage);
        && (s.exec.value.offerId.Some? ==> s.exec.value.offerId.value == expected)
        && match s.exec.value.pc
           case Confirming(id) => id == expected
           case Pinning(id) => id == expected
           case _ => true)
  }

  lemma WorkKeepsPins(s: Sys, id: SR.ImageId, fault: Option<SR.Code>, answered: bool, ids: ImageIds)
    requires Inv(s) && PinInv(s, ids) && Enabled(s, Work(id, fault, answered)) && Stable(s, Work(id, fault, answered), ids)
    ensures PinInv(WorkStep(s, id, fault, answered), ids)
  {
    assert ExecOk(s);
    hide Inv, Apply, Careful;
  }

  lemma OtherKeepsPins(s: Sys, step: Step, ids: ImageIds)
    requires PinInv(s, ids) && Enabled(s, step) && Stable(s, step, ids) && !step.Work?
    requires s.exec.Some? ==> s.exec.value.change in s.changes && s.exec.value.change <= s.epoch
    ensures PinInv(Apply(s, step), ids)
  {
  }

  lemma KeepsPins(s: Sys, step: Step, ids: ImageIds)
    requires Inv(s) && PinInv(s, ids) && Enabled(s, step) && Stable(s, step, ids)
    ensures PinInv(Apply(s, step), ids)
  {
    if step.Work? {
      WorkKeepsPins(s, step.id, step.fault, step.answered, ids);
      assert Apply(s, step) == WorkStep(s, step.id, step.fault, step.answered);
    } else {
      if s.exec.Some? { assert Pending(s, s.exec.value.change); }
      hide Apply, Enabled, Stable, PinInv;
      OtherKeepsPins(s, step, ids);
    }
  }

  lemma {:induction false} PinsOnStableRuns(states: seq<Sys>, steps: seq<Step>, ids: ImageIds, k: nat)
    requires IsStableRun(states, steps, ids) && k < |states|
    ensures PinInv(states[k], ids)
  {
    hide Apply, Enabled, Careful, Stable, RuntimeLife.Timely;
    if k > 0 {
      PinsOnStableRuns(states, steps, ids, k - 1);
      RuntimeCoupling.InvOnCarefulRuns(states, steps, k - 1);
      KeepsPins(states[k - 1], steps[k - 1], ids);
      assert states[k - 1 + 1] == Apply(states[k - 1], steps[k - 1]);
    }
  }

  // ---------------------------------------------------------------- continuing a run

  /** Nothing fails, is cut off or gets lost, and no other handler interferes. */
  predicate Faultless(step: Step) {
    match step
    case Read => true
    case Begin(_, _) => true
    case Send(_, delivered) => delivered
    case TakeSet(offer, fault, answered) => offer.Some? && fault.None? && answered
    case TakeInspect(_, answered) => answered
    case Work(_, fault, answered) => fault.None? && answered
    case Finish(_, _) => true
    case _ => false
  }

  /** Some stable and faultless continuation of the run leads to the state. */
  ghost predicate Leads(states: seq<Sys>, steps: seq<Step>, ids: ImageIds, s: Sys) {
    exists longer: seq<Sys>, more: seq<Step> :: Continues(states, steps, ids, longer, more) && longer[|more|] == s
  }

  ghost predicate Continues(states: seq<Sys>, steps: seq<Step>, ids: ImageIds, longer: seq<Sys>, more: seq<Step>) {
    && IsStableRun(longer, more, ids) && states <= longer && steps <= more
    && forall k :: |steps| <= k < |more| ==> Faultless(more[k])
  }

  predicate Allows(s: Sys, step: Step, ids: ImageIds) {
    Enabled(s, step) && Careful(s, step) && RuntimeLife.Timely(s, step) && Stable(s, step, ids)
  }

  lemma Step(states: seq<Sys>, steps: seq<Step>, ids: ImageIds, s: Sys, step: Step) returns (t: Sys)
    requires Leads(states, steps, ids, s) && Allows(s, step, ids) && Faultless(step)
    ensures Leads(states, steps, ids, t) && t == Apply(s, step)
  {
    t := Apply(s, step);
    var longer, more :| Continues(states, steps, ids, longer, more) && longer[|more|] == s;
    hide Apply, Allows, Faultless;
    AppendStep(longer, more, ids, step);
    hide IsStableRun;
    assert Continues(states, steps, ids, longer + [t], more + [step]) && (longer + [t])[|more + [step]|] == t;
  }

  lemma AppendStep(states: seq<Sys>, steps: seq<Step>, ids: ImageIds, step: Step)
    requires IsStableRun(states, steps, ids) && Allows(states[|steps|], step, ids)
    ensures IsStableRun(states + [Apply(states[|steps|], step)], steps + [step], ids)
  {
    var longer, more := states + [Apply(states[|steps|], step)], steps + [step];
    forall k | 0 <= k < |more|
      ensures Allows(longer[k], more[k], ids) && longer[k + 1] == Apply(longer[k], more[k])
    {
      if k < |steps| { assert longer[k] == states[k] && longer[k + 1] == states[k + 1] && more[k] == steps[k]; }
    }
    hide Apply, Enabled, Careful, RuntimeLife.Timely, Stable, Initial;
  }

  /** What every run keeps, at the end of a continuation. */
  lemma LedState(states: seq<Sys>, steps: seq<Step>, ids: ImageIds, s: Sys)
    requires Leads(states, steps, ids, s)
    ensures Inv(s) && RuntimeLife.LifeInv(s) && PinInv(s, ids)
  {
    var longer, more :| Continues(states, steps, ids, longer, more) && longer[|more|] == s;
    RuntimeCoupling.InvOnCarefulRuns(longer, more, |more|);
    RuntimeLife.LifeOnTimelyRuns(longer, more, |more|);
    PinsOnStableRuns(longer, more, ids, |more|);
  }

  // ---------------------------------------------------------------- the Worker gets on with its commands

  predicate AtRest(s: Sys) {
    s.exec.None? && s.queue == []
  }

  /** The command in hand, or the first in the queue, is known to the Control Plane. */
  predicate HeadKnown(s: Sys) {
    if s.exec.Some? then s.exec.value.change in s.changes
    else s.queue != [] && (s.queue[0].SetCmd? ==> s.queue[0].change in s.changes)
  }

  /** What the Worker does next when nothing fails. */
  function NextStep(s: Sys, ids: ImageIds): Step
    requires HeadKnown(s)
  {
    if s.exec.Some? then Work(ids(s.changes[s.exec.value.change].toImage), None, true)
    else
      match s.queue[0]
      case SetCmd(c) => TakeSet(Some(SR.Offer(s.changes[c].toImage, Some(ids(s.changes[c].toImage)))), None, true)
      case InspectCmd(_) => TakeInspect(true, true)
  }

  /** How many durable steps and checks the command in hand has left. */
  function Rank(s: Sys): nat {
    if s.exec.None? then 0
    else
      match s.exec.value.pc
      case Switching => 6
      case Removing => 5
      case Creating => 4
      case Confirming(_) => 3
      case Pinning(_) => 2
      case Verifying => 1
  }

  lemma HeadIsKnown(s: Sys)
    requires Inv(s) && !AtRest(s)
    ensures HeadKnown(s)
    ensures s.exec.None? && s.queue[0].InspectCmd? ==> s.queue[0].recon < |s.recons|
  {
    if s.exec.Some? {
      assert Pending(s, s.exec.value.change);
    } else if s.queue[0].SetCmd? {
      assert Pending(s, s.queue[0].change);
    }
  }

  lemma NextStepAllowed(s: Sys, ids: ImageIds)
    requires PinInv(s, ids) && HeadKnown(s)
    requires s.exec.None? && s.queue[0].InspectCmd? ==> s.queue[0].recon < |s.recons|
    ensures Allows(s, NextStep(s, ids), ids) && Faultless(NextStep(s, ids))
    ensures !TurnsWish(s, NextStep(s, ids))
  {
  }

  lemma NextStepAdvances(s: Sys, ids: ImageIds)
    requires PinInv(s, ids) && HeadKnown(s) && Enabled(s, NextStep(s, ids))
    ensures var t := Apply(s, NextStep(s, ids));
      t.row == s.row && (|t.queue| < |s.queue| || (t.queue == s.queue && Rank(t) < Rank(s)))
  {
  }

  /** The Worker finishes its command and serves its queue in order; row and wish stay, and the container down. */
  lemma Drain(states: seq<Sys>, steps: seq<Step>, ids: ImageIds, s: Sys) returns (t: Sys)
    requires Leads(states, steps, ids, s) && s.row.desired == WantStopped && !IsUp(s.disk)
    ensures Leads(states, steps, ids, t) && AtRest(t) && t.row == s.row && !IsUp(t.disk)
    decreases |s.queue|, Rank(s)
  {
    hide Leads, Inv, RuntimeLife.LifeInv, PinInv, Apply, Enabled, Allows, Careful, NextStep, HeadKnown, IsUp, TurnsWish, Rank, Faultless;
    if AtRest(s) {
      t := s;
    } else {
      LedState(states, steps, ids, s);
      HeadIsKnown(s);
      NextStepAllowed(s, ids);
      var step := NextStep(s, ids);
      AllowedStep(s, step, ids);
      NextStepAdvances(s, ids);
      StaysDown(s, step);
      t := Step(states, steps, ids, s, step);
      t := Drain(states, steps, ids, t);
    }
  }

  lemma AllowedStep(s: Sys, step: Step, ids: ImageIds)
    requires Allows(s, step, ids)
    ensures Enabled(s, step) && Careful(s, step) && RuntimeLife.Timely(s, step) && Stable(s, step, ids)
  {
  }

  /** The handler reads the row, begins the change and sends its command to a Worker at rest. */
  lemma BeginAndSend(states: seq<Sys>, steps: seq<Step>, ids: ImageIds, s: Sys, target: ImageRef) returns (t: Sys)
    requires Leads(states, steps, ids, s) && ChangeIncomplete(s.row) && IsOfChange(s.row, target)
    requires PairOk(s.row) && s.row.desired == WantStopped && AtRest(s)
    ensures Leads(states, steps, ids, t)
    ensures t.row == s.row.(state := Upgrading, image := target, previous := Some(OtherImage(s.row, target)), changedAt := None)
    ensures t.epoch == s.epoch + 1 && t.disk == s.disk && t.exec.None? && t.queue == [SetCmd(t.epoch)]
    ensures t.epoch in t.changes
    ensures t.changes[t.epoch] == Change(s.row, OtherImage(s.row, target), target, true, false, None)
  {
    ChangeGuardIff(s.row, target);
    t := Step(states, steps, ids, s, Read);
    t := BeginFrom(states, steps, ids, t, target);
    t := SendLatest(states, steps, ids, t);
  }

  lemma BeginFrom(states: seq<Sys>, steps: seq<Step>, ids: ImageIds, s: Sys, target: ImageRef) returns (t: Sys)
    requires Leads(states, steps, ids, s) && ChangeIncomplete(s.row) && IsOfChange(s.row, target) && s.row in s.snaps
    requires FromImage(s.row, target) == Some(OtherImage(s.row, target))
    requires BeginRuntimeChange(s.row, WORKER, OtherImage(s.row, target), target).Some?
    ensures Leads(states, steps, ids, t)
    ensures t == s.(
      row := BeginRuntimeChange(s.row, WORKER, OtherImage(s.row, target), target).value, epoch := s.epoch + 1,
      changes := s.changes[s.epoch + 1 := Change(s.row, OtherImage(s.row, target), target, false, false, None)])
  {
    t := Step(states, steps, ids, s, Begin(s.row, target));
  }

  lemma SendLatest(states: seq<Sys>, steps: seq<Step>, ids: ImageIds, s: Sys) returns (t: Sys)
    requires Leads(states, steps, ids, s) && s.epoch in s.changes && !s.changes[s.epoch].sent && s.queue == []
    ensures Leads(states, steps, ids, t)
    ensures t == s.(queue := [SetCmd(s.epoch)], changes := s.changes[s.epoch := s.changes[s.epoch].(sent := true)])
  {
    t := Step(states, steps, ids, s, Send(s.epoch, true));
  }

  /** One durable step, or the last check, of the Worker. */
  lemma WorkOn(states: seq<Sys>, steps: seq<Step>, ids: ImageIds, s: Sys, pc: Pc) returns (t: Sys)
    requires Leads(states, steps, ids, s) && s.exec.Some? && s.exec.value.change in s.changes && s.exec.value.pc == pc
    requires var id := ids(s.changes[s.exec.value.change].toImage);
      && (pc.Confirming? ==> pc.id == id && s.exec.value.offerId == Some(id))
      && (pc.Pinning? ==> pc.id == id)
    ensures Leads(states, steps, ids, t)
    ensures var change := s.changes[s.exec.value.change];
      var id := ids(change.toImage);
      t == match pc
        case Switching =>
          s.(disk := SR.SwitchMetadata(s.disk, change.fromImage, change.toImage), exec := Some(s.exec.value.(pc := Removing)))
        case Removing => s.(disk := SR.RemoveContainer(s.disk), exec := Some(s.exec.value.(pc := Creating)))
        case Creating =>
          s.(disk := SR.CreateContainer(s.disk, change.toImage, id), exec := Some(s.exec.value.(pc := Confirming(id))))
        case Confirming(_) => s.(exec := Some(s.exec.value.(pc := Pinning(id))))
        case Pinning(_) => s.(disk := SR.PinImageId(s.disk, id), exec := Some(s.exec.value.(pc := Verifying)))
        case Verifying => Answer(s.(exec := None), s.exec.value.change, Ok, true)
  {
    t := Step(states, steps, ids, s, Work(ids(s.changes[s.exec.value.change].toImage), None, true));
  }

  /** The Worker takes up the command and carries it out. */
  lemma CarryOut(states: seq<Sys>, steps: seq<Step>, ids: ImageIds, s: Sys) returns (t: Sys)
    requires Leads(states, steps, ids, s) && s.exec.None? && s.queue == [SetCmd(s.epoch)] && s.epoch in s.changes
    requires s.changes[s.epoch].verdict.None?
    requires var c := s.changes[s.epoch]; SR.Resumable(s.disk, c.fromImage, c.toImage, ids(c.toImage))
    ensures Leads(states, steps, ids, t) && t.row == s.row && t.epoch == s.epoch && t.epoch in t.changes
    ensures t.changes[t.epoch].verdict == Some(Ok) && t.changes[t.epoch].toImage == s.changes[s.epoch].toImage
    ensures SR.Settled(t.disk, s.changes[s.epoch].toImage, ids(s.changes[s.epoch].toImage))
  {
    var c := s.changes[s.epoch];
    var id := ids(c.toImage);
    var offer := Some(SR.Offer(c.toImage, Some(id)));
    var checked := SR.Check(s.disk, c.fromImage, c.toImage, offer);
    SR.ResumableCompletes(s.disk, c.fromImage, c.toImage, id);
    assert checked.None? || checked == Some(SR.Observed(c.toImage));
    t := Step(states, steps, ids, s, TakeSet(offer, None, true));
    hide Apply, Enabled, Careful, Leads, Allows, SR.Resumable, SR.Completes;
    if checked.None? {
      t := WorkToTheEnd(states, steps, ids, t, c, id);
    }
  }

  lemma WorkToTheEnd(states: seq<Sys>, steps: seq<Step>, ids: ImageIds, s: Sys, c: Change, id: SR.ImageId) returns (t: Sys)
    requires Leads(states, steps, ids, s) && s.exec == Some(Exec(s.epoch, Some(id), Switching)) && s.epoch in s.changes
    requires s.changes[s.epoch] == c.(touched := true) && c.verdict.None? && id == ids(c.toImage) && s.disk.managed
    ensures Leads(states, steps, ids, t) && t.row == s.row && t.epoch == s.epoch && t.epoch in t.changes
    ensures t.changes[t.epoch].verdict == Some(Ok) && t.changes[t.epoch].toImage == c.toImage
    ensures SR.Settled(t.disk, c.toImage, id)
  {
    hide Apply, Enabled, Careful, Leads, Allows;
    t := WorkOn(states, steps, ids, s, Switching);
    t := WorkOn(states, steps, ids, t, Removing);
    t := WorkOn(states, steps, ids, t, Creating);
    t := WorkOn(states, steps, ids, t, Confirming(id));
    t := WorkOn(states, steps, ids, t, Pinning(id));
    t := WorkOn(states, steps, ids, t, Verifying);
  }

  lemma FinishLatest(states: seq<Sys>, steps: seq<Step>, ids: ImageIds, s: Sys, now: Time) returns (t: Sys)
    requires Leads(states, steps, ids, s) && s.epoch in s.changes && s.changes[s.epoch].verdict == Some(Ok)
    requires s.row.worker == Some(WORKER) && s.row.state == Upgrading && s.row.image == s.changes[s.epoch].toImage
    ensures Leads(states, steps, ids, t) && t == s.(row := s.row.(state := Stopped, changedAt := Some(now)))
  {
    t := Step(states, steps, ids, s, Finish(s.epoch, now));
  }

  /** On both sides the change is over and the Workspace is on the image. */
  predicate DoneOn(s: Sys, image: ImageRef, id: SR.ImageId) {
    && s.row.state == Stopped && s.row.image == image && !InChange(s.row)
    && SR.Settled(s.disk, image, id)
  }

  /**
   * From every interrupted change that a stable run reaches with the wish to be stopped and the
   * container down, whatever the Worker is doing and however it crashed before, the run continues,
   * for retry and for rollback and without another fault, until row, metadata and container are on
   * the chosen image: the Worker gets on with what it has in hand and in its queue, and then
   * carries out one attempt.
   */
  lemma InterruptedChangeRecovers(states: seq<Sys>, steps: seq<Step>, ids: ImageIds, target: ImageRef, now: Time)
    returns (t: Sys)
    requires IsStableRun(states, steps, ids)
    requires var s := states[|steps|];
      ChangeIncomplete(s.row) && IsOfChange(s.row, target) && s.row.desired == WantStopped && !IsUp(s.disk)
    ensures Leads(states, steps, ids, t) && DoneOn(t, target, ids(target))
  {
    var s := states[|steps|];
    assert Continues(states, steps, ids, states, steps);
    hide *;
    t := Drain(states, steps, ids, s);
    RecoverableWhenLed(states, steps, ids, t, target);
    t := Recovers(states, steps, ids, t, target, now);
  }

  lemma RecoverableWhenLed(states: seq<Sys>, steps: seq<Step>, ids: ImageIds, s: Sys, target: ImageRef)
    requires Leads(states, steps, ids, s)
    requires ChangeIncomplete(s.row) && IsOfChange(s.row, target) && s.row.desired == WantStopped && !IsUp(s.disk)
    ensures PairOk(s.row) && SR.Resumable(s.disk, OtherImage(s.row, target), target, ids(target))
  {
    LedState(states, steps, ids, s);
    hide Leads;
    RecoverableDisk(s, ids, target);
  }

  lemma RecoverableDisk(s: Sys, ids: ImageIds, target: ImageRef)
    requires Inv(s) && RuntimeLife.LifeInv(s) && PinInv(s, ids)
    requires ChangeIncomplete(s.row) && IsOfChange(s.row, target) && s.row.desired == WantStopped && !IsUp(s.disk)
    ensures PairOk(s.row) && SR.Resumable(s.disk, OtherImage(s.row, target), target, ids(target))
  {
    hide HandlersOk, LatestOk, LatestIsLast, ReconsOk, ExecOk, PendingWithin;
    assert s.disk.managed;
  }

  lemma Recovers(states: seq<Sys>, steps: seq<Step>, ids: ImageIds, s: Sys, target: ImageRef, now: Time) returns (t: Sys)
    requires Leads(states, steps, ids, s) && ChangeIncomplete(s.row) && IsOfChange(s.row, target)
    requires PairOk(s.row) && s.row.desired == WantStopped && AtRest(s)
    requires SR.Resumable(s.disk, OtherImage(s.row, target), target, ids(target))
    ensures Leads(states, steps, ids, t) && DoneOn(t, target, ids(target))
  {
    hide Leads, SR.Resumable, SR.Settled;
    t := BeginAndSend(states, steps, ids, s, target);
    t := CarryOut(states, steps, ids, t);
    t := FinishLatest(states, steps, ids, t, now);
  }

  /** With the container up the attempt is refused, and with it down it completes. */
  lemma AttemptCompletesIff(states: seq<Sys>, steps: seq<Step>, ids: ImageIds, target: ImageRef)
    requires IsStableRun(states, steps, ids)
    requires var s := states[|steps|]; ChangeIncomplete(s.row) && IsOfChange(s.row, target) && s.row.desired == WantStopped
    ensures var s := states[|steps|];
      SR.Completes(s.disk, OtherImage(s.row, target), target, ids(target)) <==> !IsUp(s.disk)
  {
    var k := |steps|;
    RuntimeCoupling.InvOnCarefulRuns(states, steps, k);
    RuntimeLife.LifeOnTimelyRuns(states, steps, k);
    PinsOnStableRuns(states, steps, ids, k);
    if !IsUp(states[k].disk) {
      RecoverableDisk(states[k], ids, target);
      SR.ResumableCompletes(states[k].disk, OtherImage(states[k].row, target), target, ids(target));
    }
  }

  // ---------------------------------------------------------------- without a start or delete

  lemma StaysDown(s: Sys, step: Step)
    requires Inv(s) && RuntimeLife.LifeInv(s) && Enabled(s, step) && RuntimeLife.Timely(s, step)
    requires s.row.desired == WantStopped && !IsUp(s.disk) && !TurnsWish(s, step)
    ensures Apply(s, step).row.desired == WantStopped && !IsUp(Apply(s, step).disk)
  {
    WishAfter(s, step);
    hide Inv;
  }

  lemma BegunIsDown(s: Sys, step: Step)
    requires RuntimeLife.LifeInv(s) && BeginAccepted(s, step) && s.row.state == Stopped
    ensures Apply(s, step).row.desired == WantStopped && !IsUp(Apply(s, step).disk)
  {
  }

  lemma {:induction false} UnturnedStaysDown(states: seq<Sys>, steps: seq<Step>, b: nat, k: nat)
    requires RuntimeLife.IsTimelyRun(states, steps) && b < k < |states|
    requires BeginAccepted(states[b], steps[b]) && states[b].row.state == Stopped
    requires forall j :: b < j < k ==> !TurnsWish(states[j], steps[j])
    ensures states[k].row.desired == WantStopped && !IsUp(states[k].disk)
  {
    hide Inv, RuntimeLife.LifeInv, RuntimeLife.Timely, Apply, Enabled, Careful, Initial, BeginAccepted, TurnsWish, IsUp;
    RuntimeCoupling.InvOnCarefulRuns(states, steps, k - 1);
    RuntimeLife.LifeOnTimelyRuns(states, steps, k - 1);
    assert states[k - 1 + 1] == Apply(states[k - 1], steps[k - 1]);
    if k - 1 > b {
      UnturnedStaysDown(states, steps, b, k - 1);
      StaysDown(states[k - 1], steps[k - 1]);
    } else {
      BegunIsDown(states[b], steps[b]);
    }
  }

  /**
   * A change that was begun on a stopped Workspace and interrupted recovers for retry and for
   * rollback unless a start or a delete was accepted since it began.
   */
  lemma UnturnedChangeRecovers(
    states: seq<Sys>, steps: seq<Step>, ids: ImageIds, b: nat, target: ImageRef, now: Time) returns (t: Sys)
    requires IsStableRun(states, steps, ids) && b < |steps|
    requires BeginAccepted(states[b], steps[b]) && states[b].row.state == Stopped
    requires forall j :: b < j < |steps| ==> !TurnsWish(states[j], steps[j])
    requires ChangeIncomplete(states[|steps|].row) && IsOfChange(states[|steps|].row, target)
    ensures Leads(states, steps, ids, t) && DoneOn(t, target, ids(target))
  {
    UnturnedStaysDown(states, steps, b, |steps|);
    t := InterruptedChangeRecovers(states, steps, ids, target, now);
  }

  // ---------------------------------------------------------------- refusals

  /**
   * When a change begins, the row its refusal would restore covers everything the Worker may then
   * hold exactly when the snapshot is not stale.
   */
  lemma RestoreCoversIff(row: Row, snap: Row, target: ImageRef)
    requires RowOk(row) && RowOk(snap) && FromImage(snap, target).Some?
    requires BeginRuntimeChange(row, WORKER, FromImage(snap, target).value, target).Some?
    ensures (forall d :: Within(d, Allowed(row)) ==> Within(d, Allowed(Restored(row, RestoreOf(snap)))))
      <==> SafeSnapshot(row, snap, target)
  {
    var restored := Restored(row, RestoreOf(snap));
    if SafeSnapshot(row, snap, target) {
      assert Allowed(row) <= Allowed(restored);
    } else {
      assert !(Allowed(row) <= Allowed(restored));
      var image :| image in Allowed(row) && image !in Allowed(restored);
      var d := SR.Disk(SR.Metadata(image, None, None), None, true);
      assert Within(d, Allowed(row)) && !Within(d, Allowed(restored));
    }
  }
}
