/**
 * How a Worker switches a stopped Workspace to another Runtime image: the durable steps, what is
 * left when the Worker crashes between any two of them, and when a later attempt still completes.
 */
module SetRuntime {
  import opened Wrappers
  import opened WorkspaceRows

  type ImageId = nat

  /** The metadata file, replaced atomically; `pin` is the image ID the container must run. */
  datatype Metadata = Metadata(image: ImageRef, previous: Option<ImageRef>, pin: Option<ImageId>)

  datatype Container = Container(image: ImageRef, imageId: ImageId, running: bool)

  /**
   * What survives a crash of the Worker. Without its directory a Workspace is not managed, and the
   * metadata says nothing.
   */
  datatype Disk = Disk(meta: Metadata, container: Option<Container>, managed: bool)

  /** An image this Worker offers, with the ID it verified for it. */
  datatype Offer = Offer(image: ImageRef, imageId: Option<ImageId>)

  datatype Code =
    | RuntimeImageUnavailable | WorkspaceRunning | StorageMigrationRequired
    | WorkspaceMetadataMismatch | WorkspaceNotManaged | UnmanagedContainerConflict
    | RuntimeConfigurationMismatch | RuntimeEngineError

  /** The refusals the Control Plane takes to mean that nothing was changed. */
  predicate MeansUnchanged(c: Code) {
    c != RuntimeConfigurationMismatch && c != RuntimeEngineError
  }

  datatype Result = Crashed | Observed(image: ImageRef) | Failed(code: Code)

  /**
   * What keeps an attempt from its answer: a check that fails first, a crash after some durable
   * steps, an engine failure, the lookup of the created container, or its verification. The created
   * container of a moved reference may also resist its removal.
   */
  datatype Halt =
    | Never
    | FailsFirst(code: Code)
    | Crash(steps: nat)
    | FailsRemoving
    | FailsCreating
    | FailsLookup(code: Code)
    | FailsDiscarding
    | FailsConfirming(code: Code)

  // ---------------------------------------------------------------- the steps

  /**
   * A container is verified against the metadata that created it: the current one, or after an
   * interrupted change the previous image, whose ID is no longer known.
   */
  predicate ContainerMatches(m: Metadata, c: Container) {
    if c.image == m.image then m.pin.None? || m.pin == Some(c.imageId)
    else m.previous == Some(c.image)
  }

  predicate AlreadyThere(d: Disk, offer: Offer) {
    && d.meta.image == offer.image
    && d.container.Some?
    && d.container.value.image == offer.image
    && (offer.imageId.None? || offer.imageId == Some(d.container.value.imageId))
  }

  /** The checks before the first change: `None` when the switch goes ahead. */
  function Check(d: Disk, fromImage: ImageRef, toImage: ImageRef, offer: Option<Offer>): Option<Result> {
    if offer.None? then Some(Failed(RuntimeImageUnavailable))
    else if !d.managed then Some(Failed(WorkspaceNotManaged))
    else if d.meta.image != fromImage && d.meta.image != toImage then Some(Failed(WorkspaceMetadataMismatch))
    else if d.container.None? then None
    else if !ContainerMatches(d.meta, d.container.value) then Some(Failed(RuntimeConfigurationMismatch))
    else if d.container.value.running then Some(Failed(WorkspaceRunning))
    else if AlreadyThere(d, offer.value) then Some(Observed(toImage))
    else None
  }

  function SwitchMetadata(d: Disk, fromImage: ImageRef, toImage: ImageRef): Disk {
    if d.meta.image == toImage then d else d.(meta := Metadata(toImage, Some(fromImage), None))
  }

  function RemoveContainer(d: Disk): Disk {
    d.(container := None)
  }

  function CreateContainer(d: Disk, image: ImageRef, id: ImageId): Disk {
    d.(container := Some(Container(image, id, false)))
  }

  function PinImageId(d: Disk, id: ImageId): Disk {
    d.(meta := d.meta.(pin := Some(id)))
  }

  /** The disk after the first `n` of the four durable steps; the container gets image ID `id`. */
  function AfterSteps(d: Disk, fromImage: ImageRef, toImage: ImageRef, id: ImageId, n: nat): Disk {
    var switched := SwitchMetadata(d, fromImage, toImage);
    var removed := RemoveContainer(switched);
    var created := CreateContainer(removed, toImage, id);
    match n
    case 0 => d
    case 1 => switched
    case 2 => removed
    case 3 => created
    case _ => PinImageId(created, id)
  }

  /** A lookup that finds no container raises WORKSPACE_NOT_MANAGED; every other failure leaves it there. */
  function Found(d: Disk, code: Code): Disk {
    if code == WorkspaceNotManaged then RemoveContainer(d) else d
  }

  /** The reference moved to another image between its verification and the creation. */
  predicate Moved(offer: Option<Offer>, id: ImageId) {
    offer.Some? && offer.value.imageId.Some? && offer.value.imageId != Some(id)
  }

  function CheckOrFail(d: Disk, fromImage: ImageRef, toImage: ImageRef, offer: Option<Offer>, halt: Halt): Option<Result> {
    if halt.FailsFirst? then Some(Failed(halt.code)) else Check(d, fromImage, toImage, offer)
  }

  /** One attempt; `id` is the image ID the created container gets. */
  function Attempt(d: Disk, fromImage: ImageRef, toImage: ImageRef, offer: Option<Offer>, id: ImageId, halt: Halt): (Disk, Result) {
    var checked := CheckOrFail(d, fromImage, toImage, offer, halt);
    if checked.Some? then (d, checked.value)
    else if halt.Crash? && halt.steps < 4 then (AfterSteps(d, fromImage, toImage, id, halt.steps), Crashed)
    else if halt.FailsRemoving? && d.container.Some? then
      (AfterSteps(d, fromImage, toImage, id, 1), Failed(RuntimeEngineError))
    else if halt.FailsCreating? then (AfterSteps(d, fromImage, toImage, id, 2), Failed(RuntimeEngineError))
    else if halt.FailsLookup? then (Found(AfterSteps(d, fromImage, toImage, id, 3), halt.code), Failed(halt.code))
    else if Moved(offer, id) then
      (AfterSteps(d, fromImage, toImage, id, if halt.FailsDiscarding? then 3 else 2), Failed(RuntimeImageUnavailable))
    else if halt.Crash? then (AfterSteps(d, fromImage, toImage, id, 4), Crashed)
    else if halt.FailsConfirming? then (Found(AfterSteps(d, fromImage, toImage, id, 4), halt.code), Failed(halt.code))
    else (AfterSteps(d, fromImage, toImage, id, 4), Observed(toImage))
  }

  /** A container that deleting accepts: one from the current metadata. */
  predicate Deletable(d: Disk) {
    d.container.Some? ==>
      d.container.value.image == d.meta.image && (d.meta.pin.None? || d.meta.pin == Some(d.container.value.imageId))
  }

  /** Deleting the Workspace, stopped by a crash before its directory is gone when `steps` is below two. */
  function Deleted(d: Disk, steps: nat): (Disk, Result) {
    if !d.managed then (d, Failed(WorkspaceNotManaged))
    else if !Deletable(d) then (d, Failed(RuntimeConfigurationMismatch))
    else if steps == 0 then (d, Crashed)
    else if steps == 1 then (RemoveContainer(d), Crashed)
    else (RemoveContainer(d).(managed := false), Observed(d.meta.image))
  }

  /** The Worker's runtime of one Workspace. */
  class WorkspaceRuntime {
    var meta: Metadata
    var container: Option<Container>
    var managed: bool

    function OnDisk(): Disk
      reads this
    {
      Disk(meta, container, managed)
    }

    constructor (d: Disk)
      ensures OnDisk() == d
    {
      meta, container, managed := d.meta, d.container, d.managed;
    }

    method SetRuntime(fromImage: ImageRef, toImage: ImageRef, target: Option<Offer>, createdId: ImageId, halt: Halt)
      returns (result: Result)
      requires target.Some? ==> target.value.image == toImage
      modifies this
      ensures (OnDisk(), result) == Attempt(old(OnDisk()), fromImage, toImage, target, createdId, halt)
    {
      if halt.FailsFirst? { return Failed(halt.code); }
      if target.None? { return Failed(RuntimeImageUnavailable); }
      if !managed { return Failed(WorkspaceNotManaged); }
      if meta.image != fromImage && meta.image != toImage { return Failed(WorkspaceMetadataMismatch); }
      var existing := container;
      if existing.Some? {
        var inspection := existing.value;
        if inspection.image == meta.image {
          if meta.pin.Some? && meta.pin.value != inspection.imageId { return Failed(RuntimeConfigurationMismatch); }
        } else if meta.previous != Some(inspection.image) {
          return Failed(RuntimeConfigurationMismatch);
        }
        if inspection.running { return Failed(WorkspaceRunning); }
        if && meta.image == toImage && inspection.image == toImage
           && (target.value.imageId.None? || target.value.imageId.value == inspection.imageId)
        {
          return Observed(toImage);
        }
      }
      if halt == Crash(0) { return Crashed; }
      if meta.image != toImage {
        meta := Metadata(toImage, Some(fromImage), None);
      }
      if halt == Crash(1) { return Crashed; }
      if existing.Some? {
        if halt.FailsRemoving? { return Failed(RuntimeEngineError); }
        container := None;
      }
      if halt == Crash(2) { return Crashed; }
      result := CreateContainer(toImage, target.value, createdId, halt);
      if result != Observed(toImage) { return; }
      if halt.FailsConfirming? {
        if halt.code == WorkspaceNotManaged { container := None; }
        return Failed(halt.code);
      }
    }

    /** The second half of an attempt, from an absent container to the pin, with what each failure leaves. */
    method CreateContainer(image: ImageRef, offered: Offer, createdId: ImageId, halt: Halt) returns (result: Result)
      requires container.None? && !halt.FailsFirst? && (halt.Crash? ==> halt.steps >= 3)
      modifies this
      ensures managed == old(managed) && meta.image == old(meta.image) && meta.previous == old(meta.previous)
      ensures var created := Some(Container(image, createdId, false));
        if halt.FailsCreating? then container.None? && meta == old(meta) && result == Failed(RuntimeEngineError)
        else if halt == Crash(3) then container == created && meta == old(meta) && result == Crashed
        else if halt.FailsLookup? then
          container == (if halt.code == WorkspaceNotManaged then None else created) && meta == old(meta) && result == Failed(halt.code)
        else if Moved(Some(offered), createdId) then
          container == (if halt.FailsDiscarding? then created else None) && meta == old(meta) && result == Failed(RuntimeImageUnavailable)
        else
          container == created && meta.pin == Some(createdId) && result == (if halt.Crash? then Crashed else Observed(image))
    {
      if halt.FailsCreating? { return Failed(RuntimeEngineError); }
      container := Some(Container(image, createdId, false));
      if halt == Crash(3) { return Crashed; }
      if halt.FailsLookup? {
        if halt.code == WorkspaceNotManaged { container := None; }
        return Failed(halt.code);
      }
      if offered.imageId.Some? && offered.imageId.value != createdId {
        // `Moved`: the container is discarded unless that fails, too.
        if !halt.FailsDiscarding? { container := None; }
        return Failed(RuntimeImageUnavailable);
      }
      meta := meta.(pin := Some(createdId));
      if halt.Crash? { return Crashed; }
      return Observed(image);
    }

    /** Removes the container and then the directory; `steps` below two stop it by a crash. */
    method Delete(steps: nat) returns (result: Result)
      modifies this
      ensures (OnDisk(), result) == Deleted(old(OnDisk()), steps)
    {
      if !managed { return Failed(WorkspaceNotManaged); }
      if container.Some? {
        var inspection := container.value;
        if inspection.image != meta.image || (meta.pin.Some? && meta.pin.value != inspection.imageId) {
          return Failed(RuntimeConfigurationMismatch);
        }
      }
      if steps == 0 { return Crashed; }
      container := None;
      if steps == 1 { return Crashed; }
      managed := false;
      return Observed(meta.image);
    }
  }

  // ---------------------------------------------------------------- what an attempt answers

  /** The container was created from what the metadata names now, or before an interrupted change. */
  predicate ComesFromMetadata(d: Disk) {
    d.container.Some? ==>
      var c := d.container.value;
      if c.image == d.meta.image then d.meta.pin in {None, Some(c.imageId)} else d.meta.previous == Some(c.image)
  }

  /** A stopped container of the image offered, from metadata that names it. */
  predicate IsDone(d: Disk, offer: Offer) {
    && d.meta.image == offer.image && d.container.Some? && d.container.value.image == offer.image
    && (offer.imageId.None? || offer.imageId.value == d.container.value.imageId)
  }

  /** The refusals of an attempt that meets no failure, each with its exact condition, in the order of the checks. */
  lemma AnswerIff(d: Disk, fromImage: ImageRef, toImage: ImageRef, offer: Option<Offer>, id: ImageId)
    requires offer.Some? ==> offer.value.image == toImage
    ensures var (after, result) := Attempt(d, fromImage, toImage, offer, id, Never);
      var known := offer.Some? && d.managed && (d.meta.image == fromImage || d.meta.image == toImage);
      var sound := known && ComesFromMetadata(d);
      var up := d.container.Some? && d.container.value.running;
      var done := sound && !up && IsDone(d, offer.value);
      var moved := offer.Some? && offer.value.imageId.Some? && offer.value.imageId.value != id;
      && (result == Failed(RuntimeImageUnavailable) <==> offer.None? || (sound && !up && !done && moved))
      && (result == Failed(WorkspaceNotManaged) <==> offer.Some? && !d.managed)
      && (result == Failed(WorkspaceMetadataMismatch) <==> offer.Some? && d.managed && !known)
      && (result == Failed(RuntimeConfigurationMismatch) <==> known && !sound)
      && (result == Failed(WorkspaceRunning) <==> sound && up)
      && (result == Observed(toImage) <==> sound && !up && (done || !moved))
      && after == (
        if !sound || up || done then d
        else
          var previous := if d.meta.image == toImage then d.meta.previous else Some(fromImage);
          var pin := if !moved then Some(id) else if d.meta.image == toImage then d.meta.pin else None;
          Disk(Metadata(toImage, previous, pin), if moved then None else Some(Container(toImage, id, false)), true))
  {
  }

  /** The attempt goes past its checks. */
  predicate GoesAhead(d: Disk, fromImage: ImageRef, toImage: ImageRef, offer: Offer) {
    && d.managed && (d.meta.image == fromImage || d.meta.image == toImage) && ComesFromMetadata(d)
    && !(d.container.Some? && d.container.value.running) && !IsDone(d, offer)
  }

  /** What each crash and failure of an attempt past its checks leaves behind, and what is answered. */
  lemma HaltIff(d: Disk, fromImage: ImageRef, toImage: ImageRef, offer: Offer, id: ImageId, halt: Halt)
    requires offer.image == toImage && GoesAhead(d, fromImage, toImage, offer) && !halt.FailsFirst?
    ensures var same := d.meta.image == toImage;
      var switched := Metadata(toImage, if same then d.meta.previous else Some(fromImage), if same then d.meta.pin else None);
      var pinned := switched.(pin := Some(id));
      var created := Some(Container(toImage, id, false));
      var moved := offer.imageId.Some? && offer.imageId.value != id;
      Attempt(d, fromImage, toImage, Some(offer), id, halt) ==
        if halt == Crash(0) then (d, Crashed)
        else if halt == Crash(1) then (Disk(switched, d.container, true), Crashed)
        else if halt.FailsRemoving? && d.container.Some? then (Disk(switched, d.container, true), Failed(RuntimeEngineError))
        else if halt == Crash(2) then (Disk(switched, None, true), Crashed)
        else if halt.FailsCreating? then (Disk(switched, None, true), Failed(RuntimeEngineError))
        else if halt == Crash(3) then (Disk(switched, created, true), Crashed)
        else if halt == FailsLookup(WorkspaceNotManaged) then (Disk(switched, None, true), Failed(WorkspaceNotManaged))
        else if halt.FailsLookup? then (Disk(switched, created, true), Failed(halt.code))
        else if moved && halt.FailsDiscarding? then (Disk(switched, created, true), Failed(RuntimeImageUnavailable))
        else if moved then (Disk(switched, None, true), Failed(RuntimeImageUnavailable))
        else if halt.Crash? then (Disk(pinned, created, true), Crashed)
        else if halt == FailsConfirming(WorkspaceNotManaged) then (Disk(pinned, None, true), Failed(WorkspaceNotManaged))
        else if halt.FailsConfirming? then (Disk(pinned, created, true), Failed(halt.code))
        else (Disk(pinned, created, true), Observed(toImage))
  {
  }

  /** Deleting removes container and directory exactly when the container, if any, is the one the metadata and its pin name. */
  lemma DeletedIff(d: Disk)
    ensures var (after, result) := Deleted(d, 2);
      var own := d.container.Some? ==>
        d.container.value.image == d.meta.image && d.meta.pin in {None, Some(d.container.value.imageId)};
      && (result == Observed(d.meta.image) <==> d.managed && own)
      && (result == Failed(WorkspaceNotManaged) <==> !d.managed)
      && (result == Failed(RuntimeConfigurationMismatch) <==> d.managed && !own)
      && after == if d.managed && own then Disk(d.meta, None, false) else d
  {
  }

  // ---------------------------------------------------------------- retrying

  function Offering(image: ImageRef, id: ImageId): Option<Offer> {
    Some(Offer(image, Some(id)))
  }

  /** Attempts with the same image ID, each crashed or failed in the given way. */
  function AfterHalts(d: Disk, fromImage: ImageRef, toImage: ImageRef, id: ImageId, halts: seq<Halt>): Disk {
    if halts == [] then d
    else
      var n := |halts| - 1;
      Attempt(AfterHalts(d, fromImage, toImage, id, halts[..n]), fromImage, toImage, Offering(toImage, id), id, halts[n]).0
  }

  predicate Completes(d: Disk, fromImage: ImageRef, toImage: ImageRef, id: ImageId) {
    Attempt(d, fromImage, toImage, Offering(toImage, id), id, Never).1 == Observed(toImage)
  }

  /**
   * What a caller can check before the attempt: a container of a third image would be stranded
   * by the metadata switch, and a pin to another image ID would outlive the new container.
   */
  predicate SurvivesHalts(d: Disk, fromImage: ImageRef, toImage: ImageRef, id: ImageId) {
    || AlreadyThere(d, Offer(toImage, Some(id)))
    || (d.meta.image == toImage && (d.meta.pin.None? || d.meta.pin == Some(id)))
    || (d.meta.image != toImage
        && (d.container.None? || d.container.value.image == fromImage || d.container.value.image == toImage))
  }

  predicate Settled(d: Disk, image: ImageRef, id: ImageId) {
    && d.managed && d.meta.image == image && (d.meta.pin.None? || d.meta.pin == Some(id))
    && d.container == Some(Container(image, id, false))
  }

  /** What every halted attempt leaves behind. */
  predicate Resumable(d: Disk, fromImage: ImageRef, toImage: ImageRef, id: ImageId) {
    && d.managed
    && SurvivesHalts(d, fromImage, toImage, id)
    && (d.meta.image == fromImage || d.meta.image == toImage)
    && (d.container.Some? ==> ContainerMatches(d.meta, d.container.value) && !d.container.value.running)
  }

  lemma ResumableCompletes(d: Disk, fromImage: ImageRef, toImage: ImageRef, id: ImageId)
    requires Resumable(d, fromImage, toImage, id)
    ensures Completes(d, fromImage, toImage, id)
    ensures Settled(Attempt(d, fromImage, toImage, Offering(toImage, id), id, Never).0, toImage, id)
  {
  }

  lemma HaltIsResumable(d: Disk, fromImage: ImageRef, toImage: ImageRef, id: ImageId, halt: Halt)
    requires Resumable(d, fromImage, toImage, id)
    ensures Resumable(Attempt(d, fromImage, toImage, Offering(toImage, id), id, halt).0, fromImage, toImage, id)
  {
  }

  /** Any number of attempts, each crashed or failed at any point, is completed by one more attempt. */
  lemma {:induction false} RetriesComplete(d: Disk, fromImage: ImageRef, toImage: ImageRef, id: ImageId, halts: seq<Halt>)
    requires Resumable(d, fromImage, toImage, id)
    ensures var after := AfterHalts(d, fromImage, toImage, id, halts);
      && Resumable(after, fromImage, toImage, id)
      && Completes(after, fromImage, toImage, id)
      && Settled(Attempt(after, fromImage, toImage, Offering(toImage, id), id, Never).0, toImage, id)
  {
    if halts != [] {
      var n := |halts| - 1;
      RetriesComplete(d, fromImage, toImage, id, halts[..n]);
      HaltIsResumable(AfterHalts(d, fromImage, toImage, id, halts[..n]), fromImage, toImage, id, halts[n]);
    }
    ResumableCompletes(AfterHalts(d, fromImage, toImage, id, halts), fromImage, toImage, id);
  }

  lemma ResumableAtFirst(d: Disk, fromImage: ImageRef, toImage: ImageRef, id: ImageId)
    requires SurvivesHalts(d, fromImage, toImage, id) && Completes(d, fromImage, toImage, id)
    ensures Resumable(d, fromImage, toImage, id)
  {
  }

  /**
   * An attempt that goes through from a given disk also goes through after every history of
   * crashed and failed attempts exactly when the disk survives them.
   */
  lemma CrashSafeIff(d: Disk, fromImage: ImageRef, toImage: ImageRef, id: ImageId)
    requires fromImage != toImage && Completes(d, fromImage, toImage, id)
    ensures (forall halts :: Completes(AfterHalts(d, fromImage, toImage, id, halts), fromImage, toImage, id))
      <==> SurvivesHalts(d, fromImage, toImage, id)
  {
    hide SurvivesHalts, Completes, AfterHalts;
    if SurvivesHalts(d, fromImage, toImage, id) {
      assert Resumable(d, fromImage, toImage, id) by { ResumableAtFirst(d, fromImage, toImage, id); }
      forall halts ensures Completes(AfterHalts(d, fromImage, toImage, id, halts), fromImage, toImage, id) {
        RetriesComplete(d, fromImage, toImage, id, halts);
      }
    } else {
      var halts := StrandingCrash(d, fromImage, toImage, id);
    }
  }

  /** Either the stale pin outlives the new container, or the old container its metadata. */
  lemma StrandingCrash(d: Disk, fromImage: ImageRef, toImage: ImageRef, id: ImageId) returns (halts: seq<Halt>)
    requires fromImage != toImage && Completes(d, fromImage, toImage, id) && !SurvivesHalts(d, fromImage, toImage, id)
    ensures !Completes(AfterHalts(d, fromImage, toImage, id, halts), fromImage, toImage, id)
  {
    var n: nat := if d.meta.image == toImage then 3 else 1;
    halts := [Crash(n)];
    assert halts[..0] == [] && AfterHalts(d, fromImage, toImage, id, []) == d;
    assert AfterHalts(d, fromImage, toImage, id, halts) == AfterSteps(d, fromImage, toImage, id, n);
  }

  // ---------------------------------------------------------------- refusals that count as "unchanged"

  /** The container the Worker is left with when an attempt ends past its checks. */
  function ContainerLeft(toImage: ImageRef, offer: Option<Offer>, id: ImageId, halt: Halt): Option<Container> {
    var created := Some(Container(toImage, id, false));
    if halt.FailsLookup? then (if halt.code == WorkspaceNotManaged then None else created)
    else if Moved(offer, id) then (if halt.FailsDiscarding? then created else None)
    else if halt.FailsConfirming? && halt.code == WorkspaceNotManaged then None
    else created
  }

  /**
   * A refusal that the Control Plane takes to mean "nothing was changed" has changed the disk
   * exactly when the checks had passed, so that the image moved or a lookup failed afterwards, and
   * the metadata was not on the target yet, or got another pin, or another container is left.
   */
  lemma UnchangedRefusalAltersIff(d: Disk, fromImage: ImageRef, toImage: ImageRef, offer: Option<Offer>, id: ImageId, halt: Halt)
    requires var result := Attempt(d, fromImage, toImage, offer, id, halt).1; result.Failed? && MeansUnchanged(result.code)
    ensures Attempt(d, fromImage, toImage, offer, id, halt).0 != d <==>
      && CheckOrFail(d, fromImage, toImage, offer, halt).None?
      && (|| d.meta.image != toImage
          || d.container != ContainerLeft(toImage, offer, id, halt)
          || (halt.FailsConfirming? && !Moved(offer, id) && d.meta.pin != Some(id)))
    ensures CheckOrFail(d, fromImage, toImage, offer, halt).None? ==>
      Moved(offer, id) || halt.FailsLookup? || halt.FailsConfirming?
  {
    if CheckOrFail(d, fromImage, toImage, offer, halt).None? {
      var after := Attempt(d, fromImage, toImage, offer, id, halt).0;
      assert after.container == ContainerLeft(toImage, offer, id, halt);
      assert after.meta.image == toImage;
    }
  }
}
