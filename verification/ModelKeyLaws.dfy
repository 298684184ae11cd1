/** What every run of the model key lifecycle guarantees, and what none does. */
module ModelKeyLaws {
  import opened Wrappers
  import opened ModelKeys

  /** A key that a Worker serves and the gateway still accepts is recorded as active or revoking. */
  lemma UsableKeyIsActiveOrRevoking(states: seq<Sys>, steps: seq<Step>, k: nat, w: WorkspaceId)
    requires IsRun(states, steps) && k < |states| && w in states[k].held
    ensures var s, a := states[k], states[k].held[w];
      && a.workspace == w && a in s.rows && s.rows[a].status != Issuing
      && (a in s.gateway ==> s.rows[a].status == Active || s.rows[a].status == Revoking)
  {
    InvOnRuns(states, steps, k);
    var a := states[k].held[w];
    assert KeyOk(states[k], a);
  }

  /** A live key belongs to an enabled user and to a Workspace that is not being deleted, and is the only one there. */
  lemma LiveKeyIsEntitled(states: seq<Sys>, steps: seq<Step>, k: nat, a: Alias)
    requires IsRun(states, steps) && k < |states|
    requires a in states[k].rows && IsLive(states[k].rows[a].status)
    ensures var s := states[k];
      && s.rows[a].user in s.enabled
      && a.workspace in s.spaces && s.spaces[a.workspace] == Space(s.rows[a].user, Assigned)
      && forall b :: b in s.rows && b.workspace == a.workspace && IsLive(s.rows[b].status) ==> b == a
  {
    InvOnRuns(states, steps, k);
    assert LiveOk(states[k], a);
  }

  /** Once the pending deletions of a disabled user are confirmed, no Worker can use a key of that user. */
  lemma DisabledUserIsCutOff(states: seq<Sys>, steps: seq<Step>, k: nat, u: UserId, w: WorkspaceId)
    requires IsRun(states, steps) && k < |states| && u !in states[k].enabled
    requires forall a :: a in states[k].rows && states[k].rows[a].user == u ==> states[k].rows[a].status != Revoking
    requires w in states[k].held && states[k].held[w] in states[k].rows
    requires states[k].rows[states[k].held[w]].user == u
    ensures states[k].held[w] !in states[k].gateway
  {
    UsableKeyIsActiveOrRevoking(states, steps, k, w);
    var a := states[k].held[w];
    if states[k].rows[a].status == Active { LiveKeyIsEntitled(states, steps, k, a); }
  }

  function Rank(s: Status): nat {
    match s
    case Issuing => 0
    case Active => 1
    case Revoking => 2
    case Revoked => 3
  }

  lemma KeepsRow(s: Sys, step: Step, a: Alias)
    requires Enabled(s, step) && KeyOk(s, a) && a in s.rows
    ensures var t := Apply(s, step);
      && a in t.rows && t.rows[a].user == s.rows[a].user && Rank(s.rows[a].status) <= Rank(t.rows[a].status)
      && a in t.phases && (s.phases[a] != Begun ==> t.phases[a] != Begun)
      && (step == CallGateway(a) ==> t.phases[a] != Begun)
  {
    hide ServeCommand, Without, HandedOut;
    if step.Serve? { ServingKeepsBooks(s.(queue := Without(s.queue, step.index)), s.queue[step.index], step.complete); }
  }

  /** An alias stays with the user it was reserved for, and its status only ever moves forward. */
  lemma {:induction false} AliasIsForever(states: seq<Sys>, steps: seq<Step>, i: nat, j: nat, a: Alias)
    requires IsRun(states, steps) && i <= j < |states| && a in states[i].rows
    ensures a in states[j].rows && states[j].rows[a].user == states[i].rows[a].user
    ensures Rank(states[i].rows[a].status) <= Rank(states[j].rows[a].status)
  {
    if i < j {
      AliasIsForever(states, steps, i, j - 1, a);
      InvOnRuns(states, steps, j - 1);
      assert KeyOk(states[j - 1], a);
      KeepsRow(states[j - 1], steps[j - 1], a);
      assert states[j - 1 + 1] == Apply(states[j - 1], steps[j - 1]);
    }
  }

  lemma {:induction false} StaysCalled(states: seq<Sys>, steps: seq<Step>, i: nat, j: nat, a: Alias)
    requires IsRun(states, steps) && i < j < |states| && steps[i] == CallGateway(a)
    ensures a in states[j].phases && states[j].phases[a] != Begun
  {
    InvOnRuns(states, steps, j - 1);
    assert KeyOk(states[j - 1], a);
    if i < j - 1 { StaysCalled(states, steps, i, j - 1, a); }
    KeepsRow(states[j - 1], steps[j - 1], a);
    assert states[j - 1 + 1] == Apply(states[j - 1], steps[j - 1]);
  }

  /** The gateway is asked for each alias at most once. */
  lemma AliasIsRequestedOnce(states: seq<Sys>, steps: seq<Step>, i: nat, j: nat, a: Alias)
    requires IsRun(states, steps) && i < j < |steps| && steps[i] == CallGateway(a)
    ensures steps[j] != CallGateway(a)
  {
    StaysCalled(states, steps, i, j, a);
    assert Enabled(states[j], steps[j]);
  }

  // ---------------------------------------------------------------- keys behind a revoked row

  /** The generate request of the key reached the gateway, and no deletion of it did afterwards. */
  ghost predicate LandedLast(steps: seq<Step>, k: nat, a: Alias)
    requires k <= |steps|
  {
    exists j :: 0 <= j < k && steps[j] == CallLands(a) && NoDeletion(steps, j + 1, k, a)
  }

  ghost predicate NoDeletion(steps: seq<Step>, from: nat, k: nat, a: Alias)
    requires k <= |steps|
  {
    forall i :: from <= i < k ==> steps[i] != DeleteLands(a)
  }

  lemma GatewayStep(s: Sys, step: Step, a: Alias)
    requires Enabled(s, step)
    ensures a in Apply(s, step).gateway <==> step == CallLands(a) || (a in s.gateway && step != DeleteLands(a))
    ensures a in Apply(s, step).confirmed <==> a in s.confirmed || step == DeleteLands(a)
  {
    hide ServeCommand, Without;
    if step.Serve? { ServingKeepsBooks(s.(queue := Without(s.queue, step.index)), s.queue[step.index], step.complete); }
  }

  lemma LandedNext(steps: seq<Step>, k: nat, a: Alias)
    requires 0 < k <= |steps|
    ensures LandedLast(steps, k, a) <==>
      steps[k - 1] == CallLands(a) || (LandedLast(steps, k - 1, a) && steps[k - 1] != DeleteLands(a))
  {
    if steps[k - 1] == CallLands(a) {
      assert NoDeletion(steps, k - 1 + 1, k, a);
    }
    if LandedLast(steps, k, a) && steps[k - 1] != CallLands(a) {
      var j :| 0 <= j < k && steps[j] == CallLands(a) && NoDeletion(steps, j + 1, k, a);
      assert NoDeletion(steps, j + 1, k - 1, a);
    }
    if LandedLast(steps, k - 1, a) {
      var j :| 0 <= j < k - 1 && steps[j] == CallLands(a) && NoDeletion(steps, j + 1, k - 1, a);
      var deletes := steps[k - 1] == DeleteLands(a);
      assert NoDeletion(steps, j + 1, k, a) <==> !deletes;
    }
  }

  /** The gateway holds exactly the keys whose request landed after their last deletion. */
  lemma {:induction false} GatewayHoldsIff(states: seq<Sys>, steps: seq<Step>, k: nat, a: Alias)
    requires IsRun(states, steps) && k < |states|
    ensures a in states[k].gateway <==> LandedLast(steps, k, a)
    ensures a in states[k].confirmed <==> !NoDeletion(steps, 0, k, a)
  {
    if k > 0 {
      GatewayHoldsIff(states, steps, k - 1, a);
      LandedNext(steps, k, a);
      hide LandedLast;
      assert states[k - 1 + 1] == Apply(states[k - 1], steps[k - 1]);
      GatewayStep(states[k - 1], steps[k - 1], a);
      hide Apply, Enabled;
    }
  }

  /**
   * Behind a revoked row, which a confirmed deletion always precedes, the gateway holds the key
   * exactly when the generate request landed after the last deletion.
   */
  lemma RevokedKeyHeldIff(states: seq<Sys>, steps: seq<Step>, k: nat, a: Alias)
    requires IsRun(states, steps) && k < |states| && a in states[k].rows && states[k].rows[a].status == Revoked
    ensures exists i :: 0 <= i < k && steps[i] == DeleteLands(a)
    ensures a in states[k].gateway <==> LandedLast(steps, k, a)
  {
    InvOnRuns(states, steps, k);
    assert KeyOk(states[k], a);
    GatewayHoldsIff(states, steps, k, a);
  }

  /** The gateway holds a key whose row says revoked. */
  predicate Orphaned(s: Sys, a: Alias) {
    a in s.gateway && a in s.rows && s.rows[a].status == Revoked
  }

  /**
   * A step orphans a key exactly when the request lands behind a revoked row, or a deletion is
   * recorded although the request has landed since.
   */
  lemma OrphanedByIff(s: Sys, step: Step, a: Alias)
    requires Enabled(s, step) && KeyOk(s, a) && !Orphaned(s, a)
    ensures Orphaned(Apply(s, step), a) <==>
      || (step == CallLands(a) && a in s.rows && s.rows[a].status == Revoked)
      || (step == RecordRevoked(a) && a in s.gateway && a in s.rows && s.rows[a].status == Revoking)
  {
    GatewayStep(s, step, a);
    hide ServeCommand, Without, HandedOut;
    if step.Serve? { ServingKeepsBooks(s.(queue := Without(s.queue, step.index)), s.queue[step.index], step.complete); }
  }

  /** Revoked, and neither handed out nor about to be. */
  predicate Withheld(s: Sys, a: Alias) {
    a in s.rows && s.rows[a].status == Revoked && a in s.phases && s.phases[a] != Activated && !HandedOut(s, a)
  }

  lemma KeepsWithheld(s: Sys, step: Step, a: Alias)
    requires Enabled(s, step) && KeyOk(s, a) && Withheld(s, a)
    ensures Withheld(Apply(s, step), a)
  {
    KeepsRow(s, step, a);
    if IsDelivery(step) {
      DeliveryHandsOutNothing(s, step, a);
      hide HandedOut, Apply, Enabled;
    } else if step.SendSet? {
      assert a != step.key;
    } else if IsIssue(step) && !step.ReserveInsert? {
      IssuingHandsOutNothing(s, step, a);
      hide HandedOut;
    } else {
      SameHandedOut(s, step, a);
      hide HandedOut;
    }
  }

  lemma SameHandedOut(s: Sys, step: Step, a: Alias)
    requires Enabled(s, step) && !IsDelivery(step) && !step.SendSet?
    ensures HandedOut(Apply(s, step), a) == HandedOut(s, a)
  {
    hide Conflicts, Without;
  }

  /** A key that is once orphaned is never served by a Worker nor on its way to one. */
  lemma {:induction false} OrphanIsNeverHandedOut(states: seq<Sys>, steps: seq<Step>, i: nat, j: nat, a: Alias)
    requires IsRun(states, steps) && i <= j < |states| && Orphaned(states[i], a)
    ensures Withheld(states[j], a)
  {
    InvOnRuns(states, steps, i);
    assert KeyOk(states[i], a);
    if i < j {
      OrphanIsNeverHandedOut(states, steps, i, j - 1, a);
      InvOnRuns(states, steps, j - 1);
      assert KeyOk(states[j - 1], a);
      hide KeyOk, Withheld, Orphaned;
      KeepsWithheld(states[j - 1], steps[j - 1], a);
      assert states[j - 1 + 1] == Apply(states[j - 1], steps[j - 1]);
    }
  }

  // ---------------------------------------------------------------- what no run guarantees

  lemma ExtendRun(states: seq<Sys>, steps: seq<Step>, step: Step) returns (longer: seq<Sys>, more: seq<Step>)
    requires IsRun(states, steps) && Enabled(states[|steps|], step)
    ensures IsRun(longer, more) && |more| == |steps| + 1 && longer[|more|] == Apply(states[|steps|], step)
  {
    longer, more := states + [Apply(states[|steps|], step)], steps + [step];
  }

  const FIRST: Alias := Alias(0, 1)

  lemma ReservedRun() returns (states: seq<Sys>, steps: seq<Step>)
    ensures IsRun(states, steps)
    ensures var s := states[|steps|];
      s.rows == map[] && s.phases == map[] && s.calls == {} && s.reservations == [Reservation(0, 0, 1)]
  {
    states, steps := [Sys({0}, map[], map[], [], map[], {}, {}, {}, [], map[], map[])], [];
    states, steps := ExtendRun(states, steps, CreateSpace(0, 0));
    states, steps := ExtendRun(states, steps, AssignSpace(0));
    states, steps := ExtendRun(states, steps, ReserveRead(0, 1));
  }

  lemma CalledRun() returns (states: seq<Sys>, steps: seq<Step>)
    ensures IsRun(states, steps)
    ensures var s := states[|steps|];
      s.rows == map[FIRST := KeyRow(0, Issuing, true)] && s.phases == map[FIRST := Calling] && s.calls == {FIRST}
  {
    states, steps := ReservedRun();
    hide IsRun;
    states, steps := ExtendRun(states, steps, ReserveInsert(0));
    states, steps := ExtendRun(states, steps, CallGateway(FIRST));
  }

  /**
   * The gateway may hold a key whose row says revoked: the deletion was confirmed before the
   * request that creates the key, given up by its caller, arrived. Nobody knows its secret.
   */
  lemma UndeliveredKeyOutlivesItsRow() returns (states: seq<Sys>, steps: seq<Step>)
    ensures IsRun(states, steps)
    ensures var s := states[|steps|]; FIRST in s.gateway && FIRST in s.rows && s.rows[FIRST].status == Revoked
  {
    states, steps := CalledRun();
    hide IsRun;
    states, steps := ExtendRun(states, steps, FailIssue(FIRST, true));
    states, steps := ExtendRun(states, steps, DeleteLands(FIRST));
    states, steps := ExtendRun(states, steps, RecordRevoked(FIRST));
    states, steps := ExtendRun(states, steps, CallLands(FIRST));
  }
}
