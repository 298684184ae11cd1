/**
 * The life of a Workspace's virtual model key between the database, the model gateway and the
 * Worker that serves it. Every SQL statement or transaction is one step; gateway calls and Worker
 * commands are under way between steps, may be lost, and may take effect after their caller gave
 * up. An issue transaction is two steps, its locked read and its insert.
 */
module ModelKeys {
  import opened Wrappers

  type WorkspaceId = nat
  type UserId = nat

  /** `arw-<workspace>-<n>`, the name of a key in the table and at the gateway. */
  datatype Alias = Alias(workspace: WorkspaceId, n: nat)

  datatype Status = Issuing | Active | Revoking | Revoked

  /** `linked` until the Workspace row is deleted, which sets the reference to null. */
  datatype KeyRow = KeyRow(user: UserId, status: Status, linked: bool)

  type KeyTable = map<Alias, KeyRow>

  datatype Stage = Unassigned | Assigned | Deleting

  datatype Space = Space(user: UserId, stage: Stage)

  /** An issue transaction between its locked read and its insert. */
  datatype Reservation = Reservation(workspace: WorkspaceId, user: UserId, next: nat)

  /** How far the handler that issues a key has come. */
  datatype Phase = Begun | Calling | Answered | Activated | Over

  datatype Command = SetKey(key: Alias) | ClearKey(key: Alias)

  /**
   * `calls` are generate requests that have not reached the gateway yet; `confirmed` are aliases
   * the gateway once reported as deleted; `files` is what a Worker has on disk, `held` what it
   * serves.
   */
  datatype Sys = Sys(
    enabled: set<UserId>, spaces: map<WorkspaceId, Space>, rows: KeyTable, reservations: seq<Reservation>,
    phases: map<Alias, Phase>, calls: set<Alias>, gateway: set<Alias>, confirmed: set<Alias>,
    queue: seq<Command>, files: map<WorkspaceId, Alias>, held: map<WorkspaceId, Alias>)

  datatype Step =
    | EnableUser(user: UserId)
    | DisableUser(user: UserId)
    | CreateSpace(workspace: WorkspaceId, user: UserId)
    | AssignSpace(workspace: WorkspaceId)
    | BeginDelete(workspace: WorkspaceId)
    | FailDelete(workspace: WorkspaceId)
    | RemoveSpace(workspace: WorkspaceId)
    | ReserveRead(workspace: WorkspaceId, next: nat)
    | ReserveInsert(index: nat)
    | CallGateway(key: Alias)
    | CallLands(key: Alias)
    | CallRefused(key: Alias)
    | FailIssue(key: Alias, recorded: bool)
    | Activate(key: Alias)
    | SendSet(key: Alias, delivered: bool)
    | SendClear(key: Alias)
    | RequestRevoke(keys: set<Alias>)
    | DeleteLands(key: Alias)
    | RecordRevoked(key: Alias)
    | Serve(index: nat, complete: bool)
    | Lose(index: nat)
    | Restart
    | RemoveDirectory(workspace: WorkspaceId)
    | Forget(workspace: WorkspaceId)

  predicate IsLive(s: Status) {
    s == Issuing || s == Active
  }

  predicate HasLive(rows: KeyTable, w: WorkspaceId) {
    exists a :: a in rows && a.workspace == w && IsLive(rows[a].status)
  }

  /** One more than the highest number used for the Workspace, one when there is none. */
  predicate IsNext(rows: KeyTable, w: WorkspaceId, n: nat) {
    && (forall a :: a in rows && a.workspace == w ==> a.n < n)
    && (n == 1 || (n > 1 && Alias(w, n - 1) in rows))
  }

  // ---------------------------------------------------------------- SQL statements

  /** Starts revoking the given keys that are live. */
  function Revoke(rows: KeyTable, keys: set<Alias>): KeyTable {
    map a | a in rows :: if a in keys && IsLive(rows[a].status) then rows[a].(status := Revoking) else rows[a]
  }

  function OfUser(rows: KeyTable, u: UserId): set<Alias> {
    set a | a in rows && rows[a].user == u
  }

  function OfWorkspace(rows: KeyTable, w: WorkspaceId): set<Alias> {
    set a | a in rows && rows[a].linked && a.workspace == w
  }

  function Unlink(rows: KeyTable, w: WorkspaceId): KeyTable {
    map a | a in rows :: if a.workspace == w then rows[a].(linked := false) else rows[a]
  }

  /** The insert of an issue: nothing happens when the alias is taken or another key is live. */
  predicate Conflicts(rows: KeyTable, r: Reservation) {
    Alias(r.workspace, r.next) in rows || HasLive(rows, r.workspace)
  }

  function ActivateRow(rows: KeyTable, key: Alias): KeyTable {
    if key in rows && rows[key].status == Issuing then rows[key := rows[key].(status := Active)] else rows
  }

  function RevokedRow(rows: KeyTable, key: Alias): KeyTable {
    if key in rows && rows[key].status == Revoking then rows[key := rows[key].(status := Revoked)] else rows
  }

  // ---------------------------------------------------------------- steps

  predicate ReservingUser(s: Sys, u: UserId) {
    exists r :: r in s.reservations && r.user == u
  }

  predicate ReservingWorkspace(s: Sys, w: WorkspaceId) {
    exists r :: r in s.reservations && r.workspace == w
  }

  predicate Enabled(s: Sys, step: Step) {
    match step
    case EnableUser(u) => true
    case DisableUser(u) => !ReservingUser(s, u)
    case CreateSpace(w, _) => w !in s.spaces && forall a :: a in s.rows ==> a.workspace != w
    case AssignSpace(w) => w in s.spaces && s.spaces[w].stage == Unassigned
    case BeginDelete(w) => w in s.spaces && s.spaces[w].stage == Assigned && !ReservingWorkspace(s, w)
    case FailDelete(w) => w in s.spaces && s.spaces[w].stage == Deleting
    case RemoveSpace(w) => w in s.spaces && !ReservingWorkspace(s, w)
    case ReserveRead(w, next) =>
      && w in s.spaces && s.spaces[w].stage == Assigned && s.spaces[w].user in s.enabled
      && !HasLive(s.rows, w) && IsNext(s.rows, w, next)
    case ReserveInsert(i) => i < |s.reservations|
    case CallGateway(a) => a in s.phases && s.phases[a] == Begun
    case CallLands(a) => a in s.calls
    case CallRefused(a) => a in s.calls
    case FailIssue(a, _) => a in s.phases && (s.phases[a] == Begun || s.phases[a] == Calling || s.phases[a] == Answered)
    case Activate(a) => a in s.phases && s.phases[a] == Answered
    case SendSet(a, _) => a in s.phases && s.phases[a] == Activated
    case SendClear(_) => true
    case RequestRevoke(_) => true
    case DeleteLands(a) => a in s.rows && (s.rows[a].status == Revoking || s.rows[a].status == Revoked)
    case RecordRevoked(a) => a in s.confirmed
    case Serve(i, _) => i < |s.queue|
    case Lose(i) => i < |s.queue|
    case Restart => true
    case RemoveDirectory(_) => true
    case Forget(_) => true
  }

  function Without<T>(xs: seq<T>, i: nat): seq<T>
    requires i < |xs|
  {
    xs[..i] + xs[i + 1..]
  }

  /** The holding is dropped exactly when it is this key. */
  function ClearHeld(held: map<WorkspaceId, Alias>, w: WorkspaceId, key: Alias): map<WorkspaceId, Alias> {
    if w in held && held[w] == key then held - {w} else held
  }

  /** A Worker stores a key before it serves it, and stops serving one before it removes it. */
  function ServeCommand(s: Sys, c: Command, complete: bool): Sys {
    match c
    case SetKey(a) =>
      s.(files := s.files[a.workspace := a], held := if complete then s.held[a.workspace := a] else s.held)
    case ClearKey(a) =>
      if a.workspace in s.held && s.held[a.workspace] != a then s
      else
        s.(held := ClearHeld(s.held, a.workspace, a),
           files := if complete && a.workspace in s.files && s.files[a.workspace] == a
                    then s.files - {a.workspace} else s.files)
  }

  function InsertStep(s: Sys, i: nat): Sys
    requires i < |s.reservations|
  {
    var r := s.reservations[i];
    var rest := s.(reservations := Without(s.reservations, i));
    if Conflicts(s.rows, r) then rest
    else
      var a := Alias(r.workspace, r.next);
      rest.(rows := s.rows[a := KeyRow(r.user, Issuing, true)], phases := s.phases[a := Begun])
  }

  function Apply(s: Sys, step: Step): Sys
    requires Enabled(s, step)
  {
    match step
    case EnableUser(u) => s.(enabled := s.enabled + {u})
    case DisableUser(u) => s.(enabled := s.enabled - {u}, rows := Revoke(s.rows, OfUser(s.rows, u)))
    case CreateSpace(w, u) => s.(spaces := s.spaces[w := Space(u, Unassigned)])
    case AssignSpace(w) => s.(spaces := s.spaces[w := s.spaces[w].(stage := Assigned)])
    case BeginDelete(w) =>
      s.(spaces := s.spaces[w := s.spaces[w].(stage := Deleting)], rows := Revoke(s.rows, OfWorkspace(s.rows, w)))
    case FailDelete(w) => s.(spaces := s.spaces[w := s.spaces[w].(stage := Assigned)])
    case RemoveSpace(w) => s.(spaces := s.spaces - {w}, rows := Unlink(Revoke(s.rows, OfWorkspace(s.rows, w)), w))
    case ReserveRead(w, next) => s.(reservations := s.reservations + [Reservation(w, s.spaces[w].user, next)])
    case ReserveInsert(i) => InsertStep(s, i)
    case CallGateway(a) => s.(phases := s.phases[a := Calling], calls := s.calls + {a})
    case CallLands(a) =>
      s.(calls := s.calls - {a}, gateway := s.gateway + {a},
         phases := if a in s.phases && s.phases[a] == Calling then s.phases[a := Answered] else s.phases)
    case CallRefused(a) => s.(calls := s.calls - {a})
    case FailIssue(a, recorded) => s.(phases := s.phases[a := Over], rows := if recorded then Revoke(s.rows, {a}) else s.rows)
    case Activate(a) =>
      s.(rows := ActivateRow(s.rows, a),
         phases := s.phases[a := if a in s.rows && s.rows[a].status == Issuing then Activated else Over])
    case SendSet(a, delivered) =>
      s.(phases := s.phases[a := Over], queue := if delivered then s.queue + [SetKey(a)] else s.queue)
    case SendClear(a) => s.(queue := s.queue + [ClearKey(a)])
    case RequestRevoke(keys) => s.(rows := Revoke(s.rows, keys))
    case DeleteLands(a) => s.(gateway := s.gateway - {a}, confirmed := s.confirmed + {a})
    case RecordRevoked(a) => s.(rows := RevokedRow(s.rows, a))
    case Serve(i, complete) => ServeCommand(s.(queue := Without(s.queue, i)), s.queue[i], complete)
    case Lose(i) => s.(queue := Without(s.queue, i))
    case Restart => s.(held := s.files)
    case RemoveDirectory(w) => s.(files := s.files - {w})
    case Forget(w) => s.(held := s.held - {w})
  }

  ghost predicate Initial(s: Sys) {
    && s.spaces == map[] && s.rows == map[] && s.reservations == [] && s.phases == map[]
    && s.calls == {} && s.gateway == {} && s.confirmed == {} && s.queue == [] && s.files == map[] && s.held == map[]
  }

  ghost predicate IsRun(states: seq<Sys>, steps: seq<Step>) {
    && |states| == |steps| + 1
    && Initial(states[0])
    && forall k :: 0 <= k < |steps| ==> Enabled(states[k], steps[k]) && states[k + 1] == Apply(states[k], steps[k])
  }

  // ---------------------------------------------------------------- the invariant

  /** Handed to a Worker, whether it serves it, has it on disk or is still being told. */
  predicate HandedOut(s: Sys, a: Alias) {
    || SetKey(a) in s.queue
    || (a.workspace in s.files && s.files[a.workspace] == a)
    || (a.workspace in s.held && s.held[a.workspace] == a)
  }

  predicate KeyOk(s: Sys, a: Alias) {
    && (a in s.phases <==> a in s.rows)
    && (a in s.gateway || a in s.calls || a in s.confirmed || HandedOut(s, a) ==> a in s.rows)
    && (a in s.rows ==>
        && (a in s.calls ==> s.phases[a] == Calling || s.phases[a] == Over)
        && (HandedOut(s, a) ==> s.phases[a] == Over)
        && (HandedOut(s, a) || s.phases[a] == Activated ==>
            && a !in s.calls && s.rows[a].status != Issuing
            && (a in s.confirmed ==> a !in s.gateway))
        && (s.rows[a].status == Revoked ==> a in s.confirmed)
        && (a in s.confirmed ==> !IsLive(s.rows[a].status)))
  }

  predicate LiveOk(s: Sys, a: Alias) {
    a in s.rows && IsLive(s.rows[a].status) ==>
      && s.rows[a].linked && s.rows[a].user in s.enabled
      && a.workspace in s.spaces && s.spaces[a.workspace] == Space(s.rows[a].user, Assigned)
  }

  ghost predicate OneLive(rows: KeyTable) {
    forall a, b :: a in rows && b in rows && a.workspace == b.workspace && IsLive(rows[a].status) && IsLive(rows[b].status)
      ==> a == b
  }

  ghost predicate LocksOk(s: Sys) {
    forall r :: r in s.reservations ==>
      r.user in s.enabled && r.workspace in s.spaces && s.spaces[r.workspace] == Space(r.user, Assigned)
  }

  ghost predicate PlacesOk(s: Sys) {
    && (forall w :: w in s.files ==> s.files[w].workspace == w)
    && (forall w :: w in s.held ==> s.held[w].workspace == w)
  }

  ghost predicate Inv(s: Sys) {
    && (forall a :: KeyOk(s, a))
    && (forall a :: LiveOk(s, a))
    && OneLive(s.rows)
    && LocksOk(s)
    && PlacesOk(s)
  }

  predicate IsIssue(step: Step) {
    step.ReserveRead? || step.ReserveInsert? || step.CallGateway? || step.FailIssue? || step.Activate? || step.SendSet?
  }

  predicate IsDelivery(step: Step) {
    step.SendClear? || step.Serve? || step.Lose? || step.Restart? || step.RemoveDirectory? || step.Forget?
  }

  predicate IsGateway(step: Step) {
    step.CallLands? || step.CallRefused? || step.DeleteLands? || step.RecordRevoked?
  }

  lemma InsertKeepsKey(s: Sys, i: nat, a: Alias)
    requires i < |s.reservations| && KeyOk(s, a)
    ensures KeyOk(InsertStep(s, i), a)
  {
    var t := InsertStep(s, i);
    hide Conflicts, Without;
    assert HandedOut(t, a) == HandedOut(s, a);
    hide HandedOut;
  }

  /** Sending the key hands it out; its row was active once, and its generate call is over. */
  lemma SendKeepsKey(s: Sys, key: Alias, delivered: bool, a: Alias)
    requires Enabled(s, SendSet(key, delivered)) && KeyOk(s, a)
    ensures KeyOk(Apply(s, SendSet(key, delivered)), a)
  {
    var t := Apply(s, SendSet(key, delivered));
    assert HandedOut(t, a) ==> HandedOut(s, a) || a == key;
    hide HandedOut;
  }

  lemma IssueKeepsKey(s: Sys, step: Step, a: Alias)
    requires Enabled(s, step) && KeyOk(s, a) && IsIssue(step)
    ensures KeyOk(Apply(s, step), a)
  {
    if step.ReserveInsert? {
      InsertKeepsKey(s, step.index, a);
    } else if step.SendSet? {
      SendKeepsKey(s, step.key, step.delivered, a);
    } else {
      IssuingHandsOutNothing(s, step, a);
      hide HandedOut;
    }
  }

  lemma IssuingHandsOutNothing(s: Sys, step: Step, a: Alias)
    requires Enabled(s, step) && IsIssue(step) && !step.ReserveInsert? && !step.SendSet?
    ensures HandedOut(Apply(s, step), a) == HandedOut(s, a)
  {
  }

  lemma GatewayKeepsKey(s: Sys, step: Step, a: Alias)
    requires Enabled(s, step) && KeyOk(s, a) && IsGateway(step)
    ensures KeyOk(Apply(s, step), a)
  {
  }

  lemma WithoutMember<T>(xs: seq<T>, i: nat, x: T)
    requires i < |xs|
    ensures x in Without(xs, i) ==> x in xs
  {
  }

  /** Delivering never hands out a key that was not handed out before. */
  lemma ServingHandsOutNothing(s: Sys, i: nat, complete: bool, a: Alias)
    requires i < |s.queue|
    ensures HandedOut(ServeCommand(s.(queue := Without(s.queue, i)), s.queue[i], complete), a) ==> HandedOut(s, a)
  {
    WithoutMember(s.queue, i, SetKey(a));
    var c := s.queue[i];
    assert c in s.queue;
    hide Without;
  }

  lemma DeliveryHandsOutNothing(s: Sys, step: Step, a: Alias)
    requires Enabled(s, step) && IsDelivery(step)
    ensures HandedOut(Apply(s, step), a) ==> HandedOut(s, a)
    ensures var t := Apply(s, step); t == s.(queue := t.queue, files := t.files, held := t.held)
  {
    match step
    case Serve(i, complete) => ServingHandsOutNothing(s, i, complete, a);
    case Lose(i) => WithoutMember(s.queue, i, SetKey(a));
    case _ =>
  }

  lemma DeliveryKeepsKey(s: Sys, step: Step, a: Alias)
    requires Enabled(s, step) && KeyOk(s, a) && IsDelivery(step)
    ensures KeyOk(Apply(s, step), a)
  {
    DeliveryHandsOutNothing(s, step, a);
    hide HandedOut, Apply, Enabled;
  }

  lemma AdministrationKeepsKey(s: Sys, step: Step, a: Alias)
    requires Enabled(s, step) && KeyOk(s, a) && !IsIssue(step) && !IsGateway(step) && !IsDelivery(step)
    ensures KeyOk(Apply(s, step), a)
  {
    var t := Apply(s, step);
    assert a in t.rows <==> a in s.rows;
    assert a in s.rows ==> t.rows[a].status == s.rows[a].status || t.rows[a].status == Revoking;
  }

  lemma IssueKeepsLive(s: Sys, step: Step, a: Alias)
    requires Enabled(s, step) && LiveOk(s, a) && LocksOk(s) && IsIssue(step)
    ensures LiveOk(Apply(s, step), a)
  {
    if step.ReserveInsert? {
      var r := s.reservations[step.index];
      assert r in s.reservations;
      hide Conflicts, Without;
    }
  }

  lemma OtherKeepsLive(s: Sys, step: Step, a: Alias)
    requires Enabled(s, step) && LiveOk(s, a) && !IsIssue(step)
    ensures LiveOk(Apply(s, step), a)
  {
    hide ServeCommand, Without;
    if step.Serve? { ServingKeepsBooks(s.(queue := Without(s.queue, step.index)), s.queue[step.index], step.complete); }
  }

  lemma ServingKeepsBooks(s: Sys, c: Command, complete: bool)
    ensures var t := ServeCommand(s, c, complete); t == s.(files := t.files, held := t.held)
  {
  }

  /** A key becomes live only by an insert that no live key of the Workspace stopped. */
  lemma LiveBefore(s: Sys, step: Step, a: Alias)
    requires Enabled(s, step)
    ensures var t := Apply(s, step);
      a in t.rows && IsLive(t.rows[a].status) ==>
        || (a in s.rows && IsLive(s.rows[a].status))
        || (step.ReserveInsert? && a.workspace == s.reservations[step.index].workspace && !HasLive(s.rows, a.workspace)
            && a.n == s.reservations[step.index].next)
  {
    hide ServeCommand, Without;
    if step.Serve? { ServingKeepsBooks(s.(queue := Without(s.queue, step.index)), s.queue[step.index], step.complete); }
  }

  lemma KeepsOneLive(s: Sys, step: Step)
    requires Enabled(s, step) && OneLive(s.rows)
    ensures OneLive(Apply(s, step).rows)
  {
    var t := Apply(s, step);
    hide Apply, Enabled;
    forall a, b | a in t.rows && b in t.rows && a.workspace == b.workspace && IsLive(t.rows[a].status) && IsLive(t.rows[b].status)
      ensures a == b
    {
      LiveBefore(s, step, a);
      LiveBefore(s, step, b);
    }
  }

  lemma KeepsLocks(s: Sys, step: Step)
    requires Enabled(s, step) && LocksOk(s)
    ensures LocksOk(Apply(s, step))
  {
    hide ServeCommand, Without;
    if step.Serve? {
      ServingKeepsBooks(s.(queue := Without(s.queue, step.index)), s.queue[step.index], step.complete);
    } else if step.ReserveInsert? {
      forall r ensures r in Without(s.reservations, step.index) ==> r in s.reservations {
        WithoutMember(s.reservations, step.index, r);
      }
    }
  }

  lemma KeepsPlaces(s: Sys, step: Step)
    requires Enabled(s, step) && PlacesOk(s)
    ensures PlacesOk(Apply(s, step))
  {
    hide ServeCommand, Without, Conflicts;
    if step.Serve? { ServingKeepsPlaces(s.(queue := Without(s.queue, step.index)), s.queue[step.index], step.complete); }
  }

  lemma ServingKeepsPlaces(s: Sys, c: Command, complete: bool)
    requires PlacesOk(s)
    ensures PlacesOk(ServeCommand(s, c, complete))
  {
  }

  lemma KeepsInvariant(s: Sys, step: Step)
    requires Enabled(s, step) && Inv(s)
    ensures Inv(Apply(s, step))
  {
    var t := Apply(s, step);
    KeepsOneLive(s, step);
    KeepsLocks(s, step);
    KeepsPlaces(s, step);
    hide Apply, Enabled, LiveOk, KeyOk, OneLive, LocksOk, PlacesOk;
    forall a ensures KeyOk(t, a) {
      assert KeyOk(s, a);
      if IsIssue(step) { IssueKeepsKey(s, step, a); }
      else if IsGateway(step) { GatewayKeepsKey(s, step, a); }
      else if IsDelivery(step) { DeliveryKeepsKey(s, step, a); }
      else { AdministrationKeepsKey(s, step, a); }
    }
    forall a ensures LiveOk(t, a) {
      assert LiveOk(s, a);
      if IsIssue(step) { IssueKeepsLive(s, step, a); } else { OtherKeepsLive(s, step, a); }
    }
  }

  lemma {:induction false} InvOnRuns(states: seq<Sys>, steps: seq<Step>, k: nat)
    requires IsRun(states, steps) && k < |states|
    ensures Inv(states[k])
  {
    if k > 0 {
      InvOnRuns(states, steps, k - 1);
      KeepsInvariant(states[k - 1], steps[k - 1]);
      assert states[k - 1 + 1] == Apply(states[k - 1], steps[k - 1]);
    }
  }
}
