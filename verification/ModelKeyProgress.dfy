/** What an undisturbed issue and an undisturbed revocation of a model key achieve, and what moves a key's status. */
module ModelKeyProgress {
  import opened Wrappers
  import opened ModelKeys
  import ModelKeyLaws

  predicate Is(rows: KeyTable, a: Alias, status: Status) {
    a in rows && rows[a].status == status
  }

  /** The step makes the key's status what it was not. */
  predicate Becomes(s: Sys, step: Step, a: Alias, status: Status)
    requires Enabled(s, step)
  {
    Is(Apply(s, step).rows, a, status) && !Is(s.rows, a, status)
  }

  /** The step gives up the key: its user, its Workspace or the key itself is named. */
  predicate GivesUp(s: Sys, step: Step, a: Alias)
    requires a in s.rows
  {
    || step == DisableUser(s.rows[a].user)
    || (s.rows[a].linked && (step == BeginDelete(a.workspace) || step == RemoveSpace(a.workspace)))
    || (step.RequestRevoke? && a in step.keys)
    || step == FailIssue(a, true)
  }

  /** The key is inserted: its alias is free, and its Workspace has no live key. */
  predicate Inserts(s: Sys, step: Step, a: Alias)
    requires Enabled(s, step)
  {
    && step.ReserveInsert? && a !in s.rows && !HasLive(s.rows, a.workspace)
    && s.reservations[step.index].workspace == a.workspace && s.reservations[step.index].next == a.n
  }

  predicate MovesRightly(s: Sys, step: Step, a: Alias)
    requires Enabled(s, step)
  {
    && (Becomes(s, step, a, Issuing) <==> Inserts(s, step, a))
    && (Becomes(s, step, a, Active) <==> step == Activate(a) && Is(s.rows, a, Issuing))
    && (Becomes(s, step, a, Revoking) <==> (Is(s.rows, a, Issuing) || Is(s.rows, a, Active)) && GivesUp(s, step, a))
    && (Becomes(s, step, a, Revoked) <==> step == RecordRevoked(a) && Is(s.rows, a, Revoking))
    && (a in s.rows ==> a in Apply(s, step).rows && Apply(s, step).rows[a].user == s.rows[a].user)
  }

  predicate IsGivingUp(step: Step) {
    step.DisableUser? || step.BeginDelete? || step.RemoveSpace? || step.RequestRevoke? || step.FailIssue?
  }

  predicate IsMove(step: Step) {
    step.ReserveInsert? || step.Activate? || step.RecordRevoked?
  }

  lemma GivenUp(s: Sys, step: Step, a: Alias)
    requires Enabled(s, step) && IsGivingUp(step)
    ensures a in Apply(s, step).rows <==> a in s.rows
    ensures a in s.rows ==>
      var row := Apply(s, step).rows[a];
      && row.user == s.rows[a].user
      && row.status == if IsLive(s.rows[a].status) && GivesUp(s, step, a) then Revoking else s.rows[a].status
  {
    hide HasLive, ReservingUser, ReservingWorkspace;
  }

  lemma GivingUpMoves(s: Sys, step: Step, a: Alias)
    requires Enabled(s, step) && IsGivingUp(step)
    ensures MovesRightly(s, step, a)
  {
    hide Apply, Enabled, HasLive, GivesUp;
    GivenUp(s, step, a);
  }

  lemma InsertMoves(s: Sys, i: nat, a: Alias)
    requires Enabled(s, ReserveInsert(i))
    ensures MovesRightly(s, ReserveInsert(i), a)
  {
    assert Apply(s, ReserveInsert(i)) == InsertStep(s, i);
    hide HasLive, Apply, ModelKeys.Without;
  }

  lemma OtherMoves(s: Sys, step: Step, a: Alias)
    requires Enabled(s, step) && (step.Activate? || step.RecordRevoked?)
    ensures MovesRightly(s, step, a)
  {
    hide HasLive;
  }

  lemma RowsStay(s: Sys, step: Step, a: Alias)
    requires Enabled(s, step) && !IsGivingUp(step) && !IsMove(step)
    ensures Apply(s, step).rows == s.rows
  {
    hide HasLive, ServeCommand, ModelKeys.Without;
    if step.Serve? { ServingKeepsBooks(s.(queue := ModelKeys.Without(s.queue, step.index)), s.queue[step.index], step.complete); }
  }

  lemma RowsStayRightly(s: Sys, step: Step, a: Alias)
    requires Enabled(s, step) && !IsGivingUp(step) && !IsMove(step) && Apply(s, step).rows == s.rows
    ensures MovesRightly(s, step, a)
  {
    hide Apply, HasLive;
  }

  /**
   * What exactly moves a key's status: the insert of a free alias for a Workspace without a live
   * key, an activation of an issuing row, a step that gives up a live key, and a recorded deletion.
   */
  lemma StatusMovesIff(s: Sys, step: Step, a: Alias)
    requires Enabled(s, step)
    ensures Becomes(s, step, a, Issuing) <==>
      && step.ReserveInsert? && a !in s.rows && !HasLive(s.rows, a.workspace)
      && s.reservations[step.index].workspace == a.workspace && s.reservations[step.index].next == a.n
    ensures Becomes(s, step, a, Active) <==> step == Activate(a) && Is(s.rows, a, Issuing)
    ensures Becomes(s, step, a, Revoking) <==>
      (Is(s.rows, a, Issuing) || Is(s.rows, a, Active)) && GivesUp(s, step, a)
    ensures Becomes(s, step, a, Revoked) <==> step == RecordRevoked(a) && Is(s.rows, a, Revoking)
    ensures a in s.rows ==> a in Apply(s, step).rows && Apply(s, step).rows[a].user == s.rows[a].user
  {
    hide Apply, HasLive, Becomes, GivesUp, Is;
    if IsGivingUp(step) {
      GivingUpMoves(s, step, a);
    } else if step.ReserveInsert? {
      InsertMoves(s, step.index, a);
    } else if IsMove(step) {
      OtherMoves(s, step, a);
    } else {
      RowsStay(s, step, a);
      RowsStayRightly(s, step, a);
    }
  }

  /** What exactly changes who is enabled, and which Workspaces there are and how far their lives have come. */
  lemma SpacesMoveIff(s: Sys, step: Step, u: UserId, w: WorkspaceId)
    requires Enabled(s, step)
    ensures var t := Apply(s, step);
      && (u in t.enabled <==> step == EnableUser(u) || (u in s.enabled && step != DisableUser(u)))
      && (w in t.spaces <==> (w in s.spaces && step != RemoveSpace(w)) || (step.CreateSpace? && step.workspace == w))
      && (w in s.spaces && w in t.spaces ==>
          && t.spaces[w].user == s.spaces[w].user
          && t.spaces[w].stage ==
            if step == AssignSpace(w) || step == FailDelete(w) then Assigned
            else if step == BeginDelete(w) then Deleting
            else s.spaces[w].stage)
      && (step.CreateSpace? && step.workspace == w ==> t.spaces[w] == Space(step.user, Unassigned))
  {
    hide HasLive, ServeCommand, ModelKeys.Without, ReservingUser, ReservingWorkspace, Revoke, Unlink, ActivateRow, RevokedRow;
    if step.Serve? { ServingKeepsBooks(s.(queue := ModelKeys.Without(s.queue, step.index)), s.queue[step.index], step.complete); }
  }

  /** What exactly changes the requests under way. */
  lemma RequestsMoveIff(s: Sys, step: Step, a: Alias)
    requires Enabled(s, step)
    ensures a in Apply(s, step).calls <==>
      step == CallGateway(a) || (a in s.calls && step != CallLands(a) && step != CallRefused(a))
  {
    hide HasLive, ServeCommand, ModelKeys.Without, ReservingUser, ReservingWorkspace, Revoke, Unlink, ActivateRow, RevokedRow;
    if step.Serve? { ServingKeepsBooks(s.(queue := ModelKeys.Without(s.queue, step.index)), s.queue[step.index], step.complete); }
  }

  /** A row loses its link to the Workspace exactly when the Workspace is removed. */
  lemma LinkMovesIff(s: Sys, step: Step, a: Alias)
    requires Enabled(s, step) && a in s.rows && a in Apply(s, step).rows
    ensures Apply(s, step).rows[a].linked <==> s.rows[a].linked && step != RemoveSpace(a.workspace)
  {
    hide HasLive, ServeCommand, ModelKeys.Without, ReservingUser, ReservingWorkspace;
    if step.Serve? { ServingKeepsBooks(s.(queue := ModelKeys.Without(s.queue, step.index)), s.queue[step.index], step.complete); }
  }

  /** The next number of a Workspace is one and only one, and its alias is free. */
  lemma NextIsUnique(rows: KeyTable, w: WorkspaceId, n: nat, m: nat)
    requires IsNext(rows, w, n)
    ensures Alias(w, n) !in rows
    ensures IsNext(rows, w, m) <==> n == m
  {
    if m > 1 && Alias(w, m - 1) in rows { assert m - 1 < n; }
    if n > 1 && Alias(w, n - 1) in rows && IsNext(rows, w, m) { assert n - 1 < m; }
  }

  lemma {:induction false} Largest(numbers: set<nat>) returns (m: nat)
    requires numbers != {}
    ensures m in numbers && forall k :: k in numbers ==> k <= m
  {
    var x :| x in numbers;
    m := x;
    var others := numbers - {x};
    if others != {} {
      var rest := Largest(others);
      m := if rest > x then rest else x;
    }
    forall k | k in numbers ensures k <= m { assert k == x || k in others; }
  }

  lemma NextExists(rows: KeyTable, w: WorkspaceId) returns (n: nat)
    ensures IsNext(rows, w, n) && Alias(w, n) !in rows
  {
    var used := set a | a in rows && a.workspace == w :: a.n;
    n := 1;
    if used != {} {
      var m := Largest(used);
      n := m + 1;
      forall a | a in rows && a.workspace == w ensures a.n < n { assert a.n in used; }
      var a :| a in rows && a.workspace == w && a.n == m;
      assert a == Alias(w, m);
    } else {
      forall a | a in rows ensures a.workspace != w { assert a.workspace == w ==> a.n in used; }
    }
  }

  // ---------------------------------------------------------------- steps that follow each other

  /** The steps can be taken one after the other and lead to the state. */
  ghost predicate Takes(s: Sys, added: seq<Step>, t: Sys)
    decreases |added|
  {
    if added == [] then s == t
    else Enabled(s, added[0]) && Takes(Apply(s, added[0]), added[1..], t)
  }

  lemma {:induction false} TakesBoth(s: Sys, first: seq<Step>, t: Sys, second: seq<Step>, u: Sys)
    requires Takes(s, first, t) && Takes(t, second, u)
    ensures Takes(s, first + second, u)
    decreases |first|
  {
    hide Apply, Enabled;
    if first == [] {
      assert first + second == second;
    } else {
      assert (first + second)[1..] == first[1..] + second;
      TakesBoth(Apply(s, first[0]), first[1..], t, second, u);
    }
  }

  lemma TakesOne(s: Sys, step: Step)
    requires Enabled(s, step)
    ensures Takes(s, [step], Apply(s, step))
  {
    hide Apply, Enabled;
    assert [step][1..] == [];
  }

  lemma TakesMore(s: Sys, before: seq<Step>, t: Sys, step: Step, u: Sys)
    requires Takes(s, before, t) && Enabled(t, step) && u == Apply(t, step)
    ensures Takes(s, before + [step], u)
  {
    TakesOne(t, step);
    TakesBoth(s, before, t, [step], u);
  }

  /** The run goes on with these steps. */
  ghost predicate Extends(states: seq<Sys>, steps: seq<Step>, longer: seq<Sys>, more: seq<Step>, added: seq<Step>) {
    IsRun(longer, more) && more == steps + added && |longer| == |states| + |added| && states <= longer
  }

  lemma {:induction false} TakesExtends(states: seq<Sys>, steps: seq<Step>, added: seq<Step>, t: Sys)
    returns (longer: seq<Sys>, more: seq<Step>)
    requires IsRun(states, steps) && Takes(states[|steps|], added, t)
    ensures Extends(states, steps, longer, more, added) && longer[|more|] == t
    decreases |added|
  {
    if added == [] {
      longer, more := states, steps;
      assert steps + added == steps;
    } else {
      var next := Apply(states[|steps|], added[0]);
      var one, taken := ModelKeyLaws.ExtendRun(states, steps, added[0]);
      longer, more := TakesExtends(states + [next], steps + [added[0]], added[1..], t);
      assert steps + [added[0]] + added[1..] == steps + added;
      assert states <= states + [next];
    }
  }

  // ---------------------------------------------------------------- an issue

  /** The steps of an issue that nothing disturbs: up to the gateway call, and from its landing on. */
  function RequestSteps(s: Sys, a: Alias): seq<Step> {
    [ReserveRead(a.workspace, a.n)] + [ReserveInsert(|s.reservations|)] + [CallGateway(a)]
  }

  function DeliverySteps(s: Sys, a: Alias): seq<Step> {
    [CallLands(a)] + [Activate(a)] + [SendSet(a, true)] + [Serve(|s.queue|, true)]
  }

  ghost predicate MayIssue(s: Sys, w: WorkspaceId) {
    && w in s.spaces && s.spaces[w].stage == Assigned && s.spaces[w].user in s.enabled
    && forall a :: a in s.rows && a.workspace == w ==> !Is(s.rows, a, Issuing) && !Is(s.rows, a, Active)
  }

  lemma LastIsAdded<T>(xs: seq<T>, x: T)
    ensures ModelKeys.Without(xs + [x], |xs|) == xs
  {
  }

  lemma Reserved(s: Sys, a: Alias) returns (t: Sys)
    requires MayIssue(s, a.workspace) && IsNext(s.rows, a.workspace, a.n)
    ensures Enabled(s, ReserveRead(a.workspace, a.n)) && t == Apply(s, ReserveRead(a.workspace, a.n))
    ensures t == s.(reservations := s.reservations + [Reservation(a.workspace, s.spaces[a.workspace].user, a.n)])
    ensures !HasLive(s.rows, a.workspace)
  {
    assert !HasLive(s.rows, a.workspace) by {
      forall b | b in s.rows && b.workspace == a.workspace ensures !IsLive(s.rows[b].status) {
        assert !Is(s.rows, b, Issuing) && !Is(s.rows, b, Active);
      }
    }
    hide HasLive;
    t := Apply(s, ReserveRead(a.workspace, a.n));
  }

  lemma Inserted(s: Sys, before: seq<Reservation>, a: Alias, user: UserId) returns (t: Sys)
    requires s.reservations == before + [Reservation(a.workspace, user, a.n)]
    requires a !in s.rows && !HasLive(s.rows, a.workspace)
    ensures Enabled(s, ReserveInsert(|before|)) && t == Apply(s, ReserveInsert(|before|))
    ensures t == s.(
      reservations := before, rows := s.rows[a := KeyRow(user, Issuing, true)], phases := s.phases[a := Begun])
  {
    hide HasLive;
    LastIsAdded(before, Reservation(a.workspace, user, a.n));
    t := Apply(s, ReserveInsert(|before|));
  }

  lemma Called(s: Sys, a: Alias) returns (t: Sys)
    requires a in s.phases && s.phases[a] == Begun
    ensures Enabled(s, CallGateway(a)) && t == Apply(s, CallGateway(a))
    ensures t == s.(phases := s.phases[a := Calling], calls := s.calls + {a})
  {
    t := Apply(s, CallGateway(a));
  }

  lemma Requested(s: Sys, a: Alias) returns (t: Sys)
    requires MayIssue(s, a.workspace) && IsNext(s.rows, a.workspace, a.n) && a !in s.rows
    ensures Takes(s, RequestSteps(s, a), t)
    ensures t == s.(
      rows := s.rows[a := KeyRow(s.spaces[a.workspace].user, Issuing, true)], phases := s.phases[a := Calling], calls := s.calls + {a})
  {
    hide Takes, Apply, Enabled, HasLive, IsNext;
    var one := Reserved(s, a);
    TakesOne(s, ReserveRead(a.workspace, a.n));
    var two := Inserted(one, s.reservations, a, s.spaces[a.workspace].user);
    TakesMore(s, [ReserveRead(a.workspace, a.n)], one, ReserveInsert(|s.reservations|), two);
    t := Called(two, a);
    TakesMore(s, [ReserveRead(a.workspace, a.n)] + [ReserveInsert(|s.reservations|)], two, CallGateway(a), t);
    assert s.phases[a := Begun][a := Calling] == s.phases[a := Calling];
  }

  lemma Landed(s: Sys, a: Alias) returns (t: Sys)
    requires a in s.calls && a in s.phases && s.phases[a] == Calling
    ensures Enabled(s, CallLands(a)) && t == Apply(s, CallLands(a))
    ensures t == s.(calls := s.calls - {a}, gateway := s.gateway + {a}, phases := s.phases[a := Answered])
  {
    t := Apply(s, CallLands(a));
  }

  lemma ActivatedRow(s: Sys, a: Alias) returns (t: Sys)
    requires Is(s.rows, a, Issuing) && a in s.phases && s.phases[a] == Answered
    ensures Enabled(s, Activate(a)) && t == Apply(s, Activate(a))
    ensures t == s.(rows := s.rows[a := s.rows[a].(status := Active)], phases := s.phases[a := Activated])
  {
    t := Apply(s, Activate(a));
  }

  lemma Sent(s: Sys, a: Alias) returns (t: Sys)
    requires a in s.phases && s.phases[a] == Activated
    ensures Enabled(s, SendSet(a, true)) && t == Apply(s, SendSet(a, true))
    ensures t == s.(phases := s.phases[a := Over], queue := s.queue + [SetKey(a)])
  {
    t := Apply(s, SendSet(a, true));
  }

  lemma Served(s: Sys, before: seq<Command>, c: Command) returns (t: Sys)
    requires s.queue == before + [c]
    ensures Enabled(s, Serve(|before|, true)) && t == Apply(s, Serve(|before|, true))
    ensures t == ServeCommand(s.(queue := before), c, true)
  {
    LastIsAdded(before, c);
    t := Apply(s, Serve(|before|, true));
    hide ServeCommand;
  }

  lemma Delivered(s: Sys, a: Alias) returns (t: Sys)
    requires Is(s.rows, a, Issuing) && a in s.phases && s.phases[a] == Calling && a in s.calls
    ensures Takes(s, DeliverySteps(s, a), t)
    ensures t == s.(
      rows := s.rows[a := s.rows[a].(status := Active)], phases := s.phases[a := Over], calls := s.calls - {a},
      gateway := s.gateway + {a}, files := s.files[a.workspace := a], held := s.held[a.workspace := a])
  {
    hide Takes, Apply, Enabled;
    var one := Landed(s, a);
    TakesOne(s, CallLands(a));
    var two := ActivatedRow(one, a);
    TakesMore(s, [CallLands(a)], one, Activate(a), two);
    var three := Sent(two, a);
    TakesMore(s, [CallLands(a)] + [Activate(a)], two, SendSet(a, true), three);
    t := Served(three, s.queue, SetKey(a));
    TakesMore(s, [CallLands(a)] + [Activate(a)] + [SendSet(a, true)], three, Serve(|s.queue|, true), t);
    assert t.phases == s.phases[a := Over];
  }

  /**
   * From every reachable state in which a Workspace may have a key and has none, an issue that
   * nothing disturbs ends with a new alias that is active, that the gateway accepts and that the
   * Worker serves and has stored; nothing else has changed.
   */
  lemma UndisturbedIssue(states: seq<Sys>, steps: seq<Step>, w: WorkspaceId)
    returns (longer: seq<Sys>, more: seq<Step>, a: Alias)
    requires IsRun(states, steps) && MayIssue(states[|steps|], w)
    ensures var s := states[|steps|];
      a.workspace == w && a !in s.rows && Extends(states, steps, longer, more, RequestSteps(s, a) + DeliverySteps(s, a))
    ensures var s, t := states[|steps|], longer[|more|];
      && t.rows == s.rows[a := KeyRow(s.spaces[w].user, Active, true)]
      && t.gateway == s.gateway + {a} && a !in t.confirmed
      && t.held == s.held[w := a] && t.files == s.files[w := a]
      && t.spaces == s.spaces && t.enabled == s.enabled && t.queue == s.queue
  {
    var s := states[|steps|];
    var n := NextExists(s.rows, w);
    a := Alias(w, n);
    InvOnRuns(states, steps, |steps|);
    assert KeyOk(s, a);
    hide IsRun, Inv, KeyOk, MayIssue, IsNext, Takes, Apply, Enabled;
    var called := Requested(s, a);
    var t := Delivered(called, a);
    assert DeliverySteps(called, a) == DeliverySteps(s, a);
    TakesBoth(s, RequestSteps(s, a), called, DeliverySteps(s, a), t);
    longer, more := TakesExtends(states, steps, RequestSteps(s, a) + DeliverySteps(s, a), t);
  }

  // ---------------------------------------------------------------- a revocation

  function RevocationSteps(s: Sys, a: Alias): seq<Step> {
    [SendClear(a)] + [Serve(|s.queue|, true)] + [DeleteLands(a)] + [RecordRevoked(a)]
  }

  /**
   * From every reachable state a revocation that nothing disturbs ends with the key revoked, gone
   * from the gateway and not served; a newer key of the Workspace and everything else stays.
   */
  lemma UndisturbedRevocation(states: seq<Sys>, steps: seq<Step>, a: Alias)
    returns (longer: seq<Sys>, more: seq<Step>)
    requires IsRun(states, steps) && Is(states[|steps|].rows, a, Revoking)
    ensures var s := states[|steps|]; Extends(states, steps, longer, more, RevocationSteps(s, a))
    ensures var s, t := states[|steps|], longer[|more|];
      && t.rows == s.rows[a := s.rows[a].(status := Revoked)]
      && t.gateway == s.gateway - {a} && a in t.confirmed
      && t.held == (if a.workspace in s.held && s.held[a.workspace] == a then s.held - {a.workspace} else s.held)
      && t.files == (
        if (a.workspace !in s.held || s.held[a.workspace] == a) && a.workspace in s.files && s.files[a.workspace] == a
        then s.files - {a.workspace} else s.files)
      && t.queue == s.queue && t.spaces == s.spaces && t.enabled == s.enabled
  {
    var s := states[|steps|];
    var t := Cleared(s, a);
    hide IsRun, Takes, Apply, Enabled;
    longer, more := TakesExtends(states, steps, RevocationSteps(s, a), t);
  }

  lemma Cleared(s: Sys, a: Alias) returns (t: Sys)
    requires Is(s.rows, a, Revoking)
    ensures Takes(s, RevocationSteps(s, a), t)
    ensures t == s.(
      rows := s.rows[a := s.rows[a].(status := Revoked)], gateway := s.gateway - {a}, confirmed := s.confirmed + {a},
      held := if a.workspace in s.held && s.held[a.workspace] == a then s.held - {a.workspace} else s.held,
      files :=
        if (a.workspace !in s.held || s.held[a.workspace] == a) && a.workspace in s.files && s.files[a.workspace] == a
        then s.files - {a.workspace} else s.files)
  {
    hide Takes, Apply, Enabled;
    var one := ClearSent(s, a);
    TakesOne(s, SendClear(a));
    var two := Served(one, s.queue, ClearKey(a));
    TakesMore(s, [SendClear(a)], one, Serve(|s.queue|, true), two);
    var three := Deleted(two, a);
    TakesMore(s, [SendClear(a)] + [Serve(|s.queue|, true)], two, DeleteLands(a), three);
    t := Recorded(three, a);
    TakesMore(s, [SendClear(a)] + [Serve(|s.queue|, true)] + [DeleteLands(a)], three, RecordRevoked(a), t);
  }

  lemma ClearSent(s: Sys, a: Alias) returns (t: Sys)
    ensures Enabled(s, SendClear(a)) && t == Apply(s, SendClear(a)) && t == s.(queue := s.queue + [ClearKey(a)])
  {
    t := Apply(s, SendClear(a));
  }

  lemma Deleted(s: Sys, a: Alias) returns (t: Sys)
    requires Is(s.rows, a, Revoking)
    ensures Enabled(s, DeleteLands(a)) && t == Apply(s, DeleteLands(a))
    ensures t == s.(gateway := s.gateway - {a}, confirmed := s.confirmed + {a})
  {
    t := Apply(s, DeleteLands(a));
  }

  lemma Recorded(s: Sys, a: Alias) returns (t: Sys)
    requires Is(s.rows, a, Revoking) && a in s.confirmed
    ensures Enabled(s, RecordRevoked(a)) && t == Apply(s, RecordRevoked(a))
    ensures t == s.(rows := s.rows[a := s.rows[a].(status := Revoked)])
  {
    t := Apply(s, RecordRevoked(a));
  }
}
