/**
 * When each Workspace was last used: kept in memory and carried to the database by flushes that may
 * overlap, fail, or fail after their write took effect.
 */
module AccessTracker {
  import opened Wrappers

  type WorkspaceId = nat

  /** Milliseconds. */
  type Time = int

  const ACCESS_PERSIST_INTERVAL_MS := 60000

  datatype AccessState = AccessState(latest: Time, persisted: Option<Time>, pending: bool)

  type States = map<WorkspaceId, AccessState>

  /** What one flush writes. */
  type Entries = map<WorkspaceId, Time>

  function TouchedState(s: Option<AccessState>, ended: bool, now: Time): AccessState {
    if s.None? then AccessState(now, None, true)
    else
      s.value.(
        latest := if now > s.value.latest then now else s.value.latest,
        pending := s.value.pending || ended || s.value.persisted.None?
                   || now - s.value.persisted.value >= ACCESS_PERSIST_INTERVAL_MS)
  }

  function Touched(states: States, w: WorkspaceId, ended: bool, now: Time): States {
    states[w := TouchedState(if w in states then Some(states[w]) else None, ended, now)]
  }

  function Pending(states: States): Entries {
    map w | w in states && states[w].pending :: states[w].latest
  }

  function WithPending(states: States, entries: Entries, pending: bool): States {
    map w | w in states :: if w in entries then states[w].(pending := pending) else states[w]
  }

  function WithPersisted(states: States, entries: Entries): States {
    map w | w in states :: if w in entries then states[w].(persisted := Some(entries[w])) else states[w]
  }

  /** `flush` is split where it awaits its write: other calls run in between. */
  class WorkspaceAccessTracker {
    var states: States

    constructor ()
      ensures states == map[]
    {
      states := map[];
    }

    method Touch(workspaceId: WorkspaceId, connectionEnded: bool, now: Time)
      modifies this
      ensures states == Touched(old(states), workspaceId, connectionEnded, now)
    {
      if workspaceId !in states {
        states := states[workspaceId := AccessState(now, None, true)];
        return;
      }
      var state := states[workspaceId];
      if now > state.latest { state := state.(latest := now); }
      if || connectionEnded
         || state.persisted.None?
         || now - state.persisted.value >= ACCESS_PERSIST_INTERVAL_MS
      {
        state := state.(pending := true);
      }
      states := states[workspaceId := state];
    }

    method FlushUntilWrite() returns (entries: Entries)
      modifies this
      ensures entries == Pending(old(states)) && states == WithPending(old(states), entries, false)
    {
      entries := map w | w in states && states[w].pending :: states[w].latest;
      var left := entries.Keys;
      while left != {}
        invariant left <= entries.Keys
        invariant states == WithPending(old(states), map w | w in entries && w !in left :: entries[w], false)
        decreases |left|
      {
        var w :| w in left;
        left := left - {w};
        if w in states { states := states[w := states[w].(pending := false)]; }
      }
      assert (map w | w in entries && w !in left :: entries[w]) == entries;
    }

    method FlushAfterWrite(entries: Entries, written: bool)
      modifies this
      ensures states == if written then WithPersisted(old(states), entries) else WithPending(old(states), entries, true)
    {
      var left := entries.Keys;
      while left != {}
        invariant left <= entries.Keys
        invariant var done := map w | w in entries && w !in left :: entries[w];
          states == if written then WithPersisted(old(states), done) else WithPending(old(states), done, true)
        decreases |left|
      {
        var w :| w in left;
        left := left - {w};
        if w in states {
          states := states[w := if written then states[w].(persisted := Some(entries[w])) else states[w].(pending := true)];
        }
      }
      assert (map w | w in entries && w !in left :: entries[w]) == entries;
    }
  }

  // ---------------------------------------------------------------- the tracker and the database

  /** A flush that awaits its write; `landed` once the database has executed it. */
  datatype Flush = Flush(entries: Entries, landed: bool)

  /**
   * `stored` is the column of the rows that exist; `written` the newest time per Workspace that a
   * flush reported as written, and `ended` the latest access that ended a connection.
   */
  datatype Sys = Sys(
    states: States, flushes: seq<Flush>, stored: map<WorkspaceId, Option<Time>>,
    written: map<WorkspaceId, Time>, ended: map<WorkspaceId, Time>)

  datatype Step =
    | Touch(workspace: WorkspaceId, connectionEnded: bool, now: Time)
    | FlushStart
    | WriteLands(index: nat)
    | FlushEnd(index: nat, ok: bool)
    | DeleteRow(workspace: WorkspaceId)

  /** Moves the column forward only. */
  function Greatest(old_: Option<Time>, at: Time): Option<Time> {
    if old_.Some? && old_.value > at then old_ else Some(at)
  }

  function RecordAccess(stored: map<WorkspaceId, Option<Time>>, entries: Entries): map<WorkspaceId, Option<Time>> {
    map w | w in stored :: if w in entries then Greatest(stored[w], entries[w]) else stored[w]
  }

  function Newest(times: map<WorkspaceId, Time>, entries: Entries): map<WorkspaceId, Time> {
    map w | w in times.Keys + entries.Keys ::
      if w !in entries || (w in times && times[w] > entries[w]) then times[w] else entries[w]
  }

  predicate Enabled(s: Sys, step: Step) {
    match step
    case Touch(_, _, _) => true
    case FlushStart => Pending(s.states) != map[]
    case WriteLands(i) => i < |s.flushes|
    case FlushEnd(i, ok) => i < |s.flushes| && (ok ==> s.flushes[i].landed)
    case DeleteRow(_) => true
  }

  function Apply(s: Sys, step: Step): Sys
    requires Enabled(s, step)
  {
    match step
    case Touch(w, ended, now) =>
      s.(states := Touched(s.states, w, ended, now), ended := if ended then Newest(s.ended, map[w := now]) else s.ended)
    case FlushStart =>
      s.(states := WithPending(s.states, Pending(s.states), false), flushes := s.flushes + [Flush(Pending(s.states), false)])
    case WriteLands(i) =>
      s.(stored := RecordAccess(s.stored, s.flushes[i].entries), flushes := s.flushes[i := s.flushes[i].(landed := true)])
    case FlushEnd(i, ok) =>
      var entries := s.flushes[i].entries;
      var rest := s.(flushes := s.flushes[..i] + s.flushes[i + 1..]);
      if ok then rest.(states := WithPersisted(s.states, entries), written := Newest(s.written, entries))
      else rest.(states := WithPending(s.states, entries, true))
    case DeleteRow(w) => s.(stored := s.stored - {w})
  }

  ghost predicate Initial(s: Sys) {
    s.states == map[] && s.flushes == [] && s.written == map[] && s.ended == map[]
  }

  ghost predicate IsRun(states: seq<Sys>, steps: seq<Step>) {
    && |states| == |steps| + 1
    && Initial(states[0])
    && forall k :: 0 <= k < |steps| ==> Enabled(states[k], steps[k]) && states[k + 1] == Apply(states[k], steps[k])
  }

  /** A flush under way, or already written, carries a time that covers the bound. */
  predicate Covered(s: Sys, w: WorkspaceId, bound: Time) {
    || (exists f :: f in s.flushes && w in f.entries && f.entries[w] >= bound)
    || (w in s.written && s.written[w] >= bound)
  }

  /** What is recorded of a Workspace's accesses is at most a minute behind. */
  predicate Safe(s: Sys, w: WorkspaceId) {
    && (w in s.states ==> s.states[w].pending || Covered(s, w, s.states[w].latest - ACCESS_PERSIST_INTERVAL_MS + 1))
    && (w in s.ended ==>
        && w in s.states && s.ended[w] <= s.states[w].latest
        && (s.states[w].pending || Covered(s, w, s.ended[w])))
  }

  /** Only real accesses are written, and what is reported as written is stored. */
  predicate Honest(s: Sys, w: WorkspaceId) {
    && (forall f :: f in s.flushes && w in f.entries ==>
        && w in s.states && f.entries[w] <= s.states[w].latest
        && (f.landed && w in s.stored ==> s.stored[w].Some? && f.entries[w] <= s.stored[w].value))
    && (w in s.written ==>
        && w in s.states && s.written[w] <= s.states[w].latest
        && (w in s.stored ==> s.stored[w].Some? && s.written[w] <= s.stored[w].value))
    && (w in s.states && s.states[w].persisted.Some? ==> w in s.written && s.states[w].persisted.value <= s.written[w])
  }

  ghost predicate Inv(s: Sys) {
    forall w :: Safe(s, w) && Honest(s, w)
  }

  lemma FlushesMoreThan(before: seq<Flush>, i: nat, f: Flush)
    requires i < |before|
    ensures f in before[..i] + before[i + 1..] ==> f in before
    ensures f in before ==> f == before[i] || f in before[..i] + before[i + 1..]
    ensures f in before && f != before[i] ==> f in before[i := before[i].(landed := true)]
    ensures before[i].(landed := true) in before[i := before[i].(landed := true)]
    ensures f in before[i := before[i].(landed := true)] ==> f in before || f == before[i].(landed := true)
  {
    if f in before && f != before[i] {
      var k :| 0 <= k < |before| && before[k] == f;
      if k > i { assert (before[..i] + before[i + 1..])[k - 1] == f; } else { assert (before[..i] + before[i + 1..])[k] == f; }
      assert before[i := before[i].(landed := true)][k] == f;
    }
    assert before[i := before[i].(landed := true)][i] == before[i].(landed := true);
  }

  lemma StillCovered(s: Sys, step: Step, w: WorkspaceId, bound: Time)
    requires Enabled(s, step) && Covered(s, w, bound)
    ensures Covered(Apply(s, step), w, bound) || (step.FlushEnd? && !step.ok && w in s.flushes[step.index].entries)
  {
    var t := Apply(s, step);
    if !(w in s.written && s.written[w] >= bound) {
      var f :| f in s.flushes && w in f.entries && f.entries[w] >= bound;
      if step.WriteLands? {
        FlushesMoreThan(s.flushes, step.index, f);
      } else if step.FlushEnd? {
        FlushesMoreThan(s.flushes, step.index, f);
      }
    }
  }

  lemma KeepsSafe(s: Sys, step: Step, w: WorkspaceId)
    requires Enabled(s, step) && Safe(s, w) && Honest(s, w)
    ensures Safe(Apply(s, step), w)
  {
    var t := Apply(s, step);
    if w in s.states && !s.states[w].pending {
      StillCovered(s, step, w, s.states[w].latest - ACCESS_PERSIST_INTERVAL_MS + 1);
      if w in s.ended { StillCovered(s, step, w, s.ended[w]); }
    }
    if step.FlushStart? {
      assert t.flushes[|s.flushes|] in t.flushes;
    }
  }

  lemma KeepsHonest(s: Sys, step: Step, w: WorkspaceId)
    requires Enabled(s, step) && Honest(s, w)
    ensures Honest(Apply(s, step), w)
  {
    var t := Apply(s, step);
    if step.WriteLands? || step.FlushEnd? {
      assert s.flushes[step.index] in s.flushes;
      forall f | f in t.flushes ensures f in s.flushes || (step.WriteLands? && f == s.flushes[step.index].(landed := true)) {
        FlushesMoreThan(s.flushes, step.index, f);
      }
    }
  }

  lemma {:induction false} InvOnRuns(states: seq<Sys>, steps: seq<Step>, k: nat)
    requires IsRun(states, steps) && k < |states|
    ensures Inv(states[k])
  {
    if k > 0 {
      InvOnRuns(states, steps, k - 1);
      forall w ensures Safe(states[k], w) && Honest(states[k], w) {
        assert states[k - 1 + 1] == Apply(states[k - 1], steps[k - 1]);
        assert Safe(states[k - 1], w) && Honest(states[k - 1], w);
        KeepsSafe(states[k - 1], steps[k - 1], w);
        KeepsHonest(states[k - 1], steps[k - 1], w);
      }
    }
  }

  /**
   * Under every interleaving of touches and overlapping flushes: a Workspace is pending, or a
   * flush under way or the newest successful write is less than a minute behind its latest access.
   */
  lemma AccessIsAtMostAMinuteBehind(states: seq<Sys>, steps: seq<Step>, k: nat, w: WorkspaceId)
    requires IsRun(states, steps) && k < |states| && w in states[k].states
    ensures var s := states[k];
      || s.states[w].pending
      || (exists f :: f in s.flushes && w in f.entries && s.states[w].latest < f.entries[w] + ACCESS_PERSIST_INTERVAL_MS)
      || (w in s.written && s.states[w].latest < s.written[w] + ACCESS_PERSIST_INTERVAL_MS)
  {
    InvOnRuns(states, steps, k);
    assert Safe(states[k], w);
  }

  /** An access that ends a connection is never dropped: it stays pending, under way, or is written. */
  lemma EndedConnectionIsNotDropped(states: seq<Sys>, steps: seq<Step>, k: nat, w: WorkspaceId)
    requires IsRun(states, steps) && k < |states| && w in states[k].ended
    ensures var s := states[k];
      && w in s.states && s.ended[w] <= s.states[w].latest
      && (s.states[w].pending || Covered(s, w, s.ended[w]))
  {
    InvOnRuns(states, steps, k);
    assert Safe(states[k], w);
  }

  /** At rest, with nothing pending or under way, the database is less than a minute behind. */
  lemma AtRestTheDatabaseKnows(states: seq<Sys>, steps: seq<Step>, k: nat, w: WorkspaceId)
    requires IsRun(states, steps) && k < |states| && w in states[k].states && w in states[k].stored
    requires states[k].flushes == [] && !states[k].states[w].pending
    ensures var s := states[k];
      && s.stored[w].Some? && s.states[w].latest < s.stored[w].value + ACCESS_PERSIST_INTERVAL_MS
      && (w in s.ended ==> s.ended[w] <= s.stored[w].value)
  {
    InvOnRuns(states, steps, k);
    assert Safe(states[k], w) && Honest(states[k], w);
  }

  predicate AtMost(a: Option<Time>, b: Option<Time>) {
    a.Some? ==> b.Some? && a.value <= b.value
  }

  /** The stored access never moves back, whatever the order in which flushes are written. */
  lemma {:induction false} StoredNeverMovesBack(states: seq<Sys>, steps: seq<Step>, i: nat, j: nat, w: WorkspaceId)
    requires IsRun(states, steps) && i <= j < |states| && w in states[j].stored
    ensures w in states[i].stored && AtMost(states[i].stored[w], states[j].stored[w])
  {
    if i < j {
      assert states[j - 1 + 1] == Apply(states[j - 1], steps[j - 1]);
      StoredNeverMovesBack(states, steps, i, j - 1, w);
    }
  }

  // ---------------------------------------------------------------- what an undisturbed call achieves

  /** The state of a Workspace once its latest access is written. */
  function Flushed(s: AccessState): AccessState {
    if s.pending then AccessState(s.latest, Some(s.latest), false) else s
  }

  /**
   * A flush that nothing disturbs writes exactly the pending accesses: afterwards nothing is
   * pending, what was is known to be written, and the rows that exist have it unless they have a
   * newer one.
   */
  lemma UndisturbedFlush(s: Sys) returns (t: Sys)
    requires Enabled(s, FlushStart)
    ensures var n := |s.flushes|;
      && Enabled(Apply(s, FlushStart), WriteLands(n))
      && Enabled(Apply(Apply(s, FlushStart), WriteLands(n)), FlushEnd(n, true))
      && t == Apply(Apply(Apply(s, FlushStart), WriteLands(n)), FlushEnd(n, true))
    ensures t.flushes == s.flushes && t.states.Keys == s.states.Keys && t.stored.Keys == s.stored.Keys
    ensures forall w :: w in s.states ==> t.states[w] == Flushed(s.states[w])
    ensures forall w :: w in s.stored ==>
      if w in s.states && s.states[w].pending && (s.stored[w].None? || s.stored[w].value < s.states[w].latest)
      then t.stored[w] == Some(s.states[w].latest) else t.stored[w] == s.stored[w]
  {
    var n := |s.flushes|;
    var one := Apply(s, FlushStart);
    var two := Apply(one, WriteLands(n));
    t := Apply(two, FlushEnd(n, true));
    assert two.flushes[..n] == s.flushes && two.flushes[n + 1..] == [];
  }

  /** A flush whose write fails has changed nothing. */
  lemma FailedFlush(s: Sys)
    requires Enabled(s, FlushStart)
    ensures Enabled(Apply(s, FlushStart), FlushEnd(|s.flushes|, false))
    ensures Apply(Apply(s, FlushStart), FlushEnd(|s.flushes|, false)) == s
  {
    var n := |s.flushes|;
    var one := Apply(s, FlushStart);
    assert one.flushes[..n] == s.flushes && one.flushes[n + 1..] == [];
    var t := Apply(one, FlushEnd(n, false));
    assert t.states == s.states && t.flushes == s.flushes;
  }

  /**
   * An access is the latest one unless a later one was seen, and it asks for a write exactly when
   * it ends a connection, or none was asked for and made within the last minute.
   */
  lemma TouchIff(s: Sys, w: WorkspaceId, ended: bool, now: Time)
    ensures var t := Apply(s, Touch(w, ended, now));
      && w in t.states && t.stored == s.stored && t.flushes == s.flushes
      && (forall other :: other != w ==> (other in t.states <==> other in s.states))
      && (forall other :: other != w && other in s.states ==> t.states[other] == s.states[other])
      && (if w !in s.states then t.states[w] == AccessState(now, None, true)
          else
            var before, after := s.states[w], t.states[w];
            && after.persisted == before.persisted
            && after.latest >= before.latest && after.latest >= now && after.latest in {before.latest, now}
            && (after.pending <==>
                before.pending || ended || before.persisted.None? || before.persisted.value + ACCESS_PERSIST_INTERVAL_MS <= now))
  {
  }
}
