/**
 * Comparing a reconnected Worker's holdings with the database: a holding without an active key is
 * cleared, and an active key without a holding is revoked.
 */
module ModelKeyReconciliation {
  import opened Wrappers
  import opened ModelKeys

  datatype Holding = Holding(workspace: WorkspaceId, key: Alias)

  /** A JavaScript `Map` built from entries: a later entry replaces an earlier one. */
  function MapOf(entries: seq<Holding>): map<WorkspaceId, Alias> {
    if entries == [] then map[]
    else
      var n := |entries| - 1;
      MapOf(entries[..n])[entries[n].workspace := entries[n].key]
  }

  /** The entries the other side does not have under the same Workspace. */
  function Unmatched(entries: seq<Holding>, other: map<WorkspaceId, Alias>): seq<Holding> {
    if entries == [] then []
    else
      var n := |entries| - 1;
      var e := entries[n];
      if e.workspace in other && other[e.workspace] == e.key then Unmatched(entries[..n], other)
      else Unmatched(entries[..n], other) + [e]
  }

  method BuildMap(entries: seq<Holding>) returns (m: map<WorkspaceId, Alias>)
    ensures m == MapOf(entries)
  {
    m := map[];
    for i := 0 to |entries|
      invariant m == MapOf(entries[..i])
    {
      assert entries[..i + 1][..i] == entries[..i];
      m := m[entries[i].workspace := entries[i].key];
    }
    assert entries[..|entries|] == entries;
  }

  method SelectUnmatched(entries: seq<Holding>, other: map<WorkspaceId, Alias>) returns (out: seq<Holding>)
    ensures out == Unmatched(entries, other)
  {
    out := [];
    for i := 0 to |entries|
      invariant out == Unmatched(entries[..i], other)
    {
      assert entries[..i + 1][..i] == entries[..i];
      if !(entries[i].workspace in other && other[entries[i].workspace] == entries[i].key) {
        out := out + [entries[i]];
      }
    }
    assert entries[..|entries|] == entries;
  }

  /** The clear commands to send, in order, and the keys to revoke. */
  method ReconcileWorker(active: seq<Holding>, holdings: seq<Holding>) returns (clears: seq<Holding>, lost: seq<Holding>)
    ensures clears == Unmatched(holdings, MapOf(active))
    ensures lost == Unmatched(active, MapOf(holdings))
  {
    var expected := BuildMap(active);
    var held := BuildMap(holdings);
    clears := SelectUnmatched(holdings, expected);
    lost := SelectUnmatched(active, held);
  }

  // ---------------------------------------------------------------- what it achieves

  /** The Worker carries out the clear commands; each removes the named key only. */
  function Cleared(held: map<WorkspaceId, Alias>, clears: seq<Holding>): map<WorkspaceId, Alias> {
    if clears == [] then held
    else
      var n := |clears| - 1;
      ClearHeld(Cleared(held, clears[..n]), clears[n].workspace, clears[n].key)
  }

  /** Each Workspace is listed once, as the unique index and the Worker's own map guarantee. */
  predicate Distinct(entries: seq<Holding>) {
    forall i, j :: 0 <= i < j < |entries| ==> entries[i].workspace != entries[j].workspace
  }

  lemma {:induction false} MapOfDistinct(entries: seq<Holding>, w: WorkspaceId)
    requires Distinct(entries)
    ensures w in MapOf(entries) <==> exists i :: 0 <= i < |entries| && entries[i].workspace == w
    ensures forall i :: 0 <= i < |entries| && entries[i].workspace == w ==> w in MapOf(entries) && MapOf(entries)[w] == entries[i].key
  {
    if entries != [] {
      var n := |entries| - 1;
      MapOfDistinct(entries[..n], w);
      if w in MapOf(entries[..n]) {
        var i :| 0 <= i < n && entries[..n][i].workspace == w;
        assert entries[i].workspace == w;
      }
    }
  }

  lemma {:induction false} UnmatchedIff(entries: seq<Holding>, other: map<WorkspaceId, Alias>, e: Holding)
    ensures e in Unmatched(entries, other) <==> e in entries && !(e.workspace in other && other[e.workspace] == e.key)
  {
    if entries != [] {
      var n := |entries| - 1;
      UnmatchedIff(entries[..n], other, e);
      assert entries == entries[..n] + [entries[n]];
    }
  }

  lemma ClearedOnce(held: map<WorkspaceId, Alias>, v: WorkspaceId, key: Alias, w: WorkspaceId)
    ensures w in ClearHeld(held, v, key) <==> w in held && !(w == v && held[w] == key)
    ensures w in ClearHeld(held, v, key) ==> ClearHeld(held, v, key)[w] == held[w]
  {
  }

  lemma {:induction false} ClearedIff(held: map<WorkspaceId, Alias>, clears: seq<Holding>, w: WorkspaceId)
    ensures w in Cleared(held, clears) <==> w in held && Holding(w, held[w]) !in clears
    ensures w in Cleared(held, clears) ==> Cleared(held, clears)[w] == held[w]
  {
    if clears != [] {
      var n := |clears| - 1;
      ClearedIff(held, clears[..n], w);
      ClearedOnce(Cleared(held, clears[..n]), clears[n].workspace, clears[n].key, w);
      hide ClearHeld;
      assert clears == clears[..n] + [clears[n]];
    }
  }

  /**
   * Undisturbed, a reconciliation makes both sides agree: once the Worker has carried out the
   * clear commands, it holds exactly the keys that are still active after the lost ones are revoked.
   */
  lemma ReconciliationAgrees(active: seq<Holding>, holdings: seq<Holding>, w: WorkspaceId, key: Alias)
    requires Distinct(active) && Distinct(holdings)
    ensures var after := Cleared(MapOf(holdings), Unmatched(holdings, MapOf(active)));
      (w in after && after[w] == key) <==>
        (Holding(w, key) in active && Holding(w, key) !in Unmatched(active, MapOf(holdings)))
  {
    var held := MapOf(holdings);
    var clears := Unmatched(holdings, MapOf(active));
    MapOfDistinct(active, w);
    MapOfDistinct(holdings, w);
    ClearedIff(held, clears, w);
    UnmatchedIff(active, held, Holding(w, key));
    if w in held {
      UnmatchedIff(holdings, MapOf(active), Holding(w, held[w]));
      var i :| 0 <= i < |holdings| && holdings[i].workspace == w;
      assert holdings[i] == Holding(w, held[w]);
    }
    if w in MapOf(active) {
      var j :| 0 <= j < |active| && active[j].workspace == w;
      assert active[j] == Holding(w, MapOf(active)[w]);
    }
    if Holding(w, key) in active {
      var j :| 0 <= j < |active| && active[j] == Holding(w, key);
      assert active[j].workspace == w;
    }
  }
}
