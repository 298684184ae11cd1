/**
 * The lock events that recorded hits report: over any sequence of recordings, concurrent hits at
 * one instant included, one for each counting episode of a counter that reaches its threshold.
 */
module LockEvents {
  import opened Wrappers
  import opened AuthThrottle

  /** One call that records hits. */
  datatype Batch = Batch(hits: seq<Hit>, now: Time)

  /** The counters and everything reported after the calls. */
  function Played(history: seq<Batch>): (Counters, seq<Scope>) {
    if history == [] then (map[], [])
    else
      var n := |history| - 1;
      var (counters, reported) := Played(history[..n]);
      var (after, events) := Recorded(counters, history[n].hits, history[n].now);
      (after, reported + events)
  }

  /** Every counter has the policy of its scope. */
  predicate UsesPolicies(hits: seq<Hit>, policies: Policies) {
    forall i :: 0 <= i < |hits| ==> hits[i].policy == PolicyOf(policies, ScopeOf(hits[i].key))
  }

  predicate AllUsePolicies(history: seq<Batch>, policies: Policies) {
    forall n :: 0 <= n < |history| ==> UsesPolicies(history[n].hits, policies)
  }

  /** When the counter was hit by one call, and by all of them. */
  function TimesIn(hits: seq<Hit>, now: Time, key: Key): seq<Time> {
    if hits == [] then []
    else
      var n := |hits| - 1;
      TimesIn(hits[..n], now, key) + (if hits[n].key == key then [now] else [])
  }

  function TimesOf(history: seq<Batch>, key: Key): seq<Time> {
    if history == [] then []
    else
      var n := |history| - 1;
      TimesOf(history[..n], key) + TimesIn(history[n].hits, history[n].now, key)
  }

  // ---------------------------------------------------------------- the threshold, by counting hits

  /** The hit is the T-th since counting started over. */
  ghost predicate IsThreshold(times: seq<Time>, k: nat, policy: Policy)
    requires k < |times|
  {
    && 1 <= policy.threshold <= k + 1
    && StartsOver(times, k + 1 - policy.threshold, policy)
    && forall r :: k + 1 - policy.threshold < r <= k ==> !StartsOver(times, r, policy)
  }

  /** The hit with which the current episode began. */
  lemma {:induction false} EpisodeStart(times: seq<Time>, k: nat, policy: Policy) returns (i: nat)
    requires k < |times|
    ensures i <= k && StartsOver(times, i, policy) && forall r :: i < r <= k ==> !StartsOver(times, r, policy)
  {
    if StartsOver(times, k, policy) {
      i := k;
    } else {
      assert k > 0 by { assert times[..0] == []; }
      i := EpisodeStart(times, k - 1, policy);
    }
  }

  lemma ThresholdIff(times: seq<Time>, k: nat, policy: Policy)
    requires k < |times|
    ensures At(times, k, policy).failures == policy.threshold <==> IsThreshold(times, k, policy)
  {
    var i := EpisodeStart(times, k, policy);
    EpisodeCounts(times, i, k, policy);
    assert At(times, i, policy).failures == 1;
    hide At, StartsOver;
    if IsThreshold(times, k, policy) {
      var first := k + 1 - policy.threshold;
      assert !(first < i) && !(i < first);
    }
  }

  /** Of an episode from hit `i` to hit `j` exactly one hit is the T-th, if there are that many, and none otherwise. */
  lemma OnePerEpisode(times: seq<Time>, i: nat, j: nat, policy: Policy)
    requires policy.threshold >= 1 && i <= j < |times|
    requires StartsOver(times, i, policy) && forall r :: i < r <= j ==> !StartsOver(times, r, policy)
    ensures forall k :: i <= k <= j ==> (IsThreshold(times, k, policy) <==> k == i + policy.threshold - 1)
    ensures j - i + 1 >= policy.threshold <==> exists k :: i <= k <= j && IsThreshold(times, k, policy)
  {
    hide StartsOver;
    forall k | i <= k <= j ensures IsThreshold(times, k, policy) <==> k == i + policy.threshold - 1 {
      if IsThreshold(times, k, policy) { assert !(k + 1 - policy.threshold < i); }
    }
    if j - i + 1 >= policy.threshold { assert IsThreshold(times, i + policy.threshold - 1, policy); }
  }

  // ---------------------------------------------------------------- what is reported

  /** When the counter was hit by a history and by a call after it. */
  function TimesThrough(history: seq<Batch>, hits: seq<Hit>, now: Time, key: Key): seq<Time> {
    TimesOf(history, key) + TimesIn(hits, now, key)
  }

  lemma TimesNext(history: seq<Batch>, hits: seq<Hit>, now: Time, key: Key)
    requires hits != []
    ensures var n := |hits| - 1;
      var before := TimesThrough(history, hits[..n], now, key);
      TimesThrough(history, hits, now, key) == if hits[n].key == key then before + [now] else before
  {
  }

  /** The scopes to report for one call after a history: one for each hit that is a threshold of its own counter. */
  ghost function EventsOf(history: seq<Batch>, hits: seq<Hit>, now: Time, policies: Policies): seq<Scope> {
    if hits == [] then []
    else
      var n := |hits| - 1;
      var key := hits[n].key;
      var times := TimesThrough(history, hits, now, key);
      TimesNext(history, hits, now, key);
      EventsOf(history, hits[..n], now, policies)
      + (if IsThreshold(times, |times| - 1, PolicyOf(policies, ScopeOf(key))) then [ScopeOf(key)] else [])
  }

  ghost function AllEvents(history: seq<Batch>, policies: Policies): seq<Scope> {
    if history == [] then []
    else
      var n := |history| - 1;
      AllEvents(history[..n], policies) + EventsOf(history[..n], history[n].hits, history[n].now, policies)
  }

  predicate TracksKey(counters: Counters, history: seq<Batch>, hits: seq<Hit>, now: Time, policies: Policies, key: Key) {
    Lookup(counters, key) == After(TimesThrough(history, hits, now, key), PolicyOf(policies, ScopeOf(key)))
  }

  ghost predicate Tracks(counters: Counters, history: seq<Batch>, hits: seq<Hit>, now: Time, policies: Policies) {
    forall key :: TracksKey(counters, history, hits, now, policies, key)
  }

  lemma AfterOneMore(times: seq<Time>, now: Time, policy: Policy)
    ensures After(times + [now], policy) == Some(Next(After(times, policy), policy, now))
    ensures At(times + [now], |times|, policy) == Next(After(times, policy), policy, now)
  {
    assert (times + [now])[..|times|] == times;
  }

  lemma HitTracks(counters: Counters, history: seq<Batch>, hits: seq<Hit>, now: Time, policies: Policies)
    requires hits != [] && hits[|hits| - 1].policy == PolicyOf(policies, ScopeOf(hits[|hits| - 1].key))
    requires Tracks(counters, history, hits[..|hits| - 1], now, policies)
    ensures var hit := hits[|hits| - 1];
      var times := TimesThrough(history, hits, now, hit.key);
      var counter := Next(Lookup(counters, hit.key), hit.policy, now);
      && |times| > 0 && counter == At(times, |times| - 1, hit.policy)
      && Tracks(counters[hit.key := counter], history, hits, now, policies)
  {
    hide Next, At, After, TimesThrough;
    var n := |hits| - 1;
    var hit := hits[n];
    assert TracksKey(counters, history, hits[..n], now, policies, hit.key);
    TimesNext(history, hits, now, hit.key);
    AfterOneMore(TimesThrough(history, hits[..n], now, hit.key), now, hit.policy);
    var after := counters[hit.key := Next(Lookup(counters, hit.key), hit.policy, now)];
    forall key ensures TracksKey(after, history, hits, now, policies, key) {
      assert TracksKey(counters, history, hits[..n], now, policies, key);
      TimesNext(history, hits, now, key);
    }
  }

  lemma RecordedStep(counters: Counters, hits: seq<Hit>, now: Time)
    requires hits != []
    ensures var n := |hits| - 1;
      var (before, events) := Recorded(counters, hits[..n], now);
      var counter := Next(Lookup(before, hits[n].key), hits[n].policy, now);
      Recorded(counters, hits, now) == (
        before[hits[n].key := counter],
        if counter.failures == hits[n].policy.threshold then events + [ScopeOf(hits[n].key)] else events)
  {
  }

  lemma {:induction false} BatchReports(counters: Counters, history: seq<Batch>, hits: seq<Hit>, now: Time, policies: Policies)
    requires UsesPolicies(hits, policies) && Tracks(counters, history, [], now, policies)
    ensures Tracks(Recorded(counters, hits, now).0, history, hits, now, policies)
    ensures Recorded(counters, hits, now).1 == EventsOf(history, hits, now, policies)
  {
    hide Tracks, IsThreshold, At, Next, TimesThrough;
    if hits != [] {
      var n := |hits| - 1;
      BatchReports(counters, history, hits[..n], now, policies);
      RecordedStep(counters, hits, now);
      hide Recorded;
      HitTracks(Recorded(counters, hits[..n], now).0, history, hits, now, policies);
      var times := TimesThrough(history, hits, now, hits[n].key);
      ThresholdIff(times, |times| - 1, hits[n].policy);
    }
  }

  /**
   * Whatever is recorded, the events are exactly those of the hits that are the T-th of an episode
   * of their own counter, in order and each under that counter's scope.
   */
  lemma {:induction false} ReportedIffThreshold(history: seq<Batch>, policies: Policies)
    requires AllUsePolicies(history, policies)
    ensures forall key :: Lookup(Played(history).0, key) == After(TimesOf(history, key), PolicyOf(policies, ScopeOf(key)))
    ensures Played(history).1 == AllEvents(history, policies)
  {
    hide After, Recorded;
    if history == [] {
      assert forall key :: After([], PolicyOf(policies, ScopeOf(key))) == None by { NoneBefore(policies); }
    } else {
      var n := |history| - 1;
      ReportedIffThreshold(history[..n], policies);
      var counters := Played(history[..n]).0;
      forall key ensures TracksKey(counters, history[..n], [], history[n].now, policies, key) {
        assert TimesThrough(history[..n], [], history[n].now, key) == TimesOf(history[..n], key);
      }
      BatchReports(counters, history[..n], history[n].hits, history[n].now, policies);
      forall key ensures Lookup(Played(history).0, key) == After(TimesOf(history, key), PolicyOf(policies, ScopeOf(key))) {
        assert TracksKey(Played(history).0, history[..n], history[n].hits, history[n].now, policies, key);
      }
    }
  }

  lemma NoneBefore(policies: Policies)
    ensures forall key :: After([], PolicyOf(policies, ScopeOf(key))) == None
  {
  }
}
