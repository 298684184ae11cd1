/** The egress rule set: validation of a candidate set, and the store every change goes through. */
module EgressPolicy {
  import opened Wrappers
  import opened Ipv4Blocks
  import opened Intervals
  import opened Ipv4Text

  datatype Action = Allow | Deny
  datatype Protocol = Tcp | Udp

  /** A canonical CIDR as the schema and the `cidr` column accept it. */
  type Network = c: Cidr | Aligned(c) witness Cidr(0, 0)

  datatype Rule = Rule(
    id: nat, action: Action, network: Network,
    protocol: Option<Protocol>, portMin: Option<nat>, portMax: Option<nat>)

  datatype Refusal = RuleLimit | AllowOutsideDeny | AllowOverlapsProtected

  const MAX_ENTRIES := 1000

  /** 10.0.0.0/8, 172.16.0.0/12 and 192.168.0.0/16 (section 3 of RFC 1918). */
  function DefaultDeny(): seq<Interval> {
    [Interval(0x0A00_0000, 0x0AFF_FFFF), Interval(0xAC10_0000, 0xAC1F_FFFF), Interval(0xC0A8_0000, 0xC0A8_FFFF)]
  }

  /** 10.0.0.0/8, 172.16.0.0/12 or 192.168.0.0/16, by its first two octets and its prefix length. */
  predicate IsPrivate(a: nat, b: nat, prefix: nat) {
    (a, b, prefix) == (10, 0, 8) || (a, b, prefix) == (172, 16, 12) || (a, b, prefix) == (192, 168, 16)
  }

  /** The default ranges are the blocks of those texts. */
  lemma DefaultDenyTexts(a: nat, b: nat, prefix: nat)
    requires IsPrivate(a, b, prefix)
    ensures var c := ParseIpv4Cidr(Decimal(a) + "." + Decimal(b) + "." + Decimal(0) + "." + Decimal(0) + "/" + Decimal(prefix));
      c.Some? && CidrInterval(c.value) == DefaultDeny()[if a == 10 then 0 else if a == 172 then 1 else 2]
  {
    hide ParseIpv4Cidr;
    PrivateIsAligned(a, b, prefix);
    CidrOfOctets(a, b, 0, 0, prefix);
  }

  lemma PrivateIsAligned(a: nat, b: nat, prefix: nat)
    requires IsPrivate(a, b, prefix)
    ensures (a * 0x100_0000 + b * 0x1_0000 + 0 * 0x100 + 0) % PrefixSize(prefix) == 0
    ensures PrefixSize(prefix) == if a == 10 then 0x100_0000 else if a == 172 then 0x10_0000 else 0x1_0000
  {
    assert Pow2(2) == 4 && Pow2(4) == 16 && Pow2(6) == 64 && Pow2(8) == 256 && Pow2(10) == 1024 && Pow2(12) == 4096;
    assert Pow2(14) == 0x4000 && Pow2(16) == 0x1_0000 && Pow2(18) == 0x4_0000 && Pow2(20) == 0x10_0000;
    assert Pow2(22) == 0x40_0000 && Pow2(24) == 0x100_0000;
  }

  function OfAction(rules: seq<Rule>, action: Action): seq<Rule> {
    if rules == [] then []
    else if rules[0].action == action then [rules[0]] + OfAction(rules[1..], action)
    else OfAction(rules[1..], action)
  }

  lemma {:induction false} OfActionMembers(rules: seq<Rule>, action: Action)
    ensures forall x :: x in OfAction(rules, action) <==> x in rules && x.action == action
  {
    if rules != [] {
      assert rules == [rules[0]] + rules[1..];
      OfActionMembers(rules[1..], action);
    }
  }

  function IntervalsOf(networks: seq<Network>): seq<Interval> {
    seq(|networks|, i requires 0 <= i < |networks| => CidrInterval(networks[i]))
  }

  function NetworksOf(rules: seq<Rule>): seq<Network> {
    seq(|rules|, i requires 0 <= i < |rules| => rules[i].network)
  }

  function DeniedIntervals(rules: seq<Rule>): seq<Interval> {
    DefaultDeny() + IntervalsOf(NetworksOf(OfAction(rules, Deny)))
  }

  predicate OverlapsAny(i: Interval, others: seq<Interval>) {
    exists k :: 0 <= k < |others| && IntervalsOverlap(others[k], i)
  }

  function CheckAllow(rule: Rule, denied: seq<Interval>, guarded: seq<Interval>): Option<Refusal> {
    var network := CidrInterval(rule.network);
    if !IntervalCovered(network, denied) then Some(AllowOutsideDeny)
    else if OverlapsAny(network, guarded) then Some(AllowOverlapsProtected)
    else None
  }

  function FirstRefusal(allow: seq<Rule>, denied: seq<Interval>, guarded: seq<Interval>): Option<Refusal> {
    if allow == [] then None
    else
      match CheckAllow(allow[0], denied, guarded)
      case Some(code) => Some(code)
      case None => FirstRefusal(allow[1..], denied, guarded)
  }

  function Validation(rules: seq<Rule>, guarded: seq<Network>): Option<Refusal> {
    if |OfAction(rules, Allow)| > MAX_ENTRIES || |OfAction(rules, Deny)| > MAX_ENTRIES then Some(RuleLimit)
    else FirstRefusal(OfAction(rules, Allow), DeniedIntervals(rules), IntervalsOf(guarded))
  }

  /** The first refusal in the order of the rules; `None` accepts the whole set. */
  method ValidateEgressRules(rules: seq<Rule>, guarded: seq<Network>) returns (refusal: Option<Refusal>)
    ensures refusal == Validation(rules, guarded)
  {
    var allow := OfAction(rules, Allow);
    var deny := OfAction(rules, Deny);
    if |allow| > MAX_ENTRIES || |deny| > MAX_ENTRIES { return Some(RuleLimit); }
    var denied := DefaultDeny() + IntervalsOf(NetworksOf(deny));
    var guardedIntervals := IntervalsOf(guarded);
    for i := 0 to |allow|
      invariant FirstRefusal(allow, denied, guardedIntervals) == FirstRefusal(allow[i..], denied, guardedIntervals)
    {
      var network := CidrInterval(allow[i].network);
      assert allow[i..][1..] == allow[i + 1..];
      if !IntervalCovered(network, denied) { return Some(AllowOutsideDeny); }
      if OverlapsAny(network, guardedIntervals) { return Some(AllowOverlapsProtected); }
    }
    return None;
  }

  // ---------------------------------------------------------------- what acceptance means

  ghost predicate InNetwork(a: int, c: Network) {
    In(a, CidrInterval(c))
  }

  /** Denied by default or by a stored deny rule. */
  ghost predicate Denied(rules: seq<Rule>, a: int) {
    || Covers(DefaultDeny(), a)
    || exists r :: r in rules && r.action == Deny && InNetwork(a, r.network)
  }

  /** Every address an allow rule opens is denied otherwise. */
  ghost predicate OpensOnlyDenied(rules: seq<Rule>) {
    forall r, a :: r in rules && r.action == Allow && InNetwork(a, r.network) ==> Denied(rules, a)
  }

  ghost predicate AvoidsGuarded(rules: seq<Rule>, guarded: seq<Network>) {
    forall r, g, a ::
      r in rules && r.action == Allow && g in guarded && InNetwork(a, r.network) ==> !InNetwork(a, g)
  }

  ghost predicate WithinLimits(rules: seq<Rule>) {
    |OfAction(rules, Allow)| <= MAX_ENTRIES && |OfAction(rules, Deny)| <= MAX_ENTRIES
  }

  lemma DeniedIsCovered(rules: seq<Rule>, a: int)
    ensures Covers(DeniedIntervals(rules), a) <==> Denied(rules, a)
  {
    var deny := OfAction(rules, Deny);
    OfActionMembers(rules, Deny);
    var all, own := DeniedIntervals(rules), IntervalsOf(NetworksOf(deny));
    if Covers(all, a) {
      var k :| 0 <= k < |all| && In(a, all[k]);
      if k < 3 {
        assert In(a, DefaultDeny()[k]);
      } else {
        assert all[k] == CidrInterval(deny[k - 3].network);
        assert deny[k - 3] in rules && InNetwork(a, deny[k - 3].network);
      }
    }
    if k :| 0 <= k < 3 && In(a, DefaultDeny()[k]) {
      assert In(a, all[k]);
    }
    if r :| r in rules && r.action == Deny && InNetwork(a, r.network) {
      assert r in deny;
      var j :| 0 <= j < |deny| && deny[j] == r;
      assert own[j] == CidrInterval(r.network) && all[3 + j] == own[j];
      assert In(a, all[3 + j]);
    }
  }

  lemma CheckAllowMeaning(rule: Rule, rules: seq<Rule>, guarded: seq<Network>)
    ensures CheckAllow(rule, DeniedIntervals(rules), IntervalsOf(guarded)) == None <==>
      && (forall a :: InNetwork(a, rule.network) ==> Denied(rules, a))
      && (forall g, a :: g in guarded && InNetwork(a, rule.network) ==> !InNetwork(a, g))
  {
    var network, denied := CidrInterval(rule.network), DeniedIntervals(rules);
    CoveredIffEveryAddressIs(network, denied);
    forall a ensures Covers(denied, a) <==> Denied(rules, a) { DeniedIsCovered(rules, a); }
    var others := IntervalsOf(guarded);
    assert OverlapsAny(network, others) <==> exists g, a :: g in guarded && InNetwork(a, rule.network) && InNetwork(a, g) by {
      if k :| 0 <= k < |others| && IntervalsOverlap(others[k], network) {
        OverlapIffSharedAddress(others[k], network);
        var a :| In(a, others[k]) && In(a, network);
        assert guarded[k] in guarded && InNetwork(a, rule.network) && InNetwork(a, guarded[k]);
      }
      if g, a :| g in guarded && InNetwork(a, rule.network) && InNetwork(a, g) {
        var k :| 0 <= k < |guarded| && guarded[k] == g;
        assert In(a, others[k]) && In(a, network);
        OverlapIffSharedAddress(others[k], network);
      }
    }
  }

  lemma {:induction false} FirstRefusalIsNoneIff(allow: seq<Rule>, denied: seq<Interval>, guarded: seq<Interval>)
    ensures FirstRefusal(allow, denied, guarded) == None <==>
      forall r :: r in allow ==> CheckAllow(r, denied, guarded) == None
  {
    if allow != [] {
      assert allow == [allow[0]] + allow[1..];
      FirstRefusalIsNoneIff(allow[1..], denied, guarded);
      assert allow[0] in allow;
    }
  }

  /** A rule set is accepted exactly when it opens only denied addresses and no guarded one. */
  lemma AcceptedIff(rules: seq<Rule>, guarded: seq<Network>)
    ensures Validation(rules, guarded) == None <==>
      WithinLimits(rules) && OpensOnlyDenied(rules) && AvoidsGuarded(rules, guarded)
  {
    var allow := OfAction(rules, Allow);
    OfActionMembers(rules, Allow);
    FirstRefusalIsNoneIff(allow, DeniedIntervals(rules), IntervalsOf(guarded));
    forall r ensures CheckAllow(r, DeniedIntervals(rules), IntervalsOf(guarded)) == None <==>
      && (forall a :: InNetwork(a, r.network) ==> Denied(rules, a))
      && (forall g, a :: g in guarded && InNetwork(a, r.network) ==> !InNetwork(a, g))
    {
      CheckAllowMeaning(r, rules, guarded);
    }
    assert OpensOnlyDenied(rules) <==>
      forall r :: r in allow ==> forall a :: InNetwork(a, r.network) ==> Denied(rules, a);
    assert AvoidsGuarded(rules, guarded) <==>
      forall r :: r in allow ==> forall g, a :: g in guarded && InNetwork(a, r.network) ==> !InNetwork(a, g);
  }

  /** Every address the rule opens is denied otherwise, or is not guarded. */
  ghost predicate StaysInside(rule: Rule, rules: seq<Rule>) {
    forall a :: InNetwork(a, rule.network) ==> Denied(rules, a)
  }

  ghost predicate StaysClear(rule: Rule, guarded: seq<Network>) {
    forall g, a :: g in guarded && InNetwork(a, rule.network) ==> !InNetwork(a, g)
  }

  /** The first allow rule, in the order of the set, that is not as it should be. */
  ghost predicate FirstBad(rules: seq<Rule>, guarded: seq<Network>, i: nat)
    requires i < |rules|
  {
    && rules[i].action == Allow && !(StaysInside(rules[i], rules) && StaysClear(rules[i], guarded))
    && forall j :: 0 <= j < i && rules[j].action == Allow ==> StaysInside(rules[j], rules) && StaysClear(rules[j], guarded)
  }

  lemma CheckIs(rule: Rule, rules: seq<Rule>, guarded: seq<Network>)
    ensures CheckAllow(rule, DeniedIntervals(rules), IntervalsOf(guarded)) ==
      if !StaysInside(rule, rules) then Some(AllowOutsideDeny)
      else if !StaysClear(rule, guarded) then Some(AllowOverlapsProtected)
      else None
  {
    var network, denied := CidrInterval(rule.network), DeniedIntervals(rules);
    CheckAllowMeaning(rule, rules, guarded);
    CoveredIffEveryAddressIs(network, denied);
    forall a ensures Covers(denied, a) <==> Denied(rules, a) { DeniedIsCovered(rules, a); }
  }

  lemma {:induction false} FirstRefusalIs(rules: seq<Rule>, k: nat, denied: seq<Interval>, guarded: seq<Interval>, i: nat)
    requires k <= i < |rules| && rules[i].action == Allow && CheckAllow(rules[i], denied, guarded).Some?
    requires forall j :: k <= j < i && rules[j].action == Allow ==> CheckAllow(rules[j], denied, guarded) == None
    ensures FirstRefusal(OfAction(rules[k..], Allow), denied, guarded) == CheckAllow(rules[i], denied, guarded)
    decreases i - k
  {
    var rest := rules[k..];
    assert rest[0] == rules[k] && rest[1..] == rules[k + 1..];
    if k < i {
      FirstRefusalIs(rules, k + 1, denied, guarded, i);
      if rules[k].action == Allow {
        assert OfAction(rest, Allow)[1..] == OfAction(rest[1..], Allow);
      }
    }
    hide CheckAllow;
  }

  /**
   * Why a set is refused: it is too large; or of its first bad allow rule, because that opens an
   * address that is not denied otherwise, or else because it opens a guarded one.
   */
  lemma RefusedIff(rules: seq<Rule>, guarded: seq<Network>)
    ensures Validation(rules, guarded) == Some(RuleLimit) <==> !WithinLimits(rules)
    ensures forall i :: 0 <= i < |rules| && WithinLimits(rules) && FirstBad(rules, guarded, i) ==>
      Validation(rules, guarded) == Some(if StaysInside(rules[i], rules) then AllowOverlapsProtected else AllowOutsideDeny)
  {
    var denied, others := DeniedIntervals(rules), IntervalsOf(guarded);
    NoLimitBefore(OfAction(rules, Allow), denied, others);
    forall i | 0 <= i < |rules| && WithinLimits(rules) && FirstBad(rules, guarded, i)
      ensures Validation(rules, guarded) == Some(if StaysInside(rules[i], rules) then AllowOverlapsProtected else AllowOutsideDeny)
    {
      forall j | 0 <= j <= i && rules[j].action == Allow
        ensures CheckAllow(rules[j], denied, others) ==
          if !StaysInside(rules[j], rules) then Some(AllowOutsideDeny)
          else if !StaysClear(rules[j], guarded) then Some(AllowOverlapsProtected)
          else None
      {
        CheckIs(rules[j], rules, guarded);
      }
      assert rules[0..] == rules;
      hide CheckAllow, StaysInside, StaysClear;
      FirstRefusalIs(rules, 0, denied, others, i);
    }
  }

  lemma {:induction false} NoLimitBefore(allow: seq<Rule>, denied: seq<Interval>, guarded: seq<Interval>)
    ensures FirstRefusal(allow, denied, guarded) != Some(RuleLimit)
  {
    if allow != [] { NoLimitBefore(allow[1..], denied, guarded); }
  }

  // ---------------------------------------------------------------- the store

  /** The stored policy; `nextId` stands for the source of fresh rule identifiers. */
  datatype Policy = Policy(rules: seq<Rule>, revision: nat, nextId: nat)

  datatype Outcome = Created(id: nat) | Duplicate | Deleted | NotFound | Rejected(code: Refusal)

  datatype Change =
    | Create(action: Action, network: Network, protocol: Option<Protocol>, portMin: Option<nat>, portMax: Option<nat>)
    | Delete(id: nat)

  predicate SameEntry(r: Rule, s: Rule) {
    r.(id := 0) == s.(id := 0)
  }

  function Without(rules: seq<Rule>, id: nat): seq<Rule> {
    if rules == [] then []
    else if rules[0].id == id then Without(rules[1..], id)
    else [rules[0]] + Without(rules[1..], id)
  }

  lemma {:induction false} WithoutMembers(rules: seq<Rule>, id: nat)
    ensures forall x :: x in Without(rules, id) <==> x in rules && x.id != id
  {
    if rules != [] {
      WithoutMembers(rules[1..], id);
      assert rules == [rules[0]] + rules[1..];
    }
  }

  lemma {:induction false} WithoutUnique(rules: seq<Rule>, id: nat)
    ensures UniqueIds(rules) ==> UniqueIds(Without(rules, id))
    ensures UniqueEntries(rules) ==> UniqueEntries(Without(rules, id))
  {
    if rules != [] {
      WithoutUnique(rules[1..], id);
      WithoutMembers(rules[1..], id);
      assert UniqueIds(rules) ==> UniqueIds(rules[1..]);
      assert UniqueEntries(rules) ==> UniqueEntries(rules[1..]);
      if rules[0].id != id {
        HeadIsUnique(rules, Without(rules[1..], id));
        hide UniqueIds, UniqueEntries;
        assert Without(rules, id) == [rules[0]] + Without(rules[1..], id);
      }
    }
  }

  lemma HeadIsUnique(rules: seq<Rule>, rest: seq<Rule>)
    requires rules != [] && forall x :: x in rest ==> x in rules[1..]
    ensures UniqueIds(rules) && UniqueIds(rest) ==> UniqueIds([rules[0]] + rest)
    ensures UniqueEntries(rules) && UniqueEntries(rest) ==> UniqueEntries([rules[0]] + rest)
  {
    forall k | 0 <= k < |rest|
      ensures UniqueIds(rules) ==> rules[0].id != rest[k].id
      ensures UniqueEntries(rules) ==> !SameEntry(rules[0], rest[k])
    {
      assert rest[k] in rules[1..];
      var j :| 0 <= j < |rules| - 1 && rules[1..][j] == rest[k];
      assert rules[j + 1] == rest[k];
    }
  }

  predicate UniqueIds(rules: seq<Rule>) {
    forall j, k :: 0 <= j < k < |rules| ==> rules[j].id != rules[k].id
  }

  predicate UniqueEntries(rules: seq<Rule>) {
    forall j, k :: 0 <= j < k < |rules| ==> !SameEntry(rules[j], rules[k])
  }

  function NewRule(id: nat, change: Change): Rule
    requires change.Create?
  {
    Rule(id, change.action, change.network, change.protocol, change.portMin, change.portMax)
  }

  predicate HasEntry(rules: seq<Rule>, rule: Rule) {
    exists k :: 0 <= k < |rules| && SameEntry(rules[k], rule)
  }

  predicate HasId(rules: seq<Rule>, id: nat) {
    exists k :: 0 <= k < |rules| && rules[k].id == id
  }

  /** The rule set a change asks for. */
  function Candidate(p: Policy, change: Change): seq<Rule> {
    match change
    case Create(_, _, _, _, _) => p.rules + [NewRule(p.nextId, change)]
    case Delete(id) => Without(p.rules, id)
  }

  /** One transaction, given what validation said of the candidate set. */
  function Decide(p: Policy, change: Change, verdict: Option<Refusal>): (Policy, Outcome) {
    if change.Create? && HasEntry(p.rules, NewRule(p.nextId, change)) then (p, Duplicate)
    else if change.Delete? && !HasId(p.rules, change.id) then (p, NotFound)
    else if verdict.Some? then (p, Rejected(verdict.value))
    else if change.Create? then
      (Policy(Candidate(p, change), p.revision + 1, p.nextId + 1), Created(p.nextId))
    else
      (Policy(Candidate(p, change), p.revision + 1, p.nextId), Deleted)
  }

  function Apply(p: Policy, change: Change, guarded: seq<Network>): (Policy, Outcome) {
    Decide(p, change, Validation(Candidate(p, change), guarded))
  }

  predicate Committed(o: Outcome) {
    o.Created? || o.Deleted?
  }

  class EgressStore {
    var rules: seq<Rule>
    var revision: nat
    var nextId: nat

    function Contents(): Policy
      reads this
    {
      Policy(rules, revision, nextId)
    }

    constructor ()
      ensures Contents() == Policy([], 0, 0)
    {
      rules, revision, nextId := [], 0, 0;
    }

    method CreateEgressRule(change: Change, guarded: seq<Network>) returns (outcome: Outcome)
      requires change.Create?
      modifies this
      ensures (Contents(), outcome) == Apply(old(Contents()), change, guarded)
      ensures outcome.Created? ==>
        var added := Rule(outcome.id, change.action, change.network, change.protocol, change.portMin, change.portMax);
        rules == old(rules) + [added] && revision == old(revision) + 1
      ensures !outcome.Created? ==> unchanged(this)
    {
      var rule := NewRule(nextId, change);
      if HasEntry(rules, rule) { return Duplicate; }
      var rejected := ValidateEgressRules(rules + [rule], guarded);
      if rejected.Some? { return Rejected(rejected.value); }
      rules, nextId := rules + [rule], nextId + 1;
      revision := revision + 1;
      return Created(rule.id);
    }

    method DeleteEgressRule(id: nat, guarded: seq<Network>) returns (outcome: Outcome)
      modifies this
      ensures (Contents(), outcome) == Apply(old(Contents()), Delete(id), guarded)
      ensures outcome.Deleted? ==>
        (forall r :: r in rules <==> r in old(rules) && r.id != id) && revision == old(revision) + 1
      ensures !outcome.Deleted? ==> unchanged(this)
    {
      WithoutMembers(rules, id);
      if !HasId(rules, id) { return NotFound; }
      var rejected := ValidateEgressRules(Without(rules, id), guarded);
      if rejected.Some? { return Rejected(rejected.value); }
      rules := Without(rules, id);
      revision := revision + 1;
      return Deleted;
    }
  }

  // ---------------------------------------------------------------- what one change does

  /** The rule has all the fields that are asked for. */
  predicate Says(r: Rule, change: Change) {
    change == Create(r.action, r.network, r.protocol, r.portMin, r.portMax)
  }

  ghost predicate Stores(rules: seq<Rule>, change: Change) {
    exists r :: r in rules && Says(r, change)
  }

  /** A set that passes as a whole, with the guarded addresses of the moment. */
  ghost predicate Passes(rules: seq<Rule>, guarded: seq<Network>) {
    WithinLimits(rules) && OpensOnlyDenied(rules) && AvoidsGuarded(rules, guarded)
  }

  /**
   * A rule is created exactly when no stored one says the same and the set with it passes; it is
   * then stored under the returned ID, behind the others, and the revision is the next one.
   */
  lemma CreateIff(p: Policy, change: Change, guarded: seq<Network>)
    requires change.Create?
    ensures var (q, outcome) := Apply(p, change, guarded);
      var added := Rule(p.nextId, change.action, change.network, change.protocol, change.portMin, change.portMax);
      && (outcome == Duplicate <==> Stores(p.rules, change))
      && (outcome == Created(p.nextId) <==> !Stores(p.rules, change) && Passes(p.rules + [added], guarded))
      && (outcome.Rejected? <==> !Stores(p.rules, change) && !Passes(p.rules + [added], guarded))
      && q == if outcome.Created? then Policy(p.rules + [added], p.revision + 1, p.nextId + 1) else p
  {
    var rule := NewRule(p.nextId, change);
    AcceptedIff(p.rules + [rule], guarded);
    assert HasEntry(p.rules, rule) <==> Stores(p.rules, change) by {
      if k :| 0 <= k < |p.rules| && SameEntry(p.rules[k], rule) { assert p.rules[k] in p.rules; }
      if r :| r in p.rules && Says(r, change) {
        var k :| 0 <= k < |p.rules| && p.rules[k] == r;
        assert SameEntry(p.rules[k], rule);
      }
    }
    hide Validation, WithinLimits, OpensOnlyDenied, AvoidsGuarded, HasEntry, Stores;
  }

  /** A deletion takes away exactly the rule of that ID, when there is one and the rest passes. */
  lemma DeleteIff(p: Policy, id: nat, guarded: seq<Network>)
    ensures var (q, outcome) := Apply(p, Delete(id), guarded);
      && (outcome == NotFound <==> forall r :: r in p.rules ==> r.id != id)
      && (outcome == Deleted ==>
          && (forall r :: r in q.rules <==> r in p.rules && r.id != id)
          && q.revision == p.revision + 1 && q.nextId == p.nextId)
      && (outcome != Deleted ==> q == p)
      && (outcome == Deleted <==> (exists r :: r in p.rules && r.id == id) && Passes(Without(p.rules, id), guarded))
  {
    WithoutMembers(p.rules, id);
    AcceptedIff(Without(p.rules, id), guarded);
    hide Validation, WithinLimits, OpensOnlyDenied, AvoidsGuarded;
    assert HasId(p.rules, id) <==> exists r :: r in p.rules && r.id == id by {
      if k :| 0 <= k < |p.rules| && p.rules[k].id == id { assert p.rules[k] in p.rules; }
      if r :| r in p.rules && r.id == id { var k :| 0 <= k < |p.rules| && p.rules[k] == r; }
    }
  }

  // ---------------------------------------------------------------- every run

  ghost predicate Accepted(rules: seq<Rule>) {
    WithinLimits(rules) && OpensOnlyDenied(rules)
  }

  predicate RuleTableOk(p: Policy) {
    && UniqueIds(p.rules) && UniqueEntries(p.rules)
    && forall k :: 0 <= k < |p.rules| ==> p.rules[k].id < p.nextId
  }

  ghost predicate PolicyOk(p: Policy) {
    Accepted(p.rules) && RuleTableOk(p)
  }

  /** A change with the guarded addresses known when it is validated. */
  type Request = (Change, seq<Network>)

  function Run(p: Policy, requests: seq<Request>): (Policy, nat) {
    if requests == [] then (p, 0)
    else
      var n := |requests| - 1;
      var (q, committed) := Run(p, requests[..n]);
      var (r, outcome) := Apply(q, requests[n].0, requests[n].1);
      (r, if Committed(outcome) then committed + 1 else committed)
  }

  lemma DecideKeepsRuleTable(p: Policy, change: Change, verdict: Option<Refusal>)
    requires RuleTableOk(p)
    ensures RuleTableOk(Decide(p, change, verdict).0)
  {
    var (q, outcome) := Decide(p, change, verdict);
    if outcome.Deleted? {
      WithoutMembers(p.rules, change.id);
      WithoutUnique(p.rules, change.id);
      forall k | 0 <= k < |q.rules| ensures q.rules[k].id < q.nextId {
        assert q.rules[k] in p.rules;
      }
    }
  }

  /** Every change that reaches the store was accepted as a whole set. */
  lemma CommitsAreAccepted(p: Policy, change: Change, guarded: seq<Network>)
    ensures Committed(Apply(p, change, guarded).1) ==>
      Accepted(Apply(p, change, guarded).0.rules) && AvoidsGuarded(Apply(p, change, guarded).0.rules, guarded)
  {
    AcceptedIff(Apply(p, change, guarded).0.rules, guarded);
  }

  lemma ApplyKeepsPolicy(p: Policy, change: Change, guarded: seq<Network>)
    requires PolicyOk(p)
    ensures var (q, outcome) := Apply(p, change, guarded);
      && PolicyOk(q)
      && q.revision == p.revision + (if Committed(outcome) then 1 else 0)
      && (!Committed(outcome) ==> q == p)
  {
    DecideKeepsRuleTable(p, change, Validation(Candidate(p, change), guarded));
    if Committed(Apply(p, change, guarded).1) {
      CommitsAreAccepted(p, change, guarded);
    }
  }

  /**
   * After any sequence of rule creations and deletions, whatever the guarded addresses were at
   * each one, every allow rule still opens only addresses that are denied otherwise, and the
   * revision counts the committed changes.
   */
  lemma {:induction false} EveryRunKeepsPolicy(requests: seq<Request>)
    ensures var (p, committed) := Run(Policy([], 0, 0), requests); PolicyOk(p) && p.revision == committed
  {
    if requests != [] {
      var n := |requests| - 1;
      EveryRunKeepsPolicy(requests[..n]);
      var (q, _) := Run(Policy([], 0, 0), requests[..n]);
      ApplyKeepsPolicy(q, requests[n].0, requests[n].1);
    }
  }

  /** The answer to the `k`-th request of a run. */
  function AnswerTo(requests: seq<Request>, k: nat): Outcome
    requires k < |requests|
  {
    Apply(Run(Policy([], 0, 0), requests[..k]).0, requests[k].0, requests[k].1).1
  }

  /** The request was answered with the creation of this rule. */
  predicate CreatedAt(requests: seq<Request>, k: nat, r: Rule)
    requires k < |requests|
  {
    && Says(r, requests[k].0)
    && AnswerTo(requests, k) == Created(r.id)
  }

  predicate DeletedAt(requests: seq<Request>, k: nat, id: nat)
    requires k < |requests|
  {
    requests[k].0 == Delete(id) && AnswerTo(requests, k) == Deleted
  }

  ghost predicate CreatedAndKept(requests: seq<Request>, r: Rule) {
    exists k :: 0 <= k < |requests| && CreatedAt(requests, k, r)
      && forall j :: k < j < |requests| ==> !DeletedAt(requests, j, r.id)
  }

  lemma SameAnswer(requests: seq<Request>, n: nat, k: nat, r: Rule)
    requires k < n < |requests|
    ensures CreatedAt(requests[..n], k, r) == CreatedAt(requests, k, r)
    ensures DeletedAt(requests[..n], k, r.id) == DeletedAt(requests, k, r.id)
  {
    assert requests[..n][..k] == requests[..k];
  }

  lemma KeptNext(requests: seq<Request>, r: Rule)
    requires requests != []
    ensures var n := |requests| - 1;
      CreatedAndKept(requests, r) <==>
        CreatedAt(requests, n, r) || (CreatedAndKept(requests[..n], r) && !DeletedAt(requests, n, r.id))
  {
    var n := |requests| - 1;
    hide CreatedAt, DeletedAt;
    forall k | 0 <= k < n
      ensures CreatedAt(requests[..n], k, r) == CreatedAt(requests, k, r)
      ensures DeletedAt(requests[..n], k, r.id) == DeletedAt(requests, k, r.id)
    {
      SameAnswer(requests, n, k, r);
    }
  }

  /** After any sequence of requests the stored rules are exactly those that were created and not deleted since. */
  lemma {:induction false} StoredIff(requests: seq<Request>, r: Rule)
    ensures r in Run(Policy([], 0, 0), requests).0.rules <==> CreatedAndKept(requests, r)
  {
    if requests != [] {
      var n := |requests| - 1;
      var p := Run(Policy([], 0, 0), requests[..n]).0;
      StoredIff(requests[..n], r);
      KeptNext(requests, r);
      var (change, guarded) := requests[n];
      hide CreatedAndKept, Apply;
      if change.Create? {
        CreateIff(p, change, guarded);
        StoredAfterCreate(p, change, guarded, r);
      } else {
        DeleteIff(p, change.id, guarded);
      }
    }
  }

  lemma StoredAfterCreate(p: Policy, change: Change, guarded: seq<Network>, r: Rule)
    requires change.Create?
    ensures r in Apply(p, change, guarded).0.rules <==>
      || r in p.rules
      || (Says(r, change) && Apply(p, change, guarded).1 == Created(r.id))
  {
    CreateIff(p, change, guarded);
    hide Apply, Passes, Stores;
  }

  /** What a Worker receives: the stored lists, narrowed to their actions. */
  datatype WorkerPolicy = WorkerPolicy(revision: nat, allow: seq<Network>, denyExtra: seq<Network>, guarded: seq<Network>)

  function PolicyForWorkers(p: Policy, guarded: seq<Network>): WorkerPolicy {
    WorkerPolicy(p.revision, NetworksOf(OfAction(p.rules, Allow)), NetworksOf(OfAction(p.rules, Deny)), guarded)
  }

  /** A Worker receives exactly the networks of the stored rules, by action, with the revision they belong to. */
  lemma WorkersReceiveIff(p: Policy, guarded: seq<Network>, n: Network)
    ensures var sent := PolicyForWorkers(p, guarded);
      && sent.revision == p.revision && sent.guarded == guarded
      && (n in sent.allow <==> exists r :: r in p.rules && r.action == Allow && r.network == n)
      && (n in sent.denyExtra <==> exists r :: r in p.rules && r.action == Deny && r.network == n)
  {
    ReceivedIff(p.rules, Allow, n);
    ReceivedIff(p.rules, Deny, n);
  }

  lemma ReceivedIff(rules: seq<Rule>, action: Action, n: Network)
    ensures n in NetworksOf(OfAction(rules, action)) <==> exists r :: r in rules && r.action == action && r.network == n
  {
    var own := OfAction(rules, action);
    OfActionMembers(rules, action);
    if k :| 0 <= k < |own| && NetworksOf(own)[k] == n { assert own[k] in rules; }
    if r :| r in rules && r.action == action && r.network == n {
      assert r in own;
      var k :| 0 <= k < |own| && own[k] == r;
      assert NetworksOf(own)[k] == n;
    }
  }

  /** Workers never receive an allow network outside the default and extra deny ranges. */
  lemma WorkersOpenOnlyDenied(requests: seq<Request>, guarded: seq<Network>, n: Network, a: int)
    requires n in PolicyForWorkers(Run(Policy([], 0, 0), requests).0, guarded).allow && InNetwork(a, n)
    ensures
      || Covers(DefaultDeny(), a)
      || exists d :: d in PolicyForWorkers(Run(Policy([], 0, 0), requests).0, guarded).denyExtra && InNetwork(a, d)
  {
    EveryRunKeepsPolicy(requests);
    var p := Run(Policy([], 0, 0), requests).0;
    var allow, deny := OfAction(p.rules, Allow), OfAction(p.rules, Deny);
    OfActionMembers(p.rules, Allow);
    OfActionMembers(p.rules, Deny);
    var k :| 0 <= k < |allow| && NetworksOf(allow)[k] == n;
    assert allow[k] in p.rules && Denied(p.rules, a);
    if !Covers(DefaultDeny(), a) {
      var r :| r in p.rules && r.action == Deny && InNetwork(a, r.network);
      assert r in deny;
      var j :| 0 <= j < |deny| && deny[j] == r;
      assert NetworksOf(deny)[j] == r.network;
    }
  }
}
