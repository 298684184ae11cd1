/** Login throttling: one counter's transition, the SQL upsert that performs it, and the cleanup. */
module AuthThrottle {
  import opened Wrappers

  /** Milliseconds. */
  type Time = int

  datatype Policy = Policy(threshold: nat, windowMs: nat, lockMs: nat)

  datatype Counter = Counter(windowStart: Time, failures: nat, lockedUntil: Option<Time>)

  predicate Expired(previous: Option<Counter>, policy: Policy, now: Time) {
    || previous.None?
    || previous.value.windowStart + policy.windowMs <= now
    || (previous.value.lockedUntil.Some? && previous.value.lockedUntil.value <= now)
  }

  /** One more hit on a counter: it begins a new episode once the last one is over, and the T-th of an episode sets the lock. */
  function Next(previous: Option<Counter>, policy: Policy, now: Time): Counter {
    var expired := Expired(previous, policy, now);
    var failures := if expired then 1 else previous.value.failures + 1;
    Counter(
      if expired then now else previous.value.windowStart,
      failures,
      if failures >= policy.threshold then Some(now + policy.lockMs)
      else if expired then None
      else previous.value.lockedUntil)
  }

  /** The lock a check at the given time finds. */
  function LockAt(counter: Option<Counter>, now: Time): Option<Time> {
    if counter.Some? && counter.value.lockedUntil.Some? && counter.value.lockedUntil.value > now
    then counter.value.lockedUntil else None
  }

  // ---------------------------------------------------------------- the SQL upsert

  /** SQL's three-valued truth: `None` is NULL. */
  type Sql = Option<bool>

  function SqlLe(a: Option<Time>, b: Time): Sql {
    if a.Some? then Some(a.value <= b) else None
  }

  function SqlOr(a: Sql, b: Sql): Sql {
    if a == Some(true) || b == Some(true) then Some(true)
    else if a.None? || b.None? then None
    else Some(false)
  }

  datatype Scope = LoginIp | Ip | Login | SsoStart

  /** The hashed text of a counter key; the hash is taken to be injective. */
  datatype Key =
    | LoginIpKey(account: nat, address: nat) | IpKey(address: nat) | LoginKey(account: nat) | SsoStartKey(address: nat)

  function ScopeOf(key: Key): Scope {
    match key
    case LoginIpKey(_, _) => LoginIp
    case IpKey(_) => Ip
    case LoginKey(_) => Login
    case SsoStartKey(_) => SsoStart
  }

  datatype Hit = Hit(key: Key, policy: Policy)

  type Counters = map<Key, Counter>

  function Lookup(counters: Counters, key: Key): Option<Counter> {
    if key in counters then Some(counters[key]) else None
  }

  /** The scopes that reach their threshold exactly here get one lock event each. */
  function Recorded(counters: Counters, hits: seq<Hit>, now: Time): (Counters, seq<Scope>) {
    if hits == [] then (counters, [])
    else
      var n := |hits| - 1;
      var (before, events) := Recorded(counters, hits[..n], now);
      var counter := Next(Lookup(before, hits[n].key), hits[n].policy, now);
      (before[hits[n].key := counter],
       if counter.failures == hits[n].policy.threshold then events + [ScopeOf(hits[n].key)] else events)
  }

  /** How long the keys stay locked: `None` when no counter of theirs is. */
  function LatestLock(counters: Counters, keys: seq<Key>, now: Time): (lock: Option<Time>)
    ensures lock.None? <==> forall k :: k in keys ==> LockAt(Lookup(counters, k), now).None?
    ensures lock.Some? ==>
      && lock.value > now
      && (exists k :: k in keys && LockAt(Lookup(counters, k), now) == lock)
      && (forall k :: k in keys && LockAt(Lookup(counters, k), now).Some? ==> LockAt(Lookup(counters, k), now).value <= lock.value)
  {
    if keys == [] then None
    else
      var first := LockAt(Lookup(counters, keys[0]), now);
      var rest := LatestLock(counters, keys[1..], now);
      assert keys == [keys[0]] + keys[1..];
      if rest.None? then first
      else if first.None? then rest
      else if first.value > rest.value then first else rest
  }

  datatype Policies = Policies(loginIp: Policy, ip: Policy, login: Policy, ssoStart: Policy)

  function Max(a: nat, b: nat): nat {
    if a > b then a else b
  }

  function PolicyOf(policies: Policies, scope: Scope): Policy {
    match scope
    case LoginIp => policies.loginIp
    case Ip => policies.ip
    case Login => policies.login
    case SsoStart => policies.ssoStart
  }

  // ---------------------------------------------------------------- a local login

  /** The counters whose locks turn a login away: all three, but for a trusted network not that of the account. */
  function LocalLoginKeys(account: nat, address: nat, trusted: bool): seq<Key> {
    [LoginIpKey(account, address), IpKey(address)] + (if trusted then [] else [LoginKey(account)])
  }

  function LocalLoginFailureHits(account: nat, address: nat, policies: Policies): seq<Hit> {
    [Hit(LoginIpKey(account, address), policies.loginIp), Hit(IpKey(address), policies.ip), Hit(LoginKey(account), policies.login)]
  }

  datatype Answer =
    | RateLimited(until: Time) | InvalidRequest(locks: seq<Scope>) | InvalidCredentials(locks: seq<Scope>) | LoggedIn

  /** A login request: whether its body parses, the credentials match and a session can be created. */
  datatype Request = Request(parses: bool, account: nat, matches: bool, createsSession: bool)

  /**
   * The counters a failed login bumps were all found unlocked by its check, except that from a
   * trusted network the account counter may be locked.
   */
  lemma FailureIsGatedIff(counters: Counters, account: nat, address: nat, trusted: bool, policies: Policies, checked: Time)
    requires LatestLock(counters, LocalLoginKeys(account, address, trusted), checked).None?
    ensures (forall h :: h in LocalLoginFailureHits(account, address, policies) ==> LockAt(Lookup(counters, h.key), checked).None?)
      <==> !trusted || LockAt(Lookup(counters, LoginKey(account)), checked).None?
  {
    var keys, hits := LocalLoginKeys(account, address, trusted), LocalLoginFailureHits(account, address, policies);
    assert keys[0] in keys && keys[1] in keys && (!trusted ==> keys[2] in keys);
    assert hits[2] in hits && hits[2].key == LoginKey(account);
  }

  class Throttle {
    var counters: Counters

    constructor ()
      ensures counters == map[]
    {
      counters := map[];
    }

    /** One upsert: the expressions of its SET clause, evaluated on the old row. */
    method Upsert(hit: Hit, now: Time) returns (row: Counter)
      modifies this
      ensures row == Next(Lookup(old(counters), hit.key), hit.policy, now)
      ensures counters == old(counters)[hit.key := row]
    {
      var windowStart := now - hit.policy.windowMs;
      var lockedUntil := now + hit.policy.lockMs;
      if hit.key !in counters {
        row := Counter(now, 1, if 1 >= hit.policy.threshold then Some(lockedUntil) else None);
      } else {
        var old_ := counters[hit.key];
        var startsOver := SqlOr(SqlLe(Some(old_.windowStart), windowStart), SqlLe(old_.lockedUntil, now)) == Some(true);
        row := Counter(
          if startsOver then now else old_.windowStart,
          if startsOver then 1 else old_.failures + 1,
          if (if startsOver then 1 else old_.failures + 1) >= hit.policy.threshold then Some(lockedUntil)
          else if startsOver then None
          else old_.lockedUntil);
      }
      counters := counters[hit.key := row];
    }

    method RecordAuthThrottleHits(hits: seq<Hit>, now: Time) returns (locked: seq<Scope>)
      modifies this
      ensures (counters, locked) == Recorded(old(counters), hits, now)
    {
      locked := [];
      for i := 0 to |hits|
        invariant (counters, locked) == Recorded(old(counters), hits[..i], now)
      {
        assert hits[..i + 1][..i] == hits[..i];
        var row := Upsert(hits[i], now);
        if row.failures == hits[i].policy.threshold {
          locked := locked + [ScopeOf(hits[i].key)];
        }
      }
      assert hits[..|hits|] == hits;
    }

    /**
     * Lock check, verification, counting. A locked attempt counts nothing; a request that does not
     * parse is checked and counted by its address alone; a success forgets only the counter of this
     * account and address.
     */
    method LocalLogin(request: Request, address: nat, trusted: bool, policies: Policies, checkedAt: Time, now: Time)
      returns (answer: Answer)
      modifies this
      ensures
        var keys := if request.parses then LocalLoginKeys(request.account, address, trusted) else [IpKey(address)];
        var lock := LatestLock(old(counters), keys, checkedAt);
        var hits := if request.parses then LocalLoginFailureHits(request.account, address, policies)
                    else [Hit(IpKey(address), policies.ip)];
        var (recorded, locks) := Recorded(old(counters), hits, now);
        if lock.Some? then answer == RateLimited(lock.value) && counters == old(counters)
        else if !request.parses then answer == InvalidRequest(locks) && counters == recorded
        else if !request.matches then answer == InvalidCredentials(locks) && counters == recorded
        else if !request.createsSession then answer == InvalidCredentials([]) && counters == old(counters)
        else answer == LoggedIn && counters == old(counters) - {LoginIpKey(request.account, address)}
    {
      if !request.parses {
        var addressLock := LatestLock(counters, [IpKey(address)], checkedAt);
        if addressLock.Some? { return RateLimited(addressLock.value); }
        var locks := RecordAuthThrottleHits([Hit(IpKey(address), policies.ip)], now);
        return InvalidRequest(locks);
      }
      var lock := LatestLock(counters, LocalLoginKeys(request.account, address, trusted), checkedAt);
      if lock.Some? { return RateLimited(lock.value); }
      if !request.matches {
        var locks := RecordAuthThrottleHits(LocalLoginFailureHits(request.account, address, policies), now);
        return InvalidCredentials(locks);
      }
      if !request.createsSession { return InvalidCredentials([]); }
      counters := counters - {LoginIpKey(request.account, address)};
      return LoggedIn;
    }

    /** Exactly the counters that can no longer influence any decision are removed. */
    method DeleteExpiredAuthThrottle(now: Time, maxWindowMs: nat) returns (removed: int)
      modifies this
      ensures forall k :: k in counters <==> k in old(counters) && !Deletable(old(counters)[k], now, maxWindowMs)
      ensures forall k :: k in counters <==>
        k in old(counters) && (old(counters)[k].windowStart + maxWindowMs > now || LockAt(Some(old(counters)[k]), now).Some?)
      ensures forall k :: k in counters ==> counters[k] == old(counters)[k]
      ensures removed == |old(counters)| - |counters|
    {
      var kept := map k | k in counters && !Deletable(counters[k], now, maxWindowMs) :: counters[k];
      removed := |counters| - |kept|;
      counters := kept;
    }
  }

  predicate Deletable(c: Counter, now: Time, maxWindowMs: nat) {
    c.windowStart <= now - maxWindowMs && (c.lockedUntil.None? || c.lockedUntil.value <= now)
  }

  // ---------------------------------------------------------------- one counter over a run

  /** The counter after hits at the given times, and no counter before the first. */
  function After(times: seq<Time>, policy: Policy): Option<Counter> {
    if times == [] then None
    else Some(Next(After(times[..|times| - 1], policy), policy, times[|times| - 1]))
  }

  function At(times: seq<Time>, k: nat, policy: Policy): Counter
    requires k < |times|
  {
    Next(After(times[..k], policy), policy, times[k])
  }

  predicate InOrder(times: seq<Time>) {
    forall i, j :: 0 <= i < j < |times| ==> times[i] <= times[j]
  }

  /** A lock check before the hit, at or before its time, that finds nothing. */
  predicate FoundNoLock(times: seq<Time>, k: nat, policy: Policy, checked: Time)
    requires k < |times|
  {
    checked <= times[k] && LockAt(After(times[..k], policy), checked).None?
  }

  ghost predicate PassedCheck(times: seq<Time>, k: nat, policy: Policy)
    requires k < |times|
  {
    exists checked :: FoundNoLock(times, k, policy, checked)
  }

  /** Each hit follows such a check. */
  ghost predicate Gated(times: seq<Time>, policy: Policy) {
    && InOrder(times)
    && forall k :: 0 <= k < |times| ==> PassedCheck(times, k, policy)
  }

  /** The hit starts a new counting episode. */
  predicate StartsOver(times: seq<Time>, k: nat, policy: Policy)
    requires k < |times|
  {
    Expired(After(times[..k], policy), policy, times[k])
  }

  lemma NextHit(times: seq<Time>, k: nat, policy: Policy)
    requires k + 1 < |times|
    ensures After(times[..k + 1], policy) == Some(At(times, k, policy))
    ensures At(times, k + 1, policy) == Next(Some(At(times, k, policy)), policy, times[k + 1])
    ensures StartsOver(times, k + 1, policy) == Expired(Some(At(times, k, policy)), policy, times[k + 1])
  {
    assert times[..k + 1][..k] == times[..k];
  }

  /** `last` is the counter after `n` hits more than `first`, whose own hit was at `since`. */
  predicate CountedSince(first: Counter, last: Counter, since: Time, n: nat, policy: Policy) {
    || (last.windowStart == first.windowStart && last.failures == first.failures + n)
    || (last.windowStart >= since && policy.threshold >= 2 && n + 1 <= policy.threshold - 2 + last.failures)
  }

  /** What a gated hit at the given time leaves behind. */
  predicate GatedCounter(c: Counter, policy: Policy, now: Time) {
    && 1 <= c.failures <= policy.threshold
    && (c.failures < policy.threshold ==> c.lockedUntil.None?)
    && (c.failures == policy.threshold ==> c.lockedUntil == Some(now + policy.lockMs))
    && c.windowStart <= now
    && (c.windowStart < now ==> c.failures >= 2)
  }

  lemma {:induction false} GatedHit(times: seq<Time>, k: nat, policy: Policy)
    requires Gated(times, policy) && policy.threshold >= 1 && k < |times|
    ensures GatedCounter(At(times, k, policy), policy, times[k])
  {
    assert PassedCheck(times, k, policy);
    if k > 0 {
      GatedHit(times, k - 1, policy);
      NextHit(times, k - 1, policy);
    } else {
      assert times[..0] == [];
    }
  }

  lemma CountStep(first: Counter, last: Counter, since: Time, before: Time, now: Time, n: nat, policy: Policy)
    requires policy.threshold >= 1 && GatedCounter(first, policy, since) && GatedCounter(last, policy, before)
    requires CountedSince(first, last, since, n, policy)
    requires since <= before <= now && now - since < policy.windowMs && now - since < policy.lockMs
    requires last.lockedUntil.Some? ==> last.lockedUntil.value <= now
    ensures CountedSince(first, Next(Some(last), policy, now), since, n + 1, policy)
  {
  }

  lemma {:induction false} CountsSince(times: seq<Time>, i: nat, j: nat, policy: Policy)
    requires Gated(times, policy) && policy.threshold >= 1 && i <= j < |times|
    requires times[j] - times[i] < policy.windowMs && times[j] - times[i] < policy.lockMs
    ensures CountedSince(At(times, i, policy), At(times, j, policy), times[i], j - i, policy)
  {
    if i < j {
      CountsSince(times, i, j - 1, policy);
      GatedHit(times, i, policy);
      GatedHit(times, j - 1, policy);
      NextHit(times, j - 1, policy);
      assert PassedCheck(times, j, policy);
      hide At, After, CountedSince;
      CountStep(At(times, i, policy), At(times, j - 1, policy), times[i], times[j - 1], times[j], j - 1 - i, policy);
    }
  }

  /**
   * On a gated run, any half-open interval no longer than the window and the lock contains at
   * most 2T - 2 counted failures (one when T = 1).
   */
  lemma GatedIntervalBound(times: seq<Time>, i: nat, j: nat, policy: Policy, start: Time, length: nat)
    requires Gated(times, policy) && policy.threshold >= 1 && i <= j < |times|
    requires length <= policy.windowMs && length <= policy.lockMs
    requires start <= times[i] && times[j] < start + length
    ensures j - i + 1 <= if policy.threshold == 1 then 1 else 2 * policy.threshold - 2
  {
    CountsSince(times, i, j, policy);
    GatedHit(times, i, policy);
    GatedHit(times, j, policy);
    if i < j {
      GatedHit(times, j - 1, policy);
      NextHit(times, j - 1, policy);
    }
  }

  /** While a lock lasts, a gated run counts nothing, so the lock is never shortened. */
  lemma {:induction false} LockHolds(times: seq<Time>, i: nat, j: nat, policy: Policy)
    requires Gated(times, policy) && policy.threshold >= 1 && i < j < |times|
    requires At(times, i, policy).lockedUntil.Some?
    ensures times[j] >= At(times, i, policy).lockedUntil.value
  {
    if i < j - 1 {
      LockHolds(times, i, j - 1, policy);
    } else {
      NextHit(times, i, policy);
      assert PassedCheck(times, j, policy);
    }
  }

  /** A hit that no check stopped shortens a lock in force exactly when the window has run out. */
  lemma LockShortenedIff(previous: Counter, policy: Policy, now: Time)
    requires previous.lockedUntil.Some? && now < previous.lockedUntil.value <= now + policy.lockMs
    requires policy.threshold >= 1
    ensures var lock := Next(Some(previous), policy, now).lockedUntil;
      (lock.None? || lock.value < previous.lockedUntil.value) <==>
        previous.windowStart + policy.windowMs <= now && policy.threshold > 1
  {
  }

  // ---------------------------------------------------------------- which login shortens a lock

  /** A failed login counts on its three counters independently of each other. */
  lemma FailureCounts(counters: Counters, account: nat, address: nat, policies: Policies, now: Time)
    ensures var after := Recorded(counters, LocalLoginFailureHits(account, address, policies), now).0;
      && Lookup(after, LoginIpKey(account, address)) == Some(Next(Lookup(counters, LoginIpKey(account, address)), policies.loginIp, now))
      && Lookup(after, IpKey(address)) == Some(Next(Lookup(counters, IpKey(address)), policies.ip, now))
      && Lookup(after, LoginKey(account)) == Some(Next(Lookup(counters, LoginKey(account)), policies.login, now))
      && (forall key :: key != LoginIpKey(account, address) && key != IpKey(address) && key != LoginKey(account) ==>
          Lookup(after, key) == Lookup(counters, key))
      && after.Keys == counters.Keys + {LoginIpKey(account, address), IpKey(address), LoginKey(account)}
  {
    hide Next;
    var hits := LocalLoginFailureHits(account, address, policies);
    assert hits == [hits[0], hits[1]] + [hits[2]] && [hits[0]] + [hits[1]] == [hits[0], hits[1]] && [] + [hits[0]] == [hits[0]];
    assert Recorded(counters, [], now).0 == counters;
    hide Recorded;
    var one := RecordedNext(counters, [], hits[0], now);
    var two := RecordedNext(counters, [hits[0]], hits[1], now);
    var three := RecordedNext(counters, [hits[0], hits[1]], hits[2], now);
  }

  lemma RecordedNext(counters: Counters, hits: seq<Hit>, hit: Hit, now: Time) returns (after: Counters)
    ensures var before := Recorded(counters, hits, now).0;
      after == Recorded(counters, hits + [hit], now).0 && after == before[hit.key := Next(Lookup(before, hit.key), hit.policy, now)]
  {
    assert (hits + [hit])[..|hits|] == hits;
    after := Recorded(counters, hits + [hit], now).0;
  }

  /** Of the logins that pass their check only one from a trusted network meets a lock of its account. */
  lemma TrustedFailureShortensIff(
    counters: Counters, account: nat, address: nat, trusted: bool, policies: Policies, checkedAt: Time, now: Time)
    requires LatestLock(counters, LocalLoginKeys(account, address, trusted), checkedAt).None? && checkedAt <= now
    requires policies.login.threshold >= 1 && LockAt(Lookup(counters, LoginKey(account)), now).Some?
    requires counters[LoginKey(account)].lockedUntil.value <= now + policies.login.lockMs
    ensures trusted
    ensures var before := counters[LoginKey(account)];
      var after := Recorded(counters, LocalLoginFailureHits(account, address, policies), now).0[LoginKey(account)];
      (after.lockedUntil.None? || after.lockedUntil.value < before.lockedUntil.value) <==>
        before.windowStart + policies.login.windowMs <= now && policies.login.threshold > 1
  {
    assert LocalLoginKeys(account, address, false)[2] == LoginKey(account);
    FailureIsGatedIff(counters, account, address, trusted, policies, checkedAt);
    FailureCounts(counters, account, address, policies, now);
    LockShortenedIff(counters[LoginKey(account)], policies.login, now);
  }

  /** Failed logins of one account, the `k`-th from address `k`: one at time zero and the rest just before the window ends. */
  function Failures(account: nat, policies: Policies, n: nat): Counters {
    if n == 0 then map[]
    else
      Recorded(Failures(account, policies, n - 1), LocalLoginFailureHits(account, n - 1, policies), FailureTime(policies, n - 1)).0
  }

  function FailureTime(policies: Policies, k: nat): Time {
    if k == 0 then 0 else policies.login.windowMs - 1
  }

  /** The first `n` failures touch no address from `n` on. */
  lemma {:induction false} FailuresTouch(account: nat, policies: Policies, n: nat)
    ensures forall key :: key in Failures(account, policies, n) ==>
      (key.LoginIpKey? && key.address < n) || (key.IpKey? && key.address < n) || key == LoginKey(account)
  {
    if n > 0 {
      FailuresTouch(account, policies, n - 1);
      FailureCounts(Failures(account, policies, n - 1), account, n - 1, policies, FailureTime(policies, n - 1));
      hide Recorded, LocalLoginFailureHits, Next;
    }
  }

  /** The account counter after the first `n` failures. */
  function AccountCounter(policies: Policies, n: nat): Option<Counter> {
    if n == 0 then None
    else
      Some(Counter(0, n,
        if n == policies.login.threshold then Some(policies.login.windowMs - 1 + policies.login.lockMs) else None))
  }

  lemma {:induction false} FailuresCount(account: nat, policies: Policies, n: nat)
    requires policies.login.threshold > 1 && policies.login.windowMs >= 1 && n <= policies.login.threshold
    ensures Lookup(Failures(account, policies, n), LoginKey(account)) == AccountCounter(policies, n)
  {
    if n > 0 {
      FailuresCount(account, policies, n - 1);
      FailureCounts(Failures(account, policies, n - 1), account, n - 1, policies, FailureTime(policies, n - 1));
      hide Recorded, LocalLoginFailureHits;
      assert AccountCounter(policies, n) == Some(Next(AccountCounter(policies, n - 1), policies.login, FailureTime(policies, n - 1)));
    }
  }

  /**
   * A lock in force is shortened on a reachable run: T failures from outside, each of which passed
   * its check, lock the account; one more from a trusted network, when the window has just run
   * out, passes its check too and unlocks the account for everybody.
   */
  lemma TrustedFailureUnlocks(account: nat, policies: Policies)
    requires policies.login.threshold > 1 && policies.login.windowMs >= 1 && policies.login.lockMs > 1
    ensures forall k :: 0 <= k < policies.login.threshold ==>
      LatestLock(Failures(account, policies, k), LocalLoginKeys(account, k, false), FailureTime(policies, k)).None?
    ensures var counters, address, now :=
        Failures(account, policies, policies.login.threshold), policies.login.threshold, policies.login.windowMs;
      && LockAt(Lookup(counters, LoginKey(account)), now).Some?
      && LatestLock(counters, LocalLoginKeys(account, address, true), now).None?
      && var after := Recorded(counters, LocalLoginFailureHits(account, address, policies), now).0;
        LockAt(Lookup(after, LoginKey(account)), now).None?
  {
    forall k | 0 <= k < policies.login.threshold
      ensures LatestLock(Failures(account, policies, k), LocalLoginKeys(account, k, false), FailureTime(policies, k)).None?
    {
      FailurePassesItsCheck(account, policies, k);
    }
    LastFailureUnlocks(account, policies);
  }

  lemma FailurePassesItsCheck(account: nat, policies: Policies, k: nat)
    requires policies.login.threshold > 1 && policies.login.windowMs >= 1 && k < policies.login.threshold
    ensures LatestLock(Failures(account, policies, k), LocalLoginKeys(account, k, false), FailureTime(policies, k)).None?
  {
    FailuresTouch(account, policies, k);
    FailuresCount(account, policies, k);
    hide Failures;
  }

  lemma LastFailureUnlocks(account: nat, policies: Policies)
    requires policies.login.threshold > 1 && policies.login.windowMs >= 1 && policies.login.lockMs > 1
    ensures var counters, address, now :=
        Failures(account, policies, policies.login.threshold), policies.login.threshold, policies.login.windowMs;
      && LockAt(Lookup(counters, LoginKey(account)), now).Some?
      && LatestLock(counters, LocalLoginKeys(account, address, true), now).None?
      && LockAt(Lookup(Recorded(counters, LocalLoginFailureHits(account, address, policies), now).0, LoginKey(account)), now).None?
  {
    var n := policies.login.threshold;
    FailuresTouch(account, policies, n);
    FailuresCount(account, policies, n);
    FailureCounts(Failures(account, policies, n), account, n, policies, policies.login.windowMs);
    hide Failures, Recorded, LocalLoginFailureHits;
  }

  // ---------------------------------------------------------------- the bound is reached

  function Repeat(t: Time, n: nat): (times: seq<Time>)
    ensures |times| == n && forall k :: 0 <= k < n ==> times[k] == t
  {
    seq(n, _ => t)
  }

  /** One early failure, then T - 2 just before its window ends and T in the next window. */
  function WorstCase(policy: Policy, m: nat): seq<Time>
    requires policy.threshold >= 2
  {
    [0] + Repeat(policy.windowMs - 1, policy.threshold - 2) + Repeat(policy.windowMs, m)
  }

  lemma {:induction false} WorstCaseFirst(policy: Policy, n: nat)
    requires n + 1 < policy.threshold && policy.windowMs >= 2
    ensures After([0] + Repeat(policy.windowMs - 1, n), policy) == Some(Counter(0, n + 1, None))
  {
    var times := [0] + Repeat(policy.windowMs - 1, n);
    if n == 0 {
      assert times == [0] && times[..0] == [];
    } else {
      WorstCaseFirst(policy, n - 1);
      assert times[..|times| - 1] == [0] + Repeat(policy.windowMs - 1, n - 1);
    }
  }

  lemma {:induction false} WorstCaseSecond(policy: Policy, m: nat)
    requires policy.threshold >= 2 && policy.windowMs >= 2 && 1 <= m < policy.threshold
    ensures After(WorstCase(policy, m), policy) == Some(Counter(policy.windowMs, m, None))
  {
    var times := WorstCase(policy, m);
    assert times[..|times| - 1] == WorstCase(policy, m - 1);
    if m == 1 {
      WorstCaseFirst(policy, policy.threshold - 2);
      assert WorstCase(policy, 0) == [0] + Repeat(policy.windowMs - 1, policy.threshold - 2);
    } else {
      WorstCaseSecond(policy, m - 1);
    }
  }

  /** Some gated run has 2T - 2 failures in an interval as long as the window. */
  lemma GatedIntervalBoundIsReached(policy: Policy) returns (times: seq<Time>)
    requires policy.threshold >= 2 && policy.windowMs >= 2
    ensures Gated(times, policy) && |times| == 2 * policy.threshold - 1
    ensures forall k :: 1 <= k < |times| ==> policy.windowMs - 1 <= times[k] < policy.windowMs + 1
  {
    times := WorstCase(policy, policy.threshold);
    forall k | 0 <= k < |times| ensures PassedCheck(times, k, policy) {
      WorstCaseIsGated(policy, k);
      assert FoundNoLock(times, k, policy, times[k]);
    }
  }

  lemma WorstCaseIsGated(policy: Policy, k: nat)
    requires policy.threshold >= 2 && policy.windowMs >= 2 && k < |WorstCase(policy, policy.threshold)|
    ensures var times := WorstCase(policy, policy.threshold); FoundNoLock(times, k, policy, times[k])
  {
    var times := WorstCase(policy, policy.threshold);
    var first := policy.threshold - 1;
    if k == 0 {
      assert times[..k] == [];
    } else if k <= first {
      WorstCaseFirst(policy, k - 1);
      assert times[..k] == [0] + Repeat(policy.windowMs - 1, k - 1);
    } else {
      WorstCaseSecond(policy, k - first);
      assert times[..k] == WorstCase(policy, k - first);
    }
  }

  // ---------------------------------------------------------------- one lock event per episode

  /** The hit reaches the threshold exactly and records the lock event. */
  predicate RecordsEvent(times: seq<Time>, k: nat, policy: Policy)
    requires k < |times|
  {
    At(times, k, policy).failures == policy.threshold
  }

  /** Within one counting episode the failures count the hits, gated or not. */
  lemma {:induction false} EpisodeCounts(times: seq<Time>, i: nat, j: nat, policy: Policy)
    requires i <= j < |times| && forall r :: i < r <= j ==> !StartsOver(times, r, policy)
    ensures At(times, j, policy).failures == At(times, i, policy).failures + (j - i)
  {
    if i < j {
      EpisodeCounts(times, i, j - 1, policy);
      NextHit(times, j - 1, policy);
      assert !StartsOver(times, j, policy);
    }
  }

  /**
   * An episode that begins with hit `i` and runs to hit `j` records one lock event when it
   * reaches the threshold, however far concurrent hits run past it, and none otherwise.
   */
  lemma OneEventPerEpisode(times: seq<Time>, i: nat, j: nat, policy: Policy)
    requires policy.threshold >= 1 && i <= j < |times|
    requires StartsOver(times, i, policy) && forall r :: i < r <= j ==> !StartsOver(times, r, policy)
    ensures forall k :: i <= k <= j ==> (RecordsEvent(times, k, policy) <==> k == i + policy.threshold - 1)
    ensures At(times, j, policy).failures >= policy.threshold <==> exists k :: i <= k <= j && RecordsEvent(times, k, policy)
  {
    forall k | i <= k <= j ensures At(times, k, policy).failures == k - i + 1 {
      EpisodeCounts(times, i, k, policy);
    }
    var last := i + policy.threshold - 1;
    if last <= j { assert RecordsEvent(times, last, policy); }
  }

  // ---------------------------------------------------------------- cleanup changes nothing

  /** The longest window of all counters. */
  function MaxWindowMs(policies: Policies): (ms: nat)
    ensures forall scope :: PolicyOf(policies, scope).windowMs <= ms
    ensures exists scope :: PolicyOf(policies, scope).windowMs == ms
  {
    var ms := Max(Max(policies.loginIp.windowMs, policies.ip.windowMs), Max(policies.login.windowMs, policies.ssoStart.windowMs));
    assert PolicyOf(policies, LoginIp).windowMs == policies.loginIp.windowMs;
    assert PolicyOf(policies, Ip).windowMs == policies.ip.windowMs;
    assert PolicyOf(policies, Login).windowMs == policies.login.windowMs;
    assert PolicyOf(policies, SsoStart).windowMs == policies.ssoStart.windowMs;
    ms
  }

  datatype Event = Count(now: Time) | Check(now: Time) | Cleanup(now: Time)

  /** What a caller sees of an event. */
  datatype Seen = Counted(counter: Counter, locks: bool) | Checked(lock: Option<Time>) | Nothing

  /** One counter over events, with the cleanup performed or left out. */
  function Play(events: seq<Event>, policy: Policy, maxWindowMs: nat, cleans: bool): (Option<Counter>, seq<Seen>) {
    if events == [] then (None, [])
    else
      var n := |events| - 1;
      var (counter, seen) := Play(events[..n], policy, maxWindowMs, cleans);
      match events[n]
      case Count(now) =>
        var next := Next(counter, policy, now);
        (Some(next), seen + [Counted(next, next.failures == policy.threshold)])
      case Check(now) => (counter, seen + [Checked(LockAt(counter, now))])
      case Cleanup(now) =>
        (if cleans && counter.Some? && Deletable(counter.value, now, maxWindowMs) then None else counter, seen + [Nothing])
  }

  predicate EventsInOrder(events: seq<Event>) {
    forall i, j :: 0 <= i < j < |events| ==> events[i].now <= events[j].now
  }

  /** A deleted counter and a kept one that no longer counts for anything. */
  ghost predicate Indistinguishable(cleaned: Option<Counter>, kept: Option<Counter>, policy: Policy, now: Time) {
    cleaned == kept || (cleaned.None? && forall later :: later >= now ==> Expired(kept, policy, later) && LockAt(kept, later).None?)
  }

  /**
   * Deleting expired counters at arbitrary times changes no later counter state, lock decision or
   * lock event, because the cleanup waits for the longest window of all.
   */
  lemma {:induction false} CleanupIsInvisible(events: seq<Event>, policies: Policies, scope: Scope)
    requires EventsInOrder(events)
    ensures var policy, window := PolicyOf(policies, scope), MaxWindowMs(policies);
      var (cleaned, seen), (kept, seenWithout) := Play(events, policy, window, true), Play(events, policy, window, false);
      && seen == seenWithout
      && (events != [] ==> Indistinguishable(cleaned, kept, policy, events[|events| - 1].now))
      && (events == [] ==> cleaned == kept)
  {
    if events != [] {
      CleanupIsInvisible(events[..|events| - 1], policies, scope);
    }
  }
}
