/** Failure counters that start a cool-down (cms/rate_limiting.py:395-408, 421-466, 486-499). Times are
    microseconds; the settings are whole seconds. */
module CoolDowns {
  import opened Wrappers

  datatype Policy = Policy(maxAttempts: int, retryAfter: nat, resetAfter: nat) {
    function Retry(): int { retryAfter * 1_000_000 }
    function Reset(): int { resetAfter * 1_000_000 }
  }

  datatype Failures = Failures(limitedAt: int, resetAt: Option<int>, count: nat)

  // ---------------------------------------------------------------------------
  // What the attempts alone say
  // ---------------------------------------------------------------------------

  /** Attempts `from ..` follow each other without a gap longer than the reset time. */
  ghost predicate Unbroken(policy: Policy, attempts: seq<int>, from: nat) {
    forall i | from < i < |attempts| :: attempts[i] - attempts[i - 1] <= policy.Reset()
  }

  /** Length of the unbroken run that ends with attempt n - 1. */
  function Streak(policy: Policy, attempts: seq<int>, n: nat): (k: nat)
    requires n <= |attempts|
    ensures k <= n && (n > 0 ==> k > 0)
  {
    if n <= 1 then n
    else if attempts[n - 1] - attempts[n - 2] > policy.Reset() then 1
    else Streak(policy, attempts, n - 1) + 1
  }

  /** The streak is the longest unbroken suffix. */
  lemma {:induction false} StreakIsLongest(policy: Policy, attempts: seq<int>, k: nat)
    requires k <= |attempts|
    ensures k <= Streak(policy, attempts, |attempts|) <==> k == 0 || Unbroken(policy, attempts, |attempts| - k)
  {
    var n := |attempts|;
    if n > 1 && k > 0 {
      var before := attempts[..n - 1];
      StreakPrefix(policy, attempts, before, n - 1);
      StreakIsLongest(policy, before, k - 1);
      if k > 1 {
        assert Unbroken(policy, attempts, n - k) <==>
          Unbroken(policy, before, n - k) && attempts[n - 1] - attempts[n - 2] <= policy.Reset();
      }
    }
  }

  lemma {:induction false} StreakPrefix(policy: Policy, a: seq<int>, b: seq<int>, n: nat)
    requires n <= |a| && n <= |b| && forall i | 0 <= i < n :: a[i] == b[i]
    ensures Streak(policy, a, n) == Streak(policy, b, n)
  {
    if n > 1 { StreakPrefix(policy, a, b, n - 1); }
  }

  predicate Limited(policy: Policy, attempts: seq<int>, now: int) {
    && attempts != []
    && Streak(policy, attempts, |attempts|) >= policy.maxAttempts
    && now < attempts[|attempts| - 1] + policy.Retry()
  }

  /** A site is limited exactly when its last attempts, as many as are allowed but at least one, follow each other
      without a gap longer than the reset time, and the last of them is less than the retry time ago. */
  lemma LimitedIff(policy: Policy, attempts: seq<int>, now: int)
    ensures var k := if policy.maxAttempts < 1 then 1 else policy.maxAttempts;
            Limited(policy, attempts, now) <==>
              && k <= |attempts|
              && (forall i | |attempts| - k < i < |attempts| :: attempts[i] - attempts[i - 1] <= policy.resetAfter * 1_000_000)
              && now - attempts[|attempts| - 1] < policy.retryAfter * 1_000_000
  {
    var k := if policy.maxAttempts < 1 then 1 else policy.maxAttempts;
    if k <= |attempts| { StreakIsLongest(policy, attempts, k); }
  }

  // ---------------------------------------------------------------------------
  // What the table keeps
  // ---------------------------------------------------------------------------

  function Attempted(policy: Policy, entry: Option<Failures>, now: int): Failures {
    var count := match entry
      case None => 1
      case Some(e) => if now - e.limitedAt > policy.Reset() then 1 else e.count + 1;
    Failures(now, if count >= policy.maxAttempts then Some(now + policy.Retry()) else None, count)
  }

  predicate Stale(entry: Failures, now: int, maxAge: nat) { now - entry.limitedAt > maxAge * 1_000_000 }

  predicate Active(entry: Option<Failures>, now: int) {
    entry.Some? && entry.value.resetAt.Some? && now < entry.value.resetAt.value
  }

  /** The entry agrees with the attempts; a site without entry has no attempt that still matters. */
  ghost predicate SiteInv(policy: Policy, entry: Option<Failures>, attempts: seq<int>, clock: int) {
    match entry
    case None =>
      attempts == [] ||
      (var last := attempts[|attempts| - 1]; clock - last > policy.Reset() && clock >= last + policy.Retry())
    case Some(e) =>
      var streak := Streak(policy, attempts, |attempts|);
      && attempts != [] && e.limitedAt == attempts[|attempts| - 1] <= clock && e.count == streak
      && e.resetAt == if streak >= policy.maxAttempts then Some(e.limitedAt + policy.Retry()) else None
  }

  lemma AttemptKeepsInv(policy: Policy, entry: Option<Failures>, attempts: seq<int>, clock: int, now: int)
    requires SiteInv(policy, entry, attempts, clock) && clock <= now
    ensures SiteInv(policy, Some(Attempted(policy, entry, now)), attempts + [now], now)
  {
    StreakPrefix(policy, attempts + [now], attempts, |attempts|);
  }

  lemma InvDecides(policy: Policy, entry: Option<Failures>, attempts: seq<int>, clock: int, now: int)
    requires SiteInv(policy, entry, attempts, clock) && clock <= now
    ensures Active(entry, now) <==> Limited(policy, attempts, now)
  {
  }

  class PlatformLimiter {
    const policyOf: string -> Policy
    var entries: map<string, Failures>
    ghost var attempts: map<string, seq<int>>
    ghost var clock: int

    ghost function At(site: string): Option<Failures> reads this {
      if site in entries then Some(entries[site]) else None
    }

    ghost function Attempts(site: string): seq<int> reads this {
      if site in attempts then attempts[site] else []
    }

    ghost predicate Valid() reads this {
      forall site :: SiteInv(policyOf(site), At(site), Attempts(site), clock)
    }

    constructor (policyOf: string -> Policy, ghost now: int)
      ensures Valid() && this.policyOf == policyOf && clock == now
      ensures entries == map[] && attempts == map[]
    {
      this.policyOf := policyOf;
      entries, attempts, clock := map[], map[], now;
    }

    /** In a valid table the returned count is the streak of the attempts made on this site, whatever was cleaned up
        meanwhile. */
    method RateLimitAfterN(site: string, policy: Policy, now: int) returns (count: nat)
      modifies this
      ensures count == Attempted(policy, old(At(site)), now).count && clock == now
      ensures attempts == old(attempts)[site := old(Attempts(site)) + [now]]
      ensures entries == old(entries)[site := Attempted(policy, old(At(site)), now)]
      ensures old(Valid()) && old(clock) <= now && policyOf(site) == policy ==>
                Valid() && count == Streak(policy, Attempts(site), |Attempts(site)|)
    {
      if Valid() && clock <= now && policyOf(site) == policy {
        AttemptKeepsInv(policy, At(site), Attempts(site), clock, now);
        OthersKeepInv(site, now);
      }
      ghost var entry, trail := Attempted(policy, At(site), now), Attempts(site) + [now];
      count := 0;
      if site in entries {
        count := entries[site].count;
        if now - entries[site].limitedAt > policy.Reset() {
          count := 0;
        }
      }
      count := count + 1;
      assert entry == Failures(now, if count >= policy.maxAttempts then Some(now + policy.Retry()) else None, count);
      if count >= policy.maxAttempts {
        entries := entries[site := Failures(now, Some(now + policy.Retry()), count)];
      } else {
        entries := entries[site := Failures(now, None, count)];
      }
      attempts, clock := attempts[site := trail], now;
      assert At(site) == Some(entry) && Attempts(site) == trail;
      assert forall other | other != site :: At(other) == old(At(other)) && Attempts(other) == old(Attempts(other));
    }

    /** In a valid table the answer depends on the attempts only. */
    method IsRateLimited(site: string, now: int) returns (limited: bool)
      ensures limited <==> Active(At(site), now)
      ensures Valid() && clock <= now ==> (limited <==> Limited(policyOf(site), Attempts(site), now))
    {
      if Valid() && clock <= now {
        InvDecides(policyOf(site), At(site), Attempts(site), clock, now);
      }
      limited := site in entries && entries[site].resetAt.Some? && now < entries[site].resetAt.value;
    }

    /** The table stays valid when neither a reset time nor a cool-down reaches past what is removed. */
    method CleanUp(now: int, maxAge: nat)
      modifies this
      ensures clock == now && attempts == old(attempts)
      ensures old(Valid()) && old(clock) <= now && Patient(maxAge) ==> Valid()
      ensures entries == map site | site in old(entries) && !Stale(old(entries[site]), now, maxAge) :: old(entries[site])
    {
      var stale := set site | site in entries && Stale(entries[site], now, maxAge);
      var rest := stale;
      while rest != {}
        invariant rest <= stale && entries == old(entries) - (stale - rest)
        invariant attempts == old(attempts) && clock == old(clock)
      {
        var site :| site in rest;
        entries := entries - {site};
        assert stale - (rest - {site}) == (stale - rest) + {site};
        rest := rest - {site};
      }
      assert stale - rest == stale;
      clock := now;
    }

    lemma OthersKeepInv(site: string, now: int)
      requires Valid() && clock <= now
      ensures forall other | other != site :: SiteInv(policyOf(other), At(other), Attempts(other), now)
    {
    }

    ghost predicate Patient(maxAge: nat) {
      forall site :: maxAge >= policyOf(site).resetAfter && maxAge >= policyOf(site).retryAfter
    }
  }

  // ---------------------------------------------------------------------------
  // Which settings keep a cool-down whole
  // ---------------------------------------------------------------------------

  /** An entry as the attempts under this policy leave it. */
  predicate Regular(policy: Policy, e: Failures) {
    && e.count >= 1
    && e.resetAt == if e.count >= policy.maxAttempts then Some(e.limitedAt + policy.Retry()) else None
  }

  predicate Shortened(policy: Policy, e: Failures, now: int) {
    Active(Some(e), now) &&
    var f := Attempted(policy, Some(e), now);
    f.resetAt.None? || f.resetAt.value < e.resetAt.value
  }

  ghost predicate NeverShortened(policy: Policy) {
    forall e, now :: Regular(policy, e) && e.limitedAt <= now ==> !Shortened(policy, e, now)
  }

  /** A further attempt during a cool-down can end it early exactly when the cool-down outlasts the reset time and
      one attempt is not enough to start one. */
  lemma NeverShortenedIff(policy: Policy)
    ensures NeverShortened(policy) <==> policy.retryAfter <= policy.resetAfter || policy.maxAttempts <= 1
  {
    if policy.retryAfter > policy.resetAfter && policy.maxAttempts > 1 {
      var e := Failures(0, Some(policy.Retry()), policy.maxAttempts);
      assert Regular(policy, e) && Shortened(policy, e, policy.Reset() + 1);
    }
  }

  ghost predicate NeverDropped(policy: Policy, maxAge: nat) {
    forall e, now :: Regular(policy, e) && Stale(e, now, maxAge) ==> !Active(Some(e), now)
  }

  lemma NeverDroppedIff(policy: Policy, maxAge: nat)
    ensures NeverDropped(policy, maxAge) <==> policy.retryAfter <= maxAge
  {
    if policy.retryAfter > maxAge {
      var e := Failures(0, Some(policy.Retry()), if policy.maxAttempts > 1 then policy.maxAttempts else 1);
      var now := maxAge * 1_000_000 + 1;
      assert Regular(policy, e) && Stale(e, now, maxAge) && Active(Some(e), now);
    }
  }

  /** A clean-up at `swept` does not change what a later attempt at `now` returns. */
  ghost predicate SweepUnnoticed(policy: Policy, maxAge: nat) {
    forall e, swept, now :: Regular(policy, e) && Stale(e, swept, maxAge) && swept <= now ==>
      Attempted(policy, Some(e), now) == Attempted(policy, None, now)
  }

  lemma SweepUnnoticedIff(policy: Policy, maxAge: nat)
    ensures SweepUnnoticed(policy, maxAge) <==> policy.resetAfter <= maxAge
  {
    if policy.resetAfter > maxAge {
      var e := Failures(0, if 1 >= policy.maxAttempts then Some(policy.Retry()) else None, 1);
      var now := maxAge * 1_000_000 + 1;
      assert Regular(policy, e) && Stale(e, now, maxAge);
      assert Attempted(policy, Some(e), now).count == 2 && Attempted(policy, None, now).count == 1;
    }
  }
}
