/** Request counters with fixed windows (cms/rate_limiting.py:139-203, 486-506). Times are microseconds;
    limits, ages and Retry-After are whole seconds. */
module RateLimits {
  import opened Wrappers

  datatype Limit = Limit(max: nat, seconds: nat) {
    function Span(): int { seconds * 1_000_000 }

    /** What one closed interval as long as the window can hold. */
    function Most(): nat { if max == 0 then 0 else 2 * max - 1 }
  }

  datatype Window = Window(count: nat, start: int)

  // ---------------------------------------------------------------------------
  // One key
  // ---------------------------------------------------------------------------

  /** The entry of a key, and the times of the requests counted against it. */
  datatype KeyState = KeyState(entry: Option<Window>, log: seq<int>)

  /** The window a request at `now` is judged in: created, restarted or as it stands. */
  function Opened(entry: Option<Window>, limit: Limit, now: int): Window {
    var w := entry.GetOr(Window(0, now));
    if now - w.start > limit.Span() then Window(0, now) else w
  }

  function Hit(limit: Limit, s: KeyState, now: int): KeyState {
    var w := Opened(s.entry, limit, now);
    if w.count >= limit.max then KeyState(Some(w), s.log)
    else KeyState(Some(w.(count := w.count + 1)), s.log + [now])
  }

  function Sweep(s: KeyState, now: int, maxAge: nat): KeyState {
    if s.entry.Some? && now - s.entry.value.start > maxAge * 1_000_000 then s.(entry := None) else s
  }

  /** `max(int(window - elapsed), 1)` */
  function RetryAfter(limit: Limit, w: Window, now: int): int {
    var left := limit.Span() - (now - w.start);
    var whole := if left >= 0 then left / 1_000_000 else -((-left) / 1_000_000);
    if whole > 1 then whole else 1
  }

  /** A key may be charged under several limits; `cap` has at least their maximum and at most their window. */
  predicate Under(limit: Limit, cap: Limit) {
    limit.seconds >= cap.seconds && limit.max <= cap.max && (limit.max > 0 || cap.max == 0)
  }

  ghost predicate Sorted(log: seq<int>) { forall i, j | 0 <= i < j < |log| :: log[i] <= log[j] }

  /** Any 2 * max consecutive counted requests span more than a window. */
  ghost predicate Spread(limit: Limit, log: seq<int>) {
    forall i, j | 0 <= i < j < |log| && j - i == 2 * limit.max - 1 :: log[j] - log[i] > limit.Span()
  }

  /** The first `n` requests are not after `t`, and all but the last max - 1 of them by more than a window. */
  ghost predicate Cleared(limit: Limit, log: seq<int>, n: nat, t: int)
    requires n <= |log|
  {
    && (forall i | 0 <= i < n :: log[i] <= t)
    && (forall i | 0 <= i <= n - limit.max && i < n :: log[i] + limit.Span() < t)
  }

  /** The last `count` requests were counted in the window, and the first of them opened it. */
  ghost predicate Current(limit: Limit, w: Window, log: seq<int>) {
    && w.count <= limit.max && w.count <= |log|
    && (limit.max > 0 ==> w.count > 0 && log[|log| - w.count] == w.start)
    && (forall i | |log| - w.count <= i < |log| :: w.start <= log[i])
    && Cleared(limit, log, |log| - w.count, w.start)
  }

  ghost predicate KeyInv(limit: Limit, s: KeyState, clock: int) {
    && Sorted(s.log) && Spread(limit, s.log)
    && (limit.max == 0 ==> s.log == [])
    && (forall i | 0 <= i < |s.log| :: s.log[i] <= clock)
    && match s.entry
       case None => Cleared(limit, s.log, |s.log|, clock)
       case Some(w) => w.start <= clock && Current(limit, w, s.log)
  }

  /** Once the window is over, the whole log is out of reach of the next one. */
  lemma ExpiredIsCleared(limit: Limit, s: KeyState, clock: int, now: int)
    requires KeyInv(limit, s, clock) && clock <= now
    requires s.entry.Some? ==> now - s.entry.value.start > limit.Span()
    ensures Cleared(limit, s.log, |s.log|, now)
  {
  }

  lemma CountedStaysSpread(limit: Limit, log: seq<int>, w: Window, now: int)
    requires Sorted(log) && Spread(limit, log) && Current(limit, w, log) && w.count < limit.max
    requires forall i | 0 <= i < |log| :: log[i] <= now
    ensures Sorted(log + [now]) && Spread(limit, log + [now])
  {
  }

  lemma CountStaysCurrent(limit: Limit, w: Window, log: seq<int>, now: int)
    requires Current(limit, w, log) && w.start <= now && w.count < limit.max
    ensures Current(limit, Window(w.count + 1, w.start), log + [now])
  {
  }

  lemma OpeningKeepsInv(limit: Limit, log: seq<int>, clock: int, now: int)
    requires Sorted(log) && Spread(limit, log) && Cleared(limit, log, |log|, now) && limit.max > 0
    ensures KeyInv(limit, KeyState(Some(Window(1, now)), log + [now]), now)
  {
  }

  lemma CountingKeepsInv(limit: Limit, w: Window, log: seq<int>, clock: int, now: int)
    requires KeyInv(limit, KeyState(Some(w), log), clock) && clock <= now
    requires w.count < limit.max
    ensures KeyInv(limit, KeyState(Some(Window(w.count + 1, w.start)), log + [now]), now)
  {
    CountedStaysSpread(limit, log, w, now);
    CountStaysCurrent(limit, w, log, now);
  }

  lemma HitKeepsInv(cap: Limit, limit: Limit, s: KeyState, clock: int, now: int)
    requires KeyInv(cap, s, clock) && clock <= now && Under(limit, cap)
    ensures KeyInv(cap, Hit(limit, s, now), now)
  {
    var w := Opened(s.entry, limit, now);
    if s.entry != Some(w) {
      ExpiredIsCleared(cap, s, clock, now);
      if limit.max > 0 {
        OpeningKeepsInv(cap, s.log, clock, now);
      }
    } else if w.count < limit.max {
      CountingKeepsInv(cap, w, s.log, clock, now);
    } else {
      LaterKeepsInv(cap, s, clock, now);
    }
  }

  lemma SweepKeepsInv(limit: Limit, s: KeyState, clock: int, now: int, maxAge: nat)
    requires KeyInv(limit, s, clock) && clock <= now && maxAge >= limit.seconds
    ensures KeyInv(limit, Sweep(s, now, maxAge), now)
  {
  }

  datatype KeyEvent = Request(now: int, limit: Limit) | Cleanup(now: int, maxAge: nat)

  datatype Trace = Start | Then(before: Trace, event: KeyEvent)

  function StepKey(s: KeyState, e: KeyEvent): KeyState {
    match e
    case Request(now, limit) => Hit(limit, s, now)
    case Cleanup(now, maxAge) => Sweep(s, now, maxAge)
  }

  function RunKey(trace: Trace): KeyState {
    match trace
    case Start => KeyState(None, [])
    case Then(before, e) => StepKey(RunKey(before), e)
  }

  /** The clock never runs backwards, all limits are under `cap`, and no clean-up removes entries younger than `age`
      seconds. */
  predicate Orderly(cap: Limit, age: nat, trace: Trace, clock: int) {
    trace.Then? ==>
      var e := trace.event;
      && e.now <= clock && (e.Cleanup? ==> e.maxAge >= age) && (e.Request? ==> Under(e.limit, cap))
      && Orderly(cap, age, trace.before, e.now)
  }

  lemma LaterKeepsInv(limit: Limit, s: KeyState, clock: int, now: int)
    requires KeyInv(limit, s, clock) && clock <= now
    ensures KeyInv(limit, s, now)
  {
  }

  lemma {:induction false} RunInv(cap: Limit, trace: Trace, clock: int)
    requires Orderly(cap, cap.seconds, trace, clock)
    ensures KeyInv(cap, RunKey(trace), clock)
  {
    match trace {
      case Start =>
      case Then(before, e) =>
        RunInv(cap, before, e.now);
        match e {
          case Request(now, limit) => HitKeepsInv(cap, limit, RunKey(before), now, now);
          case Cleanup(now, maxAge) => SweepKeepsInv(cap, RunKey(before), now, now, maxAge);
        }
        LaterKeepsInv(cap, RunKey(trace), e.now, clock);
    }
  }

  /** How many of the first `n` entries lie in the interval. */
  function CountIn(log: seq<int>, n: nat, lo: int, hi: int): nat
    requires n <= |log|
  {
    if n == 0 then 0 else CountIn(log, n - 1, lo, hi) + if lo <= log[n - 1] <= hi then 1 else 0
  }

  lemma {:induction false} CountPrefix(a: seq<int>, b: seq<int>, n: nat, lo: int, hi: int)
    requires n <= |a| && n <= |b| && forall i | 0 <= i < n :: a[i] == b[i]
    ensures CountIn(a, n, lo, hi) == CountIn(b, n, lo, hi)
  {
    if n > 0 { CountPrefix(a, b, n - 1, lo, hi); }
  }

  /** If only positions f .. f + k can lie in the interval, at most k do. */
  lemma {:induction false} CountAtMost(log: seq<int>, n: nat, lo: int, hi: int, f: nat, k: nat)
    requires n <= |log| && forall i | 0 <= i < n && lo <= log[i] <= hi :: f <= i < f + k
    ensures CountIn(log, n, lo, hi) <= k && CountIn(log, n, lo, hi) <= if n < f then 0 else n - f
  {
    if n > 0 { CountAtMost(log, n - 1, lo, hi, f, k); }
  }

  lemma {:induction false} FirstInside(log: seq<int>, lo: int) returns (f: nat)
    requires Sorted(log)
    ensures f <= |log|
    ensures forall i | 0 <= i < f :: log[i] < lo
    ensures forall i | f <= i < |log| :: log[i] >= lo
  {
    if log == [] {
      f := 0;
    } else if log[|log| - 1] < lo {
      f := |log|;
    } else {
      f := FirstInside(log[..|log| - 1], lo);
    }
  }

  lemma InvBound(limit: Limit, s: KeyState, clock: int, lo: int)
    requires KeyInv(limit, s, clock)
    ensures CountIn(s.log, |s.log|, lo, lo + limit.Span()) <= limit.Most()
  {
    var log := s.log;
    if limit.max > 0 {
      var f := FirstInside(log, lo);
      var k := 2 * limit.max - 1;
      forall i | f + k <= i < |log| ensures log[i] > lo + limit.Span() {
        assert log[f + k] <= log[i] && log[f + k] - log[f] > limit.Span();
      }
      CountAtMost(log, |log|, lo, lo + limit.Span(), f, k);
    }
  }

  function CountFrom(limit: Limit, trace: Trace, lo: int): nat {
    var log := RunKey(trace).log;
    CountIn(log, |log|, lo, lo + limit.Span())
  }

  /** In any closed interval as long as the shortest window at most 2 * max - 1 requests are counted against a key
      (none when max is 0), max being the largest of its limits, whatever the requests and clean-ups. */
  lemma WindowBound(cap: Limit, trace: Trace, clock: int, lo: int)
    requires Orderly(cap, cap.seconds, trace, clock)
    ensures CountFrom(cap, trace, lo) <= if cap.max == 0 then 0 else 2 * cap.max - 1
  {
    RunInv(cap, trace, clock);
    InvBound(cap, RunKey(trace), clock, lo);
  }

  lemma CountOne(log: seq<int>, t: int, lo: int, hi: int)
    ensures CountIn(log + [t], |log| + 1, lo, hi) == CountIn(log, |log|, lo, hi) + if lo <= t <= hi then 1 else 0
  {
    CountPrefix(log + [t], log, |log|, lo, hi);
  }

  /** `n` requests in one instant. */
  function Crowd(limit: Limit, trace: Trace, n: nat, t: int): Trace {
    if n == 0 then trace else Then(Crowd(limit, trace, n - 1, t), Request(t, limit))
  }

  /** A crowd that fits into the window is counted in full. */
  lemma {:induction false} CrowdCounts(limit: Limit, age: nat, trace: Trace, w: Window, n: nat, t: int, lo: int)
    requires Orderly(limit, age, trace, t) && RunKey(trace).entry == Some(w)
    requires t - w.start <= limit.Span() && w.count + n <= limit.max && lo <= t <= lo + limit.Span()
    ensures Orderly(limit, age, Crowd(limit, trace, n, t), t)
    ensures RunKey(Crowd(limit, trace, n, t)).entry == Some(Window(w.count + n, w.start))
    ensures CountFrom(limit, Crowd(limit, trace, n, t), lo) == CountFrom(limit, trace, lo) + n
  {
    if n > 0 {
      CrowdCounts(limit, age, trace, w, n - 1, t, lo);
      CountOne(RunKey(Crowd(limit, trace, n - 1, t)).log, t, lo, lo + limit.Span());
    }
  }

  /** A crowd as large as the limit that meets no window, or an expired one, is counted in full. */
  lemma FullCrowdCounts(limit: Limit, age: nat, trace: Trace, t: int, lo: int)
    requires limit.max > 0 && Orderly(limit, age, trace, t) && lo <= t <= lo + limit.Span()
    requires var s := RunKey(trace); s.entry.Some? ==> t - s.entry.value.start > limit.Span()
    ensures var all := Crowd(limit, Then(trace, Request(t, limit)), limit.max - 1, t);
            && Orderly(limit, age, all, t) && RunKey(all).entry == Some(Window(limit.max, t))
            && CountFrom(limit, all, lo) == CountFrom(limit, trace, lo) + limit.max
  {
    CountOne(RunKey(trace).log, t, lo, lo + limit.Span());
    CrowdCounts(limit, age, Then(trace, Request(t, limit)), Window(1, t), limit.max - 1, t, lo);
  }

  /** The bound is reached: one request, the rest of the limit at the window's last instant, and a full new window
      one tick later. */
  lemma BoundIsReached(limit: Limit) returns (trace: Trace)
    requires limit.max > 0 && limit.seconds > 0
    ensures Orderly(limit, limit.seconds, trace, limit.Span() + 1)
    ensures CountFrom(limit, trace, 1) == limit.Most()
  {
    var end := limit.Span();
    var first := Then(Start, Request(0, limit));
    CountOne([], 0, 1, 1 + end);
    assert RunKey(first) == KeyState(Some(Window(1, 0)), [0]);
    CrowdCounts(limit, limit.seconds, first, Window(1, 0), limit.max - 1, end, 1);
    var late := Crowd(limit, first, limit.max - 1, end);
    FullCrowdCounts(limit, limit.seconds, late, end + 1, 1);
    trace := Crowd(limit, Then(late, Request(end + 1, limit)), limit.max - 1, end + 1);
  }

  /** A clean-up that looks back less far than the window lets one request too many into an interval. */
  lemma ShortCleanupBreaksTheBound(limit: Limit, age: nat) returns (trace: Trace)
    requires limit.max > 0 && age < limit.seconds
    ensures Orderly(limit, age, trace, age * 1_000_000 + 1)
    ensures CountFrom(limit, trace, 0) == limit.Most() + 1
  {
    var t := age * 1_000_000 + 1;
    FullCrowdCounts(limit, age, Start, 0, 0);
    var swept := Then(Crowd(limit, Then(Start, Request(0, limit)), limit.max - 1, 0), Cleanup(t, age));
    FullCrowdCounts(limit, age, swept, t, 0);
    trace := Crowd(limit, Then(swept, Request(t, limit)), limit.max - 1, t);
  }

  /** Every run whose clean-ups leave entries of up to `age` seconds in place keeps within the bound. */
  ghost predicate BoundHolds(limit: Limit, age: nat) {
    forall trace, clock, lo :: Orderly(limit, age, trace, clock) ==> CountFrom(limit, trace, lo) <= limit.Most()
  }

  lemma BoundHoldsIff(limit: Limit, age: nat)
    ensures BoundHolds(limit, age) <==> limit.max == 0 || age >= limit.seconds
  {
    if limit.max == 0 || age >= limit.seconds {
      forall trace, clock, lo | Orderly(limit, age, trace, clock) ensures CountFrom(limit, trace, lo) <= limit.Most() {
        if limit.max == 0 {
          MorePatient(limit, age, 0, trace, clock);
          NothingCounted(limit, trace, clock);
        } else {
          MorePatient(limit, age, limit.seconds, trace, clock);
          WindowBound(limit, trace, clock, lo);
        }
      }
    } else {
      var trace := ShortCleanupBreaksTheBound(limit, age);
      assert CountFrom(limit, trace, 0) > limit.Most();
    }
  }

  lemma {:induction false} MorePatient(limit: Limit, age: nat, less: nat, trace: Trace, clock: int)
    requires Orderly(limit, age, trace, clock) && less <= age
    ensures Orderly(limit, less, trace, clock)
  {
    if trace.Then? { MorePatient(limit, age, less, trace.before, trace.event.now); }
  }

  lemma {:induction false} NothingCounted(limit: Limit, trace: Trace, clock: int)
    requires limit.max == 0 && Orderly(limit, 0, trace, clock)
    ensures RunKey(trace).log == []
  {
    if trace.Then? { NothingCounted(limit, trace.before, trace.event.now); }
  }

  /** A refused client that waits one second more than Retry-After always meets an expired window; waiting just
      Retry-After suffices only in the window's last second. */
  lemma RetryAfterPlusOne(limit: Limit, s: KeyState, now: int)
    requires s.entry.Some? ==> s.entry.value.start <= now
    requires Opened(s.entry, limit, now).count >= limit.max
    ensures var w := Opened(s.entry, limit, now);
            var wait := RetryAfter(limit, w, now);
            && Hit(limit, s, now) == KeyState(Some(w), s.log)
            && (forall later | later >= now + (wait + 1) * 1_000_000 :: Opened(Some(w), limit, later) == Window(0, later))
            && (Opened(Some(w), limit, now + wait * 1_000_000) == Window(0, now + wait * 1_000_000)
                <==> limit.Span() - (now - w.start) < 1_000_000)
  {
  }

  // ---------------------------------------------------------------------------
  // All keys of one process
  // ---------------------------------------------------------------------------

  const GLOBAL_LIMIT := Limit(300, 60)

  function GlobalKey(ip: string): string { "_global:" + ip }
  function EndpointKey(prefix: string, ip: string): string { prefix + ":" + ip }

  datatype Verdict = Handled(remaining: int) | Refused(limit: Limit, retryAfter: int)

  datatype Table = Table(entries: map<string, Window>, logs: map<string, seq<int>>) {
    function At(key: string): KeyState {
      KeyState(if key in entries then Some(entries[key]) else None, if key in logs then logs[key] else [])
    }

    function Count(key: string): int { if key in entries then entries[key].count else 0 }

    function Opening(key: string, now: int): Window { if key in entries then entries[key] else Window(0, now) }

    function Put(key: string, w: Window, log: seq<int>): Table {
      Table(entries[key := w], logs[key := log])
    }
  }

  predicate Full(t: Table, key: string, limit: Limit, now: int) {
    Opened(t.At(key).entry, limit, now).count >= limit.max
  }

  function HitKey(t: Table, key: string, limit: Limit, now: int): Table {
    var s := Hit(limit, t.At(key), now);
    t.Put(key, s.entry.value, s.log)
  }

  function SweepAll(t: Table, now: int, maxAge: nat): Table {
    t.(entries := map k | k in t.entries && now - t.entries[k].start <= maxAge * 1_000_000 :: t.entries[k])
  }

  function Stale(entries: map<string, Window>, now: int, maxAge: nat): set<string> {
    set k | k in entries && now - entries[k].start > maxAge * 1_000_000
  }

  lemma SweepIsRemoval(t: Table, now: int, maxAge: nat)
    ensures SweepAll(t, now, maxAge) == t.(entries := t.entries - Stale(t.entries, now, maxAge))
  {
  }

  /** The per-address counter is raised first, also by a request the endpoint's own counter then refuses. */
  function Requested(t: Table, prefix: string, ip: string, limit: Limit, now: int): Table {
    var g := HitKey(t, GlobalKey(ip), GLOBAL_LIMIT, now);
    if Full(t, GlobalKey(ip), GLOBAL_LIMIT, now) then g else HitKey(g, EndpointKey(prefix, ip), limit, now)
  }

  predicate Admitted(t: Table, prefix: string, ip: string, limit: Limit, now: int) {
    && !Full(t, GlobalKey(ip), GLOBAL_LIMIT, now)
    && !Full(HitKey(t, GlobalKey(ip), GLOBAL_LIMIT, now), EndpointKey(prefix, ip), limit, now)
  }

  function Answer(t: Table, prefix: string, ip: string, limit: Limit, now: int): Verdict {
    var after := Requested(t, prefix, ip, limit, now);
    if Admitted(t, prefix, ip, limit, now) then Handled(limit.max - after.Count(EndpointKey(prefix, ip)))
    else if Full(t, GlobalKey(ip), GLOBAL_LIMIT, now) then
      Refused(GLOBAL_LIMIT, RetryAfter(GLOBAL_LIMIT, after.Opening(GlobalKey(ip), now), now))
    else Refused(limit, RetryAfter(limit, after.Opening(EndpointKey(prefix, ip), now), now))
  }

  /** A request is handled exactly if it has been counted against both keys, the address's and the endpoint's; one that
      is refused has not been counted against the endpoint's; no other key is touched. */
  lemma HandledIffCounted(t: Table, prefix: string, ip: string, limit: Limit, now: int)
    requires prefix != "_global"
    ensures var u, v := Requested(t, prefix, ip, limit, now), Answer(t, prefix, ip, limit, now);
            var global, own := "_global:" + ip, prefix + ":" + ip;
            && (v.Handled? <==> u.At(global).log == t.At(global).log + [now] && u.At(own).log == t.At(own).log + [now])
            && (v.Handled? ==> v.remaining == limit.max - u.Count(own))
            && (v.Refused? ==> u.At(own).log == t.At(own).log)
            && (v.Refused? ==> v.limit == if u.At(global).log == t.At(global).log then GLOBAL_LIMIT else limit)
            && forall k | k != global && k != own :: u.At(k) == t.At(k)
  {
    DifferentKeys(prefix, ip);
  }

  lemma DifferentKeys(prefix: string, ip: string)
    requires prefix != "_global"
    ensures GlobalKey(ip) != EndpointKey(prefix, ip)
  {
    assert GlobalKey(ip)[..7] == "_global";
    assert EndpointKey(prefix, ip)[..|prefix|] == prefix;
  }

  ghost predicate TableInv(capOf: string -> Limit, t: Table, clock: int) {
    forall key :: KeyInv(capOf(key), t.At(key), clock)
  }

  lemma HitKeyKeepsInv(capOf: string -> Limit, t: Table, clock: int, key: string, limit: Limit, now: int)
    requires TableInv(capOf, t, clock) && clock <= now && Under(limit, capOf(key))
    ensures TableInv(capOf, HitKey(t, key, limit, now), now)
  {
    var u := HitKey(t, key, limit, now);
    forall k ensures KeyInv(capOf(k), u.At(k), now) {
      if k == key {
        HitKeepsInv(capOf(k), limit, t.At(k), clock, now);
        assert u.At(k) == Hit(limit, t.At(k), now);
      } else {
        assert u.At(k) == t.At(k);
        LaterKeepsInv(capOf(k), t.At(k), clock, now);
      }
    }
  }

  lemma RequestedKeepsInv(capOf: string -> Limit, t: Table, clock: int, prefix: string, ip: string, limit: Limit, now: int)
    requires TableInv(capOf, t, clock) && clock <= now
    requires Under(GLOBAL_LIMIT, capOf(GlobalKey(ip))) && Under(limit, capOf(EndpointKey(prefix, ip)))
    ensures TableInv(capOf, Requested(t, prefix, ip, limit, now), now)
  {
    HitKeyKeepsInv(capOf, t, clock, GlobalKey(ip), GLOBAL_LIMIT, now);
    if !Full(t, GlobalKey(ip), GLOBAL_LIMIT, now) {
      HitKeyKeepsInv(capOf, HitKey(t, GlobalKey(ip), GLOBAL_LIMIT, now), now, EndpointKey(prefix, ip), limit, now);
    }
  }

  lemma SweepAllKeepsInv(capOf: string -> Limit, t: Table, clock: int, now: int, maxAge: nat)
    requires TableInv(capOf, t, clock) && clock <= now
    requires forall key | key in t.entries :: maxAge >= capOf(key).seconds
    ensures TableInv(capOf, SweepAll(t, now, maxAge), now)
  {
    var u := SweepAll(t, now, maxAge);
    forall k ensures KeyInv(capOf(k), u.At(k), now) {
      assert u.At(k) == Sweep(t.At(k), now, maxAge);
      if k in t.entries {
        SweepKeepsInv(capOf(k), t.At(k), clock, now, maxAge);
      } else {
        LaterKeepsInv(capOf(k), t.At(k), clock, now);
      }
    }
  }

  /** The limiter of one process, with a cap on the limits each key is used with. `logs` holds, per key, the instants counted against it. */
  class RateLimiter {
    const capOf: string -> Limit
    var entries: map<string, Window>
    ghost var logs: map<string, seq<int>>
    ghost var clock: int

    ghost function View(): Table reads this { Table(entries, logs) }

    ghost predicate Valid() reads this { TableInv(capOf, View(), clock) }

    constructor (capOf: string -> Limit, ghost now: int)
      ensures Valid() && View() == Table(map[], map[]) && this.capOf == capOf && clock == now
    {
      this.capOf := capOf;
      entries, logs, clock := map[], map[], now;
    }

    /** Count one request against a key, unless the key is full. */
    method Charge(key: string, limit: Limit, now: int) returns (full: bool, w: Window)
      modifies this
      ensures clock == now
      ensures View() == HitKey(old(View()), key, limit, now)
      ensures full == Full(old(View()), key, limit, now)
      ensures key in entries && w == entries[key]
    {
      if key !in entries {
        entries := entries[key := Window(0, now)];
      }
      w := entries[key];
      if now - w.start > limit.Span() {
        w := Window(0, now);
      }
      full := w.count >= limit.max;
      ghost var log := old(View()).At(key).log;
      if !full {
        w := w.(count := w.count + 1);
        log := log + [now];
      }
      assert KeyState(Some(w), log) == Hit(limit, old(View()).At(key), now);
      entries := entries[key := w];
      assert entries == old(entries)[key := w];
      logs, clock := logs[key := log], now;
    }

    /** Both counters, under one lock. The invariant asks for limits under the key's cap. */
    method RateLimit(prefix: string, ip: string, limit: Limit, now: int) returns (v: Verdict)
      modifies this
      ensures View() == Requested(old(View()), prefix, ip, limit, now) && clock == now
      ensures v == Answer(old(View()), prefix, ip, limit, now)
      ensures var global, own := "_global:" + ip, prefix + ":" + ip;
              prefix != "_global" ==>
                && (v.Handled? <==> View().At(global).log == old(View().At(global).log) + [now]
                                    && View().At(own).log == old(View().At(own).log) + [now])
                && (v.Refused? ==> View().At(own).log == old(View().At(own).log))
      ensures old(Valid()) && old(clock) <= now && Capped(prefix, ip, limit) ==> Valid()
    {
      if Valid() && clock <= now && Capped(prefix, ip, limit) {
        RequestedKeepsInv(capOf, View(), clock, prefix, ip, limit, now);
      }
      if prefix != "_global" { HandledIffCounted(View(), prefix, ip, limit, now); }
      var full, w := Charge(GlobalKey(ip), GLOBAL_LIMIT, now);
      if full {
        return Refused(GLOBAL_LIMIT, RetryAfter(GLOBAL_LIMIT, w, now));
      }
      full, w := Charge(EndpointKey(prefix, ip), limit, now);
      if full {
        return Refused(limit, RetryAfter(limit, w, now));
      }
      v := Handled(if limit.max - w.count > 0 then limit.max - w.count else 0);
    }

    predicate Capped(prefix: string, ip: string, limit: Limit) {
      Under(GLOBAL_LIMIT, capOf(GlobalKey(ip))) && Under(limit, capOf(EndpointKey(prefix, ip)))
    }

    method Drop(stale: set<string>)
      modifies `entries
      ensures entries == old(entries) - stale
    {
      var rest := stale;
      while rest != {}
        invariant rest <= stale && entries == old(entries) - (stale - rest)
      {
        var k :| k in rest;
        entries := entries - {k};
        assert stale - (rest - {k}) == (stale - rest) + {k};
        rest := rest - {k};
      }
      assert stale - rest == stale;
    }

    /** First collect the stale keys, then delete them. Looking back one window keeps the invariant. */
    method CleanUp(now: int, maxAge: nat)
      modifies this
      ensures View() == SweepAll(old(View()), now, maxAge) && clock == now && logs == old(logs)
      ensures forall key :: key in entries <==> key in old(entries) && now - old(entries)[key].start <= maxAge * 1_000_000
      ensures forall key | key in entries :: entries[key] == old(entries)[key]
      ensures old(Valid()) && old(clock) <= now && (forall key | key in old(entries) :: maxAge >= capOf(key).seconds) ==>
                Valid()
    {
      if Valid() && clock <= now && forall key | key in entries :: maxAge >= capOf(key).seconds {
        SweepAllKeepsInv(capOf, View(), clock, now, maxAge);
      }
      SweepIsRemoval(View(), now, maxAge);
      Drop(Stale(entries, now, maxAge));
      clock := now;
    }
  }

  /** In every state the limiter reaches, for every key: in terms of its largest limit and its shortest window. */
  lemma EveryKeyIsBounded(capOf: string -> Limit, t: Table, clock: int, key: string, lo: int)
    requires TableInv(capOf, t, clock)
    ensures CountIn(t.At(key).log, |t.At(key).log|, lo, lo + capOf(key).Span()) <= capOf(key).Most()
  {
    InvBound(capOf(key), t.At(key), clock, lo);
  }

  // ---------------------------------------------------------------------------
  // Runs of the limiter
  // ---------------------------------------------------------------------------

  datatype Call = Ask(prefix: string, ip: string, limit: Limit, now: int) | Tidy(now: int, maxAge: nat)

  /** The calls made of one limiter, the last one outermost. */
  datatype Calls = Begin | More(before: Calls, call: Call)

  function After(calls: Calls): Table {
    match calls
    case Begin => Table(map[], map[])
    case More(before, Ask(prefix, ip, limit, now)) => Requested(After(before), prefix, ip, limit, now)
    case More(before, Tidy(now, maxAge)) => SweepAll(After(before), now, maxAge)
  }

  /** The clock never runs backwards, every key's limits are under its cap, and clean-ups look back far enough. */
  ghost predicate Proper(capOf: string -> Limit, calls: Calls, clock: int) {
    calls.More? ==>
      var c := calls.call;
      && c.now <= clock && Proper(capOf, calls.before, c.now)
      && match c
         case Ask(prefix, ip, limit, _) =>
           Under(GLOBAL_LIMIT, capOf(GlobalKey(ip))) && Under(limit, capOf(EndpointKey(prefix, ip)))
         case Tidy(_, maxAge) => forall key :: maxAge >= capOf(key).seconds
  }

  /** Requests with this endpoint key that were answered with the endpoint's own response. */
  function HandledWithin(calls: Calls, key: string, lo: int, hi: int): nat {
    match calls
    case Begin => 0
    case More(before, Tidy(_, _)) => HandledWithin(before, key, lo, hi)
    case More(before, Ask(prefix, ip, limit, now)) =>
      HandledWithin(before, key, lo, hi) +
      if prefix + ":" + ip == key && lo <= now <= hi && Answer(After(before), prefix, ip, limit, now).Handled? then 1 else 0
  }

  lemma {:induction false} CallsKeepInv(capOf: string -> Limit, calls: Calls, clock: int)
    requires Proper(capOf, calls, clock)
    ensures TableInv(capOf, After(calls), clock)
  {
    match calls {
      case Begin =>
      case More(before, c) =>
        CallsKeepInv(capOf, before, c.now);
        match c {
          case Ask(prefix, ip, limit, now) => RequestedKeepsInv(capOf, After(before), now, prefix, ip, limit, now);
          case Tidy(now, maxAge) => SweepAllKeepsInv(capOf, After(before), now, now, maxAge);
        }
        forall key ensures KeyInv(capOf(key), After(calls).At(key), clock) {
          LaterKeepsInv(capOf(key), After(calls).At(key), c.now, clock);
        }
    }
  }

  /** What one charge does to the counted requests of a key. */
  lemma ChargeCounts(t: Table, charged: string, limit: Limit, now: int, key: string, lo: int, hi: int)
    ensures var a, b := t.At(key).log, HitKey(t, charged, limit, now).At(key).log;
            CountIn(b, |b|, lo, hi) == CountIn(a, |a|, lo, hi) +
              if key == charged && !Full(t, key, limit, now) && lo <= now <= hi then 1 else 0
  {
    CountOne(t.At(key).log, now, lo, hi);
  }

  lemma {:induction false} HandledAreCounted(calls: Calls, key: string, lo: int, hi: int)
    ensures var log := After(calls).At(key).log; HandledWithin(calls, key, lo, hi) <= CountIn(log, |log|, lo, hi)
  {
    match calls {
      case Begin =>
      case More(before, Tidy(_, _)) => HandledAreCounted(before, key, lo, hi);
      case More(before, Ask(prefix, ip, limit, now)) =>
        HandledAreCounted(before, key, lo, hi);
        var t := After(before);
        ChargeCounts(t, GlobalKey(ip), GLOBAL_LIMIT, now, key, lo, hi);
        ChargeCounts(HitKey(t, GlobalKey(ip), GLOBAL_LIMIT, now), EndpointKey(prefix, ip), limit, now, key, lo, hi);
    }
  }

  lemma CountedAreBounded(capOf: string -> Limit, calls: Calls, clock: int, key: string, lo: int)
    requires Proper(capOf, calls, clock)
    ensures var log := After(calls).At(key).log; CountIn(log, |log|, lo, lo + capOf(key).Span()) <= capOf(key).Most()
  {
    CallsKeepInv(capOf, calls, clock);
    EveryKeyIsBounded(capOf, After(calls), clock, key, lo);
  }

  /** In every run and every closed interval as long as the key's shortest window, at most 2 * max - 1 requests are
      handled, max being the largest of the key's limits. */
  lemma HandledAreBounded(capOf: string -> Limit, calls: Calls, clock: int, key: string, lo: int)
    requires Proper(capOf, calls, clock)
    ensures var cap := capOf(key);
            HandledWithin(calls, key, lo, lo + cap.seconds * 1_000_000) <= if cap.max == 0 then 0 else 2 * cap.max - 1
  {
    CountedAreBounded(capOf, calls, clock, key, lo);
    HandledAreCounted(calls, key, lo, lo + capOf(key).Span());
  }

  /** The last `k` requests of the log are in the interval. */
  lemma {:induction false} CountAtLeast(log: seq<int>, n: nat, k: nat, lo: int, hi: int)
    requires k <= n <= |log| && forall i | n - k <= i < n :: lo <= log[i] <= hi
    ensures CountIn(log, n, lo, hi) >= k
  {
    if k > 0 { CountAtLeast(log, n - 1, k - 1, lo, hi); }
  }

  lemma QuietKeyHasRoom(cap: Limit, limit: Limit, s: KeyState, clock: int, now: int)
    requires KeyInv(cap, s, clock) && clock <= now
    requires CountIn(s.log, |s.log|, now - limit.Span(), now) < limit.max
    ensures Opened(s.entry, limit, now).count < limit.max
  {
    if s.entry.Some? && now - s.entry.value.start <= limit.Span() {
      CountAtLeast(s.log, |s.log|, s.entry.value.count, now - limit.Span(), now);
    }
  }

  /** No request is refused while fewer than the maximum have been counted in the window that ends with it, for the
      address and for the endpoint. */
  lemma QuietClientsAreHandled(capOf: string -> Limit, calls: Calls, prefix: string, ip: string, limit: Limit, now: int)
    requires Proper(capOf, calls, now) && prefix != "_global"
    requires var log := After(calls).At("_global:" + ip).log; CountIn(log, |log|, now - 60_000_000, now) < 300
    requires var log := After(calls).At(prefix + ":" + ip).log; CountIn(log, |log|, now - limit.Span(), now) < limit.max
    ensures Answer(After(calls), prefix, ip, limit, now).Handled?
  {
    var t := After(calls);
    CallsKeepInv(capOf, calls, now);
    DifferentKeys(prefix, ip);
    QuietKeyHasRoom(capOf(GlobalKey(ip)), GLOBAL_LIMIT, t.At(GlobalKey(ip)), now, now);
    QuietKeyHasRoom(capOf(EndpointKey(prefix, ip)), limit, t.At(EndpointKey(prefix, ip)), now, now);
    assert HitKey(t, GlobalKey(ip), GLOBAL_LIMIT, now).At(EndpointKey(prefix, ip)) == t.At(EndpointKey(prefix, ip));
  }
}
