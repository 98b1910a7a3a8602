/** The settings cache (cms/setting_cache.py:16-44) under every interleaving of its locked sections with database
    writes and with the calls that forget entries (cms/models/setting.py:98-103). Times are microseconds. */
module SettingCache {
  import opened Wrappers

  const TTL := 60_000_000

  type Value = string

  datatype Entry = Entry(at: int, value: Value)

  /** First locked section: a hit, unless the entry is missing or has reached its time to live. */
  function Hit(entries: map<string, Entry>, key: string, now: int): Option<Value> {
    if key in entries && now - entries[key].at < TTL then Some(entries[key].value) else None
  }

  class Cache {
    var entries: map<string, Entry>

    constructor ()
      ensures entries == map[]
    {
      entries := map[];
    }

    method Lookup(key: string, now: int) returns (cached: Option<Value>)
      ensures cached == Hit(entries, key, now)
    {
      cached := None;
      if key in entries {
        if now - entries[key].at < TTL {
          cached := Some(entries[key].value);
        }
      }
    }

    /** For a time to live after the clock reading, lookups of this key give the value; other keys are not affected. */
    method Store(key: string, now: int, value: Value)
      modifies this
      ensures entries == old(entries)[key := Entry(now, value)]
      ensures forall at :: Hit(entries, key, at) == if at - now < 60_000_000 then Some(value) else None
      ensures forall k, at | k != key :: Hit(entries, k, at) == Hit(old(entries), k, at)
    {
      entries := entries[key := Entry(now, value)];
    }

    /** Lookups of this key miss until it is stored again; other keys are not affected. */
    method Invalidate(key: string)
      modifies this
      ensures entries == old(entries) - {key}
      ensures forall at :: Hit(entries, key, at) == None
      ensures forall k, at | k != key :: Hit(entries, k, at) == Hit(old(entries), k, at)
    {
      if key in entries {
        entries := entries - {key};
      }
    }

    method InvalidateAll()
      modifies this
      ensures entries == map[]
      ensures forall k, at :: Hit(entries, k, at) == None
    {
      entries := map[];
    }

    /** A call that no other thread disturbs; `stored` is what the database read gives. */
    method CachedGet(key: string, fallback: Value, now: int, stored: map<string, Value>) returns (value: Value)
      modifies this
      ensures value == Hit(old(entries), key, now).GetOr(Read(stored, key, fallback))
      ensures entries == if Hit(old(entries), key, now).Some? then old(entries)
                         else old(entries)[key := Entry(now, value)]
    {
      var cached := Lookup(key, now);
      if cached.Some? {
        return cached.value;
      }
      value := Read(stored, key, fallback);
      Store(key, now, value);
    }
  }

  /** `Setting.get`: the stored value, or the caller's default. */
  function Read(db: map<string, Value>, key: string, fallback: Value): Value {
    if key in db then db[key] else fallback
  }

  // ---------------------------------------------------------------------------
  // Threads
  // ---------------------------------------------------------------------------

  datatype Phase =
    | Idle
    | Asked(key: string, fallback: Value, now: int)
    | Missed(key: string, fallback: Value, now: int)
    | Loaded(key: string, fallback: Value, now: int, value: Value)
    | Returned(key: string, fallback: Value, now: int, value: Value)

  datatype Snapshot = Snapshot(clock: int, db: map<string, Value>)

  /** `asked` collects the defaults callers have passed, `past` what the database held, oldest first. */
  datatype State = State(
    clock: int, db: map<string, Value>, entries: map<string, Entry>, threads: map<nat, Phase>,
    asked: set<(string, Value)>, past: seq<Snapshot>
  ) {
    function Of(tid: nat): Phase { if tid in threads then threads[tid] else Idle }
    function Put(tid: nat, p: Phase): State { this.(threads := threads[tid := p]) }
  }

  datatype Step =
    | Begin(tid: nat, key: string, fallback: Value)
    | Look(tid: nat)
    | Load(tid: nat)
    | Save(tid: nat)
    | Write(key: string, value: Option<Value>)
    | Forget(key: string)
    | ForgetAll
    | Tick(elapsed: nat)

  /** One atomic step; a step that does not apply changes nothing. */
  function Do(s: State, e: Step): State {
    match e
    case Begin(tid, key, fallback) =>
      if s.Of(tid).Idle? || s.Of(tid).Returned? then
        s.(asked := s.asked + {(key, fallback)}).Put(tid, Asked(key, fallback, s.clock))
      else s
    case Look(tid) =>
      (match s.Of(tid)
       case Asked(key, fallback, now) =>
         (match Hit(s.entries, key, now)
          case Some(value) => s.Put(tid, Returned(key, fallback, now, value))
          case None => s.Put(tid, Missed(key, fallback, now)))
       case _ => s)
    case Load(tid) =>
      (match s.Of(tid)
       case Missed(key, fallback, now) => s.Put(tid, Loaded(key, fallback, now, Read(s.db, key, fallback)))
       case _ => s)
    case Save(tid) =>
      (match s.Of(tid)
       case Loaded(key, fallback, now, value) =>
         s.(entries := s.entries[key := Entry(now, value)]).Put(tid, Returned(key, fallback, now, value))
       case _ => s)
    case Write(key, value) => Note(s.(db := match value case Some(v) => s.db[key := v] case None => s.db - {key}))
    case Forget(key) => s.(entries := s.entries - {key})
    case ForgetAll => s.(entries := map[])
    case Tick(elapsed) => Note(s.(clock := s.clock + elapsed))
  }

  function Note(s: State): State { s.(past := s.past + [Snapshot(s.clock, s.db)]) }

  /** The cache starts empty, with no call under way. */
  function Initial(clock: int, db: map<string, Value>): State {
    State(clock, db, map[], map[], {}, [Snapshot(clock, db)])
  }

  datatype Trace = Start(first: State) | Then(before: Trace, step: Step)

  function Last(t: Trace): State {
    match t
    case Start(s) => s
    case Then(before, e) => Do(Last(before), e)
  }

  function First(t: Trace): State {
    match t
    case Start(s) => s
    case Then(before, _) => First(before)
  }

  // ---------------------------------------------------------------------------
  // No answer is older than the time to live
  // ---------------------------------------------------------------------------

  /** `value` is what the database holds for the key, or a caller's default when it holds nothing. */
  predicate Readable(db: map<string, Value>, asked: set<(string, Value)>, key: string, value: Value) {
    if key in db then db[key] == value else (key, value) in asked
  }

  /** It was so at some instant no earlier than `since`. */
  ghost predicate Held(s: State, key: string, value: Value, since: int) {
    exists i | 0 <= i < |s.past| :: s.past[i].clock >= since && Readable(s.past[i].db, s.asked, key, value)
  }

  ghost predicate PhaseInv(s: State, p: Phase) {
    match p
    case Idle => true
    case Asked(key, fallback, now) => now <= s.clock && (key, fallback) in s.asked
    case Missed(key, fallback, now) => now <= s.clock && (key, fallback) in s.asked
    case Loaded(key, _, now, value) => Held(s, key, value, now)
    case Returned(key, _, now, value) => Held(s, key, value, now - TTL + 1)
  }

  ghost predicate Inv(s: State) {
    && s.past != [] && s.past[|s.past| - 1] == Snapshot(s.clock, s.db)
    && (forall key | key in s.entries :: Held(s, key, s.entries[key].value, s.entries[key].at))
    && (forall tid | tid in s.threads :: PhaseInv(s, s.threads[tid]))
  }

  /** What was recorded once stays recorded. */
  predicate Grows(s: State, t: State) {
    s.clock <= t.clock && s.asked <= t.asked && s.past <= t.past
  }

  /** A step of one thread, or of none: what it leaves alone stays right. */
  lemma RestStays(s: State, t: State)
    requires Inv(s) && Grows(s, t) && t.past[|t.past| - 1] == Snapshot(t.clock, t.db)
    requires forall key | key in t.entries :: (key in s.entries && t.entries[key] == s.entries[key])
                                              || Held(t, key, t.entries[key].value, t.entries[key].at)
    requires forall tid | tid in t.threads :: (tid in s.threads && t.threads[tid] == s.threads[tid])
                                              || PhaseInv(t, t.threads[tid])
    ensures Inv(t)
  {
  }

  lemma LookKeepsInv(s: State, tid: nat)
    requires Inv(s)
    ensures Inv(Do(s, Look(tid)))
  {
  }

  lemma LoadKeepsInv(s: State, tid: nat)
    requires Inv(s)
    ensures Inv(Do(s, Load(tid)))
  {
  }

  lemma SaveKeepsInv(s: State, tid: nat)
    requires Inv(s)
    ensures Inv(Do(s, Save(tid)))
  {
  }

  lemma StepKeepsInv(s: State, e: Step)
    requires Inv(s)
    ensures Inv(Do(s, e)) && Grows(s, Do(s, e))
  {
    match e {
      case Look(tid) => LookKeepsInv(s, tid);
      case Load(tid) => LoadKeepsInv(s, tid);
      case Save(tid) => SaveKeepsInv(s, tid);
      case _ => RestStays(s, Do(s, e));
    }
  }

  /** Under every interleaving: a call that read the clock at `now` returns a value that was in the database at
      some instant later than a minute before now, or a default some caller had passed while the database had none. */
  lemma {:induction false} AnswersAreFresh(t: Trace, clock: int, db: map<string, Value>)
    requires First(t) == Initial(clock, db)
    ensures Inv(Last(t))
    ensures forall tid :: Last(t).Of(tid).Returned? ==>
              var p := Last(t).Of(tid); Held(Last(t), p.key, p.value, p.now - 60_000_000 + 1)
  {
    if t.Then? {
      AnswersAreFresh(t.before, clock, db);
      StepKeepsInv(Last(t.before), t.step);
    }
    forall tid | Last(t).Of(tid).Returned?
      ensures var p := Last(t).Of(tid); Held(Last(t), p.key, p.value, p.now - TTL + 1)
    {
      assert PhaseInv(Last(t), Last(t).threads[tid]);
    }
  }

  // ---------------------------------------------------------------------------
  // After an invalidation
  // ---------------------------------------------------------------------------

  /** No thread is about to save an outdated value for this key. */
  ghost predicate NoStaleLoad(s: State, key: string) {
    forall tid | tid in s.threads ::
      var p := s.threads[tid]; p.Loaded? && p.key == key ==> Readable(s.db, s.asked, key, p.value)
  }

  /** Neither the cache nor a thread holds an outdated value for this key, and misses carry a known default. */
  ghost predicate Settled(s: State, key: string) {
    && (key in s.entries ==> Readable(s.db, s.asked, key, s.entries[key].value))
    && NoStaleLoad(s, key)
    && (forall tid | tid in s.threads ::
          var p := s.threads[tid]; (p.Asked? || p.Missed?) ==> (p.key, p.fallback) in s.asked)
  }

  /** An invalidation leaves nothing outdated behind, unless a thread holds it. */
  lemma InvalidationSettles(t: Trace, clock: int, db: map<string, Value>, key: string)
    requires First(t) == Initial(clock, db) && NoStaleLoad(Last(t), key)
    ensures Settled(Do(Last(t), Forget(key)), key)
  {
    AnswersAreFresh(t, clock, db);
    var s := Last(t);
    forall tid | tid in s.threads ensures PhaseInv(s, s.threads[tid]) {}
  }

  predicate Answers(s: State, u: State, tid: nat, key: string) {
    !s.Of(tid).Returned? && u.Of(tid).Returned? && u.Of(tid).key == key
  }

  lemma SettledStep(s: State, e: Step, key: string)
    requires Settled(s, key) && !(e.Write? && e.key == key)
    ensures Settled(Do(s, e), key)
    ensures forall tid :: Answers(s, Do(s, e), tid, key) ==> Readable(s.db, s.asked, key, Do(s, e).Of(tid).value)
  {
  }

  predicate Untouched(t: Trace, key: string) {
    match t
    case Start(_) => true
    case Then(before, e) => !(e.Write? && e.key == key) && Untouched(before, key)
  }

  /** Once settled, and until the key is written again, every answer is the current value. */
  lemma {:induction false} SettledAnswersAreCurrent(t: Trace, key: string)
    requires Settled(First(t), key) && Untouched(t, key)
    ensures Settled(Last(t), key)
    ensures t.Then? ==> forall tid :: Answers(Last(t.before), Last(t), tid, key) ==>
              Readable(Last(t.before).db, Last(t.before).asked, key, Last(t).Of(tid).value)
  {
    if t.Then? {
      SettledAnswersAreCurrent(t.before, key);
      SettledStep(Last(t.before), t.step, key);
    }
  }

  /** The last step of `u` answers a call for the key with the current value, if it answers one. */
  ghost predicate LastAnswerIsCurrent(u: Trace, tid: nat, key: string) {
    u.Then? && Answers(Last(u.before), Last(u), tid, key) ==>
      Readable(Last(u.before).db, Last(u.before).asked, key, Last(u).Of(tid).value)
  }

  /** From `s` on, and until the key is written again, every call for it is answered with the current value. */
  ghost predicate AnswersStayCurrent(s: State, key: string) {
    forall u, tid :: First(u) == s && Untouched(u, key) ==> LastAnswerIsCurrent(u, tid, key)
  }

  /** An invalidation has its effect on every answer if and only if no thread had loaded an outdated value. */
  lemma InvalidationHoldsIff(t: Trace, clock: int, db: map<string, Value>, key: string)
    requires First(t) == Initial(clock, db)
    ensures AnswersStayCurrent(Do(Last(t), Forget(key)), key) <==> NoStaleLoad(Last(t), key)
  {
    var s := Do(Last(t), Forget(key));
    if NoStaleLoad(Last(t), key) {
      InvalidationSettles(t, clock, db, key);
      forall u, tid | First(u) == s && Untouched(u, key) ensures LastAnswerIsCurrent(u, tid, key) {
        SettledAnswersAreCurrent(u, key);
      }
    } else {
      var tid :| tid in s.threads && s.threads[tid].Loaded? && s.threads[tid].key == key
                 && !Readable(s.db, s.asked, key, s.threads[tid].value);
      var u := Extend(Start(s), s, Save(tid));
      assert !LastAnswerIsCurrent(u, tid, key);
    }
  }

  // ---------------------------------------------------------------------------
  // Calls that begin after the invalidation
  // ---------------------------------------------------------------------------

  /** The call that `tid` makes or has last made was begun during `u`. */
  predicate BegunIn(u: Trace, tid: nat) {
    match u
    case Start(_) => false
    case Then(before, e) =>
      || BegunIn(before, tid)
      || (e.Begin? && e.tid == tid && (Last(before).Of(tid).Idle? || Last(before).Of(tid).Returned?))
  }

  /** From `s` on, and until the key is written again, every call begun then is answered with the current value. */
  ghost predicate NewCallsAreCurrent(s: State, key: string) {
    forall u, tid :: First(u) == s && Untouched(u, key) && BegunIn(u, tid) ==> LastAnswerIsCurrent(u, tid, key)
  }

  /** Outdated values that threads still hold were read too long ago to be served again. */
  ghost predicate StaleLoadsAreOld(s: State, key: string) {
    forall tid | tid in s.threads ::
      var p := s.threads[tid];
      p.Loaded? && p.key == key && !Readable(s.db, s.asked, key, p.value) ==> s.clock - p.now >= TTL
  }

  /** What holds from the invalidation at `since` on: outdated values are old, and calls begun since are not. */
  ghost predicate Outlived(u: Trace, key: string, since: int) {
    var s := Last(u);
    && since <= s.clock
    && (key in s.entries ==> Readable(s.db, s.asked, key, s.entries[key].value) || since - s.entries[key].at >= TTL)
    && forall tid | tid in s.threads :: OutlivedBy(s, s.threads[tid], key, since, BegunIn(u, tid))
  }

  ghost predicate OutlivedBy(s: State, p: Phase, key: string, since: int, begun: bool) {
    && ((p.Asked? || p.Missed?) ==> (p.key, p.fallback) in s.asked)
    && (p.Loaded? && p.key == key ==> Readable(s.db, s.asked, key, p.value) || since - p.now >= TTL)
    && (begun && !p.Idle? ==> p.now >= since)
  }

  lemma NewAnswerIsCurrent(u: Trace, e: Step, key: string, since: int, tid: nat)
    requires Outlived(u, key, since) && BegunIn(Then(u, e), tid)
    ensures LastAnswerIsCurrent(Then(u, e), tid, key)
  {
    var s := Last(u);
    if tid in s.threads { assert OutlivedBy(s, s.Of(tid), key, since, BegunIn(u, tid)); }
  }

  lemma OutlivedStep(u: Trace, e: Step, key: string, since: int)
    requires Outlived(u, key, since) && !(e.Write? && e.key == key)
    ensures Outlived(Then(u, e), key, since)
  {
    var s, v := Last(u), Last(Then(u, e));
    forall tid | tid in v.threads ensures OutlivedBy(v, v.threads[tid], key, since, BegunIn(Then(u, e), tid)) {
      if tid in s.threads { assert OutlivedBy(s, s.Of(tid), key, since, BegunIn(u, tid)); }
    }
  }

  lemma {:induction false} OutlivedTrace(u: Trace, key: string, since: int)
    requires Outlived(Start(First(u)), key, since) && Untouched(u, key)
    ensures Outlived(u, key, since)
    ensures forall tid :: BegunIn(u, tid) ==> LastAnswerIsCurrent(u, tid, key)
  {
    if u.Then? {
      OutlivedTrace(u.before, key, since);
      OutlivedStep(u.before, u.step, key, since);
      forall tid | BegunIn(u, tid) ensures LastAnswerIsCurrent(u, tid, key) {
        NewAnswerIsCurrent(u.before, u.step, key, since, tid);
      }
    }
  }

  /** Exactly when an invalidation can be undone for calls begun after it: when a thread holds an outdated value
      that it had asked for less than the time to live ago. */
  lemma NewCallsAreCurrentIff(t: Trace, clock: int, db: map<string, Value>, key: string)
    requires First(t) == Initial(clock, db)
    ensures NewCallsAreCurrent(Do(Last(t), Forget(key)), key) <==> StaleLoadsAreOld(Last(t), key)
  {
    AnswersAreFresh(t, clock, db);
    var s := Do(Last(t), Forget(key));
    forall tid | tid in s.threads ensures PhaseInv(Last(t), Last(t).threads[tid]) {}
    if StaleLoadsAreOld(Last(t), key) {
      forall u, tid | First(u) == s && Untouched(u, key) && BegunIn(u, tid) ensures LastAnswerIsCurrent(u, tid, key) {
        OutlivedTrace(u, key, s.clock);
      }
    } else {
      var tid :| tid in s.threads && s.threads[tid].Loaded? && s.threads[tid].key == key
                 && !Readable(s.db, s.asked, key, s.threads[tid].value) && s.clock - s.threads[tid].now < TTL;
      var u := LateSaveUndoesInvalidation(s, tid);
      assert !LastAnswerIsCurrent(u, tid, key);
    }
  }

  /** The thread saves what it holds, and its next call is answered with it. */
  lemma LateSaveUndoesInvalidation(s: State, tid: nat) returns (u: Trace)
    requires s.Of(tid).Loaded? && s.clock - s.Of(tid).now < TTL
    requires !Readable(s.db, s.asked, s.Of(tid).key, s.Of(tid).value)
    ensures First(u) == s && Untouched(u, s.Of(tid).key) && BegunIn(u, tid) && !LastAnswerIsCurrent(u, tid, s.Of(tid).key)
  {
    var p := s.Of(tid);
    var fallback := p.value + "+";
    assert |fallback| != |p.value|;
    u := Extend(Start(s), s, Save(tid));
    assert Last(u).entries[p.key] == Entry(p.now, p.value);
    u := Extend(u, s, Begin(tid, p.key, fallback));
    assert BegunIn(u, tid) && Last(u).Of(tid) == Asked(p.key, fallback, s.clock);
    u := Extend(u, s, Look(tid));
  }

  lemma Extend(t: Trace, s: State, e: Step) returns (u: Trace)
    requires First(t) == s
    ensures u == Then(t, e) && First(u) == s && Last(u) == Do(Last(t), e)
    ensures forall key :: Untouched(u, key) <==> !(e.Write? && e.key == key) && Untouched(t, key)
    ensures forall key, d :: DefaultsFrom(u, key, d) <==> (e.Begin? && e.key == key ==> e.fallback in d) && DefaultsFrom(t, key, d)
  {
    u := Then(t, e);
  }

  // ---------------------------------------------------------------------------
  // Whose default
  // ---------------------------------------------------------------------------

  /** Callers of this key pass only these defaults. */
  predicate DefaultsFrom(t: Trace, key: string, defaults: set<Value>) {
    match t
    case Start(_) => true
    case Then(before, e) => (e.Begin? && e.key == key ==> e.fallback in defaults) && DefaultsFrom(before, key, defaults)
  }

  predicate OwnDefault(p: Phase, key: string) { p.Returned? && p.key == key ==> p.value == p.fallback }

  /** While nothing is stored for the key, each call for it returns the default it was given. */
  ghost predicate DefaultsAreOwn(key: string, defaults: set<Value>) {
    forall t, clock, db, tid ::
      First(t) == Initial(clock, db) && key !in db && Untouched(t, key) && DefaultsFrom(t, key, defaults) ==>
        OwnDefault(Last(t).Of(tid), key)
  }

  ghost predicate OnlyDefault(s: State, key: string, only: Value) {
    && key !in s.db && (key in s.entries ==> s.entries[key].value == only)
    && forall tid | tid in s.threads ::
         var p := s.threads[tid];
         !p.Idle? && p.key == key ==> p.fallback == only && (p.Loaded? || p.Returned? ==> p.value == only)
  }

  lemma {:induction false} OneDefaultOnly(t: Trace, clock: int, db: map<string, Value>, key: string, only: Value)
    requires First(t) == Initial(clock, db) && key !in db && Untouched(t, key) && DefaultsFrom(t, key, {only})
    ensures OnlyDefault(Last(t), key, only)
  {
    if t.Then? {
      OneDefaultOnly(t.before, clock, db, key, only);
      OneDefaultStep(Last(t.before), t.step, key, only);
    }
  }

  lemma OneDefaultStep(s: State, e: Step, key: string, only: Value)
    requires OnlyDefault(s, key, only) && !(e.Write? && e.key == key) && (e.Begin? && e.key == key ==> e.fallback == only)
    ensures OnlyDefault(Do(s, e), key, only)
  {
    var u := Do(s, e);
    forall tid | tid in u.threads
      ensures var p := u.threads[tid];
              !p.Idle? && p.key == key ==> p.fallback == only && (p.Loaded? || p.Returned? ==> p.value == only)
    {
      if tid in s.threads { assert s.Of(tid) == s.threads[tid]; }
    }
  }

  lemma {:induction false} FewerDefaults(t: Trace, key: string, defaults: set<Value>, only: Value)
    requires DefaultsFrom(t, key, defaults) && defaults <= {only}
    ensures DefaultsFrom(t, key, {only})
  {
    if t.Then? { FewerDefaults(t.before, key, defaults, only); }
  }

  /** A cached default is handed to callers who passed another one, if any two callers of the key differ. */
  lemma DefaultsAreOwnIff(key: string, defaults: set<Value>)
    ensures DefaultsAreOwn(key, defaults) <==> forall f, g | f in defaults && g in defaults :: f == g
  {
    if f, g :| f in defaults && g in defaults && f != g {
      var t := SomeoneElsesDefault(key, f, g, defaults);
    } else {
      var only: Value := if f :| f in defaults then f else "";
      forall t, clock, db, tid
        | First(t) == Initial(clock, db) && key !in db && Untouched(t, key) && DefaultsFrom(t, key, defaults)
        ensures OwnDefault(Last(t).Of(tid), key)
      {
        FewerDefaults(t, key, defaults, only);
        OneDefaultOnly(t, clock, db, key, only);
      }
    }
  }

  lemma SomeoneElsesDefault(key: string, f: Value, g: Value, defaults: set<Value>) returns (t: Trace)
    requires f in defaults && g in defaults && f != g
    ensures First(t) == Initial(0, map[]) && Untouched(t, key) && DefaultsFrom(t, key, defaults)
    ensures !OwnDefault(Last(t).Of(2), key)
  {
    var s := Initial(0, map[]);
    t := Start(s);
    assert DefaultsFrom(t, key, defaults);
    t := Extend(t, s, Begin(1, key, f));
    t := Extend(t, s, Look(1));
    t := Extend(t, s, Load(1));
    assert Last(t).Of(1) == Loaded(key, f, 0, f) && DefaultsFrom(t, key, defaults);
    t := Extend(t, s, Save(1));
    t := Extend(t, s, Begin(2, key, g));
    assert Last(t).entries[key] == Entry(0, f) && Last(t).Of(2) == Asked(key, g, 0);
    t := Extend(t, s, Look(2));
  }
}
