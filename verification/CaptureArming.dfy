/** Whether an acknowledged arming stays stored
    (browser_extensions/local_finding_capture/background.js:34-99, 139-166). */
module CaptureArming {
  import opened Wrappers
  import opened CaptureUrls
  import opened CaptureExtension

  /** What happens from some state on. */
  datatype Future = Halt | Next(step: Step, rest: Future)

  function After(s: State, f: Future): State
    requires s.past != []
    decreases f
  {
    match f
    case Halt => s
    case Next(e, rest) => After(Do(s, e), rest)
  }

  /** No message arrives, and the clock does not pass `until`. */
  predicate Quiet(s: State, f: Future, until: int)
    requires s.past != []
    decreases f
  {
    && s.clock <= until
    && match f
       case Halt => true
       case Next(e, rest) => !e.Receive? && Quiet(Do(s, e), rest, until)
  }

  predicate Same(r: Pending, p: Pending) { r.caseId == p.caseId && r.findingId == p.findingId }

  predicate Names(stored: Option<Pending>, p: Pending) { stored.Some? && Same(stored.value, p) }

  /** Until then, whatever the handlers already under way do, the stored record is for this case and finding. */
  ghost predicate Survives(s: State, p: Pending, until: int)
    requires s.past != []
  {
    forall f :: Quiet(s, f, until) ==> Names(After(s, f).stored, p)
  }

  // ---------------------------------------------------------------------------
  // What the handlers under way may still do
  // ---------------------------------------------------------------------------

  predicate CanShoot(tab: Option<Tab>, caseId: string) {
    tab.Some? && !IsCaseUrl(tab.value.url, caseId) && IsCaptureable(tab.value.url)
  }

  /** It cannot, on its own, remove the record or store another finding. */
  predicate Harmless(task: Task, p: Pending, until: int) {
    match task
    case Clearing => false
    case Sending => false
    case Storing(r) => Same(r, p)
    case Shooting(_, r, _) => Same(r, p)
    case Holding(purpose, read, _) =>
      read.Some? ==>
        && !Expired(read.value, until)
        && (match purpose
            case Show => true
            case Capture(tab) => CanShoot(tab, read.value.caseId) ==> Same(read.value, p)
            case Upload(sender) => read.value.stage.Armed? || !IsCaseUrl(sender, read.value.caseId))
    case _ => true
  }

  /** It will read whatever is stored then. */
  predicate Reads(task: Task) { task.Reading? || task.Querying? }

  /** It will store a record that expires before `until`. */
  predicate Aged(task: Task, until: int) { task.Storing? && Expired(task.record, until) }

  /** It may turn the record into a ready one. */
  predicate MayCapture(task: Task, p: Pending) {
    match task
    case Querying => true
    case Reading(Capture(tab)) => CanShoot(tab, p.caseId)
    case Holding(Capture(tab), read, _) => read.Some? && CanShoot(tab, read.value.caseId)
    case Shooting(_, _, _) => true
    case Storing(r) => r.stage.Ready?
    case _ => false
  }

  /** It will upload the record, and then remove it, if it is ready by then. */
  predicate WillUpload(task: Task, p: Pending) {
    task.Reading? && task.purpose.Upload? && IsCaseUrl(task.purpose.sender, p.caseId)
  }

  ghost predicate AllHarmless(s: State, p: Pending, until: int) { forall tid :: Harmless(s.Of(tid), p, until) }
  ghost predicate SomeAged(s: State, until: int) { exists tid :: Aged(s.Of(tid), until) }
  ghost predicate SomeReads(s: State) { exists tid :: Reads(s.Of(tid)) }
  ghost predicate SomeMayCapture(s: State, p: Pending) { exists tid :: MayCapture(s.Of(tid), p) }
  ghost predicate SomeWillUpload(s: State, p: Pending) { exists tid :: WillUpload(s.Of(tid), p) }

  /** No handler, and no two of them together, can end the arming before `until`. */
  ghost predicate Undisturbed(s: State, p: Pending, until: int) {
    && AllHarmless(s, p, until)
    && !(SomeAged(s, until) && SomeReads(s))
    && !(SomeMayCapture(s, p) && SomeWillUpload(s, p))
  }

  // ---------------------------------------------------------------------------
  // Undisturbed armings survive
  // ---------------------------------------------------------------------------

  ghost predicate Safe(s: State, p: Pending, until: int) {
    && until <= s.clock + MAX_AGE && Names(s.stored, p) && AllHarmless(s, p, until)
    && (Expired(s.stored.value, until) || SomeAged(s, until) ==> !SomeReads(s))
    && (s.stored.value.stage.Ready? || SomeMayCapture(s, p) ==> !SomeWillUpload(s, p))
  }

  /** A handler's task gives way to one that is no worse. */
  lemma OneTaskChanges(s: State, t: State, tid: nat, p: Pending, until: int)
    requires Safe(s, p, until) && s.clock <= t.clock && (t.tasks == s.tasks || t.tasks == s.tasks[tid := t.Of(tid)])
    requires Names(t.stored, p) && Harmless(t.Of(tid), p, until)
    requires Reads(t.Of(tid)) ==> Reads(s.Of(tid))
    requires WillUpload(t.Of(tid), p) ==> WillUpload(s.Of(tid), p)
    requires MayCapture(t.Of(tid), p) ==> MayCapture(s.Of(tid), p)
    requires Aged(t.Of(tid), until) ==> Aged(s.Of(tid), until)
    requires Expired(t.stored.value, until) ==> Expired(s.stored.value, until) || SomeAged(s, until)
    requires t.stored.value.stage.Ready? ==> s.stored.value.stage.Ready? || SomeMayCapture(s, p)
    ensures Safe(t, p, until)
  {
    forall i ensures i != tid ==> t.Of(i) == s.Of(i) {}
    forall i ensures Harmless(t.Of(i), p, until) && (Reads(t.Of(i)) ==> Reads(s.Of(i)))
      && (WillUpload(t.Of(i), p) ==> WillUpload(s.Of(i), p)) && (MayCapture(t.Of(i), p) ==> MayCapture(s.Of(i), p))
      && (Aged(t.Of(i), until) ==> Aged(s.Of(i), until))
    {
      assert Harmless(s.Of(i), p, until);
    }
  }

  lemma FetchIsSafe(s: State, tid: nat, p: Pending, until: int)
    requires s.past != [] && Safe(s, p, until)
    ensures Safe(Do(s, Fetch(tid)), p, until)
  {
    var t := Do(s, Fetch(tid));
    if s.Of(tid).Reading? {
      assert Reads(s.Of(tid));
      if IsCaseUrl(if s.Of(tid).purpose.Upload? then s.Of(tid).purpose.sender else None, p.caseId) {
        assert s.Of(tid).purpose.Upload? ==> WillUpload(s.Of(tid), p);
      }
    }
    assert Harmless(s.Of(tid), p, until);
    OneTaskChanges(s, t, tid, p, until);
  }

  lemma StoreIsSafe(s: State, tid: nat, p: Pending, until: int)
    requires s.past != [] && Safe(s, p, until)
    ensures Safe(Do(s, Store(tid)), p, until)
  {
    var task := s.Of(tid);
    assert Harmless(task, p, until);
    if task.Storing? {
      assert Expired(task.record, until) ==> Aged(task, until);
      assert task.record.stage.Ready? ==> MayCapture(task, p);
    }
    OneTaskChanges(s, Do(s, Store(tid)), tid, p, until);
  }

  lemma StepIsSafe(s: State, e: Step, p: Pending, until: int)
    requires s.past != [] && Safe(s, p, until) && !e.Receive? && Act(s, e).clock <= until
    ensures Safe(Do(s, e), p, until)
  {
    if e.Fetch? {
      FetchIsSafe(s, e.tid, p, until);
    } else if e.Store? {
      StoreIsSafe(s, e.tid, p, until);
    } else if e.Resume? || e.Shoot? {
      CaptureStepIsSafe(s, e, p, until);
    } else {
      OtherStepIsSafe(s, e, p, until);
    }
  }

  lemma CaptureStepIsSafe(s: State, e: Step, p: Pending, until: int)
    requires s.past != [] && Safe(s, p, until) && s.clock <= until && (e.Resume? || e.Shoot?)
    ensures Safe(Do(s, e), p, until)
  {
    assert Harmless(s.Of(e.tid), p, until);
    OneTaskChanges(s, Do(s, e), e.tid, p, until);
  }

  lemma OtherStepIsSafe(s: State, e: Step, p: Pending, until: int)
    requires s.past != [] && Safe(s, p, until) && Act(s, e).clock <= until
    requires e.Query? || e.Remove? || e.Reply? || e.Navigate? || e.Tick?
    ensures Safe(Do(s, e), p, until)
  {
    var tid := if e.Navigate? || e.Tick? then 0 else e.tid;
    assert Harmless(s.Of(tid), p, until);
    OneTaskChanges(s, Do(s, e), tid, p, until);
  }

  lemma {:induction false} SafeStays(s: State, f: Future, p: Pending, until: int)
    requires s.past != [] && Safe(s, p, until) && Quiet(s, f, until)
    ensures Names(After(s, f).stored, p)
    decreases f
  {
    match f {
      case Halt =>
      case Next(e, rest) =>
        assert Quiet(Do(s, e), rest, until);
        StepIsSafe(s, e, p, until);
        SafeStays(Do(s, e), rest, p, until);
    }
  }

  // ---------------------------------------------------------------------------
  // Disturbed ones may be lost
  // ---------------------------------------------------------------------------

  lemma LostNow(s: State, p: Pending, until: int)
    requires s.past != [] && s.clock <= until && !Names(s.stored, p)
    ensures !Survives(s, p, until)
  {
    assert Quiet(s, Halt, until) && After(s, Halt) == s;
  }

  lemma LostLater(s: State, e: Step, p: Pending, until: int)
    requires s.past != [] && s.clock <= until && !e.Receive? && !Survives(Do(s, e), p, until)
    ensures !Survives(s, p, until)
  {
    var f :| Quiet(Do(s, e), f, until) && !Names(After(Do(s, e), f).stored, p);
    assert Quiet(s, Next(e, f), until) && After(s, Next(e, f)) == After(Do(s, e), f);
  }

  lemma LostByClearing(s: State, tid: nat, p: Pending, until: int)
    requires s.past != [] && s.clock <= until && s.Of(tid).Clearing?
    ensures !Survives(s, p, until)
  {
    LostNow(Do(s, Remove(tid)), p, until);
    LostLater(s, Remove(tid), p, until);
  }

  lemma LostBySending(s: State, tid: nat, p: Pending, until: int)
    requires s.past != [] && s.clock <= until && s.Of(tid).Sending?
    ensures !Survives(s, p, until)
  {
    LostByClearing(Do(s, Reply(tid, true)), tid, p, until);
    LostLater(s, Reply(tid, true), p, until);
  }

  lemma LostByStoring(s: State, tid: nat, p: Pending, until: int)
    requires s.past != [] && s.clock <= until && s.Of(tid).Storing? && !Same(s.Of(tid).record, p)
    ensures !Survives(s, p, until)
  {
    LostNow(Do(s, Store(tid)), p, until);
    LostLater(s, Store(tid), p, until);
  }

  lemma LostByShooting(s: State, tid: nat, p: Pending, until: int)
    requires s.past != [] && s.clock <= until && s.Of(tid).Shooting? && !Same(s.Of(tid).source, p)
    ensures !Survives(s, p, until)
  {
    LostByStoring(Do(s, Shoot(tid, Some(0))), tid, p, until);
    LostLater(s, Shoot(tid, Some(0)), p, until);
  }

  lemma LostByExpiry(s: State, tid: nat, p: Pending, until: int)
    requires s.past != [] && s.clock <= until && s.Of(tid).Holding?
    requires s.Of(tid).read.Some? && Expired(s.Of(tid).read.value, until)
    ensures !Survives(s, p, until)
  {
    var wait := Tick(until - s.clock);
    var t := Do(s, wait);
    assert t.Of(tid) == s.Of(tid) && t.clock == until;
    LostByClearing(Do(t, Resume(tid)), tid, p, until);
    LostLater(t, Resume(tid), p, until);
    LostLater(s, wait, p, until);
  }

  lemma LostByHolding(s: State, tid: nat, p: Pending, until: int)
    requires s.past != [] && s.clock <= until && s.Of(tid).Holding? && !Harmless(s.Of(tid), p, until)
    ensures !Survives(s, p, until)
  {
    if Expired(s.Of(tid).read.value, until) {
      LostByExpiry(s, tid, p, until);
    } else {
      var t := Do(s, Resume(tid));
      if s.Of(tid).purpose.Capture? {
        LostByShooting(t, tid, p, until);
      } else {
        LostBySending(t, tid, p, until);
      }
      LostLater(s, Resume(tid), p, until);
    }
  }

  lemma LostByOneTask(s: State, tid: nat, p: Pending, until: int)
    requires s.past != [] && s.clock <= until && !Harmless(s.Of(tid), p, until)
    ensures !Survives(s, p, until)
  {
    match s.Of(tid) {
      case Clearing => LostByClearing(s, tid, p, until);
      case Sending => LostBySending(s, tid, p, until);
      case Storing(_) => LostByStoring(s, tid, p, until);
      case Shooting(_, _, _) => LostByShooting(s, tid, p, until);
      case Holding(_, _, _) => LostByHolding(s, tid, p, until);
    }
  }

  /** A reader meets a record that expires before `until`. */
  lemma LostByReader(s: State, tid: nat, p: Pending, until: int)
    requires s.past != [] && s.clock <= until && s.stored.Some? && Expired(s.stored.value, until) && Reads(s.Of(tid))
    ensures !Survives(s, p, until)
  {
    if s.Of(tid).Reading? {
      LostByExpiry(Do(s, Fetch(tid)), tid, p, until);
      LostLater(s, Fetch(tid), p, until);
    } else {
      var t := Do(s, Query(tid, None));
      LostByExpiry(Do(t, Fetch(tid)), tid, p, until);
      LostLater(t, Fetch(tid), p, until);
      LostLater(s, Query(tid, None), p, until);
    }
  }

  lemma LostByAging(s: State, a: nat, b: nat, p: Pending, until: int)
    requires s.past != [] && s.clock <= until && Aged(s.Of(a), until) && Reads(s.Of(b))
    ensures !Survives(s, p, until)
  {
    var t := Do(s, Store(a));
    assert t.Of(b) == s.Of(b);
    LostByReader(t, b, p, until);
    LostLater(s, Store(a), p, until);
  }

  /** An upload meets a ready record. */
  lemma LostByUpload(s: State, tid: nat, p: Pending, until: int)
    requires s.past != [] && s.clock <= until && Names(s.stored, p) && s.stored.value.stage.Ready? && WillUpload(s.Of(tid), p)
    ensures !Survives(s, p, until)
  {
    var t := Do(s, Fetch(tid));
    assert !Harmless(t.Of(tid), p, until);
    LostByHolding(t, tid, p, until);
    LostLater(s, Fetch(tid), p, until);
  }

  lemma LostByReadyRecord(s: State, a: nat, b: nat, p: Pending, until: int)
    requires s.past != [] && s.clock <= until && WillUpload(s.Of(b), p)
    requires s.Of(a).Storing? && s.Of(a).record.stage.Ready? && Same(s.Of(a).record, p)
    ensures !Survives(s, p, until)
  {
    var t := Do(s, Store(a));
    assert t.Of(b) == s.Of(b);
    LostByUpload(t, b, p, until);
    LostLater(s, Store(a), p, until);
  }

  lemma LostByPicture(s: State, a: nat, b: nat, p: Pending, until: int)
    requires s.past != [] && s.clock <= until && WillUpload(s.Of(b), p) && s.Of(a).Shooting? && Same(s.Of(a).source, p)
    ensures !Survives(s, p, until)
  {
    var t := Do(s, Shoot(a, Some(0)));
    assert t.Of(b) == s.Of(b);
    LostByReadyRecord(t, a, b, p, until);
    LostLater(s, Shoot(a, Some(0)), p, until);
  }

  lemma LostByCapture(s: State, a: nat, b: nat, p: Pending, until: int)
    requires s.past != [] && s.clock <= until && WillUpload(s.Of(b), p) && s.Of(a).Holding? && MayCapture(s.Of(a), p)
    requires Same(s.Of(a).read.value, p) && !Expired(s.Of(a).read.value, until)
    ensures !Survives(s, p, until)
  {
    var t := Do(s, Resume(a));
    assert t.Of(b) == s.Of(b);
    LostByPicture(t, a, b, p, until);
    LostLater(s, Resume(a), p, until);
  }

  lemma LostByCaptureRead(s: State, a: nat, b: nat, p: Pending, until: int)
    requires s.past != [] && s.clock <= until && WillUpload(s.Of(b), p) && s.Of(a).Reading? && MayCapture(s.Of(a), p)
    requires Names(s.stored, p) && !Expired(s.stored.value, until)
    ensures !Survives(s, p, until)
  {
    var t := Do(s, Fetch(a));
    assert t.Of(b) == s.Of(b);
    LostByCapture(t, a, b, p, until);
    LostLater(s, Fetch(a), p, until);
  }

  const ELSEWHERE := Url("https:", "https://example.com", "/")

  /** The user may have moved to a website by the time the tab is asked for. */
  lemma LostByCaptureQuery(s: State, a: nat, b: nat, p: Pending, until: int)
    requires s.past != [] && s.clock <= until && WillUpload(s.Of(b), p) && s.Of(a).Querying?
    requires Names(s.stored, p) && !Expired(s.stored.value, until)
    ensures !Survives(s, p, until)
  {
    var go, ask := Navigate(0, Some(ELSEWHERE)), Query(a, Some(0));
    var t := Do(s, go);
    assert t.Of(a) == s.Of(a) && t.Of(b) == s.Of(b) && 0 in t.visible && t.visible[0] == Some(ELSEWHERE);
    var u := Do(t, ask);
    assert u.Of(b) == s.Of(b) && MayCapture(u.Of(a), p);
    LostByCaptureRead(u, a, b, p, until);
    LostLater(t, ask, p, until);
    LostLater(s, go, p, until);
  }

  lemma LostByUploadOfCapture(s: State, a: nat, b: nat, p: Pending, until: int)
    requires s.past != [] && s.clock <= until && WillUpload(s.Of(b), p) && MayCapture(s.Of(a), p)
    requires Harmless(s.Of(a), p, until) && Names(s.stored, p) && !Expired(s.stored.value, until)
    ensures !Survives(s, p, until)
  {
    match s.Of(a) {
      case Querying => LostByCaptureQuery(s, a, b, p, until);
      case Reading(_) => LostByCaptureRead(s, a, b, p, until);
      case Holding(_, _, _) => LostByCapture(s, a, b, p, until);
      case Shooting(_, _, _) => LostByPicture(s, a, b, p, until);
      case Storing(_) => LostByReadyRecord(s, a, b, p, until);
    }
  }

  /** Exactly when an arming stays stored, at the moment it is: within its age and without new messages, the record
      is for its case and finding throughout if and only if no handler under way removes it (a discard, an upload, an
      expiry), none stores another finding, none stores a record that is about to expire while another reads, and none
      captures while another uploads. */
  lemma ArmingSurvivesIff(s: State, p: Pending, until: int)
    requires s.past != [] && s.stored == Some(p) && p.stage.Armed?
    requires p.createdAt <= s.clock <= until <= p.createdAt + 10 * 60 * 1000
    ensures Survives(s, p, until) <==> Undisturbed(s, p, until)
  {
    if Undisturbed(s, p, until) {
      forall f | Quiet(s, f, until) ensures Names(After(s, f).stored, p) { SafeStays(s, f, p, until); }
    } else if !AllHarmless(s, p, until) {
      var tid :| !Harmless(s.Of(tid), p, until);
      LostByOneTask(s, tid, p, until);
    } else if SomeAged(s, until) && SomeReads(s) {
      var a, b :| Aged(s.Of(a), until) && Reads(s.Of(b));
      LostByAging(s, a, b, p, until);
    } else {
      var a, b :| MayCapture(s.Of(a), p) && WillUpload(s.Of(b), p);
      assert Harmless(s.Of(a), p, until);
      LostByUploadOfCapture(s, a, b, p, until);
    }
  }

  // ---------------------------------------------------------------------------
  // Two ways to lose one
  // ---------------------------------------------------------------------------

  lemma Extend(t: Trace, e: Step) returns (u: Trace)
    ensures u == Then(t, e) && Last(u) == Do(Last(t), e)
  {
    u := Then(t, e);
  }

  /** One arming, and nothing else. */
  lemma OneArming(visible: map<nat, Option<Url>>, caseId: string, findingId: string) returns (t: Trace)
    ensures var s := Last(t);
            && s.clock == 0 && s.visible == visible && s.stored == Some(Pending(caseId, findingId, 0, Armed))
            && s.Of(2) == s.Of(3) == Idle
  {
    t := Extend(Start(0, visible), Receive(1, Arm(caseId, findingId)));
    assert Last(t).Of(1) == Storing(Pending(caseId, findingId, 0, Armed));
    t := Extend(t, Store(1));
  }

  /** A handler that has read an expired record and is about to remove it. */
  lemma ExpiryUnderWay(caseId: string, findingId: string) returns (t: Trace)
    ensures Last(t).clock == MAX_AGE + 1 && Last(t).Of(2) == Clearing && Last(t).Of(3) == Idle
  {
    t := OneArming(map[], caseId, findingId);
    t := Extend(t, Tick(MAX_AGE + 1));
    t := Extend(t, Receive(2, Look));
    t := Extend(t, Fetch(2));
    assert exists at :: Last(t).Of(2) == Holding(Show, Some(Pending(caseId, findingId, 0, Armed)), at);
    t := Extend(t, Resume(2));
  }

  /** The expiry of an old record can remove one armed after it was read, although that arming was acknowledged. */
  lemma ExpiryCanDropANewArm(caseId: string, findingId: string) returns (t: Trace)
    ensures t.Then? && Last(t.before).stored == Some(Pending(caseId, findingId, MAX_AGE + 1, Armed))
    ensures Last(t.before).clock == MAX_AGE + 1 && Last(t).stored == None
  {
    t := ExpiryUnderWay(caseId, findingId);
    t := Extend(t, Receive(3, Arm(caseId, findingId)));
    t := Extend(t, Store(3));
    t := Extend(t, Remove(2));
  }

  /** A capture under way: its record, made for finding `f`, is about to be stored. */
  lemma CaptureUnderWay(caseId: string, f: string) returns (t: Trace)
    ensures Last(t).clock == 0 && Last(t).Of(3) == Idle && Last(t).Of(2).Storing?
    ensures Last(t).Of(2).record.stage.Ready? && Last(t).Of(2).record.findingId == f
  {
    var armed := Pending(caseId, f, 0, Armed);
    t := OneArming(map[0 := Some(ELSEWHERE)], caseId, f);
    t := Extend(t, Receive(2, CaptureTab));
    t := Extend(t, Query(2, Some(0)));
    assert Last(t).Of(2).Reading? && MayCapture(Last(t).Of(2), armed) && Last(t).stored == Some(armed);
    t := TakePicture(t, armed);
  }

  lemma TakePicture(before: Trace, armed: Pending) returns (t: Trace)
    requires Last(before).stored == Some(armed) && armed == Pending(armed.caseId, armed.findingId, 0, Armed)
    requires Last(before).Of(2).Reading? && MayCapture(Last(before).Of(2), armed) && Last(before).clock == 0
    ensures Last(t).clock == 0 && Last(t).Of(3) == Last(before).Of(3) && Last(t).Of(2).Storing?
    ensures Last(t).Of(2).record.stage.Ready? && Last(t).Of(2).record.findingId == armed.findingId
  {
    t := Extend(before, Fetch(2));
    assert Last(t).Of(2).Holding? && MayCapture(Last(t).Of(2), armed) && Last(t).Of(2).read == Some(armed);
    t := Extend(t, Resume(2));
    assert Last(t).Of(2).Shooting? && Last(t).Of(2).source == armed;
    t := Extend(t, Shoot(2, Some(0)));
  }

  /** A capture under way for one finding stores its record over the arming of another, acknowledged meanwhile. */
  lemma LateCaptureOverwritesANewArm(caseId: string, f: string, g: string) returns (t: Trace)
    ensures t.Then? && Last(t.before).stored == Some(Pending(caseId, g, 0, Armed)) && Last(t).clock == 0
    ensures Last(t).stored.Some? && Last(t).stored.value.stage.Ready? && Last(t).stored.value.findingId == f
  {
    t := CaptureUnderWay(caseId, f);
    t := Extend(t, Receive(3, Arm(caseId, g)));
    t := Extend(t, Store(3));
    t := Extend(t, Store(2));
  }
}
