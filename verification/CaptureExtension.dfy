/** The capture extension's message handlers (browser_extensions/local_finding_capture/background.js:29-169), cut at
    every await, under every interleaving. Times are milliseconds. */
module CaptureExtension {
  import opened Wrappers
  import opened CaptureUrls

  const MAX_AGE := 600_000
  const MAX_CAPTURE := 7 * 1024 * 1024

  /** A tab as the query found it, in moment `asked`. */
  datatype Tab = Tab(window: nat, url: Option<Url>, asked: nat)

  /** What a window showed in moment `at`. */
  datatype Image = Image(window: nat, page: Option<Url>, size: nat, at: nat)

  datatype Stage = Armed | Ready(tab: Tab, image: Image)

  /** The one stored record. A ready record's source address is its tab's. */
  datatype Pending = Pending(caseId: string, findingId: string, createdAt: int, stage: Stage)

  datatype Message = Arm(caseId: string, findingId: string) | Look | CaptureTab | Cancel | UploadFrom(sender: Option<Url>)

  /** What a read of the record is for. */
  datatype Purpose = Show | Capture(tab: Option<Tab>) | Upload(sender: Option<Url>)

  /** A handler between two awaits. */
  datatype Task =
    | Idle
    | Querying
    | Reading(purpose: Purpose)
    | Holding(purpose: Purpose, read: Option<Pending>, at: nat)
    | Shooting(tab: Tab, source: Pending, at: nat)
    | Storing(record: Pending)
    | Sending
    | Clearing

  datatype Moment = Moment(clock: int, stored: Option<Pending>, visible: map<nat, Option<Url>>)

  /** A capture: which record its handler had read, and when; `clock` is the time of the picture. */
  datatype Shot = Shot(read: Pending, readAt: nat, tab: Tab, image: Image, clock: int)

  datatype Sent = Sent(record: Pending, readAt: nat, sender: Option<Url>)

  /** `past` lists all moments so far, the present one last. */
  datatype State = State(
    clock: int, stored: Option<Pending>, visible: map<nat, Option<Url>>, tasks: map<nat, Task>,
    past: seq<Moment>, shots: seq<Shot>, sent: seq<Sent>
  ) {
    function Of(tid: nat): Task { if tid in tasks then tasks[tid] else Idle }
    function Put(tid: nat, task: Task): State { this.(tasks := tasks[tid := task]) }
    function Now(): nat requires past != [] { |past| - 1 }
  }

  datatype Step =
    | Receive(tid: nat, message: Message)
    | Query(tid: nat, front: Option<nat>)
    | Fetch(tid: nat)
    | Resume(tid: nat)
    | Shoot(tid: nat, size: Option<nat>)
    | Store(tid: nat)
    | Remove(tid: nat)
    | Reply(tid: nat, ok: bool)
    | Navigate(window: nat, url: Option<Url>)
    | Tick(elapsed: nat)

  predicate Expired(p: Pending, clock: int) { clock - p.createdAt > MAX_AGE }

  function Accept(message: Message, clock: int): Task {
    match message
    case Arm(caseId, findingId) => Storing(Pending(caseId, findingId, clock, Armed))
    case Look => Reading(Show)
    case CaptureTab => Querying
    case Cancel => Clearing
    case UploadFrom(sender) => Reading(Upload(sender))
  }

  /** The handler goes on with what it read. */
  function Continue(s: State, tid: nat, purpose: Purpose, read: Option<Pending>, at: nat): State {
    if read.None? then s.Put(tid, Idle)
    else if Expired(read.value, s.clock) then s.Put(tid, Clearing)
    else
      match purpose
      case Show => s.Put(tid, Idle)
      case Capture(tab) =>
        if tab.None? || IsCaseUrl(tab.value.url, read.value.caseId) || !IsCaptureable(tab.value.url) then s.Put(tid, Idle)
        else s.Put(tid, Shooting(tab.value, read.value, at))
      case Upload(sender) =>
        if read.value.stage.Armed? || !IsCaseUrl(sender, read.value.caseId) then s.Put(tid, Idle)
        else s.(sent := s.sent + [Sent(read.value, at, sender)]).Put(tid, Sending)
  }

  function Take(s: State, tid: nat, tab: Tab, read: Pending, at: nat, size: nat): State
    requires s.past != []
  {
    var page := if tab.window in s.visible then s.visible[tab.window] else None;
    var image := Image(tab.window, page, size, s.Now());
    var t := s.(shots := s.shots + [Shot(read, at, tab, image, s.clock)]);
    if size > MAX_CAPTURE then t.Put(tid, Idle)
    else t.Put(tid, Storing(read.(stage := Ready(tab, image), createdAt := s.clock)))
  }

  function Act(s: State, e: Step): State
    requires s.past != []
  {
    match e
    case Receive(tid, message) => if s.Of(tid).Idle? then s.Put(tid, Accept(message, s.clock)) else s
    case Query(tid, front) =>
      if s.Of(tid).Querying? then
        s.Put(tid, Reading(Capture(
          if front.Some? && front.value in s.visible then Some(Tab(front.value, s.visible[front.value], s.Now()))
          else None)))
      else s
    case Fetch(tid) =>
      (match s.Of(tid) case Reading(purpose) => s.Put(tid, Holding(purpose, s.stored, s.Now())) case _ => s)
    case Resume(tid) =>
      (match s.Of(tid) case Holding(purpose, read, at) => Continue(s, tid, purpose, read, at) case _ => s)
    case Shoot(tid, size) =>
      (match s.Of(tid)
       case Shooting(tab, read, at) =>
         if size.None? then s.Put(tid, Idle) else Take(s, tid, tab, read, at, size.value)
       case _ => s)
    case Store(tid) =>
      (match s.Of(tid) case Storing(record) => s.(stored := Some(record)).Put(tid, Idle) case _ => s)
    case Remove(tid) => if s.Of(tid).Clearing? then s.(stored := None).Put(tid, Idle) else s
    case Reply(tid, ok) => if s.Of(tid).Sending? then s.Put(tid, if ok then Clearing else Idle) else s
    case Navigate(window, url) => s.(visible := s.visible[window := url])
    case Tick(elapsed) => s.(clock := s.clock + elapsed)
  }

  function Do(s: State, e: Step): State
    requires s.past != []
    ensures Do(s, e).past != []
  {
    var t := Act(s, e);
    t.(past := s.past + [Moment(t.clock, t.stored, t.visible)])
  }

  function Initial(clock: int, visible: map<nat, Option<Url>>): State {
    State(clock, None, visible, map[], [Moment(clock, None, visible)], [], [])
  }

  datatype Trace = Start(clock: int, visible: map<nat, Option<Url>>) | Then(before: Trace, step: Step)

  function Last(t: Trace): (s: State)
    ensures s.past != []
  {
    match t
    case Start(clock, visible) => Initial(clock, visible)
    case Then(before, e) => Do(Last(before), e)
  }

  // ---------------------------------------------------------------------------
  // What every schedule keeps
  // ---------------------------------------------------------------------------

  /** The tab showed this address when it was asked for. */
  predicate TabInv(past: seq<Moment>, tab: Tab) {
    tab.asked < |past| && tab.window in past[tab.asked].visible && past[tab.asked].visible[tab.window] == tab.url
  }

  /** The record was in storage in moment `at`, not expired. */
  predicate ReadInv(past: seq<Moment>, p: Pending, at: nat) {
    at < |past| && past[at].stored == Some(p) && past[at].clock - p.createdAt <= 10 * 60 * 1000
  }

  /** A capture shows its window at a moment after the tab was asked for and then the record was read. */
  predicate ShotInv(past: seq<Moment>, shot: Shot) {
    && shot.tab.asked < shot.readAt < shot.image.at < |past| - 1
    && TabInv(past, shot.tab) && ReadInv(past, shot.read, shot.readAt)
    && !IsCaseUrl(shot.tab.url, shot.read.caseId)
    && shot.tab.url.Some? && shot.tab.url.value.scheme in {"http:", "https:"}
    && past[shot.image.at].clock == shot.clock
    && shot.image.window == shot.tab.window
    && (var visible := past[shot.image.at].visible;
        shot.image.page == if shot.tab.window in visible then visible[shot.tab.window] else None)
  }

  /** A ready record is what one capture handler made: the case and finding it had read, the picture it then took. */
  predicate MadeBy(p: Pending, shot: Shot) {
    && p.stage == Ready(shot.tab, shot.image) && shot.image.size <= 7_340_032 && p.createdAt == shot.clock
    && p.caseId == shot.read.caseId && p.findingId == shot.read.findingId
  }

  ghost predicate Genuine(shots: seq<Shot>, p: Pending) {
    p.stage.Ready? ==> exists k | 0 <= k < |shots| :: MadeBy(p, shots[k])
  }

  ghost predicate TaskInv(s: State, task: Task) {
    match task
    case Reading(purpose) => purpose.Capture? && purpose.tab.Some? ==>
        TabInv(s.past, purpose.tab.value) && purpose.tab.value.asked < |s.past| - 1
    case Holding(purpose, read, at) =>
      && at < |s.past| && s.past[at].stored == read && (read.Some? ==> Genuine(s.shots, read.value))
      && (purpose.Capture? && purpose.tab.Some? ==> TabInv(s.past, purpose.tab.value) && purpose.tab.value.asked < at)
    case Shooting(tab, read, at) =>
      && TabInv(s.past, tab) && tab.asked < at < |s.past| - 1 && ReadInv(s.past, read, at)
      && !IsCaseUrl(tab.url, read.caseId) && IsCaptureable(tab.url)
    case Storing(record) => Genuine(s.shots, record)
    case _ => true
  }

  ghost predicate SentInv(s: State, sent: Sent) {
    && ReadInv(s.past, sent.record, sent.readAt) && sent.record.stage.Ready? && Genuine(s.shots, sent.record)
    && IsCaseUrl(sent.sender, sent.record.caseId)
  }

  ghost predicate Inv(s: State) {
    && s.past != [] && s.past[|s.past| - 1] == Moment(s.clock, s.stored, s.visible)
    && (forall i | 0 <= i < |s.past| :: s.past[i].clock <= s.clock)
    && (forall i | 0 <= i < |s.past| && s.past[i].stored.Some? :: Genuine(s.shots, s.past[i].stored.value))
    && (forall i | 0 <= i < |s.shots| :: ShotInv(s.past, s.shots[i]))
    && (forall i, j | 0 <= i < j < |s.shots| :: s.shots[i].image.at < s.shots[j].image.at)
    && (forall tid | tid in s.tasks :: TaskInv(s, s.tasks[tid]))
    && (forall i | 0 <= i < |s.sent| :: SentInv(s, s.sent[i]))
  }

  /** What was recorded once stays recorded, and a step adds one moment. */
  predicate Grows(s: State, t: State) {
    && s.past != [] && s.past <= t.past && |t.past| == |s.past| + 1
    && t.past[|t.past| - 1] == Moment(t.clock, t.stored, t.visible)
    && s.clock <= t.clock && s.shots <= t.shots && s.sent <= t.sent
  }

  lemma TabStays(past: seq<Moment>, now: seq<Moment>, tab: Tab)
    requires TabInv(past, tab) && past <= now
    ensures TabInv(now, tab)
  {
  }

  lemma ReadStays(past: seq<Moment>, now: seq<Moment>, p: Pending, at: nat)
    requires ReadInv(past, p, at) && past <= now
    ensures ReadInv(now, p, at)
  {
  }

  lemma GenuineStays(shots: seq<Shot>, more: seq<Shot>, p: Pending)
    requires Genuine(shots, p) && shots <= more
    ensures Genuine(more, p)
  {
  }

  lemma PastStays(s: State, t: State)
    requires Inv(s) && Grows(s, t)
    requires t.stored.Some? ==> Genuine(t.shots, t.stored.value)
    ensures forall i | 0 <= i < |t.past| :: t.past[i].clock <= t.clock
    ensures forall i | 0 <= i < |t.past| && t.past[i].stored.Some? :: Genuine(t.shots, t.past[i].stored.value)
  {
  }

  lemma ShotsStay(s: State, t: State)
    requires Inv(s) && Grows(s, t)
    requires t.shots == s.shots || (|t.shots| == |s.shots| + 1 && ShotInv(t.past, t.shots[|s.shots|])
                                    && t.shots[|s.shots|].image.at == |s.past| - 1)
    ensures forall i | 0 <= i < |t.shots| :: ShotInv(t.past, t.shots[i])
    ensures forall i, j | 0 <= i < j < |t.shots| :: t.shots[i].image.at < t.shots[j].image.at
  {
  }

  lemma SentStay(s: State, t: State)
    requires Inv(s) && Grows(s, t)
    requires t.sent == s.sent || (|t.sent| == |s.sent| + 1 && SentInv(t, t.sent[|s.sent|]))
    ensures forall i | 0 <= i < |t.sent| :: SentInv(t, t.sent[i])
  {
  }

  lemma TasksStay(s: State, t: State, tid: nat)
    requires Inv(s) && Grows(s, t)
    requires t.tasks == s.tasks || (tid in t.tasks && t.tasks == s.tasks[tid := t.tasks[tid]] && TaskInv(t, t.tasks[tid]))
    ensures forall i | i in t.tasks :: TaskInv(t, t.tasks[i])
  {
  }

  /** A step of handler `tid`, or of none, keeps the invariant if what it adds is right. */
  lemma AddedIsRight(s: State, t: State, tid: nat)
    requires Inv(s) && Grows(s, t)
    requires t.stored.Some? ==> Genuine(t.shots, t.stored.value)
    requires t.shots == s.shots || (|t.shots| == |s.shots| + 1 && ShotInv(t.past, t.shots[|s.shots|])
                                    && t.shots[|s.shots|].image.at == |s.past| - 1)
    requires t.sent == s.sent || (|t.sent| == |s.sent| + 1 && SentInv(t, t.sent[|s.sent|]))
    requires t.tasks == s.tasks || (tid in t.tasks && t.tasks == s.tasks[tid := t.tasks[tid]] && TaskInv(t, t.tasks[tid]))
    ensures Inv(t)
  {
    PastStays(s, t);
    ShotsStay(s, t);
    SentStay(s, t);
    TasksStay(s, t, tid);
  }

  lemma StoredIsGenuine(s: State, t: State)
    requires Inv(s) && Grows(s, t)
    ensures s.stored.Some? ==> Genuine(s.shots, s.stored.value) && Genuine(t.shots, s.stored.value)
  {
  }

  lemma FetchKeepsInv(s: State, tid: nat)
    requires Inv(s)
    ensures Inv(Do(s, Fetch(tid)))
  {
    var t := Do(s, Fetch(tid));
    StoredIsGenuine(s, t);
    if s.Of(tid).Reading? {
      var purpose := s.Of(tid).purpose;
      assert TaskInv(s, s.tasks[tid]);
      assert t.past[s.Now()] == s.past[s.Now()];
      if purpose.Capture? && purpose.tab.Some? { TabStays(s.past, t.past, purpose.tab.value); }
    }
    AddedIsRight(s, t, tid);
  }

  lemma CaptureGoesOn(s: State, tid: nat, tab: Option<Tab>, read: Option<Pending>, at: nat)
    requires Inv(s) && s.Of(tid) == Holding(Capture(tab), read, at)
    ensures Inv(Do(s, Resume(tid)))
  {
    var t := Do(s, Resume(tid));
    StoredIsGenuine(s, t);
    assert TaskInv(s, s.tasks[tid]);
    if tab.Some? && read.Some? && !Expired(read.value, s.clock) {
      ReadStays(s.past, t.past, read.value, at);
      TabStays(s.past, t.past, tab.value);
    }
    AddedIsRight(s, t, tid);
  }

  lemma UploadGoesOn(s: State, tid: nat, sender: Option<Url>, read: Option<Pending>, at: nat)
    requires Inv(s) && s.Of(tid) == Holding(Upload(sender), read, at)
    ensures Inv(Do(s, Resume(tid)))
  {
    var t := Do(s, Resume(tid));
    StoredIsGenuine(s, t);
    assert TaskInv(s, s.tasks[tid]);
    if read.Some? && !Expired(read.value, s.clock) {
      ReadStays(s.past, t.past, read.value, at);
      GenuineStays(s.shots, t.shots, read.value);
    }
    AddedIsRight(s, t, tid);
  }

  lemma ShowGoesOn(s: State, tid: nat, read: Option<Pending>, at: nat)
    requires Inv(s) && s.Of(tid) == Holding(Show, read, at)
    ensures Inv(Do(s, Resume(tid)))
  {
    var t := Do(s, Resume(tid));
    StoredIsGenuine(s, t);
    AddedIsRight(s, t, tid);
  }

  lemma NothingHappens(s: State, e: Step)
    requires Inv(s) && Act(s, e) == s
    ensures Inv(Do(s, e))
  {
    StoredIsGenuine(s, Do(s, e));
    AddedIsRight(s, Do(s, e), 0);
  }

  lemma ResumeKeepsInv(s: State, tid: nat)
    requires Inv(s)
    ensures Inv(Do(s, Resume(tid)))
  {
    match s.Of(tid) {
      case Holding(Capture(tab), read, at) => CaptureGoesOn(s, tid, tab, read, at);
      case Holding(Upload(sender), read, at) => UploadGoesOn(s, tid, sender, read, at);
      case Holding(Show, read, at) => ShowGoesOn(s, tid, read, at);
      case _ => NothingHappens(s, Resume(tid));
    }
  }

  lemma NewShotIsRight(s: State, t: State, tab: Tab, read: Pending, at: nat, image: Image)
    requires Inv(s) && Grows(s, t) && TaskInv(s, Shooting(tab, read, at))
    requires image.window == tab.window && image.at == s.Now()
    requires image.page == if tab.window in s.visible then s.visible[tab.window] else None
    ensures ShotInv(t.past, Shot(read, at, tab, image, s.clock))
  {
  }

  lemma ShootKeepsInv(s: State, tid: nat, size: Option<nat>)
    requires Inv(s)
    ensures Inv(Do(s, Shoot(tid, size)))
  {
    var t := Do(s, Shoot(tid, size));
    StoredIsGenuine(s, t);
    if s.Of(tid).Shooting? && size.Some? {
      var task := s.tasks[tid];
      var shot := t.shots[|s.shots|];
      NewShotIsRight(s, t, task.tab, task.source, task.at, shot.image);
      if size.value <= MAX_CAPTURE {
        assert MadeBy(t.tasks[tid].record, shot);
      }
    }
    AddedIsRight(s, t, tid);
  }

  lemma StoreKeepsInv(s: State, tid: nat)
    requires Inv(s)
    ensures Inv(Do(s, Store(tid)))
  {
    var t := Do(s, Store(tid));
    StoredIsGenuine(s, t);
    if s.Of(tid).Storing? { assert TaskInv(s, s.tasks[tid]); }
    AddedIsRight(s, t, tid);
  }

  lemma QueryKeepsInv(s: State, tid: nat, front: Option<nat>)
    requires Inv(s)
    ensures Inv(Do(s, Query(tid, front)))
  {
    var t := Do(s, Query(tid, front));
    StoredIsGenuine(s, t);
    assert t.past[s.Now()] == s.past[s.Now()];
    AddedIsRight(s, t, tid);
  }

  lemma StepKeepsInv(s: State, e: Step)
    requires Inv(s)
    ensures Inv(Do(s, e))
  {
    match e {
      case Query(tid, front) => QueryKeepsInv(s, tid, front);
      case Fetch(tid) => FetchKeepsInv(s, tid);
      case Resume(tid) => ResumeKeepsInv(s, tid);
      case Shoot(tid, size) => ShootKeepsInv(s, tid, size);
      case Store(tid) => StoreKeepsInv(s, tid);
      case _ =>
        StoredIsGenuine(s, Do(s, e));
        var tid := match e case Receive(tid, _) => tid case Remove(tid) => tid case Reply(tid, _) => tid case _ => 0;
        AddedIsRight(s, Do(s, e), tid);
    }
  }

  /** Under every interleaving: each ready record ever stored, or sent for upload, is what one capture handler made
      from the record it had read earlier; what is sent was stored, ready, unexpired and for the sender's case. */
  lemma {:induction false} CapturesAreNeverMixed(t: Trace)
    ensures Inv(Last(t))
    ensures forall i | 0 <= i < |Last(t).past| && Last(t).past[i].stored.Some? ::
              Genuine(Last(t).shots, Last(t).past[i].stored.value)
    ensures forall i | 0 <= i < |Last(t).sent| :: SentInv(Last(t), Last(t).sent[i])
  {
    if t.Then? {
      CapturesAreNeverMixed(t.before);
      StepKeepsInv(Last(t.before), t.step);
    }
  }

  /** What changes the stored record: a handler that stores one, or that removes it; and a handler comes to remove it
      exactly by a cancel message, by having read an expired record, or by an upload that went well. */
  lemma WhyStorageChanges(s: State, e: Step, tid: nat)
    requires s.past != []
    ensures var t := Do(s, e);
            && (t.stored != s.stored ==>
                  || (e.Store? && s.Of(e.tid).Storing? && t.stored == Some(s.Of(e.tid).record))
                  || (e.Remove? && s.Of(e.tid).Clearing? && t.stored == None))
            && (!s.Of(tid).Clearing? && t.Of(tid).Clearing? <==>
                  || (e == Receive(tid, Cancel) && s.Of(tid).Idle?)
                  || (e == Resume(tid) && s.Of(tid).Holding? && s.Of(tid).read.Some?
                      && s.clock - s.Of(tid).read.value.createdAt > 10 * 60 * 1000)
                  || (e == Reply(tid, true) && s.Of(tid).Sending?))
  {
  }

  /** One picture goes with one case and finding, so none can reach a record armed after it was taken. */
  lemma OnePictureOneFinding(t: Trace, p: Pending, q: Pending)
    requires Genuine(Last(t).shots, p) && Genuine(Last(t).shots, q)
    requires p.stage.Ready? && q.stage.Ready? && p.stage.image.at == q.stage.image.at
    ensures p.caseId == q.caseId && p.findingId == q.findingId && p.stage == q.stage
    ensures exists r | 0 <= r < p.stage.image.at :: HasRecord(Last(t).past, r, p)
  {
    CapturesAreNeverMixed(t);
    var s := Last(t);
    var k :| 0 <= k < |s.shots| && MadeBy(p, s.shots[k]);
    var l :| 0 <= l < |s.shots| && MadeBy(q, s.shots[l]);
    assert k == l;
    assert ShotInv(s.past, s.shots[k]);
    assert HasRecord(s.past, s.shots[k].readAt, p);
  }

  /** In moment `at` a record for the same case and finding was stored and not expired. */
  predicate HasRecord(past: seq<Moment>, at: nat, p: Pending) {
    at < |past| && past[at].stored.Some? && past[at].clock - past[at].stored.value.createdAt <= 10 * 60 * 1000
    && past[at].stored.value.caseId == p.caseId && past[at].stored.value.findingId == p.findingId
  }

  /** The picture shows the recorded source address exactly when the window showed the same then as when asked. */
  lemma SourceIsShownIff(t: Trace, p: Pending)
    requires p.stage.Ready? && Genuine(Last(t).shots, p)
    ensures var tab, image, past := p.stage.tab, p.stage.image, Last(t).past;
            && tab.asked < image.at < |past| && tab.window in past[tab.asked].visible
            && (image.page == tab.url <==>
                  past[tab.asked].visible[tab.window]
                  == if tab.window in past[image.at].visible then past[image.at].visible[tab.window] else None)
  {
    CapturesAreNeverMixed(t);
    var s := Last(t);
    var k :| 0 <= k < |s.shots| && MadeBy(p, s.shots[k]);
    assert ShotInv(s.past, s.shots[k]);
  }
}
