/** Hard deletion of expired tenants (cms/data_retention.py:64-216): ordered deletes in one shared session,
    a rollback when a tenant fails, one commit at the end. */
module TenantPurge {
  import opened Wrappers

  /** The purge list; any other table of the database is `Elsewhere`. */
  datatype Table =
    | FindingCaptureJobs | BackgroundTasks | FindingScreenshots | ActionFindings | SubjectIdentifiers | SubjectFacts
    | ResearchActions | Investigations | CaseNumberCounters | InvestigationSeqCounters | InvoiceNumberCounters
    | ServiceRates | ProrationLogs | AuditLogs | PhoneLookups | LoginLogs | NotificationPreferences | Notifications
    | Comments | CommentEditHistory | SocialAccounts | FinancialRecords | InvoiceItems | Payments | Invoices | Screenshots
    | SpiderfootScans | OsintSearches | ApiKeys | Reminders | Documents | DocumentTemplates | Findings | Addresses
    | Contacts | TenantSettings | UsageRecords | CaseAssignments | CaseSubjects | Subjects | Clients | Cases | Users
    | FeatureFlags
    | Elsewhere(name: string)

  const PURGE_ORDER: seq<Table> :=
    [FindingCaptureJobs, BackgroundTasks, FindingScreenshots, ActionFindings, SubjectIdentifiers, SubjectFacts,
     ResearchActions, Investigations, CaseNumberCounters, InvestigationSeqCounters, InvoiceNumberCounters,
     ServiceRates, ProrationLogs, AuditLogs, PhoneLookups, LoginLogs, NotificationPreferences, Notifications,
     Comments, CommentEditHistory, SocialAccounts, FinancialRecords, InvoiceItems, Payments, Invoices, Screenshots,
     SpiderfootScans, OsintSearches, ApiKeys, Reminders, Documents, DocumentTemplates, Findings, Addresses,
     Contacts, TenantSettings, UsageRecords, CaseAssignments, CaseSubjects, Subjects, Clients, Cases, Users,
     FeatureFlags]

  /** The allow-list holds every table of the order (and further names that are never purged). */
  predicate Allowed(t: Table) { !t.Elsewhere? }

  type TenantId = string
  datatype Row = Row(id: string, tenant: TenantId, parent: string)

  /** Tables that exist, and which of them have a `tenant_id` column. */
  datatype Schema = Schema(existing: set<Table>, scoped: set<Table>)

  /** The tenants table maps an id to its scheduled deletion time. */
  datatype Db = Db(tables: map<Table, set<Row>>, tenants: map<TenantId, Option<int>>)

  ghost predicate Fits(schema: Schema, db: Db) { db.tables.Keys == schema.existing }

  /** The two tables that are purged through a subquery on a parent table. */
  function ParentOf(t: Table): Option<Table> {
    if t == ActionFindings then Some(ResearchActions)
    else if t == NotificationPreferences then Some(Users)
    else None
  }

  /** A statement that cannot run: its parent table is missing or unscoped. */
  predicate Broken(schema: Schema, t: Table) {
    ParentOf(t).Some? && !(ParentOf(t).value in schema.existing && ParentOf(t).value in schema.scoped)
  }

  function ParentIds(rows: set<Row>, tid: TenantId): set<string> {
    set r | r in rows && r.tenant == tid :: r.id
  }

  /** The effect of the statement for one table. */
  function Delete(schema: Schema, db: Db, t: Table, tid: TenantId): Db
    requires t in db.tables && (ParentOf(t).Some? ==> ParentOf(t).value in db.tables)
  {
    match ParentOf(t)
    case Some(p) =>
      var ids := ParentIds(db.tables[p], tid);
      db.(tables := db.tables[t := set r | r in db.tables[t] && r.parent !in ids])
    case None =>
      if t in schema.scoped then db.(tables := db.tables[t := set r | r in db.tables[t] && r.tenant != tid]) else db
  }

  function DeleteIfThere(schema: Schema, db: Db, t: Table, tid: TenantId): Db {
    if t in db.tables && (ParentOf(t).Some? ==> ParentOf(t).value in db.tables) then Delete(schema, db, t, tid) else db
  }

  function PurgeTables(schema: Schema, db: Db, order: seq<Table>, tid: TenantId): Db {
    if order == [] then db
    else DeleteIfThere(schema, PurgeTables(schema, db, order[..|order| - 1], tid), order[|order| - 1], tid)
  }

  function PurgeTenant(schema: Schema, db: Db, order: seq<Table>, tid: TenantId): Db {
    var d := PurgeTables(schema, db, order, tid);
    d.(tenants := d.tenants - {tid})
  }

  function PurgeAll(schema: Schema, db: Db, order: seq<Table>, tids: seq<TenantId>): Db {
    if tids == [] then db
    else PurgeTenant(schema, PurgeAll(schema, db, order, tids[..|tids| - 1]), order, tids[|tids| - 1])
  }

  /** Statements that the database refuses for reasons outside the model (locks, foreign keys). */
  type Faults = set<(TenantId, Table)>

  ghost predicate StepFails(schema: Schema, faults: Faults, t: Table, tid: TenantId) {
    !Allowed(t) || (t in schema.existing && (Broken(schema, t) || (tid, t) in faults))
  }

  ghost predicate TenantFails(schema: Schema, faults: Faults, order: seq<Table>, tid: TenantId) {
    exists i :: 0 <= i < |order| && StepFails(schema, faults, order[i], tid)
  }

  /** The tenants behind the last failing one. */
  ghost function Effective(schema: Schema, faults: Faults, order: seq<Table>, tids: seq<TenantId>): seq<TenantId> {
    if tids == [] then []
    else
      var last := tids[|tids| - 1];
      if TenantFails(schema, faults, order, last) then []
      else Effective(schema, faults, order, tids[..|tids| - 1]) + [last]
  }

  class Session {
    const schema: Schema
    const order: seq<Table>
    var committed: Db
    var pending: Db

    constructor (schema: Schema, db: Db)
      requires Fits(schema, db)
      ensures this.schema == schema && order == PURGE_ORDER && committed == pending == db
    {
      this.schema, order, committed, pending := schema, PURGE_ORDER, db, db;
    }

    /** `_purge_single_tenant`; `false` stands for an exception, which leaves a partial purge pending. */
    method PurgeSingleTenant(faults: Faults, tid: TenantId, dryRun: bool) returns (ok: bool)
      requires Fits(schema, pending)
      modifies this`pending
      ensures ok <==> !TenantFails(schema, faults, order, tid)
      ensures ok && dryRun ==> pending == committed
      ensures ok && !dryRun ==> pending == PurgeTenant(schema, old(pending), order, tid)
    {
      for i := 0 to |order|
        invariant Fits(schema, pending)
        invariant forall j | 0 <= j < i :: !StepFails(schema, faults, order[j], tid)
        invariant pending == PurgeTables(schema, old(pending), order[..i], tid)
      {
        var t := order[i];
        assert order[..i + 1][..i] == order[..i];
        if !Allowed(t) { return false; }
        if t in schema.existing {
          if Broken(schema, t) || (tid, t) in faults {
            assert StepFails(schema, faults, order[i], tid);
            return false;
          }
          pending := Delete(schema, pending, t, tid);
        }
      }
      assert order[..|order|] == order;
      if dryRun {
        pending := committed;
      } else {
        pending := pending.(tenants := pending.tenants - {tid});
      }
      return true;
    }

    /** `purge_expired_tenants` over the tenants its query returned. None stands for a failing final commit. */
    method PurgeExpiredTenants(faults: Faults, now: int, dryRun: bool, expired: seq<TenantId>, commitOk: bool)
      returns (purged: Option<nat>)
      requires Fits(schema, committed) && pending == committed
      requires Distinct(expired)
      requires forall t :: t in expired <==>
                 t in committed.tenants && committed.tenants[t].Some? && committed.tenants[t].value <= now
      modifies this
      ensures committed == (if dryRun || (expired != [] && !commitOk) then old(committed)
                            else PurgeAll(schema, old(committed), order, Effective(schema, faults, order, expired)))
      ensures purged == if expired != [] && !commitOk then None else Some(|expired|)
      ensures !dryRun && purged.Some? && GoodOrder(order) ==>
                PurgedRows(schema, faults, old(committed), expired, committed)
    {
      if GoodOrder(order) { CommittedEffect(schema, faults, committed, order, expired); }
      if expired == [] { return Some(0); }
      for i := 0 to |expired|
        invariant committed == old(committed) && Fits(schema, pending)
        invariant dryRun ==> pending == committed
        invariant !dryRun ==> pending == PurgeAll(schema, committed, order, Effective(schema, faults, order, expired[..i]))
      {
        assert expired[..i + 1][..i] == expired[..i];
        ghost var was := pending;
        var ok := PurgeSingleTenant(faults, expired[i], dryRun);
        if !ok {
          pending := committed;
        } else if !dryRun {
          PurgeKeepsTables(schema, was, order, expired[i]);
          var eff := Effective(schema, faults, order, expired[..i]);
          assert (eff + [expired[i]])[..|eff|] == eff;
        }
      }
      assert expired[..|expired|] == expired;
      if !commitOk {
        pending := committed;
        return None;
      }
      committed := pending;
      return Some(|expired|);
    }
  }

  lemma {:induction false} PurgeKeepsTables(schema: Schema, db: Db, order: seq<Table>, tid: TenantId)
    ensures PurgeTables(schema, db, order, tid).tables.Keys == db.tables.Keys
    ensures PurgeTables(schema, db, order, tid).tenants == db.tenants
  {
    if order != [] { PurgeKeepsTables(schema, db, order[..|order| - 1], tid); }
  }

  // ---------------------------------------------------------------------------
  // Which rows go
  // ---------------------------------------------------------------------------

  /** A row of a purged table belongs to `tid`: directly, or through its parent row. */
  ghost predicate Owns(schema: Schema, db: Db, order: seq<Table>, t: Table, r: Row, tid: TenantId) {
    && t in order
    && match ParentOf(t)
       case Some(p) => p in db.tables && r.parent in ParentIds(db.tables[p], tid)
       case None => t in schema.scoped && r.tenant == tid
  }

  ghost predicate NoRepeats(order: seq<Table>) { forall i, j | 0 <= i < j < |order| :: order[i] != order[j] }

  /** Children are purged while their parents are still there. */
  ghost predicate ChildrenFirst(order: seq<Table>) {
    forall i, j | 0 <= i < |order| && 0 <= j < |order| && ParentOf(order[i]) == Some(order[j]) :: i < j
  }

  ghost function Unowned(schema: Schema, db: Db, order: seq<Table>, t: Table, tid: TenantId): set<Row>
    requires t in db.tables
  {
    set r | r in db.tables[t] && !Owns(schema, db, order, t, r, tid)
  }

  /** One more table of the order. */
  lemma StepExact(schema: Schema, db: Db, mid: Db, init: seq<Table>, x: Table, tid: TenantId, t: Table)
    requires x !in init && mid.tables.Keys == db.tables.Keys && t in db.tables
    requires mid.tables[t] == Unowned(schema, db, init, t, tid)
    requires forall p | ParentOf(x) == Some(p) && p in db.tables :: mid.tables[p] == db.tables[p]
    ensures t in DeleteIfThere(schema, mid, x, tid).tables
    ensures DeleteIfThere(schema, mid, x, tid).tables[t] == Unowned(schema, db, init + [x], t, tid)
  {
    if t == x {
      UnownedOutside(schema, db, init, t, tid);
      StepHits(schema, db, mid, init + [x], x, tid);
    } else {
      UnownedLonger(schema, db, init, x, t, tid);
      DeleteElsewhere(schema, mid, x, tid, t);
    }
  }

  lemma UnownedOutside(schema: Schema, db: Db, order: seq<Table>, t: Table, tid: TenantId)
    requires t in db.tables && t !in order
    ensures Unowned(schema, db, order, t, tid) == db.tables[t]
  {
  }

  lemma UnownedLonger(schema: Schema, db: Db, order: seq<Table>, x: Table, t: Table, tid: TenantId)
    requires t in db.tables && t != x
    ensures Unowned(schema, db, order + [x], t, tid) == Unowned(schema, db, order, t, tid)
  {
  }

  lemma DeleteElsewhere(schema: Schema, db: Db, x: Table, tid: TenantId, t: Table)
    requires t in db.tables && t != x
    ensures t in DeleteIfThere(schema, db, x, tid).tables && DeleteIfThere(schema, db, x, tid).tables[t] == db.tables[t]
  {
  }

  lemma StepHits(schema: Schema, db: Db, mid: Db, order: seq<Table>, x: Table, tid: TenantId)
    requires mid.tables.Keys == db.tables.Keys && x in db.tables && x in order && mid.tables[x] == db.tables[x]
    requires forall p | ParentOf(x) == Some(p) && p in db.tables :: mid.tables[p] == db.tables[p]
    ensures x in DeleteIfThere(schema, mid, x, tid).tables
    ensures DeleteIfThere(schema, mid, x, tid).tables[x] == Unowned(schema, db, order, x, tid)
  {
  }

  lemma InitIsGood(init: seq<Table>, x: Table)
    requires NoRepeats(init + [x]) && ChildrenFirst(init + [x])
    ensures NoRepeats(init) && ChildrenFirst(init) && x !in init
    ensures forall p | ParentOf(x) == Some(p) :: p !in init
  {
    var order := init + [x];
    assert order[|init|] == x;
    assert forall i | 0 <= i < |init| :: init[i] == order[i];
  }

  lemma {:induction false} TablesExact(schema: Schema, db: Db, order: seq<Table>, tid: TenantId, t: Table)
    requires NoRepeats(order) && ChildrenFirst(order) && t in db.tables
    ensures t in PurgeTables(schema, db, order, tid).tables
    ensures PurgeTables(schema, db, order, tid).tables[t] == Unowned(schema, db, order, t, tid)
    decreases |order|
  {
    if order != [] {
      var init, x := order[..|order| - 1], order[|order| - 1];
      assert order == init + [x];
      InitIsGood(init, x);
      TablesExact(schema, db, init, tid, t);
      PurgeKeepsTables(schema, db, init, tid);
      var mid := PurgeTables(schema, db, init, tid);
      forall p | ParentOf(x) == Some(p) && p in db.tables ensures mid.tables[p] == db.tables[p] {
        TablesExact(schema, db, init, tid, p);
        UnownedOutside(schema, db, init, p, tid);
      }
      StepExact(schema, db, mid, init, x, tid, t);
    }
  }

  lemma TenantExact(schema: Schema, db: Db, order: seq<Table>, tid: TenantId, t: Table)
    requires NoRepeats(order) && ChildrenFirst(order) && t in db.tables
    ensures t in PurgeTenant(schema, db, order, tid).tables
    ensures PurgeTenant(schema, db, order, tid).tables[t] == set r | r in db.tables[t] && !Owns(schema, db, order, t, r, tid)
    ensures PurgeTenant(schema, db, order, tid).tables.Keys == db.tables.Keys
    ensures PurgeTenant(schema, db, order, tid).tenants == db.tenants - {tid}
  {
    TablesExact(schema, db, order, tid, t);
    PurgeKeepsTables(schema, db, order, tid);
  }

  /** Purging one tenant does not change what any other tenant owns. */
  lemma OthersKeepTheirs(schema: Schema, db: Db, order: seq<Table>, tid: TenantId, t: Table, r: Row, other: TenantId)
    requires NoRepeats(order) && ChildrenFirst(order) && t in db.tables
    requires forall p | ParentOf(t) == Some(p) :: p in order && p in schema.scoped
    ensures Owns(schema, PurgeTenant(schema, db, order, tid), order, t, r, other)
            <==> Owns(schema, db, order, t, r, other) && (ParentOf(t).Some? ==> other != tid)
  {
    var after := PurgeTenant(schema, db, order, tid);
    TenantExact(schema, db, order, tid, t);
    if ParentOf(t).Some? && ParentOf(t).value in db.tables {
      var p := ParentOf(t).value;
      TenantExact(schema, db, order, tid, p);
      forall id ensures id in ParentIds(after.tables[p], other) <==> id in ParentIds(db.tables[p], other) && other != tid {
        if id in ParentIds(db.tables[p], other) && other != tid {
          var q :| q in db.tables[p] && q.tenant == other && q.id == id;
          assert q in after.tables[p];
        }
      }
    }
  }

  ghost predicate Distinct(tids: seq<TenantId>) { forall i, j | 0 <= i < j < |tids| :: tids[i] != tids[j] }

  /** Whatever tenants are purged, what any other tenant owns has not changed. */
  lemma {:induction false} OthersOwnTheSame(schema: Schema, db: Db, order: seq<Table>, tids: seq<TenantId>, t: Table)
    requires NoRepeats(order) && ChildrenFirst(order) && t in db.tables
    requires forall p | ParentOf(t) == Some(p) :: p in order && p in schema.scoped
    ensures PurgeAll(schema, db, order, tids).tables.Keys == db.tables.Keys
    ensures forall r, other | other !in tids ::
              Owns(schema, PurgeAll(schema, db, order, tids), order, t, r, other) <==> Owns(schema, db, order, t, r, other)
  {
    if tids != [] {
      var n := |tids| - 1;
      var init, last := tids[..n], tids[n];
      assert tids == init + [last];
      OthersOwnTheSame(schema, db, order, init, t);
      var mid := PurgeAll(schema, db, order, init);
      TenantExact(schema, mid, order, last, t);
      forall r, other | other !in tids
        ensures Owns(schema, PurgeAll(schema, db, order, tids), order, t, r, other) <==> Owns(schema, db, order, t, r, other)
      {
        OthersKeepTheirs(schema, mid, order, last, t, r, other);
      }
    }
  }

  /** The committed effect, row by row: exactly the rows owned by one of the purged tenants are gone, children
      included. */
  lemma {:induction false} PurgeAllExact(schema: Schema, db: Db, order: seq<Table>, tids: seq<TenantId>, t: Table)
    requires NoRepeats(order) && ChildrenFirst(order) && Distinct(tids) && t in db.tables
    requires forall p | ParentOf(t) == Some(p) :: p in order && p in schema.scoped
    ensures t in PurgeAll(schema, db, order, tids).tables
    ensures PurgeAll(schema, db, order, tids).tables[t]
            == set r | r in db.tables[t] && forall tid | tid in tids :: !Owns(schema, db, order, t, r, tid)
    ensures PurgeAll(schema, db, order, tids).tenants == db.tenants - set tid | tid in tids
  {
    if tids != [] {
      var n := |tids| - 1;
      var init, last := tids[..n], tids[n];
      assert tids == init + [last] && last !in init;
      PurgeAllExact(schema, db, order, init, t);
      OthersOwnTheSame(schema, db, order, init, t);
      TenantExact(schema, PurgeAll(schema, db, order, init), order, last, t);
    }
  }

  function Place(t: Table): nat {
    match t
    case FindingCaptureJobs => 0 case BackgroundTasks => 1 case FindingScreenshots => 2 case ActionFindings => 3
    case SubjectIdentifiers => 4 case SubjectFacts => 5 case ResearchActions => 6 case Investigations => 7
    case CaseNumberCounters => 8 case InvestigationSeqCounters => 9 case InvoiceNumberCounters => 10
    case ServiceRates => 11 case ProrationLogs => 12 case AuditLogs => 13 case PhoneLookups => 14 case LoginLogs => 15
    case NotificationPreferences => 16 case Notifications => 17 case Comments => 18 case CommentEditHistory => 19
    case SocialAccounts => 20 case FinancialRecords => 21 case InvoiceItems => 22 case Payments => 23 case Invoices => 24
    case Screenshots => 25 case SpiderfootScans => 26 case OsintSearches => 27 case ApiKeys => 28 case Reminders => 29
    case Documents => 30 case DocumentTemplates => 31 case Findings => 32 case Addresses => 33 case Contacts => 34
    case TenantSettings => 35 case UsageRecords => 36 case CaseAssignments => 37 case CaseSubjects => 38
    case Subjects => 39 case Clients => 40 case Cases => 41 case Users => 42 case FeatureFlags => 43
    case Elsewhere(_) => 44
  }

  lemma PlacesA()
    ensures |PURGE_ORDER| == 44 && forall i | 0 <= i < 11 :: Place(PURGE_ORDER[i]) == i
  {
  }

  lemma PlacesB()
    ensures |PURGE_ORDER| == 44 && forall i | 11 <= i < 22 :: Place(PURGE_ORDER[i]) == i
  {
  }

  lemma PlacesC()
    ensures |PURGE_ORDER| == 44 && forall i | 22 <= i < 33 :: Place(PURGE_ORDER[i]) == i
  {
  }

  lemma PlacesD()
    ensures |PURGE_ORDER| == 44 && forall i | 33 <= i < 44 :: Place(PURGE_ORDER[i]) == i
  {
  }

  /** Any order in which each table has its own place, and children come before parents, is a good one. */
  lemma PlacedOrderIsGood(order: seq<Table>)
    requires |order| == 44 && forall i | 0 <= i < 44 :: Place(order[i]) == i
    ensures NoRepeats(order) && ChildrenFirst(order)
    ensures forall t :: t in order <==> Allowed(t)
  {
    forall t | Allowed(t) ensures t in order {
      SamePlace(t, order[Place(t)]);
    }
  }

  lemma SameEarlyPlace(t: Table, u: Table)
    requires Place(t) == Place(u) < 22
    ensures t == u
  {
  }

  lemma SameLatePlace(t: Table, u: Table)
    requires 22 <= Place(t) == Place(u) < 44
    ensures t == u
  {
  }

  lemma SamePlace(t: Table, u: Table)
    requires Place(t) == Place(u) < 44
    ensures t == u
  {
    if Place(t) < 22 { SameEarlyPlace(t, u); } else { SameLatePlace(t, u); }
  }

  /** Every table of the list once, children before their parents, and no other table. */
  ghost predicate GoodOrder(order: seq<Table>) {
    NoRepeats(order) && ChildrenFirst(order) && forall t :: t in order <==> !t.Elsewhere?
  }

  lemma OrderIsGood()
    ensures GoodOrder(PURGE_ORDER)
  {
    PlacesA();
    PlacesB();
    PlacesC();
    PlacesD();
    PlacedOrderIsGood(PURGE_ORDER);
  }

  // ---------------------------------------------------------------------------
  // The committed effect
  // ---------------------------------------------------------------------------

  /** Because of the shared rollback, only the tenants behind the last failing one are purged. */
  lemma {:induction false} EffectiveIsTheTail(schema: Schema, faults: Faults, order: seq<Table>, tids: seq<TenantId>) returns (k: nat)
    ensures k <= |tids| && Effective(schema, faults, order, tids) == tids[k..]
    ensures forall i | k <= i < |tids| :: !TenantFails(schema, faults, order, tids[i])
    ensures k > 0 ==> TenantFails(schema, faults, order, tids[k - 1])
  {
    if tids == [] {
      k := 0;
    } else if TenantFails(schema, faults, order, tids[|tids| - 1]) {
      k := |tids|;
    } else {
      var init := tids[..|tids| - 1];
      k := EffectiveIsTheTail(schema, faults, order, init);
      assert tids[k..] == init[k..] + [tids[|tids| - 1]];
    }
  }

  /** A table deleted without failure has its parent in the list, and the parent has a tenant column. */
  lemma ParentsAreScoped(schema: Schema, db: Db, faults: Faults, order: seq<Table>, tid: TenantId, t: Table)
    requires Fits(schema, db) && t in db.tables && !TenantFails(schema, faults, order, tid)
    requires forall u :: u in order <==> Allowed(u)
    ensures forall p | ParentOf(t) == Some(p) :: p in order && p in schema.scoped
  {
    forall p | ParentOf(t) == Some(p) ensures p in order && p in schema.scoped {
      assert t in order && Allowed(p);
      var i :| 0 <= i < |order| && order[i] == t;
      assert !StepFails(schema, faults, order[i], tid);
    }
  }

  lemma EffectInOrder(schema: Schema, faults: Faults, db: Db, order: seq<Table>, expired: seq<TenantId>, t: Table)
    requires Fits(schema, db) && t in db.tables && Distinct(expired) && GoodOrder(order)
    ensures var gone := Effective(schema, faults, order, expired);
            var after := PurgeAll(schema, db, order, gone);
            && t in after.tables
            && after.tables[t] == (set r | r in db.tables[t] && forall tid | tid in gone :: !Owns(schema, db, order, t, r, tid))
            && after.tenants == db.tenants - set tid | tid in gone
  {
    var gone := Effective(schema, faults, order, expired);
    var k := EffectiveIsTheTail(schema, faults, order, expired);
    if gone != [] {
      assert gone[0] == expired[k];
      ParentsAreScoped(schema, db, faults, order, gone[0], t);
      TailIsDistinct(expired, k);
      PurgeAllExact(schema, db, order, gone, t);
    }
  }

  lemma TailIsDistinct(expired: seq<TenantId>, k: nat)
    requires Distinct(expired) && k <= |expired|
    ensures Distinct(expired[k..])
  {
  }

  /** The tables whose rows carry no tenant of their own, and the tables their `action_id` and `user_id` lead to. */
  datatype Path = Path(child: Table, parent: Table)
  const PATHS := {Path(ActionFindings, ResearchActions), Path(NotificationPreferences, Users)}

  /** A purge of this tenant cannot go through: some existing table of the list refuses its statement, or the table a
      child table leads to is missing or has no tenant column. */
  ghost predicate Trouble(schema: Schema, faults: Faults, tid: TenantId) {
    || (exists t: Table :: !t.Elsewhere? && t in schema.existing && (tid, t) in faults)
    || (exists p :: p in PATHS && p.child in schema.existing && !(p.parent in schema.existing && p.parent in schema.scoped))
  }

  lemma TroubleFails(schema: Schema, faults: Faults, order: seq<Table>, tid: TenantId)
    requires GoodOrder(order)
    ensures Trouble(schema, faults, tid) <==> TenantFails(schema, faults, order, tid)
  {
    if t: Table :| !t.Elsewhere? && t in schema.existing && (tid, t) in faults {
      var i :| 0 <= i < |order| && order[i] == t;
      assert StepFails(schema, faults, order[i], tid);
    }
    if p :| p in PATHS && p.child in schema.existing && !(p.parent in schema.existing && p.parent in schema.scoped) {
      assert Allowed(p.child);
      var i :| 0 <= i < |order| && order[i] == p.child;
      assert StepFails(schema, faults, order[i], tid);
    }
    if TenantFails(schema, faults, order, tid) {
      var i :| 0 <= i < |order| && StepFails(schema, faults, order[i], tid);
      var t := order[i];
      assert Allowed(t);
      if Broken(schema, t) {
        assert Path(t, ParentOf(t).value) in PATHS;
      }
    }
  }

  /** Purged are the expired tenants with no trouble from them to the end of the list. */
  ghost predicate Purged(schema: Schema, faults: Faults, expired: seq<TenantId>, tid: TenantId) {
    exists k :: 0 <= k < |expired| && expired[k] == tid && forall i | k <= i < |expired| :: !Trouble(schema, faults, expired[i])
  }

  lemma PurgedAreEffective(schema: Schema, faults: Faults, order: seq<Table>, expired: seq<TenantId>, tid: TenantId)
    requires GoodOrder(order)
    ensures Purged(schema, faults, expired, tid) <==> tid in Effective(schema, faults, order, expired)
  {
    var gone := Effective(schema, faults, order, expired);
    var k := EffectiveIsTheTail(schema, faults, order, expired);
    forall i | 0 <= i < |expired|
      ensures Trouble(schema, faults, expired[i]) <==> TenantFails(schema, faults, order, expired[i])
    {
      TroubleFails(schema, faults, order, expired[i]);
    }
    if tid in gone {
      var j :| 0 <= j < |gone| && gone[j] == tid;
      assert expired[k + j] == tid;
    }
    if Purged(schema, faults, expired, tid) {
      var j :| 0 <= j < |expired| && expired[j] == tid && forall i | j <= i < |expired| :: !Trouble(schema, faults, expired[i]);
      assert j >= k;
      assert gone[j - k] == tid;
    }
  }

  ghost function Gone(schema: Schema, faults: Faults, expired: seq<TenantId>): set<TenantId> {
    set tid | tid in expired && Purged(schema, faults, expired, tid)
  }

  /** The row is left by a purge of these tenants: findings and preferences go with the row they lead to, rows with a
      tenant of their own go with that tenant, all other rows stay. */
  ghost predicate Stays(schema: Schema, before: Db, gone: set<TenantId>, t: Table, r: Row) {
    if t == ActionFindings then !LeadsTo(before, ResearchActions, gone, r)
    else if t == NotificationPreferences then !LeadsTo(before, Users, gone, r)
    else t.Elsewhere? || t !in schema.scoped || r.tenant !in gone
  }

  ghost predicate LeadsTo(before: Db, parent: Table, gone: set<TenantId>, r: Row) {
    parent in before.tables && exists a :: a in before.tables[parent] && a.id == r.parent && a.tenant in gone
  }

  /** `after` is what the committed purge makes of `before`, row by row. */
  ghost predicate PurgedRows(schema: Schema, faults: Faults, before: Db, expired: seq<TenantId>, after: Db) {
    var gone := Gone(schema, faults, expired);
    && after.tables.Keys == before.tables.Keys
    && (forall t, r | t in before.tables :: r in after.tables[t] <==> r in before.tables[t] && Stays(schema, before, gone, t, r))
    && (forall tid :: tid in after.tenants <==> tid in before.tenants && tid !in gone)
    && (forall tid | tid in after.tenants :: after.tenants[tid] == before.tenants[tid])
  }

  /** What is owned by one of several tenants, said without ownership. */
  lemma OwnedMeansLeading(schema: Schema, db: Db, order: seq<Table>, gone: seq<TenantId>, t: Table, r: Row)
    requires GoodOrder(order)
    ensures Stays(schema, db, (set tid | tid in gone), t, r) <==> forall tid | tid in gone :: !Owns(schema, db, order, t, r, tid)
  {
    if ParentOf(t).Some? && ParentOf(t).value in db.tables {
      var p := ParentOf(t).value;
      if LeadsTo(db, p, (set tid | tid in gone), r) {
        var a :| a in db.tables[p] && a.id == r.parent && a.tenant in gone;
        assert Owns(schema, db, order, t, r, a.tenant);
      }
    }
  }

  /** A run that is no dry run and can commit leaves exactly these rows: no finding or preference of a purged tenant is
      left behind, and no row that only other tenants own has gone. */
  lemma CommittedEffect(schema: Schema, faults: Faults, db: Db, order: seq<Table>, expired: seq<TenantId>)
    requires Fits(schema, db) && Distinct(expired) && GoodOrder(order)
    ensures PurgedRows(schema, faults, db, expired, PurgeAll(schema, db, order, Effective(schema, faults, order, expired)))
  {
    var gone := Effective(schema, faults, order, expired);
    var after := PurgeAll(schema, db, order, gone);
    forall tid ensures tid in Gone(schema, faults, expired) <==> tid in gone {
      PurgedAreEffective(schema, faults, order, expired, tid);
    }
    assert Gone(schema, faults, expired) == set tid | tid in gone;
    AllTablesStay(schema, db, order, gone);
    forall t, r | t in db.tables
      ensures r in after.tables[t] <==> r in db.tables[t] && Stays(schema, db, (set tid | tid in gone), t, r)
    {
      EffectInOrder(schema, faults, db, order, expired, t);
      OwnedMeansLeading(schema, db, order, gone, t, r);
    }
  }

  lemma {:induction false} AllTablesStay(schema: Schema, db: Db, order: seq<Table>, tids: seq<TenantId>)
    ensures PurgeAll(schema, db, order, tids).tables.Keys == db.tables.Keys
    ensures PurgeAll(schema, db, order, tids).tenants == db.tenants - set tid | tid in tids
  {
    if tids != [] {
      var n := |tids| - 1;
      AllTablesStay(schema, db, order, tids[..n]);
      PurgeKeepsTables(schema, PurgeAll(schema, db, order, tids[..n]), order, tids[n]);
      assert tids == tids[..n] + [tids[n]];
    }
  }

  lemma {:induction false} ScopedRowsGo(schema: Schema, db: Db, order: seq<Table>, tid: TenantId, p: Table)
    requires p in order && p in schema.scoped && p in db.tables && ParentOf(p).None?
    ensures p in PurgeTables(schema, db, order, tid).tables
    ensures forall r | r in PurgeTables(schema, db, order, tid).tables[p] :: r.tenant != tid
  {
    var init, x := order[..|order| - 1], order[|order| - 1];
    assert order == init + [x];
    PurgeKeepsTables(schema, db, init, tid);
    if p in init { ScopedRowsGo(schema, db, init, tid, p); }
  }

  /** Were a parent table purged before its child table, every row of the child table would stay. */
  lemma ParentsFirstLeaveChildren(schema: Schema, db: Db, init: seq<Table>, child: Table, tid: TenantId)
    requires child !in init && child in db.tables && ParentOf(child).Some?
    requires ParentOf(child).value in init && ParentOf(child).value in schema.scoped && ParentOf(child).value in db.tables
    ensures child in PurgeTables(schema, db, init + [child], tid).tables
    ensures PurgeTables(schema, db, init + [child], tid).tables[child] == db.tables[child]
  {
    var p := ParentOf(child).value;
    ScopedRowsGo(schema, db, init, tid, p);
    Untouched(schema, db, init, tid, child);
    assert (init + [child])[..|init|] == init;
    assert ParentIds(PurgeTables(schema, db, init, tid).tables[p], tid) == {};
  }

  lemma {:induction false} Untouched(schema: Schema, db: Db, order: seq<Table>, tid: TenantId, t: Table)
    requires t !in order && t in db.tables
    ensures t in PurgeTables(schema, db, order, tid).tables && PurgeTables(schema, db, order, tid).tables[t] == db.tables[t]
  {
    if order != [] {
      var init, x := order[..|order| - 1], order[|order| - 1];
      assert order == init + [x];
      Untouched(schema, db, init, tid, t);
      DeleteElsewhere(schema, PurgeTables(schema, db, init, tid), x, tid, t);
    }
  }
}
