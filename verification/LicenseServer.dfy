/** The licence and telemetry server (license-server/app.py:193-422, 569-806): installs, licences and
    retention. Times are seconds; a signature is ideal and remembers the claims it was made over. */
module LicenseServer {
  import opened Wrappers
  import opened Sublists

  type Id = string
  const DAY := 86_400

  /** `expires_at` as SQLite sees it: NULL, a time, or text `datetime()` cannot read. */
  datatype Expiry = Never | At(time: int) | Malformed(text: string)
  datatype Plan = Trial | Full
  datatype Status = Active | Revoked

  datatype Claims = Claims(installId: Id, licenseId: string, plan: Plan, issuedAt: int, expires: Expiry)
  datatype Signature = Signature(over: Claims)

  datatype License = License(licenseId: string, installId: Id, plan: Plan, payload: Claims, signature: Signature,
                             status: Status, createdAt: int, expires: Expiry)

  /** A privacy-sensitive column with its own time stamp. */
  datatype Stamped = Stamped(value: Option<string>, at: Option<int>)

  datatype Install = Install(token: string, info: map<string, string>, registeredAt: int, lastSeen: Option<int>,
                             inactiveSince: Option<int>, ipIntel: Stamped, lastHttp: Stamped, ipCheck: Stamped)

  datatype AuditRow = AuditRow(actor: string, action: string, resource: string, createdAt: int)

  datatype Db = Db(installs: map<Id, Install>, licenses: seq<License>, ipCache: map<string, int>, audit: seq<AuditRow>)

  datatype Settings = Settings(ipIntelDays: nat, httpDays: nat, ipCheckDays: nat, cacheDays: nat, auditDays: nat,
                               inactiveDays: nat, retentionDays: nat, trialDays: nat)

  // ---------------------------------------------------------------------------
  // Retention
  // ---------------------------------------------------------------------------

  function Coalesce(a: Option<int>, b: Option<int>): Option<int> { if a.Some? then a else b }

  /** SQL `<`: a NULL on the left is never older. */
  predicate OlderThan(t: Option<int>, cutoff: int) { t.Some? && t.value < cutoff }

  function Forget(s: Stamped, lastSeen: Option<int>, cutoff: int): Stamped {
    if s.value.Some? && OlderThan(Coalesce(s.at, lastSeen), cutoff) then Stamped(None, None) else s
  }

  function Marked(i: Install, cutoff: int): Install {
    if i.inactiveSince.None? && OlderThan(i.lastSeen, cutoff) then i.(inactiveSince := i.lastSeen) else i
  }

  predicate Current(e: Expiry, now: int) { e.Never? || (e.At? && e.time >= now) }

  /** An active, unexpired licence row keeps its install. */
  predicate Licensed(licenses: seq<License>, id: Id, now: int) {
    exists k :: 0 <= k < |licenses| && licenses[k].installId == id && licenses[k].status == Active && Current(licenses[k].expires, now)
  }

  function KeepAudit(rows: seq<AuditRow>, cutoff: int): seq<AuditRow> {
    if rows == [] then []
    else (if rows[0].createdAt < cutoff then [] else [rows[0]]) + KeepAudit(rows[1..], cutoff)
  }

  function Cleared(s: Settings, now: int, i: Install): Install {
    i.(ipIntel := Forget(i.ipIntel, i.lastSeen, now - s.ipIntelDays * DAY),
       lastHttp := Forget(i.lastHttp, i.lastSeen, now - s.httpDays * DAY),
       ipCheck := Forget(i.ipCheck, i.lastSeen, now - s.ipCheckDays * DAY))
  }

  /** One row after the three clearing updates and the inactivity mark. */
  function Tidied(s: Settings, now: int, i: Install): Install {
    Marked(Cleared(s, now, i), now - s.inactiveDays * DAY)
  }

  predicate Doomed(s: Settings, now: int, licenses: seq<License>, id: Id, tidied: Install) {
    OlderThan(tidied.inactiveSince, now - s.retentionDays * DAY) && !Licensed(licenses, id, now)
  }

  function Retained(s: Settings, now: int, licenses: seq<License>, installs: map<Id, Install>): map<Id, Install> {
    map id | id in installs && !Doomed(s, now, licenses, id, Tidied(s, now, installs[id])) :: Tidied(s, now, installs[id])
  }

  /** Address lookups that are not older than the cutoff. */
  function FreshLookups(ipCache: map<string, int>, cutoff: int): map<string, int> {
    map ip | ip in ipCache && !(ipCache[ip] < cutoff) :: ipCache[ip]
  }

  function Purged(s: Settings, now: int, db: Db): Db {
    db.(installs := Retained(s, now, db.licenses, db.installs),
        ipCache := FreshLookups(db.ipCache, now - s.cacheDays * DAY),
        audit := KeepAudit(db.audit, now - s.auditDays * DAY))
  }

  lemma {:induction false} KeepAuditTwice(rows: seq<AuditRow>, c1: int, c2: int)
    requires c1 <= c2
    ensures KeepAudit(KeepAudit(rows, c1), c2) == KeepAudit(rows, c2)
  {
    if rows != [] {
      KeepAuditTwice(rows[1..], c1, c2);
      if rows[0].createdAt >= c1 {
        assert ([rows[0]] + KeepAudit(rows[1..], c1))[1..] == KeepAudit(rows[1..], c1);
      } else {
        assert KeepAudit(rows, c1) == KeepAudit(rows[1..], c1);
      }
    }
  }

  lemma TidiedTwice(s: Settings, t1: int, t2: int, i: Install)
    requires t1 <= t2
    ensures Tidied(s, t2, Tidied(s, t1, i)) == Tidied(s, t2, i)
  {
  }

  lemma DoomedLater(s: Settings, t1: int, t2: int, licenses: seq<License>, id: Id, i: Install)
    requires t1 <= t2 && Doomed(s, t1, licenses, id, Tidied(s, t1, i))
    ensures Doomed(s, t2, licenses, id, Tidied(s, t2, i))
  {
  }

  lemma InstallsCompose(s: Settings, t1: int, t2: int, db: Db)
    requires t1 <= t2
    ensures Purged(s, t2, Purged(s, t1, db)).installs == Purged(s, t2, db).installs
  {
    var once := Purged(s, t1, db);
    var a, b := Purged(s, t2, once).installs, Purged(s, t2, db).installs;
    forall id ensures (id in a <==> id in b) && (id in a && id in b ==> a[id] == b[id]) {
      if id in db.installs {
        TidiedTwice(s, t1, t2, db.installs[id]);
        if Doomed(s, t1, db.licenses, id, Tidied(s, t1, db.installs[id])) {
          DoomedLater(s, t1, t2, db.licenses, id, db.installs[id]);
        }
      }
    }
    assert a.Keys == b.Keys;
  }

  /** Purging early and again later leaves what one later purge would have left. */
  lemma PurgesCompose(s: Settings, t1: int, t2: int, db: Db)
    requires t1 <= t2
    ensures Purged(s, t2, Purged(s, t1, db)) == Purged(s, t2, db)
  {
    KeepAuditTwice(db.audit, t1 - s.auditDays * DAY, t2 - s.auditDays * DAY);
    InstallsCompose(s, t1, t2, db);
    var a, b := Purged(s, t2, Purged(s, t1, db)).ipCache, Purged(s, t2, db).ipCache;
    assert a.Keys == b.Keys;
    assert a == b;
  }

  // ---------------------------------------------------------------------------
  // Requests
  // ---------------------------------------------------------------------------

  /** What a register or heartbeat request brings along; the IP lookup is outside the model. */
  datatype Contact = Contact(info: map<string, string>, ip: string, intel: string, intelAt: Option<int>,
                             http: Option<string>, check: string, cacheWrite: bool)

  function Seen(i: Install, c: Contact, now: int): Install {
    i.(info := i.info + c.info, lastSeen := Some(now), inactiveSince := None,
       ipIntel := Stamped(Some(c.intel), Some(c.intelAt.GetOr(now))),
       lastHttp := Stamped(c.http, Some(now)), ipCheck := Stamped(Some(c.check), Some(now)))
  }

  function Blank(token: string, now: int): Install {
    Install(token, map[], now, None, None, Stamped(None, None), Stamped(None, None), Stamped(None, None))
  }

  function CacheAfter(cache: map<string, int>, c: Contact, now: int): map<string, int> {
    if c.cacheWrite then cache[c.ip := now] else cache
  }

  /** The last second of the year 9999, in seconds since 1970. */
  const LAST_SECOND := 253_402_300_799

  /** What a licence claims when no expiry is given. */
  function Claimed(expires: Expiry): Expiry { if expires.Never? then At(LAST_SECOND) else expires }

  function Build(id: Id, licenseId: string, plan: Plan, expires: Expiry, now: int): License {
    var claims := Claims(id, licenseId, plan, now, Claimed(expires));
    License(licenseId, id, plan, claims, Signature(claims), Active, now, Claimed(expires))
  }

  predicate HasLicense(licenses: seq<License>, id: Id) { exists k :: 0 <= k < |licenses| && licenses[k].installId == id }

  predicate Revocable(licenses: seq<License>, id: Id) {
    exists k :: 0 <= k < |licenses| && licenses[k].installId == id && licenses[k].status != Revoked
  }

  function Without(licenses: seq<License>, id: Id): seq<License> {
    if licenses == [] then []
    else (if licenses[0].installId == id then [] else [licenses[0]]) + Without(licenses[1..], id)
  }

  function Revoke(licenses: seq<License>, id: Id): seq<License> {
    seq(|licenses|, k requires 0 <= k < |licenses| =>
      if licenses[k].installId == id then licenses[k].(status := Revoked) else licenses[k])
  }

  ghost predicate OthersAre(rows: seq<License>, id: Id, at: seq<nat>) {
    forall m: nat | m < |rows| :: m in at <==> rows[m].installId != id
  }

  /** `kept` is the rows of other installs, all of them, unchanged and in their order. */
  ghost predicate OthersStay(rows: seq<License>, kept: seq<License>, id: Id) {
    exists at :: Picks(rows, kept, at) && OthersAre(rows, id, at)
  }

  lemma {:induction false} OthersAt(rows: seq<License>, id: Id) returns (at: seq<nat>)
    ensures Picks(rows, Without(rows, id), at) && OthersAre(rows, id, at)
  {
    if rows == [] {
      at := [];
    } else {
      var tail := OthersAt(rows[1..], id);
      PicksOnward(rows, Without(rows[1..], id), tail);
      OthersOnward(rows, id, tail);
      if rows[0].installId == id {
        assert Without(rows, id) == Without(rows[1..], id);
        at := Onward(tail);
      } else {
        at := [0] + Onward(tail);
      }
    }
  }

  lemma OthersOnward(rows: seq<License>, id: Id, tail: seq<nat>)
    requires rows != [] && OthersAre(rows[1..], id, tail)
    ensures OthersAre(rows, id, if rows[0].installId == id then Onward(tail) else [0] + Onward(tail))
  {
    forall m: nat | m < |rows| ensures m in Onward(tail) <==> m > 0 && rows[m].installId != id {
      OnwardHas(tail, m);
      assert m > 0 ==> rows[1..][m - 1] == rows[m];
    }
  }

  lemma RemovalKeepsOthers(rows: seq<License>, id: Id)
    ensures OthersStay(rows, Without(rows, id), id)
    ensures !HasLicense(Without(rows, id), id)
    ensures Without(rows, id) == rows <==> !HasLicense(rows, id)
  {
    var at := OthersAt(rows, id);
    var kept := Without(rows, id);
    if !HasLicense(rows, id) { NothingToRemove(rows, id); }
  }

  ghost predicate OthersKept(before: map<Id, Install>, after: map<Id, Install>, id: Id) {
    forall other | other != id ::
      && (other in after <==> other in before)
      && (other in after ==> after[other] == before[other])
  }

  lemma RemovalKeepsOtherInstalls(installs: map<Id, Install>, id: Id)
    ensures id !in installs - {id} && OthersKept(installs, installs - {id}, id)
    ensures installs - {id} == installs <==> id !in installs
  {
  }

  lemma {:induction false} NothingToRemove(rows: seq<License>, id: Id)
    requires !HasLicense(rows, id)
    ensures Without(rows, id) == rows
  {
    if rows != [] { NothingToRemove(rows[1..], id); }
  }

  /** The row is an active licence of the install and says what its signature covers. */
  ghost predicate Grants(l: License, id: Id, plan: Plan, expires: Expiry) {
    l.installId == id && l.plan == plan && l.expires == expires && l.status == Active && Genuine(l)
  }

  /** Every row of the install is revoked. */
  ghost predicate AllRevoked(licenses: seq<License>, id: Id) {
    forall k | 0 <= k < |licenses| && licenses[k].installId == id :: licenses[k].status == Revoked
  }

  /** A new install gets a trial unless a licence row for its id already exists or no key can sign. */
  function WithTrial(s: Settings, licenses: seq<License>, id: Id, now: int, key: bool, licenseId: string): seq<License> {
    if HasLicense(licenses, id) || !key then licenses
    else licenses + [Build(id, licenseId, Trial, At(now + s.trialDays * DAY), now)]
  }

  datatype Event =
    | Register(id: Id, token: string, contact: Contact, key: bool, licenseId: string)
    | Telemetry(id: Id, token: string, contact: Contact)
    | IssueLicense(id: Id, plan: Plan, expires: Expiry, key: bool, licenseId: string)
    | RevokeLicense(id: Id)
    | DeleteInstall(id: Id)
    | Audit(row: AuditRow)
    | Purge

  function Issued(now: int, db: Db, id: Id, plan: Plan, expires: Expiry, licenseId: string): Db {
    db.(licenses := Without(db.licenses, id) + [Build(id, licenseId, plan, expires, now)])
  }

  function Deleted(db: Db, id: Id): Db {
    db.(licenses := Without(db.licenses, id), installs := db.installs - {id})
  }

  function Apply(s: Settings, now: int, db: Db, e: Event): Db {
    match e
    case Register(id, token, c, key, licenseId) =>
      if id !in db.installs then
        db.(installs := db.installs[id := Seen(Blank(token, now), c, now)], ipCache := CacheAfter(db.ipCache, c, now),
            licenses := WithTrial(s, db.licenses, id, now, key, licenseId))
      else if db.installs[id].token != token then db
      else db.(installs := db.installs[id := Seen(db.installs[id], c, now)], ipCache := CacheAfter(db.ipCache, c, now))
    case Telemetry(id, token, c) =>
      if id !in db.installs || db.installs[id].token != token then db
      else db.(installs := db.installs[id := Seen(db.installs[id], c, now)], ipCache := CacheAfter(db.ipCache, c, now))
    case IssueLicense(id, plan, expires, key, licenseId) =>
      if id in db.installs && key then Issued(now, db, id, plan, expires, licenseId) else db
    case RevokeLicense(id) => db.(licenses := Revoke(db.licenses, id))
    case DeleteInstall(id) => Deleted(db, id)
    case Audit(row) => db.(audit := db.audit + [row])
    case Purge => Purged(s, now, db)
  }

  /** Nothing of the install is left in `b`; everything of others is as in `a`. */
  ghost predicate Erased(a: Db, b: Db, id: Id) {
    && id !in b.installs && OthersKept(a.installs, b.installs, id)
    && !HasLicense(b.licenses, id) && OthersStay(a.licenses, b.licenses, id)
    && b.ipCache == a.ipCache && b.audit == a.audit
  }

  lemma DeletionErases(db: Db, id: Id)
    ensures Erased(db, Deleted(db, id), id)
    ensures Deleted(db, id) == db <==> id !in db.installs && !HasLicense(db.licenses, id)
  {
    var installs, licenses := db.installs - {id}, Without(db.licenses, id);
    RemovalKeepsOtherInstalls(db.installs, id);
    RemovalKeepsOthers(db.licenses, id);
    ErasedRows(db, installs, licenses, id);
  }

  lemma ErasedRows(db: Db, installs: map<Id, Install>, licenses: seq<License>, id: Id)
    requires id !in installs && OthersKept(db.installs, installs, id) && (installs == db.installs <==> id !in db.installs)
    requires !HasLicense(licenses, id) && OthersStay(db.licenses, licenses, id)
    requires licenses == db.licenses <==> !HasLicense(db.licenses, id)
    ensures Erased(db, db.(installs := installs, licenses := licenses), id)
    ensures db.(installs := installs, licenses := licenses) == db <==> id !in db.installs && !HasLicense(db.licenses, id)
  {
  }

  /** `b` is `a` with one new genuine row for the install in place of whatever rows it had. */
  ghost predicate Granted(a: seq<License>, b: seq<License>, id: Id, plan: Plan, expires: Expiry) {
    && b != [] && Grants(b[|b| - 1], id, plan, expires)
    && !HasLicense(b[..|b| - 1], id) && OthersStay(a, b[..|b| - 1], id)
  }

  lemma IssuingGrants(licenses: seq<License>, id: Id, licenseId: string, plan: Plan, expires: Expiry, now: int)
    ensures var after := Without(licenses, id) + [Build(id, licenseId, plan, expires, now)];
            Granted(licenses, after, id, plan, Claimed(expires)) && LicensedUntil(after, id, Claimed(expires))
  {
    RemovalKeepsOthers(licenses, id);
    NewRowGrants(licenses, Without(licenses, id), id, licenseId, plan, expires, now);
  }

  lemma NewRowGrants(licenses: seq<License>, rest: seq<License>, id: Id, licenseId: string, plan: Plan, expires: Expiry, now: int)
    requires !HasLicense(rest, id) && OthersStay(licenses, rest, id)
    ensures var after := rest + [Build(id, licenseId, plan, expires, now)];
            Granted(licenses, after, id, plan, Claimed(expires)) && LicensedUntil(after, id, Claimed(expires))
  {
    var after := rest + [Build(id, licenseId, plan, expires, now)];
    assert after[..|after| - 1] == rest;
    LastRowDecides(after, id);
  }

  /** The install is licensed exactly as long as that expiry is current. */
  ghost predicate LicensedUntil(licenses: seq<License>, id: Id, expires: Expiry) {
    forall t :: Licensed(licenses, id, t) <==> Current(expires, t)
  }

  /** With no other row of the install, its last row decides when it is licensed. */
  lemma LastRowDecides(licenses: seq<License>, id: Id)
    requires licenses != [] && licenses[|licenses| - 1].installId == id && licenses[|licenses| - 1].status == Active
    requires !HasLicense(licenses[..|licenses| - 1], id)
    ensures LicensedUntil(licenses, id, licenses[|licenses| - 1].expires)
  {
    forall k | 0 <= k < |licenses| - 1 ensures licenses[k].installId != id {
      assert licenses[..|licenses| - 1][k] == licenses[k];
    }
    forall t ensures Licensed(licenses, id, t) <==> Current(licenses[|licenses| - 1].expires, t) {
      if Licensed(licenses, id, t) {
        var k :| 0 <= k < |licenses| && licenses[k].installId == id && Current(licenses[k].expires, t);
        assert k == |licenses| - 1;
      }
    }
  }

  datatype Response = Accepted(registered: bool) | BadToken | NotRegistered | NoKey

  /** What a contact leaves in the row: each stamped column from its own part of the contact, the contact's information
      over the old, no inactivity mark. Token and time of registration are as before. */
  ghost predicate Refreshed(before: Install, after: Install, c: Contact, now: int) {
    && after.token == before.token && after.registeredAt == before.registeredAt
    && after.lastSeen == Some(now) && after.inactiveSince == None
    && after.ipIntel == Stamped(Some(c.intel), Some(if c.intelAt.Some? then c.intelAt.value else now))
    && after.lastHttp == Stamped(c.http, Some(now)) && after.ipCheck == Stamped(Some(c.check), Some(now))
    && after.info.Keys == before.info.Keys + c.info.Keys
    && forall k | k in after.info :: after.info[k] == if k in c.info then c.info[k] else before.info[k]
  }

  /** The effect of an accepted contact of a known install: its row refreshed, its address looked up now if the contact
      says so, nothing else. */
  ghost predicate Contacted(a: Db, b: Db, id: Id, c: Contact, now: int) {
    && id in a.installs && id in b.installs && Refreshed(a.installs[id], b.installs[id], c, now)
    && OthersKept(a.installs, b.installs, id) && LookedUp(a.ipCache, b.ipCache, c, now)
    && b.licenses == a.licenses && b.audit == a.audit
  }

  ghost predicate LookedUp(a: map<string, int>, b: map<string, int>, c: Contact, now: int) {
    if c.cacheWrite then
      && c.ip in b && b[c.ip] == now
      && forall ip | ip != c.ip :: (ip in b <==> ip in a) && (ip in b ==> b[ip] == a[ip])
    else b == a
  }

  /** The effect of a first registration: a row with this token that knows only this contact, and a trial for an install
      that has no licence row. */
  ghost predicate Registered(s: Settings, a: Db, b: Db, id: Id, token: string, c: Contact, key: bool, now: int) {
    && id in b.installs && b.installs[id].token == token && b.installs[id].registeredAt == now
    && b.installs[id].info == c.info && Refreshed(b.installs[id], b.installs[id], c, now)
    && OthersKept(a.installs, b.installs, id) && LookedUp(a.ipCache, b.ipCache, c, now) && b.audit == a.audit
    && if HasLicense(a.licenses, id) || !key then b.licenses == a.licenses
       else FirstTrial(a.licenses, b.licenses, id, At(now + s.trialDays * DAY))
  }

  ghost predicate FirstTrial(a: seq<License>, b: seq<License>, id: Id, expires: Expiry) {
    b != [] && b[..|b| - 1] == a && Grants(b[|b| - 1], id, Trial, expires) && LicensedUntil(b, id, expires)
  }

  lemma SeenRefreshes(db: Db, id: Id, c: Contact, now: int)
    requires id in db.installs
    ensures Contacted(db, db.(installs := db.installs[id := Seen(db.installs[id], c, now)],
                              ipCache := CacheAfter(db.ipCache, c, now)), id, c, now)
  {
    assert Refreshed(db.installs[id], Seen(db.installs[id], c, now), c, now);
  }

  function ClearedAll(s: Settings, now: int, m: map<Id, Install>): map<Id, Install> {
    map id | id in m :: Cleared(s, now, m[id])
  }

  function MarkedAll(m: map<Id, Install>, cutoff: int): map<Id, Install> { map id | id in m :: Marked(m[id], cutoff) }

  function Survivors(s: Settings, now: int, licenses: seq<License>, m: map<Id, Install>): map<Id, Install> {
    map id | id in m && !Doomed(s, now, licenses, id, m[id]) :: m[id]
  }

  /** Installs that a purge newly marks inactive. */
  function Idle(installs: map<Id, Install>, cutoff: int): set<Id> {
    set id | id in installs && installs[id].inactiveSince.None? && OlderThan(installs[id].lastSeen, cutoff)
  }

  /** The same rows; a mark is there exactly if it was or the last contact is before the cutoff; a new mark is the
      time of the last contact; no other column has moved. */
  ghost predicate IdleMarked(before: map<Id, Install>, after: map<Id, Install>, cutoff: int) {
    after.Keys == before.Keys && forall id | id in before :: RowMarked(before[id], after[id], cutoff)
  }

  ghost predicate RowMarked(before: Install, after: Install, cutoff: int) {
    && (after.inactiveSince.Some? <==> before.inactiveSince.Some? || OlderThan(before.lastSeen, cutoff))
    && after.inactiveSince in {before.inactiveSince, before.lastSeen}
    && after.(inactiveSince := before.inactiveSince) == before
  }

  /** Installs whose row differs. */
  ghost function Changed(before: map<Id, Install>, after: map<Id, Install>): set<Id> {
    set id | id in before && id in after && after[id] != before[id]
  }

  lemma IdleAreMarked(installs: map<Id, Install>, cutoff: int)
    ensures IdleMarked(installs, MarkedAll(installs, cutoff), cutoff)
    ensures Changed(installs, MarkedAll(installs, cutoff)) == Idle(installs, cutoff)
  {
  }

  /** The server's tables, and its handlers as the statements they issue. */
  class Server {
    var installs: map<Id, Install>
    var licenses: seq<License>
    var ipCache: map<string, int>
    var audit: seq<AuditRow>

    ghost function View(): Db reads this { Db(installs, licenses, ipCache, audit) }

    constructor ()
      ensures View() == Db(map[], [], map[], [])
    {
      installs, licenses, ipCache, audit := map[], [], map[], [];
    }

    method UpdateInstall(id: Id, token: string, c: Contact, isNew: bool, now: int)
      requires !isNew ==> id in installs
      modifies this`installs, this`ipCache
      ensures installs == old(installs)[id := Seen(if isNew then Blank(token, now) else old(installs)[id], c, now)]
      ensures ipCache == CacheAfter(old(ipCache), c, now)
    {
      ipCache := CacheAfter(ipCache, c, now);
      var row := if isNew then Blank(token, now) else installs[id];
      row := row.(info := row.info + c.info, lastSeen := Some(now));
      row := row.(ipIntel := Stamped(Some(c.intel), Some(c.intelAt.GetOr(now))));
      row := row.(lastHttp := Stamped(c.http, Some(now)), ipCheck := Stamped(Some(c.check), Some(now)));
      row := row.(inactiveSince := None);
      installs := installs[id := row];
    }

    method IssueTrialIfNeeded(s: Settings, id: Id, now: int, key: bool, licenseId: string)
      modifies this`licenses
      ensures licenses == WithTrial(s, old(licenses), id, now, key, licenseId)
      ensures HasLicense(old(licenses), id) || !key ==> licenses == old(licenses)
      ensures !HasLicense(old(licenses), id) && key ==>
                FirstTrial(old(licenses), licenses, id, At(now + s.trialDays * DAY))
    {
      if HasLicense(licenses, id) { return; }
      var expires := At(now + s.trialDays * DAY);
      if !key { return; }
      licenses := licenses + [Build(id, licenseId, Trial, expires, now)];
      LastRowDecides(licenses, id);
    }

    method ApiRegister(s: Settings, now: int, id: Id, token: string, c: Contact, key: bool, licenseId: string) returns (r: Response)
      modifies this
      ensures View() == Apply(s, now, old(View()), Register(id, token, c, key, licenseId))
      ensures r == if id !in old(installs) then Accepted(true) else if old(installs)[id].token != token then BadToken else Accepted(false)
      ensures match r
              case Accepted(true) => Registered(s, old(View()), View(), id, token, c, key, now)
              case Accepted(false) => Contacted(old(View()), View(), id, c, now)
              case _ => View() == old(View())
    {
      if id !in installs {
        UpdateInstall(id, token, c, true, now);
        IssueTrialIfNeeded(s, id, now, key, licenseId);
        return Accepted(true);
      }
      if installs[id].token != token { return BadToken; }
      SeenRefreshes(View(), id, c, now);
      UpdateInstall(id, token, c, false, now);
      return Accepted(false);
    }

    method ApiTelemetry(s: Settings, now: int, id: Id, token: string, c: Contact) returns (r: Response)
      modifies this
      ensures View() == Apply(s, now, old(View()), Telemetry(id, token, c))
      ensures r == if id !in old(installs) then NotRegistered else if old(installs)[id].token != token then BadToken else Accepted(false)
      ensures if r.Accepted? then Contacted(old(View()), View(), id, c, now) else View() == old(View())
    {
      if id !in installs { return NotRegistered; }
      if installs[id].token != token { return BadToken; }
      SeenRefreshes(View(), id, c, now);
      UpdateInstall(id, token, c, false, now);
      return Accepted(false);
    }

    method WebLicenseIssue(now: int, id: Id, plan: Plan, expires: Expiry, key: bool, licenseId: string) returns (r: Response)
      modifies this
      ensures View() == if r.Accepted? then Issued(now, old(View()), id, plan, expires, licenseId) else old(View())
      ensures r == if id !in old(installs) then NotRegistered else if !key then NoKey else Accepted(true)
      ensures r.Accepted? ==>
              var until := if expires.Never? then At(LAST_SECOND) else expires;
              Granted(old(licenses), licenses, id, plan, until) && LicensedUntil(licenses, id, until)
    {
      if id !in installs { return NotRegistered; }
      if !key { return NoKey; }
      licenses := Without(licenses, id);
      IssuingGrants(old(licenses), id, licenseId, plan, expires, now);
      licenses := licenses + [Build(id, licenseId, plan, expires, now)];
      return Accepted(true);
    }

    method WebLicenseRevoke(id: Id) returns (revoked: bool)
      modifies this
      ensures revoked <==> Revocable(old(licenses), id)
      ensures View() == old(View()).(licenses := Revoke(old(licenses), id))
      ensures |licenses| == |old(licenses)| && AllRevoked(licenses, id)
      ensures forall k | 0 <= k < |licenses| ::
                && licenses[k].(status := old(licenses)[k].status) == old(licenses)[k]
                && (old(licenses)[k].installId != id ==> licenses[k] == old(licenses)[k])
      ensures revoked <==> licenses != old(licenses)
    {
      revoked := Revocable(licenses, id);
      licenses := Revoke(licenses, id);
    }

    method WebLicenseDelete(id: Id) returns (found: bool)
      modifies this
      ensures found <==> id in old(installs) || HasLicense(old(licenses), id)
      ensures View() == Deleted(old(View()), id)
      ensures Erased(old(View()), View(), id)
      ensures found <==> View() != old(View())
    {
      found := id in installs || HasLicense(licenses, id);
      licenses := Without(licenses, id);
      installs := installs - {id};
      DeletionErases(old(View()), id);
    }

    method ClearColumns(s: Settings, now: int)
      modifies this`installs
      ensures installs == ClearedAll(s, now, old(installs))
    {
      installs := map id | id in installs ::
        installs[id].(ipIntel := Forget(installs[id].ipIntel, installs[id].lastSeen, now - s.ipIntelDays * DAY));
      installs := map id | id in installs ::
        installs[id].(lastHttp := Forget(installs[id].lastHttp, installs[id].lastSeen, now - s.httpDays * DAY));
      installs := map id | id in installs ::
        installs[id].(ipCheck := Forget(installs[id].ipCheck, installs[id].lastSeen, now - s.ipCheckDays * DAY));
    }

    method MarkInactive(cutoff: int) returns (marked: nat)
      modifies this`installs
      ensures installs == MarkedAll(old(installs), cutoff)
      ensures marked == |Idle(old(installs), cutoff)|
      ensures IdleMarked(old(installs), installs, cutoff) && marked == |Changed(old(installs), installs)|
    {
      marked := |Idle(installs, cutoff)|;
      installs := map id | id in installs :: Marked(installs[id], cutoff);
      IdleAreMarked(old(installs), cutoff);
    }

    method DeleteInactive(s: Settings, now: int) returns (deleted: nat)
      modifies this`installs
      ensures installs == Survivors(s, now, licenses, old(installs))
      ensures deleted == |old(installs)| - |installs|
    {
      var doomed := set id | id in installs && Doomed(s, now, licenses, id, installs[id]);
      deleted := |doomed|;
      ghost var keys := installs.Keys;
      assert |keys - doomed| == |keys| - |doomed|;
      installs := installs - doomed;
      assert installs.Keys == keys - doomed;
    }

    method RetireInstalls(s: Settings, now: int) returns (marked: nat, deleted: nat)
      modifies this`installs
      ensures installs == Survivors(s, now, licenses, MarkedAll(old(installs), now - s.inactiveDays * DAY))
      ensures marked == |Idle(old(installs), now - s.inactiveDays * DAY)|
      ensures deleted == |MarkedAll(old(installs), now - s.inactiveDays * DAY)| - |installs|
    {
      marked := MarkInactive(now - s.inactiveDays * DAY);
      assert installs == MarkedAll(old(installs), now - s.inactiveDays * DAY);
      deleted := DeleteInactive(s, now);
    }

    /** The retention statements in their order; the result counts marked and deleted installs. */
    method PurgeSensitiveData(s: Settings, now: int) returns (marked: nat, deleted: nat)
      modifies this
      ensures View() == Purged(s, now, old(View()))
      ensures marked == |Idle(old(installs), now - s.inactiveDays * DAY)|
      ensures deleted == |old(installs)| - |installs|
    {
      ghost var before := View();
      ClearColumns(s, now);
      ipCache := FreshLookups(ipCache, now - s.cacheDays * DAY);
      audit := KeepAudit(audit, now - s.auditDays * DAY);
      marked, deleted := RetireInstalls(s, now);
      PurgeInSteps(s, now, before.installs, licenses);
      SameIdle(s, now, before.installs);
      assert View() == Purged(s, now, before);
    }
  }

  /** The statements one after another amount to the purge of each row. */
  lemma PurgeInSteps(s: Settings, now: int, start: map<Id, Install>, licenses: seq<License>)
    ensures var tidied := MarkedAll(ClearedAll(s, now, start), now - s.inactiveDays * DAY);
            |tidied| == |start| && Survivors(s, now, licenses, tidied) == Retained(s, now, licenses, start)
  {
    var cleared := ClearedAll(s, now, start);
    var tidied := MarkedAll(cleared, now - s.inactiveDays * DAY);
    assert cleared.Keys == start.Keys;
    assert tidied.Keys == start.Keys;
    assert |start.Keys| == |tidied.Keys|;
    SameSurvivors(s, now, licenses, start, tidied);
  }

  lemma SameIdle(s: Settings, now: int, start: map<Id, Install>)
    ensures Idle(ClearedAll(s, now, start), now - s.inactiveDays * DAY) == Idle(start, now - s.inactiveDays * DAY)
  {
  }

  lemma SameSurvivors(s: Settings, now: int, licenses: seq<License>, start: map<Id, Install>, tidied: map<Id, Install>)
    requires tidied.Keys == start.Keys && forall id | id in start :: tidied[id] == Tidied(s, now, start[id])
    ensures Survivors(s, now, licenses, tidied) == Retained(s, now, licenses, start)
  {
  }

  // ---------------------------------------------------------------------------
  // Every reachable state
  // ---------------------------------------------------------------------------

  /** One licence row per install id, and no licence id twice: no INSERT ever meets a constraint. */
  ghost predicate Unique(licenses: seq<License>) {
    forall i, j | 0 <= i < j < |licenses| ::
      licenses[i].installId != licenses[j].installId && licenses[i].licenseId != licenses[j].licenseId
  }

  /** The row says what its signature covers. */
  ghost predicate Genuine(l: License) {
    l.signature == Signature(l.payload) && l.payload == Claims(l.installId, l.licenseId, l.plan, l.createdAt, l.expires)
  }

  /** A licence whose install row is gone is revoked or no longer current. */
  ghost predicate Spent(l: License, now: int) { l.status == Revoked || !Current(l.expires, now) }

  /** `inactive_since` is NULL or the time of the last contact, and then that contact is long past. */
  ghost predicate Tracked(s: Settings, clock: int, i: Install) {
    && i.lastSeen.Some? && i.lastSeen.value <= clock
    && (i.inactiveSince.Some? ==> i.inactiveSince == i.lastSeen && i.lastSeen.value < clock - s.inactiveDays * DAY)
  }

  ghost predicate Inv(s: Settings, clock: int, db: Db) {
    && Unique(db.licenses)
    && (forall l | l in db.licenses :: Genuine(l))
    && (forall l | l in db.licenses && l.installId !in db.installs :: Spent(l, clock))
    && (forall id | id in db.installs :: Tracked(s, clock, db.installs[id]))
  }

  /** `uuid4` never repeats an id that is still in the table. */
  ghost predicate FreshId(db: Db, e: Event) {
    e.Register? || e.IssueLicense? ==> forall l | l in db.licenses :: l.licenseId != e.licenseId
  }

  lemma WithoutIs(licenses: seq<License>, id: Id)
    ensures forall l :: l in Without(licenses, id) <==> l in licenses && l.installId != id
    ensures Unique(licenses) ==> Unique(Without(licenses, id))
  {
    var rest := Without(licenses, id);
    var at := OthersAt(licenses, id);
    forall l ensures l in rest <==> l in licenses && l.installId != id {
      if l in licenses && l.installId != id {
        var m: nat :| m < |licenses| && licenses[m] == l;
        assert m in at;
        var k :| 0 <= k < |at| && at[k] == m;
        assert rest[k] == l;
      }
      if l in rest {
        var k :| 0 <= k < |rest| && rest[k] == l;
        assert licenses[at[k]] == l;
      }
    }
  }

  lemma PurgeKeepsInv(s: Settings, clock: int, now: int, db: Db)
    requires Inv(s, clock, db) && clock <= now
    ensures Inv(s, now, Purged(s, now, db))
  {
  }

  lemma ContactKeepsInv(s: Settings, clock: int, now: int, db: Db, id: Id, row: Install, c: Contact)
    requires Inv(s, clock, db) && clock <= now
    ensures Inv(s, now, db.(installs := db.installs[id := Seen(row, c, now)], ipCache := CacheAfter(db.ipCache, c, now)))
  {
  }

  lemma TrialKeepsInv(s: Settings, now: int, db: Db, id: Id, key: bool, licenseId: string)
    requires Inv(s, now, db) && id in db.installs && forall l | l in db.licenses :: l.licenseId != licenseId
    ensures Inv(s, now, db.(licenses := WithTrial(s, db.licenses, id, now, key, licenseId)))
  {
  }

  lemma IssueKeepsInv(s: Settings, clock: int, now: int, db: Db, id: Id, plan: Plan, expires: Expiry, licenseId: string)
    requires Inv(s, clock, db) && clock <= now && id in db.installs && forall l | l in db.licenses :: l.licenseId != licenseId
    ensures Inv(s, now, Issued(now, db, id, plan, expires, licenseId))
  {
    WithoutIs(db.licenses, id);
    var rest := Without(db.licenses, id);
    assert forall k | 0 <= k < |rest| :: rest[k] in rest;
  }

  lemma RevokeKeepsInv(s: Settings, clock: int, now: int, db: Db, id: Id)
    requires Inv(s, clock, db) && clock <= now
    ensures Inv(s, now, db.(licenses := Revoke(db.licenses, id)))
  {
    var rows := Revoke(db.licenses, id);
    forall l | l in rows ensures Genuine(l) && (l.installId !in db.installs ==> Spent(l, now)) {
      var k :| 0 <= k < |rows| && rows[k] == l;
      assert db.licenses[k] in db.licenses;
    }
  }

  lemma DeleteKeepsInv(s: Settings, clock: int, now: int, db: Db, id: Id)
    requires Inv(s, clock, db) && clock <= now
    ensures Inv(s, now, Deleted(db, id))
  {
    WithoutIs(db.licenses, id);
  }

  /** Every event keeps the invariant, as long as the clock does not run backwards. */
  lemma EventKeepsInv(s: Settings, clock: int, now: int, db: Db, e: Event)
    requires Inv(s, clock, db) && clock <= now && FreshId(db, e)
    ensures Inv(s, now, Apply(s, now, db, e))
  {
    match e {
      case Register(id, token, c, key, licenseId) =>
        var row := if id in db.installs then db.installs[id] else Blank(token, now);
        ContactKeepsInv(s, clock, now, db, id, row, c);
        if id !in db.installs {
          var seen := db.(installs := db.installs[id := Seen(row, c, now)], ipCache := CacheAfter(db.ipCache, c, now));
          TrialKeepsInv(s, now, seen, id, key, licenseId);
        }
      case Telemetry(id, token, c) =>
        if id in db.installs { ContactKeepsInv(s, clock, now, db, id, db.installs[id], c); }
      case IssueLicense(id, plan, expires, key, licenseId) =>
        if id in db.installs { IssueKeepsInv(s, clock, now, db, id, plan, expires, licenseId); }
      case RevokeLicense(id) => RevokeKeepsInv(s, clock, now, db, id);
      case DeleteInstall(id) => DeleteKeepsInv(s, clock, now, db, id);
      case Audit(_) =>
      case Purge => PurgeKeepsInv(s, clock, now, db);
    }
  }

  datatype Timed = Timed(now: int, event: Event)

  ghost function Run(s: Settings, db: Db, events: seq<Timed>): Db {
    if events == [] then db
    else Apply(s, events[|events| - 1].now, Run(s, db, events[..|events| - 1]), events[|events| - 1].event)
  }

  /** Clock readings never decrease and fresh licence ids are fresh. */
  ghost predicate Plausible(s: Settings, db: Db, clock: int, events: seq<Timed>) {
    && (forall i | 0 <= i < |events| :: clock <= events[i].now && FreshId(Run(s, db, events[..i]), events[i].event))
    && (forall i, j | 0 <= i < j < |events| :: events[i].now <= events[j].now)
  }

  ghost function Clock(clock: int, events: seq<Timed>): int { if events == [] then clock else events[|events| - 1].now }

  lemma {:induction false} RunKeepsInv(s: Settings, db: Db, clock: int, events: seq<Timed>)
    requires Inv(s, clock, db) && Plausible(s, db, clock, events)
    ensures Inv(s, Clock(clock, events), Run(s, db, events))
  {
    if events != [] {
      var n := |events| - 1;
      var init := events[..n];
      PlausibleSoFar(s, db, clock, events);
      RunKeepsInv(s, db, clock, init);
      EventKeepsInv(s, Clock(clock, init), events[n].now, Run(s, db, init), events[n].event);
    }
  }

  lemma PlausibleSoFar(s: Settings, db: Db, clock: int, events: seq<Timed>)
    requires events != [] && Plausible(s, db, clock, events)
    ensures var init, last := events[..|events| - 1], events[|events| - 1];
            Plausible(s, db, clock, init) && Clock(clock, init) <= last.now && FreshId(Run(s, db, init), last.event)
  {
    var init := events[..|events| - 1];
    forall i | 0 <= i < |init| ensures FreshId(Run(s, db, init[..i]), init[i].event) {
      assert init[..i] == events[..i];
    }
  }

  /** From an empty database on, whatever happens: one licence row per install, genuine signatures, and an orphaned
      licence is revoked or expired. */
  lemma ReachableStates(s: Settings, clock: int, events: seq<Timed>)
    requires Plausible(s, Db(map[], [], map[], []), clock, events)
    ensures Inv(s, Clock(clock, events), Run(s, Db(map[], [], map[], []), events))
  {
    RunKeepsInv(s, Db(map[], [], map[], []), clock, events);
  }

  /** An active licence row without expiry, or with one that has not passed. An expiry that does not parse is none. */
  ghost predicate Covered(db: Db, id: Id, now: int) {
    exists l :: l in db.licenses && l.installId == id && l.status == Active
                && (l.expires.Never? || (l.expires.At? && now <= l.expires.time))
  }

  lemma CoveredIsLicensed(db: Db, id: Id, now: int)
    ensures Covered(db, id, now) <==> Licensed(db.licenses, id, now)
  {
    if l :| l in db.licenses && l.installId == id && l.status == Active && Current(l.expires, now) {
      var k :| 0 <= k < |db.licenses| && db.licenses[k] == l;
    }
  }

  /** A stamped column before and after: emptied together with its time if it is older than the cutoff, by its own time
      or, without one, by the last contact. */
  ghost predicate ColumnPurged(before: Stamped, after: Stamped, lastSeen: Option<int>, cutoff: int) {
    var t := if before.at.Some? then before.at else lastSeen;
    after == if before.value.Some? && t.Some? && t.value < cutoff then Stamped(None, None) else before
  }

  /** A row before and after a purge that keeps it: each column by its own retention, the mark by the last contact. */
  ghost predicate RowPurged(s: Settings, now: int, before: Install, after: Install) {
    && after.token == before.token && after.info == before.info
    && after.registeredAt == before.registeredAt && after.lastSeen == before.lastSeen
    && ColumnPurged(before.ipIntel, after.ipIntel, before.lastSeen, now - s.ipIntelDays * 86_400)
    && ColumnPurged(before.lastHttp, after.lastHttp, before.lastSeen, now - s.httpDays * 86_400)
    && ColumnPurged(before.ipCheck, after.ipCheck, before.lastSeen, now - s.ipCheckDays * 86_400)
    && RowMarked(before, before.(inactiveSince := after.inactiveSince), now - s.inactiveDays * 86_400)
  }

  /** What one purge leaves, row by row: installs, address lookups and audit entries. */
  lemma PurgeExact(s: Settings, now: int, db: Db)
    ensures var after := Purged(s, now, db);
            && after.licenses == db.licenses
            && (forall id | id in after.installs :: id in db.installs && RowPurged(s, now, db.installs[id], after.installs[id]))
            && (forall ip :: ip in after.ipCache <==> ip in db.ipCache && db.ipCache[ip] >= now - s.cacheDays * 86_400)
            && (forall ip | ip in after.ipCache :: after.ipCache[ip] == db.ipCache[ip])
            && exists at :: Picks(db.audit, after.audit, at) && NotOlder(db.audit, now - s.auditDays * 86_400, at)
  {
    var at := KeptAuditAt(db.audit, now - s.auditDays * DAY);
  }

  ghost predicate NotOlder(rows: seq<AuditRow>, cutoff: int, at: seq<nat>) {
    forall m: nat | m < |rows| :: m in at <==> rows[m].createdAt >= cutoff
  }

  lemma {:induction false} KeptAuditAt(rows: seq<AuditRow>, cutoff: int) returns (at: seq<nat>)
    ensures Picks(rows, KeepAudit(rows, cutoff), at) && NotOlder(rows, cutoff, at)
  {
    if rows == [] {
      at := [];
    } else {
      var tail := KeptAuditAt(rows[1..], cutoff);
      PicksOnward(rows, KeepAudit(rows[1..], cutoff), tail);
      NotOlderOnward(rows, cutoff, tail);
      if rows[0].createdAt < cutoff {
        assert KeepAudit(rows, cutoff) == KeepAudit(rows[1..], cutoff);
        at := Onward(tail);
      } else {
        at := [0] + Onward(tail);
      }
    }
  }

  lemma NotOlderOnward(rows: seq<AuditRow>, cutoff: int, tail: seq<nat>)
    requires rows != [] && NotOlder(rows[1..], cutoff, tail)
    ensures NotOlder(rows, cutoff, if rows[0].createdAt < cutoff then Onward(tail) else [0] + Onward(tail))
  {
    forall m: nat | m < |rows| ensures m in Onward(tail) <==> m > 0 && rows[m].createdAt >= cutoff {
      OnwardHas(tail, m);
      assert m > 0 ==> rows[1..][m - 1] == rows[m];
    }
  }

  /** In a reachable state the purge deletes an install exactly when its last contact is older than both limits and
      no active, unexpired licence covers it. */
  lemma DeletedExactlyWhen(s: Settings, clock: int, now: int, db: Db, id: Id)
    requires Inv(s, clock, db) && clock <= now && id in db.installs
    ensures id !in Purged(s, now, db).installs <==>
            && db.installs[id].lastSeen.value < now - s.inactiveDays * DAY
            && db.installs[id].lastSeen.value < now - s.retentionDays * DAY
            && !Covered(db, id, now)
  {
    CoveredIsLicensed(db, id, now);
  }

  // ---------------------------------------------------------------------------
  // What clients cannot do
  // ---------------------------------------------------------------------------

  /** Requests an install can make, and the retention job. */
  predicate FromClient(e: Event) { e.Register? || e.Telemetry? || e.Purge? }

  ghost predicate LicensesOnlyGrow(a: seq<License>, b: seq<License>) {
    a <= b && forall k | |a| <= k < |b| :: !HasLicense(a, b[k].installId) && b[k].plan == Trial
  }

  /** No sequence of client requests and purges changes or removes a licence row, or adds one for an id that has one:
      a revoked licence stays revoked, and no second trial appears even after purge and re-registration. */
  lemma {:induction false} ClientsOnlyAddFirstTrials(s: Settings, db: Db, events: seq<Timed>)
    requires forall i | 0 <= i < |events| :: FromClient(events[i].event)
    ensures LicensesOnlyGrow(db.licenses, Run(s, db, events).licenses)
  {
    if events != [] {
      var n := |events| - 1;
      ClientsOnlyAddFirstTrials(s, db, events[..n]);
      var mid := Run(s, db, events[..n]);
      var end := Run(s, db, events);
      if end.licenses != mid.licenses {
        var added := end.licenses[|mid.licenses|];
        assert !HasLicense(mid.licenses, added.installId);
        assert forall k | 0 <= k < |db.licenses| :: mid.licenses[k] == db.licenses[k];
        assert !HasLicense(db.licenses, added.installId);
      }
    }
  }

  // ---------------------------------------------------------------------------
  // Revocation
  // ---------------------------------------------------------------------------

  /** The two requests that remove a licence row. */
  predicate Replaces(e: Event, id: Id) {
    (e.IssueLicense? && e.id == id) || (e.DeleteInstall? && e.id == id)
  }

  lemma OtherRemovalKeepsRevoked(rows: seq<License>, other: Id, id: Id)
    requires HasLicense(rows, id) && AllRevoked(rows, id) && other != id
    ensures HasLicense(Without(rows, other), id) && AllRevoked(Without(rows, other), id)
  {
    var at := OthersAt(rows, other);
    var k: nat :| k < |rows| && rows[k].installId == id;
    assert k in at;
    var m :| 0 <= m < |at| && at[m] == k;
    assert Without(rows, other)[m].installId == id;
  }

  lemma RevokedStep(s: Settings, now: int, db: Db, e: Event, id: Id)
    requires HasLicense(db.licenses, id) && AllRevoked(db.licenses, id) && !Replaces(e, id)
    ensures HasLicense(Apply(s, now, db, e).licenses, id) && AllRevoked(Apply(s, now, db, e).licenses, id)
  {
    var after := Apply(s, now, db, e).licenses;
    if e.IssueLicense? || e.DeleteInstall? {
      OtherRemovalKeepsRevoked(db.licenses, e.id, id);
      var rest := Without(db.licenses, e.id);
      var k :| 0 <= k < |rest| && rest[k].installId == id;
      assert after == db.licenses || after[k] == rest[k];
    } else {
      var k :| 0 <= k < |db.licenses| && db.licenses[k].installId == id;
      assert after[k].installId == id;
    }
  }

  /** A revoked licence stays revoked through every run that neither issues a new one nor deletes the install. */
  lemma {:induction false} RevocationLasts(s: Settings, db: Db, events: seq<Timed>, id: Id, t: int)
    requires HasLicense(db.licenses, id) && AllRevoked(db.licenses, id)
    requires forall i | 0 <= i < |events| :: !Replaces(events[i].event, id)
    ensures var end := Run(s, db, events).licenses;
            HasLicense(end, id) && AllRevoked(end, id) && !Licensed(end, id, t)
  {
    if events != [] {
      var n := |events| - 1;
      RevocationLasts(s, db, events[..n], id, t);
      RevokedStep(s, events[n].now, Run(s, db, events[..n]), events[n].event, id);
    }
  }

  lemma NewcomerGetsATrial(s: Settings, now: int, db: Db, e: Event, t: int)
    requires e.Register? && e.key && e.id !in db.installs && !HasLicense(db.licenses, e.id)
    ensures Licensed(Apply(s, now, db, e).licenses, e.id, t) <==> t <= now + s.trialDays * DAY
  {
    var after := Apply(s, now, db, e).licenses;
    assert after[..|after| - 1] == db.licenses;
    LastRowDecides(after, e.id);
  }

  /** Deleting an install forgets its revocation: registering again brings a whole new trial. */
  lemma DeletionForgetsRevocation(s: Settings, now: int, db: Db, e: Event, t: int)
    requires e.Register? && e.key && AllRevoked(db.licenses, e.id)
    ensures !Licensed(db.licenses, e.id, t)
    ensures var end := Apply(s, now, Deleted(db, e.id), e);
            Licensed(end.licenses, e.id, t) <==> t <= now + s.trialDays * DAY
  {
    DeletionErases(db, e.id);
    NewcomerGetsATrial(s, now, Deleted(db, e.id), e, t);
  }
}
