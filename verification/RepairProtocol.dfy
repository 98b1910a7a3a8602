/** The run of the repair script as writes to durable state: the manifest directory, the
    committed tables and the audit log. `trace` records every durable state the run passes
    through, so a crash at any point leaves one of its elements behind. */
module RepairProtocol {
  import opened Wrappers
  import opened Encryption
  import opened Ordering
  import opened Store
  import opened Repair

  datatype Entry = Entry(tenant: string, hit: Hit)
  datatype Manifest = Manifest(createdAt: string, backupPath: string, affected: seq<Entry>)

  /** A file is one whole manifest or the torn beginning of one. */
  datatype File = Whole(manifest: Manifest) | Torn(written: nat)
  type Disk = map<string, File>

  datatype AuditEntry = AuditEntry(tenant: string, rows: nat, fields: nat)
  datatype Durable = Durable(tables: Tables, audit: seq<AuditEntry>, disk: Disk)

  function ManifestPath(stamp: string): string { "plaintext_repair_" + stamp + ".json" }
  function TempPath(path: string): string { path + ".tmp" }

  lemma PathsDiffer(a: string, b: string)
    ensures TempPath(ManifestPath(a)) != ManifestPath(b)
    ensures a != b ==> ManifestPath(a) != ManifestPath(b)
  {
    var x, y := TempPath(ManifestPath(a)), ManifestPath(b);
    assert x[|x| - 1] == 'p' && y[|y| - 1] == 'n';
    var p := "plaintext_repair_";
    assert ManifestPath(a)[|p|..|ManifestPath(a)| - 5] == a && ManifestPath(b)[|p|..|ManifestPath(b)| - 5] == b;
  }

  // ---------------------------------------------------------------------------
  // What a run is supposed to do
  // ---------------------------------------------------------------------------

  /** Fields in the first `n` rows. */
  function FieldsIn(hits: seq<Hit>, n: nat): nat
    requires n <= |hits|
  {
    if n == 0 then 0 else FieldsIn(hits, n - 1) + |hits[n - 1].fields|
  }

  function FieldTotal(hits: seq<Hit>): nat { FieldsIn(hits, |hits|) }

  function Entries(tenant: string, hits: seq<Hit>): seq<Entry> {
    seq(|hits|, i requires 0 <= i < |hits| => Entry(tenant, hits[i]))
  }

  ghost function TenantHits(keys: set<Key>, ts: Tables, tenant: string): seq<Hit> { Hits(keys, ts, tenant, |ts|) }

  ghost function Listing(keys: set<Key>, ts: Tables, ids: seq<string>): seq<Entry> {
    if ids == [] then []
    else
      var id := ids[|ids| - 1];
      Listing(keys, ts, ids[..|ids| - 1]) + Entries(id, TenantHits(keys, ts, id))
  }

  function AuditOf(tenant: string, hits: seq<Hit>): seq<AuditEntry> {
    if hits == [] then [] else [AuditEntry(tenant, |hits|, FieldTotal(hits))]
  }

  ghost function AuditTrail(keys: set<Key>, ts: Tables, ids: seq<string>): seq<AuditEntry> {
    if ids == [] then []
    else
      var id := ids[|ids| - 1];
      AuditTrail(keys, ts, ids[..|ids| - 1]) + AuditOf(id, TenantHits(keys, ts, id))
  }

  ghost function Tally(keys: set<Key>, ts: Tables, ids: seq<string>): Totals {
    if ids == [] then NOTHING
    else Tally(keys, ts, ids[..|ids| - 1]).Plus(States(keys, ts, ids[|ids| - 1], |ts|))
  }

  /** The clear-text cells of the owners in `done` have become tokens; nothing else moved. */
  ghost predicate Encrypted(ring: Keyring, a: Tables, b: Tables, done: set<string>) {
    && SameShape(a, b)
    && forall c | Has(a, c) ::
         if RowOf(a, c).tenant in done && Classify(ring.Keys(), At(a, c)) == Plaintext
         then Sealed(ring.current, At(a, c), At(b, c))
         else At(b, c) == At(a, c)
  }

  ghost function SetOf(ids: seq<string>): set<string> { set x | x in ids }

  ghost predicate SameFiles(a: Disk, b: Disk, except: set<string>) {
    forall p | p !in except :: (p in a <==> p in b) && (p in a ==> a[p] == b[p])
  }

  ghost predicate IsTenantList(ids: seq<string>, ts: Tables) {
    Ascending(ids) && forall x :: x in ids <==> x in Owners(ts)
  }

  function Owners(ts: Tables): set<string> {
    set rows, row | rows in ts && row in rows && row.tenant != "" :: row.tenant
  }

  ghost predicate ListsFirst(keys: set<Key>, ts: Tables, ids: seq<string>, path: string, disk: Disk, k: nat)
    requires k <= |ids|
  {
    path in disk && disk[path].Whole? && disk[path].manifest.affected == Listing(keys, ts, ids[..k])
  }

  /** `d` is a durable state of the run over `ids` in which exactly the first `k` owners are committed.
      The manifest lists those owners, or already the next one as well. */
  ghost predicate Passing(ring: Keyring, stamp: string, ids: seq<string>, before: Durable, d: Durable, k: nat)
    requires k <= |ids|
  {
    var path := ManifestPath(stamp);
    && Encrypted(ring, before.tables, d.tables, SetOf(ids[..k]))
    && d.audit == before.audit + AuditTrail(ring.Keys(), before.tables, ids[..k])
    && SameFiles(before.disk, d.disk, {path, TempPath(path)})
    && (|| (k == 0 && SameFiles(before.disk, d.disk, {TempPath(path)}))
        || ListsFirst(ring.Keys(), before.tables, ids, path, d.disk, k)
        || (k < |ids| && ListsFirst(ring.Keys(), before.tables, ids, path, d.disk, k + 1)))
  }

  ghost predicate Reaches(ring: Keyring, stamp: string, ids: seq<string>, before: Durable, d: Durable) {
    exists k :: 0 <= k <= |ids| && Passing(ring, stamp, ids, before, d, k)
  }

  /** The run stands between owners: the first `k` are committed and the manifest lists exactly those. */
  ghost predicate Standing(ring: Keyring, stamp: string, ids: seq<string>, before: Durable, d: Durable, k: nat)
    requires k <= |ids|
  {
    && Passing(ring, stamp, ids, before, d, k)
    && ListsFirst(ring.Keys(), before.tables, ids, ManifestPath(stamp), d.disk, k)
  }

  /** The state a write of manifest `m` may leave behind at any moment. */
  ghost predicate Writing(path: string, m: Manifest, before: Durable, d: Durable) {
    && d.tables == before.tables && d.audit == before.audit
    && (|| SameFiles(before.disk, d.disk, {TempPath(path)})
        || (SameFiles(before.disk, d.disk, {path, TempPath(path)}) && path in d.disk && d.disk[path] == Whole(m)))
  }

  /** Every state added to the trace since it had length `n` is one a write of `m` may leave. */
  ghost predicate OnlyWrites(path: string, m: Manifest, before: Durable, trace: seq<Durable>, n: nat) {
    forall i | n <= i < |trace| :: Writing(path, m, before, trace[i])
  }

  ghost predicate OnlyReaches(ring: Keyring, stamp: string, ids: seq<string>, before: Durable, trace: seq<Durable>, n: nat) {
    forall i | n <= i < |trace| :: Reaches(ring, stamp, ids, before, trace[i])
  }

  /** The file at `path` is the one of before, or a manifest that names this start and this backup. */
  ghost predicate Headed(path: string, stamp: string, backupPath: string, before: Disk, d: Disk) {
    path in d ==>
      || (path in before && d[path] == before[path])
      || (d[path].Whole? && d[path].manifest.createdAt == stamp && d[path].manifest.backupPath == backupPath)
  }

  ghost predicate AllHeaded(path: string, stamp: string, backupPath: string, before: Disk, trace: seq<Durable>, n: nat) {
    forall i | n <= i < |trace| :: Headed(path, stamp, backupPath, before, trace[i].disk)
  }

  lemma WritesAreHeaded(path: string, m: Manifest, before: Durable, trace: seq<Durable>, n: nat)
    requires OnlyWrites(path, m, before, trace, n)
    ensures AllHeaded(path, m.createdAt, m.backupPath, before.disk, trace, n)
  {
    forall i | n <= i < |trace| ensures Headed(path, m.createdAt, m.backupPath, before.disk, trace[i].disk) {
      assert Writing(path, m, before, trace[i]);
      assert path != TempPath(path) by { assert |TempPath(path)| == |path| + 4; }
    }
  }

  /** The writes of `m`, and one more state with the same files. */
  lemma CommitIsHeaded(path: string, m: Manifest, before: Durable, t1: seq<Durable>, t2: seq<Durable>, d2: Durable, t3: seq<Durable>)
    requires t1 < t2 && OnlyWrites(path, m, before, t2, |t1|) && t2[|t2| - 1] == d2
    requires t2 <= t3 && |t3| == |t2| + 1 && t3[|t2|].disk == d2.disk
    ensures AllHeaded(path, m.createdAt, m.backupPath, before.disk, t3, |t1|)
  {
    WritesAreHeaded(path, m, before, t2, |t1|);
    assert Headed(path, m.createdAt, m.backupPath, before.disk, t2[|t2| - 1].disk);
  }

  lemma HeadsJoin(path: string, stamp: string, backupPath: string, before: Disk, mid: Disk, t0: nat, t1: seq<Durable>, t2: seq<Durable>)
    requires t0 <= |t1| && t1 <= t2 && Headed(path, stamp, backupPath, before, mid)
    requires AllHeaded(path, stamp, backupPath, before, t1, t0) && AllHeaded(path, stamp, backupPath, mid, t2, |t1|)
    ensures AllHeaded(path, stamp, backupPath, before, t2, t0)
  {
  }

  /** Exactly the cells of `hits` became tokens. */
  ghost predicate SealedExactly(ring: Keyring, hits: seq<Hit>, a: Tables, b: Tables) {
    && SameShape(a, b)
    && forall c | Has(a, c) ::
         if c in CellsOf(hits) then Sealed(ring.current, At(a, c), At(b, c)) else At(b, c) == At(a, c)
  }

  ghost predicate Sealable(hits: seq<Hit>, ts: Tables) {
    Ordered(hits) && forall c | c in CellsOf(hits) :: Has(ts, c) && At(ts, c).Some?
  }

  method Sorted(s: set<string>) returns (ids: seq<string>)
    ensures Ascending(ids)
    ensures forall x :: x in ids <==> x in s
  {
    ids := [];
    var rest := s;
    while rest != {}
      invariant Ascending(ids) && rest <= s
      invariant forall x :: x in ids <==> x in s - rest
    {
      var x :| x in rest;
      ids := Inserted(ids, x);
      rest := rest - {x};
    }
  }

  method Inserted(ids: seq<string>, x: string) returns (longer: seq<string>)
    requires Ascending(ids) && x !in ids
    ensures Ascending(longer)
    ensures forall y :: y in longer <==> y == x || y in ids
  {
    var i := 0;
    while i < |ids| && Less(ids[i], x)
      invariant i <= |ids|
      invariant forall j | 0 <= j < i :: Less(ids[j], x)
    {
      i := i + 1;
    }
    forall j | i <= j < |ids| ensures Less(x, ids[j]) {
      assert ids[i] in ids && ids[j] in ids;
      LessTotal(ids[i], x);
      if i < j { LessTransitive(x, ids[i], ids[j]); }
    }
    longer := ids[..i] + [x] + ids[i..];
    assert ids == ids[..i] + ids[i..];
  }

  datatype Outcome = Refused | Report(states: Totals, encrypted: nat, affected: seq<Entry>)

  class Machine {
    /** The identity map of the session: committed rows plus pending changes. */
    var tables: Tables
    var durable: Durable
    ghost var trace: seq<Durable>

    ghost predicate Valid() reads this { trace != [] && trace[|trace| - 1] == durable }

    constructor (d: Durable)
      ensures Valid() && tables == d.tables && durable == d && trace == [d]
    {
      tables, durable, trace := d.tables, d, [d];
    }

    method SetDisk(path: string, f: File)
      requires Valid()
      modifies this`durable, this`trace
      ensures Valid() && durable == old(durable).(disk := old(durable).disk[path := f])
      ensures trace == old(trace) + [durable]
    {
      durable := durable.(disk := durable.disk[path := f]);
      trace := trace + [durable];
    }

    method Replace(source: string, target: string)
      requires Valid() && source in durable.disk && source != target
      modifies this`durable, this`trace
      ensures Valid()
      ensures durable == old(durable).(disk := old(durable).disk[target := old(durable).disk[source]] - {source})
      ensures trace == old(trace) + [durable]
    {
      durable := durable.(disk := durable.disk[target := durable.disk[source]] - {source});
      trace := trace + [durable];
    }

    method Commit(audit: seq<AuditEntry>)
      requires Valid()
      modifies this`durable, this`trace
      ensures Valid() && durable == old(durable).(tables := tables, audit := old(durable).audit + audit)
      ensures trace == old(trace) + [durable]
    {
      durable := durable.(tables := tables, audit := durable.audit + audit);
      trace := trace + [durable];
    }

    /** Temp file, fsync, atomic replace: the file at `path` is never torn. */
    method WriteManifest(path: string, m: Manifest)
      requires Valid()
      modifies this`durable, this`trace
      ensures Valid() && old(trace) < trace
      ensures OnlyWrites(path, m, old(durable), trace, |old(trace)|)
      ensures durable.tables == old(durable).tables && durable.audit == old(durable).audit
      ensures SameFiles(old(durable).disk, durable.disk, {path, TempPath(path)})
      ensures path in durable.disk && durable.disk[path] == Whole(m) && TempPath(path) !in durable.disk
    {
      var tmp := TempPath(path);
      SetDisk(tmp, Torn(0));
      var i, chunks := 0, *;
      while i < chunks
        invariant 0 <= i
        invariant Valid() && old(trace) <= trace && OnlyWrites(path, m, old(durable), trace, |old(trace)|)
        invariant durable.tables == old(durable).tables && durable.audit == old(durable).audit
        invariant SameFiles(old(durable).disk, durable.disk, {tmp})
      {
        i := i + 1;
        SetDisk(tmp, Torn(i));
      }
      SetDisk(tmp, Whole(m));
      Replace(tmp, path);
    }

    /** Encrypts every listed cell once, in the session only. */
    method EncryptHits(ring: Keyring, hits: seq<Hit>)
      requires Sealable(hits, tables)
      modifies this`tables
      ensures SealedExactly(ring, hits, old(tables), tables)
    {
      assert hits[..|hits|] == hits;
      for h := 0 to |hits|
        invariant SealedExactly(ring, hits[..h], old(tables), tables)
      {
        HitInCells(hits, h);
        EncryptRow(ring, hits[h]);
      }
    }

    method EncryptRow(ring: Keyring, hit: Hit)
      requires Increasing(hit.fields)
      requires forall c | c in HitCells(hit) :: Has(tables, c) && At(tables, c).Some?
      modifies this`tables
      ensures SameShape(old(tables), tables)
      ensures forall c | Has(old(tables), c) ::
                if c in HitCells(hit) then Sealed(ring.current, At(old(tables), c), At(tables, c))
                else At(tables, c) == At(old(tables), c)
    {
      for f := 0 to |hit.fields|
        invariant SameShape(old(tables), tables)
        invariant forall c | Has(old(tables), c) ::
                    if c in HitCells(hit.(fields := hit.fields[..f]))
                    then Sealed(ring.current, At(old(tables), c), At(tables, c))
                    else At(tables, c) == At(old(tables), c)
      {
        var cell := Cell(hit.table, hit.row, hit.fields[f]);
        assert cell in HitCells(hit);
        assert cell !in HitCells(hit.(fields := hit.fields[..f]));
        var sealed := Encrypt(ring, At(tables, cell));
        PutAt(tables, cell, sealed);
        tables := Put(tables, cell, sealed);
        assert hit.fields[..f + 1] == hit.fields[..f] + [hit.fields[f]];
        assert HitCells(hit.(fields := hit.fields[..f + 1])) == HitCells(hit.(fields := hit.fields[..f])) + {cell};
      }
      assert hit.(fields := hit.fields[..|hit.fields|]) == hit;
    }

    /** Encrypt one owner's clear text and commit it together with the audit entry. */
    method EncryptOwner(ring: Keyring, owner: string, hits: seq<Hit>)
      requires Valid() && tables == durable.tables && hits == TenantHits(ring.Keys(), tables, owner)
      modifies this
      ensures Valid() && tables == durable.tables && trace == old(trace) + [durable]
      ensures SealedExactly(ring, hits, old(durable).tables, durable.tables)
      ensures durable.disk == old(durable).disk && durable.audit == old(durable).audit + AuditOf(owner, hits)
    {
      HitsAreSealable(ring.Keys(), tables, owner);
      EncryptHits(ring, hits);
      assert trace == old(trace) && durable == old(durable);
      Commit(AuditOf(owner, hits));
    }

    /** The body of the owner loop when writing: announce durably, then encrypt and commit. */
    method RepairOwner(ring: Keyring, stamp: string, m: Manifest, hits: seq<Hit>, ghost ids: seq<string>, ghost k: nat,
                       owner: string, ghost d0: Durable)
      requires Valid() && tables == durable.tables
      requires k < |ids| && Ascending(ids) && ids[k] == owner
      requires Standing(ring, stamp, ids, d0, durable, k)
      requires hits == TenantHits(ring.Keys(), tables, owner) == TenantHits(ring.Keys(), d0.tables, owner)
      requires m.affected == Listing(ring.Keys(), d0.tables, ids[..k + 1]) && m.createdAt == stamp
      modifies this
      ensures Valid() && tables == durable.tables && old(trace) <= trace
      ensures AllHeaded(ManifestPath(stamp), stamp, m.backupPath, old(durable).disk, trace, |old(trace)|)
      ensures Standing(ring, stamp, ids, d0, durable, k + 1)
      ensures OnlyReaches(ring, stamp, ids, d0, trace, |old(trace)|)
    {
      ghost var d1, t1 := durable, trace;
      ghost var d2, t2 := d1, t1;
      if hits != [] {
        WriteManifest(ManifestPath(stamp), m);
        d2, t2 := durable, trace;
        EncryptOwner(ring, owner, hits);
      }
      OwnerRepaired(ring, stamp, ids, k, m, hits, d0, d1, d2, durable, t1, t2, trace);
    }

    /** Scan one owner and, when writing, repair it. */
    method ProcessOwner(ring: Keyring, apply: bool, stamp: string, backupPath: string, owner: string, affected: seq<Entry>,
                        ghost ids: seq<string>, ghost k: nat, ghost d0: Durable, ghost t0: seq<Durable>)
      returns (hits: seq<Hit>, states: Totals)
      requires Valid() && tables == durable.tables
      requires k < |ids| && Ascending(ids) && ids[k] == owner
      requires affected == Listing(ring.Keys(), d0.tables, ids[..k])
      requires Progress(ring, apply, stamp, backupPath, ids, d0, t0, durable, trace, k)
      modifies this
      ensures Valid() && tables == durable.tables
      ensures hits == TenantHits(ring.Keys(), d0.tables, owner)
      ensures states == States(ring.Keys(), d0.tables, owner, |d0.tables|)
      ensures Progress(ring, apply, stamp, backupPath, ids, d0, t0, durable, trace, k + 1)
    {
      hits, states := ScanTenant(ring, tables, owner);
      if apply {
        ghost var d1, t1 := durable, trace;
        SameScan(ring, ids, k, d0.tables, tables);
        assert ids[..k + 1][..k] == ids[..k];
        RepairOwner(ring, stamp, Manifest(stamp, backupPath, affected + Entries(owner, hits)), hits, ids, k, owner, d0);
        ReachesJoin(ring, stamp, ids, d0, t0, t1, trace);
        HeadsJoin(ManifestPath(stamp), stamp, backupPath, d0.disk, d1.disk, |t0|, t1, trace);
      }
    }

    method ProcessOwners(ring: Keyring, apply: bool, stamp: string, backupPath: string, ids: seq<string>,
                         ghost d0: Durable, ghost t0: seq<Durable>)
      returns (states: Totals, encrypted: nat, affected: seq<Entry>)
      requires Valid() && tables == durable.tables && Ascending(ids)
      requires Progress(ring, apply, stamp, backupPath, ids, d0, t0, durable, trace, 0)
      modifies this
      ensures Valid() && tables == durable.tables
      ensures affected == Listing(ring.Keys(), d0.tables, ids)
      ensures states == Tally(ring.Keys(), d0.tables, ids) && encrypted == states.plaintext
      ensures Progress(ring, apply, stamp, backupPath, ids, d0, t0, durable, trace, |ids|)
    {
      affected, states, encrypted := [], NOTHING, 0;
      for i := 0 to |ids|
        invariant Valid() && tables == durable.tables
        invariant Reported(ring.Keys(), d0.tables, ids, i, affected, states, encrypted)
        invariant Progress(ring, apply, stamp, backupPath, ids, d0, t0, durable, trace, i)
      {
        var hits, ownerStates := ProcessOwner(ring, apply, stamp, backupPath, ids[i], affected, ids, i, d0, t0);
        OneMoreReported(ring.Keys(), d0.tables, ids, i, affected, states, encrypted);
        states := states.Plus(ownerStates);
        encrypted := encrypted + FieldTotal(hits);
        affected := affected + Entries(ids[i], hits);
      }
      assert ids[..|ids|] == ids;
    }

    /** The closing rewrite of an unchanged list. */
    method WriteFinal(ring: Keyring, stamp: string, m: Manifest, ghost ids: seq<string>, ghost d0: Durable)
      requires Valid() && m.affected == Listing(ring.Keys(), d0.tables, ids) && m.createdAt == stamp
      requires Standing(ring, stamp, ids, d0, durable, |ids|)
      modifies this`durable, this`trace
      ensures Valid() && durable.tables == old(durable.tables) && old(trace) < trace
      ensures Standing(ring, stamp, ids, d0, durable, |ids|)
      ensures OnlyReaches(ring, stamp, ids, d0, trace, |old(trace)|)
      ensures durable.disk[ManifestPath(stamp)] == Whole(m)
      ensures OnlyWrites(ManifestPath(stamp), m, old(durable), trace, |old(trace)|)
    {
      ghost var d1, t1 := durable, trace;
      WriteManifest(ManifestPath(stamp), m);
      LastWrites(ring, stamp, ids, m, d0, d1, durable, trace, |t1|);
    }

    /** One run of the script over a fresh session. */
    method Run(ring: Keyring, apply: bool, backupPath: string, backupExists: bool, stamp: string)
      returns (r: Outcome, ghost ids: seq<string>)
      requires Valid() && tables == durable.tables
      modifies this
      ensures Valid() && tables == durable.tables && IsTenantList(ids, old(tables))
      ensures r.Refused? <==> apply && !(backupPath != "" && backupExists)
      ensures r.Refused? || !apply ==> durable == old(durable) && trace == old(trace)
      ensures r.Report? ==> r.affected == Listing(ring.Keys(), old(tables), ids)
      ensures r.Report? ==> r.states == Tally(ring.Keys(), old(tables), ids) && r.encrypted == r.states.plaintext
      ensures r.Report? && apply ==> Standing(ring, stamp, ids, old(durable), durable, |ids|)
      ensures r.Report? && apply ==> durable.disk[ManifestPath(stamp)] == Whole(Manifest(stamp, backupPath, r.affected))
      ensures r.Report? && apply ==> AllHeaded(ManifestPath(stamp), stamp, backupPath, old(durable).disk, trace, |old(trace)|)
      ensures r.Report? && apply ==> old(trace) <= trace && OnlyReaches(ring, stamp, ids, old(durable), trace, |old(trace)|)
    {
      ghost var d0, t0 := durable, trace;
      if apply && (backupPath == "" || !backupExists) {
        ids := Sorted(Owners(tables));
        return Refused, ids;
      }
      if apply {
        WriteManifest(ManifestPath(stamp), Manifest(stamp, backupPath, []));
      }
      var owners := Sorted(Owners(tables));
      ids := owners;
      if apply {
        Announced(ring, stamp, backupPath, ids, d0, t0, durable, trace);
      }
      var states, encrypted, affected := ProcessOwners(ring, apply, stamp, backupPath, owners, d0, t0);
      if apply {
        ghost var d1, t1 := durable, trace;
        WriteFinal(ring, stamp, Manifest(stamp, backupPath, affected), ids, d0);
        Closed(ring, stamp, ids, Manifest(stamp, backupPath, affected), d0, t0, d1, t1, trace);
      }
      r := Report(states, encrypted, affected);
    }
  }

  /** Where the owner loop stands: a dry run has touched nothing. */
  ghost predicate Progress(ring: Keyring, apply: bool, stamp: string, backupPath: string, ids: seq<string>, d0: Durable,
                           t0: seq<Durable>, d: Durable, t: seq<Durable>, k: nat)
    requires k <= |ids|
  {
    if apply then
      && Standing(ring, stamp, ids, d0, d, k) && t0 < t && t[|t| - 1] == d && OnlyReaches(ring, stamp, ids, d0, t, |t0|)
      && AllHeaded(ManifestPath(stamp), stamp, backupPath, d0.disk, t, |t0|)
    else d == d0 && t == t0
  }

  /** After the first write, with nothing affected yet, the loop may begin. */
  lemma Announced(ring: Keyring, stamp: string, backupPath: string, ids: seq<string>, d0: Durable, t0: seq<Durable>,
                  d: Durable, t: seq<Durable>)
    requires t0 < t && d == t[|t| - 1] && OnlyWrites(ManifestPath(stamp), Manifest(stamp, backupPath, []), d0, t, |t0|)
    requires d.tables == d0.tables && d.audit == d0.audit
    requires SameFiles(d0.disk, d.disk, {ManifestPath(stamp), TempPath(ManifestPath(stamp))})
    requires ManifestPath(stamp) in d.disk && d.disk[ManifestPath(stamp)] == Whole(Manifest(stamp, backupPath, []))
    ensures Progress(ring, true, stamp, backupPath, ids, d0, t0, d, t, 0)
  {
    FirstWrites(ring, stamp, backupPath, ids, d0, d, t, |t0|);
    WritesAreHeaded(ManifestPath(stamp), Manifest(stamp, backupPath, []), d0, t, |t0|);
  }

  /** The loop's states and those of the closing write. */
  lemma Closed(ring: Keyring, stamp: string, ids: seq<string>, m: Manifest, d0: Durable, t0: seq<Durable>,
               d1: Durable, t1: seq<Durable>, t: seq<Durable>)
    requires Progress(ring, true, stamp, m.backupPath, ids, d0, t0, d1, t1, |ids|) && m.createdAt == stamp
    requires t1 < t && OnlyReaches(ring, stamp, ids, d0, t, |t1|) && OnlyWrites(ManifestPath(stamp), m, d1, t, |t1|)
    ensures t0 <= t && OnlyReaches(ring, stamp, ids, d0, t, |t0|)
    ensures AllHeaded(ManifestPath(stamp), stamp, m.backupPath, d0.disk, t, |t0|)
  {
    ReachesJoin(ring, stamp, ids, d0, t0, t1, t);
    WritesAreHeaded(ManifestPath(stamp), m, d1, t, |t1|);
    HeadsJoin(ManifestPath(stamp), stamp, m.backupPath, d0.disk, d1.disk, |t0|, t1, t);
  }

  lemma ReachesJoin(ring: Keyring, stamp: string, ids: seq<string>, d0: Durable, t0: seq<Durable>, t1: seq<Durable>,
                    t2: seq<Durable>)
    requires t0 <= t1 <= t2 && OnlyReaches(ring, stamp, ids, d0, t1, |t0|) && OnlyReaches(ring, stamp, ids, d0, t2, |t1|)
    ensures t0 <= t2 && OnlyReaches(ring, stamp, ids, d0, t2, |t0|)
  {
  }

  lemma HitInCells(hits: seq<Hit>, h: nat)
    requires h < |hits| && Ordered(hits)
    ensures CellsOf(hits[..h + 1]) == CellsOf(hits[..h]) + HitCells(hits[h])
    ensures CellsOf(hits[..h]) !! HitCells(hits[h])
    ensures HitCells(hits[h]) <= CellsOf(hits)
  {
  }

  lemma HitsAreSealable(keys: set<Key>, ts: Tables, owner: string)
    ensures Sealable(TenantHits(keys, ts, owner), ts)
  {
    HitsOrdered(keys, ts, owner, |ts|);
    forall c | c in CellsOf(TenantHits(keys, ts, owner)) ensures Has(ts, c) && At(ts, c).Some? {
      HitsExact(keys, ts, owner, |ts|, c);
    }
  }

  /** Announced, encrypted and committed: one more owner is done. */
  lemma OwnerCommitted(ring: Keyring, stamp: string, ids: seq<string>, k: nat, m: Manifest, d0: Durable, d1: Durable,
                       d2: Durable, d3: Durable)
    requires k < |ids| && Ascending(ids)
    requires Standing(ring, stamp, ids, d0, d1, k)
    requires TenantHits(ring.Keys(), d1.tables, ids[k]) == TenantHits(ring.Keys(), d0.tables, ids[k])
    requires m.affected == Listing(ring.Keys(), d0.tables, ids[..k + 1])
    requires d2.tables == d1.tables && d2.audit == d1.audit
    requires SameFiles(d1.disk, d2.disk, {ManifestPath(stamp), TempPath(ManifestPath(stamp))})
    requires ManifestPath(stamp) in d2.disk && d2.disk[ManifestPath(stamp)] == Whole(m)
    requires d3.disk == d2.disk && SealedExactly(ring, TenantHits(ring.Keys(), d1.tables, ids[k]), d2.tables, d3.tables)
    requires d3.audit == d2.audit + AuditOf(ids[k], TenantHits(ring.Keys(), d1.tables, ids[k]))
    ensures Standing(ring, stamp, ids, d0, d3, k + 1)
  {
    assert Passing(ring, stamp, ids, d0, d1, k);
    assert Encrypted(ring, d0.tables, d3.tables, SetOf(ids[..k + 1])) by {
      OwnerEncrypted(ring, ids, k, d0.tables, d1.tables, d3.tables);
    }
    assert d3.audit == d0.audit + AuditTrail(ring.Keys(), d0.tables, ids[..k + 1]) by {
      OneMoreOwner(ring.Keys(), d0.tables, ids, k);
    }
    assert SameFiles(d0.disk, d3.disk, {ManifestPath(stamp), TempPath(ManifestPath(stamp))}) by {
      SameFilesJoin(d0.disk, d1.disk, d3.disk, {ManifestPath(stamp), TempPath(ManifestPath(stamp))});
    }
    NowStanding(ring, stamp, ids, d0, d3, k + 1);
  }

  lemma SameFilesJoin(a: Disk, b: Disk, c: Disk, except: set<string>)
    requires SameFiles(a, b, except) && SameFiles(b, c, except)
    ensures SameFiles(a, c, except)
  {
  }

  /** `d2` and `t2` are what a write of `m` after `d1` and `t1` may lead to. */
  ghost predicate Announcing(path: string, m: Manifest, d1: Durable, d2: Durable, t1: seq<Durable>, t2: seq<Durable>) {
    && t1 < t2 && OnlyWrites(path, m, d1, t2, |t1|) && t2[|t2| - 1] == d2
    && d2.tables == d1.tables && d2.audit == d1.audit && SameFiles(d1.disk, d2.disk, {path, TempPath(path)})
    && path in d2.disk && d2.disk[path] == Whole(m)
  }

  /** Everything that one turn for an owner has written: nothing, or the manifest and then the commit. */
  lemma OwnerRepaired(ring: Keyring, stamp: string, ids: seq<string>, k: nat, m: Manifest, hits: seq<Hit>, d0: Durable,
                      d1: Durable, d2: Durable, d3: Durable, t1: seq<Durable>, t2: seq<Durable>, t3: seq<Durable>)
    requires k < |ids| && Ascending(ids) && Standing(ring, stamp, ids, d0, d1, k)
    requires hits == TenantHits(ring.Keys(), d1.tables, ids[k]) == TenantHits(ring.Keys(), d0.tables, ids[k])
    requires m.affected == Listing(ring.Keys(), d0.tables, ids[..k + 1]) && m.createdAt == stamp
    requires if hits == [] then d3 == d1 && t3 == t1
             else && Announcing(ManifestPath(stamp), m, d1, d2, t1, t2) && t3 == t2 + [d3] && d3.disk == d2.disk
                  && SealedExactly(ring, hits, d2.tables, d3.tables) && d3.audit == d2.audit + AuditOf(ids[k], hits)
    ensures Standing(ring, stamp, ids, d0, d3, k + 1)
    ensures t1 <= t3 && OnlyReaches(ring, stamp, ids, d0, t3, |t1|)
    ensures AllHeaded(ManifestPath(stamp), stamp, m.backupPath, d1.disk, t3, |t1|)
  {
    if hits == [] {
      OwnerClean(ring, stamp, ids, k, d0, d1);
    } else {
      OwnerCommitted(ring, stamp, ids, k, m, d0, d1, d2, d3);
      AllReach(ring, stamp, ids, k, m, d0, d1, t1, t2, t3);
      CommitIsHeaded(ManifestPath(stamp), m, d1, t1, t2, d2, t3);
    }
  }

  lemma NowStanding(ring: Keyring, stamp: string, ids: seq<string>, before: Durable, d: Durable, k: nat)
    requires k <= |ids| && Encrypted(ring, before.tables, d.tables, SetOf(ids[..k]))
    requires d.audit == before.audit + AuditTrail(ring.Keys(), before.tables, ids[..k])
    requires SameFiles(before.disk, d.disk, {ManifestPath(stamp), TempPath(ManifestPath(stamp))})
    requires ListsFirst(ring.Keys(), before.tables, ids, ManifestPath(stamp), d.disk, k)
    ensures Standing(ring, stamp, ids, before, d, k)
  {
  }

  lemma OneMoreOwner(keys: set<Key>, ts: Tables, ids: seq<string>, k: nat)
    requires k < |ids|
    ensures AuditTrail(keys, ts, ids[..k + 1]) == AuditTrail(keys, ts, ids[..k]) + AuditOf(ids[k], TenantHits(keys, ts, ids[k]))
    ensures Listing(keys, ts, ids[..k + 1]) == Listing(keys, ts, ids[..k]) + Entries(ids[k], TenantHits(keys, ts, ids[k]))
  {
    assert ids[..k + 1][..k] == ids[..k];
  }

  /** The list and the sums of the first `k` owners. */
  ghost predicate Reported(keys: set<Key>, ts: Tables, ids: seq<string>, k: nat, affected: seq<Entry>, states: Totals,
                           encrypted: nat)
    requires k <= |ids|
  {
    affected == Listing(keys, ts, ids[..k]) && states == Tally(keys, ts, ids[..k]) && encrypted == states.plaintext
  }

  lemma OneMoreReported(keys: set<Key>, ts: Tables, ids: seq<string>, k: nat, affected: seq<Entry>, states: Totals,
                        encrypted: nat)
    requires k < |ids| && Reported(keys, ts, ids, k, affected, states, encrypted)
    ensures var hits := TenantHits(keys, ts, ids[k]);
            Reported(keys, ts, ids, k + 1, affected + Entries(ids[k], hits),
                     states.Plus(States(keys, ts, ids[k], |ts|)), encrypted + FieldTotal(hits))
  {
    OneMoreOwner(keys, ts, ids, k);
    OneMoreTally(keys, ts, ids, k);
  }

  lemma OneMoreTally(keys: set<Key>, ts: Tables, ids: seq<string>, k: nat)
    requires k < |ids|
    ensures Tally(keys, ts, ids[..k + 1]) == Tally(keys, ts, ids[..k]).Plus(States(keys, ts, ids[k], |ts|))
    ensures States(keys, ts, ids[k], |ts|).plaintext == FieldTotal(TenantHits(keys, ts, ids[k]))
  {
    assert ids[..k + 1][..k] == ids[..k];
    TallyOfHits(keys, ts, ids[k], |ts|);
  }

  lemma OwnerEncrypted(ring: Keyring, ids: seq<string>, k: nat, start: Tables, now: Tables, next: Tables)
    requires k < |ids| && Ascending(ids) && Encrypted(ring, start, now, SetOf(ids[..k]))
    requires SealedExactly(ring, TenantHits(ring.Keys(), now, ids[k]), now, next)
    ensures Encrypted(ring, start, next, SetOf(ids[..k + 1]))
  {
    forall c ensures c in CellsOf(TenantHits(ring.Keys(), now, ids[k])) <==> Exposed(ring.Keys(), now, ids[k], c) {
      HitsExact(ring.Keys(), now, ids[k], |now|, c);
    }
    TenantDone(ring, ids, k, start, now, next);
  }

  /** An owner with nothing exposed counts as done at once. */
  lemma OwnerClean(ring: Keyring, stamp: string, ids: seq<string>, k: nat, d0: Durable, d1: Durable)
    requires k < |ids| && Ascending(ids)
    requires Standing(ring, stamp, ids, d0, d1, k)
    requires TenantHits(ring.Keys(), d1.tables, ids[k]) == TenantHits(ring.Keys(), d0.tables, ids[k]) == []
    ensures Standing(ring, stamp, ids, d0, d1, k + 1)
  {
    OwnerEncrypted(ring, ids, k, d0.tables, d1.tables, d1.tables);
    OneMoreOwner(ring.Keys(), d0.tables, ids, k);
    assert Entries(ids[k], []) == [] && AuditOf(ids[k], []) == [];
    NowStanding(ring, stamp, ids, d0, d1, k + 1);
  }

  lemma AllReach(ring: Keyring, stamp: string, ids: seq<string>, k: nat, m: Manifest, d0: Durable, d1: Durable,
                 t1: seq<Durable>, t2: seq<Durable>, t3: seq<Durable>)
    requires k < |ids| && Standing(ring, stamp, ids, d0, d1, k)
    requires m.affected == Listing(ring.Keys(), d0.tables, ids[..k + 1])
    requires t1 <= t2 && OnlyWrites(ManifestPath(stamp), m, d1, t2, |t1|)
    requires t2 <= t3 && |t3| == |t2| + 1 && Standing(ring, stamp, ids, d0, t3[|t2|], k + 1)
    ensures t1 <= t3 && OnlyReaches(ring, stamp, ids, d0, t3, |t1|)
  {
    forall i | |t1| <= i < |t3| ensures Reaches(ring, stamp, ids, d0, t3[i]) {
      if i < |t2| {
        NextWrite(ring, stamp, ids, k, m, d0, d1, t2[i]);
        assert Passing(ring, stamp, ids, d0, t3[i], k);
      } else {
        assert Passing(ring, stamp, ids, d0, t3[i], k + 1);
      }
    }
  }

  lemma FirstWrite(ring: Keyring, stamp: string, backupPath: string, ids: seq<string>, before: Durable, d: Durable)
    requires Writing(ManifestPath(stamp), Manifest(stamp, backupPath, []), before, d)
    ensures Passing(ring, stamp, ids, before, d, 0)
  {
  }

  lemma FirstWrites(ring: Keyring, stamp: string, backupPath: string, ids: seq<string>, before: Durable, d: Durable,
                    trace: seq<Durable>, n: nat)
    requires OnlyWrites(ManifestPath(stamp), Manifest(stamp, backupPath, []), before, trace, n)
    requires n < |trace| && d == trace[|trace| - 1]
    requires ManifestPath(stamp) in d.disk && d.disk[ManifestPath(stamp)] == Whole(Manifest(stamp, backupPath, []))
    ensures OnlyReaches(ring, stamp, ids, before, trace, n)
    ensures Standing(ring, stamp, ids, before, d, 0)
  {
    assert ids[..0] == [];
    forall i | n <= i < |trace| ensures Reaches(ring, stamp, ids, before, trace[i]) {
      FirstWrite(ring, stamp, backupPath, ids, before, trace[i]);
      assert Passing(ring, stamp, ids, before, trace[i], 0);
    }
    FirstWrite(ring, stamp, backupPath, ids, before, d);
  }

  /** While an owner's rows are being announced, the run still counts as standing before that owner. */
  lemma NextWrite(ring: Keyring, stamp: string, ids: seq<string>, k: nat, m: Manifest, before: Durable, now: Durable,
                  d: Durable)
    requires k < |ids| && Passing(ring, stamp, ids, before, now, k)
    requires ListsFirst(ring.Keys(), before.tables, ids, ManifestPath(stamp), now.disk, k)
    requires m.affected == Listing(ring.Keys(), before.tables, ids[..k + 1])
    requires Writing(ManifestPath(stamp), m, now, d)
    ensures Passing(ring, stamp, ids, before, d, k)
  {
  }

  lemma LastWrite(ring: Keyring, stamp: string, ids: seq<string>, m: Manifest, before: Durable, now: Durable, d: Durable)
    requires Passing(ring, stamp, ids, before, now, |ids|)
    requires ListsFirst(ring.Keys(), before.tables, ids, ManifestPath(stamp), now.disk, |ids|)
    requires m.affected == Listing(ring.Keys(), before.tables, ids[..|ids|])
    requires Writing(ManifestPath(stamp), m, now, d)
    ensures Passing(ring, stamp, ids, before, d, |ids|)
  {
  }

  lemma LastWrites(ring: Keyring, stamp: string, ids: seq<string>, m: Manifest, before: Durable, now: Durable, d: Durable,
                   trace: seq<Durable>, n: nat)
    requires Standing(ring, stamp, ids, before, now, |ids|)
    requires m.affected == Listing(ring.Keys(), before.tables, ids)
    requires OnlyWrites(ManifestPath(stamp), m, now, trace, n)
    requires n < |trace| && d == trace[|trace| - 1]
    requires ManifestPath(stamp) in d.disk && d.disk[ManifestPath(stamp)] == Whole(m)
    ensures OnlyReaches(ring, stamp, ids, before, trace, n)
    ensures Standing(ring, stamp, ids, before, d, |ids|)
  {
    assert ids[..|ids|] == ids;
    forall i | n <= i < |trace| ensures Reaches(ring, stamp, ids, before, trace[i]) {
      LastWrite(ring, stamp, ids, m, before, now, trace[i]);
      assert Passing(ring, stamp, ids, before, trace[i], |ids|);
    }
    LastWrite(ring, stamp, ids, m, before, now, d);
  }

  /** Commits for earlier owners do not change what the scan of the next owner finds. */
  lemma SameScan(ring: Keyring, ids: seq<string>, k: nat, start: Tables, now: Tables)
    requires k < |ids| && Ascending(ids)
    requires Encrypted(ring, start, now, SetOf(ids[..k]))
    ensures TenantHits(ring.Keys(), now, ids[k]) == TenantHits(ring.Keys(), start, ids[k])
    ensures States(ring.Keys(), now, ids[k], |now|) == States(ring.Keys(), start, ids[k], |start|)
  {
    AscendingIsDistinct(ids);
    HitsAgree(ring.Keys(), start, now, ids[k], |start|);
  }

  lemma TenantDone(ring: Keyring, ids: seq<string>, k: nat, start: Tables, now: Tables, next: Tables)
    requires k < |ids| && Ascending(ids)
    requires Encrypted(ring, start, now, SetOf(ids[..k]))
    requires SameShape(now, next)
    requires forall c | Has(now, c) ::
               if Exposed(ring.Keys(), now, ids[k], c) then Sealed(ring.current, At(now, c), At(next, c))
               else At(next, c) == At(now, c)
    ensures Encrypted(ring, start, next, SetOf(ids[..k + 1]))
  {
  }

  lemma {:induction false} RowTally(keys: set<Key>, cols: seq<Column>, n: nat)
    requires n <= |cols|
    ensures RowStates(keys, cols, n).plaintext == |RowHits(keys, cols, n)|
  {
    if n > 0 { RowTally(keys, cols, n - 1); }
  }

  lemma {:induction false} FieldsInBoth(a: seq<Hit>, b: seq<Hit>, n: nat)
    requires n <= |a| + |b|
    ensures FieldsIn(a + b, n) == if n <= |a| then FieldsIn(a, n) else FieldsIn(a, |a|) + FieldsIn(b, n - |a|)
  {
    if n > 0 { FieldsInBoth(a, b, n - 1); }
  }

  lemma FieldTotalAppend(a: seq<Hit>, b: seq<Hit>)
    ensures FieldTotal(a + b) == FieldTotal(a) + FieldTotal(b)
  {
    FieldsInBoth(a, b, |a| + |b|);
  }

  lemma HitsOfRowTally(keys: set<Key>, row: Row, tenant: string, t: nat, r: nat)
    ensures StatesOfRow(keys, row, tenant).plaintext == FieldTotal(HitsOfRow(keys, row, tenant, t, r))
  {
    RowTally(keys, row.cols, |row.cols|);
    var one := [Hit(t, r, RowHits(keys, row.cols, |row.cols|))];
    assert FieldTotal(one) == FieldsIn(one, 0) + |one[0].fields|;
  }

  lemma TalliesJoin(hits: seq<Hit>, more: seq<Hit>, states: Totals, others: Totals)
    requires states.plaintext == FieldTotal(hits) && others.plaintext == FieldTotal(more)
    ensures states.Plus(others).plaintext == FieldTotal(hits + more)
  {
    FieldTotalAppend(hits, more);
  }

  lemma {:induction false} TableTally(keys: set<Key>, rows: seq<Row>, tenant: string, t: nat, n: nat)
    requires n <= |rows|
    ensures TableStates(keys, rows, tenant, n).plaintext == FieldTotal(TableHits(keys, rows, tenant, t, n))
  {
    if n > 0 {
      var row := rows[n - 1];
      TableTally(keys, rows, tenant, t, n - 1);
      HitsOfRowTally(keys, row, tenant, t, n - 1);
      TalliesJoin(TableHits(keys, rows, tenant, t, n - 1), HitsOfRow(keys, row, tenant, t, n - 1),
                  TableStates(keys, rows, tenant, n - 1), StatesOfRow(keys, row, tenant));
    }
  }

  lemma LastTable(keys: set<Key>, ts: Tables, tenant: string, n: nat)
    returns (hits: seq<Hit>, more: seq<Hit>, states: Totals, others: Totals)
    requires 0 < n <= |ts|
    ensures hits == Hits(keys, ts, tenant, n - 1) && states == States(keys, ts, tenant, n - 1)
    ensures Hits(keys, ts, tenant, n) == hits + more && States(keys, ts, tenant, n) == states.Plus(others)
    ensures others.plaintext == FieldTotal(more)
  {
    hits, states := Hits(keys, ts, tenant, n - 1), States(keys, ts, tenant, n - 1);
    more := TableHits(keys, ts[n - 1], tenant, n - 1, |ts[n - 1]|);
    others := TableStates(keys, ts[n - 1], tenant, |ts[n - 1]|);
    TableTally(keys, ts[n - 1], tenant, n - 1, |ts[n - 1]|);
  }

  /** The number of fields reported as encrypted is the number classified as clear text. */
  lemma {:induction false} TallyOfHits(keys: set<Key>, ts: Tables, tenant: string, n: nat)
    requires n <= |ts|
    ensures States(keys, ts, tenant, n).plaintext == FieldTotal(Hits(keys, ts, tenant, n))
  {
    if n > 0 {
      TallyOfHits(keys, ts, tenant, n - 1);
      var hits, more, states, others := LastTable(keys, ts, tenant, n);
      TalliesJoin(hits, more, states, others);
    }
  }
}
