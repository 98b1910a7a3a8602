/** What the repair protocol guarantees over crashed, repeated and completed passes. */
module RepairSafety {
  import opened Wrappers
  import opened Encryption
  import opened Ordering
  import opened Store
  import opened Repair
  import opened RepairProtocol

  ghost predicate Listed(affected: seq<Entry>, c: Cell) {
    exists i :: 0 <= i < |affected| && c in HitCells(affected[i].hit)
  }

  lemma EntriesList(owner: string, hits: seq<Hit>, c: Cell)
    ensures c in CellsOf(hits) <==> Listed(Entries(owner, hits), c)
  {
    CellsOfRows(hits, c);
    assert forall i | 0 <= i < |hits| :: Entries(owner, hits)[i].hit == hits[i];
  }

  /** A manifest names exactly the exposed cells of the owners it covers. */
  lemma {:induction false} ListingExact(keys: set<Key>, ts: Tables, ids: seq<string>, c: Cell)
    ensures Listed(Listing(keys, ts, ids), c) <==> Has(ts, c) && RowOf(ts, c).tenant in ids && Classify(keys, At(ts, c)) == Plaintext
  {
    if ids != [] {
      var id := ids[|ids| - 1];
      var init := Listing(keys, ts, ids[..|ids| - 1]);
      var last := Entries(id, TenantHits(keys, ts, id));
      ListingExact(keys, ts, ids[..|ids| - 1], c);
      EntriesList(id, TenantHits(keys, ts, id), c);
      HitsExact(keys, ts, id, |ts|, c);
      assert forall i | 0 <= i < |init| :: (init + last)[i] == init[i];
      assert forall i | 0 <= i < |last| :: (init + last)[|init| + i] == last[i];
      assert Listed(init + last, c) <==> Listed(init, c) || Listed(last, c);
      assert ids == ids[..|ids| - 1] + [id];
    }
  }

  ghost predicate NamedBy(disk: Disk, stamp: string, c: Cell) {
    var path := ManifestPath(stamp);
    path in disk && disk[path].Whole? && Listed(disk[path].manifest.affected, c)
  }

  lemma ChangedIsListed(ring: Keyring, stamp: string, ids: seq<string>, before: Durable, d: Durable, k: nat, c: Cell)
    requires k <= |ids| && Passing(ring, stamp, ids, before, d, k)
    requires Has(before.tables, c) && At(d.tables, c) != At(before.tables, c)
    ensures NamedBy(d.disk, stamp, c)
  {
    assert RowOf(before.tables, c).tenant in ids[..k];
    ListingExact(ring.Keys(), before.tables, ids[..k], c);
    if k < |ids| {
      assert ids[..k + 1] == ids[..k] + [ids[k]];
      ListingExact(ring.Keys(), before.tables, ids[..k + 1], c);
    }
  }

  /** Wherever a run is cut off, each field it has changed is already named in its durable manifest. */
  lemma CrashLeavesARecord(ring: Keyring, stamp: string, ids: seq<string>, before: Durable, d: Durable)
    requires Reaches(ring, stamp, ids, before, d)
    ensures SameShape(before.tables, d.tables)
    ensures forall c | Has(before.tables, c) && At(d.tables, c) != At(before.tables, c) :: NamedBy(d.disk, stamp, c)
  {
    var k :| 0 <= k <= |ids| && Passing(ring, stamp, ids, before, d, k);
    forall c | Has(before.tables, c) && At(d.tables, c) != At(before.tables, c) ensures NamedBy(d.disk, stamp, c) {
      ChangedIsListed(ring, stamp, ids, before, d, k, c);
    }
  }

  ghost predicate NoTornManifest(disk: Disk) {
    forall s :: ManifestPath(s) in disk ==> disk[ManifestPath(s)].Whole?
  }

  lemma OwnManifestIsWhole(ring: Keyring, stamp: string, ids: seq<string>, before: Durable, d: Durable, k: nat)
    requires NoTornManifest(before.disk) && k <= |ids| && Passing(ring, stamp, ids, before, d, k)
    requires ManifestPath(stamp) in d.disk
    ensures d.disk[ManifestPath(stamp)].Whole?
  {
    PathsDiffer(stamp, stamp);
  }

  lemma OtherManifestIsWhole(ring: Keyring, stamp: string, ids: seq<string>, before: Durable, d: Durable, k: nat, s: string)
    requires NoTornManifest(before.disk) && k <= |ids| && Passing(ring, stamp, ids, before, d, k)
    requires s != stamp && ManifestPath(s) in d.disk
    ensures d.disk[ManifestPath(s)].Whole?
  {
    PathsDiffer(stamp, s);
    PathsDiffer(s, stamp);
  }

  /** At no point of a run is any manifest file a torn one. */
  lemma ManifestsAreNeverTorn(ring: Keyring, stamp: string, ids: seq<string>, before: Durable, d: Durable)
    requires NoTornManifest(before.disk) && Reaches(ring, stamp, ids, before, d)
    ensures NoTornManifest(d.disk)
  {
    var k :| 0 <= k <= |ids| && Passing(ring, stamp, ids, before, d, k);
    forall s | ManifestPath(s) in d.disk ensures d.disk[ManifestPath(s)].Whole? {
      if s == stamp {
        OwnManifestIsWhole(ring, stamp, ids, before, d, k);
      } else {
        OtherManifestIsWhole(ring, stamp, ids, before, d, k, s);
      }
    }
  }

  // ---------------------------------------------------------------------------
  // Any number of passes, each cut off anywhere
  // ---------------------------------------------------------------------------

  /** Each column is as it was, or is its owned clear text sealed once. */
  ghost predicate SealedAtMostOnce(ring: Keyring, a: Tables, b: Tables) {
    && SameShape(a, b)
    && forall c | Has(a, c) ::
         || At(b, c) == At(a, c)
         || (Classify(ring.Keys(), At(a, c)) == Plaintext && RowOf(a, c).tenant != "" && Sealed(ring.current, At(a, c), At(b, c)))
  }

  datatype Pass = Pass(stamp: string, ids: seq<string>)

  /** `ds[i + 1]` is some durable state of a pass started from `ds[i]`: where it crashed, or where it ended. */
  ghost predicate Chain(ring: Keyring, passes: seq<Pass>, ds: seq<Durable>) {
    && |ds| == |passes| + 1
    && forall i | 0 <= i < |passes| ::
         IsTenantList(passes[i].ids, ds[i].tables) && Reaches(ring, passes[i].stamp, passes[i].ids, ds[i], ds[i + 1])
  }

  lemma PassSealsAtMostOnce(ring: Keyring, stamp: string, ids: seq<string>, before: Durable, d: Durable)
    requires IsTenantList(ids, before.tables) && Reaches(ring, stamp, ids, before, d)
    ensures SealedAtMostOnce(ring, before.tables, d.tables)
  {
    var k :| 0 <= k <= |ids| && Passing(ring, stamp, ids, before, d, k);
    assert forall x | x in SetOf(ids[..k]) :: x in ids;
    assert "" !in Owners(before.tables);
  }

  /** Over any sequence of crashed and repeated passes no field is encrypted twice, every field still reads
      as it did at the start, and ciphertext, unrecognized, empty and unowned fields have not moved. */
  lemma {:induction false} PassesAreSafe(ring: Keyring, passes: seq<Pass>, ds: seq<Durable>)
    requires Chain(ring, passes, ds)
    ensures SealedAtMostOnce(ring, ds[0].tables, ds[|passes|].tables)
    ensures forall c | Has(ds[0].tables, c) ::
              Read(ring.Keys(), At(ds[|passes|].tables, c)) == Read(ring.Keys(), At(ds[0].tables, c))
    decreases |passes|
  {
    if passes != [] {
      var n := |passes| - 1;
      PassesAreSafe(ring, passes[..n], ds[..n + 1]);
      PassSealsAtMostOnce(ring, passes[n].stamp, passes[n].ids, ds[n], ds[n + 1]);
      var a, b, z := ds[0].tables, ds[n].tables, ds[n + 1].tables;
      forall c | Has(a, c)
        ensures At(z, c) == At(a, c)
                || (Classify(ring.Keys(), At(a, c)) == Plaintext && RowOf(a, c).tenant != "" && Sealed(ring.current, At(a, c), At(z, c)))
        ensures Read(ring.Keys(), At(z, c)) == Read(ring.Keys(), At(a, c))
      {
        assert SameRow(a[c.table][c.row], b[c.table][c.row]);
        assert Has(b, c);
      }
      assert SameShape(a, z) by {
        forall t, r | 0 <= t < |a| && 0 <= r < |a[t]| ensures SameRow(a[t][r], z[t][r]) {
          assert SameRow(a[t][r], b[t][r]) && SameRow(b[t][r], z[t][r]);
        }
      }
    }
  }

  lemma OwnerIsListed(ts: Tables, c: Cell)
    requires Has(ts, c) && RowOf(ts, c).tenant != ""
    ensures RowOf(ts, c).tenant in Owners(ts)
  {
    assert ts[c.table] in ts && RowOf(ts, c) in ts[c.table];
  }

  /** After one completed pass no owned field is clear text, and a further pass changes neither data nor audit. */
  lemma CompletedPassIsFinal(ring: Keyring, stamp: string, ids: seq<string>, before: Durable, d: Durable,
                             stamp': string, ids': seq<string>, d': Durable)
    requires IsTenantList(ids, before.tables) && Standing(ring, stamp, ids, before, d, |ids|)
    requires IsTenantList(ids', d.tables) && Reaches(ring, stamp', ids', d, d')
    ensures forall c | Has(d.tables, c) && RowOf(d.tables, c).tenant != "" :: Classify(ring.Keys(), At(d.tables, c)) != Plaintext
    ensures d'.tables == d.tables && d'.audit == d.audit
  {
    assert ids[..|ids|] == ids;
    forall c | Has(d.tables, c) && RowOf(d.tables, c).tenant != ""
      ensures Classify(ring.Keys(), At(d.tables, c)) != Plaintext
    {
      assert SameRow(before.tables[c.table][c.row], d.tables[c.table][c.row]);
      assert Has(before.tables, c);
      OwnerIsListed(before.tables, c);
    }
    PassSealsAtMostOnce(ring, stamp', ids', d, d');
    assert "" !in ids';
    SameCells(d.tables, d'.tables);
    var k :| 0 <= k <= |ids'| && Passing(ring, stamp', ids', d, d', k);
    NothingToAudit(ring.Keys(), d.tables, ids'[..k]);
  }

  lemma {:induction false} NothingToAudit(keys: set<Key>, ts: Tables, ids: seq<string>)
    requires "" !in ids
    requires forall c | Has(ts, c) && RowOf(ts, c).tenant != "" :: Classify(keys, At(ts, c)) != Plaintext
    ensures AuditTrail(keys, ts, ids) == []
  {
    if ids != [] {
      var id := ids[|ids| - 1];
      NothingToAudit(keys, ts, ids[..|ids| - 1]);
      var hits := TenantHits(keys, ts, id);
      if hits != [] {
        HitsNonEmpty(keys, ts, id, |ts|);
        var c := Cell(hits[0].table, hits[0].row, hits[0].fields[0]);
        EntriesList(id, hits, c);
        assert Entries(id, hits)[0].hit == hits[0] && c in HitCells(hits[0]);
        HitsExact(keys, ts, id, |ts|, c);
      }
    }
  }

  // ---------------------------------------------------------------------------
  // Manifests of several passes. The file name carries the start time to the second.
  // ---------------------------------------------------------------------------

  /** Every field changed since `first` is named by some manifest other than those in `without`. */
  ghost predicate Covered(first: Tables, d: Durable, without: set<string>) {
    && SameShape(first, d.tables)
    && forall c | Has(first, c) && At(d.tables, c) != At(first, c) :: exists s :: s !in without && NamedBy(d.disk, s, c)
  }

  /** A pass touches no manifest but its own. */
  lemma OtherManifestsStay(ring: Keyring, stamp: string, ids: seq<string>, before: Durable, d: Durable, s: string, c: Cell)
    requires Reaches(ring, stamp, ids, before, d) && s != stamp
    ensures NamedBy(d.disk, s, c) <==> NamedBy(before.disk, s, c)
  {
    PathsDiffer(s, stamp);
    PathsDiffer(stamp, s);
  }

  /** When a pass has ended, its manifest names exactly the owned cells that were clear text when it began. */
  lemma FinalManifestNames(ring: Keyring, stamp: string, ids: seq<string>, before: Durable, d: Durable, c: Cell)
    requires IsTenantList(ids, before.tables) && Standing(ring, stamp, ids, before, d, |ids|)
    ensures NamedBy(d.disk, stamp, c) <==>
      Has(before.tables, c) && RowOf(before.tables, c).tenant != "" && Classify(ring.Keys(), At(before.tables, c)) == Plaintext
  {
    assert ids[..|ids|] == ids;
    ListingExact(ring.Keys(), before.tables, ids, c);
    if Has(before.tables, c) && RowOf(before.tables, c).tenant != "" { OwnerIsListed(before.tables, c); }
  }

  /** When a later pass has ended, every change since `first` is on record if and only if it had been on record
      without the manifest this pass has overwritten. */
  lemma RerunKeepsTheRecord(ring: Keyring, first: Tables, stamp: string, ids: seq<string>, before: Durable, d: Durable)
    requires SealedAtMostOnce(ring, first, before.tables) && IsTenantList(ids, before.tables)
    requires Standing(ring, stamp, ids, before, d, |ids|)
    ensures Covered(first, d, {}) <==> Covered(first, before, {stamp})
  {
    assert Reaches(ring, stamp, ids, before, d);
    CrashLeavesARecord(ring, stamp, ids, before, d);
    StillSameShape(first, before.tables, d.tables);
    if Covered(first, before, {stamp}) {
      CoverageCarriesOver(ring, first, stamp, ids, before, d);
    }
    if Covered(first, d, {}) {
      forall c | Has(first, c) && At(before.tables, c) != At(first, c)
        ensures exists s :: s !in {stamp} && NamedBy(before.disk, s, c)
      {
        EarlierChangesStay(ring, first, stamp, ids, before, d, c);
        var s :| s !in {} && NamedBy(d.disk, s, c);
        OtherManifestsStay(ring, stamp, ids, before, d, s, c);
      }
    }
  }

  /** What was sealed before a pass is still changed after it, and not named by its manifest. */
  lemma EarlierChangesStay(ring: Keyring, first: Tables, stamp: string, ids: seq<string>, before: Durable, d: Durable, c: Cell)
    requires SealedAtMostOnce(ring, first, before.tables) && IsTenantList(ids, before.tables)
    requires Standing(ring, stamp, ids, before, d, |ids|)
    requires Has(first, c) && Has(before.tables, c) && At(before.tables, c) != At(first, c)
    ensures Has(d.tables, c) && At(d.tables, c) == At(before.tables, c) && !NamedBy(d.disk, stamp, c)
  {
    FinalManifestNames(ring, stamp, ids, before, d, c);
    CrashLeavesARecord(ring, stamp, ids, before, d);
  }

  lemma StillSameShape(a: Tables, b: Tables, z: Tables)
    requires SameShape(a, b) && SameShape(b, z)
    ensures SameShape(a, z)
    ensures forall c | Has(a, c) :: Has(b, c) && Has(z, c)
  {
    forall t, r | 0 <= t < |a| && 0 <= r < |a[t]| ensures SameRow(a[t][r], z[t][r]) && SameRow(a[t][r], b[t][r]) {
      assert SameRow(a[t][r], b[t][r]) && SameRow(b[t][r], z[t][r]);
    }
  }

  lemma CoverageCarriesOver(ring: Keyring, first: Tables, stamp: string, ids: seq<string>, before: Durable, d: Durable)
    requires SealedAtMostOnce(ring, first, before.tables) && IsTenantList(ids, before.tables)
    requires Covered(first, before, {stamp}) && Reaches(ring, stamp, ids, before, d)
    ensures Covered(first, d, {})
  {
    CrashLeavesARecord(ring, stamp, ids, before, d);
    StillSameShape(first, before.tables, d.tables);
    forall c | Has(first, c) && At(d.tables, c) != At(first, c) ensures exists s :: s !in {} && NamedBy(d.disk, s, c) {
      if At(before.tables, c) != At(first, c) {
        var s :| s !in {stamp} && NamedBy(before.disk, s, c);
        OtherManifestsStay(ring, stamp, ids, before, d, s, c);
      } else {
        assert NamedBy(d.disk, stamp, c);
      }
    }
  }

  /** With a fresh file name for every pass, all changes since the first pass stay on record throughout. */
  lemma {:induction false} FreshStampsKeepTheRecord(ring: Keyring, passes: seq<Pass>, ds: seq<Durable>)
    requires Chain(ring, passes, ds)
    requires forall i | 0 <= i < |passes| :: ManifestPath(passes[i].stamp) !in ds[i].disk
    ensures Covered(ds[0].tables, ds[|passes|], {})
    decreases |passes|
  {
    if passes != [] {
      var n := |passes| - 1;
      FreshStampsKeepTheRecord(ring, passes[..n], ds[..n + 1]);
      PassesAreSafe(ring, passes[..n], ds[..n + 1]);
      var first, before, stamp := ds[0].tables, ds[n], passes[n].stamp;
      forall c | Has(first, c) && At(before.tables, c) != At(first, c)
        ensures exists s :: s !in {stamp} && NamedBy(before.disk, s, c)
      {
        var s :| s !in {} && NamedBy(before.disk, s, c);
        assert s !in {stamp};
      }
      CoverageCarriesOver(ring, first, stamp, passes[n].ids, before, ds[n + 1]);
    }
  }

  lemma PassChangesExposed(ring: Keyring, stamp: string, ids: seq<string>, before: Durable, d: Durable, c: Cell)
    requires IsTenantList(ids, before.tables) && Standing(ring, stamp, ids, before, d, |ids|)
    requires Has(before.tables, c) && RowOf(before.tables, c).tenant != "" && Classify(ring.Keys(), At(before.tables, c)) == Plaintext
    ensures Has(d.tables, c) && At(d.tables, c) != At(before.tables, c)
  {
    OwnerIsListed(before.tables, c);
    assert ids[..|ids|] == ids;
    assert RowOf(before.tables, c).tenant in SetOf(ids);
    SealingIsSafe(ring, At(before.tables, c), At(d.tables, c));
  }

  /** Two passes that both run to their end within one second: every field the first has changed is named by its
      manifest and no longer by the second's, so nothing names it unless some other manifest already did. */
  lemma SameSecondErasesTheRecord(ring: Keyring, stamp: string, ids: seq<string>, before: Durable, done: Durable,
                                  ids': seq<string>, again: Durable, c: Cell)
    requires IsTenantList(ids, before.tables) && Standing(ring, stamp, ids, before, done, |ids|)
    requires IsTenantList(ids', done.tables) && Standing(ring, stamp, ids', done, again, |ids'|)
    requires Has(before.tables, c) && RowOf(before.tables, c).tenant != "" && Classify(ring.Keys(), At(before.tables, c)) == Plaintext
    ensures Has(again.tables, c) && At(again.tables, c) != At(before.tables, c)
    ensures NamedBy(done.disk, stamp, c) && !NamedBy(again.disk, stamp, c)
    ensures (exists s :: NamedBy(again.disk, s, c)) <==> exists s :: s != stamp && NamedBy(before.disk, s, c)
  {
    assert Reaches(ring, stamp, ids, before, done) && Reaches(ring, stamp, ids', done, again);
    FinalManifestNames(ring, stamp, ids, before, done, c);
    PassSealsAtMostOnce(ring, stamp, ids, before, done);
    PassChangesExposed(ring, stamp, ids, before, done, c);
    EarlierChangesStay(ring, before.tables, stamp, ids', done, again, c);
    forall s | s != stamp ensures NamedBy(again.disk, s, c) <==> NamedBy(before.disk, s, c) {
      OtherManifestsStay(ring, stamp, ids, before, done, s, c);
      OtherManifestsStay(ring, stamp, ids', done, again, s, c);
    }
  }
}
