/** What a pass of the repair script amounts to, cell by cell: the data it leaves, its totals, its audit entries and its
    manifest (scripts/repair_encrypted_subject_fields.py:89-210). */
module RepairOutcome {
  import opened Wrappers
  import opened Encryption
  import opened Ordering
  import opened Store
  import opened Repair
  import opened RepairProtocol

  // ---------------------------------------------------------------------------
  // Data
  // ---------------------------------------------------------------------------

  /** When a pass has ended, the clear text of every row with an owner is a token of the current key for that text, and
      every other value, of owned rows or not, is what it was. */
  lemma CompletedPassSealsClearText(ring: Keyring, stamp: string, ids: seq<string>, before: Durable, d: Durable, c: Cell)
    requires IsTenantList(ids, before.tables) && Standing(ring, stamp, ids, before, d, |ids|) && Has(before.tables, c)
    ensures SameShape(before.tables, d.tables)
    ensures var v, w := At(before.tables, c), At(d.tables, c);
            if RowOf(before.tables, c).tenant != "" && ClearText(v)
            then w.Some? && w.value.Token? && w.value.key == ring.current && w.value.payload == Utf8(v.value)
            else w == v
  {
    assert ids[..|ids|] == ids;
    ClearTextIsPlaintext(ring.Keys(), At(before.tables, c));
    if RowOf(before.tables, c).tenant != "" {
      assert before.tables[c.table] in before.tables && RowOf(before.tables, c) in before.tables[c.table];
    } else {
      assert "" !in Owners(before.tables);
    }
  }

  // ---------------------------------------------------------------------------
  // Totals
  // ---------------------------------------------------------------------------

  lemma {:induction false} RowStatesCount(keys: set<Key>, cols: seq<Column>, p: Cell -> bool, t: nat, r: nat, n: nat,
                                          state: FieldState)
    requires n <= |cols| && forall f: nat | f < |cols| :: p(Cell(t, r, f)) <==> Classify(keys, cols[f]) == state
    ensures RowStates(keys, cols, n).Of(state) == |InRow(p, t, r, n)|
  {
    if n > 0 {
      RowStatesCount(keys, cols, p, t, r, n - 1, state);
      OneMoreField(p, t, r, n - 1);
    }
  }

  /** `p` singles out the owner's cells in this state. */
  ghost predicate Selects(keys: set<Key>, ts: Tables, tenant: string, state: FieldState, p: Cell -> bool) {
    forall c | Has(ts, c) :: p(c) <==> RowOf(ts, c).tenant == tenant && Classify(keys, At(ts, c)) == state
  }

  lemma StatesOfRowCount(keys: set<Key>, ts: Tables, tenant: string, state: FieldState, p: Cell -> bool, t: nat, r: nat)
    requires t < |ts| && r < |ts[t]| && Selects(keys, ts, tenant, state, p)
    ensures StatesOfRow(keys, ts[t][r], tenant).Of(state) == |InRow(p, t, r, |ts[t][r].cols|)|
  {
    forall f: nat | f < |ts[t][r].cols|
      ensures p(Cell(t, r, f)) <==> ts[t][r].tenant == tenant && Classify(keys, ts[t][r].cols[f]) == state
    {
      assert Has(ts, Cell(t, r, f));
    }
    if ts[t][r].tenant == tenant {
      RowStatesCount(keys, ts[t][r].cols, p, t, r, |ts[t][r].cols|, state);
    } else {
      assert InRow(p, t, r, |ts[t][r].cols|) == {};
    }
  }

  lemma {:induction false} TableStatesCount(keys: set<Key>, ts: Tables, tenant: string, state: FieldState, p: Cell -> bool,
                                            t: nat, n: nat)
    requires t < |ts| && n <= |ts[t]| && Selects(keys, ts, tenant, state, p)
    ensures TableStates(keys, ts[t], tenant, n).Of(state) == |InTable(ts[t], p, t, n)|
  {
    if n > 0 {
      TableStatesCount(keys, ts, tenant, state, p, t, n - 1);
      StatesOfRowCount(keys, ts, tenant, state, p, t, n - 1);
      OneMoreRow(ts[t], p, t, n - 1);
    }
  }

  lemma {:induction false} StatesCount(keys: set<Key>, ts: Tables, tenant: string, state: FieldState, p: Cell -> bool, n: nat)
    requires n <= |ts| && Selects(keys, ts, tenant, state, p)
    ensures States(keys, ts, tenant, n).Of(state) == |InTables(ts, p, n)|
  {
    if n > 0 {
      StatesCount(keys, ts, tenant, state, p, n - 1);
      TableStatesCount(keys, ts, tenant, state, p, n - 1, |ts[n - 1]|);
      OneMoreTable(ts, p, n - 1);
    }
  }

  ghost predicate InState(keys: set<Key>, ts: Tables, ids: seq<string>, state: FieldState, c: Cell) {
    Has(ts, c) && RowOf(ts, c).tenant in ids && Classify(keys, At(ts, c)) == state
  }

  /** The cells of the listed owners in one state. */
  ghost function CellsIn(keys: set<Key>, ts: Tables, ids: seq<string>, state: FieldState): set<Cell> {
    set c | c in CellsWhere(ts, _ => true) && InState(keys, ts, ids, state, c)
  }

  lemma CellsInExact(keys: set<Key>, ts: Tables, ids: seq<string>, state: FieldState, c: Cell)
    ensures c in CellsIn(keys, ts, ids, state) <==> InState(keys, ts, ids, state, c)
  {
  }

  lemma OwnerCount(keys: set<Key>, ts: Tables, owner: string, state: FieldState)
    ensures States(keys, ts, owner, |ts|).Of(state) == |CellsIn(keys, ts, [owner], state)|
  {
    var p := c => InState(keys, ts, [owner], state, c);
    StatesCount(keys, ts, owner, state, p, |ts|);
    assert CellsIn(keys, ts, [owner], state) == CellsWhere(ts, p);
  }

  lemma OneMoreOwnersCells(keys: set<Key>, ts: Tables, init: seq<string>, last: string, state: FieldState)
    requires last !in init
    ensures |CellsIn(keys, ts, init + [last], state)| == |CellsIn(keys, ts, init, state)| + |CellsIn(keys, ts, [last], state)|
  {
    var a, b, all := CellsIn(keys, ts, init, state), CellsIn(keys, ts, [last], state), CellsIn(keys, ts, init + [last], state);
    forall c
      ensures c in all <==> c in a || c in b
      ensures !(c in a && c in b)
    {
      CellsInExact(keys, ts, init, state, c);
      CellsInExact(keys, ts, [last], state, c);
      CellsInExact(keys, ts, init + [last], state, c);
    }
    Disjoint(a, b, all);
  }

  /** Each total is the number of cells of the listed owners in that state: none is left out, none counted twice. */
  lemma {:induction false} TallyCounts(keys: set<Key>, ts: Tables, ids: seq<string>, state: FieldState)
    requires Ascending(ids)
    ensures Tally(keys, ts, ids).Of(state) == |CellsIn(keys, ts, ids, state)|
  {
    if ids == [] {
      assert CellsIn(keys, ts, ids, state) == {};
    } else {
      var init, last := ids[..|ids| - 1], ids[|ids| - 1];
      TallyCounts(keys, ts, init, state);
      OwnerCount(keys, ts, last, state);
      AscendingIsDistinct(ids);
      assert ids == init + [last] && last !in init;
      OneMoreOwnersCells(keys, ts, init, last, state);
    }
  }

  // ---------------------------------------------------------------------------
  // Audit entries and manifest
  // ---------------------------------------------------------------------------

  ghost function FirstCells(h: Hit, n: nat): set<Cell>
    requires n <= |h.fields|
  {
    set i | 0 <= i < n :: Cell(h.table, h.row, h.fields[i])
  }

  lemma {:induction false} FieldsSoFar(h: Hit, n: nat)
    requires n <= |h.fields| && Increasing(h.fields)
    ensures |FirstCells(h, n)| == n
  {
    if n == 0 {
      assert FirstCells(h, 0) == {};
    } else {
      FieldsSoFar(h, n - 1);
      var c := Cell(h.table, h.row, h.fields[n - 1]);
      Disjoint(FirstCells(h, n - 1), {c}, FirstCells(h, n));
    }
  }

  lemma FieldsAreDistinct(h: Hit)
    requires Increasing(h.fields)
    ensures |HitCells(h)| == |h.fields|
  {
    FieldsSoFar(h, |h.fields|);
    assert HitCells(h) == FirstCells(h, |h.fields|);
  }

  lemma {:induction false} FieldsCount(hits: seq<Hit>, n: nat)
    requires n <= |hits| && Ordered(hits)
    ensures |CellsOf(hits[..n])| == FieldsIn(hits, n)
  {
    if n == 0 {
      assert CellsOf(hits[..0]) == {};
    } else {
      FieldsCount(hits, n - 1);
      OneMoreHit(hits, n - 1);
    }
  }

  lemma OneMoreHit(hits: seq<Hit>, k: nat)
    requires k < |hits| && Ordered(hits)
    ensures |CellsOf(hits[..k + 1])| == |CellsOf(hits[..k])| + |hits[k].fields|
  {
    HitInCells(hits, k);
    FieldsAreDistinct(hits[k]);
    Disjoint(CellsOf(hits[..k]), HitCells(hits[k]), CellsOf(hits[..k + 1]));
  }

  ghost function RowsOf(hits: seq<Hit>): set<(nat, nat)> { set h | h in hits :: (h.table, h.row) }

  lemma {:induction false} RowsCount(hits: seq<Hit>, n: nat)
    requires n <= |hits| && Ordered(hits)
    ensures |RowsOf(hits[..n])| == n
  {
    if n == 0 {
      assert RowsOf(hits[..0]) == {};
    } else {
      RowsCount(hits, n - 1);
      RowIsNew(hits, n - 1);
      assert hits[..n] == hits[..n - 1] + [hits[n - 1]];
      assert RowsOf(hits[..n]) == RowsOf(hits[..n - 1]) + {(hits[n - 1].table, hits[n - 1].row)};
    }
  }

  lemma RowIsNew(hits: seq<Hit>, k: nat)
    requires k < |hits| && Ordered(hits)
    ensures (hits[k].table, hits[k].row) !in RowsOf(hits[..k])
  {
    forall h | h in hits[..k] ensures Before(h, hits[k]) {
      var i :| 0 <= i < k && hits[i] == h;
    }
  }

  /** Rows of these cells. */
  ghost function Positions(cells: set<Cell>): set<(nat, nat)> { set c | c in cells :: (c.table, c.row) }

  lemma HitsArePositions(hits: seq<Hit>)
    requires forall h | h in hits :: h.fields != []
    ensures Positions(CellsOf(hits)) == RowsOf(hits)
  {
    forall h | h in hits ensures (h.table, h.row) in Positions(CellsOf(hits)) {
      assert Cell(h.table, h.row, h.fields[0]) in CellsOf(hits);
    }
  }

  lemma OwnerHits(keys: set<Key>, ts: Tables, owner: string)
    ensures var hits := TenantHits(keys, ts, owner);
            && CellsOf(hits) == CellsIn(keys, ts, [owner], Plaintext) && Ordered(hits)
            && forall h | h in hits :: h.fields != []
  {
    HitsOrdered(keys, ts, owner, |ts|);
    HitsNonEmpty(keys, ts, owner, |ts|);
    var hits := TenantHits(keys, ts, owner);
    forall c ensures c in CellsOf(hits) <==> c in CellsIn(keys, ts, [owner], Plaintext) {
      HitsExact(keys, ts, owner, |ts|, c);
      CellsInExact(keys, ts, [owner], Plaintext, c);
    }
  }

  /** What is written to the audit log for an owner: one entry exactly if there is clear text, with the number of its
      rows that hold any and the number of its clear-text fields. */
  lemma AuditCounts(keys: set<Key>, ts: Tables, owner: string)
    ensures var cells, entries := CellsIn(keys, ts, [owner], Plaintext), AuditOf(owner, TenantHits(keys, ts, owner));
            && (entries == [] <==> cells == {})
            && (cells != {} ==> |entries| == 1 && entries[0].tenant == owner
                                && entries[0].fields == |cells| && entries[0].rows == |Positions(cells)|)
  {
    var hits := TenantHits(keys, ts, owner);
    OwnerHits(keys, ts, owner);
    FieldsCount(hits, |hits|);
    RowsCount(hits, |hits|);
    HitsArePositions(hits);
    assert hits[..|hits|] == hits;
    if hits != [] {
      assert Cell(hits[0].table, hits[0].row, hits[0].fields[0]) in CellsOf(hits);
    }
  }

  /** The audit entries of a pass are those of the listed owners, one for each at most, in the owners' order. */
  lemma {:induction false} TrailExact(keys: set<Key>, ts: Tables, ids: seq<string>)
    requires Ascending(ids)
    ensures var trail := AuditTrail(keys, ts, ids);
            && (forall e :: e in trail <==> e.tenant in ids && AuditOf(e.tenant, TenantHits(keys, ts, e.tenant)) == [e])
            && forall i, j | 0 <= i < j < |trail| :: Less(trail[i].tenant, trail[j].tenant)
  {
    if ids != [] {
      var init, last := ids[..|ids| - 1], ids[|ids| - 1];
      TrailExact(keys, ts, init);
      assert ids == init + [last];
      var own := AuditOf(last, TenantHits(keys, ts, last));
      var before := AuditTrail(keys, ts, init);
      assert AuditTrail(keys, ts, ids) == before + own;
      forall e | e in before ensures Less(e.tenant, last) {
        var i :| 0 <= i < |init| && init[i] == e.tenant;
        assert Less(ids[i], ids[|ids| - 1]);
      }
      assert forall i | 0 <= i < |before| :: before[i] in before;
      AscendingIsDistinct(ids);
    }
  }

  /** A manifest entry names rows of its own owner, and only clear-text cells. */
  lemma {:induction false} EntriesNameTheirOwner(keys: set<Key>, ts: Tables, ids: seq<string>, i: nat)
    requires i < |Listing(keys, ts, ids)|
    ensures var e := Listing(keys, ts, ids)[i];
            e.tenant in ids && e.hit.fields != [] && HitCells(e.hit) <= CellsIn(keys, ts, [e.tenant], Plaintext)
  {
    var n := |ids| - 1;
    var init := Listing(keys, ts, ids[..n]);
    if i < |init| {
      EntriesNameTheirOwner(keys, ts, ids[..n], i);
    } else {
      var hits := TenantHits(keys, ts, ids[n]);
      OwnerHits(keys, ts, ids[n]);
      assert Listing(keys, ts, ids)[i] == Entries(ids[n], hits)[i - |init|];
      assert hits[i - |init|] in hits;
    }
  }
}
