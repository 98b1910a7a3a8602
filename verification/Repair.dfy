/** The plaintext-at-rest repair script (scripts/repair_encrypted_subject_fields.py):
    a write-ahead protocol between a durable manifest and the database. */
module Repair {
  import opened Wrappers
  import opened Encryption
  import opened Ordering
  import opened Store

  // ---------------------------------------------------------------------------
  // Classification
  // ---------------------------------------------------------------------------

  datatype FieldState = Empty | Ciphertext | Plaintext | Unrecognized

  /** How many fields are in each state. */
  datatype Totals = Totals(empty: nat, ciphertext: nat, plaintext: nat, unrecognized: nat) {
    function Plus(o: Totals): Totals {
      Totals(empty + o.empty, ciphertext + o.ciphertext, plaintext + o.plaintext, unrecognized + o.unrecognized)
    }

    function Of(state: FieldState): nat {
      match state
      case Empty => empty
      case Ciphertext => ciphertext
      case Plaintext => plaintext
      case Unrecognized => unrecognized
    }
  }

  const NOTHING := Totals(0, 0, 0, 0)

  function One(state: FieldState): Totals {
    match state
    case Empty => Totals(1, 0, 0, 0)
    case Ciphertext => Totals(0, 1, 0, 0)
    case Plaintext => Totals(0, 0, 1, 0)
    case Unrecognized => Totals(0, 0, 0, 1)
  }

  /** Every token starts with the marker; clear text may happen to. */
  predicate CarriesMarker(t: Text) { t.Token? || "gAAAA" <= t.s }

  ghost function Classify(keys: set<Key>, v: Column): FieldState {
    if !Truthy(v) then Empty
    else if Open(keys, v).Ok? then Ciphertext
    else if CarriesMarker(v.value) then Unrecognized
    else Plaintext
  }

  method FieldStateOf(ring: Keyring, v: Column) returns (s: FieldState)
    ensures s == Classify(ring.Keys(), v)
    ensures match v
            case None => s == Empty
            case Some(Plain(t)) => s == if t == "" then Empty else if "gAAAA" <= t then Unrecognized else Plaintext
            case Some(Token(key, _, payload)) =>
              s == if (key == ring.current || key in ring.legacy) && payload.Utf8? then Ciphertext else Unrecognized
  {
    if !Truthy(v) { return Empty; }
    var plain := Decrypt(ring, v);
    if plain.Ok? { return Ciphertext; }
    return if CarriesMarker(v.value) then Unrecognized else Plaintext;
  }

  /** Text that is no token and does not look like one. */
  predicate ClearText(v: Column) { v.Some? && v.value.Plain? && v.value.s != "" && !("gAAAA" <= v.value.s) }

  lemma ClearTextIsPlaintext(keys: set<Key>, v: Column)
    ensures ClearText(v) <==> Classify(keys, v) == Plaintext
  {
  }

  /** Sealing clear text keeps what it reads as, and takes it out of reach of a later pass. */
  lemma SealingIsSafe(ring: Keyring, v: Column, w: Column)
    requires Classify(ring.Keys(), v) == Plaintext && Sealed(ring.current, v, w)
    ensures Read(ring.Keys(), w) == Read(ring.Keys(), v) == v
    ensures Classify(ring.Keys(), w) == Ciphertext && w != v
  {
  }

  // ---------------------------------------------------------------------------
  // What a scan finds
  // ---------------------------------------------------------------------------

  datatype Hit = Hit(table: nat, row: nat, fields: seq<nat>)

  ghost function RowHits(keys: set<Key>, cols: seq<Column>, n: nat): seq<nat>
    requires n <= |cols|
  {
    if n == 0 then []
    else RowHits(keys, cols, n - 1) + if Classify(keys, cols[n - 1]) == Plaintext then [n - 1] else []
  }

  ghost function HitsOfRow(keys: set<Key>, row: Row, tenant: string, t: nat, r: nat): seq<Hit> {
    var fields := RowHits(keys, row.cols, |row.cols|);
    if row.tenant == tenant && fields != [] then [Hit(t, r, fields)] else []
  }

  ghost function TableHits(keys: set<Key>, rows: seq<Row>, tenant: string, t: nat, n: nat): seq<Hit>
    requires n <= |rows|
  {
    if n == 0 then [] else TableHits(keys, rows, tenant, t, n - 1) + HitsOfRow(keys, rows[n - 1], tenant, t, n - 1)
  }

  ghost function Hits(keys: set<Key>, ts: Tables, tenant: string, n: nat): seq<Hit>
    requires n <= |ts|
  {
    if n == 0 then []
    else Hits(keys, ts, tenant, n - 1) + TableHits(keys, ts[n - 1], tenant, n - 1, |ts[n - 1]|)
  }

  ghost function RowStates(keys: set<Key>, cols: seq<Column>, n: nat): Totals
    requires n <= |cols|
  {
    if n == 0 then NOTHING else RowStates(keys, cols, n - 1).Plus(One(Classify(keys, cols[n - 1])))
  }

  ghost function StatesOfRow(keys: set<Key>, row: Row, tenant: string): Totals {
    if row.tenant == tenant then RowStates(keys, row.cols, |row.cols|) else NOTHING
  }

  ghost function TableStates(keys: set<Key>, rows: seq<Row>, tenant: string, n: nat): Totals
    requires n <= |rows|
  {
    if n == 0 then NOTHING else TableStates(keys, rows, tenant, n - 1).Plus(StatesOfRow(keys, rows[n - 1], tenant))
  }

  ghost function States(keys: set<Key>, ts: Tables, tenant: string, n: nat): Totals
    requires n <= |ts|
  {
    if n == 0 then NOTHING
    else States(keys, ts, tenant, n - 1).Plus(TableStates(keys, ts[n - 1], tenant, |ts[n - 1]|))
  }

  method ScanRow(ring: Keyring, cols: seq<Column>) returns (fields: seq<nat>, states: Totals)
    ensures fields == RowHits(ring.Keys(), cols, |cols|)
    ensures states == RowStates(ring.Keys(), cols, |cols|)
  {
    fields, states := [], NOTHING;
    for f := 0 to |cols|
      invariant fields == RowHits(ring.Keys(), cols, f)
      invariant states == RowStates(ring.Keys(), cols, f)
    {
      var state := FieldStateOf(ring, cols[f]);
      states := states.Plus(One(state));
      if state == Plaintext {
        fields := fields + [f];
      }
    }
  }

  method ScanTable(ring: Keyring, rows: seq<Row>, tenant: string, t: nat)
    returns (hits: seq<Hit>, states: Totals)
    ensures hits == TableHits(ring.Keys(), rows, tenant, t, |rows|)
    ensures states == TableStates(ring.Keys(), rows, tenant, |rows|)
  {
    hits, states := [], NOTHING;
    for r := 0 to |rows|
      invariant hits == TableHits(ring.Keys(), rows, tenant, t, r)
      invariant states == TableStates(ring.Keys(), rows, tenant, r)
    {
      ghost var more := HitsOfRow(ring.Keys(), rows[r], tenant, t, r);
      ghost var before := hits;
      if rows[r].tenant == tenant {
        var fields, rowStates := ScanRow(ring, rows[r].cols);
        states := states.Plus(rowStates);
        if fields != [] {
          hits := hits + [Hit(t, r, fields)];
        }
      }
      assert hits == before + more;
    }
  }

  method ScanTenant(ring: Keyring, ts: Tables, tenant: string) returns (hits: seq<Hit>, states: Totals)
    ensures hits == Hits(ring.Keys(), ts, tenant, |ts|)
    ensures states == States(ring.Keys(), ts, tenant, |ts|)
  {
    hits, states := [], NOTHING;
    for t := 0 to |ts|
      invariant hits == Hits(ring.Keys(), ts, tenant, t)
      invariant states == States(ring.Keys(), ts, tenant, t)
    {
      var tableHits, tableStates := ScanTable(ring, ts[t], tenant, t);
      hits, states := hits + tableHits, states.Plus(tableStates);
    }
  }

  ghost function HitCells(h: Hit): set<Cell> { set f | f in h.fields :: Cell(h.table, h.row, f) }

  ghost function CellsOf(hits: seq<Hit>): set<Cell> {
    set h, f | h in hits && f in h.fields :: Cell(h.table, h.row, f)
  }

  lemma CellsOfAppend(a: seq<Hit>, b: seq<Hit>)
    ensures CellsOf(a + b) == CellsOf(a) + CellsOf(b)
  {
  }

  /** A listed cell belongs to one of the rows. */
  lemma CellsOfRows(hits: seq<Hit>, c: Cell)
    ensures c in CellsOf(hits) <==> exists i :: 0 <= i < |hits| && c in HitCells(hits[i])
  {
  }

  /** The clear-text cells of one owner. */
  ghost predicate Exposed(keys: set<Key>, ts: Tables, tenant: string, c: Cell) {
    Has(ts, c) && RowOf(ts, c).tenant == tenant && Classify(keys, At(ts, c)) == Plaintext
  }

  ghost predicate Increasing(fields: seq<nat>) {
    forall i, j | 0 <= i < j < |fields| :: fields[i] < fields[j]
  }

  ghost predicate Before(a: Hit, b: Hit) { a.table < b.table || (a.table == b.table && a.row < b.row) }

  /** No row occurs twice in a list of hits, and no field twice in a row. */
  ghost predicate Ordered(hits: seq<Hit>) {
    && (forall i, j | 0 <= i < j < |hits| :: Before(hits[i], hits[j]))
    && (forall i | 0 <= i < |hits| :: Increasing(hits[i].fields))
  }

  lemma {:induction false} RowHitsExact(keys: set<Key>, cols: seq<Column>, n: nat)
    requires n <= |cols|
    ensures forall f: nat :: f in RowHits(keys, cols, n) <==> f < n && Classify(keys, cols[f]) == Plaintext
    ensures Increasing(RowHits(keys, cols, n))
  {
    if n > 0 {
      RowHitsExact(keys, cols, n - 1);
      var init := RowHits(keys, cols, n - 1);
      assert forall i | 0 <= i < |init| :: init[i] in init;
    }
  }

  lemma OrderedAppend(a: seq<Hit>, b: seq<Hit>, t: nat, r: nat)
    requires Ordered(a) && Ordered(b)
    requires forall h | h in a :: h.table < t || (h.table == t && h.row < r)
    requires forall h | h in b :: h.table > t || (h.table == t && h.row >= r)
    ensures Ordered(a + b)
  {
  }

  lemma HitsOfRowOrdered(keys: set<Key>, row: Row, tenant: string, t: nat, r: nat)
    ensures Ordered(HitsOfRow(keys, row, tenant, t, r))
    ensures forall h | h in HitsOfRow(keys, row, tenant, t, r) :: h.table == t && h.row == r
  {
    RowHitsExact(keys, row.cols, |row.cols|);
  }

  lemma {:induction false} TableHitsOrdered(keys: set<Key>, rows: seq<Row>, tenant: string, t: nat, n: nat)
    requires n <= |rows|
    ensures Ordered(TableHits(keys, rows, tenant, t, n))
    ensures forall h | h in TableHits(keys, rows, tenant, t, n) :: h.table == t && h.row < n
  {
    if n > 0 {
      TableHitsOrdered(keys, rows, tenant, t, n - 1);
      HitsOfRowOrdered(keys, rows[n - 1], tenant, t, n - 1);
      OrderedAppend(TableHits(keys, rows, tenant, t, n - 1), HitsOfRow(keys, rows[n - 1], tenant, t, n - 1), t, n - 1);
    }
  }

  /** What one row adds. */
  lemma HitsOfRowExact(keys: set<Key>, row: Row, tenant: string, t: nat, r: nat, c: Cell)
    ensures c in CellsOf(HitsOfRow(keys, row, tenant, t, r)) <==>
            c.table == t && c.row == r && row.tenant == tenant
            && c.field < |row.cols| && Classify(keys, row.cols[c.field]) == Plaintext
  {
    var fields := RowHits(keys, row.cols, |row.cols|);
    RowHitsExact(keys, row.cols, |row.cols|);
    assert c.field in fields ==> fields != [];
    CellsOfRows(HitsOfRow(keys, row, tenant, t, r), c);
  }

  lemma {:induction false} TableHitsExact(keys: set<Key>, ts: Tables, tenant: string, t: nat, n: nat, c: Cell)
    requires t < |ts| && n <= |ts[t]|
    ensures c in CellsOf(TableHits(keys, ts[t], tenant, t, n)) <==>
            c.table == t && c.row < n && Exposed(keys, ts, tenant, c)
  {
    if n > 0 {
      var rows := ts[t];
      TableHitsExact(keys, ts, tenant, t, n - 1, c);
      HitsOfRowExact(keys, rows[n - 1], tenant, t, n - 1, c);
      CellsOfAppend(TableHits(keys, rows, tenant, t, n - 1), HitsOfRow(keys, rows[n - 1], tenant, t, n - 1));
    }
  }

  lemma {:induction false} HitsOrdered(keys: set<Key>, ts: Tables, tenant: string, n: nat)
    requires n <= |ts|
    ensures Ordered(Hits(keys, ts, tenant, n))
    ensures forall h | h in Hits(keys, ts, tenant, n) :: h.table < n
  {
    if n > 0 {
      HitsOrdered(keys, ts, tenant, n - 1);
      TableHitsOrdered(keys, ts[n - 1], tenant, n - 1, |ts[n - 1]|);
      TablesOrdered(Hits(keys, ts, tenant, n - 1), TableHits(keys, ts[n - 1], tenant, n - 1, |ts[n - 1]|), n - 1);
    }
  }

  lemma TablesOrdered(init: seq<Hit>, last: seq<Hit>, t: nat)
    requires Ordered(init) && Ordered(last)
    requires (forall h | h in init :: h.table < t) && forall h | h in last :: h.table == t
    ensures Ordered(init + last) && forall h | h in init + last :: h.table <= t
  {
    assert forall i | 0 <= i < |init| :: init[i] in init;
    assert forall i | 0 <= i < |last| :: last[i] in last;
  }

  /** A scan finds exactly the owner's clear-text cells. */
  lemma {:induction false} HitsExact(keys: set<Key>, ts: Tables, tenant: string, n: nat, c: Cell)
    requires n <= |ts|
    ensures c in CellsOf(Hits(keys, ts, tenant, n)) <==> c.table < n && Exposed(keys, ts, tenant, c)
  {
    if n > 0 {
      HitsExact(keys, ts, tenant, n - 1, c);
      TableHitsExact(keys, ts, tenant, n - 1, |ts[n - 1]|, c);
      CellsOfAppend(Hits(keys, ts, tenant, n - 1), TableHits(keys, ts[n - 1], tenant, n - 1, |ts[n - 1]|));
    }
  }

  lemma {:induction false} TableHitsAgree(keys: set<Key>, a: seq<Row>, b: seq<Row>, tenant: string, t: nat, n: nat)
    requires n <= |a| == |b|
    requires forall r | 0 <= r < |a| :: a[r].tenant == b[r].tenant && (a[r].tenant == tenant ==> a[r].cols == b[r].cols)
    ensures TableHits(keys, a, tenant, t, n) == TableHits(keys, b, tenant, t, n)
    ensures TableStates(keys, a, tenant, n) == TableStates(keys, b, tenant, n)
  {
    if n > 0 { TableHitsAgree(keys, a, b, tenant, t, n - 1); }
  }

  lemma SameOwnRows(a: Tables, b: Tables, tenant: string, t: nat, r: nat)
    requires SameShape(a, b) && t < |a| && r < |a[t]|
    requires forall c | Has(a, c) && RowOf(a, c).tenant == tenant :: At(a, c) == At(b, c)
    ensures a[t][r].tenant == b[t][r].tenant && (a[t][r].tenant == tenant ==> a[t][r].cols == b[t][r].cols)
  {
    assert SameRow(a[t][r], b[t][r]);
    if a[t][r].tenant == tenant {
      var p, q := a[t][r].cols, b[t][r].cols;
      forall f | 0 <= f < |p| ensures p[f] == q[f] {
        var c := Cell(t, r, f);
        assert Has(a, c) && At(a, c) == At(b, c);
      }
    }
  }

  lemma OwnRowsAgree(a: Tables, b: Tables, tenant: string, t: nat)
    requires SameShape(a, b) && t < |a|
    requires forall c | Has(a, c) && RowOf(a, c).tenant == tenant :: At(a, c) == At(b, c)
    ensures |a[t]| == |b[t]|
    ensures forall r | 0 <= r < |a[t]| ::
              a[t][r].tenant == b[t][r].tenant && (a[t][r].tenant == tenant ==> a[t][r].cols == b[t][r].cols)
  {
    forall r | 0 <= r < |a[t]|
      ensures a[t][r].tenant == b[t][r].tenant && (a[t][r].tenant == tenant ==> a[t][r].cols == b[t][r].cols)
    {
      SameOwnRows(a, b, tenant, t, r);
    }
  }

  /** What a scan finds for an owner depends on that owner's rows alone. */
  lemma {:induction false} HitsAgree(keys: set<Key>, a: Tables, b: Tables, tenant: string, n: nat)
    requires n <= |a| && SameShape(a, b)
    requires forall c | Has(a, c) && RowOf(a, c).tenant == tenant :: At(a, c) == At(b, c)
    ensures Hits(keys, a, tenant, n) == Hits(keys, b, tenant, n)
    ensures States(keys, a, tenant, n) == States(keys, b, tenant, n)
  {
    if n > 0 {
      HitsAgree(keys, a, b, tenant, n - 1);
      OwnRowsAgree(a, b, tenant, n - 1);
      TableHitsAgree(keys, a[n - 1], b[n - 1], tenant, n - 1, |a[n - 1]|);
    }
  }

  lemma {:induction false} HitsNonEmpty(keys: set<Key>, ts: Tables, tenant: string, n: nat)
    requires n <= |ts|
    ensures forall h | h in Hits(keys, ts, tenant, n) :: h.fields != []
  {
    if n > 0 {
      HitsNonEmpty(keys, ts, tenant, n - 1);
      TableHitsNonEmpty(keys, ts[n - 1], tenant, n - 1, |ts[n - 1]|);
    }
  }

  lemma {:induction false} TableHitsNonEmpty(keys: set<Key>, rows: seq<Row>, tenant: string, t: nat, n: nat)
    requires n <= |rows|
    ensures forall h | h in TableHits(keys, rows, tenant, t, n) :: h.fields != []
  {
    if n > 0 { TableHitsNonEmpty(keys, rows, tenant, t, n - 1); }
  }
}
