/** The database as the maintenance scripts see it: tables of rows with encrypted columns,
    a session over committed state, and a small file system. A row's position in its table
    stands for its primary key. */
module Store {
  import opened Wrappers
  import opened Encryption

  /** `tenant == ""` stands for a missing tenant id; `live` for `is_deleted == False`. */
  datatype Row = Row(tenant: string, live: bool, cols: seq<Column>)
  type Tables = seq<seq<Row>>
  datatype Cell = Cell(table: nat, row: nat, field: nat)

  predicate Has(ts: Tables, c: Cell) {
    c.table < |ts| && c.row < |ts[c.table]| && c.field < |ts[c.table][c.row].cols|
  }

  function RowOf(ts: Tables, c: Cell): Row
    requires Has(ts, c)
  {
    ts[c.table][c.row]
  }

  function At(ts: Tables, c: Cell): Column
    requires Has(ts, c)
  {
    ts[c.table][c.row].cols[c.field]
  }

  function Put(ts: Tables, c: Cell, v: Column): Tables
    requires Has(ts, c)
  {
    var row := ts[c.table][c.row];
    ts[c.table := ts[c.table][c.row := row.(cols := row.cols[c.field := v])]]
  }

  ghost predicate SameRow(a: Row, b: Row) {
    a.tenant == b.tenant && a.live == b.live && |a.cols| == |b.cols|
  }

  /** Same rows, same owners; only column values may differ. */
  ghost predicate SameShape(a: Tables, b: Tables) {
    && |a| == |b|
    && (forall t | 0 <= t < |a| :: |a[t]| == |b[t]|)
    && (forall t, r | 0 <= t < |a| && 0 <= r < |a[t]| :: SameRow(a[t][r], b[t][r]))
  }

  lemma PutAt(ts: Tables, c: Cell, v: Column)
    requires Has(ts, c)
    ensures SameShape(ts, Put(ts, c, v))
    ensures forall d :: Has(ts, d) <==> Has(Put(ts, c, v), d)
    ensures forall d | Has(ts, d) :: At(Put(ts, c, v), d) == if d == c then v else At(ts, d)
  {
  }

  lemma SameCells(a: Tables, b: Tables)
    requires SameShape(a, b)
    requires forall c | Has(a, c) :: At(a, c) == At(b, c)
    ensures a == b
  {
    forall t | 0 <= t < |a| ensures a[t] == b[t] {
      forall r | 0 <= r < |a[t]| ensures a[t][r] == b[t][r] {
        forall f | 0 <= f < |a[t][r].cols| ensures a[t][r].cols[f] == b[t][r].cols[f] {
          assert Has(a, Cell(t, r, f));
          assert At(a, Cell(t, r, f)) == At(b, Cell(t, r, f));
        }
      }
    }
  }

  // ---------------------------------------------------------------------------
  // Counting cells
  // ---------------------------------------------------------------------------

  /** All cells of the tables for which `p` holds. */
  ghost function CellsWhere(ts: Tables, p: Cell -> bool): set<Cell> { InTables(ts, p, |ts|) }

  ghost function InRow(p: Cell -> bool, t: nat, r: nat, n: nat): set<Cell> {
    set f | 0 <= f < n && p(Cell(t, r, f)) :: Cell(t, r, f)
  }

  ghost function InTable(rows: seq<Row>, p: Cell -> bool, t: nat, n: nat): set<Cell>
    requires n <= |rows|
  {
    set r, f | 0 <= r < n && 0 <= f < |rows[r].cols| && p(Cell(t, r, f)) :: Cell(t, r, f)
  }

  ghost function InTables(ts: Tables, p: Cell -> bool, n: nat): set<Cell>
    requires n <= |ts|
  {
    set t, r, f | 0 <= t < n && 0 <= r < |ts[t]| && 0 <= f < |ts[t][r].cols| && p(Cell(t, r, f)) :: Cell(t, r, f)
  }

  lemma OneMoreField(p: Cell -> bool, t: nat, r: nat, n: nat)
    ensures |InRow(p, t, r, n + 1)| == |InRow(p, t, r, n)| + if p(Cell(t, r, n)) then 1 else 0
  {
    if p(Cell(t, r, n)) {
      assert InRow(p, t, r, n + 1) == InRow(p, t, r, n) + {Cell(t, r, n)};
    } else {
      assert InRow(p, t, r, n + 1) == InRow(p, t, r, n);
    }
  }

  lemma Disjoint(a: set<Cell>, b: set<Cell>, all: set<Cell>)
    requires a !! b && all == a + b
    ensures |all| == |a| + |b|
  {
  }

  lemma OneMoreRow(rows: seq<Row>, p: Cell -> bool, t: nat, n: nat)
    requires n < |rows|
    ensures |InTable(rows, p, t, n + 1)| == |InTable(rows, p, t, n)| + |InRow(p, t, n, |rows[n].cols|)|
  {
    Disjoint(InTable(rows, p, t, n), InRow(p, t, n, |rows[n].cols|), InTable(rows, p, t, n + 1));
  }

  lemma OneMoreTable(ts: Tables, p: Cell -> bool, n: nat)
    requires n < |ts|
    ensures |InTables(ts, p, n + 1)| == |InTables(ts, p, n)| + |InTable(ts[n], p, n, |ts[n]|)|
  {
    Disjoint(InTables(ts, p, n), InTable(ts[n], p, n, |ts[n]|), InTables(ts, p, n + 1));
  }
}
