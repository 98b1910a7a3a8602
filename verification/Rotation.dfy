/** `flask rotate-encryption` (app.py:1023-1137): re-encrypt record by record, committing inside the loop.
    A commit flushes through the session guard (cms/models/__init__.py:4080-4099, 4834-4861), which seals
    whatever clear text a changed record still holds. */
module Rotation {
  import opened Wrappers
  import opened Encryption
  import opened Store
  import opened Repair

  datatype Job = Job(ring: Keyring, target: Key, targetValid: bool)

  datatype Verdict = Blank | Failed | Skipped | Rotated

  /** What the inner loop does with one value. */
  ghost function Judge(job: Job, v: Column): Verdict {
    if !Truthy(v) then Blank
    else if Open(job.ring.Keys(), v).Err? then Failed
    else if job.target == job.ring.current && v.value.key == job.ring.current then Skipped
    else if job.targetValid then Rotated
    else Failed
  }

  datatype Counts = Counts(reencrypted: nat, skipped: nat, failed: nat) {
    function Plus(o: Counts): Counts { Counts(reencrypted + o.reencrypted, skipped + o.skipped, failed + o.failed) }

    function Of(v: Verdict): nat {
      match v
      case Rotated => reencrypted
      case Skipped => skipped
      case Failed => failed
      case Blank => 0
    }

    function Total(): nat { reencrypted + skipped + failed }
  }

  const NOTHING := Counts(0, 0, 0)

  /** Empty values are not counted. */
  ghost function CountOf(job: Job, v: Column): Counts {
    match Judge(job, v)
    case Rotated => Counts(1, 0, 0)
    case Skipped => Counts(0, 1, 0)
    case Failed => Counts(0, 0, 1)
    case Blank => NOTHING
  }

  ghost function RowCounts(job: Job, cols: seq<Column>, n: nat): Counts
    requires n <= |cols|
  {
    if n == 0 then NOTHING else RowCounts(job, cols, n - 1).Plus(CountOf(job, cols[n - 1]))
  }

  ghost function RecordCounts(job: Job, row: Row): Counts {
    if row.live then RowCounts(job, row.cols, |row.cols|) else NOTHING
  }

  ghost function TableCounts(job: Job, rows: seq<Row>, n: nat): Counts
    requires n <= |rows|
  {
    if n == 0 then NOTHING else TableCounts(job, rows, n - 1).Plus(RecordCounts(job, rows[n - 1]))
  }

  ghost function AllCounts(job: Job, ts: Tables, n: nat): Counts
    requires n <= |ts|
  {
    if n == 0 then NOTHING else AllCounts(job, ts, n - 1).Plus(TableCounts(job, ts[n - 1], |ts[n - 1]|))
  }

  ghost predicate Dirty(job: Job, cols: seq<Column>) {
    exists f :: 0 <= f < |cols| && Judge(job, cols[f]) == Rotated
  }

  lemma {:induction false} DirtyMeansRotated(job: Job, cols: seq<Column>, n: nat)
    requires n <= |cols|
    ensures RowCounts(job, cols, n).reencrypted > 0 <==> exists f :: 0 <= f < n && Judge(job, cols[f]) == Rotated
  {
    if n > 0 { DirtyMeansRotated(job, cols, n - 1); }
  }

  ghost predicate SetByLoop(job: Job, v: Column, w: Column) {
    if Judge(job, v) == Rotated then Sealed(job.target, Open(job.ring.Keys(), v).value, w) else w == v
  }

  /** One value of a live record before the run and after the record's commit. */
  ghost predicate Committed(job: Job, dirty: bool, v: Column, w: Column) {
    if Judge(job, v) == Rotated then Sealed(job.target, Open(job.ring.Keys(), v).value, w)
    else if dirty && Classify(job.ring.Keys(), v) == Plaintext then Sealed(job.ring.current, v, w)
    else w == v
  }

  ghost predicate RotatedRow(job: Job, a: Row, b: Row) {
    && SameRow(a, b)
    && forall f | 0 <= f < |a.cols| :: Committed(job, Dirty(job, a.cols), a.cols[f], b.cols[f])
  }

  /** A token of one of the ring's keys that encloses text. */
  predicate Readable(ring: Keyring, v: Column) {
    v.Some? && v.value.Token? && (v.value.key == ring.current || v.value.key in ring.legacy) && v.value.payload.Utf8?
  }

  /** A readable token, unless the key is kept and it is of that key already. */
  predicate Replaceable(job: Job, v: Column) {
    && Readable(job.ring, v) && job.targetValid
    && !(job.target == job.ring.current && v.value.key == job.ring.current)
  }

  /** The same content under the target key. */
  predicate Replaced(job: Job, v: Column, w: Column) {
    && v.Some? && v.value.Token? && w.Some? && w.value.Token?
    && w.value.key == job.target && w.value.payload == v.value.payload
  }

  predicate Earlier(t: nat, r: nat, table: nat, row: nat) { t < table || (t == table && r < row) }

  ghost predicate RowAfter(job: Job, a: Row, b: Row, done: bool) {
    if a.live && done then RotatedRow(job, a, b) else b == a
  }

  /** Live rows before position (table, row) are rotated and committed; every other row is untouched. */
  ghost predicate RotatedUpTo(job: Job, a: Tables, b: Tables, table: nat, row: nat) {
    && |a| == |b|
    && (forall t | 0 <= t < |a| :: |a[t]| == |b[t]|)
    && forall t, r | 0 <= t < |a| && 0 <= r < |a[t]| :: RowAfter(job, a[t][r], b[t][r], Earlier(t, r, table, row))
  }

  ghost predicate Reaches(job: Job, a: Tables, b: Tables) {
    exists t: nat, r: nat :: RotatedUpTo(job, a, b, t, r)
  }

  ghost predicate OnlyReaches(job: Job, a: Tables, trace: seq<Tables>, n: nat) {
    forall i | n <= i < |trace| :: Reaches(job, a, trace[i])
  }

  /** The session guard on one value. */
  method EncryptIfPlaintext(ring: Keyring, v: Column) returns (w: Column)
    ensures if Classify(ring.Keys(), v) == Plaintext then Sealed(ring.current, v, w) else w == v
    ensures if ClearText(v) then w.Some? && w.value.Token? && w.value.key == ring.current && w.value.payload == Utf8(v.value)
            else w == v
  {
    if !Truthy(v) { return v; }
    var plain := Decrypt(ring, v);
    if plain.Ok? || CarriesMarker(v.value) { return v; }
    w := Encrypt(ring, v);
  }

  /** The session guard on a changed record. */
  method Guard(job: Job, ghost before: Row, row: Row) returns (out: Row)
    requires SameRow(before, row) && Dirty(job, before.cols)
    requires forall f | 0 <= f < |row.cols| :: SetByLoop(job, before.cols[f], row.cols[f])
    ensures RotatedRow(job, before, out)
  {
    var cols := row.cols;
    for f := 0 to |row.cols|
      invariant |cols| == |row.cols|
      invariant forall g | 0 <= g < f :: Committed(job, true, before.cols[g], cols[g])
      invariant forall g | f <= g < |cols| :: cols[g] == row.cols[g]
    {
      var w := EncryptIfPlaintext(job.ring, cols[f]);
      cols := cols[f := w];
    }
    out := row.(cols := cols);
  }

  /** The body of the field loop. */
  method RotateValue(job: Job, value: Column) returns (w: Column, counts: Counts)
    ensures SetByLoop(job, value, w)
    ensures counts == CountOf(job, value)
    ensures if Replaceable(job, value) then Replaced(job, value, w) && counts == Counts(1, 0, 0) else w == value
    ensures match value
            case None => counts == Counts(0, 0, 0)
            case Some(Plain(s)) => counts == if s == "" then Counts(0, 0, 0) else Counts(0, 0, 1)
            case Some(Token(key, _, _)) =>
              if !Readable(job.ring, value) then counts == Counts(0, 0, 1)
              else if key == job.ring.current && job.target == job.ring.current then counts == Counts(0, 1, 0)
              else counts == if job.targetValid then Counts(1, 0, 0) else Counts(0, 0, 1)
  {
    w := value;
    if !Truthy(value) { return w, Counts(0, 0, 0); }
    var decrypted := Decrypt(job.ring, value);
    if decrypted.Err? { return w, Counts(0, 0, 1); }
    var current := IsEncryptedWithCurrentKey(job.ring, value);
    if job.target == job.ring.current && current { return w, Counts(0, 1, 0); }
    if !job.targetValid { return w, Counts(0, 0, 1); }
    var nonce: nat := *;
    return Seal(job.target, nonce, decrypted.value), Counts(1, 0, 0);
  }

  method RotateFields(job: Job, row: Row) returns (out: Row, counts: Counts)
    ensures SameRow(row, out)
    ensures forall f | 0 <= f < |row.cols| :: SetByLoop(job, row.cols[f], out.cols[f])
    ensures counts == RowCounts(job, row.cols, |row.cols|)
  {
    counts := Counts(0, 0, 0);
    var cols := row.cols;
    for f := 0 to |row.cols|
      invariant |cols| == |row.cols|
      invariant forall g | 0 <= g < f :: SetByLoop(job, row.cols[g], cols[g])
      invariant forall g | f <= g < |cols| :: cols[g] == row.cols[g]
      invariant counts == RowCounts(job, row.cols, f)
    {
      var w, c := RotateValue(job, cols[f]);
      cols := cols[f := w];
      counts := counts.Plus(c);
    }
    out := row.(cols := cols);
  }

  /** From position (t, r) on, the session still holds the starting rows. */
  ghost predicate Pending(start: Tables, tables: Tables, t: nat, r: nat) {
    && |start| == |tables|
    && (forall i | 0 <= i < |start| :: |start[i]| == |tables[i]|)
    && (forall i, j | 0 <= i < |start| && 0 <= j < |start[i]| && !Earlier(i, j, t, r) :: tables[i][j] == start[i][j])
  }

  /** Everything committed since `before`, with the loops standing at (t, r). */
  ghost predicate Progress(job: Job, dryRun: bool, start: Tables, tables: Tables, committed: Tables, before: seq<Tables>,
                           trace: seq<Tables>, t: nat, r: nat)
  {
    if dryRun then committed == start && trace == before
    else committed == tables && RotatedUpTo(job, start, committed, t, r)
         && before <= trace && OnlyReaches(job, start, trace, |before|)
  }

  lemma StepRow(job: Job, start: Tables, tables: Tables, t: nat, r: nat, next: Tables)
    requires t < |start| && r < |start[t]| && Pending(start, tables, t, r)
    requires |next| == |tables| && |next[t]| == |tables[t]| && next == tables[t := tables[t][r := next[t][r]]]
    ensures Pending(start, next, t, r + 1)
    ensures RotatedUpTo(job, start, tables, t, r) && RowAfter(job, start[t][r], next[t][r], true) ==>
              RotatedUpTo(job, start, next, t, r + 1)
  {
  }

  /** A soft-deleted record is passed over. */
  lemma SkipRow(job: Job, start: Tables, tables: Tables, t: nat, r: nat)
    requires t < |start| && r < |start[t]| && Pending(start, tables, t, r) && !tables[t][r].live
    ensures Pending(start, tables, t, r + 1)
    ensures RotatedUpTo(job, start, tables, t, r) ==> RotatedUpTo(job, start, tables, t, r + 1)
  {
  }

  lemma StepTable(job: Job, start: Tables, tables: Tables, t: nat)
    requires t < |start| && Pending(start, tables, t, |start[t]|)
    ensures Pending(start, tables, t + 1, 0)
    ensures RotatedUpTo(job, start, tables, t, |start[t]|) ==> RotatedUpTo(job, start, tables, t + 1, 0)
  {
  }

  class Session {
    var tables: Tables
    var committed: Tables
    /** Every committed state since the session began. */
    ghost var trace: seq<Tables>

    constructor (ts: Tables)
      ensures tables == committed == ts && trace == [ts]
    {
      tables, committed, trace := ts, ts, [ts];
    }

    /** One record: rotate its fields, then commit if this model has re-encrypted anything so far. */
    method RotateRecord(job: Job, dryRun: bool, t: nat, r: nat, soFar: nat, ghost start: Tables, ghost before: seq<Tables>)
      returns (counts: Counts)
      requires t < |start| && r < |start[t]| && start[t][r].live
      requires Pending(start, tables, t, r)
      requires Progress(job, dryRun, start, tables, committed, before, trace, t, r)
      modifies this
      ensures counts == RowCounts(job, start[t][r].cols, |start[t][r].cols|)
      ensures Pending(start, tables, t, r + 1)
      ensures Progress(job, dryRun, start, tables, committed, before, trace, t, r + 1)
    {
      ghost var was := tables;
      var row := tables[t][r];
      var out;
      out, counts := RotateFields(job, row);
      DirtyMeansRotated(job, row.cols, |row.cols|);
      if counts.reencrypted > 0 && !dryRun {
        out := Guard(job, row, out);
      }
      tables := tables[t := tables[t][r := out]];
      StepRow(job, start, was, t, r, tables);
      if soFar + counts.reencrypted > 0 && !dryRun {
        committed := tables;
        trace := trace + [committed];
      } else if !dryRun {
        assert out.cols == row.cols;
        assert was[t] == tables[t];
        assert was == tables;
      }
    }

    /** All live records of one model. */
    method RotateTable(job: Job, dryRun: bool, t: nat, ghost start: Tables, ghost before: seq<Tables>)
      returns (counts: Counts)
      requires t < |start| && Pending(start, tables, t, 0)
      requires Progress(job, dryRun, start, tables, committed, before, trace, t, 0)
      modifies this
      ensures counts == TableCounts(job, start[t], |start[t]|)
      ensures Pending(start, tables, t + 1, 0)
      ensures Progress(job, dryRun, start, tables, committed, before, trace, t + 1, 0)
    {
      counts := Counts(0, 0, 0);
      var n := |tables[t]|;
      for r := 0 to n
        invariant Pending(start, tables, t, r)
        invariant counts == TableCounts(job, start[t], r)
        invariant Progress(job, dryRun, start, tables, committed, before, trace, t, r)
      {
        if tables[t][r].live {
          var c := RotateRecord(job, dryRun, t, r, counts.reencrypted, start, before);
          counts := counts.Plus(c);
        } else {
          SkipRow(job, start, tables, t, r);
        }
      }
      StepTable(job, start, tables, t);
    }

    /** The whole command. A dry run sets attributes in the session but commits nothing. */
    method Run(job: Job, dryRun: bool) returns (counts: Counts)
      requires committed == tables
      modifies this
      ensures counts == AllCounts(job, old(tables), |old(tables)|)
      ensures Progress(job, dryRun, old(tables), tables, committed, old(trace), trace, |old(tables)|, 0)
    {
      ghost var start, before := tables, trace;
      counts := Counts(0, 0, 0);
      var n := |tables|;
      for t := 0 to n
        invariant Pending(start, tables, t, 0)
        invariant counts == AllCounts(job, start, t)
        invariant Progress(job, dryRun, start, tables, committed, before, trace, t, 0)
      {
        var c := RotateTable(job, dryRun, t, start, before);
        counts := counts.Plus(c);
      }
    }
  }

  // ---------------------------------------------------------------------------
  // What a run keeps
  // ---------------------------------------------------------------------------

  ghost function RingAfter(job: Job): set<Key> { job.ring.Keys() + {job.target} }

  /** At every commit, wherever the run is cut off: what opened still opens to the same text under the
      target key and the old ring, clear text still reads the same, and unrecognized tokens have not moved. */
  lemma EveryCommitReadsTheSame(job: Job, a: Tables, b: Tables)
    requires Reaches(job, a, b)
    ensures SameShape(a, b)
    ensures forall c | Has(a, c) ::
              && Read(RingAfter(job), At(b, c)) == Read(RingAfter(job), At(a, c))
              && (Open(job.ring.Keys(), At(a, c)).Ok? ==> Open(RingAfter(job), At(b, c)) == Open(job.ring.Keys(), At(a, c)))
              && (Open(job.ring.Keys(), At(a, c)).Err? && Classify(job.ring.Keys(), At(a, c)) != Plaintext ==> At(b, c) == At(a, c))
              && (!RowOf(a, c).live ==> At(b, c) == At(a, c))
  {
  }

  /** Row by row, at the commit with the loops at (t, r), without reference to how a value is judged: in a live record
      before that position every readable token is replaced, and if there was one, the record's clear text is sealed
      with the current key; nothing else has moved. */
  lemma CommitExact(job: Job, a: Tables, b: Tables, t: nat, r: nat, c: Cell)
    requires RotatedUpTo(job, a, b, t, r) && Has(a, c)
    ensures Has(b, c)
    ensures var row, v, w := RowOf(a, c), At(a, c), At(b, c);
            if !(row.live && (c.table < t || (c.table == t && c.row < r))) then w == v
            else if Replaceable(job, v) then Replaced(job, v, w)
            else if ClearText(v) && exists u :: u in row.cols && Replaceable(job, u) then
              w.Some? && w.value.Token? && w.value.key == job.ring.current && w.value.payload == Utf8(v.value)
            else w == v
  {
    var row := RowOf(a, c);
    CellAfter(job, a, b, t, r, c);
    ClearTextIsPlaintext(job.ring.Keys(), At(a, c));
    forall v ensures Judge(job, v) == Rotated <==> Replaceable(job, v) {
    }
    assert Dirty(job, row.cols) <==> exists u :: u in row.cols && Replaceable(job, u);
  }

  /** Any number of runs of the same job, each cut off anywhere, change nobody's reading. */
  lemma {:induction false} InterruptedRunsReadTheSame(job: Job, states: seq<Tables>)
    requires states != [] && forall i | 0 <= i < |states| - 1 :: Reaches(job, states[i], states[i + 1])
    ensures SameShape(states[0], states[|states| - 1])
    ensures forall c | Has(states[0], c) ::
              Read(RingAfter(job), At(states[|states| - 1], c)) == Read(RingAfter(job), At(states[0], c))
  {
    if |states| > 1 {
      var n := |states| - 1;
      InterruptedRunsReadTheSame(job, states[..n]);
      var a, b, z := states[0], states[n - 1], states[n];
      assert Reaches(job, b, states[n - 1 + 1]);
      EveryCommitReadsTheSame(job, b, z);
      forall c | Has(a, c) ensures Read(RingAfter(job), At(z, c)) == Read(RingAfter(job), At(a, c)) {
        assert SameRow(a[c.table][c.row], b[c.table][c.row]);
        assert Has(b, c);
      }
      forall t, r | 0 <= t < |a| && 0 <= r < |a[t]| ensures SameRow(a[t][r], z[t][r]) {
        assert SameRow(a[t][r], b[t][r]) && SameRow(b[t][r], z[t][r]);
      }
    }
  }

  /** A live value before position (t, r) that the run re-encrypts. */
  ghost predicate RotatedBefore(job: Job, a: Tables, t: nat, r: nat) { exists c :: RotatedAt(job, a, t, r, c) }

  ghost predicate RotatedAt(job: Job, a: Tables, t: nat, r: nat, c: Cell) {
    Has(a, c) && RowOf(a, c).live && Earlier(c.table, c.row, t, r) && Judge(job, At(a, c)) == Rotated
  }

  /** Everything the old ring could open it still opens, to the same text. */
  ghost predicate OldRingReadsOn(job: Job, a: Tables, b: Tables)
    requires SameShape(a, b)
  {
    forall c | Has(a, c) && Open(job.ring.Keys(), At(a, c)).Ok? ::
      Open(job.ring.Keys(), At(b, c)) == Open(job.ring.Keys(), At(a, c))
  }

  /** What one position of the run does to a cell. */
  lemma CellAfter(job: Job, a: Tables, b: Tables, t: nat, r: nat, c: Cell)
    requires RotatedUpTo(job, a, b, t, r) && Has(a, c)
    ensures Has(b, c) && RowOf(b, c).live == RowOf(a, c).live
    ensures if RowOf(a, c).live && Earlier(c.table, c.row, t, r)
            then Committed(job, Dirty(job, RowOf(a, c).cols), At(a, c), At(b, c))
            else At(b, c) == At(a, c)
  {
    assert RowAfter(job, a[c.table][c.row], b[c.table][c.row], Earlier(c.table, c.row, t, r));
  }

  /** A run cut off at (t, r) leaves everything readable to those who hold only the old ring if and only if the
      target key is in that ring, or nothing has been re-encrypted yet. */
  lemma OldRingReadsOnIff(job: Job, a: Tables, b: Tables, t: nat, r: nat)
    requires RotatedUpTo(job, a, b, t, r)
    ensures SameShape(a, b)
    ensures OldRingReadsOn(job, a, b) <==> job.target in job.ring.Keys() || !RotatedBefore(job, a, t, r)
  {
    assert Reaches(job, a, b);
    EveryCommitReadsTheSame(job, a, b);
    forall c | Has(a, c)
      ensures Open(job.ring.Keys(), At(a, c)).Ok? ==>
        (Open(job.ring.Keys(), At(b, c)) == Open(job.ring.Keys(), At(a, c)) <==>
           job.target in job.ring.Keys() || !RotatedAt(job, a, t, r, c))
    {
      CellAfter(job, a, b, t, r, c);
    }
  }

  /** A freshly generated key and a run cut off after its first commit: the first value opens for nobody who does
      not hold the new key, although the old ring had opened it. */
  lemma FreshKeyLocksValuesAway(ring: Keyring, newKey: Key, p: Text)
    requires newKey !in ring.Keys() && p != Plain("")
    ensures var job := Job(ring, newKey, true);
            var v, w := Seal(ring.current, 0, Some(p)), Seal(newKey, 1, Some(p));
            var a, b := [[Row("t", true, [v]), Row("t", true, [v])]], [[Row("t", true, [w]), Row("t", true, [v])]];
            && RotatedUpTo(job, a, b, 0, 1) && Open(ring.Keys(), v) == Ok(Some(p))
            && forall keys: set<Key> | newKey !in keys :: Open(keys, w).Err?
  {
    var v := Seal(ring.current, 0, Some(p));
    assert Judge(Job(ring, newKey, true), [v][0]) == Rotated;
  }

  // ---------------------------------------------------------------------------
  // Counts
  // ---------------------------------------------------------------------------

  /** Cells of live records on which the run passes this verdict. */
  ghost predicate Judged(job: Job, ts: Tables, v: Verdict, c: Cell) {
    Has(ts, c) && RowOf(ts, c).live && Judge(job, At(ts, c)) == v
  }

  ghost function CellsJudged(job: Job, ts: Tables, v: Verdict): set<Cell> {
    set c | c in CellsWhere(ts, _ => true) && Judged(job, ts, v, c)
  }

  lemma {:induction false} RowCount(job: Job, cols: seq<Column>, v: Verdict, p: Cell -> bool, t: nat, r: nat, n: nat)
    requires v != Blank && n <= |cols| && forall f: nat | f < |cols| :: p(Cell(t, r, f)) <==> Judge(job, cols[f]) == v
    ensures RowCounts(job, cols, n).Of(v) == |InRow(p, t, r, n)|
  {
    if n > 0 {
      RowCount(job, cols, v, p, t, r, n - 1);
      OneMoreField(p, t, r, n - 1);
    }
  }

  lemma RecordCount(job: Job, ts: Tables, v: Verdict, p: Cell -> bool, t: nat, r: nat)
    requires v != Blank && t < |ts| && r < |ts[t]| && forall c :: p(c) <==> Judged(job, ts, v, c)
    ensures RecordCounts(job, ts[t][r]).Of(v) == |InRow(p, t, r, |ts[t][r].cols|)|
  {
    var row := ts[t][r];
    forall f: nat | f < |row.cols| ensures p(Cell(t, r, f)) <==> row.live && Judge(job, row.cols[f]) == v {
      assert Has(ts, Cell(t, r, f));
    }
    if row.live {
      RowCount(job, row.cols, v, p, t, r, |row.cols|);
    } else {
      assert InRow(p, t, r, |row.cols|) == {};
    }
  }

  lemma {:induction false} TableCount(job: Job, ts: Tables, v: Verdict, p: Cell -> bool, t: nat, n: nat)
    requires v != Blank && t < |ts| && n <= |ts[t]| && forall c :: p(c) <==> Judged(job, ts, v, c)
    ensures TableCounts(job, ts[t], n).Of(v) == |InTable(ts[t], p, t, n)|
  {
    if n > 0 {
      TableCount(job, ts, v, p, t, n - 1);
      RecordCount(job, ts, v, p, t, n - 1);
      OneMoreRow(ts[t], p, t, n - 1);
    }
  }

  lemma {:induction false} ModelCount(job: Job, ts: Tables, v: Verdict, p: Cell -> bool, n: nat)
    requires v != Blank && n <= |ts| && forall c :: p(c) <==> Judged(job, ts, v, c)
    ensures AllCounts(job, ts, n).Of(v) == |InTables(ts, p, n)|
  {
    if n > 0 {
      ModelCount(job, ts, v, p, n - 1);
      TableCount(job, ts, v, p, n - 1, |ts[n - 1]|);
      OneMoreTable(ts, p, n - 1);
    }
  }

  /** Each of the three counts is the number of values in live records with that verdict. */
  lemma CountsAreExact(job: Job, ts: Tables, v: Verdict)
    requires v != Blank
    ensures AllCounts(job, ts, |ts|).Of(v) == |CellsJudged(job, ts, v)|
  {
    var p := c => Judged(job, ts, v, c);
    ModelCount(job, ts, v, p, |ts|);
    assert CellsJudged(job, ts, v) == CellsWhere(ts, p);
  }

  /** A completed run with no failures: every non-empty live value opens under the target key alone,
      to exactly what the old ring read out of it, so every other key can be retired. */
  lemma CleanRunNeedsOnlyTheTarget(job: Job, a: Tables, b: Tables, c: Cell)
    requires RotatedUpTo(job, a, b, |a|, 0) && AllCounts(job, a, |a|).failed == 0
    requires Has(a, c) && RowOf(a, c).live && Truthy(At(a, c))
    ensures Has(b, c) && Open(job.ring.Keys(), At(a, c)).Ok?
    ensures Open({job.target}, At(b, c)) == Open(job.ring.Keys(), At(a, c))
  {
    NoFailuresIff(job, a);
    assert !Fails(job, a, c);
    assert RowAfter(job, a[c.table][c.row], b[c.table][c.row], Earlier(c.table, c.row, |a|, 0));
  }

  ghost function NonEmpty(ts: Tables): set<Cell> {
    set c | c in CellsWhere(ts, _ => true) && RowOf(ts, c).live && Truthy(At(ts, c))
  }

  lemma OneVerdict(job: Job, ts: Tables, c: Cell)
    ensures c in NonEmpty(ts) <==>
            c in CellsJudged(job, ts, Rotated) || c in CellsJudged(job, ts, Skipped) || c in CellsJudged(job, ts, Failed)
    ensures forall v | c in CellsJudged(job, ts, v) :: Has(ts, c) && v == Judge(job, At(ts, c))
  {
  }

  lemma ThreeParts(a: set<Cell>, b: set<Cell>, c: set<Cell>, all: set<Cell>)
    requires forall x :: x in all <==> x in a || x in b || x in c
    requires forall x :: !(x in a && x in b) && !(x in a && x in c) && !(x in b && x in c)
    ensures |all| == |a| + |b| + |c|
  {
    Disjoint(a, b, a + b);
    Disjoint(a + b, c, all);
  }

  lemma VerdictsPartition(job: Job, ts: Tables)
    ensures |NonEmpty(ts)| ==
            |CellsJudged(job, ts, Rotated)| + |CellsJudged(job, ts, Skipped)| + |CellsJudged(job, ts, Failed)|
  {
    var rotated, skipped, failed := CellsJudged(job, ts, Rotated), CellsJudged(job, ts, Skipped), CellsJudged(job, ts, Failed);
    forall c
      ensures c in NonEmpty(ts) <==> c in rotated || c in skipped || c in failed
      ensures !(c in rotated && c in skipped) && !(c in rotated && c in failed) && !(c in skipped && c in failed)
    {
      OneVerdict(job, ts, c);
    }
    ThreeParts(rotated, skipped, failed, NonEmpty(ts));
  }

  /** Re-encrypted, skipped and failed add up to the number of non-empty values in live records. */
  lemma CountsAddUp(job: Job, ts: Tables)
    ensures AllCounts(job, ts, |ts|).Total() == |NonEmpty(ts)|
  {
    var counts := AllCounts(job, ts, |ts|);
    CountsAreExact(job, ts, Rotated);
    CountsAreExact(job, ts, Skipped);
    CountsAreExact(job, ts, Failed);
    VerdictsPartition(job, ts);
  }

  ghost predicate Fails(job: Job, ts: Tables, c: Cell) { Judged(job, ts, Failed, c) }

  /** A run reports no failure if and only if no value of a live record fails. */
  lemma NoFailuresIff(job: Job, ts: Tables)
    ensures AllCounts(job, ts, |ts|).failed == 0 <==> forall c :: !Fails(job, ts, c)
  {
    CountsAreExact(job, ts, Failed);
    var failed := CellsJudged(job, ts, Failed);
    assert failed == {} <==> |failed| == 0;
    forall c ensures c in failed <==> Fails(job, ts, c) {
    }
  }

  /** A value that the first run has passed fails in the second exactly if the first has replaced it and the second
      cannot read the target key. */
  lemma FailsAgain(job: Job, a: Tables, b: Tables, t: nat, r: nat, c: Cell)
    requires RotatedUpTo(job, a, b, t, r) && Has(a, c) && !Fails(job, a, c)
    ensures Fails(job, b, c) <==> job.target !in job.ring.Keys() && RotatedAt(job, a, t, r, c)
  {
    CellAfter(job, a, b, t, r, c);
  }

  /** Run the same job again after a first run without failures was cut off at (t, r): the second run reports no
      failure if and only if the target key is in the ring, or the first had re-encrypted nothing. */
  lemma RerunMeetsItsOwnTokens(job: Job, a: Tables, b: Tables, t: nat, r: nat)
    requires RotatedUpTo(job, a, b, t, r) && AllCounts(job, a, |a|).failed == 0
    ensures AllCounts(job, b, |b|).failed == 0 <==> job.target in job.ring.Keys() || !RotatedBefore(job, a, t, r)
  {
    NoFailuresIff(job, a);
    NoFailuresIff(job, b);
    assert Reaches(job, a, b);
    EveryCommitReadsTheSame(job, a, b);
    forall c | Has(b, c) ensures Fails(job, b, c) <==> job.target !in job.ring.Keys() && RotatedAt(job, a, t, r, c) {
      assert SameRow(a[c.table][c.row], b[c.table][c.row]);
      FailsAgain(job, a, b, t, r, c);
    }
    if job.target !in job.ring.Keys() && RotatedBefore(job, a, t, r) {
      var c :| RotatedAt(job, a, t, r, c);
      assert Fails(job, b, c);
    }
  }
}
