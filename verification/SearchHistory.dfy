/** The search history and its archive (search_history.py:39-150). */
module SearchHistory {
  import opened Wrappers
  import opened Ordering
  import opened Calendar
  import opened IsoTime

  datatype Status = Unread | Read | Shelved

  datatype Entry = Entry(
    id: string, timestamp: string, tool: string, query: string, summary: string, count: int,
    status: Status, archived: bool, archivedAt: Option<string>
  )

  // ---------------------------------------------------------------------------
  // What the operations mean
  // ---------------------------------------------------------------------------

  /** Position of the first entry with this id, or the length when there is none. */
  function FirstWith(entries: seq<Entry>, id: string): (i: nat)
    ensures i <= |entries|
    ensures i < |entries| ==> entries[i].id == id
    ensures forall j | 0 <= j < i :: entries[j].id != id
  {
    if entries == [] || entries[0].id == id then 0 else FirstWith(entries[1..], id) + 1
  }

  /** Marked as archived at this time; what it is about stays. */
  function Shelve(e: Entry, now: DateTime): (s: Entry)
    ensures s.archived && s.archivedAt == Some(Iso(now)) && s.status == Shelved
    ensures ItemOf(s) == ItemOf(e) && s.summary == e.summary && s.count == e.count
  {
    e.(archived := true, archivedAt := Some(Iso(now)), status := Shelved)
  }

  /** Of the first `n` entries those not archived yet, each put in front of the one before it. */
  function ShelveAll(entries: seq<Entry>, n: nat, archive: seq<Entry>, now: DateTime): seq<Entry>
    requires n <= |entries|
  {
    if n == 0 then archive
    else
      var before := ShelveAll(entries, n - 1, archive, now);
      if entries[n - 1].archived then before else [Shelve(entries[n - 1], now)] + before
  }

  function AllRead(entries: seq<Entry>): (read: seq<Entry>)
    ensures |read| == |entries| && forall i | 0 <= i < |entries| :: read[i] == entries[i].(status := Read)
  {
    seq(|entries|, i requires 0 <= i < |entries| => entries[i].(status := Read))
  }

  /** Of the first `n` entries those whose timestamp does not sort before the cutoff, in their order. */
  function Kept(entries: seq<Entry>, n: nat, cutoff: string): seq<Entry>
    requires n <= |entries|
  {
    if n == 0 then []
    else
      var before := Kept(entries, n - 1, cutoff);
      if Less(entries[n - 1].timestamp, cutoff) then before else before + [entries[n - 1]]
  }

  function Dropped(entries: seq<Entry>, n: nat, cutoff: string): seq<Entry>
    requires n <= |entries|
  {
    if n == 0 then []
    else
      var before := Dropped(entries, n - 1, cutoff);
      if Less(entries[n - 1].timestamp, cutoff) then before + [entries[n - 1]] else before
  }

  // ---------------------------------------------------------------------------
  // Conservation
  // ---------------------------------------------------------------------------

  /** What an entry is about, whatever list it is in and whether it was read. */
  datatype Item = Item(id: string, tool: string, query: string, timestamp: string)

  function ItemOf(e: Entry): Item { Item(e.id, e.tool, e.query, e.timestamp) }

  function ItemList(entries: seq<Entry>): seq<Item> { seq(|entries|, i requires 0 <= i < |entries| => ItemOf(entries[i])) }

  function Items(entries: seq<Entry>): multiset<Item> { multiset(ItemList(entries)) }

  lemma ItemsInFront(e: Entry, entries: seq<Entry>)
    ensures Items([e] + entries) == multiset{ItemOf(e)} + Items(entries)
  {
    assert ItemList([e] + entries) == [ItemOf(e)] + ItemList(entries);
  }

  lemma ItemsAtEnd(entries: seq<Entry>, e: Entry)
    ensures Items(entries + [e]) == Items(entries) + multiset{ItemOf(e)}
  {
    assert ItemList(entries + [e]) == ItemList(entries) + [ItemOf(e)];
  }

  lemma ItemsWithout(entries: seq<Entry>, i: nat)
    requires i < |entries|
    ensures Items(entries) == Items(entries[..i] + entries[i + 1..]) + multiset{ItemOf(entries[i])}
  {
    var all := ItemList(entries);
    assert ItemList(entries[..i] + entries[i + 1..]) == all[..i] + all[i + 1..];
    assert all == all[..i] + [all[i]] + all[i + 1..];
  }

  lemma ItemsOfPrefix(entries: seq<Entry>, n: nat)
    requires 0 < n <= |entries|
    ensures Items(entries[..n]) == Items(entries[..n - 1]) + multiset{ItemOf(entries[n - 1])}
  {
    assert entries[..n] == entries[..n - 1] + [entries[n - 1]];
    ItemsAtEnd(entries[..n - 1], entries[n - 1]);
  }

  /** Stamped by a clock that shows years 1 to 9999. */
  ghost predicate Stamped(timestamp: string) { exists d :: Valid(d) && timestamp == Iso(d) }

  ghost predicate Sound(entries: seq<Entry>, archived: bool) {
    forall i | 0 <= i < |entries| :: entries[i].archived == archived && Stamped(entries[i].timestamp)
  }

  lemma ShelveKeepsItem(e: Entry, now: DateTime)
    ensures ItemOf(Shelve(e, now)) == ItemOf(e) && Shelve(e, now).archived
  {
  }

  lemma SoundInFront(e: Entry, entries: seq<Entry>, archived: bool)
    requires e.archived == archived && Stamped(e.timestamp) && Sound(entries, archived)
    ensures Sound([e] + entries, archived)
  {
  }

  lemma SoundWithout(entries: seq<Entry>, i: nat, archived: bool)
    requires i < |entries| && Sound(entries, archived)
    ensures Sound(entries[..i] + entries[i + 1..], archived)
  {
  }

  lemma ReadingKeepsItems(entries: seq<Entry>, archived: bool)
    requires Sound(entries, archived)
    ensures Sound(AllRead(entries), archived) && Items(AllRead(entries)) == Items(entries)
  {
    assert ItemList(AllRead(entries)) == ItemList(entries);
  }

  lemma {:induction false} ShelvedIsSound(entries: seq<Entry>, n: nat, archive: seq<Entry>, now: DateTime)
    requires n <= |entries| && Sound(entries, false) && Sound(archive, true)
    ensures Sound(ShelveAll(entries, n, archive, now), true)
  {
    if n > 0 {
      ShelvedIsSound(entries, n - 1, archive, now);
      ShelveKeepsItem(entries[n - 1], now);
      SoundInFront(Shelve(entries[n - 1], now), ShelveAll(entries, n - 1, archive, now), true);
    }
  }

  /** The first `n` entries are in front of the archive, shelved, the last one foremost. */
  ghost predicate ShelvedInFront(entries: seq<Entry>, n: nat, archive: seq<Entry>, all: seq<Entry>, now: DateTime)
    requires n <= |entries|
  {
    && |all| == n + |archive| && all[n..] == archive
    && forall i | 0 <= i < n :: all[i] == Shelve(entries[n - 1 - i], now)
  }

  lemma {:induction false} ShelvedInReverse(entries: seq<Entry>, n: nat, archive: seq<Entry>, now: DateTime)
    requires n <= |entries| && Sound(entries, false)
    ensures ShelvedInFront(entries, n, archive, ShelveAll(entries, n, archive, now), now)
  {
    if n == 0 {
      assert archive[0..] == archive;
    } else {
      ShelvedInReverse(entries, n - 1, archive, now);
      OneMoreInFront(entries, n - 1, archive, ShelveAll(entries, n - 1, archive, now), now);
    }
  }

  lemma OneMoreInFront(entries: seq<Entry>, n: nat, archive: seq<Entry>, before: seq<Entry>, now: DateTime)
    requires n < |entries| && ShelvedInFront(entries, n, archive, before, now)
    ensures ShelvedInFront(entries, n + 1, archive, [Shelve(entries[n], now)] + before, now)
  {
    var all := [Shelve(entries[n], now)] + before;
    assert all[n + 1..] == before[n..];
    forall i | 0 <= i < n + 1 ensures all[i] == Shelve(entries[n - i], now) {
      if i > 0 { assert all[i] == before[i - 1]; }
    }
  }

  lemma MovedItem(before: seq<Entry>, prefix: multiset<Item>, archive: multiset<Item>, e: Entry, now: DateTime)
    requires Items(before) == prefix + archive
    ensures Items([Shelve(e, now)] + before) == (prefix + multiset{ItemOf(e)}) + archive
    ensures |[Shelve(e, now)] + before| == |before| + 1
  {
    ItemsInFront(Shelve(e, now), before);
    ShelveKeepsItem(e, now);
  }

  lemma {:induction false} ShelvingMovesItems(entries: seq<Entry>, n: nat, archive: seq<Entry>, now: DateTime)
    requires n <= |entries| && Sound(entries, false)
    ensures |ShelveAll(entries, n, archive, now)| == n + |archive|
    ensures Items(ShelveAll(entries, n, archive, now)) == Items(entries[..n]) + Items(archive)
  {
    if n > 0 {
      ShelvingMovesItems(entries, n - 1, archive, now);
      MovedItem(ShelveAll(entries, n - 1, archive, now), Items(entries[..n - 1]), Items(archive), entries[n - 1], now);
      ItemsOfPrefix(entries, n);
    }
  }

  lemma {:induction false} PurgeSplits(entries: seq<Entry>, n: nat, cutoff: string)
    requires n <= |entries|
    ensures Items(entries[..n]) == Items(Kept(entries, n, cutoff)) + Items(Dropped(entries, n, cutoff))
    ensures n == |Kept(entries, n, cutoff)| + |Dropped(entries, n, cutoff)|
  {
    if n > 0 {
      PurgeSplits(entries, n - 1, cutoff);
      ItemsOfPrefix(entries, n);
      ItemsAtEnd(Kept(entries, n - 1, cutoff), entries[n - 1]);
      ItemsAtEnd(Dropped(entries, n - 1, cutoff), entries[n - 1]);
    }
  }

  lemma SoundAtEnd(entries: seq<Entry>, e: Entry, archived: bool)
    requires e.archived == archived && Stamped(e.timestamp) && Sound(entries, archived)
    ensures Sound(entries + [e], archived)
  {
  }

  lemma {:induction false} KeptIsSound(entries: seq<Entry>, n: nat, cutoff: string, archived: bool)
    requires n <= |entries| && Sound(entries, archived)
    ensures Sound(Kept(entries, n, cutoff), archived)
  {
    if n > 0 {
      KeptIsSound(entries, n - 1, cutoff, archived);
      SoundAtEnd(Kept(entries, n - 1, cutoff), entries[n - 1], archived);
    }
  }

  lemma {:induction false} KeptOrDropped(entries: seq<Entry>, n: nat, cutoff: string, e: Entry)
    requires n <= |entries|
    ensures e in Kept(entries, n, cutoff) <==> e in entries[..n] && !Less(e.timestamp, cutoff)
    ensures e in Dropped(entries, n, cutoff) <==> e in entries[..n] && Less(e.timestamp, cutoff)
  {
    if n > 0 {
      KeptOrDropped(entries, n - 1, cutoff, e);
      assert entries[..n] == entries[..n - 1] + [entries[n - 1]];
    }
  }

  lemma {:induction false} KeptAtPlace(entries: seq<Entry>, n: nat, cutoff: string, m: nat)
    requires m < n <= |entries| && !Less(entries[m].timestamp, cutoff)
    ensures |Kept(entries, m, cutoff)| < |Kept(entries, n, cutoff)|
    ensures Kept(entries, n, cutoff)[|Kept(entries, m, cutoff)|] == entries[m]
  {
    if m < n - 1 { KeptAtPlace(entries, n - 1, cutoff, m); }
  }

  /** Two entries that are not older than the cutoff stay in their order. */
  lemma KeptInOrder(entries: seq<Entry>, cutoff: DateTime, i: nat, j: nat, d: DateTime, e: DateTime) returns (p: nat, q: nat)
    requires i < j < |entries| && Valid(cutoff) && Valid(d) && Valid(e)
    requires entries[i].timestamp == Iso(d) && entries[j].timestamp == Iso(e)
    requires Instant(d) >= Instant(cutoff) && Instant(e) >= Instant(cutoff)
    ensures var kept := Kept(entries, |entries|, Iso(cutoff));
            p < q < |kept| && kept[p] == entries[i] && kept[q] == entries[j]
  {
    IsoOrder(d, cutoff);
    IsoOrder(e, cutoff);
    p, q := |Kept(entries, i, Iso(cutoff))|, |Kept(entries, j, Iso(cutoff))|;
    KeptAtPlace(entries, |entries|, Iso(cutoff), i);
    KeptAtPlace(entries, |entries|, Iso(cutoff), j);
    KeptAtPlace(entries, j, Iso(cutoff), i);
  }

  /** A purge keeps exactly what is not strictly older than the cutoff. */
  lemma KeptIffNotOlder(entries: seq<Entry>, cutoff: DateTime, e: Entry, d: DateTime)
    requires Valid(cutoff) && Valid(d) && e.timestamp == Iso(d) && e in entries
    ensures e in Kept(entries, |entries|, Iso(cutoff)) <==> Instant(d) >= Instant(cutoff)
    ensures e in Dropped(entries, |entries|, Iso(cutoff)) <==> Instant(d) < Instant(cutoff)
  {
    assert entries[..|entries|] == entries;
    KeptOrDropped(entries, |entries|, Iso(cutoff), e);
    IsoOrder(d, cutoff);
  }

  lemma {:induction false} FirstIsUnique(entries: seq<Entry>, id: string, i: nat)
    requires i <= |entries| && (i < |entries| ==> entries[i].id == id)
    requires forall j | 0 <= j < i :: entries[j].id != id
    ensures FirstWith(entries, id) == i
  {
  }

  lemma Balance(h: multiset<Item>, dh: multiset<Item>, a: multiset<Item>, da: multiset<Item>, p: multiset<Item>,
                all: multiset<Item>)
    requires (h + dh) + (a + da) + p == all
    ensures h + a + (p + dh + da) == all
  {
  }

  // ---------------------------------------------------------------------------
  // The two files
  // ---------------------------------------------------------------------------

  class SearchHistory {
    var history: seq<Entry>
    var archive: seq<Entry>
    ghost var added: multiset<Item>
    ghost var purged: multiset<Item>

    ghost predicate Valid() reads this {
      && Sound(history, false) && Sound(archive, true)
      && Items(history) + Items(archive) + purged == added
    }

    constructor ()
      ensures Valid() && history == [] && archive == [] && added == multiset{} && purged == multiset{}
    {
      history, archive, added, purged := [], [], multiset{}, multiset{};
    }

    /** The id is the second and a hash of the query, so ids may collide. */
    method AddEntry(id: string, now: DateTime, tool: string, query: string, summary: string, count: int)
      returns (entry: Entry)
      requires Valid() && Calendar.Valid(now)
      modifies this
      ensures Valid() && archive == old(archive) && purged == old(purged)
      ensures entry == Entry(id, Iso(now), tool, query, summary, count, Unread, false, None)
      ensures history == [entry] + old(history) && added == old(added) + multiset{ItemOf(entry)}
    {
      entry := Entry(id, Iso(now), tool, query, summary, count, Unread, false, None);
      ItemsInFront(entry, history);
      history, added := [entry] + history, added + multiset{ItemOf(entry)};
    }

    method Find(id: string) returns (i: nat)
      ensures i == FirstWith(history, id)
    {
      i := 0;
      while i < |history| && history[i].id != id
        invariant i <= |history| && forall j | 0 <= j < i :: history[j].id != id
      {
        i := i + 1;
      }
      FirstIsUnique(history, id, i);
    }

    /** Only the first entry with the id moves. */
    method ArchiveEntry(id: string, now: DateTime)
      requires Valid()
      modifies this
      ensures Valid() && added == old(added) && purged == old(purged)
      ensures var i := FirstWith(old(history), id);
              if i == |old(history)| then history == old(history) && archive == old(archive)
              else history == old(history)[..i] + old(history)[i + 1..]
                   && archive == [Shelve(old(history)[i], now)] + old(archive)
    {
      var i := Find(id);
      if i < |history| {
        var entry := Shelve(history[i], now);
        ItemsWithout(history, i);
        SoundWithout(history, i, false);
        MovedItem(archive, multiset{}, Items(archive), history[i], now);
        ShelveKeepsItem(history[i], now);
        SoundInFront(entry, archive, true);
        archive := [entry] + archive;
        history := history[..i] + history[i + 1..];
      }
    }

    method MarkRead(id: string)
      requires Valid()
      modifies this
      ensures Valid() && archive == old(archive) && added == old(added) && purged == old(purged)
      ensures var i := FirstWith(old(history), id);
              history == if i == |old(history)| then old(history)
                         else old(history)[i := old(history)[i].(status := Read)]
    {
      var i := Find(id);
      if i < |history| {
        var marked := history[i := history[i].(status := Read)];
        assert ItemList(marked) == ItemList(history);
        history := marked;
      }
    }

    method MarkAllRead()
      requires Valid()
      modifies this
      ensures Valid() && archive == old(archive) && added == old(added) && purged == old(purged)
      ensures history == AllRead(old(history))
    {
      ReadingKeepsItems(history, false);
      history := MarkEach(history);
    }

    /** Everything moves to the front of the archive; the answer is the size of the whole archive. */
    method ArchiveAll(now: DateTime) returns (total: nat)
      requires Valid()
      modifies this
      ensures Valid() && added == old(added) && purged == old(purged)
      ensures history == [] && archive == ShelveAll(old(history), |old(history)|, old(archive), now)
      ensures ShelvedInFront(old(history), |old(history)|, old(archive), archive, now)
      ensures total == |old(history)| + |old(archive)|
    {
      ShelvingMovesItems(history, |history|, archive, now);
      ShelvedIsSound(history, |history|, archive, now);
      ShelvedInReverse(history, |history|, archive, now);
      assert history[..|history|] == history;
      archive := MoveAll(history, archive, now);
      history := [];
      total := |archive|;
    }

    /** Both files in turn. `cutoff` is `days` days before now. */
    method PurgeOld(now: DateTime, days: int, cutoff: DateTime) returns (removed: nat)
      requires Valid() && Calendar.Valid(now) && Calendar.Valid(cutoff) && Instant(cutoff) == Instant(now) - days * DAY
      modifies this
      ensures Valid() && added == old(added)
      ensures history == Kept(old(history), |old(history)|, Iso(cutoff))
      ensures archive == Kept(old(archive), |old(archive)|, Iso(cutoff))
      ensures purged == old(purged) + Items(Dropped(old(history), |old(history)|, Iso(cutoff)))
                                    + Items(Dropped(old(archive), |old(archive)|, Iso(cutoff)))
      ensures removed == |old(history)| + |old(archive)| - |history| - |archive|
    {
      ghost var h, a := Dropped(history, |history|, Iso(cutoff)), Dropped(archive, |archive|, Iso(cutoff));
      var recent, gone := Recent(history, Iso(cutoff), false);
      removed := gone;
      history := recent;
      recent, gone := Recent(archive, Iso(cutoff), true);
      removed := removed + gone;
      Balance(Items(history), Items(h), Items(recent), Items(a), purged, added);
      archive := recent;
      purged := purged + Items(h) + Items(a);
    }
  }

  method MarkEach(entries: seq<Entry>) returns (marked: seq<Entry>)
    ensures marked == AllRead(entries)
  {
    marked := entries;
    var i := 0;
    while i < |entries|
      invariant i <= |entries| == |marked|
      invariant forall j | 0 <= j < i :: marked[j] == entries[j].(status := Read)
      invariant forall j | i <= j < |entries| :: marked[j] == entries[j]
    {
      marked := marked[i := marked[i].(status := Read)];
      i := i + 1;
    }
  }

  method MoveAll(entries: seq<Entry>, archive: seq<Entry>, now: DateTime) returns (shelved: seq<Entry>)
    ensures shelved == ShelveAll(entries, |entries|, archive, now)
  {
    shelved := archive;
    var i := 0;
    while i < |entries|
      invariant i <= |entries| && shelved == ShelveAll(entries, i, archive, now)
    {
      if !entries[i].archived {
        shelved := [Shelve(entries[i], now)] + shelved;
      }
      i := i + 1;
    }
  }

  /** One file: what is kept of it, and how many entries are not. */
  method Recent(entries: seq<Entry>, cutoff: string, ghost archived: bool) returns (recent: seq<Entry>, gone: nat)
    requires Sound(entries, archived)
    ensures recent == Kept(entries, |entries|, cutoff) && gone == |entries| - |recent|
    ensures Sound(recent, archived)
    ensures Items(entries) == Items(recent) + Items(Dropped(entries, |entries|, cutoff))
  {
    PurgeSplits(entries, |entries|, cutoff);
    KeptIsSound(entries, |entries|, cutoff, archived);
    assert entries[..|entries|] == entries;
    recent := NotBefore(entries, cutoff);
    gone := |entries| - |recent|;
  }

  method NotBefore(entries: seq<Entry>, cutoff: string) returns (recent: seq<Entry>)
    ensures recent == Kept(entries, |entries|, cutoff)
  {
    recent := [];
    var i := 0;
    while i < |entries|
      invariant i <= |entries| && recent == Kept(entries, i, cutoff)
    {
      if !Less(entries[i].timestamp, cutoff) {
        recent := recent + [entries[i]];
      }
      i := i + 1;
    }
  }
}
