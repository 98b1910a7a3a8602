/** Backup retention (scripts/prune_backup_retention.py): keep the newest archive of each recent day,
    week and month. Archives are judged by the stamp in their file name. */
module Retention {
  import opened Wrappers
  import opened Calendar
  import opened IsoTime

  const PREFIX := "iveras_backup_"
  const SUFFIX := ".tar.gz.gpg"

  predicate IsDigit(c: char) { '0' <= c <= '9' }

  function Digit(c: char): nat
    requires IsDigit(c)
  {
    c as int - '0' as int
  }

  /** `YYYYMMDD_HHMMSS` between prefix and suffix. */
  predicate Matches(name: string) {
    && |name| == 40 && name[..14] == PREFIX && name[29..] == SUFFIX && name[22] == '_'
    && AreDigits(name, 14, 22) && AreDigits(name, 23, 29)
  }

  predicate AreDigits(s: string, from: nat, to: nat)
    requires to <= |s|
  {
    forall i | from <= i < to :: IsDigit(s[i])
  }

  function Two(name: string, i: nat): nat
    requires i + 1 < |name| && IsDigit(name[i]) && IsDigit(name[i + 1])
  {
    10 * Digit(name[i]) + Digit(name[i + 1])
  }

  function ArchiveDate(name: string): Option<DateTime> {
    if Matches(name) then
      Some(DateTime(100 * Two(name, 14) + Two(name, 16), Two(name, 18), Two(name, 20),
                    Two(name, 23), Two(name, 25), Two(name, 27), 0))
    else None
  }

  /** Names whose digits are no calendar date make `strptime` raise; the model takes names that parse. */
  predicate WellNamed(name: string) { ArchiveDate(name).Some? ==> Valid(ArchiveDate(name).value) }

  predicate Dated(name: string) { ArchiveDate(name).Some? && Valid(ArchiveDate(name).value) }

  function Stamp(name: string): int
    requires Dated(name)
  {
    Instant(ArchiveDate(name).value)
  }

  lemma SameTwo(a: string, b: string, i: nat)
    requires i + 1 < |a| && IsDigit(a[i]) && IsDigit(a[i + 1]) && i + 1 < |b| && IsDigit(b[i]) && IsDigit(b[i + 1])
    requires Two(a, i) == Two(b, i)
    ensures a[i] == b[i] && a[i + 1] == b[i + 1]
  {
  }

  lemma SameDigits(a: string, b: string)
    requires Matches(a) && Matches(b) && ArchiveDate(a) == ArchiveDate(b)
    ensures forall i | 14 <= i < 22 || 23 <= i < 29 :: a[i] == b[i]
  {
    assert Two(a, 14) == Two(b, 14) && Two(a, 16) == Two(b, 16);
    SameTwo(a, b, 14);
    SameTwo(a, b, 16);
    SameTwo(a, b, 18);
    SameTwo(a, b, 20);
    SameTwo(a, b, 23);
    SameTwo(a, b, 25);
    SameTwo(a, b, 27);
  }

  /** A file name is determined by its instant, so archives in one directory never tie. */
  lemma StampsDiffer(a: string, b: string)
    requires Dated(a) && Dated(b) && Stamp(a) == Stamp(b)
    ensures a == b
  {
    Chronological(ArchiveDate(a).value, ArchiveDate(b).value);
    SameDigits(a, b);
    forall i | 0 <= i < 40 ensures a[i] == b[i] {
      if i < 14 {
        assert a[i] == a[..14][i] && b[i] == b[..14][i];
      } else if i >= 29 {
        assert a[i] == a[29..][i - 29] && b[i] == b[29..][i - 29];
      }
    }
  }

  /** The name under which an archive made at this second is stored. */
  function ArchiveName(d: DateTime): string {
    "iveras_backup_" + Digits(d.year, 4) + Digits(d.month, 2) + Digits(d.day, 2) + "_"
    + Digits(d.hour, 2) + Digits(d.minute, 2) + Digits(d.second, 2) + ".tar.gz.gpg"
  }

  lemma TwoAt(name: string, i: nat, n: nat)
    requires n < 100 && i + 2 <= |name| && name[i..i + 2] == Digits(n, 2)
    ensures AreDigits(name, i, i + 2) && Two(name, i) == n
  {
    assert Digits(n, 2) == Digits(n / 10, 1) + [('0' as int + n % 10) as char];
    assert Digits(n / 10, 1) == Digits(n / 10 / 10, 0) + [('0' as int + n / 10 % 10) as char];
    assert name[i] == name[i..i + 2][0] && name[i + 1] == name[i..i + 2][1];
  }

  /** Where the seven pairs of digits stand. */
  lemma Pairs(name: string, c: string, y: string, m: string, d: string, h: string, n: string, s: string)
    requires |c| == |y| == |m| == |d| == |h| == |n| == |s| == 2
    requires name == "iveras_backup_" + (c + y) + m + d + "_" + h + n + s + ".tar.gz.gpg"
    ensures |name| == 40 && name[..14] == PREFIX && name[29..] == SUFFIX && name[22] == '_'
    ensures name[14..16] == c && name[16..18] == y && name[18..20] == m && name[20..22] == d
    ensures name[23..25] == h && name[25..27] == n && name[27..29] == s
  {
  }

  lemma FourDigits(n: nat)
    requires n < 10_000
    ensures Digits(n, 4) == Digits(n / 100, 2) + Digits(n % 100, 2)
  {
    assert Digits(n, 4) == Digits(n / 10, 3) + [('0' as int + n % 10) as char];
    assert Digits(n / 10, 3) == Digits(n / 100, 2) + [('0' as int + n / 10 % 10) as char];
    assert Digits(n % 100, 2) == Digits(n % 100 / 10, 1) + [('0' as int + n % 10) as char];
    assert Digits(n % 100 / 10, 1) == Digits(n % 100 / 10 / 10, 0) + [('0' as int + n % 100 / 10) as char];
  }

  lemma NameParts(d: DateTime) returns (name: string)
    requires Valid(d) && d.micro == 0
    ensures name == ArchiveName(d)
    ensures |name| == 40 && name[..14] == PREFIX && name[29..] == SUFFIX && name[22] == '_'
    ensures name[14..16] == Digits(d.year / 100, 2) && name[16..18] == Digits(d.year % 100, 2)
    ensures name[18..20] == Digits(d.month, 2) && name[20..22] == Digits(d.day, 2)
    ensures name[23..25] == Digits(d.hour, 2) && name[25..27] == Digits(d.minute, 2) && name[27..29] == Digits(d.second, 2)
  {
    name := ArchiveName(d);
    FourDigits(d.year);
    Pairs(name, Digits(d.year / 100, 2), Digits(d.year % 100, 2), Digits(d.month, 2), Digits(d.day, 2),
          Digits(d.hour, 2), Digits(d.minute, 2), Digits(d.second, 2));
  }

  /** The date is read back from the name it was written into. */
  lemma NameRoundTrip(d: DateTime)
    requires Valid(d) && d.micro == 0
    ensures ArchiveDate(ArchiveName(d)) == Some(d)
  {
    var name := NameParts(d);
    TwoAt(name, 14, d.year / 100);
    TwoAt(name, 16, d.year % 100);
    TwoAt(name, 18, d.month);
    TwoAt(name, 20, d.day);
    TwoAt(name, 23, d.hour);
    TwoAt(name, 25, d.minute);
    TwoAt(name, 27, d.second);
    DigitsMeet(name, 14, 16, 18);
    DigitsMeet(name, 14, 18, 20);
    DigitsMeet(name, 14, 20, 22);
    DigitsMeet(name, 23, 25, 27);
    DigitsMeet(name, 23, 27, 29);
  }

  lemma DigitsMeet(s: string, i: nat, j: nat, k: nat)
    requires i <= j <= k <= |s| && AreDigits(s, i, j) && AreDigits(s, j, k)
    ensures AreDigits(s, i, k)
  {
  }

  /** So the archives that are judged are exactly the files with such a name. */
  lemma DatedIff(name: string)
    ensures Dated(name) <==> exists d :: Valid(d) && d.micro == 0 && name == ArchiveName(d)
  {
    if d :| Valid(d) && d.micro == 0 && name == ArchiveName(d) { NameRoundTrip(d); }
    if Dated(name) {
      var d := ArchiveDate(name).value;
      NameRoundTrip(d);
      StampsDiffer(name, ArchiveName(d));
    }
  }

  // ---------------------------------------------------------------------------
  // The policy
  // ---------------------------------------------------------------------------

  datatype Tier = Daily | Weekly | Monthly
  datatype Policy = Policy(daily: nat, weekly: nat, monthly: nat)
  datatype Bucket = OnDay(year: nat, month: nat, day: nat) | InWeek(monday: int) | InMonth(year: nat, month: nat)

  /** `isocalendar()[:2]` names the week that starts on a Monday, and ordinal 1 is a Monday. */
  function BucketOf(tier: Tier, d: DateTime): Bucket
    requires Valid(d)
  {
    match tier
    case Daily => OnDay(d.year, d.month, d.day)
    case Weekly => InWeek((Ordinal(d) - 1) / 7)
    case Monthly => InMonth(d.year, d.month)
  }

  function Span(policy: Policy, tier: Tier): int {
    match tier
    case Daily => policy.daily * DAY
    case Weekly => policy.weekly * 7 * DAY
    case Monthly => policy.monthly * 31 * DAY
  }

  /** In reach of a tier at `now`: not in the future, not older than the tier's span. */
  predicate InReach(policy: Policy, tier: Tier, now: int, name: string) {
    Dated(name) && now - Span(policy, tier) <= Stamp(name) <= now
  }

  predicate SameBucket(tier: Tier, a: string, b: string)
    requires Dated(a) && Dated(b)
  {
    BucketOf(tier, ArchiveDate(a).value) == BucketOf(tier, ArchiveDate(b).value)
  }

  ghost predicate Newest(policy: Policy, tier: Tier, now: int, names: set<string>, n: string) {
    && n in names && InReach(policy, tier, now, n)
    && forall m | m in names && InReach(policy, tier, now, m) && SameBucket(tier, m, n) :: Stamp(m) <= Stamp(n)
  }

  ghost predicate Wanted(policy: Policy, now: int, names: set<string>, n: string) {
    || Newest(policy, Daily, now, names, n)
    || Newest(policy, Weekly, now, names, n)
    || Newest(policy, Monthly, now, names, n)
  }

  ghost function Selected(policy: Policy, now: int, names: set<string>): set<string> {
    set n | n in names && Wanted(policy, now, names, n)
  }

  /** Midnight at the start of a Monday, `k` weeks after Monday 1 January 2024. */
  function Monday(k: int): int { Instant(DateTime(2024, 1, 1, 0, 0, 0, 0)) + 7 * k * DAY }

  /** From one Monday up to the next. */
  predicate Within(k: int, t: int) { Monday(k) <= t < Monday(k + 1) }

  /** Two archives compete: made on one day, between two Mondays, or in one month. */
  ghost predicate Compete(tier: Tier, a: string, b: string)
    requires Dated(a) && Dated(b)
  {
    var d, e := ArchiveDate(a).value, ArchiveDate(b).value;
    match tier
    case Daily => d.year == e.year && d.month == e.month && d.day == e.day
    case Weekly => exists k :: Within(k, Stamp(a)) && Within(k, Stamp(b))
    case Monthly => d.year == e.year && d.month == e.month
  }

  lemma MondayIsOne(k: int)
    ensures Monday(k) == (7 * (k + 105_555) + 1) * DAY
  {
    assert DaysBeforeYear(2024) == 738_885;
    assert DaysBeforeMonth(2024, 1) == 0;
  }

  lemma OneWeek(i: int, j: int, t: int)
    requires Within(i, t) && Within(j, t)
    ensures i == j
  {
  }

  /** An archive's week, counted from Monday 1 January 2024. */
  lemma WeekOf(name: string) returns (k: int)
    requires Dated(name)
    ensures BucketOf(Weekly, ArchiveDate(name).value) == InWeek(k + 105_555) && Within(k, Stamp(name))
  {
    var d := ArchiveDate(name).value;
    k := (Ordinal(d) - 1) / 7 - 105_555;
    assert Ordinal(d) * DAY <= Stamp(name) < (Ordinal(d) + 1) * DAY;
    MondayIsOne(k);
    MondayIsOne(k + 1);
  }

  lemma SameBucketIff(tier: Tier, a: string, b: string)
    requires Dated(a) && Dated(b)
    ensures SameBucket(tier, a, b) <==> Compete(tier, a, b)
  {
    if tier == Weekly {
      var i := WeekOf(a);
      var j := WeekOf(b);
      if k :| Within(k, Stamp(a)) && Within(k, Stamp(b)) {
        OneWeek(i, k, Stamp(a));
        OneWeek(j, k, Stamp(b));
      }
    }
  }

  /** Within this many days of `now`, and no competitor up to `now` is later. */
  ghost predicate LatestWithin(tier: Tier, days: nat, now: int, names: set<string>, n: string) {
    && n in names && Dated(n) && Stamp(n) <= now <= Stamp(n) + days * DAY
    && forall m | m in names && Dated(m) && Stamp(m) <= now && Compete(tier, m, n) :: Stamp(m) <= Stamp(n)
  }

  ghost predicate Kept(policy: Policy, now: int, names: set<string>, n: string) {
    || LatestWithin(Daily, policy.daily, now, names, n)
    || LatestWithin(Weekly, 7 * policy.weekly, now, names, n)
    || LatestWithin(Monthly, 31 * policy.monthly, now, names, n)
  }

  lemma NewestIsLatest(policy: Policy, tier: Tier, days: nat, now: int, names: set<string>, n: string)
    requires days == match tier case Daily => policy.daily case Weekly => 7 * policy.weekly case Monthly => 31 * policy.monthly
    ensures Newest(policy, tier, now, names, n) <==> LatestWithin(tier, days, now, names, n)
  {
    assert Span(policy, tier) == days * DAY;
    if Dated(n) {
      forall m | Dated(m) ensures SameBucket(tier, m, n) <==> Compete(tier, m, n) { SameBucketIff(tier, m, n); }
    }
  }

  /** Which archives are wanted: the last of its day, of its Monday-to-Monday week or of its month, up to `now`, not
      older than the days, weeks or 31-day months asked for. */
  lemma WantedIff(policy: Policy, now: int, names: set<string>, n: string)
    ensures Wanted(policy, now, names, n) <==> Kept(policy, now, names, n)
  {
    NewestIsLatest(policy, Daily, policy.daily, now, names, n);
    NewestIsLatest(policy, Weekly, 7 * policy.weekly, now, names, n);
    NewestIsLatest(policy, Monthly, 31 * policy.monthly, now, names, n);
  }

  lemma DifferentWeeks(a: string, b: string, k: int)
    requires Dated(a) && Dated(b) && Stamp(a) < Monday(k) <= Stamp(b)
    ensures !SameBucket(Weekly, a, b) && !SameBucket(Weekly, b, a)
  {
    var i := WeekOf(a);
    var j := WeekOf(b);
    WeeksApart(i, Stamp(a), k, Stamp(b), j);
  }

  lemma WeeksApart(i: int, s: int, k: int, t: int, j: int)
    requires Within(i, s) && s < Monday(k) <= t && Within(j, t)
    ensures i < j
  {
  }

  lemma OthersDoNotCompete(policy: Policy, tier: Tier, now: int, names: set<string>, a: string, b: string)
    requires Dated(a) && Dated(b) && !SameBucket(tier, b, a)
    ensures Newest(policy, tier, now, names + {b}, a) <==> Newest(policy, tier, now, names - {b}, a)
  {
  }

  /** Archives with a Monday midnight between them never displace each other in the weekly tier. */
  lemma WeeksDoNotCompete(policy: Policy, now: int, names: set<string>, a: string, b: string, k: int)
    requires Dated(a) && Dated(b) && Stamp(a) < Monday(k) <= Stamp(b)
    ensures Newest(policy, Weekly, now, names + {b}, a) <==> Newest(policy, Weekly, now, names - {b}, a)
    ensures Newest(policy, Weekly, now, names + {a}, b) <==> Newest(policy, Weekly, now, names - {a}, b)
  {
    DifferentWeeks(a, b, k);
    OthersDoNotCompete(policy, Weekly, now, names, a, b);
    OthersDoNotCompete(policy, Weekly, now, names, b, a);
  }

  // ---------------------------------------------------------------------------
  // The loops
  // ---------------------------------------------------------------------------

  function Names(paths: seq<string>): set<string> { set p | p in paths }

  /** One of the three bucket loops. */
  method NewestPerBucket(policy: Policy, tier: Tier, now: int, paths: seq<string>) returns (keep: set<string>)
    requires forall p | p in paths :: WellNamed(p)
    ensures keep == set n | n in Names(paths) && Newest(policy, tier, now, Names(paths), n)
  {
    var newest: map<Bucket, string> := map[];
    for i := 0 to |paths|
      invariant Chosen(policy, tier, now, newest, paths[..i])
    {
      var path := paths[i];
      assert paths[..i + 1] == paths[..i] + [path];
      if InReach(policy, tier, now, path) {
        var key := BucketOf(tier, ArchiveDate(path).value);
        if key !in newest || Stamp(path) > Stamp(newest[key]) {
          ChosenWith(policy, tier, now, newest, paths[..i], path);
          newest := newest[key := path];
        } else {
          ChosenWithout(policy, tier, now, newest, paths[..i], path);
        }
      } else {
        ChosenWithout(policy, tier, now, newest, paths[..i], path);
      }
    }
    assert paths[..|paths|] == paths;
    ChosenAreNewest(policy, tier, now, newest, paths);
    keep := newest.Values;
  }

  /** The dictionary after some of the paths: per bucket in use, a member that none of its bucket beats. */
  ghost predicate Chosen(policy: Policy, tier: Tier, now: int, newest: map<Bucket, string>, paths: seq<string>) {
    && (forall k | k in newest :: newest[k] in paths && Represents(policy, tier, now, newest[k], k))
    && (forall p | p in paths && InReach(policy, tier, now, p) :: Unbeaten(tier, newest, p))
  }

  ghost predicate Represents(policy: Policy, tier: Tier, now: int, name: string, k: Bucket) {
    InReach(policy, tier, now, name) && BucketOf(tier, ArchiveDate(name).value) == k
  }

  ghost predicate Unbeaten(tier: Tier, newest: map<Bucket, string>, name: string)
    requires Dated(name)
  {
    var k := BucketOf(tier, ArchiveDate(name).value);
    k in newest && Dated(newest[k]) && Stamp(name) <= Stamp(newest[k])
  }

  lemma ChosenWithout(policy: Policy, tier: Tier, now: int, newest: map<Bucket, string>, paths: seq<string>, path: string)
    requires Chosen(policy, tier, now, newest, paths)
    requires InReach(policy, tier, now, path) ==>
               var key := BucketOf(tier, ArchiveDate(path).value); key in newest && Stamp(path) <= Stamp(newest[key])
    ensures Chosen(policy, tier, now, newest, paths + [path])
  {
  }

  lemma ChosenWith(policy: Policy, tier: Tier, now: int, newest: map<Bucket, string>, paths: seq<string>, path: string)
    requires Chosen(policy, tier, now, newest, paths) && InReach(policy, tier, now, path)
    requires var key := BucketOf(tier, ArchiveDate(path).value); key !in newest || Stamp(path) > Stamp(newest[key])
    ensures Chosen(policy, tier, now, newest[BucketOf(tier, ArchiveDate(path).value) := path], paths + [path])
  {
    var key := BucketOf(tier, ArchiveDate(path).value);
    var after := newest[key := path];
    forall k | k in after ensures after[k] in paths + [path] && Represents(policy, tier, now, after[k], k) {
      assert k == key || k in newest;
    }
    forall p | p in paths + [path] && InReach(policy, tier, now, p) ensures Unbeaten(tier, after, p) {
      if p != path { StaysUnbeaten(tier, newest, p, path); }
    }
  }

  lemma StaysUnbeaten(tier: Tier, newest: map<Bucket, string>, name: string, path: string)
    requires Dated(name) && Dated(path) && Unbeaten(tier, newest, name)
    requires var key := BucketOf(tier, ArchiveDate(path).value);
             key in newest ==> Dated(newest[key]) && Stamp(newest[key]) < Stamp(path)
    ensures Unbeaten(tier, newest[BucketOf(tier, ArchiveDate(path).value) := path], name)
  {
  }

  lemma ChosenAreNewest(policy: Policy, tier: Tier, now: int, newest: map<Bucket, string>, paths: seq<string>)
    requires Chosen(policy, tier, now, newest, paths)
    ensures newest.Values == set n | n in Names(paths) && Newest(policy, tier, now, Names(paths), n)
  {
    var names := Names(paths);
    forall n | n in names && Newest(policy, tier, now, names, n) ensures n in newest.Values {
      var k := BucketOf(tier, ArchiveDate(n).value);
      assert newest[k] in names && SameBucket(tier, newest[k], n);
      StampsDiffer(n, newest[k]);
      assert k in newest.Keys;
    }
    forall n | n in newest.Values ensures n in names && Newest(policy, tier, now, names, n) {
      var k :| k in newest && newest[k] == n;
      forall m | m in names && InReach(policy, tier, now, m) && SameBucket(tier, m, n) ensures Stamp(m) <= Stamp(n) {
        assert m in paths;
      }
    }
  }

  method SelectedArchives(policy: Policy, now: int, paths: seq<string>) returns (keep: set<string>)
    requires forall p | p in paths :: WellNamed(p)
    ensures keep == Selected(policy, now, Names(paths))
    ensures forall n :: n in keep <==> Kept(policy, now, Names(paths), n)
  {
    forall n { WantedIff(policy, now, Names(paths), n); }
    var byDay := NewestPerBucket(policy, Daily, now, paths);
    var byWeek := NewestPerBucket(policy, Weekly, now, paths);
    var byMonth := NewestPerBucket(policy, Monthly, now, paths);
    keep := byDay + byWeek + byMonth;
  }

  /** What stays in the directory: the selection, and every file whose name carries no date. */
  ghost function Remaining(policy: Policy, now: int, names: set<string>): set<string> {
    set n | n in names && (ArchiveDate(n).None? || Wanted(policy, now, names, n))
  }

  datatype Exit = UsageError | Done(removed: set<string>)

  class BackupDirectory {
    var files: set<string>

    constructor (files: set<string>)
      ensures this.files == files
    {
      this.files := files;
    }

    /** `main`: select, split into keep and remove, and unlink when `apply` is given. */
    method Prune(policy: Policy, now: int, apply: bool, paths: seq<string>) returns (r: Exit)
      requires Names(paths) == files && forall p | p in files :: WellNamed(p)
      modifies this
      ensures r.UsageError? <==> policy.daily < 1 || policy.weekly < 1 || policy.monthly < 1
      ensures r.Done? ==> r.removed == old(files) - Remaining(policy, now, old(files))
      ensures files == if r.Done? && apply then Remaining(policy, now, old(files)) else old(files)
      ensures r.Done? ==> forall n :: n in r.removed <==>
                            n in old(files) && ArchiveDate(n).Some? && !Kept(policy, now, old(files), n)
      ensures r.Done? && apply ==> files == old(files) - r.removed
    {
      if policy.daily < 1 || policy.weekly < 1 || policy.monthly < 1 { return UsageError; }
      var keep := SelectedArchives(policy, now, paths);
      var remove := set p | p in paths && p !in keep && ArchiveDate(p).Some?;
      var rest := remove;
      while rest != {}
        invariant rest <= remove
        invariant files == if apply then old(files) - (remove - rest) else old(files)
      {
        var path :| path in rest;
        rest := rest - {path};
        if apply { files := files - {path}; }
      }
      r := Done(remove);
    }
  }

  // ---------------------------------------------------------------------------
  // Pruning over time
  // ---------------------------------------------------------------------------

  ghost predicate Future(now: int, n: string) { Dated(n) && Stamp(n) > now }

  lemma WantedIsNewestLater(policy: Policy, tier: Tier, t1: int, t2: int, stored: set<string>, added: set<string>, n: string)
    requires t1 <= t2 && n in stored && !Future(t1, n)
    requires Newest(policy, tier, t2, stored + added, n)
    ensures Newest(policy, tier, t1, stored, n)
  {
  }

  /** The newest archive of `n`'s bucket among `names`: the loop's own choice, as a ghost search. */
  lemma {:induction false} BucketHasANewest(policy: Policy, tier: Tier, now: int, names: set<string>, n: string) returns (best: string)
    requires n in names && InReach(policy, tier, now, n)
    ensures Newest(policy, tier, now, names, best) && SameBucket(tier, best, n) && Stamp(best) >= Stamp(n)
    decreases names
  {
    if m :| m in names && InReach(policy, tier, now, m) && SameBucket(tier, m, n) && Stamp(m) > Stamp(n) {
      best := BucketHasANewest(policy, tier, now, names - {n}, m);
      assert SameBucket(tier, best, n);
    } else {
      best := n;
    }
  }

  lemma SurvivorsDecideTheSame(policy: Policy, tier: Tier, t1: int, t2: int, stored: set<string>, added: set<string>, n: string)
    requires t1 <= t2 && forall f | f in stored :: !Future(t1, f)
    ensures Newest(policy, tier, t2, Remaining(policy, t1, stored) + added, n) <==> Newest(policy, tier, t2, stored + added, n)
  {
    var kept := Remaining(policy, t1, stored);
    if Newest(policy, tier, t2, stored + added, n) {
      if n in stored { WantedIsNewestLater(policy, tier, t1, t2, stored, added, n); }
    }
    if Newest(policy, tier, t2, kept + added, n) {
      forall m | m in stored + added && InReach(policy, tier, t2, m) && SameBucket(tier, m, n) ensures Stamp(m) <= Stamp(n) {
        if m in stored {
          assert InReach(policy, tier, t1, m);
          var best := BucketHasANewest(policy, tier, t1, stored, m);
          assert best in kept && InReach(policy, tier, t2, best);
        }
      }
    }
  }

  /** Pruning early loses nothing a later prune would have kept, whatever has arrived in between. */
  lemma IncrementalPruning(policy: Policy, t1: int, t2: int, stored: set<string>, added: set<string>)
    requires t1 <= t2 && forall f | f in stored :: !Future(t1, f)
    ensures Remaining(policy, t2, Remaining(policy, t1, stored) + added) == Remaining(policy, t2, stored + added)
    ensures Selected(policy, t2, Selected(policy, t1, stored) + added) == Selected(policy, t2, stored + added)
  {
    var kept := Remaining(policy, t1, stored);
    forall n ensures Wanted(policy, t2, kept + added, n) <==> Wanted(policy, t2, stored + added, n) {
      SurvivorsDecideTheSame(policy, Daily, t1, t2, stored, added, n);
      SurvivorsDecideTheSame(policy, Weekly, t1, t2, stored, added, n);
      SurvivorsDecideTheSame(policy, Monthly, t1, t2, stored, added, n);
    }
    var chosen := Selected(policy, t1, stored);
    forall n ensures Wanted(policy, t2, chosen + added, n) <==> Wanted(policy, t2, kept + added, n) {
      assert forall m | Dated(m) :: m in chosen <==> m in kept;
      assert forall tier :: Newest(policy, tier, t2, chosen + added, n) <==> Newest(policy, tier, t2, kept + added, n);
    }
  }

  lemma UnwantedDoesNotMatter(policy: Policy, tier: Tier, now: int, names: set<string>, gone: set<string>, n: string)
    requires gone <= names && forall g | g in gone :: !Newest(policy, tier, now, names, g)
    ensures Newest(policy, tier, now, names - gone, n) <==> Newest(policy, tier, now, names, n)
  {
    if Newest(policy, tier, now, names - gone, n) {
      forall m | m in names && InReach(policy, tier, now, m) && SameBucket(tier, m, n) ensures Stamp(m) <= Stamp(n) {
        var best := BucketHasANewest(policy, tier, now, names, m);
        assert best in names - gone;
      }
    }
  }

  /** `main` deletes archives stamped later than its clock. For one later prune and its arrivals, pruning early was
      harmless exactly when none of them would have been selected then (or has come back by then). */
  lemma OneLaterPruneAgreesIff(policy: Policy, t1: int, t2: int, stored: set<string>, added: set<string>)
    requires t1 <= t2
    ensures Remaining(policy, t2, Remaining(policy, t1, stored) + added) == Remaining(policy, t2, stored + added)
            <==> forall f | f in stored - added && Future(t1, f) :: !Wanted(policy, t2, stored + added, f)
  {
    var future := set f | f in stored && Future(t1, f);
    var past := stored - future;
    var gone := future - added;
    IncrementalPruning(policy, t1, t2, past, added);
    forall n ensures Wanted(policy, t1, past, n) <==> Wanted(policy, t1, stored, n) {
      forall tier ensures Newest(policy, tier, t1, past, n) <==> Newest(policy, tier, t1, stored, n) {
        UnwantedDoesNotMatter(policy, tier, t1, stored, future, n);
      }
    }
    assert Remaining(policy, t1, stored) == Remaining(policy, t1, past);
    assert past + added == (stored + added) - gone;
    if forall f | f in gone :: !Wanted(policy, t2, stored + added, f) {
      forall n ensures Wanted(policy, t2, past + added, n) <==> Wanted(policy, t2, stored + added, n) {
        forall tier ensures Newest(policy, tier, t2, past + added, n) <==> Newest(policy, tier, t2, stored + added, n) {
          forall g | g in gone ensures !Newest(policy, tier, t2, stored + added, g) {
            match tier { case Daily => case Weekly => case Monthly => }
          }
          UnwantedDoesNotMatter(policy, tier, t2, stored + added, gone, n);
        }
      }
      assert forall g | g in gone :: g !in Remaining(policy, t2, stored + added);
    } else {
      var f :| f in gone && Wanted(policy, t2, stored + added, f);
      assert f in Remaining(policy, t2, stored + added) && f !in past + added;
    }
  }

  /** Whatever arrives later and whenever the next prune comes, pruning at `t1` has lost nothing. */
  ghost predicate EarlyPruningIsHarmless(policy: Policy, t1: int, stored: set<string>) {
    forall t2, added :: t1 <= t2 ==>
      Remaining(policy, t2, Remaining(policy, t1, stored) + added) == Remaining(policy, t2, stored + added)
  }

  /** What can be checked at the early prune: it is harmless if and only if no archive is stamped later than its
      clock. */
  lemma EarlyPruningIsHarmlessIff(policy: Policy, t1: int, stored: set<string>)
    ensures EarlyPruningIsHarmless(policy, t1, stored) <==> forall f | f in stored :: !Future(t1, f)
  {
    if forall f | f in stored :: !Future(t1, f) {
      forall t2, added | t1 <= t2
        ensures Remaining(policy, t2, Remaining(policy, t1, stored) + added) == Remaining(policy, t2, stored + added)
      {
        IncrementalPruning(policy, t1, t2, stored, added);
      }
    } else {
      var f :| f in stored && Future(t1, f);
      assert stored - {} == stored == stored + {};
      assert Newest(policy, Daily, Stamp(f), stored, f);
      OneLaterPruneAgreesIff(policy, t1, Stamp(f), stored, {});
    }
  }

  // ---------------------------------------------------------------------------
  // Any schedule
  // ---------------------------------------------------------------------------

  /** Some archives arrive, then the script runs at `now`. */
  datatype Visit = Visit(arrivals: set<string>, now: int)

  ghost function Directory(policy: Policy, visits: seq<Visit>): set<string> {
    if visits == [] then {}
    else
      var v := visits[|visits| - 1];
      Remaining(policy, v.now, Directory(policy, visits[..|visits| - 1]) + v.arrivals)
  }

  ghost function Arrived(visits: seq<Visit>): set<string> {
    if visits == [] then {} else Arrived(visits[..|visits| - 1]) + visits[|visits| - 1].arrivals
  }

  ghost predicate Orderly(visits: seq<Visit>) {
    && (forall i, j | 0 <= i < j < |visits| :: visits[i].now <= visits[j].now)
    && (forall i | 0 <= i < |visits| :: forall f | f in visits[i].arrivals :: !Future(visits[i].now, f))
  }

  lemma {:induction false} ArrivedIsPast(visits: seq<Visit>, f: string)
    requires Orderly(visits) && f in Arrived(visits)
    ensures !Future(visits[|visits| - 1].now, f)
  {
    var n := |visits| - 1;
    if f in Arrived(visits[..n]) {
      ArrivedIsPast(visits[..n], f);
    } else {
      assert f in visits[n].arrivals;
    }
  }

  /** However often the script has run, the directory is what one prune of everything ever stored would leave. */
  lemma {:induction false} ScheduleEqualsOnePrune(policy: Policy, visits: seq<Visit>)
    requires visits != [] && Orderly(visits)
    ensures Directory(policy, visits) == Remaining(policy, visits[|visits| - 1].now, Arrived(visits))
  {
    var n := |visits| - 1;
    var init, last := visits[..n], visits[n];
    assert visits == init + [last];
    if n > 0 {
      assert Orderly(init) by {
        assert forall i | 0 <= i < n :: init[i] == visits[i];
      }
      ScheduleEqualsOnePrune(policy, init);
      PruneAgain(policy, visits, init, last);
    } else {
      assert init == [] && {} + last.arrivals == last.arrivals;
    }
  }

  lemma PruneAgain(policy: Policy, visits: seq<Visit>, init: seq<Visit>, last: Visit)
    requires init != [] && visits == init + [last] && Orderly(visits)
    requires Directory(policy, init) == Remaining(policy, init[|init| - 1].now, Arrived(init))
    ensures Remaining(policy, last.now, Directory(policy, init) + last.arrivals)
            == Remaining(policy, last.now, Arrived(init) + last.arrivals)
  {
    var n := |init|;
    assert Orderly(init) by {
      assert forall i | 0 <= i < n :: init[i] == visits[i];
    }
    assert init[n - 1].now <= last.now by { assert visits[n - 1].now <= visits[n].now; }
    forall f | f in Arrived(init) ensures !Future(init[n - 1].now, f) { ArrivedIsPast(init, f); }
    IncrementalPruning(policy, init[n - 1].now, last.now, Arrived(init), last.arrivals);
  }

  /** The newest archive is never deleted while some tier still reaches it. */
  lemma NewestSurvives(policy: Policy, now: int, names: set<string>, n: string, tier: Tier)
    requires n in names && InReach(policy, tier, now, n)
    requires forall m | m in names && Dated(m) && Stamp(m) <= now :: Stamp(m) <= Stamp(n)
    ensures n in Remaining(policy, now, names) && n in Selected(policy, now, names)
  {
  }
}
