/** `datetime.isoformat()` as a sort key (search_history.py:142, 147). */
module IsoTime {
  import opened Ordering
  import opened Calendar

  function Power10(width: nat): nat { if width == 0 then 1 else 10 * Power10(width - 1) }

  /** Zero-padded decimal of a fixed width. */
  function Digits(n: nat, width: nat): (s: string)
    ensures |s| == width
  {
    if width == 0 then "" else Digits(n / 10, width - 1) + [('0' as int + n % 10) as char]
  }

  /** The fraction has six digits, or is left out when it is zero. */
  function Fraction(micro: nat): string { if micro == 0 then "" else "." + Digits(micro, 6) }

  function Field(n: nat, width: nat, separator: char, rest: string): string {
    Digits(n, width) + ([separator] + rest)
  }

  function Iso(d: DateTime): string {
    Field(d.year, 4, '-', Field(d.month, 2, '-', Field(d.day, 2, 'T',
      Field(d.hour, 2, ':', Field(d.minute, 2, ':', Digits(d.second, 2) + Fraction(d.micro))))))
  }

  lemma {:induction false} DigitsOrder(a: nat, b: nat, width: nat, x: string, y: string)
    requires a < Power10(width) && b < Power10(width)
    ensures Less(Digits(a, width) + x, Digits(b, width) + y) <==> a < b || (a == b && Less(x, y))
  {
    if width == 0 {
      assert Digits(a, 0) + x == x && Digits(b, 0) + y == y;
    } else {
      var i, j := ('0' as int + a % 10) as char, ('0' as int + b % 10) as char;
      assert Digits(a, width) + x == Digits(a / 10, width - 1) + ([i] + x);
      assert Digits(b, width) + y == Digits(b / 10, width - 1) + ([j] + y);
      DigitsOrder(a / 10, b / 10, width - 1, [i] + x, [j] + y);
      assert ([i] + x)[1..] == x && ([j] + y)[1..] == y;
    }
  }

  lemma FieldOrder(a: nat, b: nat, width: nat, separator: char, x: string, y: string)
    requires a < Power10(width) && b < Power10(width)
    ensures Less(Field(a, width, separator, x), Field(b, width, separator, y)) <==> a < b || (a == b && Less(x, y))
  {
    DigitsOrder(a, b, width, [separator] + x, [separator] + y);
    LessAfterPrefix([separator], x, y);
  }

  /** A missing fraction sorts before every written one. */
  lemma FractionOrder(a: nat, b: nat)
    requires a < 1_000_000 && b < 1_000_000
    ensures Less(Fraction(a), Fraction(b)) <==> a < b
  {
    if a > 0 && b > 0 {
      Widths();
      DigitsOrder(a, b, 6, "", "");
      assert Digits(a, 6) + "" == Digits(a, 6) && Digits(b, 6) + "" == Digits(b, 6);
      LessAfterPrefix(".", Digits(a, 6), Digits(b, 6));
    }
  }

  lemma Widths()
    ensures Power10(2) == 100 && Power10(4) == 10_000 && Power10(6) == 1_000_000
  {
  }

  lemma TimeOrder(a: DateTime, b: DateTime, x: string, y: string)
    requires Valid(a) && Valid(b)
    requires x == Field(a.hour, 2, ':', Field(a.minute, 2, ':', Digits(a.second, 2) + Fraction(a.micro)))
    requires y == Field(b.hour, 2, ':', Field(b.minute, 2, ':', Digits(b.second, 2) + Fraction(b.micro)))
    ensures Less(x, y) <==>
      a.hour < b.hour || (a.hour == b.hour && (a.minute < b.minute || (a.minute == b.minute &&
        (a.second < b.second || (a.second == b.second && a.micro < b.micro)))))
  {
    Widths();
    var s, t := Digits(a.second, 2) + Fraction(a.micro), Digits(b.second, 2) + Fraction(b.micro);
    FractionOrder(a.micro, b.micro);
    DigitsOrder(a.second, b.second, 2, Fraction(a.micro), Fraction(b.micro));
    FieldOrder(a.minute, b.minute, 2, ':', s, t);
    FieldOrder(a.hour, b.hour, 2, ':', Field(a.minute, 2, ':', s), Field(b.minute, 2, ':', t));
  }

  lemma IsoLess(a: DateTime, b: DateTime)
    requires Valid(a) && Valid(b)
    ensures Less(Iso(a), Iso(b)) <==> Before(a, b)
  {
    Widths();
    var x := Field(a.hour, 2, ':', Field(a.minute, 2, ':', Digits(a.second, 2) + Fraction(a.micro)));
    var y := Field(b.hour, 2, ':', Field(b.minute, 2, ':', Digits(b.second, 2) + Fraction(b.micro)));
    TimeOrder(a, b, x, y);
    var dx, dy := Field(a.day, 2, 'T', x), Field(b.day, 2, 'T', y);
    FieldOrder(a.day, b.day, 2, 'T', x, y);
    FieldOrder(a.month, b.month, 2, '-', dx, dy);
    FieldOrder(a.year, b.year, 4, '-', Field(a.month, 2, '-', dx), Field(b.month, 2, '-', dy));
  }

  /** Comparing the strings is comparing the instants, for all years 1 to 9999. */
  lemma IsoOrder(a: DateTime, b: DateTime)
    requires Valid(a) && Valid(b)
    ensures Less(Iso(a), Iso(b)) <==> Instant(a) < Instant(b)
    ensures Iso(a) == Iso(b) <==> Instant(a) == Instant(b)
  {
    IsoLess(a, b);
    IsoLess(b, a);
    Chronological(a, b);
    Chronological(b, a);
    LessIrreflexive(Iso(a));
  }
}
