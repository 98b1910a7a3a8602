/** `canonical_payload` (license-server/licensing.py:35-36): compact, key-sorted, ASCII-only JSON of the claims. */
module CanonicalJson {
  import opened Wrappers

  datatype Claims = Claims(expiresAt: string, installId: string, issuedAt: string, licenseId: string, plan: string)

  function HexDigit(n: nat): char
    requires n < 16
  {
    if n < 10 then '0' + n as char else 'a' + (n - 10) as char
  }

  function Hex4(n: nat): string
    requires n < 0x1_0000
  {
    [HexDigit(n / 0x1000), HexDigit(n / 0x100 % 16), HexDigit(n / 16 % 16), HexDigit(n % 16)]
  }

  function UnicodeEscape(n: nat): string
    requires n < 0x1_0000
  {
    ['\\', 'u'] + Hex4(n)
  }

  function High(n: nat): nat
    requires 0x1_0000 <= n < 0x11_0000
  {
    0xD800 + (n - 0x1_0000) / 0x400
  }

  function Low(n: nat): nat
    requires 0x1_0000 <= n < 0x11_0000
  {
    0xDC00 + (n - 0x1_0000) % 0x400
  }

  /** How `json.dumps` writes one character inside a string. */
  function EscapeChar(c: char): string {
    var n := c as int;
    if c == '\\' || c == '"' then ['\\', c]
    else if c == '\n' then ['\\', 'n']
    else if c == '\r' then ['\\', 'r']
    else if c == '\t' then ['\\', 't']
    else if n == 8 then ['\\', 'b']
    else if n == 12 then ['\\', 'f']
    else if ' ' <= c <= '~' then [c]
    else if n < 0x1_0000 then UnicodeEscape(n)
    else UnicodeEscape(High(n)) + UnicodeEscape(Low(n))
  }

  function Escape(s: string): string {
    if s == [] then [] else EscapeChar(s[0]) + Escape(s[1..])
  }

  function Member(key: string, value: string): string { ['"'] + key + ['"', ':', '"'] + Escape(value) + ['"'] }

  /** A member followed by the rest of the object. */
  function Then(key: string, value: string, rest: string): string { Member(key, value) + rest }

  function CanonicalPayload(c: Claims): string {
    ['{'] + Then("expires_at", c.expiresAt, [','] + Then("install_id", c.installId, [','] + Then("issued_at", c.issuedAt,
      [','] + Then("license_id", c.licenseId, [','] + Then("plan", c.plan, ['}'])))))
  }

  lemma SamePrefix(p: string, q: string, x: string, y: string)
    requires |p| == |q| && p + x == q + y
    ensures p == q && x == y
  {
    assert p == (p + x)[..|p|] && q == (q + y)[..|q|];
    assert x == (p + x)[|p|..] && y == (q + y)[|q|..];
  }

  // ---------------------------------------------------------------------------
  // Reading strings, section 7 of RFC 8259
  // ---------------------------------------------------------------------------

  function HexValue(c: char): Option<nat> {
    if '0' <= c <= '9' then Some(c as int - '0' as int)
    else if 'a' <= c <= 'f' then Some(c as int - 'a' as int + 10)
    else if 'A' <= c <= 'F' then Some(c as int - 'A' as int + 10)
    else None
  }

  /** The number that the first four characters write. */
  function ReadHex4(s: string): (r: Option<nat>)
    requires |s| >= 4
    ensures r.Some? ==> r.value < 0x1_0000
  {
    var a, b, c, d := HexValue(s[0]), HexValue(s[1]), HexValue(s[2]), HexValue(s[3]);
    if a.Some? && b.Some? && c.Some? && d.Some? then
      Some(a.value * 0x1000 + b.value * 0x100 + c.value * 0x10 + d.value)
    else None
  }

  /** A `\u` escape and what follows it. */
  function ReadUnit(s: string): Option<(nat, string)> {
    if |s| >= 6 && s[0] == '\\' && s[1] == 'u' && ReadHex4(s[2..]).Some? then Some((ReadHex4(s[2..]).value, s[6..])) else None
  }

  /** One character of a JSON string and what follows it; a surrogate pair is one character. */
  function ReadChar(s: string): Option<(char, string)> {
    if s == "" || s[0] == '"' then None
    else if s[0] != '\\' then Some((s[0], s[1..]))
    else if |s| == 1 then None
    else if s[1] == '\\' || s[1] == '"' then Some((s[1], s[2..]))
    else if s[1] == 'n' then Some(('\n', s[2..]))
    else if s[1] == 'r' then Some(('\r', s[2..]))
    else if s[1] == 't' then Some(('\t', s[2..]))
    else if s[1] == 'b' then Some((8 as char, s[2..]))
    else if s[1] == 'f' then Some((12 as char, s[2..]))
    else
      match ReadUnit(s)
      case None => None
      case Some((n, rest)) =>
        if n < 0xD800 || n >= 0xE000 then Some((n as char, rest))
        else
          match ReadUnit(rest)
          case None => None
          case Some((m, rest')) =>
            if n < 0xDC00 <= m < 0xE000 then
              Some(((0x1_0000 + (n - 0xD800) * 0x400 + (m - 0xDC00)) as char, rest'))
            else None
  }

  lemma HexParts(n: nat)
    requires n < 0x1_0000
    ensures n == n / 0x1000 * 0x1000 + n / 0x100 % 16 * 0x100 + n / 16 % 16 * 16 + n % 16
  {
    assert n / 16 == n / 0x100 * 16 + n / 16 % 16;
    assert n / 0x100 == n / 0x1000 * 16 + n / 0x100 % 16;
  }

  lemma UnitReadsBack(n: nat, rest: string)
    requires n < 0x1_0000
    ensures ReadUnit(UnicodeEscape(n) + rest) == Some((n, rest))
  {
    var s := UnicodeEscape(n) + rest;
    HexParts(n);
    assert s[2..][..4] == Hex4(n);
    assert s[2..][0] == Hex4(n)[0] && s[2..][1] == Hex4(n)[1] && s[2..][2] == Hex4(n)[2] && s[2..][3] == Hex4(n)[3];
    assert s[6..] == rest;
  }

  /** Every character, escaped or not, is read back. */
  lemma CharReadsBack(c: char, rest: string)
    ensures ReadChar(EscapeChar(c) + rest) == Some((c, rest))
  {
    var s, n := EscapeChar(c) + rest, c as int;
    if |EscapeChar(c)| == 1 {
      assert s[1..] == rest;
    } else if |EscapeChar(c)| == 2 {
      assert s[2..] == rest;
    } else if n < 0x1_0000 {
      UnitReadsBack(n, rest);
    } else {
      assert s == UnicodeEscape(High(n)) + (UnicodeEscape(Low(n)) + rest);
      UnitReadsBack(High(n), UnicodeEscape(Low(n)) + rest);
      UnitReadsBack(Low(n), rest);
    }
  }

  /** A quoted string from behind its opening quote: its characters up to the closing one, and what follows. */
  ghost predicate Quoted(s: string, value: string, rest: string)
    decreases |value|
  {
    if value == "" then s == ['"'] + rest
    else ReadChar(s).Some? && ReadChar(s).value.0 == value[0] && Quoted(ReadChar(s).value.1, value[1..], rest)
  }

  lemma {:induction false} StringReadsBack(a: string, x: string)
    ensures Quoted(Escape(a) + (['"'] + x), a, x)
  {
    if a == [] {
      assert Escape(a) + (['"'] + x) == ['"'] + x;
    } else {
      EscapeStep(a, x);
      CharReadsBack(a[0], Escape(a[1..]) + (['"'] + x));
      StringReadsBack(a[1..], x);
    }
  }

  lemma {:induction false} OneReading(s: string, a: string, b: string, x: string, y: string)
    requires Quoted(s, a, x) && Quoted(s, b, y)
    ensures a == b && x == y
  {
    if a != [] && b != [] {
      OneReading(ReadChar(s).value.1, a[1..], b[1..], x, y);
      assert a == [a[0]] + a[1..] && b == [b[0]] + b[1..];
    } else if a == [] && b == [] {
      SamePrefix(['"'], ['"'], x, y);
    }
  }

  /** A quoted string ends at its own closing quote: what is inside and what follows can be told apart. */
  lemma EscapeEndsAtQuote(a: string, b: string, x: string, y: string)
    requires Escape(a) + (['"'] + x) == Escape(b) + (['"'] + y)
    ensures a == b && x == y
  {
    StringReadsBack(a, x);
    StringReadsBack(b, y);
    OneReading(Escape(a) + (['"'] + x), a, b, x, y);
  }

  lemma EscapeStep(a: string, x: string)
    requires a != []
    ensures Escape(a) + (['"'] + x) == EscapeChar(a[0]) + (Escape(a[1..]) + (['"'] + x))
  {
  }

  lemma ThenInjective(key: string, a: string, b: string, x: string, y: string)
    requires Then(key, a, x) == Then(key, b, y)
    ensures a == b && x == y
  {
    var head := ['"'] + key + ['"', ':', '"'];
    assert Then(key, a, x) == head + (Escape(a) + (['"'] + x));
    assert Then(key, b, y) == head + (Escape(b) + (['"'] + y));
    SamePrefix(head, head, Escape(a) + (['"'] + x), Escape(b) + (['"'] + y));
    EscapeEndsAtQuote(a, b, x, y);
  }

  lemma NextMember(key: string, a: string, b: string, x: string, y: string)
    requires Then(key, a, [','] + x) == Then(key, b, [','] + y)
    ensures a == b && x == y
  {
    ThenInjective(key, a, b, [','] + x, [','] + y);
    SamePrefix([','], [','], x, y);
  }

  /** Different claims are never signed as the same bytes. */
  lemma PayloadDeterminesClaims(c: Claims, d: Claims)
    requires CanonicalPayload(c) == CanonicalPayload(d)
    ensures c == d
  {
    var c5, d5 := Then("plan", c.plan, ['}']), Then("plan", d.plan, ['}']);
    var c4, d4 := Then("license_id", c.licenseId, [','] + c5), Then("license_id", d.licenseId, [','] + d5);
    var c3, d3 := Then("issued_at", c.issuedAt, [','] + c4), Then("issued_at", d.issuedAt, [','] + d4);
    var c2, d2 := Then("install_id", c.installId, [','] + c3), Then("install_id", d.installId, [','] + d3);
    SamePrefix(['{'], ['{'], Then("expires_at", c.expiresAt, [','] + c2), Then("expires_at", d.expiresAt, [','] + d2));
    NextMember("expires_at", c.expiresAt, d.expiresAt, c2, d2);
    NextMember("install_id", c.installId, d.installId, c3, d3);
    NextMember("issued_at", c.issuedAt, d.issuedAt, c4, d4);
    NextMember("license_id", c.licenseId, d.licenseId, c5, d5);
    ThenInjective("plan", c.plan, d.plan, ['}'], ['}']);
  }
}
