/** Which pages count as a case page (browser_extensions/local_finding_capture/background.js:1-27). */
module CaptureUrls {
  import opened Wrappers

  /** What the URL parser finds in an address, or nothing for an address it rejects. */
  datatype Url = Url(scheme: string, origin: string, path: string)

  const ORIGINS: set<string> := {"https://joost.iveras.com", "http://localhost:5051"}
  const CASE_PATH := "/cms/workflow/case/"

  // ---------------------------------------------------------------------------
  // encodeURIComponent
  // ---------------------------------------------------------------------------

  predicate Unreserved(c: char) {
    'A' <= c <= 'Z' || 'a' <= c <= 'z' || '0' <= c <= '9' || c in "-_.!~*'()"
  }

  function Hex(n: nat): char
    requires n < 16
  {
    if n < 10 then ('0' as int + n) as char else ('A' as int + n - 10) as char
  }

  type octet = n: int | 0 <= n < 256

  function Percent(b: octet): string {
    ['%', Hex(b / 16), Hex(b % 16)]
  }

  function Utf8(c: char): seq<octet> {
    var n := c as int;
    if n < 0x80 then [n]
    else if n < 0x800 then [0xC0 + n / 64, 0x80 + n % 64]
    else if n < 0x1_0000 then [0xE0 + n / 4096, 0x80 + n / 64 % 64, 0x80 + n % 64]
    else [0xF0 + n / 262144, 0x80 + n / 4096 % 64, 0x80 + n / 64 % 64, 0x80 + n % 64]
  }

  function Escape(octets: seq<octet>): string {
    if octets == [] then "" else Percent(octets[0]) + Escape(octets[1..])
  }

  /** The octets of the UTF-8 form, each percent-encoded, unless the character is unreserved. */
  function EncodeChar(c: char): string {
    if Unreserved(c) then [c] else Escape(Utf8(c))
  }

  function Encode(s: string): string {
    if s == "" then "" else EncodeChar(s[0]) + Encode(s[1..])
  }

  /** Only case pages of the two dashboards count. */
  predicate IsCaseUrl(page: Option<Url>, caseId: string): (accepted: bool)
    ensures accepted ==> page.Some? && page.value.origin in {"https://joost.iveras.com", "http://localhost:5051"}
    ensures accepted ==> "/cms/workflow/case/" <= page.value.path
  {
    page.Some? && page.value.origin in ORIGINS && CASE_PATH + Encode(caseId) <= page.value.path
  }

  predicate IsCaptureable(page: Option<Url>) {
    page.Some? && (page.value.scheme == "https:" || page.value.scheme == "http:")
  }

  // ---------------------------------------------------------------------------
  // Whose page is accepted
  // ---------------------------------------------------------------------------

  /** Equal as far as both go. */
  predicate Agree<T(==)>(s: seq<T>, t: seq<T>) { s <= t || t <= s }

  lemma AgreeLater(p: string, x: string, y: string)
    requires Agree(p + x, p + y)
    ensures Agree(x, y)
  {
    SamePrefix(p, x, y);
    SamePrefix(p, y, x);
  }

  lemma PercentDecides(a: octet, x: string, b: octet, y: string)
    requires Agree(Percent(a) + x, Percent(b) + y)
    ensures a == b
  {
    var s, t := Percent(a) + x, Percent(b) + y;
    assert s[1] == t[1] && s[2] == t[2];
    assert Hex(a / 16) == Hex(b / 16) && Hex(a % 16) == Hex(b % 16);
  }

  lemma {:induction false} EscapeDecides(o: seq<octet>, x: string, p: seq<octet>, y: string)
    requires Agree(Escape(o) + x, Escape(p) + y)
    ensures Agree(o, p)
  {
    if o != [] && p != [] {
      assert Escape(o) + x == Percent(o[0]) + (Escape(o[1..]) + x);
      assert Escape(p) + y == Percent(p[0]) + (Escape(p[1..]) + y);
      PercentDecides(o[0], Escape(o[1..]) + x, p[0], Escape(p[1..]) + y);
      AgreeLater(Percent(o[0]), Escape(o[1..]) + x, Escape(p[1..]) + y);
      EscapeDecides(o[1..], x, p[1..], y);
      assert o == [o[0]] + o[1..] && p == [p[0]] + p[1..];
    }
  }

  /** What the octets of one character say. */
  function CodePoint(o: seq<int>): int {
    if |o| == 1 then o[0]
    else if |o| == 2 then (o[0] - 0xC0) * 64 + (o[1] - 0x80)
    else if |o| == 3 then (o[0] - 0xE0) * 4096 + (o[1] - 0x80) * 64 + (o[2] - 0x80)
    else if |o| == 4 then (o[0] - 0xF0) * 262144 + (o[1] - 0x80) * 4096 + (o[2] - 0x80) * 64 + (o[3] - 0x80)
    else 0
  }

  lemma Utf8Decodes(c: char)
    ensures CodePoint(Utf8(c)) == c as int
  {
    var n := c as int;
    assert n == n / 64 * 64 + n % 64;
    assert n / 64 == n / 4096 * 64 + n / 64 % 64;
    assert n / 4096 == n / 262144 * 64 + n / 4096 % 64;
  }

  /** The first octet tells the length. */
  lemma Utf8Length(c: char)
    ensures |Utf8(c)| == if Utf8(c)[0] < 0x80 then 1 else if Utf8(c)[0] < 0xE0 then 2 else if Utf8(c)[0] < 0xF0 then 3 else 4
  {
  }

  lemma Utf8Decides(c: char, d: char)
    requires Agree(Utf8(c), Utf8(d))
    ensures c == d
  {
    var s, t := Utf8(c), Utf8(d);
    Utf8Length(c);
    Utf8Length(d);
    assert s[0] == t[0];
    assert s == t by { assert |s| == |t|; }
    Utf8Decodes(c);
    Utf8Decodes(d);
  }

  /** The first character can be read off an encoded text. */
  lemma FirstCharDecides(c: char, x: string, d: char, y: string)
    requires Agree(EncodeChar(c) + x, EncodeChar(d) + y)
    ensures c == d
  {
    assert (EncodeChar(c) + x)[0] == (EncodeChar(d) + y)[0];
    if !Unreserved(c) && !Unreserved(d) {
      EscapeDecides(Utf8(c), x, Utf8(d), y);
      Utf8Decides(c, d);
    }
  }

  predicate EndsSegment(rest: string) { rest == "" || rest[0] == '/' }

  lemma EncodedIsNoRest(a: string, rest: string)
    requires a != "" && EndsSegment(rest)
    ensures !(Encode(a) <= rest)
  {
  }

  lemma EqualHeads(a: string, b: string, rest: string)
    requires a != "" && b != "" && a[0] == b[0]
    requires Encode(a[1..]) <= Encode(b[1..]) + rest <==> a[1..] <= b[1..]
    ensures Encode(a) <= Encode(b) + rest <==> a <= b
  {
    SamePrefix([a[0]], a[1..], b[1..]);
    assert a == [a[0]] + a[1..] && b == [b[0]] + b[1..];
    PrefixOfThree(EncodeChar(a[0]), Encode(a[1..]), Encode(b[1..]), rest);
  }

  lemma HeadsDiffer(c: char, x: string, d: char, y: string, z: string)
    requires c != d
    ensures !(EncodeChar(c) + x <= EncodeChar(d) + y + z)
  {
    if EncodeChar(c) + x <= EncodeChar(d) + y + z {
      assert EncodeChar(d) + y + z == EncodeChar(d) + (y + z);
      FirstCharDecides(c, x, d, y + z);
    }
  }

  lemma {:induction false} EncodedPrefix(a: string, b: string, rest: string)
    requires EndsSegment(rest)
    ensures Encode(a) <= Encode(b) + rest <==> a <= b
  {
    if a == "" {
    } else if b == "" {
      EncodedIsNoRest(a, rest);
    } else if a[0] == b[0] {
      EncodedPrefix(a[1..], b[1..], rest);
      EqualHeads(a, b, rest);
    } else {
      HeadsDiffer(a[0], Encode(a[1..]), b[0], Encode(b[1..]), rest);
    }
  }

  lemma SamePrefix(p: string, x: string, y: string)
    ensures p + x <= p + y <==> x <= y
  {
    if p + x <= p + y {
      forall i | 0 <= i < |x| ensures x[i] == y[i] {
        assert (p + x)[|p| + i] == (p + y)[|p| + i];
      }
    }
  }

  lemma PrefixOfThree(p: string, x: string, y: string, z: string)
    ensures p + x <= p + y + z <==> x <= y + z
  {
    assert p + y + z == p + (y + z);
    SamePrefix(p, x, y + z);
  }

  function CasePage(origin: string, owner: string, rest: string): Option<Url> {
    Some(Url("https:", origin, CASE_PATH + Encode(owner) + rest))
  }

  /** The check is a prefix test: it takes a page of case `owner` for one of `caseId` exactly when `caseId` is a
      prefix of `owner`. */
  lemma AcceptedIffPrefix(origin: string, owner: string, rest: string, caseId: string)
    requires origin in ORIGINS && EndsSegment(rest)
    ensures IsCaseUrl(CasePage(origin, owner, rest), caseId) <==> caseId <= owner
  {
    EncodedPrefix(caseId, owner, rest);
    PrefixOfThree(CASE_PATH, Encode(caseId), Encode(owner), rest);
  }

  /** So it is exact among identifiers of one length, such as the dashboard's UUIDs, and only then. */
  lemma ExactAmongEqualLengths(origin: string, owner: string, rest: string, caseId: string)
    requires origin in ORIGINS && EndsSegment(rest) && |owner| == |caseId|
    ensures IsCaseUrl(CasePage(origin, owner, rest), caseId) <==> owner == caseId
  {
    AcceptedIffPrefix(origin, owner, rest, caseId);
  }
}
