/** Encoding of signed licences (license-server/licensing.py): unpadded base64url and canonical JSON. */
module Licensing {
  import opened Wrappers

  type Byte = b: nat | b < 256

  // ---------------------------------------------------------------------------
  // base64url, sections 3.2 and 5 of RFC 4648
  // ---------------------------------------------------------------------------

  function Symbol(v: nat): (c: char)
    requires v < 64
    ensures SymbolValue(c) == Some(v) && c != '='
  {
    if v < 26 then 'A' + v as char
    else if v < 52 then 'a' + (v - 26) as char
    else if v < 62 then '0' + (v - 52) as char
    else if v == 62 then '-' else '_'
  }

  /** Python's url-safe decoder first maps `-` and `_` to `+` and `/`, so it takes both. */
  function SymbolValue(c: char): Option<nat> {
    if 'A' <= c <= 'Z' then Some(c as int - 'A' as int)
    else if 'a' <= c <= 'z' then Some(c as int - 'a' as int + 26)
    else if '0' <= c <= '9' then Some(c as int - '0' as int + 52)
    else if c == '-' || c == '+' then Some(62)
    else if c == '_' || c == '/' then Some(63)
    else None
  }

  /** Four symbols for three bytes. */
  function Quad(x: Byte, y: Byte, z: Byte): (q: string)
    ensures |q| == 4 && '=' !in q
  {
    [Symbol(x / 4), Symbol(x % 4 * 16 + y / 16), Symbol(y % 16 * 4 + z / 64), Symbol(z % 64)]
  }

  /** `base64.urlsafe_b64encode`, padding included. */
  function UrlsafeEncode(raw: seq<Byte>): string {
    if |raw| == 0 then ""
    else if |raw| == 1 then [Symbol(raw[0] / 4), Symbol(raw[0] % 4 * 16), '=', '=']
    else if |raw| == 2 then
      [Symbol(raw[0] / 4), Symbol(raw[0] % 4 * 16 + raw[1] / 16), Symbol(raw[1] % 16 * 4), '=']
    else
      Quad(raw[0], raw[1], raw[2]) + UrlsafeEncode(raw[3..])
  }

  /** `rstrip(b"=")`. */
  function StripPads(s: string): string {
    if s != [] && s[|s| - 1] == '=' then StripPads(s[..|s| - 1]) else s
  }

  function Pads(n: nat): string { seq(n, _ => '=') }

  /** The lenient decoder behind `base64.urlsafe_b64decode`: characters outside the alphabet are skipped, a
      pad that completes a quantum ends the input, and an unfinished quantum is an error (None). */
  function Decode(s: string, quad: nat, left: nat, pads: nat): Option<seq<nat>>
    requires quad < 4
  {
    if s == [] then (if quad == 0 then Some([]) else None)
    else if s[0] == '=' then
      if quad >= 2 && quad + pads + 1 >= 4 then Some([])
      else Decode(s[1..], quad, left, if quad >= 2 then pads + 1 else pads)
    else match SymbolValue(s[0])
      case None => Decode(s[1..], quad, left, pads)
      case Some(v) =>
        if quad == 0 then Decode(s[1..], 1, v, 0)
        else if quad == 1 then Emit(left * 4 + v / 16, Decode(s[1..], 2, v % 16, 0))
        else if quad == 2 then Emit(left * 16 + v / 4, Decode(s[1..], 3, v % 4, 0))
        else Emit(left * 64 + v, Decode(s[1..], 0, 0, 0))
  }

  function Emit(b: nat, rest: Option<seq<nat>>): Option<seq<nat>> {
    match rest
    case None => None
    case Some(bs) => Some([b] + bs)
  }

  /** Characters that are no symbol and no pad are skipped, and both alphabets of RFC 4648 are read. */
  lemma DecoderIsLenient(c: char, s: string, quad: nat, left: nat, pads: nat)
    requires quad < 4
    ensures !('A' <= c <= 'Z' || 'a' <= c <= 'z' || '0' <= c <= '9' || c in "-_+/=") ==>
              Decode([c] + s, quad, left, pads) == Decode(s, quad, left, pads)
    ensures Decode("+" + s, quad, left, pads) == Decode("-" + s, quad, left, pads)
    ensures Decode("/" + s, quad, left, pads) == Decode("_" + s, quad, left, pads)
  {
    assert ([c] + s)[1..] == ("+" + s)[1..] == ("-" + s)[1..] == ("/" + s)[1..] == ("_" + s)[1..] == s;
  }

  /** How an input ends behind two or three symbols of a quantum: two pads or one, and no fewer. */
  lemma EndOfQuantum(left: nat)
    ensures Decode("", 1, left, 0) == Decode("", 2, left, 0) == Decode("", 3, left, 0) == None
    ensures Decode("=", 2, left, 0) == None && Decode("==", 2, left, 0) == Some([]) && Decode("=", 3, left, 0) == Some([])
  {
    assert "="[1..] == "" && "=="[1..] == "=";
  }

  /** The bits of a symbol that wait for the next one. */
  function Waiting(c: char, quad: nat): nat
    requires SymbolValue(c).Some?
  {
    var v := SymbolValue(c).value;
    if quad == 0 then v else if quad == 1 then v % 16 else if quad == 2 then v % 4 else 0
  }

  lemma SymbolStep(c: char, s: string, quad: nat, left: nat)
    requires quad < 4 && SymbolValue(c).Some?
    ensures Decode([c] + s, quad, left, 0) == None <==> Decode(s, (quad + 1) % 4, Waiting(c, quad), 0) == None
  {
    assert ([c] + s)[1..] == s;
  }

  /** A quantum of two symbols takes two pads, one of three takes one; fewer are an error, as is a lone symbol. */
  lemma PadsComplete(a: char, b: char, c: char)
    requires SymbolValue(a).Some? && SymbolValue(b).Some? && SymbolValue(c).Some?
    ensures Decode([a] + "", 0, 0, 0) == None
    ensures Decode([a] + ([b] + ""), 0, 0, 0) == None && Decode([a] + ([b] + "="), 0, 0, 0) == None
    ensures Decode([a] + ([b] + "=="), 0, 0, 0) != None
    ensures Decode([a] + ([b] + ([c] + "")), 0, 0, 0) == None && Decode([a] + ([b] + ([c] + "=")), 0, 0, 0) != None
  {
    EndOfQuantum(Waiting(a, 0));
    EndOfQuantum(Waiting(b, 1));
    EndOfQuantum(Waiting(c, 2));
    forall s { SymbolStep(a, s, 0, 0); }
    forall s { SymbolStep(b, s, 1, Waiting(a, 0)); }
    forall s { SymbolStep(c, s, 2, Waiting(b, 1)); }
  }

  function B64Enc(raw: seq<Byte>): string { StripPads(UrlsafeEncode(raw)) }

  function B64Dec(value: string): Option<seq<nat>> {
    Decode(value + Pads((4 - |value| % 4) % 4), 0, 0, 0)
  }

  /** The encoding without its padding. */
  ghost function Unpadded(raw: seq<Byte>): string {
    if |raw| == 0 then ""
    else if |raw| == 1 then [Symbol(raw[0] / 4), Symbol(raw[0] % 4 * 16)]
    else if |raw| == 2 then [Symbol(raw[0] / 4), Symbol(raw[0] % 4 * 16 + raw[1] / 16), Symbol(raw[1] % 16 * 4)]
    else
      Quad(raw[0], raw[1], raw[2]) + Unpadded(raw[3..])
  }

  function PadsFor(n: nat): nat { if n % 3 == 0 then 0 else 3 - n % 3 }

  /** Symbols for `n` bytes. */
  function SymbolsFor(n: nat): nat { if n == 0 then 0 else if n < 3 then n + 1 else 4 + SymbolsFor(n - 3) }

  lemma {:induction false} SymbolsModuloFour(n: nat)
    ensures SymbolsFor(n) % 4 == if PadsFor(n) == 0 then 0 else 4 - PadsFor(n)
    ensures (4 - SymbolsFor(n) % 4) % 4 == PadsFor(n) && SymbolsFor(n) % 4 != 1
  {
    if n >= 3 {
      SymbolsModuloFour(n - 3);
      assert n % 3 == (n - 3) % 3;
    }
  }

  lemma {:induction false} UnpaddedLength(raw: seq<Byte>)
    ensures |Unpadded(raw)| == SymbolsFor(|raw|)
    decreases |raw|
  {
    if |raw| >= 3 { UnpaddedLength(raw[3..]); }
  }

  lemma {:induction false} UnpaddedShape(raw: seq<Byte>)
    ensures UrlsafeEncode(raw) == Unpadded(raw) + Pads(PadsFor(|raw|))
    ensures '=' !in Unpadded(raw)
    decreases |raw|
  {
    if |raw| >= 3 {
      var tail := raw[3..];
      UnpaddedShape(tail);
      assert |raw| % 3 == |tail| % 3;
      Regroup(Quad(raw[0], raw[1], raw[2]), Unpadded(tail), Pads(PadsFor(|raw|)));
    } else {
      assert Pads(0) == [] && Pads(1) == ['='] && Pads(2) == ['=', '='];
    }
  }

  lemma Regroup(a: string, b: string, c: string)
    ensures a + (b + c) == (a + b) + c
  {
  }

  lemma {:induction false} StripAll(s: string, n: nat)
    requires '=' !in s
    ensures StripPads(s + Pads(n)) == s
  {
    if n == 0 {
      assert s + Pads(0) == s;
    } else {
      StripAll(s, n - 1);
      assert (s + Pads(n))[..|s + Pads(n)| - 1] == s + Pads(n - 1);
    }
  }

  /** Encoded lengths modulo 4 are 0, 2 or 3, and the length tells how much padding was stripped. */
  lemma StrippedShape(raw: seq<Byte>)
    ensures UrlsafeEncode(raw) == B64Enc(raw) + Pads((4 - |B64Enc(raw)| % 4) % 4)
    ensures |B64Enc(raw)| % 4 != 1 && '=' !in B64Enc(raw)
  {
    UnpaddedLength(raw);
    SymbolsModuloFour(|raw|);
    UnpaddedShape(raw);
    StripAll(Unpadded(raw), PadsFor(|raw|));
    assert B64Enc(raw) == Unpadded(raw);
  }

  /** One whole quantum decodes to its three bytes. */
  lemma DecodeQuantum(a: nat, b: nat, c: nat, d: nat, rest: string)
    requires a < 64 && b < 64 && c < 64 && d < 64
    ensures Decode([Symbol(a), Symbol(b), Symbol(c), Symbol(d)] + rest, 0, 0, 0)
            == Emit(a * 4 + b / 16, Emit(b % 16 * 16 + c / 4, Emit(c % 4 * 64 + d, Decode(rest, 0, 0, 0))))
  {
    var s := [Symbol(a), Symbol(b), Symbol(c), Symbol(d)] + rest;
    assert s[1..][1..] == s[2..] && s[2..][1..] == s[3..] && s[3..][1..] == s[4..] == rest;
    assert Decode(s[3..], 3, c % 4, 0) == Emit(c % 4 * 64 + d, Decode(rest, 0, 0, 0));
    assert Decode(s[2..], 2, b % 16, 0) == Emit(b % 16 * 16 + c / 4, Decode(s[3..], 3, c % 4, 0));
    assert Decode(s[1..], 1, a, 0) == Emit(a * 4 + b / 16, Decode(s[2..], 2, b % 16, 0));
  }

  lemma DecodeOneByte(x: Byte)
    ensures Decode([Symbol(x / 4), Symbol(x % 4 * 16), '=', '='], 0, 0, 0) == Some([x])
  {
    var a, b := x / 4, x % 4 * 16;
    var s := [Symbol(a), Symbol(b), '=', '='];
    assert s[1..][1..] == s[2..] && s[2..] == ['=', '='] && s[2..][1..] == ['='];
    assert Decode(s[2..], 2, b % 16, 0) == Some([]);
    assert Decode(s[1..], 1, a, 0) == Emit(a * 4 + b / 16, Decode(s[2..], 2, b % 16, 0));
    assert [x] + [] == [x];
  }

  lemma DecodeTwoBytes(x: Byte, y: Byte)
    ensures Decode([Symbol(x / 4), Symbol(x % 4 * 16 + y / 16), Symbol(y % 16 * 4), '='], 0, 0, 0) == Some([x, y])
  {
    var a, b, c := x / 4, x % 4 * 16 + y / 16, y % 16 * 4;
    var s := [Symbol(a), Symbol(b), Symbol(c), '='];
    assert s[1..][1..] == s[2..] && s[2..][1..] == s[3..] && s[3..] == ['='];
    assert Decode(s[3..], 3, c % 4, 0) == Some([]);
    assert Decode(s[2..], 2, b % 16, 0) == Emit(b % 16 * 16 + c / 4, Decode(s[3..], 3, c % 4, 0));
    assert Decode(s[1..], 1, a, 0) == Emit(a * 4 + b / 16, Decode(s[2..], 2, b % 16, 0));
    assert [x] + ([y] + []) == [x, y];
  }

  /** The decoder reads back the padded encoding of any byte string. */
  lemma {:induction false} DecodePadded(raw: seq<Byte>)
    ensures Decode(UrlsafeEncode(raw), 0, 0, 0) == Some(raw)
    decreases |raw|
  {
    if |raw| == 1 {
      DecodeOneByte(raw[0]);
      assert raw == [raw[0]];
    } else if |raw| == 2 {
      DecodeTwoBytes(raw[0], raw[1]);
      assert raw == [raw[0], raw[1]];
    } else if |raw| >= 3 {
      DecodePadded(raw[3..]);
      DecodeThreeBytes(raw[0], raw[1], raw[2], UrlsafeEncode(raw[3..]));
      assert raw == [raw[0]] + ([raw[1]] + ([raw[2]] + raw[3..]));
    }
  }

  lemma DecodeThreeBytes(x: Byte, y: Byte, z: Byte, rest: string)
    ensures Decode(Quad(x, y, z) + rest, 0, 0, 0)
            == Emit(x, Emit(y, Emit(z, Decode(rest, 0, 0, 0))))
  {
    DecodeQuantum(x / 4, x % 4 * 16 + y / 16, y % 16 * 4 + z / 64, z % 64, rest);
    SplitBytes(x, y, z);
  }

  lemma SplitBytes(x: Byte, y: Byte, z: Byte)
    ensures var b, c := x % 4 * 16 + y / 16, y % 16 * 4 + z / 64;
            x / 4 * 4 + b / 16 == x && b % 16 * 16 + c / 4 == y && c % 4 * 64 + z % 64 == z
  {
  }

  /** Signatures and keys survive being stripped of padding: nothing is lost for any byte string. */
  lemma Base64RoundTrip(raw: seq<Byte>)
    ensures B64Dec(B64Enc(raw)) == Some(raw)
  {
    StrippedShape(raw);
    DecodePadded(raw);
  }

  lemma Base64IsInjective(a: seq<Byte>, b: seq<Byte>)
    requires B64Enc(a) == B64Enc(b)
    ensures a == b
  {
    Base64RoundTrip(a);
    Base64RoundTrip(b);
  }
}
