/**
 * The \u escapes of JSON (RFC 8259 section 7): whatever code points a text escapes, as one UTF-16
 * unit or as a surrogate pair, parse_string leaves their UTF-8 form (RFC 3629 sections 3 and 4).
 */
module JsonUnicode {
  import opened Bits
  import opened Json
  import opened JsonRoundTrip
  import opened Wrappers

  /** A Unicode scalar value: a code point that is no surrogate. */
  predicate Scalar(cp: nat) {
    cp <= 0x10FFFF && !(0xD800 <= cp <= 0xDFFF)
  }

  // ---- UTF-8 by the byte ranges of RFC 3629 section 4 ----

  predicate Tail(c: char) {
    0x80 <= c as int <= 0xBF
  }

  /** The scalar value that s starts with and the number of bytes it takes. */
  function DecodeUtf8(s: string): (r: Option<(nat, nat)>)
    ensures r.Some? ==> r.value.1 <= |s|
  {
    if s == "" then None
    else
      var a := s[0] as int;
      if a < 0x80 then Some((a, 1))
      else if |s| < 2 || !Tail(s[1]) then None
      else
        var b := s[1] as int - 0x80;
        if 0xC2 <= a <= 0xDF then Some(((a - 0xC0) * 64 + b, 2))
        else if |s| < 3 || !Tail(s[2]) then None
        else
          var c := s[2] as int - 0x80;
          if 0xE0 <= a <= 0xEF && (a == 0xE0 ==> b >= 0x20) && (a == 0xED ==> b < 0x20) then
            Some((((a - 0xE0) * 64 + b) * 64 + c, 3))
          else if |s| < 4 || !Tail(s[3]) then None
          else
            var d := s[3] as int - 0x80;
            if 0xF0 <= a <= 0xF4 && (a == 0xF0 ==> b >= 0x10) && (a == 0xF4 ==> b < 0x10) then
              Some(((((a - 0xF0) * 64 + b) * 64 + c) * 64 + d, 4))
            else None
  }

  /** Reading base-m digits back from a number. */
  lemma Join(high: nat, low: nat, m: nat)
    requires low < m
    ensures (high * m + low) / m == high && (high * m + low) % m == low
  {
    DivModUnique(high * m + low, m, high, low);
  }

  lemma Utf8One(x: nat, rest: string)
    requires x < 128
    ensures Utf8(x) == [Byte(x)] && DecodeUtf8(Utf8(x) + rest) == Some((x, 1))
  {
  }

  lemma Utf8Two(x: nat, y: nat, rest: string)
    requires 2 <= x < 32 && y < 64
    ensures Utf8(x * 64 + y) == [Byte(0xC0 + x), Byte(0x80 + y)]
    ensures DecodeUtf8(Utf8(x * 64 + y) + rest) == Some((x * 64 + y, 2))
  {
    Join(x, y, 64);
    var s := [Byte(0xC0 + x), Byte(0x80 + y)] + rest;
    assert s[0] == Byte(0xC0 + x) && s[1] == Byte(0x80 + y);
  }

  lemma Utf8Three(x: nat, y: nat, z: nat, rest: string)
    requires x < 16 && y < 64 && z < 64 && (x == 0 ==> y >= 32) && (x == 13 ==> y < 32)
    ensures Utf8((x * 64 + y) * 64 + z) == [Byte(0xE0 + x), Byte(0x80 + y), Byte(0x80 + z)]
    ensures DecodeUtf8(Utf8((x * 64 + y) * 64 + z) + rest) == Some(((x * 64 + y) * 64 + z, 3))
  {
    Join(x * 64 + y, z, 64);
    Join(x, y, 64);
    Join(x, y * 64 + z, 4096);
    var s := [Byte(0xE0 + x), Byte(0x80 + y), Byte(0x80 + z)] + rest;
    assert s[0] == Byte(0xE0 + x) && s[1] == Byte(0x80 + y) && s[2] == Byte(0x80 + z);
  }

  lemma Utf8Four(x: nat, y: nat, z: nat, w: nat, rest: string)
    requires x <= 4 && y < 64 && z < 64 && w < 64 && (x == 0 ==> y >= 16) && (x == 4 ==> y < 16)
    ensures ((x * 64 + y) * 64 + z) * 64 + w <= 0x10FFFF
    ensures Utf8(((x * 64 + y) * 64 + z) * 64 + w)
         == [Byte(0xF0 + x), Byte(0x80 + y), Byte(0x80 + z), Byte(0x80 + w)]
    ensures DecodeUtf8(Utf8(((x * 64 + y) * 64 + z) * 64 + w) + rest)
         == Some((((x * 64 + y) * 64 + z) * 64 + w, 4))
  {
    Join((x * 64 + y) * 64 + z, w, 64);
    Join(x * 64 + y, z, 64);
    Join(x * 64 + y, z * 64 + w, 4096);
    Join(x, y, 64);
    Join(x, (y * 64 + z) * 64 + w, 262144);
    var s := [Byte(0xF0 + x), Byte(0x80 + y), Byte(0x80 + z), Byte(0x80 + w)] + rest;
    assert s[0] == Byte(0xF0 + x) && s[1] == Byte(0x80 + y) && s[2] == Byte(0x80 + z) && s[3] == Byte(0x80 + w);
  }

  /** The bytes written for a scalar value are its UTF-8 form. */
  lemma Utf8Decodes(cp: nat, rest: string)
    requires Scalar(cp)
    ensures DecodeUtf8(Utf8(cp) + rest) == Some((cp, |Utf8(cp)|))
  {
    var q := cp / 64;
    var p := q / 64;
    if cp < 0x80 {
      Utf8One(cp, rest);
    } else if cp < 0x800 {
      Utf8Two(q, cp % 64, rest);
    } else if cp < 0x10000 {
      Utf8Three(p, q % 64, cp % 64, rest);
    } else {
      Utf8Four(p / 64, p % 64, q % 64, cp % 64, rest);
    }
  }

  /** And the only ones: no other bytes mean that scalar value. */
  lemma Utf8Shortest(s: string, cp: nat, n: nat)
    requires DecodeUtf8(s) == Some((cp, n))
    ensures Scalar(cp) && s[..n] == Utf8(cp)
  {
    hide Utf8;
    var a := s[0] as int;
    if a < 0x80 {
      Utf8One(a, "");
      assert s[..1] == [s[0]];
    } else {
      var b := s[1] as int - 0x80;
      if a <= 0xDF {
        Utf8Two(a - 0xC0, b, "");
        assert s[..2] == [s[0], s[1]];
      } else if a <= 0xEF {
        Utf8Three(a - 0xE0, b, s[2] as int - 0x80, "");
        assert s[..3] == [s[0], s[1], s[2]];
      } else {
        Utf8Four(a - 0xF0, b, s[2] as int - 0x80, s[3] as int - 0x80, "");
        assert s[..4] == [s[0], s[1], s[2], s[3]];
      }
    }
  }

  // ---- UTF-16 escapes ----

  function EscapeUnit(u: nat): string
    requires u < 0x10000
  {
    ['\\', 'u', HexDigit(u / 16 / 16 / 16), HexDigit(u / 16 / 16 % 16), HexDigit(u / 16 % 16), HexDigit(u % 16)]
  }

  /** The escape of a scalar value: a surrogate pair above the basic plane (RFC 8259 section 7). */
  function EscapeScalar(cp: nat): string
    requires Scalar(cp)
  {
    if cp < 0x10000 then EscapeUnit(cp)
    else EscapeUnit(0xD800 + (cp - 0x10000) / 1024) + EscapeUnit(0xDC00 + (cp - 0x10000) % 1024)
  }

  lemma UnitRoundTrip(u: nat, rest: string)
    requires u < 0x10000
    ensures ParseHex4((EscapeUnit(u) + rest)[2..]) == u
  {
    var s := (EscapeUnit(u) + rest)[2..];
    var v := u / 16;
    var w := v / 16;
    HexDigitValue(w / 16);
    HexDigitValue(w % 16);
    HexDigitValue(v % 16);
    HexDigitValue(u % 16);
    assert s[..4] == [HexDigit(w / 16), HexDigit(w % 16), HexDigit(v % 16), HexDigit(u % 16)];
    assert s[0] == s[..4][0] && s[1] == s[..4][1] && s[2] == s[..4][2] && s[3] == s[..4][3];
  }

  lemma ScalarRoundTrip(cp: nat, rest: string)
    requires Scalar(cp)
    ensures Utf16Literal(EscapeScalar(cp) + rest) == (Utf8(cp), |EscapeScalar(cp)|)
  {
    if cp < 0x10000 {
      UnitRoundTrip(cp, rest);
    } else {
      PairRoundTrip((cp - 0x10000) / 1024, (cp - 0x10000) % 1024, rest);
    }
  }

  lemma PairRoundTrip(a: nat, b: nat, rest: string)
    requires a < 1024 && b < 1024
    ensures Utf16Literal(EscapeUnit(0xD800 + a) + EscapeUnit(0xDC00 + b) + rest)
         == (Utf8(0x10000 + a * 1024 + b), 12)
  {
    var high, low := EscapeUnit(0xD800 + a), EscapeUnit(0xDC00 + b) + rest;
    assert EscapeUnit(0xD800 + a) + EscapeUnit(0xDC00 + b) + rest == high + low;
    UnitRoundTrip(0xD800 + a, low);
    UnitRoundTrip(0xDC00 + b, rest);
    PairLiteral(high + low, low, a, b);
  }

  lemma PairLiteral(s: string, low: string, a: nat, b: nat)
    requires a < 1024 && b < 1024
    requires |s| >= 12 && s[6..] == low && low[0] == '\\' && low[1] == 'u'
    requires ParseHex4(s[2..]) == 0xD800 + a && ParseHex4(low[2..]) == 0xDC00 + b
    ensures Utf16Literal(s) == (Utf8(0x10000 + a * 1024 + b), 12)
  {
    Join(54, a, 1024);
    Join(55, b, 1024);
    assert s[8..] == low[2..];
  }

  /** An escape is refused exactly when it is a lone or misplaced surrogate, or cut short. */
  lemma SurrogatesPair(s: string)
    requires |s| >= 6
    ensures var first := ParseHex4(s[2..]);
            Utf16Literal(s).1 == 0
            <==> 0xD800 <= first <= 0xDFFF
                 && !(first < 0xDC00 && |s| >= 12 && s[6] == '\\' && s[7] == 'u'
                      && 0xDC00 <= ParseHex4(s[8..]) <= 0xDFFF)
  {
  }

  // ---- Whole strings ----

  predicate Scalars(cps: seq<nat>) {
    forall cp :: cp in cps ==> Scalar(cp)
  }

  function EscapeAll(cps: seq<nat>): string
    requires Scalars(cps)
  {
    if cps == [] then "" else EscapeScalar(cps[0]) + EscapeAll(cps[1..])
  }

  function EncodeAll(cps: seq<nat>): string
    requires Scalars(cps)
  {
    if cps == [] then "" else assert Scalar(cps[0]); Utf8(cps[0]) + EncodeAll(cps[1..])
  }

  function DecodeAll(s: string): Option<seq<nat>> {
    if s == "" then Some([])
    else
      match DecodeUtf8(s)
      case None => None
      case Some((cp, n)) =>
        if n == 0 then None
        else
          match DecodeAll(s[n..])
          case None => None
          case Some(cps) => Some([cp] + cps)
  }

  /** Escaping every code point and parsing gives the text in UTF-8, which reads back as the code points. */
  lemma {:induction false} EscapedText(cps: seq<nat>)
    requires Scalars(cps)
    ensures Unescape(EscapeAll(cps)) == Some(EncodeAll(cps))
    ensures DecodeAll(EncodeAll(cps)) == Some(cps)
  {
    if cps != [] {
      var text, bytes := EscapeAll(cps), EncodeAll(cps);
      EscapedText(cps[1..]);
      ScalarRoundTrip(cps[0], EscapeAll(cps[1..]));
      assert text[|EscapeScalar(cps[0])|..] == EscapeAll(cps[1..]);
      Utf8Decodes(cps[0], EncodeAll(cps[1..]));
      assert bytes[|Utf8(cps[0])|..] == EncodeAll(cps[1..]);
      assert cps == [cps[0]] + cps[1..];
    }
  }
}
