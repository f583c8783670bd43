/**
 * JSON trees, the text cJSON prints for them, and what its parser accepts.
 * Text is a sequence of bytes; a byte is a char, and no definition depends on its upper bound.
 */
module Json {
  import opened Decimals
  import opened Wrappers

  const NESTING_LIMIT: nat := 1000
  const INT_MAX: int := 0x7fff_ffff
  const INT_MIN: int := -0x8000_0000

  datatype Json =
    | Null
    | Bool(b: bool)
    | Number(d: real)
    | String(s: string)
    | Array(items: seq<Json>)
    | Object(members: seq<Member>)

  datatype Member = Member(key: string, value: Json)

  datatype Parsed<+T> = Fail | Ok(value: T, rest: string)

  /** valueint: truncated toward zero and saturated. */
  function ValueInt(d: real): int {
    if d >= INT_MAX as real then INT_MAX
    else if d <= INT_MIN as real then INT_MIN
    else if d >= 0.0 then d.Floor
    else -((-d).Floor)
  }

  /** Inside the 32-bit range the value differs by less than one, toward zero; outside it is the limit. */
  lemma ValueIntIs(d: real)
    ensures -2147483648.0 <= d <= 2147483647.0 ==>
              if d >= 0.0 then ValueInt(d) as real <= d < ValueInt(d) as real + 1.0 && ValueInt(d) >= 0
              else ValueInt(d) as real - 1.0 < d <= ValueInt(d) as real && ValueInt(d) <= 0
    ensures d > 2147483647.0 ==> ValueInt(d) == 2147483647
    ensures d < -2147483648.0 ==> ValueInt(d) == -2147483648
  {
  }

  predicate IsInt32(d: real, n: int) {
    -2147483648 <= n <= 2147483647 && d == n as real
  }

  /** So the numbers that are their own valueint are exactly the 32-bit integers. */
  lemma Whole32Iff(d: real)
    ensures d == ValueInt(d) as real <==> exists n :: IsInt32(d, n)
  {
    hide ValueInt;
    if d == ValueInt(d) as real {
      Int32IsWhole(d, ValueInt(d));
    }
    if n :| IsInt32(d, n) {
      Int32IsWhole(d, n);
    }
  }

  lemma Int32IsWhole(d: real, n: int)
    requires d == n as real
    ensures IsInt32(d, n) ==> ValueInt(d) == n
    ensures ValueInt(d) == n ==> IsInt32(d, n)
  {
  }

  function NestingItems(items: seq<Json>): nat
    decreases items, 0
  {
    if items == [] then 0
    else
      var n, m := Nesting(items[0]), NestingItems(items[1..]);
      if n > m then n else m
  }

  function NestingMembers(members: seq<Member>): nat
    decreases members, 0
  {
    if members == [] then 0
    else
      var n, m := Nesting(members[0].value), NestingMembers(members[1..]);
      if n > m then n else m
  }

  /** How deeply arrays and objects are nested in t. */
  function Nesting(t: Json): nat
    decreases t, 1
  {
    match t
    case Array(items) => 1 + NestingItems(items)
    case Object(members) => 1 + NestingMembers(members)
    case _ => 0
  }

  // ---- Printing ----

  function HexDigit(n: nat): char
    requires n < 16
  {
    "0123456789abcdef"[n]
  }

  /** print_string_ptr, one byte at a time. */
  function EscapeByte(c: char): string {
    if c == '\"' then "\\\""
    else if c == '\\' then "\\\\"
    else if c == '\U{8}' then "\\b"
    else if c == '\U{C}' then "\\f"
    else if c == '\n' then "\\n"
    else if c == '\r' then "\\r"
    else if c == '\t' then "\\t"
    else if c < ' ' then ['\\', 'u', '0', '0', HexDigit(c as int / 16), HexDigit(c as int % 16)]
    else [c]
  }

  function Escape(s: string): string {
    if s == "" then "" else EscapeByte(s[0]) + Escape(s[1..])
  }

  function PrintString(s: string): string {
    "\"" + Escape(s) + "\""
  }

  function Tabs(n: nat): (r: string)
    ensures |r| == n && forall i :: 0 <= i < n ==> r[i] == '\t'
  {
    if n == 0 then "" else Tabs(n - 1) + "\t"
  }

  function PrintItems(items: seq<Json>, fmt: bool, depth: nat): string
    decreases items, 0
  {
    if items == [] then ""
    else
      PrintValue(items[0], fmt, depth)
      + (if |items| > 1 then (if fmt then ", " else ",") else "")
      + PrintItems(items[1..], fmt, depth)
  }

  function PrintMembers(members: seq<Member>, fmt: bool, depth: nat): string
    decreases members, 0
  {
    if members == [] then ""
    else
      (if fmt then Tabs(depth) else "")
      + PrintString(members[0].key)
      + (if fmt then ":\t" else ":")
      + PrintValue(members[0].value, fmt, depth)
      + (if |members| > 1 then "," else "")
      + (if fmt then "\n" else "")
      + PrintMembers(members[1..], fmt, depth)
  }

  /** The text of t, printed at a nesting depth. */
  function PrintValue(t: Json, fmt: bool, depth: nat): string
    decreases t, 1
  {
    match t
    case Null => "null"
    case Bool(b) => if b then "true" else "false"
    case Number(d) => Decimal(ValueInt(d))
    case String(s) => PrintString(s)
    case Array(items) => "[" + PrintItems(items, fmt, depth + 1) + "]"
    case Object(members) =>
      (if fmt then "{\n" else "{")
      + PrintMembers(members, fmt, depth + 1)
      + (if fmt then Tabs(depth) else "")
      + "}"
  }

  // ---- Parsing; s is the text from the current offset to the end of the buffer ----

  /** buffer_skip_whitespace, which stays on the last byte when everything is white space. */
  function Skip(s: string): (r: string)
    ensures |r| <= |s|
    ensures s != "" ==> r != ""
  {
    if |s| >= 2 && s[0] <= ' ' then Skip(s[1..]) else s
  }

  function StartsWith(s: string, prefix: string): bool {
    |prefix| <= |s| && s[..|prefix|] == prefix
  }

  /** The index of the closing quotation mark, where a backslash hides the byte after it. */
  function ScanString(s: string): (end: int)
    ensures -1 <= end < |s|
    ensures end >= 0 ==> s[end] == '\"'
  {
    if s == "" then -1
    else if s[0] == '\"' then 0
    else if s[0] == '\\' then
      if |s| < 2 then -1
      else
        var end := ScanString(s[2..]);
        if end < 0 then -1 else end + 2
    else
      var end := ScanString(s[1..]);
      if end < 0 then -1 else end + 1
  }

  /** The value of a hexadecimal digit, or -1. */
  function HexValue(c: char): int {
    if '0' <= c <= '9' then c as int - '0' as int
    else if 'A' <= c <= 'F' then 10 + c as int - 'A' as int
    else if 'a' <= c <= 'f' then 10 + c as int - 'a' as int
    else -1
  }

  /** parse_hex4, which reads any malformed group as zero. */
  function ParseHex4(s: string): (h: nat)
    requires |s| >= 4
    ensures h <= 0xFFFF
  {
    var a, b, c, d := HexValue(s[0]), HexValue(s[1]), HexValue(s[2]), HexValue(s[3]);
    if a < 0 || b < 0 || c < 0 || d < 0 then 0
    else ((a * 16 + b) * 16 + c) * 16 + d
  }

  function Byte(n: nat): char
    requires n < 256
  {
    n as char
  }

  /** The UTF-8 form of a code point. */
  function Utf8(cp: nat): string
    requires cp <= 0x10FFFF
  {
    if cp < 0x80 then [Byte(cp)]
    else if cp < 0x800 then [Byte(0xC0 + cp / 64), Byte(0x80 + cp % 64)]
    else if cp < 0x10000 then [Byte(0xE0 + cp / 4096), Byte(0x80 + cp / 64 % 64), Byte(0x80 + cp % 64)]
    else [Byte(0xF0 + cp / 262144), Byte(0x80 + cp / 4096 % 64), Byte(0x80 + cp / 64 % 64), Byte(0x80 + cp % 64)]
  }

  /** utf16_literal_to_utf8: the bytes written, and how much of s they stand for (0 on failure). */
  function Utf16Literal(s: string): (r: (string, nat))
    ensures r.1 <= |s|
  {
    if |s| < 6 then ("", 0)
    else
      var first := ParseHex4(s[2..]);
      if 0xDC00 <= first <= 0xDFFF then ("", 0)
      else if 0xD800 <= first <= 0xDBFF then
        if |s| < 12 || s[6] != '\\' || s[7] != 'u' then ("", 0)
        else
          var second := ParseHex4(s[8..]);
          if second < 0xDC00 || second > 0xDFFF then ("", 0)
          else (Utf8(0x10000 + first % 1024 * 1024 + second % 1024), 12)
      else (Utf8(first), 6)
  }

  /** The byte a two-byte escape stands for, or NUL when there is none. */
  function SimpleEscape(c: char): char {
    if c == 'b' then '\U{8}'
    else if c == 'f' then '\U{C}'
    else if c == 'n' then '\n'
    else if c == 'r' then '\r'
    else if c == 't' then '\t'
    else if c == '\"' || c == '\\' || c == '/' then c
    else '\0'
  }

  /** The copying loop of parse_string; the byte after body is the closing quotation mark. */
  function Unescape(body: string): Option<string> {
    if body == "" then Some("")
    else if body[0] != '\\' then
      match Unescape(body[1..])
      case None => None
      case Some(t) => Some([body[0]] + t)
    else if |body| == 1 then Some("\"")
    else if body[1] == 'u' then
      var (bytes, used) := Utf16Literal(body);
      if used == 0 then None
      else
        match Unescape(body[used..])
        case None => None
        case Some(t) => Some(bytes + t)
    else if SimpleEscape(body[1]) == '\0' then None
    else
      match Unescape(body[2..])
      case None => None
      case Some(t) => Some([SimpleEscape(body[1])] + t)
  }

  /** What a C string holds: everything before the first NUL. */
  function CString(s: string): string {
    if s == "" || s[0] == '\0' then "" else [s[0]] + CString(s[1..])
  }

  function ParseString(s: string): (r: Parsed<string>)
    ensures r.Ok? ==> |r.rest| < |s|
  {
    if s == "" || s[0] != '\"' then Fail
    else
      var end := ScanString(s[1..]);
      if end < 0 then Fail
      else
        match Unescape(s[1..][..end])
        case None => Fail
        case Some(t) => Ok(CString(t), s[1..][end + 1..])
  }

  predicate IsNumberByte(c: char) {
    IsDigit(c) || c == '+' || c == '-' || c == 'e' || c == 'E' || c == '.'
  }

  /** The length of the longest prefix of s made of number bytes. */
  function NumberLength(s: string): (n: nat)
    ensures n <= |s|
  {
    if s == "" || !IsNumberByte(s[0]) then 0 else 1 + NumberLength(s[1..])
  }

  function Pow10(n: nat): (r: real)
    ensures r > 0.0
  {
    if n == 0 then 1.0 else 10.0 * Pow10(n - 1)
  }

  function SignLength(s: string): (n: nat)
    ensures n <= |s|
  {
    if s != "" && (s[0] == '+' || s[0] == '-') then 1 else 0
  }

  /** The decimal exponent at the start of s and its length; (0, 0) when there is none. */
  function Exponent(s: string): (r: (int, nat))
    ensures r.1 <= |s|
  {
    if s == "" || (s[0] != 'e' && s[0] != 'E') then (0, 0)
    else
      var sign := SignLength(s[1..]);
      var digits := s[1 + sign..];
      var n := CountDigits(digits);
      if n == 0 then (0, 0)
      else
        var v: int := DigitsValue(digits[..n]);
        (if sign == 1 && s[1] == '-' then -v else v, 1 + sign + n)
  }

  function Scale(x: real, e: int): real {
    if e >= 0 then x * Pow10(e) else x / Pow10(-e)
  }

  /** strtod after the sign. */
  function StrtodUnsigned(t: string): (r: (real, nat))
    ensures r.1 <= |t|
  {
    var whole := CountDigits(t);
    var dot := if whole < |t| && t[whole] == '.' then 1 else 0;
    var u := t[whole + dot..];
    var frac := if dot == 1 then CountDigits(u) else 0;
    if whole + frac == 0 then (0.0, 0)
    else
      var (e, used) := Exponent(u[frac..]);
      (Scale(DigitsValue(t[..whole] + u[..frac]) as real / Pow10(frac), e), whole + dot + frac + used)
  }

  /** strtod on decimal text, without rounding: the value and how much of s it uses. */
  function Strtod(s: string): (r: (real, nat))
    ensures r.1 <= |s|
  {
    var sign := SignLength(s);
    var (x, n) := StrtodUnsigned(s[sign..]);
    if n == 0 then (0.0, 0) else (if sign == 1 && s[0] == '-' then -x else x, sign + n)
  }

  function ParseNumber(s: string): (r: Parsed<Json>)
    ensures r.Ok? ==> |r.rest| < |s|
  {
    var (d, used) := Strtod(s[..NumberLength(s)]);
    if used == 0 then Fail else Ok(Number(d), s[used..])
  }

  function ParseValue(s: string, depth: nat): (r: Parsed<Json>)
    ensures r.Ok? ==> |r.rest| < |s|
    decreases |s|, 2
  {
    if StartsWith(s, "null") then Ok(Null, s[4..])
    else if StartsWith(s, "false") then Ok(Bool(false), s[5..])
    else if StartsWith(s, "true") then Ok(Bool(true), s[4..])
    else if s == "" then Fail
    else if s[0] == '\"' then
      match ParseString(s)
      case Fail => Fail
      case Ok(t, rest) => Ok(String(t), rest)
    else if s[0] == '-' || IsDigit(s[0]) then ParseNumber(s)
    else if s[0] == '[' then ParseArray(s, depth)
    else if s[0] == '{' then ParseObject(s, depth)
    else Fail
  }

  function ParseArray(s: string, depth: nat): (r: Parsed<Json>)
    requires s != ""
    ensures r.Ok? ==> |r.rest| < |s|
    decreases |s|, 1
  {
    var r := Skip(s[1..]);
    if depth >= NESTING_LIMIT || s[0] != '[' || r == "" then Fail
    else if r[0] == ']' then Ok(Array([]), r[1..])
    else
      match ParseItems(r, depth + 1)
      case Fail => Fail
      case Ok(items, rest) => Ok(Array(items), rest)
  }

  /** The elements from s on, up to and including the closing bracket. */
  function ParseItems(s: string, depth: nat): (r: Parsed<seq<Json>>)
    ensures r.Ok? ==> |r.rest| < |s|
    decreases |s|, 3
  {
    match ParseValue(Skip(s), depth)
    case Fail => Fail
    case Ok(item, rest) =>
      var r := Skip(rest);
      if r == "" then Fail
      else if r[0] == ',' then
        match ParseItems(r[1..], depth)
        case Fail => Fail
        case Ok(items, rest') => Ok([item] + items, rest')
      else if r[0] == ']' then Ok([item], r[1..])
      else Fail
  }

  function ParseObject(s: string, depth: nat): (r: Parsed<Json>)
    requires s != ""
    ensures r.Ok? ==> |r.rest| < |s|
    decreases |s|, 1
  {
    var r := Skip(s[1..]);
    if depth >= NESTING_LIMIT || s[0] != '{' || r == "" then Fail
    else if r[0] == '}' then Ok(Object([]), r[1..])
    else
      match ParseMembers(r, depth + 1)
      case Fail => Fail
      case Ok(members, rest) => Ok(Object(members), rest)
  }

  /** One name, its colon and its value. */
  function ParseMember(s: string, depth: nat): (r: Parsed<Member>)
    ensures r.Ok? ==> |r.rest| < |s|
    decreases |s|, 3
  {
    match ParseString(Skip(s))
    case Fail => Fail
    case Ok(key, rest) =>
      var r := Skip(rest);
      if r == "" || r[0] != ':' then Fail
      else
        match ParseValue(Skip(r[1..]), depth)
        case Fail => Fail
        case Ok(value, rest') => Ok(Member(key, value), rest')
  }

  /** The members from s on, up to and including the closing brace. */
  function ParseMembers(s: string, depth: nat): (r: Parsed<seq<Member>>)
    ensures r.Ok? ==> |r.rest| < |s|
    decreases |s|, 4
  {
    match ParseMember(s, depth)
    case Fail => Fail
    case Ok(member, rest) =>
      var r := Skip(rest);
      if r == "" then Fail
      else if r[0] == ',' then
        match ParseMembers(r[1..], depth)
        case Fail => Fail
        case Ok(members, rest') => Ok([member] + members, rest')
      else if r[0] == '}' then Ok([member], r[1..])
      else Fail
  }

  function SkipBom(s: string): string {
    if |s| > 4 && s[..3] == [Byte(0xEF), Byte(0xBB), Byte(0xBF)] then s[3..] else s
  }

  /** cJSON_ParseWithLengthOpts. */
  function ParseBytes(s: string, requireNullTerminated: bool): Parsed<Json> {
    if s == "" then Fail
    else
      match ParseValue(Skip(SkipBom(s)), 0)
      case Fail => Fail
      case Ok(t, rest) =>
        if !requireNullTerminated then Ok(t, rest)
        else
          var r := Skip(rest);
          if r == "" || r[0] != '\0' then Fail else Ok(t, r)
  }

  /** cJSON_Parse of a NUL-terminated text. */
  function Parse(text: string): Parsed<Json> {
    ParseBytes(text + "\0", false)
  }
}
