/**
 * The grammar of RFC 8259 as a syntax tree: every way to write a value, with any white space and any
 * escapes, and the value it means. The parser accepts every such text and gives its meaning.
 */
module JsonGrammar {
  import opened Decimals
  import opened Json
  import opened Wrappers

  // ---- White space (section 2) ----

  predicate Blank(s: string) {
    forall i :: 0 <= i < |s| ==> s[i] in [' ', '\t', '\n', '\r']
  }

  predicate Dark(s: string) {
    s != "" && s[0] > ' '
  }

  lemma {:induction false} SkipBlank(blank: string, s: string)
    requires Blank(blank) && Dark(s)
    ensures Skip(blank + s) == s
  {
    if blank == "" {
      assert blank + s == s;
    } else {
      assert (blank + s)[1..] == blank[1..] + s;
      SkipBlank(blank[1..], s);
    }
  }

  // ---- Numbers (section 6) ----

  /** An optional minus, an integer part, an optional fraction and an optional exponent. */
  datatype NumberText = NumberText(negative: bool, whole: string, fraction: string, exponent: Option<ExponentText>)

  datatype ExponentText = ExponentText(letter: char, sign: string, digits: string)

  predicate WellFormedNumber(n: NumberText) {
    && AllDigits(n.whole) && n.whole != "" && (|n.whole| > 1 ==> n.whole[0] != '0')
    && AllDigits(n.fraction)
    && (n.exponent.Some? ==>
          var e := n.exponent.value;
          e.letter in ['e', 'E'] && e.sign in ["", "+", "-"] && AllDigits(e.digits) && e.digits != "")
  }

  function RenderExponent(e: Option<ExponentText>): string {
    match e
    case None => ""
    case Some(ExponentText(letter, sign, digits)) => [letter] + sign + digits
  }

  function RenderNumber(n: NumberText): string {
    (if n.negative then "-" else "") + n.whole + (if n.fraction == "" then "" else "." + n.fraction)
    + RenderExponent(n.exponent)
  }

  function ExponentValue(e: Option<ExponentText>): int
    requires e.Some? ==> AllDigits(e.value.digits)
  {
    match e
    case None => 0
    case Some(ExponentText(_, sign, digits)) =>
      var v: int := DigitsValue(digits);
      if sign == "-" then -v else v
  }

  function Mantissa(whole: string, fraction: string): real
    requires AllDigits(whole) && AllDigits(fraction)
  {
    DigitsValue(whole + fraction) as real / Pow10(|fraction|)
  }

  function NumberValue(n: NumberText): real
    requires WellFormedNumber(n)
  {
    var x := Scale(Mantissa(n.whole, n.fraction), ExponentValue(n.exponent));
    if n.negative then -x else x
  }

  // ---- Strings (section 7) ----

  /** One piece of a string: a byte as it is, a two-byte escape, a UTF-16 unit or a surrogate pair. */
  datatype Unit = Raw(c: char) | Short(e: char) | Long(hex: string) | Pair(high: string, low: string)

  predicate FourHex(h: string) {
    |h| == 4 && forall i :: 0 <= i < 4 ==> HexValue(h[i]) >= 0
  }

  predicate WellFormedUnit(u: Unit) {
    match u
    case Raw(c) => c >= ' ' && c != '\"' && c != '\\'
    case Short(e) => SimpleEscape(e) != '\0'
    case Long(hex) => FourHex(hex)
    case Pair(high, low) =>
      FourHex(high) && FourHex(low) && 0xD800 <= ParseHex4(high) <= 0xDBFF && 0xDC00 <= ParseHex4(low) <= 0xDFFF
  }

  function RenderUnit(u: Unit): string {
    match u
    case Raw(c) => [c]
    case Short(e) => ['\\', e]
    case Long(hex) => "\\u" + hex
    case Pair(high, low) => "\\u" + high + "\\u" + low
  }

  function UnitValue(u: Unit): string
    requires WellFormedUnit(u)
  {
    match u
    case Raw(c) => [c]
    case Short(e) => [SimpleEscape(e)]
    case Long(hex) => Utf8(ParseHex4(hex))
    case Pair(high, low) => Utf8(0x10000 + (ParseHex4(high) - 0xD800) * 1024 + (ParseHex4(low) - 0xDC00))
  }

  /** A UTF-16 unit in the surrogate range. */
  predicate Lone(u: Unit)
    requires WellFormedUnit(u)
  {
    u.Long? && 0xD800 <= ParseHex4(u.hex) <= 0xDFFF
  }

  /** Two units written one after the other that are a surrogate pair. */
  predicate MakesPair(u: Unit, v: Unit)
    requires WellFormedUnit(u) && WellFormedUnit(v)
  {
    u.Long? && v.Long? && 0xD800 <= ParseHex4(u.hex) <= 0xDBFF && 0xDC00 <= ParseHex4(v.hex) <= 0xDFFF
  }

  /** Every surrogate pair is taken as one piece. */
  predicate WellFormedUnits(units: seq<Unit>) {
    units != [] ==>
      WellFormedUnit(units[0]) && WellFormedUnits(units[1..]) && (|units| > 1 ==> !MakesPair(units[0], units[1]))
  }

  /** No surrogate stands alone; the grammar allows one that does, but it means no character. */
  predicate Whole(units: seq<Unit>)
    requires WellFormedUnits(units)
  {
    units != [] ==> !Lone(units[0]) && Whole(units[1..])
  }

  function RenderUnits(units: seq<Unit>): string {
    if units == [] then "" else RenderUnit(units[0]) + RenderUnits(units[1..])
  }

  function UnitsValue(units: seq<Unit>): string
    requires WellFormedUnits(units)
  {
    if units == [] then "" else UnitValue(units[0]) + UnitsValue(units[1..])
  }

  /** A C string ends at its first NUL, which only the escape of U+0000 can put there. */
  function StringValue(units: seq<Unit>): string
    requires WellFormedUnits(units)
  {
    CString(UnitsValue(units))
  }

  function RenderString(units: seq<Unit>): string {
    "\"" + RenderUnits(units) + "\""
  }

  // ---- Values (sections 3 to 5) ----

  datatype Syntax =
    | Word(word: Json)
    | Num(number: NumberText)
    | Str(units: seq<Unit>)
    | Arr(blank: string, elements: seq<Element>)
    | Obj(blank: string, fields: seq<Field>)

  /** A value between white space. */
  datatype Element = Element(before: string, value: Syntax, after: string)

  /** A name and a value with white space around each. */
  datatype Field = Field(before: string, name: seq<Unit>, afterName: string, element: Element)

  predicate WellFormed(x: Syntax)
    decreases x, 2
  {
    match x
    case Word(t) => t.Null? || t.Bool?
    case Num(n) => WellFormedNumber(n)
    case Str(units) => WellFormedUnits(units)
    case Arr(blank, elements) => Blank(blank) && WellFormedElements(elements)
    case Obj(blank, fields) => Blank(blank) && WellFormedFields(fields)
  }

  predicate WellFormedElement(e: Element)
    decreases e, 3
  {
    Blank(e.before) && WellFormed(e.value) && Blank(e.after)
  }

  predicate WellFormedElements(elements: seq<Element>)
    decreases elements, 1
  {
    elements != [] ==> WellFormedElement(elements[0]) && WellFormedElements(elements[1..])
  }

  predicate WellFormedField(f: Field)
    decreases f, 4
  {
    Blank(f.before) && WellFormedUnits(f.name) && Blank(f.afterName) && WellFormedElement(f.element)
  }

  predicate WellFormedFields(fields: seq<Field>)
    decreases fields, 1
  {
    fields != [] ==> WellFormedField(fields[0]) && WellFormedFields(fields[1..])
  }

  /** No string or name of the value has a lone surrogate. */
  predicate Sound(x: Syntax)
    requires WellFormed(x)
    decreases x, 2
  {
    match x
    case Word(_) => true
    case Num(_) => true
    case Str(units) => Whole(units)
    case Arr(_, elements) => SoundElements(elements)
    case Obj(_, fields) => SoundFields(fields)
  }

  predicate SoundElements(elements: seq<Element>)
    requires WellFormedElements(elements)
    decreases elements, 1
  {
    if elements == [] then true
    else assert WellFormedElement(elements[0]); Sound(elements[0].value) && SoundElements(elements[1..])
  }

  predicate SoundFields(fields: seq<Field>)
    requires WellFormedFields(fields)
    decreases fields, 1
  {
    if fields == [] then true
    else
      assert WellFormedField(fields[0]) && WellFormedElement(fields[0].element);
      Whole(fields[0].name) && Sound(fields[0].element.value) && SoundFields(fields[1..])
  }

  function Render(x: Syntax): string
    decreases x, 2
  {
    match x
    case Word(t) => if t.Null? then "null" else if t.Bool? && t.b then "true" else "false"
    case Num(n) => RenderNumber(n)
    case Str(units) => RenderString(units)
    case Arr(blank, elements) => if elements == [] then "[" + (blank + "]") else "[" + RenderElements(elements)
    case Obj(blank, fields) => if fields == [] then "{" + (blank + "}") else "{" + RenderFields(fields)
  }

  function RenderElement(e: Element): string
    decreases e, 3
  {
    e.before + (Render(e.value) + e.after)
  }

  /** The elements with their commas, and the closing bracket. */
  function RenderElements(elements: seq<Element>): string
    decreases elements, 1
  {
    if elements == [] then ""
    else RenderElement(elements[0]) + (if |elements| == 1 then "]" else "," + RenderElements(elements[1..]))
  }

  function RenderField(f: Field): string
    decreases f, 4
  {
    f.before + (RenderString(f.name) + (f.afterName + (":" + RenderElement(f.element))))
  }

  /** The members with their commas, and the closing brace. */
  function RenderFields(fields: seq<Field>): string
    decreases fields, 1
  {
    if fields == [] then ""
    else RenderField(fields[0]) + (if |fields| == 1 then "}" else "," + RenderFields(fields[1..]))
  }

  function Value(x: Syntax): Json
    requires WellFormed(x)
    decreases x, 2
  {
    match x
    case Word(t) => t
    case Num(n) => Number(NumberValue(n))
    case Str(units) => String(StringValue(units))
    case Arr(_, elements) => Array(ElementValues(elements))
    case Obj(_, fields) => Object(FieldValues(fields))
  }

  function ElementValues(elements: seq<Element>): (r: seq<Json>)
    requires WellFormedElements(elements)
    ensures |r| == |elements|
    decreases elements, 1
  {
    if elements == [] then []
    else assert WellFormedElement(elements[0]); [Value(elements[0].value)] + ElementValues(elements[1..])
  }

  function FieldValues(fields: seq<Field>): (r: seq<Member>)
    requires WellFormedFields(fields)
    ensures |r| == |fields|
    decreases fields, 1
  {
    if fields == [] then []
    else
      assert WellFormedField(fields[0]) && WellFormedElement(fields[0].element);
      [Member(StringValue(fields[0].name), Value(fields[0].element.value))] + FieldValues(fields[1..])
  }

  // ---- The parser accepts numbers ----

  predicate Terminated(rest: string) {
    rest == "" || !IsNumberByte(rest[0])
  }

  predicate NumberBytes(s: string) {
    forall i :: 0 <= i < |s| ==> IsNumberByte(s[i])
  }

  lemma {:induction false} NumberLengthIs(s: string, rest: string)
    requires NumberBytes(s) && Terminated(rest)
    ensures NumberLength(s + rest) == |s|
  {
    if s == "" {
      assert s + rest == rest;
    } else {
      assert (s + rest)[1..] == s[1..] + rest;
      NumberLengthIs(s[1..], rest);
    }
  }

  predicate WellFormedExponent(e: Option<ExponentText>) {
    match e
    case None => true
    case Some(ExponentText(letter, sign, digits)) =>
      letter in ['e', 'E'] && sign in ["", "+", "-"] && AllDigits(digits) && digits != ""
  }

  lemma FirstDigit(digits: string)
    requires AllDigits(digits) && digits != ""
    ensures IsDigit(digits[0]) && CountDigits(digits) == |digits|
  {
    CountAllDigits(digits, "");
    assert digits + "" == digits;
  }

  lemma ExponentRead(e: Option<ExponentText>)
    requires WellFormedExponent(e)
    ensures Exponent(RenderExponent(e)) == (ExponentValue(e), |RenderExponent(e)|)
    ensures RenderExponent(e) == "" || RenderExponent(e)[0] in ['e', 'E']
  {
    if e.Some? {
      var ExponentText(letter, sign, digits) := e.value;
      FirstDigit(digits);
      hide CountDigits, DigitsValue, AllDigits;
      var s := RenderExponent(e);
      assert s[1..] == sign + digits;
      assert SignLength(sign + digits) == |sign|;
      assert s[1 + |sign|..] == digits && digits[..|digits|] == digits;
    }
  }

  /** What comes after the sign: strtod splits it where the grammar does. */
  lemma UnsignedRead(whole: string, fraction: string, tail: string)
    requires AllDigits(whole) && whole != "" && AllDigits(fraction)
    requires tail == "" || (!IsDigit(tail[0]) && tail[0] != '.')
    ensures var t := whole + ((if fraction == "" then "" else "." + fraction) + tail);
            var (e, used) := Exponent(tail);
            StrtodUnsigned(t) == (Scale(Mantissa(whole, fraction), e), |t| - |tail| + used)
  {
    hide CountDigits, DigitsValue, Exponent, Pow10, Scale;
    var point := (if fraction == "" then "" else "." + fraction) + tail;
    var t := whole + point;
    CountAllDigits(whole, point);
    CountAllDigits(fraction, tail);
    assert t[..|whole|] == whole;
    if fraction == "" {
      assert point == tail && t[|whole| + 0..] == tail && tail[0..] == tail && tail[..0] == "";
    } else {
      var u := fraction + tail;
      assert t[|whole|] == '.' && t[|whole| + 1..] == u;
      assert u[..|fraction|] == fraction && u[|fraction|..] == tail;
    }
  }

  /** strtod reads a number of the grammar as its value and uses it up. */
  lemma StrtodRead(n: NumberText)
    requires WellFormedNumber(n)
    ensures Strtod(RenderNumber(n)) == (NumberValue(n), |RenderNumber(n)|)
  {
    hide StrtodUnsigned, Exponent, Strtod, Scale, Mantissa, ExponentValue, CountDigits, AllDigits, RenderExponent;
    var tail := RenderExponent(n.exponent);
    FirstDigit(n.whole);
    ExponentRead(n.exponent);
    UnsignedRead(n.whole, n.fraction, tail);
    SignedRead(AfterSign(n));
    RenderSplit(n);
  }

  function AfterSign(n: NumberText): string {
    n.whole + ((if n.fraction == "" then "" else "." + n.fraction) + RenderExponent(n.exponent))
  }

  lemma RenderSplit(n: NumberText)
    ensures RenderNumber(n) == if n.negative then "-" + AfterSign(n) else AfterSign(n)
  {
    hide RenderExponent;
    var tail := RenderExponent(n.exponent);
    var point := if n.fraction == "" then "" else "." + n.fraction;
    assert "" + n.whole == n.whole;
    assert n.whole + point + tail == n.whole + (point + tail);
    assert "-" + n.whole + point + tail == "-" + (n.whole + (point + tail));
  }

  lemma SignedRead(t: string)
    requires t != "" && IsDigit(t[0]) && StrtodUnsigned(t).1 > 0
    ensures Strtod(t) == StrtodUnsigned(t)
    ensures Strtod("-" + t) == (-StrtodUnsigned(t).0, 1 + StrtodUnsigned(t).1)
  {
    hide StrtodUnsigned;
    assert t[0..] == t && ("-" + t)[1..] == t;
  }

  lemma NumberAccepted(n: NumberText, rest: string)
    requires WellFormedNumber(n) && Terminated(rest)
    ensures ParseNumber(RenderNumber(n) + rest) == Ok(Number(NumberValue(n)), rest)
    ensures RenderNumber(n) != "" && (RenderNumber(n)[0] == '-' || IsDigit(RenderNumber(n)[0]))
  {
    var s := RenderNumber(n);
    ExponentRead(n.exponent);
    FirstDigit(n.whole);
    assert NumberBytes(s);
    NumberLengthIs(s, rest);
    assert (s + rest)[..|s|] == s && (s + rest)[|s|..] == rest;
    hide Strtod, RenderNumber;
    StrtodRead(n);
  }

  // ---- The parser accepts strings ----

  lemma ScanPlain(c: char, t: string)
    requires c != '\"' && c != '\\' && ScanString(t) >= 0
    ensures ScanString([c] + t) == 1 + ScanString(t)
  {
    assert ([c] + t)[1..] == t;
  }

  lemma ScanEscape(c: char, t: string)
    requires ScanString(t) >= 0
    ensures ScanString(['\\', c] + t) == 2 + ScanString(t)
  {
    assert (['\\', c] + t)[2..] == t;
  }

  lemma ScanHex(hex: string, t: string)
    requires FourHex(hex) && ScanString(t) >= 0
    ensures ScanString("\\u" + hex + t) == 6 + ScanString(t)
  {
    hide ScanString;
    assert HexValue(hex[0]) >= 0 && HexValue(hex[1]) >= 0 && HexValue(hex[2]) >= 0 && HexValue(hex[3]) >= 0;
    ScanPlain(hex[3], t);
    ScanPlain(hex[2], [hex[3]] + t);
    ScanPlain(hex[1], [hex[2]] + ([hex[3]] + t));
    ScanPlain(hex[0], [hex[1]] + ([hex[2]] + ([hex[3]] + t)));
    ScanEscape('u', [hex[0]] + ([hex[1]] + ([hex[2]] + ([hex[3]] + t))));
    assert "\\u" + hex + t == ['\\', 'u'] + ([hex[0]] + ([hex[1]] + ([hex[2]] + ([hex[3]] + t))));
  }

  lemma ScanUnit(u: Unit, t: string)
    requires WellFormedUnit(u) && ScanString(t) >= 0
    ensures ScanString(RenderUnit(u) + t) == |RenderUnit(u)| + ScanString(t)
  {
    hide ScanString;
    match u {
      case Raw(c) => ScanPlain(c, t);
      case Short(e) => ScanEscape(e, t);
      case Long(hex) => ScanHex(hex, t);
      case Pair(high, low) =>
        ScanHex(low, t);
        ScanHex(high, "\\u" + low + t);
        Assoc3("\\u" + high, "\\u" + low, t);
        assert RenderUnit(u) == "\\u" + high + ("\\u" + low);
    }
  }

  lemma {:induction false} ScanUnits(units: seq<Unit>, rest: string)
    requires WellFormedUnits(units)
    ensures ScanString(RenderUnits(units) + ("\"" + rest)) == |RenderUnits(units)|
  {
    if units == [] {
      ScanEnd(rest);
    } else {
      ScanUnits(units[1..], rest);
      hide ScanString, RenderUnit, WellFormedUnit;
      ScanUnit(units[0], RenderUnits(units[1..]) + ("\"" + rest));
      Assoc3(RenderUnit(units[0]), RenderUnits(units[1..]), "\"" + rest);
    }
  }

  lemma ScanEnd(rest: string)
    ensures ScanString("" + ("\"" + rest)) == 0
  {
    assert "" + ("\"" + rest) == "\"" + rest;
  }

  lemma Assoc3(a: string, b: string, c: string)
    ensures a + b + c == a + (b + c)
  {
  }

  lemma HexPrefix(hex: string, t: string)
    requires |hex| == 4
    ensures ParseHex4(hex + t) == ParseHex4(hex)
  {
    assert (hex + t)[0] == hex[0] && (hex + t)[1] == hex[1] && (hex + t)[2] == hex[2] && (hex + t)[3] == hex[3];
  }

  lemma LongLiteral(hex: string, t: string)
    requires FourHex(hex) && !(0xD800 <= ParseHex4(hex) <= 0xDFFF)
    ensures Utf16Literal("\\u" + hex + t) == (Utf8(ParseHex4(hex)), 6)
  {
    hide ParseHex4, Utf8;
    assert ("\\u" + hex + t)[2..] == hex + t;
    HexPrefix(hex, t);
  }

  lemma PairLiteral(high: string, low: string, t: string)
    requires WellFormedUnit(Pair(high, low))
    ensures Utf16Literal("\\u" + high + ("\\u" + low + t)) == (UnitValue(Pair(high, low)), 12)
  {
    hide ParseHex4, Utf8;
    var s := "\\u" + high + ("\\u" + low + t);
    assert s[2..] == high + ("\\u" + low + t) && s[8..] == low + t;
    assert s[6] == '\\' && s[7] == 'u';
    HexPrefix(high, "\\u" + low + t);
    HexPrefix(low, t);
    var first, second := ParseHex4(high), ParseHex4(low);
    assert first % 1024 == first - 0xD800 && second % 1024 == second - 0xDC00;
  }

  lemma UnescapeLong(s: string, bytes: string, used: nat, t: string)
    requires |s| > 1 && s[0] == '\\' && s[1] == 'u' && Utf16Literal(s) == (bytes, used) && 0 < used <= |s|
    requires Unescape(s[used..]) == Some(t)
    ensures Unescape(s) == Some(bytes + t)
  {
  }

  lemma UnescapeUnit(u: Unit, tail: string, t: string)
    requires WellFormedUnit(u) && !Lone(u) && Unescape(tail) == Some(t)
    ensures Unescape(RenderUnit(u) + tail) == Some(UnitValue(u) + t)
  {
    hide Utf16Literal, ParseHex4, Utf8;
    var s := RenderUnit(u) + tail;
    match u {
      case Raw(c) => assert s[1..] == tail;
      case Short(e) => assert s[2..] == tail;
      case Long(hex) =>
        LongLiteral(hex, tail);
        assert s[6..] == tail;
        UnescapeLong(s, UnitValue(u), 6, t);
      case Pair(high, low) => UnescapePair(high, low, tail, t);
    }
  }

  lemma UnescapePair(high: string, low: string, tail: string, t: string)
    requires WellFormedUnit(Pair(high, low)) && Unescape(tail) == Some(t)
    ensures Unescape(RenderUnit(Pair(high, low)) + tail) == Some(UnitValue(Pair(high, low)) + t)
  {
    hide Utf16Literal, ParseHex4, Utf8, Unescape;
    var s := RenderUnit(Pair(high, low)) + tail;
    PairLiteral(high, low, tail);
    assert s == "\\u" + high + ("\\u" + low + tail) && s[12..] == tail;
    UnescapeLong(s, UnitValue(Pair(high, low)), 12, t);
  }

  lemma {:induction false} UnescapeUnits(units: seq<Unit>)
    requires WellFormedUnits(units) && Whole(units)
    ensures Unescape(RenderUnits(units)) == Some(UnitsValue(units))
  {
    if units != [] {
      hide Unescape, RenderUnit, UnitValue, Lone, MakesPair;
      UnescapeUnits(units[1..]);
      UnescapeUnit(units[0], RenderUnits(units[1..]), UnitsValue(units[1..]));
    }
  }

  lemma QuotedText(body: string, rest: string)
    ensures var text := "\"" + body + "\"" + rest;
            text[0] == '\"' && text[1..] == body + ("\"" + rest)
            && text[1..][..|body|] == body && text[1..][|body| + 1..] == rest
  {
  }

  /** The parser reads a string of the grammar as its value and stops after its closing quotation mark. */
  lemma StringAccepted(units: seq<Unit>, rest: string)
    requires WellFormedUnits(units) && Whole(units)
    ensures ParseString(RenderString(units) + rest) == Ok(StringValue(units), rest)
  {
    hide ScanString, Unescape, CString, RenderUnits, UnitsValue, WellFormedUnits, Whole;
    QuotedText(RenderUnits(units), rest);
    ScanUnits(units, rest);
    UnescapeUnits(units);
  }

  // ---- It refuses strings with a lone surrogate ----

  /** What follows a piece decides nothing about it, unless it is a high surrogate alone. */
  lemma RefusedAfter(u: Unit, tail: string)
    requires WellFormedUnit(u) && !Lone(u) && Unescape(tail) == None
    ensures Unescape(RenderUnit(u) + tail) == None
  {
    hide Utf16Literal, ParseHex4, Utf8;
    var s := RenderUnit(u) + tail;
    match u {
      case Raw(c) => assert s[1..] == tail;
      case Short(e) => assert s[2..] == tail;
      case Long(hex) =>
        LongLiteral(hex, tail);
        assert s[6..] == tail;
      case Pair(high, low) =>
        PairLiteral(high, low, tail);
        assert s == "\\u" + high + ("\\u" + low + tail) && s[12..] == tail;
    }
  }

  lemma LoneLiteral(hex: string, units: seq<Unit>)
    requires FourHex(hex) && 0xD800 <= ParseHex4(hex) <= 0xDFFF && WellFormedUnits(units)
    requires units != [] ==> !MakesPair(Long(hex), units[0])
    ensures Utf16Literal("\\u" + hex + RenderUnits(units)).1 == 0
  {
    var tail := RenderUnits(units);
    var s := "\\u" + hex + tail;
    assert s[2..] == hex + tail;
    HexPrefix(hex, tail);
    if |s| >= 12 && s[6] == '\\' && s[7] == 'u' {
      assert s[6] == tail[0] && s[7] == tail[1] && s[8..] == tail[2..];
      FollowingHex(units);
    }
  }

  /** When the next piece is an escape of a UTF-16 unit, or of a pair, its first four digits are those. */
  lemma FollowingHex(units: seq<Unit>)
    requires WellFormedUnits(units) && |RenderUnits(units)| >= 6
    requires RenderUnits(units)[0] == '\\' && RenderUnits(units)[1] == 'u'
    ensures units != []
    ensures units[0].Long? ==> ParseHex4(RenderUnits(units)[2..]) == ParseHex4(units[0].hex)
    ensures !units[0].Long? ==> ParseHex4(RenderUnits(units)[2..]) < 0xDC00
  {
    hide ParseHex4;
    var u, more := units[0], RenderUnits(units[1..]);
    var text := RenderUnit(u);
    assert RenderUnits(units) == text + more && RenderUnits(units)[0] == text[0];
    assert |text| > 1 ==> RenderUnits(units)[1] == text[1];
    if u.Long? {
      assert RenderUnits(units)[2..] == u.hex + more;
      HexPrefix(u.hex, more);
    } else if u.Pair? {
      assert RenderUnits(units)[2..] == u.high + ("\\u" + u.low + more);
      HexPrefix(u.high, "\\u" + u.low + more);
    }
  }

  lemma {:induction false} UnitsRefused(units: seq<Unit>)
    requires WellFormedUnits(units) && !Whole(units)
    ensures Unescape(RenderUnits(units)) == None
  {
    var u := units[0];
    if Lone(u) {
      LoneLiteral(u.hex, units[1..]);
      assert RenderUnits(units)[0] == '\\' && RenderUnits(units)[1] == 'u';
    } else {
      UnitsRefused(units[1..]);
      RefusedAfter(u, RenderUnits(units[1..]));
    }
  }

  lemma StringRefused(units: seq<Unit>, rest: string)
    requires WellFormedUnits(units) && !Whole(units)
    ensures ParseString(RenderString(units) + rest) == Fail
  {
    hide ScanString, Unescape, CString, RenderUnits, UnitsValue, WellFormedUnits, Whole;
    QuotedText(RenderUnits(units), rest);
    ScanUnits(units, rest);
    UnitsRefused(units);
  }

  // ---- One step of each parsing function, on a text whose parts are known ----

  /** The first byte decides what parse_value tries. */
  lemma ParseByFirstByte(s: string, depth: nat)
    requires s != ""
    ensures s[0] == '\"' ==>
              ParseValue(s, depth) == match ParseString(s) case Fail => Fail case Ok(t, rest) => Ok(String(t), rest)
    ensures s[0] == '-' || IsDigit(s[0]) ==> ParseValue(s, depth) == ParseNumber(s)
    ensures s[0] == '[' ==> ParseValue(s, depth) == ParseArray(s, depth)
    ensures s[0] == '{' ==> ParseValue(s, depth) == ParseObject(s, depth)
  {
    hide ParseString, ParseNumber, ParseArray, ParseObject;
    assert StartsWith(s, "null") ==> s[0] == s[..4][0] == 'n';
    assert StartsWith(s, "false") ==> s[0] == s[..5][0] == 'f';
    assert StartsWith(s, "true") ==> s[0] == s[..4][0] == 't';
  }

  lemma WordAccepted(t: Json, rest: string, depth: nat)
    requires t.Null? || t.Bool?
    ensures ParseValue(Render(Word(t)) + rest, depth) == Ok(t, rest)
  {
    hide ParseString, ParseNumber, ParseArray, ParseObject;
    var word := Render(Word(t));
    var s := word + rest;
    assert s[..|word|] == word && s[|word|..] == rest;
    assert StartsWith(s, "null") ==> s[0] == s[..4][0] == 'n';
    assert StartsWith(s, "false") ==> s[0] == s[..5][0] == 'f';
  }

  lemma SkipDark(s: string)
    requires Dark(s)
    ensures Skip(s) == s
  {
  }

  lemma ItemsLast(s: string, depth: nat, item: Json, blank: string, rest: string)
    requires Blank(blank) && ParseValue(Skip(s), depth) == Ok(item, blank + ("]" + rest))
    ensures ParseItems(s, depth) == Ok([item], rest)
  {
    hide ParseValue;
    SkipBlank(blank, "]" + rest);
    assert ("]" + rest)[1..] == rest;
  }

  lemma ItemsMore(s: string, depth: nat, item: Json, blank: string, more: string, items: seq<Json>, rest: string)
    requires Blank(blank) && ParseValue(Skip(s), depth) == Ok(item, blank + ("," + more))
    requires ParseItems(more, depth) == Ok(items, rest)
    ensures ParseItems(s, depth) == Ok([item] + items, rest)
  {
    hide ParseValue;
    SkipBlank(blank, "," + more);
    assert ("," + more)[1..] == more;
  }

  lemma MembersLast(s: string, depth: nat, m: Member, blank: string, rest: string)
    requires Blank(blank) && ParseMember(s, depth) == Ok(m, blank + ("}" + rest))
    ensures ParseMembers(s, depth) == Ok([m], rest)
  {
    hide ParseMember;
    SkipBlank(blank, "}" + rest);
    assert ("}" + rest)[1..] == rest;
  }

  lemma MembersMore(s: string, depth: nat, m: Member, blank: string, more: string, members: seq<Member>, rest: string)
    requires Blank(blank) && ParseMember(s, depth) == Ok(m, blank + ("," + more))
    requires ParseMembers(more, depth) == Ok(members, rest)
    ensures ParseMembers(s, depth) == Ok([m] + members, rest)
  {
    hide ParseMember;
    SkipBlank(blank, "," + more);
    assert ("," + more)[1..] == more;
  }

  lemma MemberStep(s: string, depth: nat, key: string, blank: string, before: string, text: string, value: Json,
                   rest: string)
    requires ParseString(Skip(s)) == Ok(key, blank + (":" + (before + text)))
    requires Blank(blank) && Blank(before) && Dark(text)
    requires ParseValue(text, depth) == Ok(value, rest)
    ensures ParseMember(s, depth) == Ok(Member(key, value), rest)
  {
    hide ParseValue, ParseString;
    SkipBlank(blank, ":" + (before + text));
    assert (":" + (before + text))[1..] == before + text;
    SkipBlank(before, text);
  }

  lemma ArrayStep(before: string, text: string, depth: nat, items: seq<Json>, rest: string)
    requires depth < NESTING_LIMIT && Blank(before) && Dark(text) && text[0] != ']'
    requires ParseItems(text, depth + 1) == Ok(items, rest)
    ensures ParseValue("[" + (before + text), depth) == Ok(Array(items), rest)
  {
    ParseByFirstByte("[" + (before + text), depth);
    hide ParseValue, ParseItems;
    assert ("[" + (before + text))[1..] == before + text;
    SkipBlank(before, text);
  }

  lemma ObjectStep(before: string, text: string, depth: nat, members: seq<Member>, rest: string)
    requires depth < NESTING_LIMIT && Blank(before) && Dark(text) && text[0] != '}'
    requires ParseMembers(text, depth + 1) == Ok(members, rest)
    ensures ParseValue("{" + (before + text), depth) == Ok(Object(members), rest)
  {
    ParseByFirstByte("{" + (before + text), depth);
    hide ParseValue, ParseMembers;
    assert ("{" + (before + text))[1..] == before + text;
    SkipBlank(before, text);
  }

  lemma EmptyArray(blank: string, rest: string, depth: nat)
    requires depth < NESTING_LIMIT && Blank(blank)
    ensures ParseValue("[" + (blank + ("]" + rest)), depth) == Ok(Array([]), rest)
  {
    var s := "[" + (blank + ("]" + rest));
    ParseByFirstByte(s, depth);
    hide ParseValue, ParseItems;
    assert s[1..] == blank + ("]" + rest);
    SkipBlank(blank, "]" + rest);
    assert ("]" + rest)[1..] == rest;
  }

  lemma EmptyObject(blank: string, rest: string, depth: nat)
    requires depth < NESTING_LIMIT && Blank(blank)
    ensures ParseValue("{" + (blank + ("}" + rest)), depth) == Ok(Object([]), rest)
  {
    var s := "{" + (blank + ("}" + rest));
    ParseByFirstByte(s, depth);
    hide ParseValue, ParseMembers;
    assert s[1..] == blank + ("}" + rest);
    SkipBlank(blank, "}" + rest);
    assert ("}" + rest)[1..] == rest;
  }

  // ---- The parser accepts values ----

  /** What the text of a value starts with. */
  lemma RenderStarts(x: Syntax)
    requires WellFormed(x)
    ensures Dark(Render(x)) && Render(x)[0] !in {']', '}'}
  {
    if x.Num? {
      FirstDigit(x.number.whole);
      RenderSplit(x.number);
    }
  }

  lemma BlankTerminates(blank: string, tail: string)
    requires Blank(blank) && tail != "" && tail[0] in [',', ']', '}']
    ensures Terminated(blank + tail)
  {
  }

  /** The text after the first element of a list. */
  function ElementsTail(elements: seq<Element>, rest: string): string
    requires elements != []
  {
    if |elements| == 1 then "]" + rest else "," + (RenderElements(elements[1..]) + rest)
  }

  function FieldsTail(fields: seq<Field>, rest: string): string
    requires fields != []
  {
    if |fields| == 1 then "}" + rest else "," + (RenderFields(fields[1..]) + rest)
  }

  lemma ElementsSplit(elements: seq<Element>, rest: string)
    requires elements != []
    ensures var e := elements[0];
            RenderElements(elements) + rest
            == e.before + (Render(e.value) + (e.after + ElementsTail(elements, rest)))
  {
    var e := elements[0];
    var tail := if |elements| == 1 then "]" else "," + RenderElements(elements[1..]);
    assert RenderElements(elements) == RenderElement(e) + tail;
    hide Render, RenderElements;
    Assoc(e.before, Render(e.value), e.after, tail, rest);
    if |elements| > 1 {
      Assoc3(",", RenderElements(elements[1..]), rest);
    }
  }

  lemma Assoc(a: string, b: string, c: string, d: string, e: string)
    ensures a + (b + c) + d + e == a + (b + (c + (d + e)))
  {
  }

  lemma FieldsSplit(fields: seq<Field>, rest: string)
    requires fields != []
    ensures var f := fields[0];
            RenderFields(fields) + rest
            == f.before + (RenderString(f.name) + (f.afterName + (":" + (f.element.before
               + (Render(f.element.value) + (f.element.after + FieldsTail(fields, rest)))))))
  {
    var f := fields[0];
    var tail := if |fields| == 1 then "}" else "," + RenderFields(fields[1..]);
    assert RenderFields(fields) == RenderField(f) + tail;
    hide Render, RenderFields, RenderString, RenderElement;
    AssocField(f.before, RenderString(f.name), f.afterName, RenderElement(f.element), tail, rest);
    ElementSplit(f.element, tail + rest);
    if |fields| > 1 {
      Assoc3(",", RenderFields(fields[1..]), rest);
    }
  }

  lemma ElementSplit(e: Element, tail: string)
    ensures RenderElement(e) + tail == e.before + (Render(e.value) + (e.after + tail))
  {
    hide Render;
  }

  lemma AssocField(a: string, b: string, c: string, e: string, tail: string, rest: string)
    ensures a + (b + (c + (":" + e))) + tail + rest == a + (b + (c + (":" + (e + (tail + rest)))))
  {
  }

  /** The parser reads every well-formed text as the value it means, and uses up exactly the text. */
  lemma {:induction false} ValueAccepted(x: Syntax, rest: string, depth: nat)
    requires WellFormed(x) && Sound(x) && Nesting(Value(x)) + depth <= NESTING_LIMIT && (x.Num? ==> Terminated(rest))
    ensures ParseValue(Render(x) + rest, depth) == Ok(Value(x), rest)
    decreases x, 4
  {
    match x {
      case Word(t) => WordAccepted(t, rest, depth);
      case Num(n) =>
        NumberAccepted(n, rest);
        ParseByFirstByte(Render(x) + rest, depth);
      case Str(units) =>
        StringAccepted(units, rest);
        ParseByFirstByte(Render(x) + rest, depth);
      case Arr(blank, elements) => ArrayAccepted(blank, elements, rest, depth);
      case Obj(blank, fields) => ObjectAccepted(blank, fields, rest, depth);
    }
  }

  lemma RenderArray(blank: string, elements: seq<Element>)
    ensures Render(Arr(blank, elements))
         == if elements == [] then "[" + (blank + "]") else "[" + RenderElements(elements)
  {
  }

  lemma {:induction false} ArrayAccepted(blank: string, elements: seq<Element>, rest: string, depth: nat)
    requires Blank(blank) && WellFormedElements(elements) && SoundElements(elements)
    requires 1 + NestingItems(ElementValues(elements)) + depth <= NESTING_LIMIT
    ensures ParseValue(Render(Arr(blank, elements)) + rest, depth) == Ok(Array(ElementValues(elements)), rest)
    decreases elements, 3
  {
    RenderArray(blank, elements);
    hide ParseValue, ParseItems, Render, Sound, SoundElements, NestingItems, Skip, Value, RenderElements, ElementValues,
         WellFormedElements, ElementsTail;
    if elements == [] {
      NoElements(elements);
      Assoc3("[", blank + "]", rest);
      Assoc3(blank, "]", rest);
      EmptyArray(blank, rest, depth);
    } else {
      var e := elements[0];
      NestingFirst(elements);
      assert WellFormedElement(e);
      var text := Render(e.value) + (e.after + ElementsTail(elements, rest));
      ElementsSplit(elements, rest);
      Assoc3("[", RenderElements(elements), rest);
      RenderStarts(e.value);
      SkipDark(text);
      ElementsAccepted(elements, rest, depth + 1, text);
      ArrayStep(e.before, text, depth, ElementValues(elements), rest);
    }
  }

  lemma {:induction false} FirstElementAccepted(elements: seq<Element>, rest: string, depth: nat)
    requires elements != [] && WellFormedElements(elements) && WellFormed(elements[0].value)
    requires Sound(elements[0].value) && Nesting(Value(elements[0].value)) + depth <= NESTING_LIMIT
    ensures ParseValue(Render(elements[0].value) + (elements[0].after + ElementsTail(elements, rest)), depth)
         == Ok(Value(elements[0].value), elements[0].after + ElementsTail(elements, rest))
    decreases elements, 0
  {
    hide ParseValue;
    var e := elements[0];
    assert WellFormedElement(e);
    BlankTerminates(e.after, ElementsTail(elements, rest));
    ValueAccepted(e.value, e.after + ElementsTail(elements, rest), depth);
  }

  lemma NestingFirst(elements: seq<Element>)
    requires elements != [] && WellFormedElements(elements)
    ensures WellFormedElement(elements[0]) && WellFormedElements(elements[1..])
    ensures SoundElements(elements) <==> Sound(elements[0].value) && SoundElements(elements[1..])
    ensures ElementValues(elements) == [Value(elements[0].value)] + ElementValues(elements[1..])
    ensures Nesting(Value(elements[0].value)) <= NestingItems(ElementValues(elements))
    ensures NestingItems(ElementValues(elements[1..])) <= NestingItems(ElementValues(elements))
  {
    assert ElementValues(elements)[1..] == ElementValues(elements[1..]);
  }

  lemma {:induction false} ElementsAccepted(elements: seq<Element>, rest: string, depth: nat, s: string)
    requires elements != [] && WellFormedElements(elements) && SoundElements(elements)
    requires NestingItems(ElementValues(elements)) + depth <= NESTING_LIMIT
    requires Skip(s) == Render(elements[0].value) + (elements[0].after + ElementsTail(elements, rest))
    ensures ParseItems(s, depth) == Ok(ElementValues(elements), rest)
    decreases elements, 1
  {
    hide ParseValue, ParseItems, Skip, Render, Value, NestingItems, Nesting, WellFormedElements;
    hide ElementValues, Sound, SoundElements;
    var e := elements[0];
    NestingFirst(elements);
    assert WellFormedElement(e);
    FirstElementAccepted(elements, rest, depth);
    if |elements| == 1 {
      NoElements(elements[1..]);
      ItemsLast(s, depth, Value(e.value), e.after, rest);
      assert [Value(e.value)] + [] == [Value(e.value)];
    } else {
      var next := elements[1..];
      var more := RenderElements(next) + rest;
      ElementsSplit(next, rest);
      assert WellFormedElement(next[0]) by {
        NestingFirst(next);
      }
      RenderStarts(next[0].value);
      SkipBlank(next[0].before, Render(next[0].value) + (next[0].after + ElementsTail(next, rest)));
      ElementsAccepted(next, rest, depth, more);
      ItemsMore(s, depth, Value(e.value), e.after, more, ElementValues(next), rest);
    }
  }

  lemma NoElements(elements: seq<Element>)
    requires elements == []
    ensures WellFormedElements(elements) && ElementValues(elements) == []
  {
  }

  lemma {:induction false} ObjectAccepted(blank: string, fields: seq<Field>, rest: string, depth: nat)
    requires Blank(blank) && WellFormedFields(fields) && SoundFields(fields)
    requires 1 + NestingMembers(FieldValues(fields)) + depth <= NESTING_LIMIT
    ensures ParseValue(Render(Obj(blank, fields)) + rest, depth) == Ok(Object(FieldValues(fields)), rest)
    decreases fields, 3
  {
    hide ParseValue, ParseMembers;
    if fields == [] {
      assert "{" + (blank + "}") + rest == "{" + (blank + ("}" + rest));
      EmptyObject(blank, rest, depth);
    } else {
      var f := fields[0];
      assert WellFormedField(f);
      var text := FieldText(fields, rest);
      FieldsSplit(fields, rest);
      assert "{" + RenderFields(fields) + rest == "{" + (RenderFields(fields) + rest);
      SkipDark(text);
      FieldsAccepted(fields, rest, depth + 1, text);
      ObjectStep(f.before, text, depth, FieldValues(fields), rest);
    }
  }

  /** The members from the first name on. */
  function FieldText(fields: seq<Field>, rest: string): (r: string)
    requires fields != []
    ensures Dark(r) && r[0] == '\"'
  {
    var f := fields[0];
    RenderString(f.name) + (f.afterName + (":" + (f.element.before
    + (Render(f.element.value) + (f.element.after + FieldsTail(fields, rest))))))
  }

  lemma NestingFirstField(fields: seq<Field>)
    requires fields != [] && WellFormedFields(fields)
    ensures WellFormedField(fields[0]) && WellFormedElement(fields[0].element) && WellFormedFields(fields[1..])
    ensures SoundFields(fields)
       <==> Whole(fields[0].name) && Sound(fields[0].element.value) && SoundFields(fields[1..])
    ensures FieldValues(fields)
         == [Member(StringValue(fields[0].name), Value(fields[0].element.value))] + FieldValues(fields[1..])
    ensures Nesting(Value(fields[0].element.value)) <= NestingMembers(FieldValues(fields))
    ensures NestingMembers(FieldValues(fields[1..])) <= NestingMembers(FieldValues(fields))
  {
    assert FieldValues(fields)[1..] == FieldValues(fields[1..]);
  }

  lemma {:induction false} FirstFieldAccepted(fields: seq<Field>, rest: string, depth: nat, s: string)
    requires fields != [] && WellFormedFields(fields)
    requires WellFormedUnits(fields[0].name) && WellFormed(fields[0].element.value)
    requires Whole(fields[0].name) && Sound(fields[0].element.value)
    requires Nesting(Value(fields[0].element.value)) + depth <= NESTING_LIMIT
    requires Skip(s) == FieldText(fields, rest)
    ensures ParseMember(s, depth)
         == Ok(Member(StringValue(fields[0].name), Value(fields[0].element.value)),
               fields[0].element.after + FieldsTail(fields, rest))
    decreases fields, 0
  {
    hide ParseValue, ParseString, ParseMember, Skip, Render, Value, Nesting, NestingMembers;
    hide WellFormedFields, FieldValues, RenderString, StringValue, Sound, SoundFields, Whole;
    var f := fields[0];
    NestingFirstField(fields);
    var after := f.element.after + FieldsTail(fields, rest);
    var text := Render(f.element.value) + after;
    StringAccepted(f.name, f.afterName + (":" + (f.element.before + text)));
    BlankTerminates(f.element.after, FieldsTail(fields, rest));
    ValueAccepted(f.element.value, after, depth);
    RenderStarts(f.element.value);
    MemberStep(s, depth, StringValue(f.name), f.afterName, f.element.before, text, Value(f.element.value), after);
  }

  lemma {:induction false} FieldsAccepted(fields: seq<Field>, rest: string, depth: nat, s: string)
    requires fields != [] && WellFormedFields(fields) && SoundFields(fields)
    requires NestingMembers(FieldValues(fields)) + depth <= NESTING_LIMIT
    requires Skip(s) == FieldText(fields, rest)
    ensures ParseMembers(s, depth) == Ok(FieldValues(fields), rest)
    decreases fields, 1
  {
    hide ParseMember, ParseMembers, Skip, Render, Value, Nesting, NestingMembers, WellFormedFields, FieldValues,
         RenderString, StringValue, Sound, SoundFields, Whole;
    var f := fields[0];
    NestingFirstField(fields);
    assert WellFormedField(f) && WellFormedElement(f.element);
    FirstFieldAccepted(fields, rest, depth, s);
    var m := Member(StringValue(f.name), Value(f.element.value));
    if |fields| == 1 {
      NoFields(fields[1..]);
      MembersLast(s, depth, m, f.element.after, rest);
      assert [m] + [] == [m];
    } else {
      var next := fields[1..];
      var more := RenderFields(next) + rest;
      FieldsSplit(next, rest);
      assert WellFormedField(next[0]) by {
        NestingFirstField(next);
      }
      SkipBlank(next[0].before, FieldText(next, rest));
      FieldsAccepted(next, rest, depth, more);
      MembersMore(s, depth, m, f.element.after, more, FieldValues(next), rest);
    }
  }

  lemma NoFields(fields: seq<Field>)
    requires fields == []
    ensures WellFormedFields(fields) && FieldValues(fields) == []
  {
  }

  // ---- The parser refuses lone surrogates and what is nested too deeply ----

  /** The parser reads x at this depth. */
  predicate Fits(x: Syntax, depth: nat)
    requires WellFormed(x)
  {
    Sound(x) && Nesting(Value(x)) + depth <= NESTING_LIMIT
  }

  predicate FitsElements(elements: seq<Element>, depth: nat)
    requires WellFormedElements(elements)
  {
    SoundElements(elements) && NestingItems(ElementValues(elements)) + depth <= NESTING_LIMIT
  }

  predicate FitsFields(fields: seq<Field>, depth: nat)
    requires WellFormedFields(fields)
  {
    SoundFields(fields) && NestingMembers(FieldValues(fields)) + depth <= NESTING_LIMIT
  }

  lemma FitsFirst(elements: seq<Element>, depth: nat)
    requires elements != [] && WellFormedElements(elements)
    ensures WellFormedElement(elements[0]) && WellFormedElements(elements[1..])
    ensures FitsElements(elements, depth) <==> Fits(elements[0].value, depth) && FitsElements(elements[1..], depth)
  {
    NestingFirst(elements);
    assert ElementValues(elements)[1..] == ElementValues(elements[1..]);
  }

  lemma FitsFirstField(fields: seq<Field>, depth: nat)
    requires fields != [] && WellFormedFields(fields)
    ensures WellFormedField(fields[0]) && WellFormedElement(fields[0].element) && WellFormedFields(fields[1..])
    ensures FitsFields(fields, depth)
       <==> Whole(fields[0].name) && Fits(fields[0].element.value, depth) && FitsFields(fields[1..], depth)
  {
    NestingFirstField(fields);
    assert FieldValues(fields)[1..] == FieldValues(fields[1..]);
  }

  lemma FitsNothing(depth: nat)
    requires depth <= NESTING_LIMIT
    ensures FitsElements([], depth) && FitsFields([], depth)
  {
  }

  lemma TooDeep(s: string, depth: nat)
    requires s != "" && s[0] in ['[', '{'] && depth >= NESTING_LIMIT
    ensures ParseValue(s, depth) == Fail
  {
    ParseByFirstByte(s, depth);
    hide ParseValue, ParseItems, ParseMembers;
  }

  lemma ArrayStepFails(before: string, text: string, depth: nat)
    requires Blank(before) && Dark(text) && text[0] != ']' && ParseItems(text, depth + 1) == Fail
    ensures ParseValue("[" + (before + text), depth) == Fail
  {
    ParseByFirstByte("[" + (before + text), depth);
    hide ParseValue, ParseItems;
    assert ("[" + (before + text))[1..] == before + text;
    SkipBlank(before, text);
  }

  lemma ObjectStepFails(before: string, text: string, depth: nat)
    requires Blank(before) && Dark(text) && text[0] != '}' && ParseMembers(text, depth + 1) == Fail
    ensures ParseValue("{" + (before + text), depth) == Fail
  {
    ParseByFirstByte("{" + (before + text), depth);
    hide ParseValue, ParseMembers;
    assert ("{" + (before + text))[1..] == before + text;
    SkipBlank(before, text);
  }

  lemma ItemsFail(s: string, depth: nat)
    requires ParseValue(Skip(s), depth) == Fail
    ensures ParseItems(s, depth) == Fail
  {
    hide ParseValue, Skip;
  }

  lemma ItemsMoreFail(s: string, depth: nat, item: Json, blank: string, more: string)
    requires Blank(blank) && ParseValue(Skip(s), depth) == Ok(item, blank + ("," + more))
    requires ParseItems(more, depth) == Fail
    ensures ParseItems(s, depth) == Fail
  {
    hide ParseValue;
    SkipBlank(blank, "," + more);
    assert ("," + more)[1..] == more;
  }

  lemma MembersFail(s: string, depth: nat)
    requires ParseMember(s, depth) == Fail
    ensures ParseMembers(s, depth) == Fail
  {
    hide ParseMember;
  }

  lemma MembersMoreFail(s: string, depth: nat, m: Member, blank: string, more: string)
    requires Blank(blank) && ParseMember(s, depth) == Ok(m, blank + ("," + more))
    requires ParseMembers(more, depth) == Fail
    ensures ParseMembers(s, depth) == Fail
  {
    hide ParseMember;
    SkipBlank(blank, "," + more);
    assert ("," + more)[1..] == more;
  }

  lemma MemberStepFails(s: string, depth: nat, key: string, blank: string, before: string, text: string)
    requires ParseString(Skip(s)) == Ok(key, blank + (":" + (before + text)))
    requires Blank(blank) && Blank(before) && Dark(text) && ParseValue(text, depth) == Fail
    ensures ParseMember(s, depth) == Fail
  {
    hide ParseValue, ParseString;
    SkipBlank(blank, ":" + (before + text));
    assert (":" + (before + text))[1..] == before + text;
    SkipBlank(before, text);
  }

  lemma MemberFails(s: string, depth: nat)
    requires ParseString(Skip(s)) == Fail
    ensures ParseMember(s, depth) == Fail
  {
    hide ParseString, Skip;
  }

  lemma {:induction false} ValueRefused(x: Syntax, rest: string, depth: nat)
    requires WellFormed(x) && !Fits(x, depth) && depth <= NESTING_LIMIT
    ensures ParseValue(Render(x) + rest, depth) == Fail
    decreases x, 4
  {
    if x.Arr? {
      ArrayRefused(x.blank, x.elements, rest, depth);
    } else if x.Obj? {
      ObjectRefused(x.blank, x.fields, rest, depth);
    } else {
      assert x.Str?;
      StringRefused(x.units, rest);
      ParseByFirstByte(Render(x) + rest, depth);
    }
  }

  lemma {:induction false} ArrayRefused(blank: string, elements: seq<Element>, rest: string, depth: nat)
    requires Blank(blank) && WellFormedElements(elements) && !FitsElements(elements, depth + 1)
             && depth <= NESTING_LIMIT
    ensures ParseValue(Render(Arr(blank, elements)) + rest, depth) == Fail
    decreases elements, 3
  {
    hide ParseValue, ParseItems, FitsElements;
    if depth == NESTING_LIMIT {
      TooDeep(Render(Arr(blank, elements)) + rest, depth);
    } else {
      FitsNothing(depth + 1);
      var e := elements[0];
      assert WellFormedElement(e);
      var text := Render(e.value) + (e.after + ElementsTail(elements, rest));
      ElementsSplit(elements, rest);
      assert "[" + RenderElements(elements) + rest == "[" + (RenderElements(elements) + rest);
      RenderStarts(e.value);
      SkipDark(text);
      ElementsRefused(elements, rest, depth + 1, text);
      ArrayStepFails(e.before, text, depth);
    }
  }

  lemma {:induction false} ElementsRefused(elements: seq<Element>, rest: string, depth: nat, s: string)
    requires elements != [] && WellFormedElements(elements) && !FitsElements(elements, depth) && depth <= NESTING_LIMIT
    requires Skip(s) == Render(elements[0].value) + (elements[0].after + ElementsTail(elements, rest))
    ensures ParseItems(s, depth) == Fail
    decreases elements, 1
  {
    var e := elements[0];
    FitsFirst(elements, depth);
    FitsNothing(depth);
    assert WellFormedElement(e);
    hide ParseValue, ParseItems, Skip, Render, Value, NestingItems, Nesting, WellFormedElements, ElementValues, Sound,
         SoundElements, FitsElements;
    if !Fits(e.value, depth) {
      hide Fits;
      ValueRefused(e.value, e.after + ElementsTail(elements, rest), depth);
      ItemsFail(s, depth);
    } else {
      var next := elements[1..];
      FirstElementAccepted(elements, rest, depth);
      var more := RenderElements(next) + rest;
      ElementsSplit(next, rest);
      assert WellFormedElement(next[0]) by {
        NestingFirst(next);
      }
      RenderStarts(next[0].value);
      SkipBlank(next[0].before, Render(next[0].value) + (next[0].after + ElementsTail(next, rest)));
      ElementsRefused(next, rest, depth, more);
      ItemsMoreFail(s, depth, Value(e.value), e.after, more);
    }
  }

  lemma {:induction false} ObjectRefused(blank: string, fields: seq<Field>, rest: string, depth: nat)
    requires Blank(blank) && WellFormedFields(fields) && !FitsFields(fields, depth + 1) && depth <= NESTING_LIMIT
    ensures ParseValue(Render(Obj(blank, fields)) + rest, depth) == Fail
    decreases fields, 3
  {
    hide ParseValue, ParseMembers, FitsFields;
    if depth == NESTING_LIMIT {
      TooDeep(Render(Obj(blank, fields)) + rest, depth);
    } else {
      FitsNothing(depth + 1);
      var f := fields[0];
      assert WellFormedField(f);
      var text := FieldText(fields, rest);
      FieldsSplit(fields, rest);
      assert "{" + RenderFields(fields) + rest == "{" + (RenderFields(fields) + rest);
      SkipDark(text);
      FieldsRefused(fields, rest, depth + 1, text);
      ObjectStepFails(f.before, text, depth);
    }
  }

  lemma {:induction false} FirstFieldRefused(fields: seq<Field>, rest: string, depth: nat, s: string)
    requires fields != [] && WellFormedFields(fields)
    requires WellFormedUnits(fields[0].name) && WellFormed(fields[0].element.value)
    requires !Whole(fields[0].name) || !Fits(fields[0].element.value, depth)
    requires depth <= NESTING_LIMIT && Skip(s) == FieldText(fields, rest)
    ensures ParseMember(s, depth) == Fail
    decreases fields, 0
  {
    hide ParseValue, ParseString, ParseMember, Skip, Render, Value, Nesting, NestingMembers;
    hide WellFormedFields, FieldValues, RenderString, StringValue, Sound, SoundFields, Whole, Fits;
    var f := fields[0];
    NestingFirstField(fields);
    var after := f.element.after + FieldsTail(fields, rest);
    var text := Render(f.element.value) + after;
    if !Whole(f.name) {
      StringRefused(f.name, f.afterName + (":" + (f.element.before + text)));
      MemberFails(s, depth);
    } else {
      StringAccepted(f.name, f.afterName + (":" + (f.element.before + text)));
      ValueRefused(f.element.value, after, depth);
      RenderStarts(f.element.value);
      MemberStepFails(s, depth, StringValue(f.name), f.afterName, f.element.before, text);
    }
  }

  lemma {:induction false} FieldsRefused(fields: seq<Field>, rest: string, depth: nat, s: string)
    requires fields != [] && WellFormedFields(fields) && !FitsFields(fields, depth) && depth <= NESTING_LIMIT
    requires Skip(s) == FieldText(fields, rest)
    ensures ParseMembers(s, depth) == Fail
    decreases fields, 1
  {
    var f := fields[0];
    FitsFirstField(fields, depth);
    FitsNothing(depth);
    assert WellFormedField(f) && WellFormedElement(f.element);
    hide ParseMember, ParseMembers, Skip, Render, Value, Nesting, NestingMembers, WellFormedFields, FieldValues,
         RenderString, StringValue, Sound, SoundFields, Whole, FitsFields;
    if !Whole(f.name) || !Fits(f.element.value, depth) {
      FirstFieldRefused(fields, rest, depth, s);
      MembersFail(s, depth);
    } else {
      var next := fields[1..];
      FirstFieldAccepted(fields, rest, depth, s);
      var more := RenderFields(next) + rest;
      FieldsSplit(next, rest);
      assert WellFormedField(next[0]) by {
        NestingFirstField(next);
      }
      SkipBlank(next[0].before, FieldText(next, rest));
      FieldsRefused(next, rest, depth, more);
      MembersMoreFail(s, depth, Member(StringValue(f.name), Value(f.element.value)), f.element.after, more);
    }
  }

  // ---- Whole texts ----

  /**
   * A whole text of the grammar, with white space around the value, parses to its value when it has
   * no lone surrogate and is nested at most to the limit, and is refused otherwise.
   */
  lemma DocumentParsed(before: string, x: Syntax, after: string)
    requires Blank(before) && WellFormed(x) && Blank(after)
    ensures var text, fits := before + (Render(x) + after), Fits(x, 0);
            && Parse(text) == (if fits then Ok(Value(x), after + "\0") else Fail)
            && ParseBytes(text + "\0", true) == if fits then Ok(Value(x), "\0") else Fail
  {
    var text := before + (Render(x) + after);
    var rest := after + "\0";
    RenderStarts(x);
    assert text + "\0" == before + (Render(x) + rest);
    UnmarkedText(before, x, after);
    SkipBlank(before, Render(x) + rest);
    hide ParseValue;
    assert Terminated(rest);
    if Fits(x, 0) {
      ValueAccepted(x, rest, 0);
    } else {
      ValueRefused(x, rest, 0);
    }
    SkipToNul(after);
  }

  /** A byte order mark before the text, the bytes EF BB BF, changes nothing. */
  lemma MarkedDocumentParsed(before: string, x: Syntax, after: string)
    requires Blank(before) && WellFormed(x) && Blank(after)
    ensures var text := before + (Render(x) + after);
            var marked := ['\U{EF}', '\U{BB}', '\U{BF}'] + text;
            && Parse(marked) == (if Fits(x, 0) then Ok(Value(x), after + "\0") else Fail)
            && ParseBytes(marked + "\0", true) == if Fits(x, 0) then Ok(Value(x), "\0") else Fail
  {
    var text := before + (Render(x) + after);
    var mark := ['\U{EF}', '\U{BB}', '\U{BF}'];
    var marked := mark + text;
    DocumentParsed(before, x, after);
    assert marked + "\0" == mark + (text + "\0");
    assert Render(x) != "" by {
      RenderStartsAscii(x);
    }
    assert |text| >= 1;
    assert mark == [Byte(0xEF), Byte(0xBB), Byte(0xBF)];
    assert SkipBom(marked + "\0") == text + "\0";
    assert SkipBom(text + "\0") == text + "\0" by {
      UnmarkedText(before, x, after);
    }
    hide ParseValue, Skip, Render, Value, Fits;
  }

  /** n arrays inside one another. */
  function Nested(n: nat): Syntax
    requires n > 0
  {
    if n == 1 then Arr("", []) else Arr("", [Element("", Nested(n - 1), "")])
  }

  function Repeat(c: char, n: nat): string {
    seq(n, _ => c)
  }

  lemma {:induction false} NestedIs(n: nat)
    requires n > 0
    ensures WellFormed(Nested(n)) && Sound(Nested(n)) && Nesting(Value(Nested(n))) == n
    ensures Render(Nested(n)) == Repeat('[', n) + Repeat(']', n)
  {
    if n == 1 {
      assert Render(Nested(1)) == "[" + ("" + "]");
      assert Repeat('[', 1) == "[" && Repeat(']', 1) == "]";
    } else {
      NestedIs(n - 1);
      NestedStep(Nested(n - 1));
      hide Render, Value, Nesting, Sound, WellFormed;
      Repeated(n);
      Around(Repeat('[', n - 1), Repeat(']', n - 1));
    }
  }

  lemma Repeated(n: nat)
    requires n > 0
    ensures Repeat('[', n) == "[" + Repeat('[', n - 1) && Repeat(']', n) == Repeat(']', n - 1) + "]"
  {
  }

  lemma Around(a: string, b: string)
    ensures "[" + ((a + b) + "]") == ("[" + a) + (b + "]")
  {
  }

  lemma NestedStep(x: Syntax)
    requires WellFormed(x) && Sound(x)
    ensures var outer := Arr("", [Element("", x, "")]);
            && WellFormed(outer) && Sound(outer) && Nesting(Value(outer)) == Nesting(Value(x)) + 1
            && Render(outer) == "[" + (Render(x) + "]")
  {
    var e := Element("", x, "");
    var outer := Arr("", [e]);
    assert WellFormedElement(e) && [e][1..] == [];
    assert WellFormedElements([e]) && SoundElements([e]);
    assert ElementValues([e]) == [Value(x)];
    assert RenderElement(e) == Render(x);
    assert NestingItems([Value(x)]) == Nesting(Value(x)) by {
      assert [Value(x)][1..] == [];
    }
  }

  /** So a thousand arrays inside one another are read, and one more is refused. */
  lemma ThousandLevels(n: nat)
    requires n > 0
    ensures Parse(Repeat('[', n) + Repeat(']', n)).Ok? <==> n <= 1000
  {
    NestedIs(n);
    DocumentParsed("", Nested(n), "");
    var text := Render(Nested(n));
    assert "" + (text + "") == text;
    hide Parse, Render, Value, Nesting, Sound, WellFormed;
  }

  lemma UnmarkedText(before: string, x: Syntax, after: string)
    requires Blank(before) && WellFormed(x)
    ensures var text := before + (Render(x) + after); SkipBom(text + "\0") == text + "\0"
  {
    var text := before + (Render(x) + after);
    RenderStartsAscii(x);
    assert (text + "\0")[0] < Byte(0xEF);
    assert |text + "\0"| > 4 ==> (text + "\0")[..3][0] == (text + "\0")[0];
  }

  /** The grammar is unambiguous: a text has one meaning, however it is taken apart. */
  lemma Unambiguous(x: Syntax, y: Syntax)
    requires WellFormed(x) && WellFormed(y) && Render(x) == Render(y) && Fits(x, 0)
    ensures Fits(y, 0) && Value(x) == Value(y)
  {
    DocumentParsed("", x, "");
    DocumentParsed("", y, "");
  }

  lemma RenderStartsAscii(x: Syntax)
    requires WellFormed(x)
    ensures Render(x) != "" && Render(x)[0] < Byte(0xEF)
  {
    if x.Num? {
      FirstDigit(x.number.whole);
      RenderSplit(x.number);
    }
  }

  lemma {:induction false} SkipToNul(blank: string)
    requires Blank(blank)
    ensures Skip(blank + "\0") == "\0"
  {
    if blank == "" {
      assert blank + "\0" == "\0";
    } else {
      assert (blank + "\0")[1..] == blank[1..] + "\0";
      SkipToNul(blank[1..]);
    }
  }
}
