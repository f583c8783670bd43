/**
 * What cJSON prints is a text of the grammar of RFC 8259 that means the printed tree, so its parser
 * reads it back as the same tree.
 */
module JsonRoundTrip {
  import opened Decimals
  import opened Json
  import opened JsonGrammar
  import opened Wrappers

  // ---- Numbers ----

  function NumberOf(n: int): NumberText {
    NumberText(n < 0, Digits(if n < 0 then -n else n), "", None)
  }

  lemma {:induction false} NoLeadingZero(n: nat)
    ensures Digits(n) != "" && (n > 0 ==> Digits(n)[0] != '0') && (n < 10 ==> |Digits(n)| == 1)
  {
    if n >= 10 {
      NoLeadingZero(n / 10);
    }
  }

  lemma PrintedDigits(m: nat)
    ensures var s := Digits(m);
            AllDigits(s) && s != "" && (|s| > 1 ==> s[0] != '0') && Mantissa(s, "") == m as real
  {
    DigitsRoundTrip(m);
    NoLeadingZero(m);
    hide Digits, DigitsValue, AllDigits;
    assert Digits(m) + "" == Digits(m);
    assert m == 0 ==> |Digits(m)| == 1;
  }

  lemma ScaleZero(x: real)
    ensures Scale(x, 0) == x
  {
    assert Pow10(0) == 1.0;
  }

  lemma PlainNumber(negative: bool, digits: string)
    requires AllDigits(digits) && digits != "" && (|digits| > 1 ==> digits[0] != '0')
    ensures var n := NumberText(negative, digits, "", None);
            WellFormedNumber(n) && RenderNumber(n) == (if negative then "-" + digits else digits)
            && NumberValue(n) == if negative then -Mantissa(digits, "") else Mantissa(digits, "")
  {
    hide Mantissa, Scale;
    ScaleZero(Mantissa(digits, ""));
    assert "" + digits + "" + "" == digits && "-" + digits + "" + "" == "-" + digits;
  }

  /** "%d" writes a number of the grammar with the value it was given. */
  lemma PrintedNumber(n: int)
    ensures WellFormedNumber(NumberOf(n))
    ensures RenderNumber(NumberOf(n)) == Decimal(n) && NumberValue(NumberOf(n)) == n as real
  {
    hide Digits, Mantissa, AllDigits, RenderNumber, NumberValue, WellFormedNumber;
    var m := if n < 0 then -n else n;
    PrintedDigits(m);
    PlainNumber(n < 0, Digits(m));
  }

  // ---- Strings ----

  predicate NulFree(s: string) {
    forall i :: 0 <= i < |s| ==> s[i] != '\0'
  }

  lemma {:induction false} CStringNulFree(s: string)
    requires NulFree(s)
    ensures CString(s) == s
  {
    if s != "" {
      CStringNulFree(s[1..]);
    }
  }

  function UnitOf(c: char): Unit {
    if c == '\"' || c == '\\' then Short(c)
    else if c == '\U{8}' then Short('b')
    else if c == '\U{C}' then Short('f')
    else if c == '\n' then Short('n')
    else if c == '\r' then Short('r')
    else if c == '\t' then Short('t')
    else if c < ' ' then Long(['0', '0', HexDigit(c as int / 16), HexDigit(c as int % 16)])
    else Raw(c)
  }

  function UnitsOf(s: string): seq<Unit> {
    if s == "" then [] else [UnitOf(s[0])] + UnitsOf(s[1..])
  }

  lemma HexDigitValue(n: nat)
    requires n < 16
    ensures HexValue(HexDigit(n)) == n
  {
  }

  lemma PrintedByte(c: char)
    requires c != '\0'
    ensures WellFormedUnit(UnitOf(c)) && RenderUnit(UnitOf(c)) == EscapeByte(c) && UnitValue(UnitOf(c)) == [c]
    ensures UnitOf(c).Long? ==> ParseHex4(UnitOf(c).hex) < 32
  {
    if UnitOf(c).Long? {
      var n := c as int;
      HexDigitValue(n / 16);
      HexDigitValue(n % 16);
      assert ParseHex4(UnitOf(c).hex) == n;
    }
  }

  /** An escaped string is a string of the grammar that means the original. */
  lemma {:induction false} PrintedString(s: string)
    requires NulFree(s)
    ensures WellFormedUnits(UnitsOf(s)) && RenderUnits(UnitsOf(s)) == Escape(s) && UnitsValue(UnitsOf(s)) == s
    ensures RenderString(UnitsOf(s)) == PrintString(s) && StringValue(UnitsOf(s)) == s && Whole(UnitsOf(s))
  {
    CStringNulFree(s);
    if s != "" {
      PrintedString(s[1..]);
      PrintedByte(s[0]);
      if |s| > 1 {
        PrintedByte(s[1]);
      }
      hide UnitOf, EscapeByte, UnitValue, WellFormedUnit;
      var units := UnitsOf(s);
      assert units[1..] == UnitsOf(s[1..]);
      assert s == [s[0]] + s[1..];
    }
  }

  /** Undoing the escapes gives the string. */
  lemma UnescapeEscape(s: string)
    requires NulFree(s)
    ensures Unescape(Escape(s)) == Some(s)
  {
    PrintedString(s);
    UnescapeUnits(UnitsOf(s));
  }

  lemma StringRoundTrip(s: string, rest: string)
    requires NulFree(s)
    ensures ParseString(PrintString(s) + rest) == Ok(s, rest)
  {
    PrintedString(s);
    StringAccepted(UnitsOf(s), rest);
  }

  // ---- Trees ----

  /** The trees whose text determines them: whole 32-bit numbers and NUL-free strings and names. */
  predicate Plain(t: Json)
    decreases t, 1
  {
    match t
    case Number(d) => d == ValueInt(d) as real
    case String(s) => NulFree(s)
    case Array(items) => PlainItems(items)
    case Object(members) => PlainMembers(members)
    case _ => true
  }

  predicate PlainItems(items: seq<Json>)
    decreases items, 0
  {
    items != [] ==> Plain(items[0]) && PlainItems(items[1..])
  }

  predicate PlainMembers(members: seq<Member>)
    decreases members, 0
  {
    members != [] ==> NulFree(members[0].key) && Plain(members[0].value) && PlainMembers(members[1..])
  }

  function Newline(fmt: bool): string {
    if fmt then "\n" else ""
  }

  function Indent(fmt: bool, n: nat): string {
    if fmt then Tabs(n) else ""
  }

  function Pad(fmt: bool): string {
    if fmt then " " else ""
  }

  function Tab(fmt: bool): string {
    if fmt then "\t" else ""
  }

  /** How the printer writes t: its escapes, and the white space around each part. */
  function SyntaxOf(t: Json, fmt: bool, d: nat): Syntax
    decreases t, 1
  {
    match t
    case Null => Word(t)
    case Bool(_) => Word(t)
    case Number(x) => Num(NumberOf(ValueInt(x)))
    case String(s) => Str(UnitsOf(s))
    case Array(items) => Arr("", ElementsOf(items, fmt, d + 1, ""))
    case Object(members) => Obj(Newline(fmt) + Indent(fmt, d), FieldsOf(members, fmt, d + 1))
  }

  function ElementsOf(items: seq<Json>, fmt: bool, d: nat, before: string): (r: seq<Element>)
    ensures |r| == |items|
    decreases items, 0
  {
    if items == [] then []
    else [Element(before, SyntaxOf(items[0], fmt, d), "")] + ElementsOf(items[1..], fmt, d, Pad(fmt))
  }

  function FieldsOf(members: seq<Member>, fmt: bool, d: nat): (r: seq<Field>)
    requires d > 0
    ensures |r| == |members|
    decreases members, 0
  {
    if members == [] then []
    else [FieldOf(members, fmt, d)] + FieldsOf(members[1..], fmt, d)
  }

  /** The first member; the last one has the line break and the tabs of the closing brace after it. */
  function FieldOf(members: seq<Member>, fmt: bool, d: nat): Field
    requires d > 0 && members != []
    decreases members, 0, 0
  {
    var m := members[0];
    Field(Newline(fmt) + Indent(fmt, d), UnitsOf(m.key), "",
          Element(Tab(fmt), SyntaxOf(m.value, fmt, d),
                  if |members| == 1 then Newline(fmt) + Indent(fmt, d - 1) else ""))
  }

  /** Printed text is text of the grammar, and means the tree that was printed. */
  lemma {:induction false} Printed(t: Json, fmt: bool, d: nat)
    requires Plain(t)
    ensures WellFormed(SyntaxOf(t, fmt, d)) && Sound(SyntaxOf(t, fmt, d))
    ensures Render(SyntaxOf(t, fmt, d)) == PrintValue(t, fmt, d)
    ensures Value(SyntaxOf(t, fmt, d)) == t
    decreases t, 1
  {
    match t {
      case Null =>
      case Bool(_) =>
      case Number(x) => PrintedNumber(ValueInt(x));
      case String(s) => PrintedString(s);
      case Array(items) => PrintedArray(items, fmt, d);
      case Object(members) => PrintedObject(members, fmt, d);
    }
  }

  lemma {:induction false} PrintedArray(items: seq<Json>, fmt: bool, d: nat)
    requires PlainItems(items)
    ensures WellFormed(SyntaxOf(Array(items), fmt, d)) && Sound(SyntaxOf(Array(items), fmt, d))
    ensures Render(SyntaxOf(Array(items), fmt, d)) == PrintValue(Array(items), fmt, d)
    ensures Value(SyntaxOf(Array(items), fmt, d)) == Array(items)
    decreases items, 1
  {
    PrintedItems(items, fmt, d + 1, "");
    ArraySyntax(items, fmt, d);
    RenderArray(ElementsOf(items, fmt, d + 1, ""));
    ArrayText(items, fmt, d);
    hide *;
    Brackets("[", PrintItems(items, fmt, d + 1), "]");
  }

  lemma ArraySyntax(items: seq<Json>, fmt: bool, d: nat)
    ensures SyntaxOf(Array(items), fmt, d) == Arr("", ElementsOf(items, fmt, d + 1, ""))
  {
    hide ElementsOf;
  }

  lemma RenderArray(elements: seq<Element>)
    ensures Render(Arr("", elements)) == "[" + (if elements == [] then "]" else RenderElements(elements))
    ensures WellFormed(Arr("", elements)) == WellFormedElements(elements)
    ensures WellFormedElements(elements) ==>
              Value(Arr("", elements)) == Array(ElementValues(elements))
                && Sound(Arr("", elements)) == SoundElements(elements)
  {
    hide RenderElements, WellFormedElements, ElementValues;
    assert "" + "]" == "]";
  }

  lemma ArrayText(items: seq<Json>, fmt: bool, d: nat)
    ensures PrintValue(Array(items), fmt, d) == "[" + PrintItems(items, fmt, d + 1) + "]"
    ensures items == [] ==> PrintItems(items, fmt, d + 1) == ""
  {
  }

  lemma Brackets(a: string, text: string, z: string)
    ensures a + text + z == a + ("" + text + z)
    ensures text == "" ==> a + text + z == a + z
  {
  }

  lemma {:induction false} PrintedItems(items: seq<Json>, fmt: bool, d: nat, before: string)
    requires PlainItems(items) && Blank(before)
    ensures var elements := ElementsOf(items, fmt, d, before);
            WellFormedElements(elements) && SoundElements(elements) && ElementValues(elements) == items
            && RenderElements(elements) == if items == [] then "" else before + PrintItems(items, fmt, d) + "]"
    decreases items, 0
  {
    if items != [] {
      Printed(items[0], fmt, d);
      PrintedItems(items[1..], fmt, d, Pad(fmt));
      PrintedItemsStep(items, fmt, d, before);
    }
  }

  lemma {:induction false} PrintedItemsStep(items: seq<Json>, fmt: bool, d: nat, before: string)
    requires items != [] && Blank(before)
    requires var x := SyntaxOf(items[0], fmt, d);
             WellFormed(x) && Sound(x) && Value(x) == items[0] && Render(x) == PrintValue(items[0], fmt, d)
    requires var elements := ElementsOf(items[1..], fmt, d, Pad(fmt));
             WellFormedElements(elements) && SoundElements(elements) && ElementValues(elements) == items[1..]
             && RenderElements(elements) == if |items| == 1 then "" else Pad(fmt) + PrintItems(items[1..], fmt, d) + "]"
    ensures var elements := ElementsOf(items, fmt, d, before);
            WellFormedElements(elements) && SoundElements(elements) && ElementValues(elements) == items
            && RenderElements(elements) == before + PrintItems(items, fmt, d) + "]"
  {
    var e := Element(before, SyntaxOf(items[0], fmt, d), "");
    var elements := ElementsOf(items, fmt, d, before);
    var others := ElementsOf(items[1..], fmt, d, Pad(fmt));
    assert elements == [e] + others && elements[0] == e && elements[1..] == others;
    hide SyntaxOf, ElementsOf, Render, PrintValue;
    assert WellFormedElement(e);
    assert items == [items[0]] + items[1..];
    var text := PrintValue(items[0], fmt, d);
    if |items| == 1 {
      assert PrintItems(items[1..], fmt, d) == "";
      LastItem(before, text);
    } else {
      assert PrintItems(items, fmt, d) == text + (if fmt then ", " else ",") + PrintItems(items[1..], fmt, d);
      hide PrintItems;
      MoreItems(before, text, fmt, PrintItems(items[1..], fmt, d));
    }
  }

  lemma LastItem(before: string, text: string)
    ensures before + (text + "") + "]" == before + (text + "" + "") + "]"
  {
  }

  lemma MoreItems(before: string, text: string, fmt: bool, more: string)
    ensures before + (text + "") + ("," + (Pad(fmt) + more + "]"))
         == before + (text + (if fmt then ", " else ",") + more) + "]"
  {
    assert "," + Pad(fmt) == if fmt then ", " else ",";
  }

  lemma {:induction false} PrintedObject(members: seq<Member>, fmt: bool, d: nat)
    requires PlainMembers(members)
    ensures WellFormed(SyntaxOf(Object(members), fmt, d)) && Sound(SyntaxOf(Object(members), fmt, d))
    ensures Render(SyntaxOf(Object(members), fmt, d)) == PrintValue(Object(members), fmt, d)
    ensures Value(SyntaxOf(Object(members), fmt, d)) == Object(members)
    decreases members, 1
  {
    PrintedMembers(members, fmt, d + 1);
    ObjectSyntax(members, fmt, d);
    BlankIndent(fmt, d);
    RenderObject(Newline(fmt) + Indent(fmt, d), FieldsOf(members, fmt, d + 1));
    ObjectText(members, fmt, d);
    hide *;
    Braces(Newline(fmt), PrintMembers(members, fmt, d + 1), Indent(fmt, d));
  }

  lemma ObjectSyntax(members: seq<Member>, fmt: bool, d: nat)
    ensures SyntaxOf(Object(members), fmt, d) == Obj(Newline(fmt) + Indent(fmt, d), FieldsOf(members, fmt, d + 1))
  {
    hide FieldsOf;
  }

  lemma RenderObject(blank: string, fields: seq<Field>)
    requires Blank(blank)
    ensures Render(Obj(blank, fields)) == "{" + (if fields == [] then blank + "}" else RenderFields(fields))
    ensures WellFormed(Obj(blank, fields)) == WellFormedFields(fields)
    ensures WellFormedFields(fields) ==>
              Value(Obj(blank, fields)) == Object(FieldValues(fields))
                && Sound(Obj(blank, fields)) == SoundFields(fields)
  {
    hide RenderFields, WellFormedFields, FieldValues;
  }

  lemma ObjectText(members: seq<Member>, fmt: bool, d: nat)
    ensures PrintValue(Object(members), fmt, d)
         == "{" + Newline(fmt) + PrintMembers(members, fmt, d + 1) + Indent(fmt, d) + "}"
    ensures members == [] ==> PrintMembers(members, fmt, d + 1) == ""
  {
    assert "{" + Newline(fmt) == if fmt then "{\n" else "{";
  }

  lemma Braces(n: string, text: string, i: string)
    ensures "{" + n + text + i + "}" == "{" + (n + text + i + "}")
    ensures text == "" ==> "{" + n + text + i + "}" == "{" + (n + i + "}")
  {
  }

  lemma BlankIndent(fmt: bool, n: nat)
    ensures Blank(Newline(fmt) + Indent(fmt, n))
  {
  }

  lemma {:induction false} PrintedMembers(members: seq<Member>, fmt: bool, d: nat)
    requires PlainMembers(members) && d > 0
    ensures var fields := FieldsOf(members, fmt, d);
            WellFormedFields(fields) && SoundFields(fields) && FieldValues(fields) == members
            && RenderFields(fields)
               == if members == [] then "" else Newline(fmt) + PrintMembers(members, fmt, d) + Indent(fmt, d - 1) + "}"
    decreases members, 0
  {
    if members != [] {
      Printed(members[0].value, fmt, d);
      PrintedString(members[0].key);
      PrintedMembers(members[1..], fmt, d);
      PrintedMembersStep(members, fmt, d);
    }
  }

  /** What Printed says of the first member's value, and PrintedString of its name. */
  predicate FirstPrinted(members: seq<Member>, fmt: bool, d: nat)
    requires members != []
  {
    var x, units := SyntaxOf(members[0].value, fmt, d), UnitsOf(members[0].key);
    && WellFormed(x) && Sound(x) && Value(x) == members[0].value && Render(x) == PrintValue(members[0].value, fmt, d)
    && WellFormedUnits(units) && Whole(units) && StringValue(units) == members[0].key
       && RenderString(units) == PrintString(members[0].key)
  }

  lemma FieldsOfStep(members: seq<Member>, fmt: bool, d: nat)
    requires members != [] && d > 0
    ensures var f, fields := FieldOf(members, fmt, d), FieldsOf(members, fmt, d);
            fields != [] && fields[0] == f && fields[1..] == FieldsOf(members[1..], fmt, d)
  {
    hide FieldOf;
    var fields := FieldsOf(members, fmt, d);
    assert fields == [FieldOf(members, fmt, d)] + FieldsOf(members[1..], fmt, d);
  }

  lemma {:induction false} PrintedMembersStep(members: seq<Member>, fmt: bool, d: nat)
    requires members != [] && d > 0 && FirstPrinted(members, fmt, d)
    requires var fields := FieldsOf(members[1..], fmt, d);
             WellFormedFields(fields) && SoundFields(fields) && FieldValues(fields) == members[1..]
             && (|members| > 1 ==>
                   RenderFields(fields) == Newline(fmt) + PrintMembers(members[1..], fmt, d) + Indent(fmt, d - 1) + "}")
    ensures var fields := FieldsOf(members, fmt, d);
            WellFormedFields(fields) && SoundFields(fields) && FieldValues(fields) == members
            && RenderFields(fields) == Newline(fmt) + PrintMembers(members, fmt, d) + Indent(fmt, d - 1) + "}"
  {
    FieldsOfStep(members, fmt, d);
    PrintedMembersText(members, fmt, d);
    hide SyntaxOf, FieldsOf, Render, RenderFields, PrintMembers, PrintValue, UnitsOf;
    hide PrintString, RenderString, StringValue, WellFormedUnits, Newline, Indent;
    BlankIndent(fmt, d);
    BlankIndent(fmt, d - 1);
    var f := FieldOf(members, fmt, d);
    assert WellFormedElement(f.element) && WellFormedField(f);
    assert members == [members[0]] + members[1..];
  }

  lemma {:induction false} PrintedMembersText(members: seq<Member>, fmt: bool, d: nat)
    requires members != [] && d > 0 && FirstPrinted(members, fmt, d)
    requires |members| > 1 ==>
               RenderFields(FieldsOf(members[1..], fmt, d))
               == Newline(fmt) + PrintMembers(members[1..], fmt, d) + Indent(fmt, d - 1) + "}"
    ensures RenderFields(FieldsOf(members, fmt, d))
         == Newline(fmt) + PrintMembers(members, fmt, d) + Indent(fmt, d - 1) + "}"
  {
    FieldsOfStep(members, fmt, d);
    hide SyntaxOf, FieldsOf, Render, PrintValue, UnitsOf, PrintString, RenderString, StringValue, WellFormedUnits;
    var f := FieldOf(members, fmt, d);
    var name, text, more := PrintString(members[0].key), PrintValue(members[0].value, fmt, d),
      PrintMembers(members[1..], fmt, d);
    assert PrintMembers(members, fmt, d)
        == Indent(fmt, d) + name + (if fmt then ":\t" else ":") + text
           + (if |members| > 1 then "," else "") + Newline(fmt) + more;
    assert |members| == 1 ==> more == "";
    assert RenderFields(FieldsOf(members, fmt, d))
        == RenderField(f) + (if |members| == 1 then "}" else "," + RenderFields(FieldsOf(members[1..], fmt, d)));
    hide PrintMembers, RenderFields, Newline, Indent;
    assert (if fmt then ":\t" else ":") == ":" + Tab(fmt);
    if |members| == 1 {
      LastMember(Newline(fmt), Indent(fmt, d), name, Tab(fmt), text, Indent(fmt, d - 1));
    } else {
      MoreMembers(Newline(fmt), Indent(fmt, d), name, Tab(fmt), text, more, Indent(fmt, d - 1));
    }
  }

  lemma LastMember(n: string, i: string, name: string, tab: string, text: string, j: string)
    ensures n + i + (name + ("" + (":" + (tab + (text + (n + j)))))) + "}"
         == n + (i + name + (":" + tab) + text + "" + n + "") + j + "}"
  {
  }

  lemma MoreMembers(n: string, i: string, name: string, tab: string, text: string, more: string, j: string)
    ensures n + i + (name + ("" + (":" + (tab + (text + ""))))) + ("," + (n + more + j + "}"))
         == n + (i + name + (":" + tab) + text + "," + n + more) + j + "}"
  {
  }

  /** Printing a tree and parsing the text back gives the tree, and uses up exactly the text. */
  lemma ValueRoundTrip(t: Json, fmt: bool, d: nat, rest: string, depth: nat)
    requires Plain(t) && Nesting(t) + depth <= NESTING_LIMIT && (t.Number? ==> Terminated(rest))
    ensures ParseValue(PrintValue(t, fmt, d) + rest, depth) == Ok(t, rest)
  {
    Printed(t, fmt, d);
    ValueAccepted(SyntaxOf(t, fmt, d), rest, depth);
  }

  lemma BareText(text: string)
    ensures "" + (text + "") == text && "" + "\0" == "\0"
  {
  }

  /**
   * Parsing what was printed, formatted or not, gives the tree back and stops at the terminating NUL;
   * beyond the nesting limit, where the printer fails too, the text would be refused.
   */
  lemma ParsePrint(t: Json, fmt: bool)
    requires Plain(t)
    ensures var text, fits := PrintValue(t, fmt, 0), Nesting(t) <= NESTING_LIMIT;
            && Parse(text) == (if fits then Ok(t, "\0") else Fail)
            && ParseBytes(text + "\0", true) == if fits then Ok(t, "\0") else Fail
  {
    hide *;
    Printed(t, fmt, 0);
    PrintedFits(t, fmt);
    BlankNothing();
    DocumentParsed("", SyntaxOf(t, fmt, 0), "");
    BareText(PrintValue(t, fmt, 0));
  }

  lemma PrintedFits(t: Json, fmt: bool)
    requires Plain(t)
    ensures WellFormed(SyntaxOf(t, fmt, 0))
    ensures Fits(SyntaxOf(t, fmt, 0), 0) <==> Nesting(t) <= NESTING_LIMIT
  {
    Printed(t, fmt, 0);
    hide SyntaxOf, Sound, Nesting;
  }

  lemma BlankNothing()
    ensures Blank("")
  {
  }

  /** Trees printed to the same text are the same tree. */
  lemma PrintInjective(t: Json, u: Json, fmtT: bool, fmtU: bool)
    requires Plain(t) && Nesting(t) <= NESTING_LIMIT && Plain(u) && Nesting(u) <= NESTING_LIMIT
    requires PrintValue(t, fmtT, 0) == PrintValue(u, fmtU, 0)
    ensures t == u
  {
    ParsePrint(t, fmtT);
    ParsePrint(u, fmtU);
  }
}
