/**
 * What the parser takes beyond the grammar: every text it accepts, and every part of it, is one of the
 * forms below. They differ from RFC 8259 in white space, in what a string may hold and in numbers only.
 */
module JsonLoose {
  import opened Decimals
  import opened Json
  import opened Wrappers

  datatype Loose =
    | Word(word: Json)
    | Num(text: string, d: real)
    | Str(body: string)
    | Arr(blank: string, items: seq<Item>)
    | Obj(blank: string, fields: seq<Field>)

  datatype Item = Item(before: string, value: Loose, after: string)

  datatype Field = Field(before: string, name: string, afterName: string, item: Item)

  /** Any bytes up to the space count as white space. */
  predicate Gap(s: string) {
    forall c :: c in s ==> c <= ' '
  }

  /** A string may hold any bytes but quotation marks, and those behind backslashes. */
  predicate Closed(body: string) {
    body == "" || (body[0] == '\\' && |body| >= 2 && Closed(body[2..]))
    || (body[0] != '\\' && body[0] != '\"' && Closed(body[1..]))
  }

  /** A number begins with a digit or a minus sign and goes on with digits, signs, points and exponents. */
  predicate NumberText(s: string) {
    s != "" && (s[0] == '-' || '0' <= s[0] <= '9')
    && forall c :: c in s ==> '0' <= c <= '9' || c == '+' || c == '-' || c == '.' || c == 'e' || c == 'E'
  }

  predicate StringOk(body: string) {
    Closed(body) && Unescape(body).Some?
  }

  predicate Ok(x: Loose)
    decreases x, 1
  {
    match x
    case Word(t) => t.Null? || t.Bool?
    case Num(text, _) => NumberText(text)
    case Str(body) => StringOk(body)
    case Arr(blank, items) => Gap(blank) && OkItems(items)
    case Obj(blank, fields) => Gap(blank) && OkFields(fields)
  }

  predicate OkItem(i: Item)
    decreases i, 2
  {
    Gap(i.before) && Ok(i.value) && Gap(i.after)
  }

  predicate OkItems(items: seq<Item>)
    decreases items, 0
  {
    items == [] || (OkItem(items[0]) && OkItems(items[1..]))
  }

  predicate OkFields(fields: seq<Field>)
    decreases fields, 0
  {
    fields == [] || (OkField(fields[0]) && OkFields(fields[1..]))
  }

  predicate OkField(f: Field)
    decreases f, 3
  {
    Gap(f.before) && StringOk(f.name) && Gap(f.afterName) && OkItem(f.item)
  }

  function Text(x: Loose): string
    decreases x, 1
  {
    match x
    case Word(t) => if t.Null? then "null" else if t.Bool? && t.b then "true" else "false"
    case Num(text, _) => text
    case Str(body) => "\"" + (body + "\"")
    case Arr(blank, items) => "[" + (blank + (if items == [] then "]" else ItemsText(items)))
    case Obj(blank, fields) => "{" + (blank + (if fields == [] then "}" else FieldsText(fields)))
  }

  function ItemText(i: Item): string
    decreases i, 2
  {
    i.before + (Text(i.value) + i.after)
  }

  /** The elements with commas between them, and the closing bracket. */
  function ItemsText(items: seq<Item>): string
    decreases items, 0
  {
    if items == [] then ""
    else ItemText(items[0]) + (if |items| == 1 then "]" else "," + ItemsText(items[1..]))
  }

  function FieldText(f: Field): string
    decreases f, 3
  {
    f.before + ("\"" + (f.name + ("\"" + (f.afterName + (":" + ItemText(f.item))))))
  }

  /** The members with commas between them, and the closing brace. */
  function FieldsText(fields: seq<Field>): string
    decreases fields, 0
  {
    if fields == [] then ""
    else FieldText(fields[0]) + (if |fields| == 1 then "}" else "," + FieldsText(fields[1..]))
  }

  function StringOf(body: string): string
    requires StringOk(body)
  {
    CString(Unescape(body).value)
  }

  function ValueOf(x: Loose): Json
    requires Ok(x)
    decreases x, 1
  {
    match x
    case Word(t) => t
    case Num(_, d) => Number(d)
    case Str(body) => String(StringOf(body))
    case Arr(_, items) => Array(ItemValues(items))
    case Obj(_, fields) => Object(FieldValues(fields))
  }

  function ItemValues(items: seq<Item>): seq<Json>
    requires OkItems(items)
    decreases items, 0
  {
    if items == [] then []
    else
      assert OkItem(items[0]);
      [ValueOf(items[0].value)] + ItemValues(items[1..])
  }

  function FieldValues(fields: seq<Field>): seq<Member>
    requires OkFields(fields)
    decreases fields, 0
  {
    if fields == [] then []
    else
      assert OkField(fields[0]) && OkItem(fields[0].item);
      [Member(StringOf(fields[0].name), ValueOf(fields[0].item.value))] + FieldValues(fields[1..])
  }

  // ---- The parts ----

  lemma {:induction false} SkipTakes(s: string) returns (gap: string)
    ensures Gap(gap) && s == gap + Skip(s)
  {
    if |s| >= 2 && s[0] <= ' ' {
      var more := SkipTakes(s[1..]);
      gap := [s[0]] + more;
      assert s == [s[0]] + s[1..];
    } else {
      gap := "";
    }
  }

  lemma {:induction false} ScanTakes(s: string)
    requires ScanString(s) >= 0
    ensures Closed(s[..ScanString(s)]) && s[ScanString(s)] == '\"'
  {
    var end := ScanString(s);
    if s[0] == '\"' {
      assert s[..0] == "";
    } else if s[0] == '\\' {
      ScanTakes(s[2..]);
      assert s[..end][2..] == s[2..][..end - 2];
    } else {
      ScanTakes(s[1..]);
      assert s[..end][1..] == s[1..][..end - 1];
    }
  }

  lemma StringTaken(s: string) returns (body: string)
    requires ParseString(s).Ok?
    ensures StringOk(body) && s == "\"" + (body + "\"") + ParseString(s).rest && ParseString(s).value == StringOf(body)
  {
    hide ScanString, Unescape, CString, Closed;
    var t := s[1..];
    var end := ScanString(t);
    ScanTakes(t);
    body := t[..end];
    Quoted(s, end);
  }

  lemma Quoted(s: string, end: nat)
    requires s != "" && s[0] == '\"' && end < |s| - 1 && s[1..][end] == '\"'
    ensures s == "\"" + (s[1..][..end] + "\"") + s[1..][end + 1..]
  {
  }

  lemma {:induction false} NumberBytes(s: string)
    ensures forall c :: c in s[..NumberLength(s)] ==> IsNumberByte(c)
  {
    if s != "" && IsNumberByte(s[0]) {
      NumberBytes(s[1..]);
      assert s[..NumberLength(s)] == [s[0]] + s[1..][..NumberLength(s[1..])];
    }
  }

  lemma NumberTaken(s: string) returns (text: string)
    requires s != "" && (s[0] == '-' || IsDigit(s[0])) && ParseNumber(s).Ok?
    ensures NumberText(text) && s == text + ParseNumber(s).rest && ParseNumber(s).value.Number?
  {
    var n := NumberLength(s);
    var used := |s| - |ParseNumber(s).rest|;
    NumberBytes(s);
    hide Strtod, NumberLength;
    text := s[..used];
    assert s == text + s[used..];
    assert forall c :: c in text ==> c in s[..n];
  }

  // ---- The whole ----

  /** An accepted value takes up one of the forms, which means the value and is nested within the limit. */
  lemma {:induction false} ValueTaken(s: string, depth: nat) returns (x: Loose)
    requires ParseValue(s, depth).Ok?
    ensures Ok(x) && s == Text(x) + ParseValue(s, depth).rest && ValueOf(x) == ParseValue(s, depth).value
    ensures Nesting(ValueOf(x)) > 0 ==> Nesting(ValueOf(x)) + depth <= 1000
    decreases |s|, 2
  {
    var r := ParseValue(s, depth);
    hide ParseArray, ParseObject, ParseString, ParseNumber;
    if StartsWith(s, "null") || StartsWith(s, "false") || StartsWith(s, "true") {
      x := Word(r.value);
      WordTaken(s, r.value, r.rest);
    } else if s[0] == '\"' {
      var body := StringTaken(s);
      x := Str(body);
    } else if s[0] == '-' || IsDigit(s[0]) {
      var text := NumberTaken(s);
      x := Num(text, r.value.d);
    } else if s[0] == '[' {
      x := ArrayTaken(s, depth);
    } else {
      x := ObjectTaken(s, depth);
    }
  }

  lemma WordTaken(s: string, t: Json, rest: string)
    requires StartsWith(s, "null") || StartsWith(s, "false") || StartsWith(s, "true")
    requires ParseValue(s, 0) == Parsed.Ok(t, rest)
    ensures (t.Null? || t.Bool?) && s == Text(Word(t)) + rest
  {
  }

  lemma {:induction false} ArrayTaken(s: string, depth: nat) returns (x: Loose)
    requires s != "" && ParseArray(s, depth).Ok?
    ensures Ok(x) && s == Text(x) + ParseArray(s, depth).rest && ValueOf(x) == ParseArray(s, depth).value
    ensures Nesting(ValueOf(x)) + depth <= 1000
    decreases |s|, 1
  {
    var gap := SkipTakes(s[1..]);
    var r := Skip(s[1..]);
    assert s == "[" + (gap + r);
    if r[0] == ']' {
      x := Arr(gap, []);
      assert r == "]" + r[1..];
      assert Text(x) == "[" + (gap + "]");
    } else {
      var items := ItemsTaken(r, depth + 1);
      x := Arr(gap, items);
      hide ParseItems, Skip, ItemsText, OkItems, Nesting;
      NestingOfArray(ItemValues(items));
    }
  }

  lemma {:induction false} ItemsTaken(s: string, depth: nat) returns (items: seq<Item>)
    requires ParseItems(s, depth).Ok?
    ensures items != [] && OkItems(items) && s == ItemsText(items) + ParseItems(s, depth).rest
    ensures ItemValues(items) == ParseItems(s, depth).value
    ensures NestingItems(ItemValues(items)) > 0 ==> NestingItems(ItemValues(items)) + depth <= 1000
    decreases |s|, 3
  {
    var before := SkipTakes(s);
    var x := ValueTaken(Skip(s), depth);
    var rest := ParseValue(Skip(s), depth).rest;
    var after := SkipTakes(rest);
    var r := Skip(rest);
    var item := Item(before, x, after);
    assert r == [r[0]] + r[1..];
    if r[0] == ',' {
      var more := ItemsTaken(r[1..], depth);
      items := [item] + more;
      ItemsFirst(item, more);
      hide *;
      ItemsJoin(before, Text(x), after, ItemsText(more), ParseItems(r[1..], depth).rest);
    } else {
      items := [item];
      ItemsLast(item);
      hide *;
      LastJoin(before, Text(x), after, "]", r[1..]);
    }
  }

  lemma ItemsFirst(item: Item, more: seq<Item>)
    requires OkItem(item) && OkItems(more) && more != []
    ensures OkItems([item] + more)
    ensures ItemsText([item] + more) == item.before + (Text(item.value) + item.after) + ("," + ItemsText(more))
    ensures ItemValues([item] + more) == [ValueOf(item.value)] + ItemValues(more)
    ensures NestingItems(ItemValues([item] + more))
         == if Nesting(ValueOf(item.value)) > NestingItems(ItemValues(more)) then Nesting(ValueOf(item.value))
            else NestingItems(ItemValues(more))
  {
    assert ([item] + more)[1..] == more;
    assert ([ValueOf(item.value)] + ItemValues(more))[1..] == ItemValues(more);
  }

  lemma ItemsLast(item: Item)
    requires OkItem(item)
    ensures OkItems([item]) && ItemsText([item]) == item.before + (Text(item.value) + item.after) + "]"
    ensures ItemValues([item]) == [ValueOf(item.value)]
    ensures NestingItems(ItemValues([item])) == Nesting(ValueOf(item.value))
  {
    assert [item][1..] == [] && [ValueOf(item.value)][1..] == [];
  }

  lemma ItemsJoin(before: string, text: string, after: string, more: string, rest: string)
    ensures before + (text + (after + ("," + (more + rest)))) == before + (text + after) + ("," + more) + rest
  {
  }

  lemma LastJoin(before: string, text: string, after: string, close: string, rest: string)
    ensures before + (text + (after + (close + rest))) == before + (text + after) + close + rest
  {
  }

  lemma {:induction false} ObjectTaken(s: string, depth: nat) returns (x: Loose)
    requires s != "" && ParseObject(s, depth).Ok?
    ensures Ok(x) && s == Text(x) + ParseObject(s, depth).rest && ValueOf(x) == ParseObject(s, depth).value
    ensures Nesting(ValueOf(x)) + depth <= 1000
    decreases |s|, 1
  {
    var gap := SkipTakes(s[1..]);
    var r := Skip(s[1..]);
    assert s == "{" + (gap + r);
    if r[0] == '}' {
      x := Obj(gap, []);
      assert r == "}" + r[1..];
      assert Text(x) == "{" + (gap + "}");
    } else {
      var fields := FieldsTaken(r, depth + 1);
      x := Obj(gap, fields);
      hide ParseMembers, Skip, FieldsText, OkFields, Nesting;
      NestingOfObject(FieldValues(fields));
    }
  }

  lemma {:induction false} FieldTaken(s: string, depth: nat) returns (before: string, name: string, afterName: string,
                                                                     between: string, x: Loose)
    requires ParseMember(s, depth).Ok?
    ensures Gap(before) && StringOk(name) && Gap(afterName) && Gap(between) && Ok(x)
    ensures s == before + ("\"" + (name + ("\"" + (afterName + (":" + (between + Text(x)))))))
                 + ParseMember(s, depth).rest
    ensures ParseMember(s, depth).value == Member(StringOf(name), ValueOf(x))
    ensures Nesting(ValueOf(x)) > 0 ==> Nesting(ValueOf(x)) + depth <= 1000
    decreases |s|, 3, 0
  {
    hide ParseString, ParseValue, Skip, Text, ValueOf, StringOf, Nesting, StringOk, Ok, Gap;
    before := SkipTakes(s);
    name := StringTaken(Skip(s));
    var rest := ParseString(Skip(s)).rest;
    afterName := SkipTakes(rest);
    var r := Skip(rest);
    assert r == ":" + r[1..];
    between := SkipTakes(r[1..]);
    x := ValueTaken(Skip(r[1..]), depth);
    var end := ParseMember(s, depth).rest;
    assert end == ParseValue(Skip(r[1..]), depth).rest;
    hide *;
    FieldJoin(before, name, afterName, between, Text(x), end);
  }

  lemma FieldJoin(before: string, name: string, afterName: string, between: string, text: string, rest: string)
    ensures before + ("\"" + (name + "\"") + (afterName + (":" + (between + (text + rest)))))
         == before + ("\"" + (name + ("\"" + (afterName + (":" + (between + text)))))) + rest
  {
    var a := name + ("\"" + (afterName + (":" + (between + text))));
    assert (name + "\"") + (afterName + (":" + (between + (text + rest)))) == a + rest;
  }

  /** One member with the white space after it. */
  lemma {:induction false} WholeFieldTaken(s: string, depth: nat) returns (field: Field)
    requires ParseMember(s, depth).Ok?
    ensures OkField(field) && StringOk(field.name) && Ok(field.item.value)
    ensures s == FieldText(field) + Skip(ParseMember(s, depth).rest)
    ensures ParseMember(s, depth).value == Member(StringOf(field.name), ValueOf(field.item.value))
    ensures Nesting(ValueOf(field.item.value)) > 0 ==> Nesting(ValueOf(field.item.value)) + depth <= 1000
    decreases |s|, 3, 1
  {
    var before, name, afterName, between, x := FieldTaken(s, depth);
    var rest := ParseMember(s, depth).rest;
    var after := SkipTakes(rest);
    field := Field(before, name, afterName, Item(between, x, after));
    assert OkItem(field.item);
    WholeField(field, Skip(rest));
    hide *;
  }

  lemma WholeField(f: Field, r: string)
    ensures f.before + ("\"" + (f.name + ("\"" + (f.afterName + (":" + (f.item.before + Text(f.item.value)))))))
              + (f.item.after + r)
         == FieldText(f) + r
  {
    hide Text;
    var text := Text(f.item.value);
    assert f.item.before + text + (f.item.after + r) == f.item.before + (text + f.item.after) + r;
    var a, b := f.item.before + text, ItemText(f.item);
    assert ":" + a + (f.item.after + r) == ":" + b + r;
    var c, d := f.afterName + (":" + a), f.afterName + (":" + b);
    assert c + (f.item.after + r) == d + r;
    assert f.name + ("\"" + c) + (f.item.after + r) == f.name + ("\"" + d) + r;
  }

  lemma {:induction false} FieldsTaken(s: string, depth: nat) returns (fields: seq<Field>)
    requires ParseMembers(s, depth).Ok?
    ensures fields != [] && OkFields(fields) && s == FieldsText(fields) + ParseMembers(s, depth).rest
    ensures FieldValues(fields) == ParseMembers(s, depth).value
    ensures NestingMembers(FieldValues(fields)) > 0 ==> NestingMembers(FieldValues(fields)) + depth <= 1000
    decreases |s|, 4
  {
    var field := WholeFieldTaken(s, depth);
    var r := Skip(ParseMember(s, depth).rest);
    assert r == [r[0]] + r[1..];
    if r[0] == ',' {
      var more := FieldsTaken(r[1..], depth);
      fields := [field] + more;
      FieldsFirst(field, more);
      hide *;
      ThreeJoin(FieldText(field), ",", FieldsText(more), ParseMembers(r[1..], depth).rest);
    } else {
      fields := [field];
      FieldsLast(field);
      hide *;
      ThreeJoin(FieldText(field), "}", "", r[1..]);
    }
  }

  lemma ThreeJoin(text: string, mark: string, more: string, rest: string)
    ensures text + (mark + (more + rest)) == text + (mark + more) + rest
    ensures more == "" ==> text + (mark + rest) == text + mark + rest
  {
  }

  lemma FieldsFirst(field: Field, more: seq<Field>)
    requires OkField(field) && StringOk(field.name) && Ok(field.item.value) && OkFields(more) && more != []
    ensures OkFields([field] + more) && FieldsText([field] + more) == FieldText(field) + ("," + FieldsText(more))
    ensures FieldValues([field] + more)
         == [Member(StringOf(field.name), ValueOf(field.item.value))] + FieldValues(more)
    ensures NestingMembers(FieldValues([field] + more))
         == if Nesting(ValueOf(field.item.value)) > NestingMembers(FieldValues(more))
            then Nesting(ValueOf(field.item.value))
            else NestingMembers(FieldValues(more))
  {
    assert ([field] + more)[1..] == more;
    var first := Member(StringOf(field.name), ValueOf(field.item.value));
    assert ([first] + FieldValues(more))[1..] == FieldValues(more);
    hide FieldText;
  }

  lemma FieldsLast(field: Field)
    requires OkField(field) && StringOk(field.name) && Ok(field.item.value)
    ensures OkFields([field]) && FieldsText([field]) == FieldText(field) + "}"
    ensures FieldValues([field]) == [Member(StringOf(field.name), ValueOf(field.item.value))]
    ensures NestingMembers(FieldValues([field])) == Nesting(ValueOf(field.item.value))
  {
    var first := Member(StringOf(field.name), ValueOf(field.item.value));
    assert [field][1..] == [] && [first][1..] == [];
    hide FieldText;
  }

  lemma NestingOfArray(items: seq<Json>)
    ensures Nesting(Array(items)) == 1 + NestingItems(items)
  {
  }

  lemma NestingOfObject(members: seq<Member>)
    ensures Nesting(Object(members)) == 1 + NestingMembers(members)
  {
  }

  // ---- Documents ----

  predicate Mark(s: string) {
    s == "" || s == ['\U{EF}', '\U{BB}', '\U{BF}']
  }

  /** So a document that is accepted is one such value, with white space before it and perhaps a byte order mark. */
  lemma OnlyLooseAccepted(s: string, requireNul: bool) returns (mark: string, before: string, x: Loose, after: string)
    requires ParseBytes(s, requireNul).Ok?
    ensures Mark(mark) && Gap(before) && Ok(x) && Gap(after) && Nesting(ValueOf(x)) <= 1000
    ensures s == mark + (before + (Text(x) + (after + ParseBytes(s, requireNul).rest)))
    ensures ParseBytes(s, requireNul).value == ValueOf(x)
    ensures if requireNul then |ParseBytes(s, requireNul).rest| > 0 && ParseBytes(s, requireNul).rest[0] == '\0'
            else after == ""
  {
    var t := SkipBom(s);
    mark := if t == s then "" else s[..3];
    assert s == mark + t && Mark(mark);
    before := SkipTakes(t);
    x := ValueTaken(Skip(t), 0);
    var rest := ParseValue(Skip(t), 0).rest;
    if requireNul {
      after := SkipTakes(rest);
    } else {
      after := "";
      assert "" + rest == rest;
    }
    hide Skip, ParseValue, ValueOf, Text, Ok, Nesting;
  }
}
