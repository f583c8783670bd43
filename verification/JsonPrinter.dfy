/**
 * cJSON's printer as it runs: a buffer that grows on demand, or one of fixed size. It prints exactly
 * the text of PrintValue, and succeeds exactly when the tree is not too deep and the text and
 * two further bytes fit.
 */
module JsonPrinter {
  import opened Decimals
  import opened Json
  import opened JsonGrammar
  import opened JsonRoundTrip

  const DEFAULT_BUFFER_SIZE: nat := 256

  // ---- The printed text contains no NUL, so strlen finds its end ----

  lemma NulFreeConcat(s: string, t: string)
    requires NulFree(s) && NulFree(t)
    ensures NulFree(s + t)
  {
  }

  lemma {:induction false} EscapeNulFree(s: string)
    requires NulFree(s)
    ensures NulFree(Escape(s))
  {
    if s != "" {
      EscapeNulFree(s[1..]);
      EscapeByteNulFree(s[0]);
    }
  }

  lemma EscapeStep(s: string, i: nat)
    requires i < |s|
    ensures Escape(s[i..]) == EscapeByte(s[i]) + Escape(s[i + 1..])
  {
    assert s[i..][1..] == s[i + 1..];
  }

  lemma EscapeByteNulFree(c: char)
    requires c != '\0'
    ensures NulFree(EscapeByte(c))
  {
    if c < ' ' {
      HexDigitNotNul(c as int / 16);
      HexDigitNotNul(c as int % 16);
    }
  }

  lemma HexDigitNotNul(n: nat)
    requires n < 16
    ensures HexDigit(n) != '\0'
  {
  }

  lemma DecimalNulFree(n: int)
    ensures NulFree(Decimal(n))
  {
    var digits := Digits(if n < 0 then -n else n);
    DigitsRoundTrip(if n < 0 then -n else n);
    assert NulFree(digits) by {
      assert forall i :: 0 <= i < |digits| ==> IsDigit(digits[i]);
    }
  }

  lemma {:induction false} ValueNulFree(t: Json, fmt: bool, d: nat)
    requires Plain(t)
    ensures NulFree(PrintValue(t, fmt, d))
    decreases t, 1
  {
    hide ValueInt, Decimal, PrintItems, PrintMembers;
    match t {
      case Null =>
      case Bool(_) =>
      case Number(x) => DecimalNulFree(ValueInt(x));
      case String(s) => EscapeNulFree(s);
      case Array(items) => ItemsNulFree(items, fmt, d + 1);
      case Object(members) => MembersNulFree(members, fmt, d + 1);
    }
  }

  lemma {:induction false} ItemsNulFree(items: seq<Json>, fmt: bool, d: nat)
    requires PlainItems(items)
    ensures NulFree(PrintItems(items, fmt, d))
    decreases items, 0
  {
    if items != [] {
      ValueNulFree(items[0], fmt, d);
      ItemsNulFree(items[1..], fmt, d);
    }
  }

  lemma {:induction false} MembersNulFree(members: seq<Member>, fmt: bool, d: nat)
    requires PlainMembers(members)
    ensures NulFree(PrintMembers(members, fmt, d))
    decreases members, 0
  {
    if members != [] {
      hide PrintValue, Escape;
      EscapeNulFree(members[0].key);
      ValueNulFree(members[0].value, fmt, d);
      MembersNulFree(members[1..], fmt, d);
      var name, text := PrintString(members[0].key), PrintValue(members[0].value, fmt, d);
      var indent, colon := if fmt then Tabs(d) else "", if fmt then ":\t" else ":";
      var comma, newline := if |members| > 1 then "," else "", if fmt then "\n" else "";
      assert NulFree(indent) && NulFree(name) && NulFree(colon) && NulFree(comma) && NulFree(newline);
      hide NulFree, PrintString;
      NulFreeConcat(indent, name);
      NulFreeConcat(indent + name, colon);
      NulFreeConcat(indent + name + colon, text);
      NulFreeConcat(indent + name + colon + text, comma);
      NulFreeConcat(indent + name + colon + text + comma, newline);
      NulFreeConcat(indent + name + colon + text + comma + newline, PrintMembers(members[1..], fmt, d));
    }
  }

  // ---- Lists, element by element ----

  function Comma(fmt: bool): string {
    if fmt then ", " else ","
  }

  /** The text of one element and what separates it from the next. */
  function ItemText(item: Json, more: bool, fmt: bool, d: nat): string {
    PrintValue(item, fmt, d) + (if more then Comma(fmt) else "")
  }

  function NameText(key: string, fmt: bool, d: nat): string {
    Indent(fmt, d) + PrintString(key) + (if fmt then ":\t" else ":")
  }

  function MemberText(m: Member, more: bool, fmt: bool, d: nat): string {
    NameText(m.key, fmt, d) + PrintValue(m.value, fmt, d) + ((if more then "," else "") + Newline(fmt))
  }

  lemma ItemsStep(items: seq<Json>, k: nat, fmt: bool, d: nat)
    requires k < |items| && PlainItems(items[k..])
    ensures PrintItems(items[k..], fmt, d)
         == ItemText(items[k], k + 1 < |items|, fmt, d) + PrintItems(items[k + 1..], fmt, d)
    ensures Plain(items[k]) && PlainItems(items[k + 1..])
    ensures NestingItems(items[k..])
         == (if Nesting(items[k]) > NestingItems(items[k + 1..])
             then Nesting(items[k])
             else NestingItems(items[k + 1..]))
  {
    assert items[k..][1..] == items[k + 1..];
  }

  lemma MembersStep(members: seq<Member>, k: nat, fmt: bool, d: nat)
    requires k < |members| && PlainMembers(members[k..])
    ensures PrintMembers(members[k..], fmt, d)
         == MemberText(members[k], k + 1 < |members|, fmt, d) + PrintMembers(members[k + 1..], fmt, d)
    ensures NulFree(members[k].key) && Plain(members[k].value) && PlainMembers(members[k + 1..])
    ensures NestingMembers(members[k..])
         == (if Nesting(members[k].value) > NestingMembers(members[k + 1..]) then Nesting(members[k].value)
             else NestingMembers(members[k + 1..]))
  {
    assert members[k..][1..] == members[k + 1..];
  }

  lemma EscapeNothing()
    ensures Escape("") == ""
  {
  }

  class PrintBuffer {
    var buffer: array<char>
    var offset: nat
    var depth: nat
    const noalloc: bool
    const format: bool

    constructor (buffer: array<char>, noalloc: bool, format: bool)
      requires buffer.Length <= INT_MAX
      ensures Valid() && this.buffer == buffer && offset == 0 && depth == 0
      ensures this.noalloc == noalloc && this.format == format
    {
      this.buffer := buffer;
      this.offset := 0;
      this.depth := 0;
      this.noalloc := noalloc;
      this.format := format;
    }

    ghost predicate Valid()
      reads this
    {
      && buffer.Length <= INT_MAX
      && (offset < buffer.Length || (offset == 0 && buffer.Length == 0))
      && depth <= NESTING_LIMIT
    }

    /** How large the buffer may become. */
    ghost function Capacity(): nat
      reads this
    {
      if noalloc then buffer.Length else INT_MAX
    }

    /** The text before the offset. */
    ghost function Written(): string
      requires Valid()
      reads this, buffer
    {
      buffer[..offset]
    }

    /** The buffer, as a C string, is s. */
    ghost predicate Holds(s: string)
      reads this, buffer
    {
      offset <= |s| < buffer.Length && buffer[..|s|] == s && buffer[|s|] == '\0'
    }

    /** ensure: room for needed bytes and one more after the offset. */
    method Ensure(needed: nat) returns (ok: bool)
      requires Valid()
      modifies this`buffer
      ensures Valid() && Written() == old(Written()) && Capacity() == old(Capacity())
      ensures buffer == old(buffer) || (!noalloc && fresh(buffer))
      ensures ok <==> offset + needed + 1 <= Capacity()
      ensures ok ==> offset + needed + 1 <= buffer.Length
    {
      if buffer.Length > 0 && offset >= buffer.Length {
        return false;
      }
      if needed > INT_MAX {
        return false;
      }
      var total := needed + offset + 1;
      if total <= buffer.Length {
        return true;
      }
      if noalloc {
        return false;
      }
      var newSize := total * 2;
      if total > INT_MAX / 2 {
        if total <= INT_MAX {
          newSize := INT_MAX;
        } else {
          return false;
        }
      }
      var newBuffer := new char[newSize];
      var i := 0;
      while i < offset
        invariant 0 <= i <= offset && buffer == old(buffer)
        invariant newBuffer[..i] == buffer[..i]
      {
        newBuffer[i] := buffer[i];
        i := i + 1;
      }
      buffer := newBuffer;
      ok := true;
    }

    /** strcpy or memcpy of text to a place in the buffer. */
    method Store(at: nat, text: string)
      requires at + |text| <= buffer.Length
      modifies buffer
      ensures buffer[..at + |text|] == old(buffer[..at]) + text
      ensures buffer[at + |text|..] == old(buffer[at + |text|..])
    {
      var i := 0;
      while i < |text|
        invariant 0 <= i <= |text|
        invariant buffer[..at + i] == old(buffer[..at]) + text[..i]
        invariant buffer[at + |text|..] == old(buffer[at + |text|..])
      {
        buffer[at + i] := text[i];
        assert buffer[..at + i + 1] == old(buffer[..at]) + text[..i + 1];
        i := i + 1;
      }
      assert text[..i] == text;
    }

    /** Store text and its terminating NUL at the offset. */
    method StoreString(text: string)
      requires Valid() && offset + |text| < buffer.Length
      modifies buffer
      ensures Valid() && Written() == old(Written()) && Holds(Written() + text)
    {
      Store(offset, text + "\0");
      var s := old(Written()) + text;
      assert buffer[..|s| + 1] == s + "\0";
      assert buffer[..|s|] == buffer[..|s| + 1][..|s|];
      assert buffer[|s|] == buffer[..|s| + 1][|s|];
    }

    /** update_offset: move past the string that starts at the offset. */
    method UpdateOffset(ghost s: string)
      requires Valid() && Holds(s) && NulFree(s[offset..])
      modifies this`offset
      ensures Valid() && Holds(s) && offset == |s| && Written() == s
    {
      var length := 0;
      assert forall k :: offset <= k < |s| ==> buffer[k] == s[k] == s[offset..][k - offset];
      while buffer[offset + length] != '\0'
        invariant offset == old(offset) && offset + length <= |s|
        decreases |s| - length
      {
        length := length + 1;
      }
      assert offset + length == |s|;
      offset := offset + length;
    }

    /** print_number for a whole number; it moves the offset itself. */
    method EmitNumber(d: real) returns (ok: bool)
      requires Valid() && d == ValueInt(d) as real
      modifies this, buffer
      ensures Valid() && Capacity() == old(Capacity()) && depth == old(depth)
      ensures buffer == old(buffer) || (!noalloc && fresh(buffer))
      ensures ok <==> old(offset) + |Decimal(ValueInt(d))| + 2 <= Capacity()
      ensures ok ==> offset >= old(offset) && Holds(old(Written()) + Decimal(ValueInt(d)))
    {
      var number := Decimal(ValueInt(d));
      ok := Ensure(|number| + 1);
      if ok {
        StoreString(number);
        offset := offset + |number|;
      }
    }

    /** The extra bytes that escaping s takes, counted before anything is written. */
    method CountEscapes(s: string) returns (extra: nat)
      ensures |s| + extra == |Escape(s)|
      ensures extra == 0 ==> Escape(s) == s
    {
      hide Escape;
      extra := 0;
      var i := 0;
      assert s[0..] == s && s[..0] + Escape(s) == Escape(s);
      while i < |s|
        invariant 0 <= i <= |s|
        invariant |Escape(s)| == i + extra + |Escape(s[i..])|
        invariant extra == 0 ==> Escape(s) == s[..i] + Escape(s[i..])
      {
        var c := s[i];
        EscapeStep(s, i);
        if c in ['\"', '\\', '\U{8}', '\U{C}', '\n', '\r', '\t'] {
          extra := extra + 1;
        } else if c < ' ' {
          extra := extra + 5;
        }
        if extra == 0 {
          assert s[..i + 1] == s[..i] + [c];
          Assoc3(s[..i], [c], Escape(s[i + 1..]));
        }
        i := i + 1;
      }
      assert s[i..] == "" && s[..i] == s;
      EscapeNothing();
      assert s + "" == s;
    }

    /** The second loop of print_string_ptr, between its quotation marks. */
    method StoreEscaped(input: string)
      requires Valid() && offset + |PrintString(input)| < buffer.Length
      modifies buffer
      ensures Valid() && Holds(old(Written()) + PrintString(input))
    {
      hide Escape;
      ghost var head := Written() + "\"";
      Store(offset, "\"");
      var output := offset + 1;
      var i := 0;
      assert input[0..] == input;
      while i < |input|
        invariant 0 <= i <= |input| && offset + 1 <= output
        invariant output + |Escape(input[i..])| == offset + 1 + |Escape(input)|
        invariant buffer[..output] + Escape(input[i..]) == head + Escape(input)
      {
        ghost var before := buffer[..output];
        EscapeStep(input, i);
        Store(output, EscapeByte(input[i]));
        Assoc3(before, EscapeByte(input[i]), Escape(input[i + 1..]));
        output := output + |EscapeByte(input[i])|;
        i := i + 1;
      }
      assert input[i..] == "";
      EscapeNothing();
      assert buffer[..output] + "" == buffer[..output];
      Store(output, "\"\0");
      ghost var s := old(Written()) + PrintString(input);
      assert buffer[..|s| + 1] == head + Escape(input) + "\"\0" == s + "\0";
      assert buffer[..|s|] == buffer[..|s| + 1][..|s|];
      assert buffer[|s|] == buffer[..|s| + 1][|s|];
    }

    /** print_string_ptr: the quoted and escaped form of input, offset unmoved. */
    method EmitStringPtr(input: string) returns (ok: bool)
      requires Valid() && NulFree(input)
      modifies this, buffer
      ensures Valid() && Capacity() == old(Capacity()) && depth == old(depth) && offset == old(offset)
      ensures buffer == old(buffer) || (!noalloc && fresh(buffer))
      ensures ok <==> offset + |PrintString(input)| + 2 <= Capacity()
      ensures ok ==> Holds(old(Written()) + PrintString(input))
    {
      var extra := CountEscapes(input);
      var length := |input| + extra;
      ok := Ensure(length + 3);
      if !ok {
        return;
      }
      if extra == 0 {
        StoreString("\"" + input + "\"");
        return;
      }
      StoreEscaped(input);
    }

    /** print_value: the text of t at the offset, which update_offset then moves past it. */
    method EmitValue(t: Json) returns (ok: bool)
      requires Valid() && Plain(t)
      modifies this, buffer
      ensures Valid() && Capacity() == old(Capacity()) && (buffer == old(buffer) || (!noalloc && fresh(buffer)))
      ensures ok <==> old(depth) + Nesting(t) <= NESTING_LIMIT
                      && old(offset) + |PrintValue(t, format, old(depth))| + 2 <= Capacity()
      ensures ok ==>
                depth == old(depth) && offset >= old(offset) && Holds(old(Written()) + PrintValue(t, format, depth))
      decreases t, 0
    {
      hide PrintItems, PrintMembers, NestingItems, NestingMembers;
      match t {
        case Null => ok := EmitWord("null");
        case Bool(b) => ok := EmitWord(if b then "true" else "false");
        case Number(d) => ok := EmitNumber(d);
        case String(s) => ok := EmitStringPtr(s);
        case Array(items) => ok := EmitArray(items);
        case Object(members) => ok := EmitObject(members);
      }
    }

    method EmitWord(word: string) returns (ok: bool)
      requires Valid()
      modifies this, buffer
      ensures Valid() && Capacity() == old(Capacity()) && (buffer == old(buffer) || (!noalloc && fresh(buffer)))
      ensures ok <==> old(offset) + |word| + 2 <= Capacity()
      ensures ok ==> depth == old(depth) && offset >= old(offset) && Holds(old(Written()) + word)
    {
      ok := Ensure(|word| + 1);
      if ok {
        StoreString(word);
      }
    }

    /** Reserve room for extra bytes after text, store it and move past it. */
    method Append(text: string, extra: nat) returns (ok: bool)
      requires Valid()
      modifies this, buffer
      ensures Valid() && Capacity() == old(Capacity()) && (buffer == old(buffer) || (!noalloc && fresh(buffer)))
      ensures ok <==> old(offset) + |text| + extra + 1 <= Capacity()
      ensures ok ==> depth == old(depth) && Written() == old(Written()) + text
    {
      ok := Ensure(|text| + extra);
      if ok {
        Store(offset, text);
        offset := offset + |text|;
      }
    }

    /** One turn of the loop of print_array. */
    method EmitElement(item: Json, more: bool) returns (ok: bool)
      requires Valid() && Plain(item)
      modifies this, buffer
      ensures Valid() && Capacity() == old(Capacity()) && (buffer == old(buffer) || (!noalloc && fresh(buffer)))
      ensures ok <==> old(depth) + Nesting(item) <= NESTING_LIMIT
                      && old(offset) + |ItemText(item, more, format, old(depth))| + 2 <= Capacity()
      ensures ok ==> depth == old(depth) && Written() == old(Written()) + ItemText(item, more, format, depth)
      decreases item, 1
    {
      hide PrintValue, Nesting;
      ghost var text := PrintValue(item, format, depth);
      ghost var start := Written();
      ok := EmitValue(item);
      if ok {
        ValueNulFree(item, format, depth);
        assert (start + text)[offset..] == text[offset - |start|..];
        UpdateOffset(start + text);
        if more {
          ok := Append(Comma(format), 1);
          Assoc3(start, text, Comma(format));
        } else {
          assert text + "" == text;
        }
      }
    }

    /** The loop over the elements. */
    method EmitItems(items: seq<Json>) returns (ok: bool)
      requires Valid() && PlainItems(items)
      modifies this, buffer
      ensures Valid() && Capacity() == old(Capacity()) && (buffer == old(buffer) || (!noalloc && fresh(buffer)))
      ensures ok ==> old(depth) + NestingItems(items) <= NESTING_LIMIT && depth == old(depth)
                     && Written() == old(Written()) + PrintItems(items, format, depth)
      ensures !ok ==> old(depth) + NestingItems(items) > NESTING_LIMIT
                      || old(offset) + |PrintItems(items, format, old(depth))| + 2 > Capacity()
      decreases items, 2
    {
      hide PrintValue, PrintItems, Nesting, NestingItems, PlainItems, ItemText;
      ghost var all := PrintItems(items, format, depth);
      ghost var base, done := Written(), "";
      var k := 0;
      assert items[0..] == items && base + "" == base && "" + all == all;
      while k < |items|
        invariant 0 <= k <= |items| && PlainItems(items[k..])
        invariant Valid() && Capacity() == old(Capacity()) && (buffer == old(buffer) || (!noalloc && fresh(buffer)))
        invariant depth == old(depth) && Written() == base + done
        invariant all == done + PrintItems(items[k..], format, depth)
        invariant depth + NestingItems(items) <= NESTING_LIMIT
                  <==> depth + NestingItems(items[k..]) <= NESTING_LIMIT
      {
        ghost var text := ItemText(items[k], k + 1 < |items|, format, depth);
        ItemsStep(items, k, format, depth);
        ok := EmitElement(items[k], k + 1 < |items|);
        if !ok {
          return;
        }
        Assoc3(base, done, text);
        Assoc3(done, text, PrintItems(items[k + 1..], format, depth));
        done := done + text;
        k := k + 1;
      }
      ItemsNothing(items[k..], format, depth);
      assert done + "" == done;
      ok := true;
    }

    method EmitArray(items: seq<Json>) returns (ok: bool)
      requires Valid() && PlainItems(items)
      modifies this, buffer
      ensures Valid() && Capacity() == old(Capacity()) && (buffer == old(buffer) || (!noalloc && fresh(buffer)))
      ensures ok <==> old(depth) + Nesting(Array(items)) <= NESTING_LIMIT
                      && old(offset) + |PrintValue(Array(items), format, old(depth))| + 2 <= Capacity()
      ensures ok ==> depth == old(depth) && offset >= old(offset)
                     && Holds(old(Written()) + PrintValue(Array(items), format, depth))
      decreases items, 3
    {
      hide PrintItems, NestingItems, PlainItems;
      ghost var all := PrintItems(items, format, depth + 1);
      if depth >= NESTING_LIMIT {
        return false;
      }
      ok := Append("[", 0);
      if !ok {
        return;
      }
      depth := depth + 1;
      ok := EmitItems(items);
      if !ok {
        return;
      }
      ok := Ensure(2);
      if ok {
        StoreString("]");
        depth := depth - 1;
        AssocBracket(old(Written()), "[", all, "]");
      }
    }

    /** Tabs, the name of a member and its colon. */
    method EmitName(key: string) returns (ok: bool)
      requires Valid() && NulFree(key)
      modifies this, buffer
      ensures Valid() && Capacity() == old(Capacity()) && (buffer == old(buffer) || (!noalloc && fresh(buffer)))
      ensures ok <==> old(offset) + |NameText(key, format, old(depth))| + 1 <= Capacity()
      ensures ok ==> depth == old(depth) && Written() == old(Written()) + NameText(key, format, depth)
    {
      hide Escape;
      ghost var start := Written();
      var tabs := Indent(format, depth);
      if format {
        ok := Append(tabs, 0);
        if !ok {
          return;
        }
      } else {
        assert start + tabs == start;
      }
      ghost var quoted := PrintString(key);
      ok := EmitStringPtr(key);
      if !ok {
        return;
      }
      EscapeNulFree(key);
      assert (start + tabs + quoted)[offset..] == quoted;
      UpdateOffset(start + tabs + quoted);
      var colon := if format then ":\t" else ":";
      ok := Append(colon, 0);
      AssocBracket(start, tabs, quoted, colon);
    }

    /** One turn of the loop of print_object. */
    method EmitMember(m: Member, more: bool) returns (ok: bool)
      requires Valid() && NulFree(m.key) && Plain(m.value)
      modifies this, buffer
      ensures Valid() && Capacity() == old(Capacity()) && (buffer == old(buffer) || (!noalloc && fresh(buffer)))
      ensures ok <==> old(depth) + Nesting(m.value) <= NESTING_LIMIT
                      && old(offset) + |MemberText(m, more, format, old(depth))| + 2 <= Capacity()
      ensures ok ==> depth == old(depth) && Written() == old(Written()) + MemberText(m, more, format, depth)
      decreases m, 1
    {
      hide PrintValue, Nesting, NameText;
      ghost var start, name := Written(), NameText(m.key, format, depth);
      ok := EmitName(m.key);
      if !ok {
        return;
      }
      ghost var text := PrintValue(m.value, format, depth);
      ok := EmitValue(m.value);
      if !ok {
        return;
      }
      ValueNulFree(m.value, format, depth);
      assert (start + name + text)[offset..] == text[offset - |start + name|..];
      UpdateOffset(start + name + text);
      var comma := (if more then "," else "") + Newline(format);
      ok := Append(comma, 1);
      AssocBracket(start, name, text, comma);
    }

    /** The loop over the members. */
    method EmitMembers(members: seq<Member>) returns (ok: bool)
      requires Valid() && PlainMembers(members)
      modifies this, buffer
      ensures Valid() && Capacity() == old(Capacity()) && (buffer == old(buffer) || (!noalloc && fresh(buffer)))
      ensures ok ==> old(depth) + NestingMembers(members) <= NESTING_LIMIT && depth == old(depth)
                     && Written() == old(Written()) + PrintMembers(members, format, depth)
      ensures !ok ==> old(depth) + NestingMembers(members) > NESTING_LIMIT
                      || old(offset) + |PrintMembers(members, format, old(depth))| + 2 > Capacity()
      decreases members, 2
    {
      hide PrintValue, PrintMembers, Nesting, NestingMembers, PlainMembers, MemberText;
      ghost var all := PrintMembers(members, format, depth);
      ghost var base, done := Written(), "";
      var k := 0;
      assert members[0..] == members && base + "" == base && "" + all == all;
      while k < |members|
        invariant 0 <= k <= |members| && PlainMembers(members[k..])
        invariant Valid() && Capacity() == old(Capacity()) && (buffer == old(buffer) || (!noalloc && fresh(buffer)))
        invariant depth == old(depth) && Written() == base + done
        invariant all == done + PrintMembers(members[k..], format, depth)
        invariant depth + NestingMembers(members) <= NESTING_LIMIT
                  <==> depth + NestingMembers(members[k..]) <= NESTING_LIMIT
      {
        ghost var text := MemberText(members[k], k + 1 < |members|, format, depth);
        MembersStep(members, k, format, depth);
        ok := EmitMember(members[k], k + 1 < |members|);
        if !ok {
          return;
        }
        Assoc3(base, done, text);
        Assoc3(done, text, PrintMembers(members[k + 1..], format, depth));
        done := done + text;
        k := k + 1;
      }
      MembersNothing(members[k..], format, depth);
      assert done + "" == done;
      ok := true;
    }

    method EmitObject(members: seq<Member>) returns (ok: bool)
      requires Valid() && PlainMembers(members)
      modifies this, buffer
      ensures Valid() && Capacity() == old(Capacity()) && (buffer == old(buffer) || (!noalloc && fresh(buffer)))
      ensures ok <==> old(depth) + Nesting(Object(members)) <= NESTING_LIMIT
                      && old(offset) + |PrintValue(Object(members), format, old(depth))| + 2 <= Capacity()
      ensures ok ==> depth == old(depth) && offset >= old(offset)
                     && Holds(old(Written()) + PrintValue(Object(members), format, depth))
      decreases members, 3
    {
      hide PrintValue, PrintMembers, NestingMembers, PlainMembers;
      ghost var all := PrintMembers(members, format, depth + 1);
      var open := if format then "{\n" else "{";
      ObjectParts(members, format, depth);
      if depth >= NESTING_LIMIT {
        return false;
      }
      ok := Append(open, 1);
      if !ok {
        return;
      }
      depth := depth + 1;
      ok := EmitMembers(members);
      if !ok {
        return;
      }
      var close := Indent(format, depth - 1) + "}";
      ok := Ensure(|close| + 1);
      if ok {
        StoreString(close);
        depth := depth - 1;
        AssocBracket(old(Written()), open, all, close);
      }
    }
  }

  lemma AssocBracket(written: string, open: string, all: string, close: string)
    ensures written + open + all + close == written + (open + all + close)
  {
  }

  lemma ItemsNothing(items: seq<Json>, fmt: bool, d: nat)
    requires items == []
    ensures PrintItems(items, fmt, d) == "" && NestingItems(items) == 0
  {
  }

  lemma MembersNothing(members: seq<Member>, fmt: bool, d: nat)
    requires members == []
    ensures PrintMembers(members, fmt, d) == "" && NestingMembers(members) == 0
  {
  }

  lemma ObjectParts(members: seq<Member>, fmt: bool, d: nat)
    ensures PrintValue(Object(members), fmt, d)
         == (if fmt then "{\n" else "{") + PrintMembers(members, fmt, d + 1) + (Indent(fmt, d) + "}")
  {
  }

  /** cJSON_Print and cJSON_PrintUnformatted. */
  method Print(t: Json, format: bool) returns (ok: bool, text: string)
    requires Plain(t)
    ensures ok <==> Nesting(t) <= NESTING_LIMIT && |PrintValue(t, format, 0)| + 2 <= INT_MAX
    ensures ok ==> text == PrintValue(t, format, 0)
  {
    text := "";
    var buffer := new char[DEFAULT_BUFFER_SIZE];
    var p := new PrintBuffer(buffer, false, format);
    assert p.Written() == "";
    ghost var s := PrintValue(t, format, 0);
    assert "" + s == s;
    ok := p.EmitValue(t);
    if ok {
      ValueNulFree(t, format, 0);
      p.UpdateOffset(s);
      text := p.buffer[..p.offset];
    }
  }

  /** cJSON_PrintPreallocated: the text and its NUL in the caller's buffer, which must have one byte to spare. */
  method PrintPreallocated(t: Json, buffer: array<char>, format: bool) returns (ok: bool)
    requires Plain(t) && buffer.Length <= INT_MAX
    modifies buffer
    ensures ok <==> Nesting(t) <= NESTING_LIMIT && |PrintValue(t, format, 0)| + 2 <= buffer.Length
    ensures ok ==> var text := PrintValue(t, format, 0); buffer[..|text|] == text && buffer[|text|] == '\0'
  {
    var p := new PrintBuffer(buffer, true, format);
    assert p.Written() == "";
    ghost var s := PrintValue(t, format, 0);
    assert "" + s == s;
    ok := p.EmitValue(t);
  }
}
