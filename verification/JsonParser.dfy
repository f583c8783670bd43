/**
 * cJSON's parser as it runs: one buffer whose offset and depth advance step by step. Every method
 * agrees with the function of Json that says what its stretch of text means.
 */
module JsonParser {
  import opened Decimals
  import opened Json
  import opened Wrappers

  lemma DropDrop(s: string, i: nat, k: nat)
    requires i + k <= |s|
    ensures s[i..][k..] == s[i + k..]
  {
  }

  /** parse_hex4: the digits shift in from the right, and any other byte ends it with zero. */
  method ReadHex4(input: string) returns (h: nat)
    requires |input| >= 4
    ensures h == ParseHex4(input)
  {
    h := 0;
    var i := 0;
    while i < 4
      invariant 0 <= i <= 4
      invariant i == 0 ==> h == 0
      invariant 1 <= i <= 4 ==> HexValue(input[0]) >= 0
      invariant 2 <= i <= 4 ==> HexValue(input[1]) >= 0
      invariant 3 <= i <= 4 ==> HexValue(input[2]) >= 0
      invariant i == 1 ==> h == HexValue(input[0]) * 16
      invariant i == 2 ==> h == (HexValue(input[0]) * 16 + HexValue(input[1])) * 16
      invariant i == 3 ==> h == ((HexValue(input[0]) * 16 + HexValue(input[1])) * 16 + HexValue(input[2])) * 16
      invariant i == 4 ==> h == ParseHex4(input)
    {
      var c := input[i];
      if '0' <= c <= '9' {
        h := h + (c as int - '0' as int);
      } else if 'A' <= c <= 'F' {
        h := h + (10 + c as int - 'A' as int);
      } else if 'a' <= c <= 'f' {
        h := h + (10 + c as int - 'a' as int);
      } else {
        return 0;
      }
      if i < 3 {
        h := h * 16;
      }
      i := i + 1;
    }
  }

  /** The encoding loop of utf16_literal_to_utf8, which fills the bytes from the last to the first. */
  method WriteUtf8(codepoint: nat) returns (bytes: string)
    requires codepoint <= 0x10FFFF
    ensures bytes == Utf8(codepoint)
  {
    var length, mark := 1, 0;
    if codepoint < 0x80 {
    } else if codepoint < 0x800 {
      length, mark := 2, 0xC0;
    } else if codepoint < 0x10000 {
      length, mark := 3, 0xE0;
    } else {
      length, mark := 4, 0xF0;
    }
    bytes := "";
    var cp := codepoint;
    var position := length - 1;
    while position > 0
      invariant 0 <= position <= length - 1
      invariant position == length - 1 ==> cp == codepoint && bytes == ""
      invariant position == length - 2 ==> cp == codepoint / 64 && bytes == [Byte(0x80 + codepoint % 64)]
      invariant position == length - 3 ==>
                  cp == codepoint / 4096 && bytes == [Byte(0x80 + codepoint / 64 % 64), Byte(0x80 + codepoint % 64)]
      invariant position == length - 4 ==>
                  cp == codepoint / 262144
                  && bytes == [Byte(0x80 + codepoint / 4096 % 64), Byte(0x80 + codepoint / 64 % 64),
                               Byte(0x80 + codepoint % 64)]
    {
      bytes := [Byte(0x80 + cp % 64)] + bytes;
      cp := cp / 64;
      position := position - 1;
    }
    bytes := [Byte(mark + cp)] + bytes;
  }

  /** The UTF-16 literal at the start of s; used is zero when there is none. */
  method ReadUtf16(s: string) returns (bytes: string, used: nat)
    ensures (bytes, used) == Utf16Literal(s)
  {
    if |s| < 6 {
      return "", 0;
    }
    var first := ReadHex4(s[2..]);
    if 0xDC00 <= first <= 0xDFFF {
      return "", 0;
    }
    var codepoint := first;
    used := 6;
    if 0xD800 <= first <= 0xDBFF {
      if |s| < 12 || s[6] != '\\' || s[7] != 'u' {
        return "", 0;
      }
      var second := ReadHex4(s[8..]);
      if second < 0xDC00 || second > 0xDFFF {
        return "", 0;
      }
      codepoint := 0x10000 + first % 1024 * 1024 + second % 1024;
      used := 12;
    }
    bytes := WriteUtf8(codepoint);
  }

  function Prepend<T>(done: seq<T>, r: Parsed<seq<T>>): Parsed<seq<T>> {
    match r
    case Fail => Fail
    case Ok(more, rest) => Ok(done + more, rest)
  }

  function PrependText(done: string, r: Option<string>): Option<string> {
    match r
    case None => None
    case Some(more) => Some(done + more)
  }

  lemma AppendParsed<T>(done: seq<T>, next: seq<T>, r: Parsed<seq<T>>)
    ensures Prepend(done, Prepend(next, r)) == Prepend(done + next, r)
  {
    if r.Ok? {
      assert done + (next + r.value) == done + next + r.value;
    }
  }

  lemma PrependNothing<T>(r: Parsed<seq<T>>)
    ensures Prepend([], r) == r
  {
    if r.Ok? {
      assert [] + r.value == r.value;
    }
  }

  lemma AppendText(done: string, next: string, r: Option<string>)
    ensures PrependText(done, PrependText(next, r)) == PrependText(done + next, r)
    ensures PrependText("", r) == r
  {
    if r.Some? {
      assert done + (next + r.value) == done + next + r.value;
      assert "" + r.value == r.value;
    }
  }

  // One unfolding of each parsing function.

  lemma ItemsStep(s: string, depth: nat)
    ensures ParseValue(Skip(s), depth).Fail? ==> ParseItems(s, depth).Fail?
    ensures ParseValue(Skip(s), depth).Ok? ==>
              var Ok(item, rest) := ParseValue(Skip(s), depth);
              var r := Skip(rest);
              ParseItems(s, depth)
              == if r != "" && r[0] == ',' then Prepend([item], ParseItems(r[1..], depth))
                 else if r != "" && r[0] == ']' then Ok([item], r[1..])
                 else Fail
  {
  }

  lemma MembersStep(s: string, depth: nat)
    ensures ParseMember(s, depth).Fail? ==> ParseMembers(s, depth).Fail?
    ensures ParseMember(s, depth).Ok? ==>
              var Ok(member, rest) := ParseMember(s, depth);
              var r := Skip(rest);
              ParseMembers(s, depth)
              == if r != "" && r[0] == ',' then Prepend([member], ParseMembers(r[1..], depth))
                 else if r != "" && r[0] == '}' then Ok([member], r[1..])
                 else Fail
  {
  }

  lemma MemberStep(s: string, depth: nat)
    ensures ParseString(Skip(s)).Fail? ==> ParseMember(s, depth).Fail?
    ensures ParseString(Skip(s)).Ok? ==>
              var r := Skip(ParseString(Skip(s)).rest);
              (r == "" || r[0] != ':' ==> ParseMember(s, depth).Fail?)
              && (r != "" && r[0] == ':' && ParseValue(Skip(r[1..]), depth).Fail? ==> ParseMember(s, depth).Fail?)
              && (r != "" && r[0] == ':' && ParseValue(Skip(r[1..]), depth).Ok? ==>
                    var v := ParseValue(Skip(r[1..]), depth);
                    ParseMember(s, depth) == Ok(Member(ParseString(Skip(s)).value, v.value), v.rest))
  {
  }

  lemma NothingToRead(depth: nat)
    ensures ParseMember("", depth).Fail?
  {
  }

  /** A scan result seen from k bytes earlier. */
  function Later(scan: int, k: nat): int {
    if scan < 0 then -1 else scan + k
  }

  lemma ScanStep(s: string)
    requires s != "" && s[0] != '\"'
    ensures s[0] == '\\' && |s| < 2 ==> ScanString(s) == -1
    ensures s[0] == '\\' && |s| >= 2 ==> ScanString(s) == Later(ScanString(s[2..]), 2)
    ensures s[0] != '\\' ==> ScanString(s) == Later(ScanString(s[1..]), 1)
  {
  }

  lemma NumberStep(s: string)
    ensures s == "" || !IsNumberByte(s[0]) ==> NumberLength(s) == 0
    ensures s != "" && IsNumberByte(s[0]) ==> NumberLength(s) == 1 + NumberLength(s[1..])
  {
  }

  lemma ScanStop(s: string)
    ensures s == "" ==> ScanString(s) == -1
    ensures s != "" && s[0] == '\"' ==> ScanString(s) == 0
  {
  }

  lemma UnescapeStep(body: string)
    ensures body == "" ==> Unescape(body) == Some("")
    ensures body != "" && body[0] != '\\' ==> Unescape(body) == PrependText([body[0]], Unescape(body[1..]))
    ensures |body| == 1 && body[0] == '\\' ==> Unescape(body) == Some("\"")
    ensures |body| > 1 && body[0] == '\\' && body[1] == 'u' ==>
              var (bytes, used) := Utf16Literal(body);
              Unescape(body) == if used == 0 then None else PrependText(bytes, Unescape(body[used..]))
    ensures |body| > 1 && body[0] == '\\' && body[1] != 'u' ==>
              Unescape(body) == if SimpleEscape(body[1]) == '\0' then None
                                else PrependText([SimpleEscape(body[1])], Unescape(body[2..]))
  {
  }

  class ParseBuffer {
    const content: string
    var offset: nat
    var depth: nat

    constructor (text: string)
      ensures content == text && offset == 0 && depth == 0
    {
      content := text;
      offset := 0;
      depth := 0;
    }

    predicate Valid()
      reads this
    {
      offset <= |content|
    }

    /** The text not yet read. */
    function Rest(): string
      requires Valid()
      reads this
    {
      content[offset..]
    }

    method SkipWhitespace()
      requires Valid()
      modifies this`offset
      ensures Valid() && Rest() == Skip(old(Rest())) && offset >= old(offset)
    {
      if offset >= |content| {
        return;
      }
      ghost var start := Rest();
      while offset < |content| && content[offset] <= ' '
        invariant Valid()
        invariant offset >= old(offset)
        invariant offset < |content| ==> Skip(start) == Skip(Rest())
        invariant offset == |content| ==> offset > old(offset) && Skip(start) == content[offset - 1..]
      {
        DropDrop(content, offset, 1);
        assert Rest()[0] == content[offset];
        offset := offset + 1;
      }
      if offset == |content| {
        offset := offset - 1;
      } else {
        assert Rest()[0] == content[offset];
      }
    }

    method SkipUtf8Bom()
      requires Valid() && offset == 0
      modifies this`offset
      ensures Valid() && Rest() == SkipBom(old(Rest()))
    {
      assert Rest() == content;
      if 4 < |content| && content[..3] == [Byte(0xEF), Byte(0xBB), Byte(0xBF)] {
        offset := offset + 3;
      }
    }

    /** Where the string that starts after the quotation mark at offset ends. */
    method FindClosingQuote() returns (ok: bool, end: nat)
      requires Valid() && offset < |content|
      ensures var scan := ScanString(content[offset + 1..]);
              ok == (scan >= 0) && (ok ==> end == offset + 1 + scan && end < |content| && content[end] == '\"')
    {
      hide ScanString;
      end := offset + 1;
      ghost var scan := ScanString(content[offset + 1..]);
      while end < |content| && content[end] != '\"'
        invariant offset + 1 <= end <= |content|
        invariant scan == Later(ScanString(content[end..]), end - (offset + 1))
      {
        ghost var here := content[end..];
        assert here[0] == content[end];
        ScanStep(here);
        if content[end] == '\\' {
          if end + 1 >= |content| {
            return false, end;
          }
          DropDrop(content, end, 2);
          end := end + 1;
        } else {
          DropDrop(content, end, 1);
        }
        end := end + 1;
      }
      assert end < |content| ==> content[end..][0] == content[end];
      ScanStop(content[end..]);
      ok := end < |content|;
    }

    /** The copying loop of parse_string, from start to the closing quotation mark at end. */
    method CopyUnescaped(start: nat, end: nat) returns (ok: bool, output: string)
      requires start <= end < |content| && content[end] == '\"'
      ensures ok == Unescape(content[start..end]).Some?
      ensures ok ==> output == Unescape(content[start..end]).value
    {
      hide Unescape, Utf16Literal;
      output := "";
      var input := start;
      ghost var goal := Unescape(content[start..end]);
      AppendText("", "", goal);
      while input < end
        invariant start <= input <= end + 1
        invariant input <= end ==> goal == PrependText(output, Unescape(content[input..end]))
        invariant input == end + 1 ==> goal == Some(output)
      {
        ghost var here := content[input..end];
        assert here[0] == content[input];
        UnescapeStep(here);
        assert |here| > 1 ==> here[1] == content[input + 1];
        if content[input] != '\\' {
          assert here[1..] == content[input + 1..end];
          AppendText(output, [content[input]], Unescape(here[1..]));
          output := output + [content[input]];
          input := input + 1;
        } else if content[input + 1] == 'u' {
          var bytes, used := ReadUtf16(content[input..end]);
          if used == 0 {
            return false, output;
          }
          assert here[used..] == content[input + used..end];
          AppendText(output, bytes, Unescape(here[used..]));
          output := output + bytes;
          input := input + used;
        } else {
          var c := SimpleEscape(content[input + 1]);
          if c == '\0' {
            return false, output;
          }
          if input + 1 < end {
            assert here[2..] == content[input + 2..end];
            AppendText(output, [c], Unescape(here[2..]));
          }
          output := output + [c];
          input := input + 2;
        }
      }
      UnescapeStep("");
      assert input == end ==> content[input..end] == "";
      assert output + "" == output;
      ok := true;
    }

    method ReadString() returns (ok: bool, value: string)
      requires Valid() && offset < |content|
      modifies this`offset
      ensures Valid()
      ensures var r := ParseString(old(Rest())); ok == r.Ok? && (ok ==> value == r.value && Rest() == r.rest)
    {
      ghost var s := Rest();
      value := "";
      assert s[0] == content[offset];
      if content[offset] != '\"' {
        return false, value;
      }
      assert s[1..] == content[offset + 1..];
      var found, end := FindClosingQuote();
      if !found {
        return false, value;
      }
      ghost var n := end - (offset + 1);
      assert s[1..][..n] == content[offset + 1..end];
      assert s[1..][n + 1..] == content[end + 1..];
      var copied, output := CopyUnescaped(offset + 1, end);
      if !copied {
        return false, value;
      }
      value := CString(output);
      offset := end + 1;
      ok := true;
    }

    method ReadNumber() returns (ok: bool, item: Json)
      requires Valid()
      modifies this`offset
      ensures Valid()
      ensures var r := ParseNumber(old(Rest())); ok == r.Ok? && (ok ==> item == r.value && Rest() == r.rest)
    {
      hide NumberLength, Strtod;
      ghost var s := Rest();
      var i := 0;
      while offset + i < |content| && IsNumberByte(content[offset + i])
        invariant offset == old(offset) && offset + i <= |content|
        invariant NumberLength(s) == i + NumberLength(content[offset + i..])
      {
        ghost var here := content[offset + i..];
        assert here[0] == content[offset + i];
        NumberStep(here);
        DropDrop(content, offset + i, 1);
        i := i + 1;
      }
      ghost var here := content[offset + i..];
      assert here != "" ==> here[0] == content[offset + i];
      NumberStep(here);
      var text := content[offset..offset + i];
      assert text == s[..i];
      var (number, used) := Strtod(text);
      item := Number(number);
      if used == 0 {
        return false, item;
      }
      DropDrop(content, offset, used);
      offset := offset + used;
      ok := true;
    }

    method StartsHere(word: string) returns (yes: bool)
      requires Valid()
      ensures yes == StartsWith(Rest(), word)
    {
      yes := offset + |word| <= |content| && content[offset..offset + |word|] == word;
      assert offset + |word| <= |content| ==> content[offset..offset + |word|] == Rest()[..|word|];
    }

    /** parse_value: the tree at the current offset, leaving the offset after its text. */
    method ReadValue() returns (ok: bool, item: Json)
      requires Valid()
      modifies this
      ensures Valid()
      ensures var r := ParseValue(old(Rest()), old(depth));
              ok == r.Ok? && (ok ==> item == r.value && Rest() == r.rest && depth == old(depth) && offset > old(offset))
      decreases |content| - offset, 6
    {
      item := Null;
      ghost var s := Rest();
      var isNull := StartsHere("null");
      if isNull {
        DropDrop(content, offset, 4);
        offset := offset + 4;
        return true, Null;
      }
      var isFalse := StartsHere("false");
      if isFalse {
        DropDrop(content, offset, 5);
        offset := offset + 5;
        return true, Bool(false);
      }
      var isTrue := StartsHere("true");
      if isTrue {
        DropDrop(content, offset, 4);
        offset := offset + 4;
        return true, Bool(true);
      }
      if offset == |content| {
        return false, item;
      }
      assert s[0] == content[offset];
      if content[offset] == '\"' {
        var value: string;
        ok, value := ReadString();
        item := String(value);
      } else if content[offset] == '-' || IsDigit(content[offset]) {
        ok, item := ReadNumber();
      } else if content[offset] == '[' {
        ok, item := ReadArray();
      } else if content[offset] == '{' {
        ok, item := ReadObject();
      } else {
        ok := false;
      }
    }

    /** The loop over the comma separated items, from the byte in front of the first one. */
    method ReadItems() returns (ok: bool, items: seq<Json>)
      requires Valid() && offset < |content|
      modifies this
      ensures Valid()
      ensures var r := ParseItems(old(content[offset + 1..]), old(depth));
              ok == r.Ok? && (ok ==> items == r.value && Rest() == r.rest && depth == old(depth))
      decreases |content| - offset, 4
    {
      hide ParseValue, ParseItems, ParseMembers, ParseMember, Skip;
      items := [];
      ghost var goal := ParseItems(content[offset + 1..], depth);
      PrependNothing(goal);
      while true
        invariant old(offset) <= offset < |content| && depth == old(depth)
        invariant goal == Prepend(items, ParseItems(content[offset + 1..], depth))
        decreases |content| - offset
      {
        ItemsStep(content[offset + 1..], depth);
        offset := offset + 1;
        SkipWhitespace();
        var parsed, value := ReadValue();
        if !parsed {
          return false, items;
        }
        SkipWhitespace();
        ghost var r := Rest();
        assert r != "" ==> r[0] == content[offset];
        if offset < |content| && content[offset] == ',' {
          DropDrop(content, offset, 1);
          AppendParsed(items, [value], ParseItems(content[offset + 1..], depth));
          items := items + [value];
        } else {
          items := items + [value];
          if offset >= |content| || content[offset] != ']' {
            return false, items;
          }
          DropDrop(content, offset, 1);
          offset := offset + 1;
          return true, items;
        }
      }
    }

    method ReadArray() returns (ok: bool, item: Json)
      requires Valid() && offset < |content|
      modifies this
      ensures Valid()
      ensures var r := ParseArray(old(Rest()), old(depth));
              ok == r.Ok? && (ok ==> item == r.value && Rest() == r.rest && depth == old(depth))
      decreases |content| - offset, 5
    {
      hide ParseItems, Skip;
      item := Null;
      ghost var s := Rest();
      if depth >= NESTING_LIMIT {
        return false, item;
      }
      depth := depth + 1;
      assert s[0] == content[offset];
      if content[offset] != '[' {
        return false, item;
      }
      DropDrop(content, offset, 1);
      offset := offset + 1;
      SkipWhitespace();
      ghost var r := Rest();
      assert r != "" ==> r[0] == content[offset];
      if offset < |content| && content[offset] == ']' {
        DropDrop(content, offset, 1);
        depth := depth - 1;
        offset := offset + 1;
        return true, Array([]);
      }
      if offset >= |content| {
        offset := offset - 1;
        return false, item;
      }
      offset := offset - 1;
      var items: seq<Json>;
      ok, items := ReadItems();
      if ok {
        depth := depth - 1;
      }
      item := Array(items);
    }

    /** One name, its colon and its value; the offset is on the byte in front of the name. */
    method ReadMember() returns (ok: bool, member: Member)
      requires Valid() && offset < |content|
      modifies this
      ensures Valid()
      ensures var r := ParseMember(old(content[offset + 1..]), old(depth));
              ok == r.Ok?
              && (ok ==> member == r.value && Rest() == r.rest && depth == old(depth) && offset > old(offset))
      decreases |content| - offset, 3
    {
      hide ParseValue, ParseString, ParseMember, Skip;
      member := Member("", Null);
      ghost var start := content[offset + 1..];
      if offset + 1 >= |content| {
        assert start == "";
        NothingToRead(depth);
        return false, member;
      }
      MemberStep(start, depth);
      offset := offset + 1;
      SkipWhitespace();
      assert Rest() == Skip(start);
      var named, key := ReadString();
      if !named {
        return false, member;
      }
      ghost var named' := Rest();
      SkipWhitespace();
      if offset >= |content| || content[offset] != ':' {
        assert offset < |content| ==> Rest()[0] == content[offset];
        return false, member;
      }
      ghost var colon := Rest();
      assert colon == Skip(named') && colon[0] == content[offset];
      DropDrop(content, offset, 1);
      offset := offset + 1;
      SkipWhitespace();
      assert Rest() == Skip(colon[1..]);
      var parsed, value := ReadValue();
      return parsed, Member(key, value);
    }

    /** The loop over the comma separated members, from the byte in front of the first one. */
    method ReadMembers() returns (ok: bool, members: seq<Member>)
      requires Valid() && offset < |content|
      modifies this
      ensures Valid()
      ensures var r := ParseMembers(old(content[offset + 1..]), old(depth));
              ok == r.Ok? && (ok ==> members == r.value && Rest() == r.rest && depth == old(depth))
      decreases |content| - offset, 4
    {
      hide ParseValue, ParseItems, ParseMembers, ParseMember, Skip;
      members := [];
      ghost var goal := ParseMembers(content[offset + 1..], depth);
      PrependNothing(goal);
      while true
        invariant old(offset) <= offset < |content| && depth == old(depth)
        invariant goal == Prepend(members, ParseMembers(content[offset + 1..], depth))
        decreases |content| - offset
      {
        MembersStep(content[offset + 1..], depth);
        var parsed, member := ReadMember();
        if !parsed {
          return false, members;
        }
        SkipWhitespace();
        ghost var r := Rest();
        assert r != "" ==> r[0] == content[offset];
        if offset < |content| && content[offset] == ',' {
          DropDrop(content, offset, 1);
          AppendParsed(members, [member], ParseMembers(content[offset + 1..], depth));
          members := members + [member];
        } else {
          members := members + [member];
          if offset >= |content| || content[offset] != '}' {
            return false, members;
          }
          DropDrop(content, offset, 1);
          offset := offset + 1;
          return true, members;
        }
      }
    }

    method ReadObject() returns (ok: bool, item: Json)
      requires Valid() && offset < |content|
      modifies this
      ensures Valid()
      ensures var r := ParseObject(old(Rest()), old(depth));
              ok == r.Ok? && (ok ==> item == r.value && Rest() == r.rest && depth == old(depth))
      decreases |content| - offset, 5
    {
      hide ParseMembers, Skip;
      item := Null;
      ghost var s := Rest();
      if depth >= NESTING_LIMIT {
        return false, item;
      }
      depth := depth + 1;
      assert s[0] == content[offset];
      if content[offset] != '{' {
        return false, item;
      }
      DropDrop(content, offset, 1);
      offset := offset + 1;
      SkipWhitespace();
      ghost var r := Rest();
      assert r != "" ==> r[0] == content[offset];
      if offset < |content| && content[offset] == '}' {
        DropDrop(content, offset, 1);
        depth := depth - 1;
        offset := offset + 1;
        return true, Object([]);
      }
      if offset >= |content| {
        offset := offset - 1;
        return false, item;
      }
      offset := offset - 1;
      var members: seq<Member>;
      ok, members := ReadMembers();
      if ok {
        depth := depth - 1;
      }
      item := Object(members);
    }
  }

  /** cJSON_ParseWithLengthOpts: the tree of text and where it ended. */
  method ParseWithLengthOpts(text: string, requireNullTerminated: bool) returns (ok: bool, item: Json, end: nat)
    ensures var r := ParseBytes(text, requireNullTerminated);
            ok == r.Ok? && (ok ==> item == r.value && end <= |text| && text[end..] == r.rest)
  {
    item, end := Null, 0;
    if text == "" {
      return false, item, end;
    }
    var buffer := new ParseBuffer(text);
    buffer.SkipUtf8Bom();
    buffer.SkipWhitespace();
    ok, item := buffer.ReadValue();
    end := buffer.offset;
    if ok && requireNullTerminated {
      buffer.SkipWhitespace();
      end := buffer.offset;
      if buffer.offset >= |text| || text[buffer.offset] != '\0' {
        ok := false;
      }
      assert end < |text| ==> text[end..][0] == text[end];
    }
  }
}
