/**
 * What the text of a CPU list means, whatever its ranges: in any order, overlapping, backwards, beyond
 * the number of CPUs or naming CPUs that are not there.
 */
module CpuLaws {
  import opened CpuSet
  import opened Decimals

  /** Some range of the list holds CPU i, and there are that many. */
  predicate Named(ranges: Runs, i: nat, size: nat) {
    i < size && exists k :: 0 <= k < |ranges| && ranges[k].0 <= i <= ranges[k].1
  }

  /** A CPU or the ends of a range, in decimal. */
  function EntryText(range: (nat, nat)): string {
    Digits(range.0) + (if range.0 == range.1 then "" else "-" + Digits(range.1))
  }

  function ListText(ranges: Runs): string
    requires ranges != []
  {
    EntryText(ranges[0]) + (if |ranges| == 1 then "" else "," + ListText(ranges[1..]))
  }

  /** What 64 bits hold of a number: the number, or all ones. */
  function Saturated(n: nat): nat {
    if n <= 0xFFFF_FFFF_FFFF_FFFF then n else 0xFFFF_FFFF_FFFF_FFFF
  }

  /** strtoul reads a number of any length, in base ten or with the base taken from the text. */
  lemma StrtoulAny(n: nat, rest: string, base: nat)
    requires Stops(rest) && base in {0, 10}
    ensures Strtoul(Digits(n) + rest, base) == (Saturated(n), |Digits(n)|)
  {
    if n <= ULONG_MAX {
      StrtoulDigits(n, rest, base);
    } else {
      DigitsRoundTrip(n);
      DigitsLead(n);
      FirstDigit(Digits(n));
      CountInDigits(Digits(n), rest, 10);
      ValueInDigits(Digits(n));
      hide Digits, CountIn, ValueIn, DigitsValue, AllDigits;
      var s := Digits(n) + rest;
      assert s[0..] == s && s[..|Digits(n)|] == Digits(n);
    }
  }

  lemma ReadEntry(range: (nat, nat), rest: string)
    requires rest == "" || rest[0] == ','
    ensures Strtoul(EntryText(range) + rest, 0).1 > 0
    ensures ReadRange(EntryText(range) + rest)
         == (Saturated(range.0), Saturated(range.1), |EntryText(range)|)
  {
    hide Strtoul, Digits, Saturated;
    DigitsLead(range.0);
    DigitsLead(range.1);
    if range.0 == range.1 {
      StrtoulAny(range.0, rest, 0);
      assert EntryText(range) + rest == Digits(range.0) + rest;
    } else {
      var first, second := Digits(range.0), Digits(range.1);
      var tail := "-" + (second + rest);
      StrtoulAny(range.0, tail, 0);
      StrtoulAny(range.1, rest, 10);
      assert EntryText(range) + rest == first + tail;
      assert (first + tail)[|first|] == '-' && (first + tail)[|first| + 1..] == second + rest;
    }
  }

  /** The step of the parser over one entry. */
  lemma ParseEntry(range: (nat, nat), rest: string, p: Parsed, size: nat, present: set<nat>, checked: bool)
    requires rest == "" || rest[0] == ','
    ensures var p' := AddRange(p, Saturated(range.0), Saturated(range.1), size, present, checked);
            Parse(EntryText(range) + rest, p, size, present, checked)
            == Parse(if rest == "" then "" else rest[1..], p', size, present, checked)
  {
    hide EntryText, Strtoul, ReadRange, AddRange, Saturated;
    var s := EntryText(range) + rest;
    ReadEntry(range, rest);
    assert s[|EntryText(range)|..] == rest;
  }

  /**
   * A list puts into the set every CPU it names, except, when checked, those that are not present; and it
   * is valid exactly when there are none of these.
   */
  lemma {:induction false} ListParsed(ranges: Runs, p: Parsed, size: nat, present: set<nat>, checked: bool)
    requires ranges != [] && size <= ULONG_MAX
    ensures var r := Parse(ListText(ranges), p, size, present, checked);
            && (forall i :: i in r.cpus <==> i in p.cpus || (Named(ranges, i, size) && (checked ==> i in present)))
            && (r.valid <==> p.valid && (checked ==> forall i :: Named(ranges, i, size) ==> i in present))
    decreases |ranges|
  {
    var rest := if |ranges| == 1 then "" else "," + ListText(ranges[1..]);
    var range := (Saturated(ranges[0].0), Saturated(ranges[0].1));
    var p' := AddRange(p, range.0, range.1, size, present, checked);
    ParseEntry(ranges[0], rest, p, size, present, checked);
    AddedAre(range, p, size, present, checked);
    SaturatedNames(ranges[0], size);
    NamedFirst(ranges, size);
    hide Parse, AddRange, EntryText, Named, NamedBy, Saturated;
    if |ranges| == 1 {
      EmptyParsed(p', size, present, checked);
      NoneNamed(size);
      assert ranges[1..] == [];
    } else {
      assert rest[1..] == ListText(ranges[1..]);
      ListParsed(ranges[1..], p', size, present, checked);
    }
  }

  lemma SaturatedNames(range: (nat, nat), size: nat)
    requires size <= ULONG_MAX
    ensures forall i :: NamedBy(range, i, size) <==> NamedBy((Saturated(range.0), Saturated(range.1)), i, size)
  {
  }

  lemma EmptyParsed(p: Parsed, size: nat, present: set<nat>, checked: bool)
    ensures Parse("", p, size, present, checked) == p
  {
  }

  lemma NoneNamed(size: nat)
    ensures forall i :: !Named([], i, size)
  {
  }

  predicate NamedBy(range: (nat, nat), i: nat, size: nat) {
    i < size && range.0 <= i <= range.1
  }

  lemma NamedFirst(ranges: Runs, size: nat)
    requires ranges != []
    ensures forall i :: Named(ranges, i, size) <==> NamedBy(ranges[0], i, size) || Named(ranges[1..], i, size)
  {
    forall i | Named(ranges, i, size) ensures NamedBy(ranges[0], i, size) || Named(ranges[1..], i, size) {
      var k :| 0 <= k < |ranges| && ranges[k].0 <= i <= ranges[k].1;
      assert k > 0 ==> ranges[1..][k - 1] == ranges[k];
    }
    forall i | Named(ranges[1..], i, size) ensures Named(ranges, i, size) {
      var k :| 0 <= k < |ranges[1..]| && ranges[1..][k].0 <= i <= ranges[1..][k].1;
      assert ranges[k + 1] == ranges[1..][k];
    }
  }

  lemma AddedAre(range: (nat, nat), p: Parsed, size: nat, present: set<nat>, checked: bool)
    ensures var r := AddRange(p, range.0, range.1, size, present, checked);
            && (forall i :: i in r.cpus <==> i in p.cpus || (NamedBy(range, i, size) && (checked ==> i in present)))
            && (r.valid <==> p.valid && (checked ==> forall i :: NamedBy(range, i, size) ==> i in present))
  {
    var r := AddRange(p, range.0, range.1, size, present, checked);
    var named := Range(range.0, range.1, size);
    assert forall i: nat :: i in named <==> NamedBy(range, i, size);
    assert named <= present <==> forall i :: i in named ==> i in present;
  }

  /** Bytes that begin no number are passed over. */
  predicate Junk(c: char) {
    !IsSpace(c) && !('0' <= c <= '9') && c != '-' && c != '+'
  }

  lemma {:induction false} JunkIsSkipped(
      junk: string, s: string, p: Parsed, size: nat, present: set<nat>, checked: bool)
    requires forall c :: c in junk ==> Junk(c)
    ensures Parse(junk + s, p, size, present, checked) == Parse(s, p, size, present, checked)
  {
    if junk == "" {
      assert junk + s == s;
    } else {
      assert junk[0] in junk && (junk + s)[1..] == junk[1..] + s;
      NoNumber(junk + s);
      JunkIsSkipped(junk[1..], s, p, size, present, checked);
    }
  }

  lemma NoNumber(s: string)
    requires s != "" && Junk(s[0])
    ensures Strtoul(s, 0).1 == 0
  {
    assert SpaceLength(s) == 0 && s[0..] == s;
    assert DigitOf(s[0]) >= 10;
  }

  // ---- What is printed ----

  lemma {:induction false} RestIs(runs: Runs)
    requires runs != []
    ensures RunText(runs[0]) + Rest(runs[1..]) == ListText(runs)
  {
    EntryIsRun(runs[0]);
    if |runs| > 1 {
      RestIs(runs[1..]);
      RestFirst(runs[1..]);
      hide *;
      assert Rest(runs[1..]) == "," + ListText(runs[1..]);
      ListFirst(runs);
    } else {
      assert runs[1..] == [] && RunText(runs[0]) + "" == RunText(runs[0]);
      hide EntryText, RunText;
    }
  }

  lemma RestFirst(runs: Runs)
    requires runs != []
    ensures Rest(runs) == "," + (RunText(runs[0]) + Rest(runs[1..]))
  {
    hide RunText;
  }

  lemma ListFirst(runs: Runs)
    requires |runs| > 1
    ensures ListText(runs) == EntryText(runs[0]) + ("," + ListText(runs[1..]))
  {
    hide EntryText;
  }

  lemma EntryIsRun(run: (nat, nat))
    ensures RunText(run) == EntryText(run)
  {
    hide Digits;
    assert Digits(run.0) + "" == Digits(run.0);
  }

  /** The text of a set is the list of its runs, separated by commas, each with its ends or its one CPU. */
  lemma PrintedList(cpus: set<nat>, size: nat)
    requires RunsBelow(cpus, size) != []
    ensures ToText(cpus, size) == ListText(RunsBelow(cpus, size))
  {
    RunsTextFirst(RunsBelow(cpus, size));
    RestIs(RunsBelow(cpus, size));
  }

  // ---- Numbers with a prefix ----

  /** The value of a digit in bases up to sixteen, in either case. */
  function DigitValue(c: char): nat {
    if '0' <= c <= '9' then c as int - 48
    else if 'A' <= c <= 'F' then c as int - 55
    else if 'a' <= c <= 'f' then c as int - 87
    else 16
  }

  predicate DigitsIn(s: string, base: nat) {
    forall c :: c in s ==> DigitValue(c) < base
  }

  /** The value of digits, the last one counting once. */
  function Positional(s: string, base: nat): nat {
    if s == "" then 0 else base * Positional(s[..|s| - 1], base) + DigitValue(s[|s| - 1])
  }

  lemma {:induction false} CountAll(s: string, rest: string, base: nat)
    requires DigitsIn(s, base) && 8 <= base <= 16 && Stops(rest)
    ensures CountIn(s + rest, base) == |s|
  {
    if s == "" {
      assert s + rest == rest;
    } else {
      assert (s + rest)[1..] == s[1..] + rest && s[0] in s;
      CountAll(s[1..], rest, base);
    }
  }

  lemma {:induction false} ValueIs(s: string, base: nat)
    requires DigitsIn(s, base) && base <= 16
    ensures ValueIn(s, base) == Positional(s, base)
  {
    if s != "" {
      assert s[|s| - 1] in s;
      ValueIs(s[..|s| - 1], base);
    }
  }

  /** A number that begins with 0x is read in base sixteen, and one that begins with 0 in base eight. */
  lemma PrefixedRead(s: string, rest: string)
    requires s != "" && Stops(rest)
    ensures DigitsIn(s, 16) ==> Strtoul("0x" + s + rest, 0) == (Saturated(Positional(s, 16)), |s| + 2)
    ensures DigitsIn(s, 8) ==> Strtoul("0" + s + rest, 0) == (Saturated(Positional(s, 8)), |s| + 1)
  {
    if DigitsIn(s, 16) {
      HexRead(s, rest);
    }
    if DigitsIn(s, 8) {
      OctalRead(s, rest);
    }
  }

  lemma StrtoulFrom(t: string, radix: nat, skip: nat, k: nat)
    requires t != "" && '0' <= t[0] <= '9' && ReadBase(t, 0) == (radix, skip) && skip <= |t|
    requires 0 < k <= |t| - skip && CountIn(t[skip..], radix) == k
    ensures Strtoul(t, 0) == (Saturated(ValueIn(t[skip..][..k], radix)), skip + k)
  {
    hide CountIn, ValueIn, ReadBase;
    assert SpaceLength(t) == 0 && t[0..] == t;
  }

  lemma Prefixed(p: string, s: string, rest: string)
    ensures |p + s + rest| >= |p| && (p + s + rest)[|p|..] == s + rest && (s + rest)[..|s|] == s
    ensures p != "" ==> (p + s + rest)[0] == p[0]
    ensures |p| > 1 ==> (p + s + rest)[1] == p[1]
    ensures s != "" ==> |p + s + rest| > |p| && (p + s + rest)[|p|] == s[0]
  {
  }

  lemma BaseOf(t: string)
    requires |t| > 1 && t[0] == '0'
    ensures |t| > 2 && t[1] == 'x' && DigitOf(t[2]) < 16 ==> ReadBase(t, 0) == (16, 2)
    ensures '0' <= t[1] <= '7' ==> ReadBase(t, 0) == (8, 0)
  {
  }

  lemma HexRead(s: string, rest: string)
    requires s != "" && Stops(rest) && DigitsIn(s, 16)
    ensures Strtoul("0x" + s + rest, 0) == (Saturated(Positional(s, 16)), |s| + 2)
  {
    assert s[0] in s && DigitOf(s[0]) < 16;
    CountAll(s, rest, 16);
    ValueIs(s, 16);
    Prefixed("0x", s, rest);
    BaseOf("0x" + s + rest);
    hide *;
    StrtoulFrom("0x" + s + rest, 16, 2, |s|);
  }

  lemma OctalRead(s: string, rest: string)
    requires s != "" && Stops(rest) && DigitsIn(s, 8)
    ensures Strtoul("0" + s + rest, 0) == (Saturated(Positional(s, 8)), |s| + 1)
  {
    var u, t := "0" + s, "0" + s + rest;
    OctalDigits(s);
    CountAll(u, rest, 8);
    ValueIs(u, 8);
    LeadingZero(s);
    Prefixed("0", s, rest);
    WholePrefix(u, rest);
    BaseOf(t);
    hide *;
    StrtoulFrom(t, 8, 0, |u|);
  }

  lemma OctalDigits(s: string)
    requires s != "" && DigitsIn(s, 8)
    ensures DigitsIn("0" + s, 8) && '0' <= s[0] <= '7'
  {
    assert s[0] in s;
  }

  lemma WholePrefix(u: string, rest: string)
    ensures (u + rest)[0..] == u + rest && (u + rest)[..|u|] == u
  {
  }

  lemma {:induction false} LeadingZero(s: string)
    ensures Positional("0" + s, 8) == Positional(s, 8)
  {
    if s == "" {
      assert "0"[..0] == "";
    } else {
      assert ("0" + s)[..|s|] == "0" + s[..|s| - 1];
      LeadingZero(s[..|s| - 1]);
    }
  }
}
