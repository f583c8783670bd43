/**
 * CPU sets as text. The printer writes the maximal runs of a set in ascending order, and the parser
 * reads such a text back to the same set. size stands for CPU_SETSIZE.
 */
module CpuSet {
  import opened Decimals

  const ULONG_MAX: nat := 0xFFFF_FFFF_FFFF_FFFF

  // ---- strtoul ----

  predicate IsSpace(c: char) {
    c == ' ' || '\t' <= c <= '\r'
  }

  function SpaceLength(s: string): (n: nat)
    ensures n <= |s|
  {
    if s == "" || !IsSpace(s[0]) then 0 else 1 + SpaceLength(s[1..])
  }

  /** The value of a digit in bases up to 36, or 36 when it is none. */
  function DigitOf(c: char): nat {
    if '0' <= c <= '9' then c as int - '0' as int
    else if 'a' <= c <= 'z' then 10 + c as int - 'a' as int
    else if 'A' <= c <= 'Z' then 10 + c as int - 'A' as int
    else 36
  }

  function CountIn(s: string, base: nat): (n: nat)
    ensures n <= |s|
  {
    if s == "" || DigitOf(s[0]) >= base then 0 else 1 + CountIn(s[1..], base)
  }

  function ValueIn(s: string, base: nat): nat {
    if s == "" then 0 else ValueIn(s[..|s| - 1], base) * base + DigitOf(s[|s| - 1])
  }

  /** Base 0 reads the base off the prefix: 0x for sixteen, 0 for eight, otherwise ten. */
  function ReadBase(s: string, base: nat): (r: (nat, nat))
    ensures r.1 <= |s|
  {
    if base != 0 then (base, 0)
    else if |s| > 2 && s[0] == '0' && (s[1] == 'x' || s[1] == 'X') && DigitOf(s[2]) < 16 then (16, 2)
    else if s != "" && s[0] == '0' then (8, 0)
    else (10, 0)
  }

  /** strtoul: the value, saturated and then negated in 64 bits after a minus sign, and how much of s it uses. */
  function Strtoul(s: string, base: nat): (r: (nat, nat))
    ensures r.1 <= |s|
  {
    var space := SpaceLength(s);
    var t := s[space..];
    var sign := if t != "" && (t[0] == '-' || t[0] == '+') then 1 else 0;
    var (radix, skip) := ReadBase(t[sign..], base);
    var u := t[sign + skip..];
    var n := CountIn(u, radix);
    if n == 0 then (0, 0)
    else
      var v := ValueIn(u[..n], radix);
      var result :=
        if v > ULONG_MAX then ULONG_MAX
        else if sign == 1 && t[0] == '-' then (ULONG_MAX + 1 - v) % (ULONG_MAX + 1)
        else v;
      (result, space + sign + skip + n)
  }

  // ---- The parser ----

  /** The CPUs a to b below size. */
  function Range(a: nat, b: nat, size: nat): (r: set<nat>)
    ensures forall i :: i in r <==> i < size && a <= i <= b
  {
    if size == 0 then {}
    else Range(a, b, size - 1) + (if a <= size - 1 <= b then {size - 1} else {})
  }

  datatype Parsed = Parsed(cpus: set<nat>, valid: bool)

  /** Put a to b into the set, except CPUs that are not present, which make the text invalid. */
  function AddRange(p: Parsed, a: nat, b: nat, size: nat, present: set<nat>, checked: bool): Parsed {
    var range := Range(a, b, size);
    if checked then Parsed(p.cpus + range * present, p.valid && range <= present)
    else p.(cpus := p.cpus + range)
  }

  /** One number or range at the start of s: its ends and how much of s they take. */
  function ReadRange(s: string): (r: (nat, nat, nat))
    ensures r.2 <= |s|
  {
    var (a, n) := Strtoul(s, 0);
    if n < |s| && s[n] == '-' then
      var (b, m) := Strtoul(s[n + 1..], 10);
      (a, if m == 0 then a else b, n + 1 + m)
    else (a, a, n)
  }

  /** parse_cpu_ranges. */
  function Parse(s: string, p: Parsed, size: nat, present: set<nat>, checked: bool): Parsed
    decreases |s|
  {
    if s == "" then p
    else if Strtoul(s, 0).1 == 0 then Parse(s[1..], p, size, present, checked)
    else
      var (a, b, n) := ReadRange(s);
      var rest := s[n..];
      var next := if rest != "" && rest[0] == ',' then rest[1..] else rest;
      Parse(next, AddRange(p, a, b, size, present, checked), size, present, checked)
  }

  // ---- The printer ----

  /** The runs of a set, as first and last CPU. */
  type Runs = seq<(nat, nat)>

  /** The maximal runs of the CPUs below n. */
  function RunsBelow(cpus: set<nat>, n: nat): Runs {
    if n == 0 then []
    else
      var runs, i := RunsBelow(cpus, n - 1), n - 1;
      if i !in cpus then runs
      else if runs != [] && runs[|runs| - 1].1 + 1 == i then runs[..|runs| - 1] + [(runs[|runs| - 1].0, i)]
      else runs + [(i, i)]
  }

  function RunText(run: (nat, nat)): string {
    if run.0 == run.1 then Digits(run.0) else Digits(run.0) + "-" + Digits(run.1)
  }

  function RunsText(runs: Runs): string {
    if runs == [] then ""
    else if |runs| == 1 then RunText(runs[0])
    else RunsText(runs[..|runs| - 1]) + "," + RunText(runs[|runs| - 1])
  }

  /** The CPUs of the runs. */
  function Cpus(runs: Runs): set<nat> {
    if runs == [] then {}
    else Cpus(runs[..|runs| - 1]) + Between(runs[|runs| - 1].0, runs[|runs| - 1].1)
  }

  function Between(a: nat, b: nat): (r: set<nat>)
    ensures forall i :: i in r <==> a <= i <= b
  {
    Range(a, b, b + 1)
  }

  // ---- What the runs are ----

  /** Runs ascend, and a gap keeps each from the next, so none can be longer. */
  predicate Maximal(runs: Runs, n: nat) {
    && (forall k :: 0 <= k < |runs| ==> runs[k].0 <= runs[k].1 < n)
    && (forall k :: 0 < k < |runs| ==> runs[k - 1].1 + 1 < runs[k].0)
  }

  lemma CpusAppend(runs: Runs, run: (nat, nat))
    ensures Cpus(runs + [run]) == Cpus(runs) + Between(run.0, run.1)
  {
    assert (runs + [run])[..|runs|] == runs;
  }

  lemma CpusExtend(runs: Runs, i: nat)
    requires runs != [] && runs[|runs| - 1].0 <= runs[|runs| - 1].1 && runs[|runs| - 1].1 + 1 == i
    ensures Cpus(runs[..|runs| - 1] + [(runs[|runs| - 1].0, i)]) == Cpus(runs) + {i}
  {
    var m := |runs| - 1;
    CpusAppend(runs[..m], (runs[m].0, i));
    assert Between(runs[m].0, i) == Between(runs[m].0, runs[m].1) + {i};
  }

  /** The printer's runs are maximal and ascend. */
  lemma {:induction false} RunsMaximal(cpus: set<nat>, n: nat)
    ensures Maximal(RunsBelow(cpus, n), n)
  {
    if n > 0 {
      RunsMaximal(cpus, n - 1);
    }
  }

  /** And they make up the set. */
  lemma {:induction false} RunsCover(cpus: set<nat>, n: nat)
    ensures forall i :: i in Cpus(RunsBelow(cpus, n)) <==> i in cpus && i < n
  {
    if n > 0 {
      RunsCover(cpus, n - 1);
      RunsMaximal(cpus, n - 1);
      CoverStep(cpus, n - 1);
    }
  }

  lemma CoverStep(cpus: set<nat>, i: nat)
    requires Maximal(RunsBelow(cpus, i), i)
    ensures Cpus(RunsBelow(cpus, i + 1)) == Cpus(RunsBelow(cpus, i)) + (if i in cpus then {i} else {})
  {
    var runs := RunsBelow(cpus, i);
    hide Cpus, Range;
    if i in cpus {
      if runs != [] && runs[|runs| - 1].1 + 1 == i {
        CpusExtend(runs, i);
      } else {
        CpusAppend(runs, (i, i));
        assert Between(i, i) == {i};
      }
    }
  }

  // ---- Reading back ----

  predicate Stops(rest: string) {
    rest == "" || rest[0] == ',' || rest[0] == '-'
  }

  lemma {:induction false} DigitsLead(n: nat)
    ensures Digits(n) != "" && (n == 0 ==> Digits(n) == "0") && (n > 0 ==> Digits(n)[0] != '0')
  {
    if n >= 10 {
      DigitsLead(n / 10);
    }
  }

  lemma {:induction false} CountInDigits(s: string, rest: string, base: nat)
    requires AllDigits(s) && base >= 10 && (rest == "" || DigitOf(rest[0]) >= base)
    ensures CountIn(s + rest, base) == |s|
  {
    if s == "" {
      assert s + rest == rest;
    } else {
      assert (s + rest)[1..] == s[1..] + rest;
      assert IsDigit(s[0]);
      CountInDigits(s[1..], rest, base);
    }
  }

  lemma {:induction false} ValueInDigits(s: string)
    requires AllDigits(s)
    ensures ValueIn(s, 10) == DigitsValue(s)
  {
    if s != "" {
      assert IsDigit(s[|s| - 1]);
      ValueInDigits(s[..|s| - 1]);
    }
  }

  /** strtoul reads back a printed number, in base ten or with the base read off the text. */
  lemma StrtoulDigits(n: nat, rest: string, base: nat)
    requires n <= ULONG_MAX && Stops(rest) && base in {0, 10}
    ensures Strtoul(Digits(n) + rest, base) == (n, |Digits(n)|)
  {
    DigitsRoundTrip(n);
    DigitsLead(n);
    if base == 0 && n == 0 {
      StrtoulZero(rest);
    } else {
      StrtoulPlain(Digits(n), rest, base);
    }
  }

  lemma StrtoulZero(rest: string)
    requires Stops(rest)
    ensures Strtoul("0" + rest, 0) == (0, 1)
  {
    var s := "0" + rest;
    assert s[0..] == s && s[1..] == rest;
    assert CountIn(s, 8) == 1;
    assert s[..1] == "0" && "0"[..0] == "";
    assert ValueIn("0", 8) == 0;
  }

  lemma StrtoulPlain(digits: string, rest: string, base: nat)
    requires AllDigits(digits) && digits != "" && DigitsValue(digits) <= ULONG_MAX && Stops(rest)
    requires base == 10 || (base == 0 && digits[0] != '0')
    ensures Strtoul(digits + rest, base) == (DigitsValue(digits), |digits|)
  {
    hide AllDigits, CountIn, ValueIn, DigitsValue;
    var s := digits + rest;
    FirstDigit(digits);
    CountInDigits(digits, rest, 10);
    ValueInDigits(digits);
    StrtoulAt(s, |digits|, base);
    assert s[..|digits|] == digits;
  }

  lemma FirstDigit(digits: string)
    requires AllDigits(digits) && digits != ""
    ensures IsDigit(digits[0])
  {
  }

  lemma StrtoulAt(s: string, k: nat, base: nat)
    requires s != "" && IsDigit(s[0]) && 0 < k <= |s| && CountIn(s, 10) == k && ValueIn(s[..k], 10) <= ULONG_MAX
    requires base == 10 || (base == 0 && s[0] != '0')
    ensures Strtoul(s, base) == (ValueIn(s[..k], 10), k)
  {
    hide CountIn, ValueIn;
    assert s[0..] == s;
  }

  lemma ReadRangeRun(run: (nat, nat), rest: string)
    requires run.0 <= run.1 <= ULONG_MAX && (rest == "" || rest[0] == ',')
    ensures Strtoul(RunText(run) + rest, 0).1 > 0
    ensures ReadRange(RunText(run) + rest) == (run.0, run.1, |RunText(run)|)
  {
    hide Strtoul, Digits;
    DigitsLead(run.0);
    DigitsLead(run.1);
    if run.0 == run.1 {
      StrtoulDigits(run.0, rest, 0);
    } else {
      var first, second := Digits(run.0), Digits(run.1);
      var tail := "-" + (second + rest);
      StrtoulDigits(run.0, tail, 0);
      StrtoulDigits(run.1, rest, 10);
      assert RunText(run) + rest == first + tail;
      assert (first + tail)[|first|] == '-' && (first + tail)[|first| + 1..] == second + rest;
    }
  }

  /** One step of the parser over a printed run. */
  lemma ParseRun(run: (nat, nat), rest: string, p: Parsed, size: nat, present: set<nat>)
    requires run.0 <= run.1 < size <= ULONG_MAX && Between(run.0, run.1) <= present
    requires rest == "" || rest[0] == ','
    ensures Parse(RunText(run) + rest, p, size, present, true)
         == Parse(if rest == "" then "" else rest[1..], p.(cpus := p.cpus + Between(run.0, run.1)), size, present, true)
  {
    hide RunText, Strtoul, ReadRange, Range, Between;
    var s := RunText(run) + rest;
    ReadRangeRun(run, rest);
    assert s[|RunText(run)|..] == rest;
    assert Range(run.0, run.1, size) == Between(run.0, run.1);
    assert Between(run.0, run.1) * present == Between(run.0, run.1);
    assert AddRange(p, run.0, run.1, size, present, true) == p.(cpus := p.cpus + Between(run.0, run.1));
  }

  function Rest(runs: Runs): string {
    if runs == [] then "" else "," + RunText(runs[0]) + Rest(runs[1..])
  }

  lemma {:induction false} RunsTextFirst(runs: Runs)
    requires runs != []
    ensures RunsText(runs) == RunText(runs[0]) + Rest(runs[1..])
  {
    hide RunText;
    var n := |runs| - 1;
    if n == 0 {
      assert RunText(runs[0]) + "" == RunText(runs[0]);
    } else {
      RunsTextFirst(runs[..n]);
      RestAppend(runs[1..n], runs[n]);
      assert runs[..n][1..] == runs[1..n] && runs[1..] == runs[1..n] + [runs[n]];
    }
  }

  lemma {:induction false} RestAppend(runs: Runs, run: (nat, nat))
    ensures Rest(runs + [run]) == Rest(runs) + "," + RunText(run)
  {
    if runs == [] {
      assert ([run])[1..] == [];
    } else {
      assert (runs + [run])[1..] == runs[1..] + [run];
      RestAppend(runs[1..], run);
    }
  }

  lemma {:induction false} CpusFirst(runs: Runs)
    requires runs != []
    ensures Cpus(runs) == Between(runs[0].0, runs[0].1) + Cpus(runs[1..])
  {
    var n := |runs| - 1;
    if n > 0 {
      CpusFirst(runs[..n]);
      assert runs[..n][1..] == runs[1..][..n - 1];
    }
  }

  lemma ParseNothing(p: Parsed, size: nat, present: set<nat>)
    ensures Parse("", p, size, present, true) == p && Cpus([]) == {}
  {
  }

  lemma {:induction false} ParseRuns(runs: Runs, p: Parsed, size: nat, present: set<nat>)
    requires runs != [] && size <= ULONG_MAX && Maximal(runs, size) && Cpus(runs) <= present
    ensures Parse(RunText(runs[0]) + Rest(runs[1..]), p, size, present, true) == p.(cpus := p.cpus + Cpus(runs))
    decreases |runs|
  {
    hide RunText, Parse, Between, Cpus;
    var rest := Rest(runs[1..]);
    CpusFirst(runs);
    ParseRun(runs[0], rest, p, size, present);
    var p' := p.(cpus := p.cpus + Between(runs[0].0, runs[0].1));
    if |runs| == 1 {
      ParseNothing(p', size, present);
    } else {
      assert rest[1..] == RunText(runs[1..][0]) + Rest(runs[1..][1..]);
      ParseRuns(runs[1..], p', size, present);
    }
  }

  /** cpu_set_to_str of a set of CPUs below size. */
  function ToText(cpus: set<nat>, size: nat): string {
    RunsText(RunsBelow(cpus, size))
  }

  /**
   * Printing a nonempty set and parsing the text gives exactly the set back, and reports success when
   * every CPU of it is present.
   */
  lemma PrintParse(cpus: set<nat>, size: nat, present: set<nat>)
    requires cpus != {} && (forall i :: i in cpus ==> i < size) && size <= ULONG_MAX && cpus <= present
    ensures Parse(ToText(cpus, size), Parsed({}, true), size, present, true) == Parsed(cpus, true)
  {
    var runs := RunsBelow(cpus, size);
    RunsMaximal(cpus, size);
    RunsCover(cpus, size);
    assert Cpus(runs) == cpus;
    RunsTextFirst(runs);
    ParseRuns(runs, Parsed({}, true), size, present);
    assert {} + cpus == cpus;
  }

  // ---- The loops ----

  /** The inner loop of parse_cpu_ranges. */
  method SetRange(p: Parsed, a: nat, b: nat, size: nat, present: set<nat>, checked: bool) returns (r: Parsed)
    ensures r == AddRange(p, a, b, size, present, checked)
  {
    var cpus, valid := p.cpus, p.valid;
    var i := a;
    while i <= b && i < size
      invariant a <= i
      invariant i <= b + 1 || i == a
      invariant forall x ::
                  x in cpus <==> x in p.cpus || (a <= x < i && x <= b && x < size && (checked ==> x in present))
      invariant valid <==> p.valid && (checked ==> forall x :: a <= x < i && x <= b && x < size ==> x in present)
      decreases size - i
    {
      if checked && i !in present {
        valid := false;
      } else {
        cpus := cpus + {i};
      }
      i := i + 1;
    }
    r := Parsed(cpus, valid);
    var range := Range(a, b, size);
    if checked {
      assert cpus == p.cpus + range * present;
      assert valid <==> p.valid && range <= present;
    } else {
      assert cpus == p.cpus + range;
    }
  }

  lemma ParseEmpty(size: nat, present: set<nat>, checked: bool)
    ensures forall p :: Parse("", p, size, present, checked) == p
  {
  }

  lemma ParseStep(s: string, p: Parsed, size: nat, present: set<nat>, checked: bool)
    requires s != ""
    ensures Strtoul(s, 0).1 == 0 ==> Parse(s, p, size, present, checked) == Parse(s[1..], p, size, present, checked)
    ensures Strtoul(s, 0).1 != 0 ==>
              var (a, b, n) := ReadRange(s);
              Parse(s, p, size, present, checked)
              == Parse(if n < |s| && s[n] == ',' then s[n + 1..] else s[n..],
                       AddRange(p, a, b, size, present, checked), size, present, checked)
  {
    if Strtoul(s, 0).1 != 0 {
      var n := ReadRange(s).2;
      hide Strtoul, ReadRange, AddRange;
      assert n < |s| ==> s[n..][0] == s[n] && s[n..][1..] == s[n + 1..];
    }
  }

  /** parse_cpu_ranges, adding to the CPUs already there. */
  method ParseCpuRanges(spec: string, cpus: set<nat>, size: nat, present: set<nat>, checked: bool) returns (p: Parsed)
    ensures p == Parse(spec, Parsed(cpus, true), size, present, checked)
  {
    hide AddRange, Strtoul, Parse;
    p := Parsed(cpus, true);
    var s := spec;
    ParseEmpty(size, present, checked);
    while s != ""
      invariant Parse(s, p, size, present, checked) == Parse(spec, Parsed(cpus, true), size, present, checked)
      decreases |s|
    {
      ParseStep(s, p, size, present, checked);
      var (a, end) := Strtoul(s, 0);
      if end == 0 {
        s := s[1..];
        continue;
      }
      var b := a;
      var stop := end;
      if end < |s| && s[end] == '-' {
        var (second, used) := Strtoul(s[end + 1..], 10);
        b := if used == 0 then a else second;
        stop := end + 1 + used;
      }
      p := SetRange(p, a, b, size, present, checked);
      s := if stop < |s| && s[stop] == ',' then s[stop + 1..] else s[stop..];
    }
  }

  /** The sizes whose CPU numbers have at most ten digits; CPU_SETSIZE is 1024 or less. */
  const SIZE_LIMIT: nat := 10_000_000_000

  lemma {:induction false} DigitsLength(n: nat, d: nat)
    requires d > 0 && n < Tens(d)
    ensures 1 <= |Digits(n)| <= d && |Digits(n)| <= n + 1
  {
    if n >= 10 {
      assert d > 1;
      DigitsLength(n / 10, d - 1);
    }
  }

  function Tens(d: nat): nat {
    if d == 0 then 1 else 10 * Tens(d - 1)
  }

  lemma TenDigits(n: nat)
    requires n < SIZE_LIMIT
    ensures 1 <= |Digits(n)| <= 10 && |Digits(n)| <= n + 1
  {
    assert Tens(5) == 100_000 && Tens(10) == 100_000 * Tens(5);
    DigitsLength(n, 10);
  }

  /** Maximal runs take fewer than eight characters for every CPU up to the last one. */
  lemma {:induction false} RunsFit(runs: Runs, n: nat)
    requires Maximal(runs, n) && runs != [] && n <= SIZE_LIMIT
    ensures |RunsText(runs)| < 8 * (runs[|runs| - 1].1 + 1)
  {
    var run := runs[|runs| - 1];
    TenDigits(run.0);
    TenDigits(run.1);
    hide Digits;
    if |runs| > 1 {
      RunsFit(runs[..|runs| - 1], n);
    }
  }

  /** So the text and its NUL fit the buffer of eight bytes for every CPU. */
  lemma TextFits(cpus: set<nat>, size: nat)
    requires 0 < size <= SIZE_LIMIT
    ensures |ToText(cpus, size)| < 8 * size
  {
    RunsMaximal(cpus, size);
    if RunsBelow(cpus, size) != [] {
      RunsFit(RunsBelow(cpus, size), size);
    }
  }

  /** What snprintf adds for one run. */
  function RunPart(first: bool, run: (nat, nat)): string {
    (if first then "" else ",") + RunText(run)
  }

  /**
   * cpu_set_to_str of a nonempty set; of the empty set the program returns an unwritten buffer. What
   * remains of the buffer, less the NUL, never falls below zero, so no write is cut short.
   */
  method CpuSetToStr(cpus: set<nat>, size: nat) returns (text: string)
    requires (exists i :: i in cpus && i < size) && size <= SIZE_LIMIT
    ensures text == ToText(cpus, size)
  {
    hide RunsBelow, RunsText, RunText;
    var remain: nat := 8 * size - 1;
    RunsNothing(cpus);
    text := "";
    var open, start, end, first := false, 0, 0, true;
    ghost var closed: Runs := [];
    var i := 0;
    while i < size
      invariant 0 <= i <= size
      invariant RunsBelow(cpus, i) == if open then closed + [(start, end)] else []
      invariant !open ==> closed == []
      invariant text == RunsText(closed) && first == (closed == [])
      invariant remain == 8 * size - 1 - |text|
    {
      RunsStep(cpus, i);
      if i in cpus {
        if !open {
          open, start, end := true, i, i;
        } else if i == end + 1 {
          assert (closed + [(start, end)])[..|closed|] == closed;
          end := i;
        } else {
          RunsTextMore(closed, (start, end));
          TextFits(cpus, i);
          remain := remain - |RunPart(first, (start, end))|;
          text := text + RunPart(first, (start, end));
          closed := closed + [(start, end)];
          start, end, first := i, i, false;
        }
      }
      i := i + 1;
    }
    RunsCover(cpus, size);
    assert open;
    RunsTextMore(closed, (start, end));
    TextFits(cpus, size);
    assert |RunPart(first, (start, end))| <= remain;
    text := text + RunPart(first, (start, end));
  }

  lemma RunsNothing(cpus: set<nat>)
    ensures RunsBelow(cpus, 0) == [] && RunsText([]) == "" && Cpus([]) == {}
  {
  }

  lemma RunsStep(cpus: set<nat>, i: nat)
    ensures var runs := RunsBelow(cpus, i);
            RunsBelow(cpus, i + 1)
            == if i !in cpus then runs
               else if runs != [] && runs[|runs| - 1].1 + 1 == i then runs[..|runs| - 1] + [(runs[|runs| - 1].0, i)]
               else runs + [(i, i)]
  {
  }

  lemma RunsTextMore(runs: Runs, run: (nat, nat))
    ensures RunsText(runs + [run]) == RunsText(runs) + RunPart(runs == [], run)
  {
    assert (runs + [run])[..|runs|] == runs;
    assert runs == [] ==> "" + ("" + RunText(run)) == RunText(run);
    assert RunsText(runs) + "," + RunText(run) == RunsText(runs) + ("," + RunText(run));
  }
}
