/**
 * Which rule a lookup finds, said without the lists, priorities and caches that find it: the most
 * specific rule that applies, and which of two equally specific ones.
 */
module RuleLaws {
  import opened RuleMatch
  import opened Wrappers

  // ---- How specific a pattern is ----

  predicate Special(c: char) {
    c == '*' || c == '?' || c == '['
  }

  /** Where the characters of a pattern that stand for themselves are. */
  function PlainAt(p: string): set<nat> {
    set i: nat | i < |p| && !Special(p[i])
  }

  /** A name, a pattern with a bracket, one with a question mark, or one of stars only. */
  function Class(p: string): nat {
    if forall i :: 0 <= i < |p| ==> !Special(p[i]) then 3
    else if exists i :: 0 <= i < |p| && p[i] == '[' then 2
    else if exists i :: 0 <= i < |p| && p[i] == '?' then 1
    else 0
  }

  /** More specific: of a higher class, or of the same class with more plain characters. */
  predicate Outranks(p: string, q: string) {
    Class(p) > Class(q) || (Class(p) == Class(q) && |PlainAt(p)| > |PlainAt(q)|)
  }

  lemma {:induction false} CountsPlain(p: string)
    ensures PlainChars(p) == |PlainAt(p)| <= |p|
  {
    if p != "" {
      var n := |p| - 1;
      CountsPlain(p[..n]);
      if Special(p[n]) {
        assert PlainAt(p) == PlainAt(p[..n]);
      } else {
        assert PlainAt(p) == PlainAt(p[..n]) + {n};
      }
    } else {
      assert PlainAt(p) == {};
    }
  }

  lemma {:induction false} AllPlain(p: string)
    requires forall i :: 0 <= i < |p| ==> !Special(p[i])
    ensures |PlainAt(p)| == |p|
  {
    if p != "" {
      AllPlain(p[..|p| - 1]);
      assert PlainAt(p) == PlainAt(p[..|p| - 1]) + {|p| - 1};
    } else {
      assert PlainAt(p) == {};
    }
  }

  lemma ClassPriority(p: string)
    requires p != "" && |p| < 128
    ensures PatternPriority(p) == [100, 300, 500, 1000][Class(p)] + |PlainAt(p)|
    ensures |PlainAt(p)| < 128 && Class(p) <= 3
  {
    CountsPlain(p);
    hide PlainChars;
    if Class(p) == 3 {
      AllPlain(p);
    }
    assert Literal(p) <==> Class(p) == 3;
    assert '[' in p <==> exists i :: 0 <= i < |p| && p[i] == '[';
    assert '?' in p <==> exists i :: 0 <= i < |p| && p[i] == '?';
  }

  /** Of two patterns below the length limits the one of higher priority is the more specific one. */
  lemma PriorityOrder(p: string, q: string)
    requires p != "" && q != "" && |p| < 128 && |q| < 128
    ensures PatternPriority(p) > PatternPriority(q) <==> Outranks(p, q)
  {
    ClassPriority(p);
    ClassPriority(q);
    hide PatternPriority, Class, PlainAt;
  }

  // ---- Which rules apply ----

  predicate Applies(fm: (string, string) -> bool, r: Rule, pkg: string) {
    if Class(r.pkg) == 3 then r.pkg == pkg else fm(r.pkg, pkg)
  }

  predicate Matches(fm: (string, string) -> bool, r: Rule, name: string) {
    r.thread != "" && name != "" && fm(r.thread, name)
  }

  /** r is met before s: exact packages before package patterns, the former from the last line back. */
  predicate Before(r: Rule, s: Rule) {
    if Class(r.pkg) == 3 then Class(s.pkg) != 3 || r.line > s.line else Class(s.pkg) != 3 && r.line < s.line
  }

  /** r with pattern p goes before s with pattern q: more specific, or as specific and met before. */
  predicate Precedes(r: Rule, p: string, s: Rule, q: string) {
    Outranks(p, q) || (!Outranks(q, p) && Before(r, s))
  }

  predicate ForName(fm: (string, string) -> bool, rules: seq<Rule>, pkg: string, name: string) {
    exists r :: r in rules && Applies(fm, r, pkg) && Matches(fm, r, name)
  }

  /**
   * r is the rule for a thread: of the rules that apply to the package and match the name the one
   * that precedes all others, or of those for the whole package when none matches the name.
   */
  predicate Wins(fm: (string, string) -> bool, rules: seq<Rule>, pkg: string, name: string, r: Rule) {
    && r in rules && Applies(fm, r, pkg)
    && if ForName(fm, rules, pkg, name) then
         Matches(fm, r, name)
         && forall s :: s in rules && s != r && Applies(fm, s, pkg) && Matches(fm, s, name) ==>
              Precedes(r, r.thread, s, s.thread)
       else
         r.thread == ""
         && forall s :: s in rules && s != r && Applies(fm, s, pkg) && s.thread == "" ==>
              Precedes(r, r.pkg, s, s.pkg)
  }

  /** Thread names have at most 31 bytes, package names at most 127. */
  predicate Short(rules: seq<Rule>) {
    forall r :: r in rules ==> |r.thread| < 32 && |r.pkg| < 128
  }

  // ---- The candidates ----

  lemma LiteralIsPlain(p: string)
    ensures Literal(p) <==> Class(p) == 3
  {
  }

  lemma {:induction false} ExactAre(rules: seq<Rule>, pkg: string)
    ensures forall r :: r in Exact(rules, pkg) <==> r in rules && Class(r.pkg) == 3 && r.pkg == pkg
  {
    if rules != [] {
      var n := |rules| - 1;
      ExactAre(rules[..n], pkg);
      LiteralIsPlain(rules[n].pkg);
      hide Literal, Class;
      assert rules == rules[..n] + [rules[n]];
    }
  }

  lemma {:induction false} GlobsAre(rules: seq<Rule>)
    ensures forall r :: r in Globs(rules) <==> r in rules && Class(r.pkg) != 3
  {
    if rules != [] {
      var n := |rules| - 1;
      GlobsAre(rules[..n]);
      LiteralIsPlain(rules[n].pkg);
      hide Literal, Class;
      assert rules == rules[..n] + [rules[n]];
    }
  }

  lemma {:induction false} MatchingAre(fm: (string, string) -> bool, globs: seq<Rule>, pkg: string)
    ensures forall r :: r in MatchingGlobs(fm, globs, pkg) <==> r in globs && fm(r.pkg, pkg)
  {
    if globs != [] {
      var n := |globs| - 1;
      MatchingAre(fm, globs[..n], pkg);
      assert globs == globs[..n] + [globs[n]];
    }
  }

  lemma CandidatesAre(fm: (string, string) -> bool, rules: seq<Rule>, pkg: string)
    ensures forall r :: r in Candidates(fm, rules, pkg) <==> r in rules && Applies(fm, r, pkg)
  {
    ExactAre(rules, pkg);
    GlobsAre(rules);
    MatchingAre(fm, Globs(rules), pkg);
    hide Exact, Globs, MatchingGlobs, Class;
  }

  lemma CandidatesOrder(fm: (string, string) -> bool, rules: seq<Rule>, pkg: string, i: nat, j: nat)
    requires LinesIncrease(rules) && i < j < |Candidates(fm, rules, pkg)|
    ensures Before(Candidates(fm, rules, pkg)[i], Candidates(fm, rules, pkg)[j])
    ensures Candidates(fm, rules, pkg)[i] != Candidates(fm, rules, pkg)[j]
  {
    var a, b := Exact(rules, pkg), MatchingGlobs(fm, Globs(rules), pkg);
    ExactAre(rules, pkg);
    GlobsAre(rules);
    MatchingAre(fm, Globs(rules), pkg);
    ListOrder(rules, pkg);
    MatchingOrder(fm, Globs(rules), pkg);
    hide Exact, Globs, MatchingGlobs, Class;
    assert i < |a| ==> a[i] in a;
    assert j < |a| ==> a[j] in a;
    assert i >= |a| ==> b[i - |a|] in b;
    assert j >= |a| ==> b[j - |a|] in b;
  }

  // ---- What the scan finds ----

  /** The pattern whose priority counts. */
  function Key(r: Rule): string {
    if r.thread != "" then r.thread else r.pkg
  }

  lemma PriorityIs(r: Rule)
    ensures Priority(r) == PatternPriority(Key(r))
  {
  }

  /** The first of the best wanted candidates precedes all other wanted ones. */
  lemma FirstPrecedes(fm: (string, string) -> bool, rules: seq<Rule>, pkg: string, want: Want)
    requires LinesIncrease(rules) && Short(rules) && pkg != ""
    ensures var cands := Candidates(fm, rules, pkg);
            var best := FirstMax(fm, cands, want);
            && (best.None? ==> forall s :: s in cands ==> !Wanted(fm, s, want))
            && (best.Some? ==> best.value in cands && Wanted(fm, best.value, want))
            && (best.Some? ==>
                  forall s :: s in cands && s != best.value && Wanted(fm, s, want) ==>
                      Precedes(best.value, Key(best.value), s, Key(s)))
  {
    var cands := Candidates(fm, rules, pkg);
    var best := FirstMax(fm, cands, want);
    FirstMaxMeaning(fm, cands, want);
    hide *;
    if best.Some? {
      var k: nat :| k < |cands| && IsFirstMax(fm, cands, want, k) && best.value == cands[k];
      FirstMaxWanted(fm, cands, want, k);
      forall s | s in cands && s != cands[k] && Wanted(fm, s, want)
        ensures Precedes(cands[k], Key(cands[k]), s, Key(s))
      {
        var i :| 0 <= i < |cands| && cands[i] == s;
        AheadOf(fm, rules, pkg, want, k, i);
      }
    }
  }

  lemma AheadOf(fm: (string, string) -> bool, rules: seq<Rule>, pkg: string, want: Want, k: nat, i: nat)
    requires LinesIncrease(rules) && Short(rules) && pkg != "" && i < |Candidates(fm, rules, pkg)| && i != k
    requires IsFirstMax(fm, Candidates(fm, rules, pkg), want, k) && Wanted(fm, Candidates(fm, rules, pkg)[i], want)
    ensures k < |Candidates(fm, rules, pkg)|
    ensures var r, s := Candidates(fm, rules, pkg)[k], Candidates(fm, rules, pkg)[i]; Precedes(r, Key(r), s, Key(s))
  {
    var cands := Candidates(fm, rules, pkg);
    CandidatesAre(fm, rules, pkg);
    hide Candidates, Wanted, Priority, Precedes, Before, Key, Outranks, Short, Applies, LinesIncrease;
    var r, s := cands[k], cands[i];
    KeyFits(fm, rules, pkg, r);
    KeyFits(fm, rules, pkg, s);
    PriorityOrder(Key(s), Key(r));
    PriorityOrder(Key(r), Key(s));
    PriorityIs(r);
    PriorityIs(s);
    if k < i {
      CandidatesOrder(fm, rules, pkg, k, i);
    }
    PrecedesWhen(r, s);
  }

  lemma PrecedesWhen(r: Rule, s: Rule)
    ensures Outranks(Key(r), Key(s)) || (!Outranks(Key(s), Key(r)) && Before(r, s)) ==> Precedes(r, Key(r), s, Key(s))
  {
  }

  lemma KeyFits(fm: (string, string) -> bool, rules: seq<Rule>, pkg: string, r: Rule)
    requires Short(rules) && r in rules && Applies(fm, r, pkg) && pkg != ""
    ensures Key(r) != "" && |Key(r)| < 128
  {
  }

  /** No two rules precede each other. */
  lemma PrecedesOnce(r: Rule, s: Rule, p: string, q: string)
    ensures !(Precedes(r, p, s, q) && Precedes(s, q, r, p))
  {
    hide Class, PlainAt;
  }

  /** The scan finds exactly the rule that wins, and none exactly when none applies. */
  lemma ScanIff(fm: (string, string) -> bool, rules: seq<Rule>, pkg: string, name: string, r: Rule)
    requires LinesIncrease(rules) && Short(rules) && pkg != ""
    ensures Scan(fm, Candidates(fm, rules, pkg), name) == Some(r) <==> Wins(fm, rules, pkg, name, r)
    ensures Scan(fm, Candidates(fm, rules, pkg), name) == None <==>
              forall s :: s in rules && Applies(fm, s, pkg) ==> !Matches(fm, s, name) && s.thread != ""
  {
    CandidatesAre(fm, rules, pkg);
    FirstPrecedes(fm, rules, pkg, ForThread(name));
    FirstPrecedes(fm, rules, pkg, ForPackage);
    var cands := Candidates(fm, rules, pkg);
    var found := Scan(fm, cands, name);
    hide Candidates, FirstMax, Precedes, Applies;
    if found.Some? && Wins(fm, rules, pkg, name, r) && found.value != r {
      PrecedesOnce(found.value, r, Key(found.value), Key(r));
    }
  }

  /** So does the lookup with its cache when no thread name has a backslash. */
  lemma FindBestIff(fm: (string, string) -> bool, rules: seq<Rule>, pkg: string, name: string, r: Rule)
    requires Fnmatch(fm) && LinesIncrease(rules) && Short(rules) && pkg != ""
    requires forall s :: s in rules ==> '\\' !in s.thread
    ensures FindBest(fm, rules, pkg, name) == Some(r) <==> Wins(fm, rules, pkg, name, r)
    ensures FindBest(fm, rules, pkg, name) == None <==>
              forall s :: s in rules && Applies(fm, s, pkg) ==> !Matches(fm, s, name) && s.thread != ""
  {
    hide FindBest, Scan, Candidates, Wins, Applies, Matches, Fnmatch;
    NoBackslashAgrees(fm, rules, pkg, name);
    ScanIff(fm, rules, pkg, name, r);
  }

  /** Of two patterns of one class that apply the one with more plain characters is found, whatever their lines. */
  lemma MorePlainWins(fm: (string, string) -> bool, rules: seq<Rule>, pkg: string, name: string, r: Rule, s: Rule)
    requires LinesIncrease(rules) && Short(rules) && pkg != ""
    requires r in rules && Applies(fm, r, pkg) && Matches(fm, r, name)
    requires s in rules && Applies(fm, s, pkg) && Matches(fm, s, name)
    requires Class(r.thread) == Class(s.thread) && |PlainAt(r.thread)| > |PlainAt(s.thread)|
    ensures Scan(fm, Candidates(fm, rules, pkg), name) != Some(s)
  {
    hide Scan, Candidates, Applies, Matches, Class, PlainAt;
    ScanIff(fm, rules, pkg, name, s);
  }
}
