/**
 * The thread-rule matcher. Rules for exact package names sit in per-package lists, latest line first,
 * with a cache from exact thread names to rules; rules for package patterns sit in one list in line
 * order. A lookup takes the cache's answer when there is one and otherwise scans for the highest
 * priority. fnmatch is a parameter.
 */
module RuleMatch {
  import opened Wrappers

  const MAX_THREAD_LEN: nat := 32

  /** A loaded rule; its line in the file tells equal rules apart. */
  datatype Rule = Rule(pkg: string, thread: string, line: nat)

  /** A name without any of the three pattern characters the program looks for. */
  predicate Literal(s: string) {
    '*' !in s && '?' !in s && '[' !in s
  }

  /**
   * What is assumed of fnmatch: a literal matches only itself or, through backslash escapes, a
   * shorter name; without a backslash it does match itself.
   */
  ghost predicate Fnmatch(fm: (string, string) -> bool) {
    && (forall p, s :: Literal(p) && fm(p, s) ==> p == s || |p| > |s|)
    && (forall p :: Literal(p) && '\\' !in p ==> fm(p, p))
    && (forall p, s :: Literal(p) && '\\' !in p && fm(p, s) ==> p == s)
  }

  // ---- A matcher ----

  /**
   * fnmatch without flags: a star, a question mark, and a backslash that takes the next byte as it
   * is. What a bracket does is left open, and so is whether a backslash at the end stands for itself.
   */
  predicate Glob(bracket: (string, string) -> bool, keepLast: bool, p: string, s: string)
    decreases |p| + |s|
  {
    if p == "" then s == ""
    else if p[0] == '[' then bracket(p, s)
    else if p[0] == '*' then Glob(bracket, keepLast, p[1..], s) || (s != "" && Glob(bracket, keepLast, p, s[1..]))
    else if s == "" then false
    else if p[0] == '?' then Glob(bracket, keepLast, p[1..], s[1..])
    else if p[0] == '\\' && |p| == 1 then keepLast && s == p
    else if p[0] == '\\' then p[1] == s[0] && Glob(bracket, keepLast, p[2..], s[1..])
    else p[0] == s[0] && Glob(bracket, keepLast, p[1..], s[1..])
  }

  /** The only name a literal pattern matches, if any: the pattern without its escaping backslashes. */
  function Unescaped(keepLast: bool, p: string): Option<string> {
    if p == "" then Some("")
    else if p == "\\" then if keepLast then Some(p) else None
    else
      var skip := if p[0] == '\\' then 1 else 0;
      match Unescaped(keepLast, p[skip + 1..])
      case None => None
      case Some(t) => Some([p[skip]] + t)
  }

  lemma {:induction false} LiteralGlob(bracket: (string, string) -> bool, keepLast: bool, p: string, s: string)
    requires Literal(p)
    ensures Glob(bracket, keepLast, p, s) <==> Unescaped(keepLast, p) == Some(s)
  {
    if p != "" && p != "\\" {
      var skip := if p[0] == '\\' then 1 else 0;
      var rest := p[skip + 1..];
      assert forall c :: c in rest ==> c in p;
      assert p[0] in p && p[skip] in p;
      if s != "" {
        LiteralGlob(bracket, keepLast, rest, s[1..]);
        assert s == [s[0]] + s[1..];
      }
    }
  }

  lemma {:induction false} UnescapedLength(keepLast: bool, p: string)
    ensures Unescaped(keepLast, p).Some? ==> Unescaped(keepLast, p).value == p || |p| > |Unescaped(keepLast, p).value|
    ensures '\\' !in p ==> Unescaped(keepLast, p) == Some(p)
  {
    if p != "" && p != "\\" {
      var skip := if p[0] == '\\' then 1 else 0;
      UnescapedLength(keepLast, p[skip + 1..]);
      assert p[0] in p && forall c :: c in p[skip + 1..] ==> c in p;
      assert skip == 0 ==> p == [p[0]] + p[1..];
    }
  }

  /** Such a matcher has what is asked of fnmatch, whatever it does with brackets. */
  lemma GlobIsFnmatch(bracket: (string, string) -> bool, keepLast: bool)
    ensures Fnmatch((p, s) => Glob(bracket, keepLast, p, s))
  {
    forall p, s | Glob(bracket, keepLast, p, s)
      ensures Literal(p) ==> p == s || |p| > |s|
      ensures Literal(p) && '\\' !in p ==> p == s
    {
      GlobFits(bracket, keepLast, p, s);
    }
    forall p | Literal(p) && '\\' !in p
      ensures Glob(bracket, keepLast, p, p)
    {
      GlobFits(bracket, keepLast, p, p);
    }
  }

  lemma GlobFits(bracket: (string, string) -> bool, keepLast: bool, p: string, s: string)
    ensures Literal(p) && Glob(bracket, keepLast, p, s) ==> p == s || |p| > |s|
    ensures Literal(p) && '\\' !in p ==> (Glob(bracket, keepLast, p, s) <==> p == s)
  {
    if Literal(p) {
      LiteralGlob(bracket, keepLast, p, s);
      UnescapedLength(keepLast, p);
    }
  }

  /** It matches an escaped pattern to a shorter name. */
  lemma EscapedMatches(bracket: (string, string) -> bool, keepLast: bool)
    ensures Glob(bracket, keepLast, "a\\b", "ab")
  {
    assert "a\\b"[1..] == "\\b" && "\\b"[2..] == "" && "ab"[1..] == "b" && "b"[1..] == "";
    assert Glob(bracket, keepLast, "\\b", "b");
  }

  // ---- Priorities ----

  function PlainChars(s: string): (n: nat)
    ensures n <= |s|
    ensures !Literal(s) ==> n < |s|
  {
    if s == "" then 0
    else
      var last := s[|s| - 1];
      assert s == s[..|s| - 1] + [last];
      PlainChars(s[..|s| - 1]) + (if last in ['[', '?', '*'] then 0 else 1)
  }

  /** calculate_rule_priority. */
  function PatternPriority(pattern: string): int {
    if pattern == "" then 200
    else if Literal(pattern) then 1000 + |pattern|
    else if '[' in pattern then 500 + PlainChars(pattern)
    else if '?' in pattern then 300 + PlainChars(pattern)
    else 100 + PlainChars(pattern)
  }

  function Priority(r: Rule): int {
    PatternPriority(if r.thread != "" then r.thread else r.pkg)
  }

  /** Below the length limit, every literal outranks every pattern, and longer literals outrank shorter ones. */
  lemma LiteralsOutrank(p: string, q: string)
    requires p != "" && Literal(p) && q != "" && |q| < MAX_THREAD_LEN
    ensures PatternPriority(p) == 1000 + |p|
    ensures !Literal(q) ==> 100 <= PatternPriority(q) < 1000 < PatternPriority(p)
    ensures Literal(q) ==> (PatternPriority(p) > PatternPriority(q) <==> |p| > |q|)
  {
  }

  // ---- The loaded rule set ----

  /** The rules for exactly this package, latest line first. */
  function Exact(rules: seq<Rule>, pkg: string): seq<Rule> {
    if rules == [] then []
    else
      var r := rules[|rules| - 1];
      (if Literal(r.pkg) && r.pkg == pkg then [r] else []) + Exact(rules[..|rules| - 1], pkg)
  }

  /** The rules for package patterns, in line order. */
  function Globs(rules: seq<Rule>): seq<Rule> {
    if rules == [] then []
    else
      var r := rules[|rules| - 1];
      Globs(rules[..|rules| - 1]) + (if Literal(r.pkg) then [] else [r])
  }

  function MatchingGlobs(fm: (string, string) -> bool, globs: seq<Rule>, pkg: string): seq<Rule> {
    if globs == [] then []
    else
      var r := globs[|globs| - 1];
      MatchingGlobs(fm, globs[..|globs| - 1], pkg) + (if fm(r.pkg, pkg) then [r] else [])
  }

  /** All rules that apply to a package, in the order the scan meets them. */
  function Candidates(fm: (string, string) -> bool, rules: seq<Rule>, pkg: string): seq<Rule> {
    Exact(rules, pkg) + MatchingGlobs(fm, Globs(rules), pkg)
  }

  // ---- The scan ----

  /** A scan looks for rules of a thread and, failing that, for rules of the whole package. */
  datatype Want = ForThread(name: string) | ForPackage

  predicate Wanted(fm: (string, string) -> bool, r: Rule, want: Want) {
    match want
    case ForThread(name) => name != "" && r.thread != "" && fm(r.thread, name)
    case ForPackage => r.thread == ""
  }

  /** The first of the wanted rules with the highest priority. */
  function FirstMax(fm: (string, string) -> bool, rules: seq<Rule>, want: Want): Option<Rule> {
    if rules == [] then None
    else
      var r := rules[|rules| - 1];
      var best := FirstMax(fm, rules[..|rules| - 1], want);
      if Wanted(fm, r, want) && (best.None? || Priority(r) > Priority(best.value)) then Some(r) else best
  }

  /** find_best_rule without its cache lookup. */
  function Scan(fm: (string, string) -> bool, cands: seq<Rule>, name: string): Option<Rule> {
    match FirstMax(fm, cands, ForThread(name))
    case Some(r) => Some(r)
    case None => FirstMax(fm, cands, ForPackage)
  }

  // ---- The cache ----

  /** build_thread_cache for one list: the first rule of each literal thread name. */
  function CacheOf(rules: seq<Rule>): map<string, Rule> {
    if rules == [] then map[]
    else
      var r := rules[|rules| - 1];
      var cache := CacheOf(rules[..|rules| - 1]);
      if r.thread != "" && Literal(r.thread) && r.thread !in cache then cache[r.thread := r] else cache
  }

  /** find_best_rule. */
  function FindBest(fm: (string, string) -> bool, rules: seq<Rule>, pkg: string, name: string): Option<Rule> {
    var cache := CacheOf(Exact(rules, pkg));
    if name != "" && name in cache then Some(cache[name]) else Scan(fm, Candidates(fm, rules, pkg), name)
  }

  // ---- What the scan and the cache find ----

  /** k is where the first of the wanted rules with the highest priority stands. */
  predicate IsFirstMax(fm: (string, string) -> bool, rules: seq<Rule>, want: Want, k: nat) {
    && k < |rules| && Wanted(fm, rules[k], want)
    && (forall i :: 0 <= i < k && Wanted(fm, rules[i], want) ==> Priority(rules[i]) < Priority(rules[k]))
    && (forall i :: k <= i < |rules| && Wanted(fm, rules[i], want) ==> Priority(rules[i]) <= Priority(rules[k]))
  }

  /** The scan finds a rule exactly when one is wanted, and then the first of the highest priority. */
  lemma {:induction false} FirstMaxMeaning(fm: (string, string) -> bool, rules: seq<Rule>, want: Want)
    ensures FirstMax(fm, rules, want).None? <==> forall r :: r in rules ==> !Wanted(fm, r, want)
    ensures FirstMax(fm, rules, want).Some? ==>
              exists k: nat :: k < |rules| && IsFirstMax(fm, rules, want, k)
                && FirstMax(fm, rules, want).value == rules[k]
  {
    if rules != [] {
      var n := |rules| - 1;
      var r, best := rules[n], FirstMax(fm, rules[..n], want);
      FirstMaxMeaning(fm, rules[..n], want);
      assert rules == rules[..n] + [r];
      if best.None? {
        if Wanted(fm, r, want) {
          assert forall i :: 0 <= i < n ==> rules[i] in rules[..n];
          assert IsFirstMax(fm, rules, want, n);
        }
      } else {
        var k: nat :| k < |rules[..n]| && IsFirstMax(fm, rules[..n], want, k) && best.value == rules[..n][k];
        assert forall i :: 0 <= i < n ==> rules[..n][i] == rules[i];
        if Wanted(fm, r, want) && Priority(r) > Priority(best.value) {
          assert IsFirstMax(fm, rules, want, n);
        } else {
          assert IsFirstMax(fm, rules, want, k);
        }
      }
    }
  }

  lemma FirstMaxUnique(fm: (string, string) -> bool, rules: seq<Rule>, want: Want, k: nat)
    requires IsFirstMax(fm, rules, want, k)
    ensures FirstMax(fm, rules, want) == Some(rules[k])
  {
    hide PatternPriority, Wanted, FirstMax, IsFirstMax;
    FirstMaxMeaning(fm, rules, want);
    assert rules[k] in rules && Wanted(fm, rules[k], want) by {
      FirstMaxWanted(fm, rules, want, k);
    }
    var j: nat :| j < |rules| && IsFirstMax(fm, rules, want, j) && FirstMax(fm, rules, want).value == rules[j];
    FirstMaxOnce(fm, rules, want, j, k);
  }

  lemma FirstMaxWanted(fm: (string, string) -> bool, rules: seq<Rule>, want: Want, k: nat)
    requires IsFirstMax(fm, rules, want, k)
    ensures k < |rules| && Wanted(fm, rules[k], want)
  {
  }

  lemma FirstMaxOnce(fm: (string, string) -> bool, rules: seq<Rule>, want: Want, j: nat, k: nat)
    requires IsFirstMax(fm, rules, want, j) && IsFirstMax(fm, rules, want, k)
    ensures j == k
  {
  }

  /** The cached rule of a name is the first in the list with exactly that thread name. */
  lemma {:induction false} CacheMeaning(rules: seq<Rule>, name: string)
    ensures name in CacheOf(rules) <==> name != "" && Literal(name) && exists r :: r in rules && r.thread == name
    ensures name in CacheOf(rules) ==>
              exists k: nat :: k < |rules| && rules[k] == CacheOf(rules)[name] && rules[k].thread == name
                               && forall i :: 0 <= i < k ==> rules[i].thread != name
  {
    if rules != [] {
      var n := |rules| - 1;
      CacheMeaning(rules[..n], name);
      assert rules == rules[..n] + [rules[n]];
      assert forall i :: 0 <= i < n ==> rules[..n][i] == rules[i] && rules[i] in rules[..n];
      if name in CacheOf(rules[..n]) {
        var k: nat :| k < n && rules[..n][k] == CacheOf(rules[..n])[name] && rules[..n][k].thread == name
                      && forall i :: 0 <= i < k ==> rules[..n][i].thread != name;
        assert rules[k] == CacheOf(rules)[name];
      } else if name in CacheOf(rules) {
        assert rules[n] == CacheOf(rules)[name];
      }
    }
  }

  // ---- When the cache agrees with the scan ----

  /**
   * The escapes spare the name: it matches itself, and no candidate's literal thread name other than
   * this one matches it.
   */
  predicate NotEscaped(fm: (string, string) -> bool, cands: seq<Rule>, name: string) {
    fm(name, name) && forall r :: r in cands && Literal(r.thread) && r.thread != name && r.thread != "" ==>
      !fm(r.thread, name)
  }

  predicate ShortThreads(rules: seq<Rule>) {
    forall r :: r in rules ==> |r.thread| < MAX_THREAD_LEN
  }

  lemma {:induction false} CandidatesLoaded(fm: (string, string) -> bool, rules: seq<Rule>, pkg: string)
    ensures forall r :: r in Exact(rules, pkg) ==> r in rules
    ensures forall r :: r in Globs(rules) ==> r in rules
  {
    if rules != [] {
      CandidatesLoaded(fm, rules[..|rules| - 1], pkg);
    }
  }

  lemma {:induction false} MatchingLoaded(fm: (string, string) -> bool, globs: seq<Rule>, pkg: string)
    ensures forall r :: r in MatchingGlobs(fm, globs, pkg) ==> r in globs
  {
    if globs != [] {
      MatchingLoaded(fm, globs[..|globs| - 1], pkg);
    }
  }

  /** Among rules whose threads are short, the cached rule of an unescaped name heads the scan. */
  lemma CachedIsFirstMax(fm: (string, string) -> bool, cands: seq<Rule>, name: string, k: nat)
    requires Fnmatch(fm) && ShortThreads(cands) && name != "" && Literal(name)
    requires k < |cands| && cands[k].thread == name && forall i :: 0 <= i < k ==> cands[i].thread != name
    ensures NotEscaped(fm, cands, name) ==> IsFirstMax(fm, cands, ForThread(name), k)
    ensures !NotEscaped(fm, cands, name) ==> Scan(fm, cands, name) != Some(cands[k])
  {
    if NotEscaped(fm, cands, name) {
      forall i | 0 <= i < |cands| && Wanted(fm, cands[i], ForThread(name))
        ensures Priority(cands[i]) <= Priority(cands[k])
        ensures i < k ==> Priority(cands[i]) < Priority(cands[k])
      {
        assert cands[i] in cands;
        LiteralsOutrank(name, cands[i].thread);
      }
    } else {
      FirstMaxMeaning(fm, cands, ForThread(name));
      FirstMaxMeaning(fm, cands, ForPackage);
      if fm(name, name) {
        var r :| r in cands && Literal(r.thread) && r.thread != name && r.thread != "" && fm(r.thread, name);
        EscapedWins(fm, cands, name, k, r);
      }
    }
  }

  lemma EscapedWins(fm: (string, string) -> bool, cands: seq<Rule>, name: string, k: nat, r: Rule)
    requires Fnmatch(fm) && ShortThreads(cands) && name != "" && Literal(name)
    requires k < |cands| && cands[k].thread == name
    requires r in cands && Literal(r.thread) && r.thread != name && r.thread != "" && fm(r.thread, name)
    ensures Scan(fm, cands, name) != Some(cands[k])
  {
    FirstMaxMeaning(fm, cands, ForThread(name));
    assert Wanted(fm, r, ForThread(name));
    assert |r.thread| > |name|;
    var j: nat :| j < |cands| && IsFirstMax(fm, cands, ForThread(name), j)
                  && FirstMax(fm, cands, ForThread(name)).value == cands[j];
    var i :| 0 <= i < |cands| && cands[i] == r;
    assert Priority(cands[i]) <= Priority(cands[j]);
  }

  /**
   * The cache answers as the plain scan would exactly when it has no answer, or no escaped literal
   * interferes with the name.
   */
  lemma CacheAgrees(fm: (string, string) -> bool, rules: seq<Rule>, pkg: string, name: string)
    requires Fnmatch(fm) && ShortThreads(rules)
    ensures var cands := Candidates(fm, rules, pkg);
            FindBest(fm, rules, pkg, name) == Scan(fm, cands, name)
            <==> (name == "" || name !in CacheOf(Exact(rules, pkg)) || NotEscaped(fm, cands, name))
  {
    var exact := Exact(rules, pkg);
    var cands := Candidates(fm, rules, pkg);
    if name != "" && name in CacheOf(exact) {
      CacheMeaning(exact, name);
      var k: nat :| k < |exact| && exact[k] == CacheOf(exact)[name] && exact[k].thread == name
                    && forall i :: 0 <= i < k ==> exact[i].thread != name;
      assert forall i :: 0 <= i <= k ==> cands[i] == exact[i];
      CandidatesLoaded(fm, rules, pkg);
      MatchingLoaded(fm, Globs(rules), pkg);
      CachedIsFirstMax(fm, cands, name, k);
      if NotEscaped(fm, cands, name) {
        FirstMaxUnique(fm, cands, ForThread(name), k);
      }
    }
  }

  /** So with no backslash in any thread name the cache never changes an answer. */
  lemma NoBackslashAgrees(fm: (string, string) -> bool, rules: seq<Rule>, pkg: string, name: string)
    requires Fnmatch(fm) && ShortThreads(rules) && forall r :: r in rules ==> '\\' !in r.thread
    ensures FindBest(fm, rules, pkg, name) == Scan(fm, Candidates(fm, rules, pkg), name)
  {
    CandidatesLoaded(fm, rules, pkg);
    MatchingLoaded(fm, Globs(rules), pkg);
    CacheMeaning(Exact(rules, pkg), name);
    CacheAgrees(fm, rules, pkg, name);
  }

  /** With such a matcher a backslash changes answers: a\b outranks the name ab only in the scan. */
  lemma BackslashDisagrees(bracket: (string, string) -> bool, keepLast: bool)
    ensures var fm := (p, s) => Glob(bracket, keepLast, p, s);
            var rules := [Rule("p", "a\\b", 1), Rule("p", "ab", 2)];
            FindBest(fm, rules, "p", "ab") != Scan(fm, Candidates(fm, rules, "p"), "ab")
  {
    GlobIsFnmatch(bracket, keepLast);
    EscapedMatches(bracket, keepLast);
    hide FindBest, Scan, Candidates, Glob, Fnmatch;
    EscapeDisagrees((p, s) => Glob(bracket, keepLast, p, s));
  }

  lemma EscapeDisagrees(fm: (string, string) -> bool)
    requires Fnmatch(fm) && fm("a\\b", "ab")
    ensures var rules := [Rule("p", "a\\b", 1), Rule("p", "ab", 2)];
            FindBest(fm, rules, "p", "ab") != Scan(fm, Candidates(fm, rules, "p"), "ab")
  {
    hide FindBest, Scan, Globs, MatchingGlobs, Glob, Unescaped;
    var one, two := Rule("p", "a\\b", 1), Rule("p", "ab", 2);
    var rules := [one, two];
    assert rules[..1] == [one] && [one][..0] == [];
    assert Exact([one], "p") == [one];
    assert Exact(rules, "p") == [two, one];
    CacheMeaning(Exact(rules, "p"), "ab");
    assert two in Exact(rules, "p");
    assert one in Candidates(fm, rules, "p");
    CacheAgrees(fm, rules, "p", "ab");
  }

  // ---- Ties ----

  predicate LinesIncrease(rules: seq<Rule>) {
    forall i, j :: 0 <= i < j < |rules| ==> rules[i].line < rules[j].line
  }

  predicate LinesDecrease(rules: seq<Rule>) {
    forall i, j :: 0 <= i < j < |rules| ==> rules[i].line > rules[j].line
  }

  lemma EarlierLines(rules: seq<Rule>, n: nat)
    requires LinesIncrease(rules) && n < |rules|
    ensures forall r :: r in rules[..n] ==> r.line < rules[n].line
  {
  }

  lemma {:induction false} ListOrder(rules: seq<Rule>, pkg: string)
    requires LinesIncrease(rules)
    ensures LinesDecrease(Exact(rules, pkg)) && LinesIncrease(Globs(rules))
  {
    if rules != [] {
      var n := |rules| - 1;
      ListOrder(rules[..n], pkg);
      CandidatesLoaded((p, s) => true, rules[..n], pkg);
      EarlierLines(rules, n);
      ListStep(rules, pkg);
      hide Exact, Globs;
      var exact, globs := Exact(rules[..n], pkg), Globs(rules[..n]);
      forall i | 0 <= i < |exact| ensures exact[i].line < rules[n].line {
        assert exact[i] in exact;
      }
      forall i | 0 <= i < |globs| ensures globs[i].line < rules[n].line {
        assert globs[i] in globs;
      }
    }
  }

  lemma ListStep(rules: seq<Rule>, pkg: string)
    requires rules != []
    ensures var n := |rules| - 1;
            && Exact(rules, pkg)
               == (if Literal(rules[n].pkg) && rules[n].pkg == pkg then [rules[n]] else []) + Exact(rules[..n], pkg)
            && Globs(rules) == Globs(rules[..n]) + (if Literal(rules[n].pkg) then [] else [rules[n]])
  {
  }

  /** The scan's rule is at least as good as the wanted one at i, and stands no later if equally good. */
  lemma FirstMaxAgainst(fm: (string, string) -> bool, rules: seq<Rule>, want: Want, i: nat) returns (k: nat)
    requires i < |rules| && Wanted(fm, rules[i], want)
    ensures k < |rules| && FirstMax(fm, rules, want) == Some(rules[k])
    ensures Priority(rules[k]) >= Priority(rules[i]) && (Priority(rules[k]) == Priority(rules[i]) ==> k <= i)
  {
    hide FirstMax, Wanted, PatternPriority;
    FirstMaxMeaning(fm, rules, want);
    assert rules[i] in rules;
    k :| k < |rules| && IsFirstMax(fm, rules, want, k) && FirstMax(fm, rules, want).value == rules[k];
  }

  lemma TieInFirst(fm: (string, string) -> bool, a: seq<Rule>, b: seq<Rule>, want: Want, r: Rule)
    requires LinesDecrease(a) && r in a && Wanted(fm, r, want)
    ensures var best := FirstMax(fm, a + b, want);
            best.Some? && Priority(best.value) >= Priority(r)
            && (Priority(best.value) == Priority(r) ==> best.value in a && best.value.line >= r.line)
  {
    hide FirstMax, Wanted, PatternPriority;
    var i :| 0 <= i < |a| && a[i] == r;
    assert (a + b)[i] == r;
    var k := FirstMaxAgainst(fm, a + b, want, i);
    assert k <= i ==> (a + b)[k] == a[k];
  }

  lemma TieInSecond(fm: (string, string) -> bool, a: seq<Rule>, b: seq<Rule>, want: Want, r: Rule)
    requires LinesIncrease(b) && r in b && Wanted(fm, r, want)
    ensures var best := FirstMax(fm, a + b, want);
            best.Some? && Priority(best.value) >= Priority(r)
            && (Priority(best.value) == Priority(r) && best.value !in a ==>
                  best.value in b && best.value.line <= r.line)
  {
    hide FirstMax, Wanted, PatternPriority;
    var i :| 0 <= i < |b| && b[i] == r;
    assert (a + b)[|a| + i] == r;
    var k := FirstMaxAgainst(fm, a + b, want, |a| + i);
    if k < |a| {
      assert (a + b)[k] == a[k];
    } else {
      assert (a + b)[k] == b[k - |a|];
    }
  }

  /**
   * Of equally good rules for the exact package the scan takes the one of the latest line, and it
   * never takes a pattern package's rule over an equally good one for the exact package.
   */
  lemma TiesExact(fm: (string, string) -> bool, rules: seq<Rule>, pkg: string, want: Want, r: Rule)
    requires LinesIncrease(rules) && r in Exact(rules, pkg) && Wanted(fm, r, want)
    ensures var best := FirstMax(fm, Candidates(fm, rules, pkg), want);
            best.Some? && Priority(best.value) >= Priority(r)
            && (Priority(best.value) == Priority(r) ==> best.value in Exact(rules, pkg) && best.value.line >= r.line)
  {
    ListOrder(rules, pkg);
    TieInFirst(fm, Exact(rules, pkg), MatchingGlobs(fm, Globs(rules), pkg), want, r);
  }

  lemma {:induction false} MatchingOrder(fm: (string, string) -> bool, globs: seq<Rule>, pkg: string)
    requires LinesIncrease(globs)
    ensures LinesIncrease(MatchingGlobs(fm, globs, pkg))
  {
    if globs != [] {
      var n := |globs| - 1;
      MatchingOrder(fm, globs[..n], pkg);
      MatchingLoaded(fm, globs[..n], pkg);
      EarlierLines(globs, n);
      var m := MatchingGlobs(fm, globs[..n], pkg);
      forall i | 0 <= i < |m| ensures m[i].line < globs[n].line {
        assert m[i] in m;
      }
    }
  }

  /** Of equally good rules for package patterns the scan takes the one of the earliest line. */
  lemma TiesGlob(fm: (string, string) -> bool, rules: seq<Rule>, pkg: string, want: Want, r: Rule)
    requires LinesIncrease(rules) && r in MatchingGlobs(fm, Globs(rules), pkg) && Wanted(fm, r, want)
    ensures var best := FirstMax(fm, Candidates(fm, rules, pkg), want);
            best.Some? && Priority(best.value) >= Priority(r)
            && (Priority(best.value) == Priority(r) && best.value !in Exact(rules, pkg) ==> best.value.line <= r.line)
  {
    ListOrder(rules, pkg);
    MatchingOrder(fm, Globs(rules), pkg);
    TieInSecond(fm, Exact(rules, pkg), MatchingGlobs(fm, Globs(rules), pkg), want, r);
  }

  // ---- The rule set as the program builds and searches it ----

  lemma LoadedOne(rules: seq<Rule>, r: Rule)
    ensures Globs(rules + [r]) == Globs(rules) + (if Literal(r.pkg) then [] else [r])
    ensures forall p ::
              Exact(rules + [r], p) == (if Literal(r.pkg) && r.pkg == p then [r] else []) + Exact(rules, p)
  {
    assert (rules + [r])[..|rules|] == rules;
  }

  class RuleSet {
    const fm: (string, string) -> bool
    /** Each exact package's list. */
    var pkgRules: map<string, seq<Rule>>
    var wildcardRules: seq<Rule>
    var threadCache: map<string, map<string, Rule>>
    ghost var loaded: seq<Rule>

    constructor (fm: (string, string) -> bool)
      ensures this.fm == fm && loaded == [] && Built() && threadCache == map[]
    {
      this.fm := fm;
      pkgRules, wildcardRules, threadCache, loaded := map[], [], map[], [];
    }

    /** The lists are those of the rules loaded so far. */
    ghost predicate Built()
      reads this
    {
      && wildcardRules == Globs(loaded)
      && (forall p :: p in pkgRules ==> pkgRules[p] == Exact(loaded, p))
      && (forall p :: p !in pkgRules ==> Exact(loaded, p) == [])
    }

    /** And every package has the cache of its list. */
    ghost predicate Cached()
      reads this
    {
      threadCache.Keys == pkgRules.Keys && forall p :: p in pkgRules ==> threadCache[p] == CacheOf(pkgRules[p])
    }

    /** The part of load_config that files one valid rule. */
    method AddRule(r: Rule)
      requires Built()
      modifies this
      ensures Built() && loaded == old(loaded) + [r]
    {
      ghost var more := loaded + [r];
      LoadedOne(loaded, r);
      hide Exact, Globs;
      if Literal(r.pkg) {
        var list := if r.pkg in pkgRules then pkgRules[r.pkg] else [];
        pkgRules := pkgRules[r.pkg := [r] + list];
      } else {
        wildcardRules := wildcardRules + [r];
      }
      loaded := more;
    }

    /** build_thread_cache for one list. */
    method CacheList(rules: seq<Rule>) returns (cache: map<string, Rule>)
      ensures cache == CacheOf(rules)
    {
      cache := map[];
      var i := 0;
      while i < |rules|
        invariant 0 <= i <= |rules| && cache == CacheOf(rules[..i])
      {
        assert rules[..i + 1][..i] == rules[..i];
        var r := rules[i];
        if r.thread != "" && Literal(r.thread) {
          if r.thread !in cache {
            cache := cache[r.thread := r];
          }
        }
        i := i + 1;
      }
      assert rules[..i] == rules;
    }

    method BuildThreadCache()
      requires Built()
      modifies this`threadCache
      ensures Built() && Cached()
    {
      threadCache := map[];
      var todo := pkgRules.Keys;
      while todo != {}
        invariant todo <= pkgRules.Keys && threadCache.Keys == pkgRules.Keys - todo
        invariant forall p :: p in threadCache ==> threadCache[p] == CacheOf(pkgRules[p])
        invariant Built()
        decreases |todo|
      {
        var p :| p in todo;
        var cache := CacheList(pkgRules[p]);
        threadCache := threadCache[p := cache];
        todo := todo - {p};
      }
    }

    /** calculate_rule_priority. */
    method RulePriority(pattern: string) returns (priority: int)
      ensures priority == PatternPriority(pattern)
    {
      if pattern == "" {
        return 200;
      }
      if Literal(pattern) {
        return 1000 + |pattern|;
      }
      hide PlainChars;
      var plain, range, single, star := 0, false, false, false;
      CharsNothing();
      var i := 0;
      while i < |pattern|
        invariant 0 <= i <= |pattern| && plain == PlainChars(pattern[..i])
        invariant range == ('[' in pattern[..i]) && single == ('?' in pattern[..i]) && star == ('*' in pattern[..i])
      {
        CharsStep(pattern, i);
        if pattern[i] == '[' {
          range := true;
        } else if pattern[i] == '?' {
          single := true;
        } else if pattern[i] == '*' {
          star := true;
        } else {
          plain := plain + 1;
        }
        i := i + 1;
      }
      assert pattern[..i] == pattern;
      if range {
        return 500 + plain;
      } else if single {
        return 300 + plain;
      } else if star {
        return 100 + plain;
      }
      return 200;
    }

    /** One rule of either loop of find_best_rule, whose priority was calculated when it was loaded. */
    method Consider(r: Rule, name: string, best: Option<Rule>, fallback: Option<Rule>, ghost seen: seq<Rule>)
      returns (best': Option<Rule>, fallback': Option<Rule>)
      requires best == FirstMax(fm, seen, ForThread(name)) && fallback == FirstMax(fm, seen, ForPackage)
      ensures best' == FirstMax(fm, seen + [r], ForThread(name)) && fallback' == FirstMax(fm, seen + [r], ForPackage)
    {
      assert (seen + [r])[..|seen|] == seen;
      best', fallback' := best, fallback;
      if r.thread != "" {
        if name != "" {
          if fm(r.thread, name) {
            if best.None? || Priority(r) > Priority(best.value) {
              best' := Some(r);
            }
          }
        }
      } else {
        if fallback.None? || Priority(r) > Priority(fallback.value) {
          fallback' := Some(r);
        }
      }
    }

    /** find_best_rule. */
    method FindBestRule(pkg: string, name: string) returns (rule: Option<Rule>)
      requires Built() && Cached()
      ensures rule == FindBest(fm, loaded, pkg, name)
    {
      hide FirstMax, CacheOf;
      var best: Option<Rule>, fallback: Option<Rule> := None, None;
      NothingSeen(fm, name);
      ghost var exact := Exact(loaded, pkg);
      EmptyCache();
      if pkg in pkgRules {
        if name != "" {
          if name in threadCache[pkg] {
            return Some(threadCache[pkg][name]);
          }
        }
        var list := pkgRules[pkg];
        var i := 0;
        while i < |list|
          invariant 0 <= i <= |list|
          invariant best == FirstMax(fm, list[..i], ForThread(name)) && fallback == FirstMax(fm, list[..i], ForPackage)
        {
          best, fallback := Consider(list[i], name, best, fallback, list[..i]);
          assert list[..i + 1] == list[..i] + [list[i]];
          i := i + 1;
        }
        assert list[..i] == list;
      }
      var n := 0;
      assert exact + [] == exact;
      GlobsNothing(fm, pkg);
      while n < |wildcardRules|
        invariant 0 <= n <= |wildcardRules|
        invariant best == FirstMax(fm, exact + MatchingGlobs(fm, wildcardRules[..n], pkg), ForThread(name))
        invariant fallback == FirstMax(fm, exact + MatchingGlobs(fm, wildcardRules[..n], pkg), ForPackage)
      {
        var r := wildcardRules[n];
        ghost var seen := MatchingGlobs(fm, wildcardRules[..n], pkg);
        GlobsStep(fm, wildcardRules, n, pkg);
        if fm(r.pkg, pkg) {
          best, fallback := Consider(r, name, best, fallback, exact + seen);
          assert exact + seen + [r] == exact + (seen + [r]);
        } else {
          assert seen + [] == seen;
        }
        n := n + 1;
      }
      assert wildcardRules[..n] == wildcardRules;
      rule := if best.Some? then best else fallback;
    }
  }

  lemma NothingSeen(fm: (string, string) -> bool, name: string)
    ensures FirstMax(fm, [], ForThread(name)) == None && FirstMax(fm, [], ForPackage) == None
  {
  }

  lemma CharsNothing()
    ensures PlainChars("") == 0
  {
  }

  lemma CharsStep(s: string, i: nat)
    requires i < |s|
    ensures PlainChars(s[..i + 1]) == PlainChars(s[..i]) + (if s[i] in ['[', '?', '*'] then 0 else 1)
    ensures forall c :: c in s[..i + 1] <==> c in s[..i] || c == s[i]
  {
    assert s[..i + 1] == s[..i] + [s[i]];
    assert s[..i + 1][..i] == s[..i];
  }

  lemma EmptyCache()
    ensures CacheOf([]) == map[]
  {
  }

  lemma GlobsNothing(fm: (string, string) -> bool, pkg: string)
    ensures MatchingGlobs(fm, [], pkg) == []
  {
  }

  lemma GlobsStep(fm: (string, string) -> bool, globs: seq<Rule>, n: nat, pkg: string)
    requires n < |globs|
    ensures MatchingGlobs(fm, globs[..n + 1], pkg)
         == MatchingGlobs(fm, globs[..n], pkg) + (if fm(globs[n].pkg, pkg) then [globs[n]] else [])
  {
    assert globs[..n + 1][..n] == globs[..n];
  }
}
