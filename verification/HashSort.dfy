/** HASH_SRT: the bottom-up, in-place, stable merge sort of the application-order list. */
module HashSort {
  import opened UtHash

  type Cmp = (Item, Item) -> int

  // ---- The sort on sequences ----

  ghost function Take(s: seq<Item>, k: nat): seq<Item> {
    if |s| <= k then s else s[..k]
  }

  ghost function Drop(s: seq<Item>, k: nat): seq<Item> {
    if |s| <= k then [] else s[k..]
  }

  ghost function Merge(cmp: Cmp, p: seq<Item>, q: seq<Item>): (r: seq<Item>)
    ensures |r| == |p| + |q|
    decreases |p| + |q|
  {
    if p == [] then q
    else if q == [] then p
    else if cmp(p[0], q[0]) <= 0 then [p[0]] + Merge(cmp, p[1..], q)
    else [q[0]] + Merge(cmp, p, q[1..])
  }

  /** One pass: merges neighbouring runs of length k. */
  ghost function MergeRuns(cmp: Cmp, s: seq<Item>, k: nat): (r: seq<Item>)
    requires k >= 1
    ensures |r| == |s|
    decreases |s|
  {
    if s == [] then []
    else Merge(cmp, Take(s, k), Take(Drop(s, k), k)) + MergeRuns(cmp, Drop(Drop(s, k), k), k)
  }

  ghost function SortFrom(cmp: Cmp, s: seq<Item>, k: nat): (r: seq<Item>)
    requires k >= 1
    ensures |r| == |s|
    decreases |s| - k
  {
    var t := MergeRuns(cmp, s, k);
    if |s| <= 2 * k then t else SortFrom(cmp, t, 2 * k)
  }

  ghost function MergeSort(cmp: Cmp, s: seq<Item>): seq<Item> {
    SortFrom(cmp, s, 1)
  }

  // ---- What the sort promises ----

  /** cmp orders the items as a total preorder. */
  ghost predicate PreorderOn(cmp: Cmp, items: set<Item>) {
    && (forall x, y {:trigger cmp(x, y)} :: x in items && y in items ==> cmp(x, y) <= 0 || cmp(y, x) <= 0)
    && (forall x, y, z {:trigger cmp(x, y), cmp(y, z)} ::
          x in items && y in items && z in items && cmp(x, y) <= 0 && cmp(y, z) <= 0 ==> cmp(x, z) <= 0)
  }

  ghost predicate Sorted(cmp: Cmp, s: seq<Item>) {
    s == [] || ((forall x :: x in s[1..] ==> cmp(s[0], x) <= 0) && Sorted(cmp, s[1..]))
  }

  ghost predicate Equivalent(cmp: Cmp, x: Item, y: Item) {
    cmp(x, y) <= 0 && cmp(y, x) <= 0
  }

  /** The items of s that compare equal to x, in the order s has them. */
  ghost function Equals(cmp: Cmp, s: seq<Item>, x: Item): seq<Item> {
    if s == [] then []
    else (if Equivalent(cmp, s[0], x) then [s[0]] else []) + Equals(cmp, s[1..], x)
  }

  lemma {:induction false} EqualsConcat(cmp: Cmp, s: seq<Item>, t: seq<Item>, x: Item)
    ensures Equals(cmp, s + t, x) == Equals(cmp, s, x) + Equals(cmp, t, x)
    decreases |s|
  {
    if s == [] {
      assert s + t == t;
    } else {
      assert (s + t)[1..] == s[1..] + t;
      EqualsConcat(cmp, s[1..], t, x);
    }
  }

  lemma {:induction false} NoEquals(cmp: Cmp, s: seq<Item>, x: Item)
    requires forall y :: y in s ==> !Equivalent(cmp, y, x)
    ensures Equals(cmp, s, x) == []
    decreases |s|
  {
    if s != [] {
      assert s[0] in s && forall y :: y in s[1..] ==> y in s;
      NoEquals(cmp, s[1..], x);
    }
  }

  lemma HeadTail(s: seq<Item>)
    requires s != []
    ensures s == [s[0]] + s[1..]
    ensures multiset(s) == multiset{s[0]} + multiset(s[1..])
    ensures forall x :: x in s <==> x == s[0] || x in s[1..]
  {
    assert s == [s[0]] + s[1..];
  }

  lemma {:induction false} MergeMembers(cmp: Cmp, p: seq<Item>, q: seq<Item>)
    ensures multiset(Merge(cmp, p, q)) == multiset(p) + multiset(q)
    ensures forall x :: x in Merge(cmp, p, q) <==> x in p || x in q
    decreases |p| + |q|
  {
    if p != [] && q != [] {
      HeadTail(p);
      HeadTail(q);
      if cmp(p[0], q[0]) <= 0 {
        MergeMembers(cmp, p[1..], q);
      } else {
        MergeMembers(cmp, p, q[1..]);
      }
    }
  }

  ghost predicate LeastOf(cmp: Cmp, x: Item, s: seq<Item>) {
    forall y :: y in s ==> cmp(x, y) <= 0
  }

  lemma SortedCons(cmp: Cmp, x: Item, s: seq<Item>)
    requires LeastOf(cmp, x, s) && Sorted(cmp, s)
    ensures Sorted(cmp, [x] + s)
  {
    assert ([x] + s)[1..] == s;
  }

  /** What is below the head of a sorted sequence is below all of it. */
  lemma BelowHead(cmp: Cmp, x: Item, s: seq<Item>, items: set<Item>)
    requires PreorderOn(cmp, items) && Sorted(cmp, s) && s != []
    requires x in items && Members(s) <= items && cmp(x, s[0]) <= 0
    ensures LeastOf(cmp, x, s)
  {
    forall y | y in s
      ensures cmp(x, y) <= 0
    {
      HeadTail(s);
      assert y in Members(s) && s[0] in Members(s);
      assert y != s[0] ==> cmp(s[0], y) <= 0;
    }
  }

  lemma Totality(cmp: Cmp, x: Item, y: Item, items: set<Item>)
    requires PreorderOn(cmp, items) && x in items && y in items && cmp(x, y) > 0
    ensures cmp(y, x) <= 0
  {
  }

  lemma TailMembers(s: seq<Item>)
    requires s != []
    ensures s[0] in Members(s) && Members(s[1..]) <= Members(s)
  {
  }

  lemma LeastOfMerge(cmp: Cmp, x: Item, p: seq<Item>, q: seq<Item>)
    requires LeastOf(cmp, x, p) && LeastOf(cmp, x, q)
    ensures LeastOf(cmp, x, Merge(cmp, p, q))
  {
    MergeMembers(cmp, p, q);
  }

  lemma {:induction false} MergeSorts(cmp: Cmp, p: seq<Item>, q: seq<Item>, items: set<Item>)
    requires PreorderOn(cmp, items) && Sorted(cmp, p) && Sorted(cmp, q)
    requires Members(p) <= items && Members(q) <= items
    ensures Sorted(cmp, Merge(cmp, p, q))
    decreases |p| + |q|
  {
    if p != [] && q != [] {
      TailMembers(p);
      TailMembers(q);
      if cmp(p[0], q[0]) <= 0 {
        MergeSorts(cmp, p[1..], q, items);
        BelowHead(cmp, p[0], q, items);
        LeastOfMerge(cmp, p[0], p[1..], q);
        SortedCons(cmp, p[0], Merge(cmp, p[1..], q));
      } else {
        MergeSorts(cmp, p, q[1..], items);
        Totality(cmp, p[0], q[0], items);
        BelowHead(cmp, q[0], p, items);
        LeastOfMerge(cmp, q[0], p, q[1..]);
        SortedCons(cmp, q[0], Merge(cmp, p, q[1..]));
      }
    }
  }

  /** Nothing in a sorted sequence compares equal to x when its head is greater than an equal of x. */
  lemma GreaterHead(cmp: Cmp, p: seq<Item>, y: Item, x: Item, items: set<Item>)
    requires PreorderOn(cmp, items) && Sorted(cmp, p) && p != []
    requires Members(p) <= items && x in items && y in items
    requires cmp(p[0], y) > 0 && Equivalent(cmp, y, x)
    ensures Equals(cmp, p, x) == []
  {
    forall z | z in p
      ensures !Equivalent(cmp, z, x)
    {
      HeadTail(p);
      assert z in Members(p) && p[0] in Members(p);
      assert z == p[0] || cmp(p[0], z) <= 0;
    }
    NoEquals(cmp, p, x);
  }

  lemma EqualsCons(cmp: Cmp, h: Item, t: seq<Item>, x: Item)
    ensures Equals(cmp, [h] + t, x) == Equals(cmp, [h], x) + Equals(cmp, t, x)
  {
    EqualsConcat(cmp, [h], t, x);
  }

  lemma EqualsHead(cmp: Cmp, s: seq<Item>, x: Item)
    requires s != []
    ensures Equals(cmp, s, x) == Equals(cmp, [s[0]], x) + Equals(cmp, s[1..], x)
  {
    assert s == [s[0]] + s[1..];
    EqualsConcat(cmp, [s[0]], s[1..], x);
  }

  lemma Assoc(a: seq<Item>, b: seq<Item>, c: seq<Item>)
    ensures a + (b + c) == (a + b) + c
  {
  }

  lemma StableStepP(cmp: Cmp, p: seq<Item>, q: seq<Item>, x: Item)
    requires p != [] && q != [] && cmp(p[0], q[0]) <= 0
    requires Equals(cmp, Merge(cmp, p[1..], q), x) == Equals(cmp, p[1..], x) + Equals(cmp, q, x)
    ensures Equals(cmp, Merge(cmp, p, q), x) == Equals(cmp, p, x) + Equals(cmp, q, x)
  {
    EqualsCons(cmp, p[0], Merge(cmp, p[1..], q), x);
    EqualsHead(cmp, p, x);
    Assoc(Equals(cmp, [p[0]], x), Equals(cmp, p[1..], x), Equals(cmp, q, x));
  }

  lemma StableStepQ(cmp: Cmp, p: seq<Item>, q: seq<Item>, x: Item)
    requires p != [] && q != [] && cmp(p[0], q[0]) > 0
    requires Equals(cmp, Merge(cmp, p, q[1..]), x) == Equals(cmp, p, x) + Equals(cmp, q[1..], x)
    requires Equivalent(cmp, q[0], x) ==> Equals(cmp, p, x) == []
    ensures Equals(cmp, Merge(cmp, p, q), x) == Equals(cmp, p, x) + Equals(cmp, q, x)
  {
    EqualsCons(cmp, q[0], Merge(cmp, p, q[1..]), x);
    EqualsHead(cmp, q, x);
    SwapEmpty(Equals(cmp, [q[0]], x), Equals(cmp, p, x), Equals(cmp, q[1..], x));
  }

  lemma SwapEmpty(a: seq<Item>, b: seq<Item>, c: seq<Item>)
    requires a == [] || b == []
    ensures a + (b + c) == b + (a + c)
  {
  }

  lemma {:induction false} MergeStable(cmp: Cmp, p: seq<Item>, q: seq<Item>, items: set<Item>, x: Item)
    requires PreorderOn(cmp, items) && Sorted(cmp, p) && x in items
    requires Members(p) <= items && Members(q) <= items
    ensures Equals(cmp, Merge(cmp, p, q), x) == Equals(cmp, p, x) + Equals(cmp, q, x)
    decreases |p| + |q|
  {
    if p != [] && q != [] {
      TailMembers(p);
      TailMembers(q);
      if cmp(p[0], q[0]) <= 0 {
        MergeStable(cmp, p[1..], q, items, x);
        StableStepP(cmp, p, q, x);
      } else {
        MergeStable(cmp, p, q[1..], items, x);
        if Equivalent(cmp, q[0], x) {
          GreaterHead(cmp, p, q[0], x, items);
        }
        StableStepQ(cmp, p, q, x);
      }
    }
  }

  ghost predicate RunsSorted(cmp: Cmp, s: seq<Item>, k: nat)
    requires k >= 1
    decreases |s|
  {
    s == [] || (Sorted(cmp, Take(s, k)) && RunsSorted(cmp, Drop(s, k), k))
  }

  lemma {:induction false} SingletonRuns(cmp: Cmp, s: seq<Item>)
    ensures RunsSorted(cmp, s, 1)
    decreases |s|
  {
    if s != [] {
      SingletonRuns(cmp, Drop(s, 1));
    }
  }

  lemma SplitRuns(s: seq<Item>, k: nat)
    ensures
      var p, r := Take(s, k), Drop(s, k);
      var q, rest := Take(r, k), Drop(r, k);
      && s == p + (q + rest)
      && Members(p) <= Members(s) && Members(q) <= Members(s) && Members(rest) <= Members(s)
      && (rest != [] ==> |p| == |q| == k)
      && |p| + |q| <= 2 * k
  {
  }

  lemma EqualsThree(cmp: Cmp, p: seq<Item>, q: seq<Item>, rest: seq<Item>, x: Item)
    ensures Equals(cmp, p + (q + rest), x) == (Equals(cmp, p, x) + Equals(cmp, q, x)) + Equals(cmp, rest, x)
    ensures multiset(p + (q + rest)) == (multiset(p) + multiset(q)) + multiset(rest)
  {
    EqualsConcat(cmp, p, q + rest, x);
    EqualsConcat(cmp, q, rest, x);
    Assoc(Equals(cmp, p, x), Equals(cmp, q, x), Equals(cmp, rest, x));
  }

  /** A pass keeps the items, and keeps items that compare equal in order. */
  lemma {:induction false} PassKeeps(cmp: Cmp, s: seq<Item>, k: nat, items: set<Item>, x: Item)
    requires k >= 1 && PreorderOn(cmp, items) && Members(s) <= items && x in items
    requires RunsSorted(cmp, s, k)
    ensures Equals(cmp, MergeRuns(cmp, s, k), x) == Equals(cmp, s, x)
    ensures multiset(MergeRuns(cmp, s, k)) == multiset(s)
    decreases |s|
  {
    if s != [] {
      SplitRuns(s, k);
      var p, r := Take(s, k), Drop(s, k);
      var q, rest := Take(r, k), Drop(r, k);
      PassKeeps(cmp, rest, k, items, x);
      MergeMembers(cmp, p, q);
      MergeStable(cmp, p, q, items, x);
      EqualsConcat(cmp, Merge(cmp, p, q), MergeRuns(cmp, rest, k), x);
      EqualsThree(cmp, p, q, rest, x);
    }
  }

  /** A pass over sorted runs of length k leaves sorted runs of length 2k. */
  lemma {:induction false} PassSorts(cmp: Cmp, s: seq<Item>, k: nat, items: set<Item>)
    requires k >= 1 && PreorderOn(cmp, items) && Members(s) <= items
    requires RunsSorted(cmp, s, k)
    ensures RunsSorted(cmp, MergeRuns(cmp, s, k), 2 * k)
    decreases |s|
  {
    if s != [] {
      SplitRuns(s, k);
      var p, r := Take(s, k), Drop(s, k);
      var q, rest := Take(r, k), Drop(r, k);
      PassSorts(cmp, rest, k, items);
      MergeSorts(cmp, p, q, items);
      JoinRuns(cmp, Merge(cmp, p, q), MergeRuns(cmp, rest, k), 2 * k);
    }
  }

  lemma JoinRuns(cmp: Cmp, m: seq<Item>, t: seq<Item>, k: nat)
    requires k >= 1 && Sorted(cmp, m) && RunsSorted(cmp, t, k)
    requires |m| <= k && (t != [] ==> |m| == k)
    ensures RunsSorted(cmp, m + t, k)
  {
    assert Take(m + t, k) == m && Drop(m + t, k) == t;
  }

  lemma {:induction false} SortFromCorrect(cmp: Cmp, s: seq<Item>, k: nat, items: set<Item>, x: Item)
    requires k >= 1 && PreorderOn(cmp, items) && Members(s) <= items && x in items
    requires RunsSorted(cmp, s, k)
    ensures
      var t := SortFrom(cmp, s, k);
      && Sorted(cmp, t) && multiset(t) == multiset(s)
      && Equals(cmp, t, x) == Equals(cmp, s, x)
    decreases |s| - k
  {
    var t := MergeRuns(cmp, s, k);
    PassKeeps(cmp, s, k, items, x);
    PassSorts(cmp, s, k, items);
    if |s| > 2 * k {
      SameMembers(s, t);
      SortFromCorrect(cmp, t, 2 * k, items, x);
    }
  }

  lemma SameMembers(s: seq<Item>, t: seq<Item>)
    requires multiset(s) == multiset(t)
    ensures Members(s) == Members(t)
  {
    assert forall x :: x in s <==> x in multiset(s);
    assert forall x :: x in t <==> x in multiset(t);
  }

  /** The result is sorted, is a permutation, and keeps elements that compare equal in order. */
  lemma MergeSortCorrect(cmp: Cmp, s: seq<Item>)
    requires PreorderOn(cmp, Members(s))
    ensures
      var t := MergeSort(cmp, s);
      && Sorted(cmp, t) && multiset(t) == multiset(s)
      && (forall x :: x in s ==> Equals(cmp, t, x) == Equals(cmp, s, x))
  {
    SingletonRuns(cmp, s);
    if s != [] {
      SortFromCorrect(cmp, s, 1, Members(s), s[0]);
    }
    forall x | x in s
      ensures Equals(cmp, MergeSort(cmp, s), x) == Equals(cmp, s, x)
    {
      SortFromCorrect(cmp, s, 1, Members(s), x);
    }
  }

  lemma InorderTail(cmp: Cmp, s: seq<Item>, add: Item, k: nat)
    requires InorderPosition(cmp, s, add, k) && k > 0
    ensures cmp(s[0], add) <= 0 && InorderPosition(cmp, s[1..], add, k - 1)
    ensures Inserted(s, k, add) == [s[0]] + Inserted(s[1..], k - 1, add)
  {
  }

  /** A list that is sorted stays sorted when add goes in front of the first greater element. */
  lemma {:induction false} InorderKeepsSorted(cmp: Cmp, s: seq<Item>, add: Item, k: nat, items: set<Item>)
    requires PreorderOn(cmp, items) && Members(s) <= items && add in items
    requires Sorted(cmp, s) && InorderPosition(cmp, s, add, k)
    ensures Sorted(cmp, Inserted(s, k, add))
    decreases |s|
  {
    if k > 0 {
      InorderTail(cmp, s, add, k);
      TailMembers(s);
      InorderKeepsSorted(cmp, s[1..], add, k - 1, items);
      InsertedMembers(s[1..], k - 1, add);
      forall y | y in Inserted(s[1..], k - 1, add)
        ensures cmp(s[0], y) <= 0
      {
        assert y in Members(s[1..]) + {add};
      }
      SortedCons(cmp, s[0], Inserted(s[1..], k - 1, add));
    } else {
      if s != [] {
        TailMembers(s);
        Totality(cmp, s[0], add, items);
        BelowHead(cmp, add, s, items);
      }
      assert Inserted(s, 0, add) == [add] + s;
      SortedCons(cmp, add, s);
    }
  }

  lemma Reflexive(cmp: Cmp, x: Item, items: set<Item>)
    requires PreorderOn(cmp, items) && x in items
    ensures Equivalent(cmp, x, x)
  {
  }

  /** add lands after every element that compares equal to it. */
  lemma InorderAfterEquals(cmp: Cmp, s: seq<Item>, add: Item, k: nat, items: set<Item>)
    requires PreorderOn(cmp, items) && Members(s) <= items && add in items
    requires Sorted(cmp, s) && InorderPosition(cmp, s, add, k)
    ensures Equals(cmp, Inserted(s, k, add), add) == Equals(cmp, s, add) + [add]
  {
    hide Equals;
    Reflexive(cmp, add, items);
    EqualsNothing(cmp, add);
    assert Equals(cmp, s[k..], add) == [] by {
      if k < |s| {
        SortedSuffix(cmp, s, k);
        assert Members(s[k..]) <= Members(s);
        GreaterHead(cmp, s[k..], add, add, items);
      }
    }
    EqualsAround(cmp, s[..k], add, s[k..]);
    assert s == s[..k] + s[k..];
    EqualsConcat(cmp, s[..k], s[k..], add);
  }

  lemma EqualsNothing(cmp: Cmp, add: Item)
    ensures Equals(cmp, [], add) == []
  {
  }

  lemma EqualsAround(cmp: Cmp, low: seq<Item>, add: Item, high: seq<Item>)
    requires Equals(cmp, high, add) == [] && Equivalent(cmp, add, add)
    ensures Equals(cmp, low + [add] + high, add) == Equals(cmp, low, add) + [add]
  {
    EqualsConcat(cmp, low + [add], high, add);
    EqualsConcat(cmp, low, [add], add);
  }

  lemma {:induction false} SortedSuffix(cmp: Cmp, s: seq<Item>, k: nat)
    requires Sorted(cmp, s) && k <= |s|
    ensures Sorted(cmp, s[k..])
    decreases k
  {
    if k > 0 {
      SortedSuffix(cmp, s[1..], k - 1);
      assert s[1..][k - 1..] == s[k..];
    }
  }

  // ---- The sort on the links ----

  /** s is what following next from its first element visits. */
  ghost predicate NextLinked(s: seq<Item>)
    reads Members(s)`next
  {
    forall j {:trigger s[j].next} :: 0 <= j < |s| ==> s[j].next == After(s, j)
  }

  /** Following next from the first element visits s; where the last element leads does not matter. */
  ghost predicate RunLinked(s: seq<Item>)
    reads Members(s)`next
  {
    forall j {:trigger s[j].next} :: 0 <= j < |s| - 1 ==> s[j].next == s[j + 1]
  }

  ghost predicate PrevLinked(s: seq<Item>)
    reads Members(s)`prev
  {
    forall j {:trigger s[j].prev} :: 0 <= j < |s| ==> s[j].prev == Before(s, j)
  }

  /** The merged list so far. */
  ghost predicate Output(out: seq<Item>, list: Item?, tail: Item?)
    reads Members(out)`prev, Members(out)`next
  {
    && RunLinked(out) && PrevLinked(out) && Distinct(out)
    && list == First(out) && tail == Last(out)
  }

  lemma NextLinkedTail(s: seq<Item>)
    requires s != [] && NextLinked(s)
    ensures s[0].next == First(s[1..]) && NextLinked(s[1..])
  {
    assert s[0].next == After(s, 0);
    forall j {:trigger s[1..][j].next} | 0 <= j < |s| - 1
      ensures s[1..][j].next == After(s[1..], j)
    {
      assert s[j + 1].next == After(s, j + 1);
    }
  }

  lemma RunLinkedTail(s: seq<Item>)
    requires s != [] && RunLinked(s)
    ensures |s| > 1 ==> s[0].next == s[1]
    ensures RunLinked(s[1..])
  {
    forall j {:trigger s[1..][j].next} | 0 <= j < |s| - 2
      ensures s[1..][j].next == s[1..][j + 1]
    {
      assert s[j + 1].next == s[j + 2];
    }
  }

  /** Appends e to the merged list. */
  method Emit(e: Item, list: Item?, tail: Item?, ghost out: seq<Item>) returns (list': Item?, tail': Item?)
    requires Output(out, list, tail) && e !in out
    modifies Members(out)`next, e`prev
    ensures Output(out + [e], list', tail')
  {
    DistinctAppend(out, e);
    list' := list;
    if tail != null {
      assert out[|out| - 1] in out;
      OnlyLast(out);
      tail.next := e;
    } else {
      list' := e;
    }
    e.prev := tail;
    tail' := e;
  }

  lemma OnlyLast(s: seq<Item>)
    requires Distinct(s) && s != []
    ensures forall j :: 0 <= j < |s| - 1 ==> s[j] != s[|s| - 1]
  {
    DistinctApart(s);
  }

  /** The for loop of HASH_SRT: finds the run that follows the one at p. */
  method SkipRun(p: Item, insize: nat, ghost s: seq<Item>) returns (q: Item?, psize: nat)
    requires NextLinked(s) && p == First(s) && insize >= 1
    ensures psize == |Take(s, insize)| && q == First(Drop(s, insize))
  {
    q, psize := p, 0;
    var i := 0;
    while i < insize
      invariant psize == i <= insize && i <= |s|
      invariant q == First(Drop(s, i)) && (i < insize ==> i < |s|)
    {
      psize := psize + 1;
      assert q == s[i] && s[i].next == After(s, i);
      q := q.next;
      i := i + 1;
      if q == null {
        break;
      }
    }
  }

  /** The variables of one merge: p has psize items left, q at most qsize, and rest follows them. */
  ghost predicate Merging(p: Item?, psize: nat, q: Item?, qsize: nat, ps: seq<Item>, qs: seq<Item>, rest: seq<Item>)
    reads Members(ps)`next, Members(qs + rest)`next
  {
    && psize == |ps| && (ps != [] ==> p == ps[0])
    && |qs| <= qsize && (|qs| < qsize ==> rest == [])
    && q == First(qs + rest)
    && RunLinked(ps) && NextLinked(qs + rest)
    && Distinct(ps) && Distinct(qs + rest)
  }

  lemma QsEmpty(q: Item?, qsize: nat, qs: seq<Item>, rest: seq<Item>)
    requires |qs| <= qsize && (|qs| < qsize ==> rest == []) && q == First(qs + rest)
    ensures (qsize != 0 && q != null) <==> qs != []
  {
  }

  /** Takes the next item from the run at p. */
  method TakeP(p: Item?, psize: nat, q: Item?, qsize: nat, ghost ps: seq<Item>, ghost qs: seq<Item>,
               ghost rest: seq<Item>)
    returns (e: Item, p': Item?, psize': nat)
    requires Merging(p, psize, q, qsize, ps, qs, rest) && ps != []
    ensures e == ps[0] && Merging(p', psize', q, qsize, ps[1..], qs, rest)
  {
    RunLinkedTail(ps);
    DistinctTail(ps);
    e := p;
    p' := p.next;
    psize' := psize - 1;
  }

  /** Takes the next item from the run at q. */
  method TakeQ(p: Item?, psize: nat, q: Item?, qsize: nat, ghost ps: seq<Item>, ghost qs: seq<Item>,
               ghost rest: seq<Item>)
    returns (e: Item, q': Item?, qsize': nat)
    requires Merging(p, psize, q, qsize, ps, qs, rest) && qs != []
    ensures e == qs[0] && Merging(p, psize, q', qsize', ps, qs[1..], rest)
  {
    assert (qs + rest)[1..] == qs[1..] + rest && (qs + rest)[0] == qs[0];
    NextLinkedTail(qs + rest);
    DistinctTail(qs + rest);
    e := q;
    q' := q.next;
    qsize' := qsize - 1;
  }

  /** The items of the output and of the input are different, and together they are all items. */
  ghost predicate Separate(out: seq<Item>, ps: seq<Item>, qs: seq<Item>, rest: seq<Item>, items: set<Item>) {
    && Members(out) !! Members(ps)
    && Members(out) !! Members(qs + rest)
    && Members(ps) !! Members(qs + rest)
    && Members(qs + rest) == Members(qs) + Members(rest)
    && Members(out) + Members(ps) + Members(qs) == items
  }

  lemma SeparateP(out: seq<Item>, ps: seq<Item>, qs: seq<Item>, rest: seq<Item>, items: set<Item>)
    requires Separate(out, ps, qs, rest, items) && ps != [] && Distinct(ps)
    ensures Separate(out + [ps[0]], ps[1..], qs, rest, items) && ps[0] !in out && ps[0] in items
  {
    DistinctTail(ps);
    HeadTail(ps);
    assert Members(ps) == {ps[0]} + Members(ps[1..]);
    assert Members(out + [ps[0]]) == Members(out) + {ps[0]};
  }

  lemma SeparateQ(out: seq<Item>, ps: seq<Item>, qs: seq<Item>, rest: seq<Item>, items: set<Item>)
    requires Separate(out, ps, qs, rest, items) && qs != [] && Distinct(qs + rest)
    ensures Separate(out + [qs[0]], ps, qs[1..], rest, items) && qs[0] !in out && qs[0] in items
  {
    DistinctTail(qs + rest);
    assert (qs + rest)[1..] == qs[1..] + rest && (qs + rest)[0] == qs[0];
    HeadTail(qs);
    assert Members(qs) == {qs[0]} + Members(qs[1..]);
    assert Members(out + [qs[0]]) == Members(out) + {qs[0]};
    assert Members(qs[1..] + rest) == Members(qs[1..]) + Members(rest);
  }

  lemma MergeStepP(cmp: Cmp, out: seq<Item>, ps: seq<Item>, qs: seq<Item>)
    requires ps != [] && (qs == [] || cmp(ps[0], qs[0]) <= 0)
    ensures out + [ps[0]] + Merge(cmp, ps[1..], qs) == out + Merge(cmp, ps, qs)
  {
    assert ps == [ps[0]] + ps[1..];
  }

  lemma MergeStepQ(cmp: Cmp, out: seq<Item>, ps: seq<Item>, qs: seq<Item>)
    requires qs != [] && (ps == [] || cmp(ps[0], qs[0]) > 0)
    ensures out + [qs[0]] + Merge(cmp, ps, qs[1..]) == out + Merge(cmp, ps, qs)
  {
    assert qs == [qs[0]] + qs[1..];
  }

  /** Everything one merge holds between two steps. */
  ghost predicate MergeState(cmp: Cmp, p: Item?, psize: nat, q: Item?, qsize: nat, list: Item?, tail: Item?,
                             out: seq<Item>, ps: seq<Item>, qs: seq<Item>, rest: seq<Item>,
                             goal: seq<Item>, items: set<Item>)
    reads items`prev, items`next, Members(rest)`next
  {
    && Separate(out, ps, qs, rest, items)
    && out + Merge(cmp, ps, qs) == goal
    && Merging(p, psize, q, qsize, ps, qs, rest)
    && Output(out, list, tail)
  }

  /** Appends e to the output without touching what is still to be merged. */
  method EmitApart(e: Item, p: Item?, psize: nat, q: Item?, qsize: nat, list: Item?, tail: Item?,
                   ghost out: seq<Item>, ghost ps: seq<Item>, ghost qs: seq<Item>, ghost rest: seq<Item>,
                   ghost items: set<Item>)
    returns (list': Item?, tail': Item?)
    requires Separate(out + [e], ps, qs, rest, items) && e !in out && Members(out) <= items && e in items
    requires Merging(p, psize, q, qsize, ps, qs, rest) && Output(out, list, tail)
    modifies items`prev, items`next
    ensures Merging(p, psize, q, qsize, ps, qs, rest) && Output(out + [e], list', tail')
  {
    assert Members(out + [e]) == Members(out) + {e};
    list', tail' := Emit(e, list, tail, out);
  }

  /** Moves the head of the run at p to the output. */
  method StepP(cmp: Cmp, p: Item?, psize: nat, q: Item?, qsize: nat, list: Item?, tail: Item?,
               ghost out: seq<Item>, ghost ps: seq<Item>, ghost qs: seq<Item>, ghost rest: seq<Item>,
               ghost goal: seq<Item>, ghost items: set<Item>)
    returns (p': Item?, psize': nat, list': Item?, tail': Item?)
    requires MergeState(cmp, p, psize, q, qsize, list, tail, out, ps, qs, rest, goal, items)
    requires ps != [] && (qs == [] || cmp(ps[0], qs[0]) <= 0)
    modifies items`prev, items`next
    ensures MergeState(cmp, p', psize', q, qsize, list', tail', out + [ps[0]], ps[1..], qs, rest, goal, items)
  {
    SeparateP(out, ps, qs, rest, items);
    MergeStepP(cmp, out, ps, qs);
    var e;
    e, p', psize' := TakeP(p, psize, q, qsize, ps, qs, rest);
    list', tail' := EmitApart(e, p', psize', q, qsize, list, tail, out, ps[1..], qs, rest, items);
  }

  /** Moves the head of the run at q to the output. */
  method StepQ(cmp: Cmp, p: Item?, psize: nat, q: Item?, qsize: nat, list: Item?, tail: Item?,
               ghost out: seq<Item>, ghost ps: seq<Item>, ghost qs: seq<Item>, ghost rest: seq<Item>,
               ghost goal: seq<Item>, ghost items: set<Item>)
    returns (q': Item?, qsize': nat, list': Item?, tail': Item?)
    requires MergeState(cmp, p, psize, q, qsize, list, tail, out, ps, qs, rest, goal, items)
    requires qs != [] && (ps == [] || cmp(ps[0], qs[0]) > 0)
    modifies items`prev, items`next
    ensures MergeState(cmp, p, psize, q', qsize', list', tail', out + [qs[0]], ps, qs[1..], rest, goal, items)
  {
    SeparateQ(out, ps, qs, rest, items);
    MergeStepQ(cmp, out, ps, qs);
    var e;
    e, q', qsize' := TakeQ(p, psize, q, qsize, ps, qs, rest);
    list', tail' := EmitApart(e, p, psize, q', qsize', list, tail, out, ps, qs[1..], rest, items);
  }

  /** The merging loop of HASH_SRT. */
  method MergeTwo(cmp: Cmp, p0: Item?, psize0: nat, q0: Item?, qsize0: nat, list0: Item?, tail0: Item?,
                  ghost out0: seq<Item>, ghost ps0: seq<Item>, ghost qs0: seq<Item>, ghost rest: seq<Item>,
                  ghost goal: seq<Item>, ghost items: set<Item>)
    returns (q: Item?, list: Item?, tail: Item?)
    requires MergeState(cmp, p0, psize0, q0, qsize0, list0, tail0, out0, ps0, qs0, rest, goal, items)
    modifies items`prev, items`next
    ensures Output(goal, list, tail) && Members(goal) == items
    ensures q == First(rest) && NextLinked(rest)
  {
    var p, psize, qsize := p0, psize0, qsize0;
    q, list, tail := q0, list0, tail0;
    ghost var out, ps, qs := out0, ps0, qs0;
    while psize != 0 || (qsize != 0 && q != null)
      invariant MergeState(cmp, p, psize, q, qsize, list, tail, out, ps, qs, rest, goal, items)
      decreases |ps| + |qs|
    {
      QsEmpty(q, qsize, qs, rest);
      if psize == 0 {
        q, qsize, list, tail := StepQ(cmp, p, psize, q, qsize, list, tail, out, ps, qs, rest, goal, items);
        out, qs := out + [qs[0]], qs[1..];
      } else if qsize == 0 || q == null {
        p, psize, list, tail := StepP(cmp, p, psize, q, qsize, list, tail, out, ps, qs, rest, goal, items);
        out, ps := out + [ps[0]], ps[1..];
      } else if cmp(p, q) <= 0 {
        p, psize, list, tail := StepP(cmp, p, psize, q, qsize, list, tail, out, ps, qs, rest, goal, items);
        out, ps := out + [ps[0]], ps[1..];
      } else {
        q, qsize, list, tail := StepQ(cmp, p, psize, q, qsize, list, tail, out, ps, qs, rest, goal, items);
        out, qs := out + [qs[0]], qs[1..];
      }
    }
    QsEmpty(q, qsize, qs, rest);
    assert out == goal && qs + rest == rest;
  }

  lemma {:induction false} ConcatDistinct(a: seq<Item>, b: seq<Item>)
    requires Distinct(a + b)
    ensures Distinct(a) && Distinct(b) && Members(a) !! Members(b) && Members(a + b) == Members(a) + Members(b)
    decreases |b|
  {
    PrefixDistinct(a, b);
    if b != [] {
      assert Older(a + b) == a + Older(b);
      ConcatDistinct(a, Older(b));
      assert b == Older(b) + [b[|b| - 1]];
      PrefixDistinct(a + Older(b), [b[|b| - 1]]) by {
        assert a + Older(b) + [b[|b| - 1]] == a + b;
      }
      DistinctAppend(Older(b), b[|b| - 1]);
    }
  }

  /** The two runs at the front of s, and what follows them. */
  lemma RunsOf(s: seq<Item>, k: nat)
    requires Distinct(s)
    ensures
      var ps, r := Take(s, k), Drop(s, k);
      var qs, rest := Take(r, k), Drop(r, k);
      && qs + rest == r
      && Distinct(ps) && Distinct(r) && Distinct(rest)
      && Members(ps) !! Members(r) && Members(qs) !! Members(rest)
      && Members(r) == Members(qs) + Members(rest) && Members(s) == Members(ps) + Members(r)
  {
    var ps, r := Take(s, k), Drop(s, k);
    var qs, rest := Take(r, k), Drop(r, k);
    assert s == ps + r && r == qs + rest;
    ConcatDistinct(ps, r);
    ConcatDistinct(qs, rest);
  }

  lemma LinksOfRuns(s: seq<Item>, k: nat)
    requires NextLinked(s)
    ensures RunLinked(Take(s, k)) && NextLinked(Drop(s, k))
  {
    var p, r := Take(s, k), Drop(s, k);
    forall j {:trigger p[j].next} | 0 <= j < |p| - 1
      ensures p[j].next == p[j + 1]
    {
      assert s[j].next == After(s, j);
    }
    forall j {:trigger r[j].next} | 0 <= j < |r|
      ensures r[j].next == After(r, j)
    {
      assert r[j] == s[j + k] && s[j + k].next == After(s, j + k);
    }
  }

  /** The state of one pass: out is merged, left is still to do. */
  ghost predicate PassState(cmp: Cmp, p: Item?, k: nat, list: Item?, tail: Item?,
                            out: seq<Item>, left: seq<Item>, goal: seq<Item>, items: set<Item>)
    requires k >= 1
    reads items`prev, items`next
  {
    && Members(out) + Members(left) == items
    && Members(out) !! Members(left)
    && Distinct(left) && p == First(left) && NextLinked(left)
    && Output(out, list, tail)
    && out + MergeRuns(cmp, left, k) == goal
  }

  lemma PassStep(cmp: Cmp, k: nat, out: seq<Item>, left: seq<Item>, items: set<Item>)
    requires k >= 1 && left != [] && Distinct(left)
    requires Members(out) + Members(left) == items && Members(out) !! Members(left)
    ensures
      var ps, r := Take(left, k), Drop(left, k);
      var qs, rest := Take(r, k), Drop(r, k);
      var out' := out + Merge(cmp, ps, qs);
      && Separate(out, ps, qs, rest, Members(out) + Members(ps) + Members(qs))
      && Members(out') + Members(rest) == items && Members(out') !! Members(rest)
      && out' + MergeRuns(cmp, rest, k) == out + MergeRuns(cmp, left, k)
  {
    hide Merge;
    RunsOf(left, k);
    var ps, r := Take(left, k), Drop(left, k);
    var qs, rest := Take(r, k), Drop(r, k);
    MergeMembers(cmp, ps, qs);
    assert Members(out + Merge(cmp, ps, qs)) == Members(out) + Members(ps) + Members(qs);
    Assoc(out, Merge(cmp, ps, qs), MergeRuns(cmp, rest, k));
  }

  /** The body of the pass loop of HASH_SRT. */
  method MergeNext(cmp: Cmp, p: Item, insize: nat, list: Item?, tail: Item?,
                   ghost out: seq<Item>, ghost left: seq<Item>, ghost goal: seq<Item>, ghost items: set<Item>)
    returns (q: Item?, list': Item?, tail': Item?, ghost out': seq<Item>, ghost left': seq<Item>)
    requires insize >= 1 && PassState(cmp, p, insize, list, tail, out, left, goal, items)
    modifies items`prev, items`next
    ensures PassState(cmp, q, insize, list', tail', out', left', goal, items)
    ensures |left'| == if |left| <= 2 * insize then 0 else |left| - 2 * insize
  {
    ghost var ps, r := Take(left, insize), Drop(left, insize);
    ghost var qs, rest := Take(r, insize), Drop(r, insize);
    out', left' := out + Merge(cmp, ps, qs), rest;
    var psize;
    q, psize := SkipRun(p, insize, left);
    PassStep(cmp, insize, out, left, items);
    RunsOf(left, insize);
    LinksOfRuns(left, insize);
    q, list', tail' := MergeTwo(cmp, p, psize, q, insize, list, tail, out, ps, qs, rest,
                                out', Members(out) + Members(ps) + Members(qs));
  }

  /** One pass of HASH_SRT over runs of length insize. */
  method MergePass(cmp: Cmp, list0: Item, insize: nat, ghost s: seq<Item>)
    returns (list: Item, tail: Item, nmerges: nat)
    requires insize >= 1 && list0 == First(s) && NextLinked(s) && Distinct(s)
    modifies Members(s)`prev, Members(s)`next
    ensures
      var t := MergeRuns(cmp, s, insize);
      && AppLinked(t) && Distinct(t) && Members(t) == Members(s)
      && list == First(t) && tail == Last(t)
    ensures nmerges <= 1 <==> |s| <= 2 * insize
  {
    hide MergeRuns;
    assert [] + MergeRuns(cmp, s, insize) == MergeRuns(cmp, s, insize);
    ghost var out: seq<Item>, left := [], s;
    var p: Item?, first: Item?, last: Item? := list0, null, null;
    nmerges := 0;
    while p != null
      invariant PassState(cmp, p, insize, first, last, out, left, MergeRuns(cmp, s, insize), Members(s))
      invariant nmerges == 0 ==> |left| == |s|
      invariant nmerges == 1 ==> |left| == if |s| <= 2 * insize then 0 else |s| - 2 * insize
      invariant nmerges >= 2 ==> |s| > 2 * insize
      decreases |left|
    {
      nmerges := nmerges + 1;
      p, first, last, out, left :=
        MergeNext(cmp, p, insize, first, last, out, left, MergeRuns(cmp, s, insize), Members(s));
    }
    PassDone(cmp, insize, out, left);
    list, tail := first, last;
    CloseList(list, tail, out);
  }

  lemma PassDone(cmp: Cmp, k: nat, out: seq<Item>, left: seq<Item>)
    requires k >= 1 && left == []
    ensures out + MergeRuns(cmp, left, k) == out && Members(out) + Members(left) == Members(out)
  {
  }

  /** Ends the merged list after its last element. */
  method CloseList(list: Item, tail: Item, ghost out: seq<Item>)
    requires Output(out, list, tail)
    modifies tail`next
    ensures AppLinked(out)
  {
    OnlyLast(out);
    tail.next := null;
  }

  /** HASH_SRT on the list s; the bucket links are not touched. */
  method SortList(cmp: Cmp, head: Item, ghost s: seq<Item>) returns (head': Item, tail': Item)
    requires head == First(s) && AppLinked(s) && Distinct(s)
    modifies Members(s)`prev, Members(s)`next
    ensures
      var t := MergeSort(cmp, s);
      && AppLinked(t) && Distinct(t) && Members(t) == Members(s)
      && head' == First(t) && tail' == Last(t)
  {
    hide MergeRuns, Distinct;
    head', tail' := head, head;
    var insize, looping := 1, true;
    ghost var current := s;
    while looping
      invariant insize >= 1 && AppLinked(current) && Distinct(current) && Members(current) == Members(s)
      invariant |current| == |s| && head' == First(current)
      invariant if looping then SortFrom(cmp, current, insize) == MergeSort(cmp, s)
                else current == MergeSort(cmp, s) && tail' == Last(current)
      decreases looping, |s| - insize
    {
      var nmerges;
      head', tail', nmerges := MergePass(cmp, head', insize, current);
      current := MergeRuns(cmp, current, insize);
      if nmerges <= 1 {
        looping := false;
      }
      insize := insize * 2;
    }
  }

  lemma TableSorted(m: map<Key, Item>, s: seq<Item>, t: seq<Item>)
    requires TableOf(m, s) && Members(s) == Members(t)
    ensures TableOf(m, t)
  {
    assert forall x :: x in s <==> x in Members(s);
    assert forall x :: x in t <==> x in Members(s);
  }

  /** HASH_SRT: sorts the application-order list; the map and the buckets stay as they are. */
  method HashSrt(t: HashTable, cmp: Cmp)
    requires t.Valid()
    modifies t`head, t`tail, t`order, Members(t.order)`prev, Members(t.order)`next
    ensures t.Valid() && t.order == MergeSort(cmp, old(t.order))
    ensures t.table == old(t.table) && t.chains == old(t.chains)
  {
    if t.head != null {
      var head, tail := SortList(cmp, t.head, t.order);
      TableSorted(t.table, t.order, MergeSort(cmp, t.order));
      t.SetList(head, tail, MergeSort(cmp, t.order));
    }
  }
}
