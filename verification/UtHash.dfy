/**
 * The intrusive hash table of uthash: every element carries one handle, linked into a
 * bucket chain (hhPrev/hhNext) and into the application-order list (prev/next).
 */
module UtHash {
  import opened Bits

  type Key = seq<int>

  const INITIAL_NUM_BUCKETS: nat := 32
  const INITIAL_NUM_BUCKETS_LOG2: nat := 5
  const BKT_CAPACITY_THRESH: nat := 10

  /** An element with its embedded handle. */
  class Item {
    const key: Key
    const data: int
    var hashv: nat
    var prev: Item?
    var next: Item?
    var hhPrev: Item?
    var hhNext: Item?

    constructor (key: Key, data: int)
      ensures this.key == key && this.data == data
    {
      this.key, this.data := key, data;
    }
  }

  datatype Bucket = Bucket(hhHead: Item?, count: nat, expandMult: nat)

  const EMPTY_BUCKET := Bucket(null, 0, 0)

  // ---- Sequences of items, as seen by the two kinds of links ----

  ghost function Before(s: seq<Item>, j: nat): Item?
    requires j < |s|
  {
    if j == 0 then null else s[j - 1]
  }

  ghost function After(s: seq<Item>, j: nat): Item?
    requires j < |s|
  {
    if j + 1 < |s| then s[j + 1] else null
  }

  ghost function First(s: seq<Item>): Item? {
    if s == [] then null else s[0]
  }

  ghost function Last(s: seq<Item>): Item? {
    if s == [] then null else s[|s| - 1]
  }

  ghost predicate Distinct(s: seq<Item>) {
    s == [] || (s[|s| - 1] !in s[..|s| - 1] && Distinct(s[..|s| - 1]))
  }

  ghost predicate Apart(s: seq<Item>) {
    forall i, j :: 0 <= i < j < |s| ==> s[i] != s[j]
  }

  lemma {:induction false} DistinctApart(s: seq<Item>)
    ensures Distinct(s) <==> Apart(s)
    decreases |s|
  {
    if s != [] {
      var t := s[..|s| - 1];
      DistinctApart(t);
      assert forall i :: 0 <= i < |t| ==> t[i] == s[i];
    }
  }

  lemma DistinctAppend(s: seq<Item>, x: Item)
    requires Distinct(s) && x !in s
    ensures Distinct(s + [x])
  {
    assert (s + [x])[..|s|] == s;
  }

  /** The application-order list is exactly s: prev inverts next, and both ends are null. */
  ghost predicate AppLinked(s: seq<Item>)
    reads s`prev, s`next
  {
    && (forall j {:trigger s[j].prev} :: 0 <= j < |s| ==> s[j].prev == Before(s, j))
    && (forall j {:trigger s[j].next} :: 0 <= j < |s| ==> s[j].next == After(s, j))
  }

  /** The chain of a bucket is c listed oldest first; new handles go in at the head. */
  ghost predicate ChainLinked(bucket: Bucket, c: seq<Item>)
    reads Members(c)`hhPrev, Members(c)`hhNext
  {
    && bucket.count == |c|
    && bucket.hhHead == Last(c)
    && (forall j {:trigger c[j].hhNext} :: 0 <= j < |c| ==> c[j].hhNext == Before(c, j))
    && (forall j {:trigger c[j].hhPrev} :: 0 <= j < |c| ==> c[j].hhPrev == After(c, j))
  }

  /** HASH_TO_BKT. */
  function ToBkt(hashv: nat, numBuckets: nat): nat
    requires numBuckets >= 1
  {
    And(hashv, numBuckets - 1)
  }

  lemma ToBktInRange(hashv: nat, k: nat)
    ensures ToBkt(hashv, Pow2(k)) == hashv % Pow2(k) < Pow2(k)
  {
    MaskIsMod(hashv, k);
  }

  lemma ToBktDoubled(hashv: nat, k: nat)
    ensures ToBkt(hashv, Pow2(k)) < Pow2(k)
    ensures
      var b, d := ToBkt(hashv, Pow2(k)), ToBkt(hashv, 2 * Pow2(k));
      d == b || d == b + Pow2(k)
  {
    MaskIsMod(hashv, k);
    MaskIsMod(hashv, k + 1);
    HalfModulus(hashv, Pow2(k));
  }

  ghost function Members(s: seq<Item>): set<Item> {
    set x | x in s
  }

  ghost function Older(c: seq<Item>): seq<Item>
    requires c != []
  {
    c[..|c| - 1]
  }

  ghost function Without(c: seq<Item>, k: nat): seq<Item>
    requires k < |c|
  {
    c[..k] + c[k + 1..]
  }

  // ---- Which chain an item is in ----

  /** chains sorts the items by home bucket: every item once, none anywhere else. */
  ghost predicate Partition(hash: Key -> nat, chains: seq<seq<Item>>, items: set<Item>) {
    && |chains| >= 1
    && (forall x {:trigger ToBkt(hash(x.key), |chains|)} :: x in items ==> ToBkt(hash(x.key), |chains|) < |chains|)
    && (forall b {:trigger Distinct(chains[b])} :: 0 <= b < |chains| ==> Distinct(chains[b]))
    && (forall b, x {:trigger x in chains[b]} :: 0 <= b < |chains| && x in chains[b] ==>
          x in items && ToBkt(hash(x.key), |chains|) == b)
    && (forall b, x {:trigger x in chains[b]} :: 0 <= b < |chains| && x in items ==>
          ToBkt(hash(x.key), |chains|) == b ==> x in chains[b])
  }

  lemma PartitionWith(hash: Key -> nat, chains: seq<seq<Item>>, items: set<Item>, b: nat, add: Item)
    requires Partition(hash, chains, items) && add !in items
    requires b == ToBkt(hash(add.key), |chains|) < |chains|
    ensures Partition(hash, chains[b := chains[b] + [add]], items + {add})
  {
    assert add !in chains[b] && Distinct(chains[b]);
    DistinctAppend(chains[b], add);
    var chains' := chains[b := chains[b] + [add]];
    forall d | 0 <= d < |chains|
      ensures Distinct(chains'[d])
    {
      assert Distinct(chains[d]);
    }
  }

  lemma {:induction false} WithoutMembers(c: seq<Item>, k: nat)
    requires k < |c| && Distinct(c)
    ensures Distinct(Without(c, k))
    ensures forall x :: x in Without(c, k) <==> x in c && x != c[k]
    decreases |c|
  {
    var older, last := Older(c), c[|c| - 1];
    assert forall x :: x in c <==> x in older || x == last;
    if k == |c| - 1 {
      assert Without(c, k) == older;
    } else {
      WithoutMembers(older, k);
      assert Without(c, k) == Without(older, k) + [last];
      assert older[k] in older;
      DistinctAppend(Without(older, k), last);
    }
  }

  lemma PartitionWithout(hash: Key -> nat, chains: seq<seq<Item>>, items: set<Item>, b: nat, k: nat)
    requires Partition(hash, chains, items)
    requires b < |chains| && k < |chains[b]|
    ensures Partition(hash, chains[b := Without(chains[b], k)], items - {chains[b][k]})
  {
    WithoutMembers(chains[b], k);
    assert chains[b][k] in chains[b];
  }

  lemma OtherChains(hash: Key -> nat, chains: seq<seq<Item>>, items: set<Item>, b: nat)
    requires Partition(hash, chains, items) && b < |chains|
    ensures forall d, x :: 0 <= d < |chains| && d != b && x in chains[d] ==> x !in chains[b] && x in items
  {
  }

  // ---- What bucket doubling computes ----

  ghost function PushOne(hash: Key -> nat, now: seq<seq<Item>>, x: Item): (r: seq<seq<Item>>)
    ensures |r| == |now|
  {
    if |now| >= 1 && ToBkt(hash(x.key), |now|) < |now| then
      var b := ToBkt(hash(x.key), |now|);
      now[b := now[b] + [x]]
    else now
  }

  /** The new chains after one old chain c is emptied into them, newest handle first. */
  ghost function PushChain(hash: Key -> nat, now: seq<seq<Item>>, c: seq<Item>): (r: seq<seq<Item>>)
    ensures |r| == |now|
  {
    if c == [] then now else PushOne(hash, PushChain(hash, now, c[1..]), c[0])
  }

  /** The 2n new chains after the first i old buckets are emptied. */
  ghost function PushChains(hash: Key -> nat, chains: seq<seq<Item>>, i: nat): (r: seq<seq<Item>>)
    requires i <= |chains|
    ensures |r| == 2 * |chains|
  {
    if i == 0 then seq(2 * |chains|, _ => [])
    else PushChain(hash, PushChains(hash, chains, i - 1), chains[i - 1])
  }

  /** The chains after HASH_EXPAND_BUCKETS. */
  ghost function Doubled(hash: Key -> nat, chains: seq<seq<Item>>): seq<seq<Item>> {
    PushChains(hash, chains, |chains|)
  }

  ghost function Excess(count: nat, ideal: nat): nat {
    if count > ideal then count - ideal else 0
  }

  /** The number of items beyond the ideal chain length, over all chains. */
  ghost function TotalExcess(chains: seq<seq<Item>>, ideal: nat): nat {
    if chains == [] then 0
    else TotalExcess(chains[..|chains| - 1], ideal) + Excess(|chains[|chains| - 1]|, ideal)
  }

  lemma {:induction false} TotalExcessUpdate(chains: seq<seq<Item>>, ideal: nat, b: nat, c: seq<Item>)
    requires b < |chains|
    ensures TotalExcess(chains[b := c], ideal) + Excess(|chains[b]|, ideal)
         == TotalExcess(chains, ideal) + Excess(|c|, ideal)
    decreases |chains|
  {
    var n := |chains| - 1;
    if b == n {
      assert chains[b := c][..n] == chains[..n];
    } else {
      TotalExcessUpdate(chains[..n], ideal, b, c);
      assert chains[b := c][..n] == chains[..n][b := c];
    }
  }

  lemma {:induction false} NoExcess(n: nat, ideal: nat)
    ensures TotalExcess(seq(n, _ => []), ideal) == 0
  {
    if n > 0 {
      assert seq<seq<Item>>(n, _ => [])[..n - 1] == seq(n - 1, _ => []);
      NoExcess(n - 1, ideal);
    }
  }

  /** expand_mult after a bucket's count has just grown past the ideal chain length. */
  function NextMult(count: nat, mult: nat, ideal: nat): nat {
    if count > mult * ideal then mult + 1 else mult
  }

  /** The expand_mult a bucket reaches after receiving count handles. */
  ghost function ExpandMult(count: nat, ideal: nat): nat {
    if count <= ideal then 0 else NextMult(count, ExpandMult(count - 1, ideal), ideal)
  }

  /**
   * The multiplier of a bucket that received count handles: none up to the ideal length, and beyond it
   * one for each handle too many, but no more than it takes for that many ideal lengths to hold count.
   */
  lemma {:induction false} ExpandMultIs(count: nat, ideal: nat)
    requires ideal > 0
    ensures var m := ExpandMult(count, ideal);
            && (count <= ideal ==> m == 0)
            && (count > ideal ==> 0 < m <= count - ideal && (m - 1) * ideal < count)
            && (count > ideal && m < count - ideal ==> count <= m * ideal)
  {
    if count > ideal {
      ExpandMultIs(count - 1, ideal);
      var m := ExpandMult(count - 1, ideal);
      assert (m + 1) * ideal == m * ideal + ideal;
      if m > 0 {
        assert (m - 1) * ideal == m * ideal - ideal;
      }
    }
  }

  /** The number of items beyond the ideal length is that of the places beyond it. */
  lemma {:induction false} ExcessIs(chains: seq<seq<Item>>, ideal: nat)
    ensures TotalExcess(chains, ideal)
         == |set b, j | 0 <= b < |chains| && ideal <= j < |chains[b]| :: (b, j)|
  {
    var places := set b, j | 0 <= b < |chains| && ideal <= j < |chains[b]| :: (b, j);
    if chains == [] {
      assert places == {};
    } else {
      var n := |chains| - 1;
      ExcessIs(chains[..n], ideal);
      var before := set b, j | 0 <= b < n && ideal <= j < |chains[..n][b]| :: (b, j);
      var last := set j | ideal <= j < |chains[n]| :: (n, j);
      assert places == before + last && before !! last;
      PlacesOf(n, ideal, |chains[n]|);
    }
  }

  lemma {:induction false} PlacesOf(b: int, ideal: nat, count: nat)
    ensures |set j | ideal <= j < count :: (b, j)| == if count > ideal then count - ideal else 0
  {
    var all := set j | ideal <= j < count :: (b, j);
    if count > ideal {
      PlacesOf(b, ideal, count - 1);
      assert all == (set j | ideal <= j < count - 1 :: (b, j)) + {(b, count - 1)};
    } else {
      assert all == {};
    }
  }

  /** ideal_chain_maxlen for a table of n items about to double from Pow2(log2) buckets. */
  function IdealChainMaxlen(n: nat, numBuckets: nat, log2: nat): nat
    requires numBuckets >= 1
  {
    Shr(n, log2 + 1) + if And(n, 2 * numBuckets - 1) != 0 then 1 else 0
  }

  /** The shift and the mask compute the rounded-up quotient of items by new buckets. */
  lemma IdealIsCeil(n: nat, log2: nat)
    ensures
      var m := 2 * Pow2(log2);
      IdealChainMaxlen(n, Pow2(log2), log2) == (n + m - 1) / m
  {
    ShrIsDiv(n, log2 + 1);
    MaskIsMod(n, log2 + 1);
    CeilDiv(n, Pow2(log2 + 1));
  }

  // ---- One chain at a time ----

  /** Links add in front of the chain of bucket b. */
  method PushFront(buckets: array<Bucket>, b: nat, add: Item, ghost c: seq<Item>)
    requires b < buckets.Length && ChainLinked(buckets[b], c)
    requires add !in c && Distinct(c)
    modifies buckets, add`hhPrev, add`hhNext, Members(c)`hhPrev
    ensures buckets[b] == old(buckets[b]).(hhHead := add, count := |c| + 1)
    ensures forall d :: 0 <= d < buckets.Length && d != b ==> buckets[d] == old(buckets[d])
    ensures ChainLinked(buckets[b], c + [add])
  {
    DistinctApart(c);
    var bucket := buckets[b];
    add.hhNext := bucket.hhHead;
    add.hhPrev := null;
    if bucket.hhHead != null {
      bucket.hhHead.hhPrev := add;
    }
    buckets[b] := bucket.(count := bucket.count + 1, hhHead := add);
  }

  /** Takes the k-th oldest handle out of the chain of bucket b. */
  method Unlink(buckets: array<Bucket>, b: nat, del: Item, ghost c: seq<Item>, ghost k: nat)
    requires b < buckets.Length && ChainLinked(buckets[b], c)
    requires k < |c| && c[k] == del && Distinct(c)
    modifies buckets, Members(c)`hhNext, Members(c)`hhPrev
    ensures buckets[b].expandMult == old(buckets[b].expandMult)
    ensures forall d :: 0 <= d < buckets.Length && d != b ==> buckets[d] == old(buckets[d])
    ensures ChainLinked(buckets[b], Without(c, k))
  {
    DistinctApart(c);
    var bucket := buckets[b];
    assert del.hhNext == Before(c, k) && del.hhPrev == After(c, k);
    bucket := bucket.(count := bucket.count - 1);
    if bucket.hhHead == del {
      bucket := bucket.(hhHead := del.hhNext);
    }
    buckets[b] := bucket;
    if del.hhPrev != null {
      del.hhPrev.hhNext := del.hhNext;
    }
    if del.hhNext != null {
      del.hhNext.hhPrev := del.hhPrev;
    }
    ghost var w := Without(c, k);
    forall j | 0 <= j < |w|
      ensures w[j].hhNext == Before(w, j) && w[j].hhPrev == After(w, j)
    {
      ghost var i := if j < k then j else j + 1;
      assert w[j] == c[i] && (i != k + 1 ==> c[i].hhNext == Before(c, i))
        && (i + 1 != k ==> c[i].hhPrev == After(c, i));
    }
  }

  /** The handles of an old chain, or of its oldest part, still lead to one another. */
  ghost predicate OldLinks(c: seq<Item>)
    reads Members(c)`hhNext
  {
    forall j {:trigger c[j].hhNext} :: 0 <= j < |c| ==> c[j].hhNext == Before(c, j)
  }

  lemma OldLinksOlder(c: seq<Item>)
    requires c != [] && OldLinks(c)
    ensures OldLinks(Older(c)) && c[|c| - 1].hhNext == Last(Older(c))
  {
    var d := Older(c);
    assert c[|c| - 1].hhNext == Before(c, |c| - 1);
    forall j {:trigger d[j].hhNext} | 0 <= j < |d|
      ensures d[j].hhNext == Before(d, j)
    {
      assert d[j] == c[j] && c[j].hhNext == Before(c, j);
    }
  }

  /** The new buckets hold exactly the items done, linked as the chains now say. */
  ghost predicate Rehashed(hash: Key -> nat, buckets: array<Bucket>, now: seq<seq<Item>>, done: set<Item>, ideal: nat)
    reads buckets, done`hhPrev, done`hhNext
  {
    && |now| == buckets.Length
    && Partition(hash, now, done)
    && (forall c {:trigger buckets[c]} :: 0 <= c < |now| ==>
          ChainLinked(buckets[c], now[c]) && buckets[c].expandMult == ExpandMult(|now[c]|, ideal))
  }

  /** One step of HASH_EXPAND_BUCKETS: moves thh to the head of its new bucket. */
  method Rehash(hash: Key -> nat, buckets: array<Bucket>, thh: Item, ideal: nat, nonideal: nat,
                ghost now: seq<seq<Item>>, ghost done: set<Item>)
    returns (nonideal': nat)
    requires Rehashed(hash, buckets, now, done, ideal) && thh !in done
    requires nonideal == TotalExcess(now, ideal)
    requires thh.hashv == hash(thh.key) && ToBkt(thh.hashv, |now|) < |now|
    modifies buckets, thh`hhPrev, thh`hhNext, done`hhPrev
    ensures Rehashed(hash, buckets, PushOne(hash, now, thh), done + {thh}, ideal)
    ensures nonideal' == TotalExcess(PushOne(hash, now, thh), ideal)
  {
    var c := ToBkt(thh.hashv, buckets.Length);
    var bucket := buckets[c];
    nonideal' := nonideal;
    if bucket.count + 1 > ideal {
      nonideal' := nonideal' + 1;
      buckets[c] := bucket.(expandMult := NextMult(bucket.count + 1, bucket.expandMult, ideal));
    }
    PushFront(buckets, c, thh, now[c]);
    assert nonideal' == TotalExcess(PushOne(hash, now, thh), ideal) by {
      TotalExcessUpdate(now, ideal, c, now[c] + [thh]);
    }
    assert Partition(hash, PushOne(hash, now, thh), done + {thh}) by {
      PartitionWith(hash, now, done, c, thh);
    }
    forall d | 0 <= d < |now| && d != c
      ensures ChainLinked(buckets[d], now[d])
    {
      assert old(ChainLinked(buckets[d], now[d]));
      OtherChains(hash, now, done, c);
    }
  }

  /** The body of the inner loop of HASH_EXPAND_BUCKETS; left is the part of the old chain still to move. */
  method MoveHead(hash: Key -> nat, buckets: array<Bucket>, thh: Item, ideal: nat, nonideal: nat,
                  ghost left: seq<Item>, ghost now: seq<seq<Item>>, ghost done: set<Item>)
    returns (next: Item?, nonideal': nat)
    requires Rehashed(hash, buckets, now, done, ideal) && nonideal == TotalExcess(now, ideal)
    requires thh == Last(left) && OldLinks(left) && Distinct(left)
    requires forall x :: x in left ==> x !in done && x.hashv == hash(x.key) && ToBkt(x.hashv, |now|) < |now|
    modifies buckets, thh`hhPrev, thh`hhNext, done`hhPrev
    ensures Rehashed(hash, buckets, PushOne(hash, now, thh), done + {thh}, ideal)
    ensures nonideal' == TotalExcess(PushOne(hash, now, thh), ideal)
    ensures next == Last(Older(left)) && OldLinks(Older(left))
  {
    OldLinksOlder(left);
    next := thh.hhNext;
    nonideal' := Rehash(hash, buckets, thh, ideal, nonideal, now, done);
  }

  lemma {:induction false} PrefixDistinct(left: seq<Item>, right: seq<Item>)
    requires Distinct(left + right)
    ensures Distinct(left) && forall y :: y in left ==> y !in right
    decreases |right|
  {
    if right == [] {
      assert left + right == left;
    } else {
      assert Older(left + right) == left + Older(right);
      PrefixDistinct(left, Older(right));
      assert forall y :: y in right <==> y in Older(right) || y == right[|right| - 1];
    }
  }

  lemma SplitStep(left: seq<Item>, right: seq<Item>)
    requires left != []
    ensures
      var x := left[|left| - 1];
      && left + right == Older(left) + ([x] + right)
      && ([x] + right)[1..] == right
      && Members([x] + right) == Members(right) + {x}
  {
  }

  /** The inner loop of HASH_EXPAND_BUCKETS: empties the old chain c. */
  method MoveChain(hash: Key -> nat, buckets: array<Bucket>, head: Item?, ideal: nat, nonideal: nat,
                   ghost c: seq<Item>, ghost now: seq<seq<Item>>, ghost done: set<Item>)
    returns (nonideal': nat)
    requires Rehashed(hash, buckets, now, done, ideal) && nonideal == TotalExcess(now, ideal)
    requires head == Last(c) && OldLinks(c) && Distinct(c)
    requires forall x :: x in c ==> x !in done && x.hashv == hash(x.key) && ToBkt(x.hashv, |now|) < |now|
    modifies buckets, Members(c)`hhPrev, Members(c)`hhNext, done`hhPrev
    ensures Rehashed(hash, buckets, PushChain(hash, now, c), done + Members(c), ideal)
    ensures nonideal' == TotalExcess(PushChain(hash, now, c), ideal)
  {
    hide Rehashed, TotalExcess, PushOne;
    nonideal' := nonideal;
    ghost var left: seq<Item>, right: seq<Item>, current := c, [], now;
    assert done + Members(right) == done;
    var thh := head;
    while thh != null
      invariant c == left + right && thh == Last(left) && OldLinks(left)
      invariant current == PushChain(hash, now, right)
      invariant Rehashed(hash, buckets, current, done + Members(right), ideal)
      invariant nonideal' == TotalExcess(current, ideal)
      decreases |left|
    {
      ghost var x := thh;
      PrefixDistinct(left, right);
      SplitStep(left, right);
      assert forall y :: y in left ==> y in c;
      thh, nonideal' := MoveHead(hash, buckets, thh, ideal, nonideal', left, current, done + Members(right));
      current, left, right := PushOne(hash, current, x), Older(left), [x] + right;
      assert done + Members(right[1..]) + {x} == done + Members(right);
    }
    assert right == c;
  }

  /** done holds the items of the first i chains; the later chains are still linked. */
  ghost predicate Emptied(hash: Key -> nat, chains: seq<seq<Item>>, items: set<Item>, i: nat, done: set<Item>)
    requires |chains| >= 1
    requires forall b, x {:trigger x in chains[b]} :: 0 <= b < |chains| && x in chains[b] ==> x in items
    reads items`hhNext
  {
    && (forall x :: x in done ==> x in items && ToBkt(hash(x.key), |chains|) < i)
    && (forall x :: x in items && ToBkt(hash(x.key), |chains|) < i ==> x in done)
    && (forall b {:trigger OldLinks(chains[b])} :: i <= b < |chains| ==> OldLinks(chains[b]))
  }

  lemma EmptiedNext(hash: Key -> nat, chains: seq<seq<Item>>, items: set<Item>, i: nat, done: set<Item>)
    requires Partition(hash, chains, items) && Emptied(hash, chains, items, i, done) && i < |chains|
    ensures Distinct(chains[i])
    ensures forall x :: x in chains[i] ==> x !in done && x in items
    ensures forall b, x :: i < b < |chains| && x in chains[b] ==> x !in done && x !in chains[i]
    ensures Emptied(hash, chains, items, i + 1, done + Members(chains[i]))
  {
  }

  lemma EmptiedStart(hash: Key -> nat, chains: seq<seq<Item>>, items: set<Item>)
    requires Partition(hash, chains, items)
    requires forall b {:trigger OldLinks(chains[b])} :: 0 <= b < |chains| ==> OldLinks(chains[b])
    ensures Emptied(hash, chains, items, 0, {})
  {
    hide ToBkt;
  }

  lemma EmptiedAll(hash: Key -> nat, chains: seq<seq<Item>>, items: set<Item>, done: set<Item>)
    requires Partition(hash, chains, items) && Emptied(hash, chains, items, |chains|, done)
    ensures done == items
  {
    forall x | x in items ensures x in done {
      assert ToBkt(hash(x.key), |chains|) < |chains|;
    }
  }

  /** The body of the outer loop of HASH_EXPAND_BUCKETS. */
  method EmptyChain(hash: Key -> nat, head: Item?, buckets: array<Bucket>, ideal: nat, nonideal: nat,
                    ghost chains: seq<seq<Item>>, ghost items: set<Item>, ghost i: nat,
                    ghost now: seq<seq<Item>>, ghost done: set<Item>)
    returns (nonideal': nat)
    requires Partition(hash, chains, items) && i < |chains| && head == Last(chains[i])
    requires Rehashed(hash, buckets, now, done, ideal) && nonideal == TotalExcess(now, ideal)
    requires Emptied(hash, chains, items, i, done)
    requires forall x :: x in items ==> x.hashv == hash(x.key) && ToBkt(x.hashv, |now|) < |now|
    modifies buckets, items`hhPrev, items`hhNext
    ensures Rehashed(hash, buckets, PushChain(hash, now, chains[i]), done + Members(chains[i]), ideal)
    ensures nonideal' == TotalExcess(PushChain(hash, now, chains[i]), ideal)
    ensures Emptied(hash, chains, items, i + 1, done + Members(chains[i]))
  {
    EmptiedNext(hash, chains, items, i, done);
    nonideal' := MoveChain(hash, buckets, head, ideal, nonideal, chains[i], now, done);
    hide Partition, Rehashed, TotalExcess, PushChain;
    forall b | i < b < |chains|
      ensures OldLinks(chains[b])
    {
      assert old(OldLinks(chains[b]));
      assert forall x :: x in chains[b] ==> x in items && x !in done && x !in chains[i];
    }
  }

  lemma OldChains(old_: array<Bucket>, chains: seq<seq<Item>>)
    requires |chains| == old_.Length
    requires forall b {:trigger old_[b]} :: 0 <= b < |chains| ==> ChainLinked(old_[b], chains[b])
    ensures forall b {:trigger OldLinks(chains[b])} :: 0 <= b < |chains| ==> OldLinks(chains[b])
    ensures forall b {:trigger old_[b]} :: 0 <= b < |chains| ==> old_[b].hhHead == Last(chains[b])
  {
    forall b | 0 <= b < |chains| ensures OldLinks(chains[b]) {
      assert ChainLinked(old_[b], chains[b]);
    }
  }

  lemma PushChainsStep(hash: Key -> nat, chains: seq<seq<Item>>, i: nat)
    requires i < |chains|
    ensures PushChains(hash, chains, i + 1) == PushChain(hash, PushChains(hash, chains, i), chains[i])
  {
  }

  /** The outer loop of HASH_EXPAND_BUCKETS. */
  method MoveChains(hash: Key -> nat, old_: array<Bucket>, buckets: array<Bucket>, ideal: nat,
                    ghost chains: seq<seq<Item>>, ghost items: set<Item>)
    returns (nonideal: nat)
    requires Partition(hash, chains, items) && |chains| == old_.Length && buckets != old_
    requires Rehashed(hash, buckets, PushChains(hash, chains, 0), {}, ideal)
    requires TotalExcess(PushChains(hash, chains, 0), ideal) == 0
    requires forall b {:trigger old_[b]} :: 0 <= b < |chains| ==> ChainLinked(old_[b], chains[b])
    requires forall x :: x in items ==> x.hashv == hash(x.key) && ToBkt(x.hashv, 2 * |chains|) < 2 * |chains|
    modifies buckets, items`hhPrev, items`hhNext
    ensures Rehashed(hash, buckets, Doubled(hash, chains), items, ideal)
    ensures nonideal == TotalExcess(Doubled(hash, chains), ideal)
  {
    nonideal := 0;
    ghost var done: set<Item>, now := {}, PushChains(hash, chains, 0);
    var i := 0;
    OldChains(old_, chains);
    EmptiedStart(hash, chains, items);
    assert |chains| >= 1 && forall b, x {:trigger x in chains[b]} :: 0 <= b < |chains| && x in chains[b] ==> x in items;
    hide Rehashed, TotalExcess, PushChain, Partition, Emptied, ChainLinked, OldLinks, PushChains;
    while i < old_.Length
      invariant 0 <= i <= old_.Length
      invariant now == PushChains(hash, chains, i)
      invariant Rehashed(hash, buckets, now, done, ideal) && nonideal == TotalExcess(now, ideal)
      invariant Emptied(hash, chains, items, i, done)
    {
      nonideal := EmptyChain(hash, old_[i].hhHead, buckets, ideal, nonideal, chains, items, i, now, done);
      now := PushChain(hash, now, chains[i]);
      PushChainsStep(hash, chains, i);
      done := done + Members(chains[i]);
      i := i + 1;
    }
    EmptiedAll(hash, chains, items, done);
  }

  // ---- What doubling and the counts mean ----

  lemma {:induction false} DistinctTail(c: seq<Item>)
    requires Distinct(c) && c != []
    ensures Distinct(c[1..]) && c[0] !in c[1..]
    decreases |c|
  {
    if |c| > 1 {
      var t := Older(c);
      DistinctTail(t);
      assert c[1..] == t[1..] + [c[|c| - 1]];
      assert t == [t[0]] + t[1..];
      DistinctAppend(t[1..], c[|c| - 1]);
    }
  }

  lemma {:induction false} PushChainPartition(hash: Key -> nat, now: seq<seq<Item>>, c: seq<Item>, done: set<Item>)
    requires Partition(hash, now, done) && Distinct(c)
    requires forall x :: x in c ==> x !in done && ToBkt(hash(x.key), |now|) < |now|
    ensures Partition(hash, PushChain(hash, now, c), done + Members(c))
    decreases |c|
  {
    if c == [] {
      assert done + Members(c) == done;
    } else {
      DistinctTail(c);
      assert c == [c[0]] + c[1..];
      PushChainPartition(hash, now, c[1..], done);
      PartitionWith(hash, PushChain(hash, now, c[1..]), done + Members(c[1..]), ToBkt(hash(c[0].key), |now|), c[0]);
      assert done + Members(c[1..]) + {c[0]} == done + Members(c);
    }
  }

  lemma {:induction false} PushChainsPartition(
      hash: Key -> nat, chains: seq<seq<Item>>, items: set<Item>, log2: nat, i: nat)
    requires Partition(hash, chains, items) && |chains| == Pow2(log2) && i <= |chains|
    ensures Partition(hash, PushChains(hash, chains, i), set x | x in items && ToBkt(hash(x.key), |chains|) < i)
    decreases i
  {
    if i == 0 {
      assert (set x | x in items && ToBkt(hash(x.key), |chains|) < 0) == {};
    } else {
      PushChainsPartition(hash, chains, items, log2, i - 1);
      var done := set x | x in items && ToBkt(hash(x.key), |chains|) < i - 1;
      var c := chains[i - 1];
      assert Distinct(c);
      forall x | x in c
        ensures x !in done && ToBkt(hash(x.key), 2 * |chains|) < 2 * |chains|
      {
        ToBktInRange(hash(x.key), log2 + 1);
      }
      PushChainPartition(hash, PushChains(hash, chains, i - 1), c, done);
      assert done + Members(c) == set x | x in items && ToBkt(hash(x.key), |chains|) < i;
    }
  }

  /** Doubling keeps every item, and sends the items of bucket i to bucket i or i + n. */
  lemma DoublingSplitsBuckets(hash: Key -> nat, chains: seq<seq<Item>>, items: set<Item>, log2: nat)
    requires Partition(hash, chains, items) && |chains| == Pow2(log2)
    ensures Partition(hash, Doubled(hash, chains), items)
    ensures forall i, x :: 0 <= i < |chains| && x in chains[i] ==>
              var d := Doubled(hash, chains);
              (x in d[i]) != (x in d[i + |chains|])
  {
    var n, d := |chains|, Doubled(hash, chains);
    PushChainsPartition(hash, chains, items, log2, n);
    assert (set x | x in items && ToBkt(hash(x.key), n) < n) == items;
    forall i, x | 0 <= i < n && x in chains[i]
      ensures (x in d[i]) != (x in d[i + n])
    {
      ToBktDoubled(hash(x.key), log2);
    }
  }

  function SumLengths(chains: seq<seq<Item>>): nat {
    if chains == [] then 0 else SumLengths(chains[..|chains| - 1]) + |chains[|chains| - 1]|
  }

  lemma {:induction false} DistinctSize(c: seq<Item>)
    requires Distinct(c)
    ensures |Members(c)| == |c|
    decreases |c|
  {
    if c != [] {
      DistinctSize(Older(c));
      assert Members(c) == Members(Older(c)) + {c[|c| - 1]};
    }
  }

  lemma {:induction false} CountsUpTo(hash: Key -> nat, chains: seq<seq<Item>>, items: set<Item>, m: nat)
    requires Partition(hash, chains, items) && m <= |chains|
    ensures SumLengths(chains[..m]) == |set x | x in items && ToBkt(hash(x.key), |chains|) < m|
    decreases m
  {
    if m > 0 {
      CountsUpTo(hash, chains, items, m - 1);
      assert chains[..m][..m - 1] == chains[..m - 1];
      assert Distinct(chains[m - 1]);
      DistinctSize(chains[m - 1]);
      var below := set x | x in items && ToBkt(hash(x.key), |chains|) < m - 1;
      assert (set x | x in items && ToBkt(hash(x.key), |chains|) < m) == below + Members(chains[m - 1]);
    } else {
      assert (set x | x in items && ToBkt(hash(x.key), |chains|) < 0) == {};
    }
  }

  /** The bucket counts of a table add up to the number of its items. */
  lemma CountsSumToItems(hash: Key -> nat, chains: seq<seq<Item>>, order: seq<Item>)
    requires Partition(hash, chains, Members(order)) && Distinct(order)
    ensures SumLengths(chains) == |order|
  {
    CountsUpTo(hash, chains, Members(order), |chains|);
    assert chains[..|chains|] == chains;
    assert (set x | x in Members(order) && ToBkt(hash(x.key), |chains|) < |chains|) == Members(order);
    DistinctSize(order);
  }

  // ---- The application-order list ----

  /** m lists exactly the items of s, each under its own key. */
  ghost predicate TableOf(m: map<Key, Item>, s: seq<Item>) {
    && (forall x {:trigger x in s} :: x in s ==> x.key in m && m[x.key] == x)
    && (forall k {:trigger k in m} :: k in m ==> m[k] in s && m[k].key == k)
  }

  lemma TableWithout(m: map<Key, Item>, s: seq<Item>, k: nat)
    requires TableOf(m, s) && k < |s| && Distinct(s)
    ensures TableOf(m - {s[k].key}, Without(s, k))
  {
    WithoutMembers(s, k);
    assert s[k] in s;
  }

  lemma InsertedMembers(s: seq<Item>, k: nat, x: Item)
    requires k <= |s|
    ensures Members(Inserted(s, k, x)) == Members(s) + {x}
  {
    assert s == s[..k] + s[k..];
  }

  lemma InsertedOlder(s: seq<Item>, k: nat, x: Item)
    requires k < |s|
    ensures Inserted(s, k, x) == Inserted(Older(s), k, x) + [s[|s| - 1]]
  {
  }

  lemma {:induction false} InsertedDistinct(s: seq<Item>, k: nat, x: Item)
    requires Distinct(s) && k <= |s| && x !in s
    ensures Distinct(Inserted(s, k, x))
    decreases |s|
  {
    if k == |s| {
      assert Inserted(s, k, x) == s + [x];
      DistinctAppend(s, x);
    } else {
      InsertedDistinct(Older(s), k, x);
      InsertedOlder(s, k, x);
      assert s[|s| - 1] !in Members(Inserted(Older(s), k, x)) by {
        InsertedMembers(Older(s), k, x);
      }
      DistinctAppend(Inserted(Older(s), k, x), s[|s| - 1]);
    }
  }

  lemma InsertedAt(s: seq<Item>, k: nat, x: Item, i: nat)
    requires k <= |s| && i <= |s|
    ensures Inserted(s, k, x)[i] == if i < k then s[i] else if i == k then x else s[i - 1]
  {
  }

  lemma FreshTable(hash: Key -> nat, chains: seq<seq<Item>>, log2: nat)
    requires chains == seq(Pow2(log2), _ => [])
    ensures Partition(hash, chains, {})
  {
  }

  ghost function Inserted(s: seq<Item>, k: nat, add: Item): seq<Item>
    requires k <= |s|
  {
    s[..k] + [add] + s[k..]
  }

  /** Where an in-order insert puts add: in front of the first element that compares greater. */
  ghost predicate InorderPosition(cmp: (Item, Item) -> int, s: seq<Item>, add: Item, k: nat) {
    && k <= |s|
    && (forall i :: 0 <= i < k ==> cmp(s[i], add) <= 0)
    && (k < |s| ==> cmp(s[k], add) > 0)
  }

  /** Links add in front of the k-th element of the application-order list. */
  method InsertInList(iter: Item, add: Item, ghost s: seq<Item>, ghost k: nat)
    requires AppLinked(s) && Distinct(s) && k < |s| && s[k] == iter && add !in s
    modifies add`prev, add`next, Members(s)`prev, Members(s)`next
    ensures AppLinked(Inserted(s, k, add))
    ensures (add.prev == null) == (k == 0)
  {
    DistinctApart(s);
    assert iter.prev == Before(s, k);
    add.next := iter;
    add.prev := iter.prev;
    if add.prev != null {
      add.prev.next := add;
    }
    iter.prev := add;
    ghost var t := Inserted(s, k, add);
    forall j | 0 <= j < |t|
      ensures t[j].prev == Before(t, j) && t[j].next == After(t, j)
    {
      InsertedAt(s, k, add, j);
      if j > 0 {
        InsertedAt(s, k, add, j - 1);
      }
      if j < |s| {
        InsertedAt(s, k, add, j + 1);
      }
    }
  }

  /** Takes the k-th element out of the application-order list. */
  method UnlinkList(del: Item, ghost s: seq<Item>, ghost k: nat)
    requires AppLinked(s) && Distinct(s) && k < |s| && s[k] == del
    modifies Members(s)`prev, Members(s)`next
    ensures AppLinked(Without(s, k))
  {
    DistinctApart(s);
    assert del.prev == Before(s, k) && del.next == After(s, k);
    if del.prev != null {
      del.prev.next := del.next;
    }
    if del.next != null {
      del.next.prev := del.prev;
    }
  }

  class HashTable {
    const hash: Key -> nat
    var head: Item?

    // The UT_hash_table behind head; it exists only while head is not null.
    var tail: Item?
    var buckets: array<Bucket>
    var numBuckets: nat
    var log2NumBuckets: nat
    var numItems: nat
    var idealChainMaxlen: nat
    var nonidealItems: nat
    var ineffExpands: nat
    var noexpand: bool

    ghost var order: seq<Item>
    ghost var table: map<Key, Item>
    ghost var chains: seq<seq<Item>>

    ghost predicate ListOk()
      reads `head, `tail, `order, order`prev, order`next
    {
      && Distinct(order)
      && AppLinked(order)
      && head == First(order)
      && (order != [] ==> tail == Last(order))
    }

    ghost predicate ChainsOk(items: set<Item>)
      reads `buckets, `numBuckets, `log2NumBuckets, `chains, buckets, items`hashv, items`hhPrev, items`hhNext
    {
      && numBuckets == Pow2(log2NumBuckets) == buckets.Length == |chains|
      && (forall x {:trigger x.hashv} :: x in items ==> x.hashv == hash(x.key))
      && Partition(hash, chains, items)
      && (forall b {:trigger buckets[b]} :: 0 <= b < numBuckets ==> ChainLinked(buckets[b], chains[b]))
    }

    ghost predicate Valid()
      reads this, buckets, order
    {
      && ListOk()
      && TableOf(table, order)
      && (order != [] ==> numItems == |order| && ChainsOk(Members(order)))
    }

    constructor (hash: Key -> nat)
      ensures Valid() && order == [] && table == map[] && this.hash == hash
    {
      this.hash := hash;
      head, tail, order, table := null, null, [], map[];
      buckets := new Bucket[0];
    }

    /** HASH_MAKE_TABLE: the first element brings a fresh table of 32 empty buckets. */
    method MakeTable(add: Item)
      requires order == []
      modifies this, add`prev, add`next
      ensures fresh(buckets) && ListOk() && order == [add] && table == old(table)
      ensures numItems == 0 && chains == seq(INITIAL_NUM_BUCKETS, _ => [])
      ensures numBuckets == Pow2(log2NumBuckets) == buckets.Length == |chains|
      ensures forall b {:trigger chains[b]} :: 0 <= b < numBuckets ==> ChainLinked(buckets[b], chains[b])
      ensures !noexpand && ineffExpands == 0
    {
      add.next, add.prev := null, null;
      head, tail, order := add, add, [add];
      numBuckets, log2NumBuckets := INITIAL_NUM_BUCKETS, INITIAL_NUM_BUCKETS_LOG2;
      numItems, idealChainMaxlen, nonidealItems, ineffExpands, noexpand := 0, 0, 0, 0, false;
      buckets := new Bucket[INITIAL_NUM_BUCKETS](_ => EMPTY_BUCKET);
      chains := seq(INITIAL_NUM_BUCKETS, _ => []);
      assert Pow2(5) == 32;
    }

    /** HASH_APPEND_LIST. */
    method AppendList(add: Item)
      requires ListOk() && order != [] && add !in order
      modifies this`tail, this`order, add`prev, add`next, tail`next
      ensures ListOk() && order == old(order) + [add]
    {
      DistinctApart(order);
      DistinctAppend(order, add);
      add.next := null;
      add.prev := tail;
      tail.next := add;
      tail := add;
      order := order + [add];
    }

    /** The insertion half of HASH_ADD_TO_BKT. */
    method LinkIntoBkt(b: nat, add: Item, ghost items: set<Item>)
      requires ChainsOk(items) && add !in items && add.hashv == hash(add.key)
      requires b == ToBkt(add.hashv, numBuckets) < numBuckets
      modifies this`chains, buckets, add`hhPrev, add`hhNext, items`hhPrev
      ensures chains == old(chains)[b := old(chains[b]) + [add]]
      ensures buckets[b].expandMult == old(buckets[b].expandMult)
      ensures ChainsOk(items + {add})
    {
      ghost var before := chains;
      assert chains[b] != [] ==> Last(chains[b]) in chains[b];
      PushFront(buckets, b, add, chains[b]);
      chains := chains[b := chains[b] + [add]];
      assert Partition(hash, chains, items + {add}) by {
        PartitionWith(hash, before, items, b, add);
      }
      forall d | 0 <= d < numBuckets && d != b
        ensures ChainLinked(buckets[d], chains[d])
      {
        assert old(ChainLinked(buckets[d], before[d]));
        OtherChains(hash, before, items, b);
      }
    }

    /** HASH_DEL_IN_BKT; del is the k-th oldest handle of bucket b. */
    method DelInBkt(b: nat, del: Item, ghost k: nat, ghost items: set<Item>)
      requires ChainsOk(items)
      requires b < numBuckets && k < |chains[b]| && chains[b][k] == del
      modifies this`chains, buckets, items`hhPrev, items`hhNext
      ensures chains == old(chains)[b := Without(old(chains[b]), k)]
      ensures ChainsOk(items - {del})
    {
      ghost var before := chains;
      assert k > 0 ==> chains[b][k - 1] in chains[b];
      assert k + 1 < |chains[b]| ==> chains[b][k + 1] in chains[b];
      Unlink(buckets, b, del, chains[b], k);
      chains := chains[b := Without(chains[b], k)];
      assert Partition(hash, chains, items - {del}) by {
        PartitionWithout(hash, before, items, b, k);
      }
      forall d | 0 <= d < numBuckets && d != b
        ensures ChainLinked(buckets[d], chains[d])
      {
        assert old(ChainLinked(buckets[d], before[d]));
        OtherChains(hash, before, items, b);
      }
    }

    /** HASH_EXPAND_BUCKETS. */
    method ExpandBuckets(ghost items: set<Item>)
      requires ChainsOk(items)
      modifies this`buckets, this`numBuckets, this`log2NumBuckets, this`chains,
               this`idealChainMaxlen, this`nonidealItems, this`ineffExpands, this`noexpand,
               items`hhPrev, items`hhNext
      ensures fresh(buckets) && ChainsOk(items)
      ensures numBuckets == 2 * old(numBuckets) && chains == Doubled(hash, old(chains))
      ensures idealChainMaxlen == IdealChainMaxlen(numItems, old(numBuckets), old(log2NumBuckets))
      ensures nonidealItems == TotalExcess(chains, idealChainMaxlen)
      ensures forall b :: 0 <= b < numBuckets ==> buckets[b].expandMult == ExpandMult(|chains[b]|, idealChainMaxlen)
      ensures ineffExpands == if nonidealItems > Shr(numItems, 1) then old(ineffExpands) + 1 else 0
      ensures noexpand == (old(noexpand) || ineffExpands > 1)
    {
      var newBuckets := new Bucket[2 * numBuckets](_ => EMPTY_BUCKET);
      idealChainMaxlen := IdealChainMaxlen(numItems, numBuckets, log2NumBuckets);
      forall x | x in items
        ensures ToBkt(x.hashv, 2 * |chains|) < 2 * |chains|
      {
        ToBktInRange(x.hashv, log2NumBuckets + 1);
      }
      NoExcess(2 * |chains|, idealChainMaxlen);
      hide TotalExcess, Rehashed, Partition, ChainLinked, IdealChainMaxlen, ToBkt, PushChain;
      var nonideal := MoveChains(hash, buckets, newBuckets, idealChainMaxlen, chains, items);
      InstallBuckets(newBuckets, nonideal, items);
    }

    /** The end of HASH_EXPAND_BUCKETS: the table takes over the new buckets. */
    method InstallBuckets(newBuckets: array<Bucket>, nonideal: nat, ghost items: set<Item>)
      requires numBuckets == Pow2(log2NumBuckets) && newBuckets.Length == 2 * numBuckets == 2 * |chains|
      requires forall x :: x in items ==> x.hashv == hash(x.key)
      requires Rehashed(hash, newBuckets, Doubled(hash, chains), items, idealChainMaxlen)
      modifies this`buckets, this`numBuckets, this`log2NumBuckets, this`chains,
               this`nonidealItems, this`ineffExpands, this`noexpand
      ensures buckets == newBuckets && ChainsOk(items)
      ensures numBuckets == 2 * old(numBuckets) && chains == Doubled(hash, old(chains))
      ensures nonidealItems == nonideal
      ensures forall b :: 0 <= b < numBuckets ==> buckets[b].expandMult == ExpandMult(|chains[b]|, idealChainMaxlen)
      ensures ineffExpands == if nonidealItems > Shr(numItems, 1) then old(ineffExpands) + 1 else 0
      ensures noexpand == (old(noexpand) || ineffExpands > 1)
    {
      numBuckets := 2 * numBuckets;
      log2NumBuckets := log2NumBuckets + 1;
      buckets := newBuckets;
      chains := Doubled(hash, chains);
      nonidealItems := nonideal;
      ineffExpands := if nonidealItems > Shr(numItems, 1) then ineffExpands + 1 else 0;
      if ineffExpands > 1 {
        noexpand := true;
      }
    }

    /** HASH_FIND: the element stored under key, or null. */
    method Find(key: Key) returns (out: Item?)
      requires Valid()
      ensures out == if key in table then table[key] else null
    {
      out := null;
      if head != null {
        var hashv := hash(key);
        ToBktInRange(hashv, log2NumBuckets);
        var b := ToBkt(hashv, numBuckets);
        out := buckets[b].hhHead;
        ghost var c := chains[b];
        ghost var left := c;
        assert ChainLinked(buckets[b], c);
        assert key in table ==> table[key] in c;
        while out != null
          invariant left <= c && out == Last(left)
          invariant forall x :: x in c && x.key == key ==> x in left
          decreases |left|
        {
          assert left[|left| - 1] == c[|left| - 1] == out && out in c;
          if out.hashv == hashv && out.key == key {
            break;
          }
          assert out.hhNext == Before(c, |left| - 1);
          assert forall x :: x in left ==> x in Older(left) || x == out;
          out := out.hhNext;
          left := Older(left);
        }
      }
    }

    /** HASH_ADD_TO_TABLE, with the expansion test of HASH_ADD_TO_BKT. */
    method AddToTable(add: Item, b: nat, ghost items: set<Item>)
      requires ChainsOk(items) && add !in items && add.hashv == hash(add.key)
      requires b == ToBkt(add.hashv, numBuckets) < numBuckets
      modifies this`buckets, this`numBuckets, this`log2NumBuckets, this`chains, this`numItems,
               this`idealChainMaxlen, this`nonidealItems, this`ineffExpands, this`noexpand,
               buckets, add`hhPrev, add`hhNext, items`hhPrev, items`hhNext
      ensures ChainsOk(items + {add}) && numItems == old(numItems) + 1
      ensures buckets == old(buckets) || fresh(buckets)
      ensures
        var grown := old(chains)[b := old(chains[b]) + [add]];
        var full := !old(noexpand) && |grown[b]| >= (old(buckets[b].expandMult) + 1) * BKT_CAPACITY_THRESH;
        && chains == (if full then Doubled(hash, grown) else grown)
        && (full ==> idealChainMaxlen == IdealChainMaxlen(numItems, old(numBuckets), old(log2NumBuckets)))
    {
      numItems := numItems + 1;
      ghost var mult := buckets[b].expandMult;
      LinkIntoBkt(b, add, items);
      assert ChainLinked(buckets[b], chains[b]);
      if buckets[b].count >= (buckets[b].expandMult + 1) * BKT_CAPACITY_THRESH && !noexpand {
        ExpandBuckets(items + {add});
      }
    }

    /** The list is entered, the buckets are not: what both forms of HASH_ADD establish first. */
    ghost predicate Entered(add: Item, before: set<Item>)
      reads this, buckets, order, add, before`hashv, before`hhPrev, before`hhNext
    {
      && ListOk()
      && ChainsOk(before)
      && numItems + 1 == |order|
      && Members(order) == before + {add}
      && add !in before
      && add.hashv == hash(add.key)
      && ToBkt(add.hashv, numBuckets) < numBuckets
    }

    method EnterList(add: Item)
      requires Valid() && add !in order
      modifies this, order`next, add
      ensures Entered(add, Members(old(order))) && order == old(order) + [add]
      ensures table == old(table)
      ensures buckets == old(buckets) || fresh(buckets)
    {
      add.hashv := hash(add.key);
      ghost var before := Members(order);
      if head == null {
        MakeTable(add);
        FreshTable(hash, chains, log2NumBuckets);
      } else {
        AppendList(add);
      }
      ToBktInRange(add.hashv, log2NumBuckets);
      assert Members(order) == before + {add} by {
        assert forall x :: x in old(order) + [add] <==> x in old(order) || x == add;
      }
    }

    /** The common end of both forms of HASH_ADD. */
    method FinishAdd(add: Item, ghost before: set<Item>)
      requires Entered(add, before) && add.key !in table
      requires forall x :: x in before ==> x.key in table && table[x.key] == x
      requires forall k :: k in table ==> table[k] in before && table[k].key == k
      modifies this, buckets, add`hhPrev, add`hhNext, before`hhPrev, before`hhNext
      ensures Valid() && order == old(order) && table == old(table)[add.key := add]
    {
      AddToTable(add, ToBkt(add.hashv, numBuckets), before);
      table := table[add.key := add];
      assert forall x :: x in order <==> x in before || x == add by {
        assert Members(order) == before + {add};
      }
    }

    /** HASH_AKBI_INNER_LOOP: the first element that compares greater than add. */
    method FindInorder(add: Item, cmp: (Item, Item) -> int) returns (iter: Item?, ghost k: nat)
      requires ListOk() && order != []
      ensures InorderPosition(cmp, order, add, k)
      ensures iter == if k < |order| then order[k] else null
    {
      iter, k := head, 0;
      while iter != null
        invariant k <= |order| && iter == (if k < |order| then order[k] else null)
        invariant forall i :: 0 <= i < k ==> cmp(order[i], add) <= 0
        decreases |order| - k
      {
        if cmp(iter, add) > 0 {
          break;
        }
        iter := iter.next;
        k := k + 1;
      }
    }

    /** The list half of HASH_ADD_KEYPTR_BYHASHVALUE_INORDER, given where add goes. */
    method InsertAt(iter: Item?, add: Item, ghost k: nat)
      requires ListOk() && order != [] && add !in order && k <= |order|
      requires iter == if k < |order| then order[k] else null
      modifies `head, `tail, `order, order`prev, order`next, add`prev, add`next
      ensures ListOk() && order == Inserted(old(order), k, add)
    {
      InsertedDistinct(order, k, add);
      if iter != null {
        InsertInList(iter, add, order, k);
        if add.prev == null {
          head := add;
        }
        order := Inserted(order, k, add);
      } else {
        assert Inserted(order, k, add) == order + [add];
        AppendList(add);
      }
    }

    /** The search and the list insertion of HASH_ADD_KEYPTR_BYHASHVALUE_INORDER. */
    method EnterInorder(add: Item, cmp: (Item, Item) -> int) returns (ghost k: nat)
      requires Valid() && add !in order
      modifies this, order`prev, order`next, add
      ensures Entered(add, Members(old(order)))
      ensures InorderPosition(cmp, old(order), add, k) && order == Inserted(old(order), k, add)
      ensures table == old(table)
      ensures buckets == old(buckets) || fresh(buckets)
    {
      add.hashv := hash(add.key);
      k := 0;
      if head == null {
        MakeTable(add);
        FreshTable(hash, chains, log2NumBuckets);
      } else {
        var iter;
        iter, k := FindInorder(add, cmp);
        InsertAt(iter, add, k);
      }
      ToBktInRange(add.hashv, log2NumBuckets);
      InsertedMembers(old(order), k, add);
    }

    /** HASH_ADD_KEYPTR_BYHASHVALUE, for a key that is not in the table. */
    method Add(add: Item)
      requires Valid() && add !in order && add.key !in table
      modifies this, buckets, Members(order), add
      ensures Valid() && order == old(order) + [add]
      ensures table == old(table)[add.key := add]
    {
      ghost var before := order;
      EnterList(add);
      FinishAdd(add, Members(before));
    }

    /** HASH_ADD_KEYPTR_BYHASHVALUE_INORDER, for a key that is not in the table. */
    method AddInorder(add: Item, cmp: (Item, Item) -> int) returns (ghost k: nat)
      requires Valid() && add !in order && add.key !in table
      modifies this, buckets, Members(order), add
      ensures Valid()
      ensures InorderPosition(cmp, old(order), add, k) && order == Inserted(old(order), k, add)
      ensures table == old(table)[add.key := add]
    {
      ghost var before := order;
      k := EnterInorder(add, cmp);
      FinishAdd(add, Members(before));
    }

    /** HASH_DELETE_HH; del is the k-th element of the table. */
    method Delete(del: Item, ghost k: nat)
      requires Valid() && k < |order| && order[k] == del
      modifies this, buckets, Members(order)
      ensures Valid() && order == Without(old(order), k)
      ensures table == old(table) - {del.key}
    {
      assert del.prev == Before(order, k) && del.next == After(order, k);
      TableWithout(table, order, k);
      table := table - {del.key};
      if del.prev == null && del.next == null {
        assert Without(order, k) == [];
        head, order := null, [];
      } else {
        DeleteOne(del, k);
      }
    }

    /** HASH_DELETE_HH when other elements remain. */
    method DeleteOne(del: Item, ghost k: nat)
      requires ListOk() && ChainsOk(Members(order)) && numItems == |order|
      requires k < |order| && order[k] == del && |order| > 1
      modifies `head, `tail, `order, `numItems, `chains, buckets, Members(order)
      ensures ListOk() && ChainsOk(Members(order)) && numItems == |order|
      ensures order == Without(old(order), k)
    {
      ghost var before := order;
      UnlinkFromList(del, k);
      DropFromTable(del, Members(before));
      assert Members(order) == Members(before) - {del} by {
        WithoutMembers(before, k);
      }
    }

    method UnlinkFromList(del: Item, ghost k: nat)
      requires ListOk() && k < |order| && order[k] == del && |order| > 1
      modifies this`head, this`tail, this`order, order`prev, order`next
      ensures ListOk() && order == Without(old(order), k)
    {
      WithoutMembers(order, k);
      assert del.prev == Before(order, k) && del.next == After(order, k);
      if del == tail {
        tail := del.prev;
      }
      if del.prev == null {
        head := del.next;
      }
      UnlinkList(del, order, k);
      order := Without(order, k);
    }

    method DropFromTable(del: Item, ghost items: set<Item>)
      requires ChainsOk(items) && del in items && numItems > 0
      modifies this`numItems, this`chains, buckets, items`hhPrev, items`hhNext
      ensures ChainsOk(items - {del}) && numItems == old(numItems) - 1
      ensures
        var b := ToBkt(del.hashv, numBuckets);
        b < |old(chains)| && exists k ::
          && 0 <= k < |old(chains)[b]| && old(chains)[b][k] == del
          && chains == old(chains)[b := Without(old(chains)[b], k)]
    {
      var b := ToBkt(del.hashv, numBuckets);
      assert del in chains[b];
      ghost var k :| 0 <= k < |chains[b]| && chains[b][k] == del;
      DelInBkt(b, del, k, items);
      numItems := numItems - 1;
    }

    /** The end of HASH_SRT: the table takes over the sorted list s. */
    method SetList(first: Item, last: Item, ghost s: seq<Item>)
      requires order != [] && numItems == |order| == |s| && ChainsOk(Members(order))
      requires AppLinked(s) && Distinct(s) && Members(s) == Members(order) && TableOf(table, s)
      requires first == First(s) && last == Last(s)
      modifies `head, `tail, `order
      ensures Valid() && order == s
    {
      head, tail, order := first, last, s;
    }
  }
}
