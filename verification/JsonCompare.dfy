/**
 * cJSON_Compare with case-sensitive names, on trees whose numbers are 32-bit integers. It holds
 * exactly when both trees mean the same unordered value and neither contradicts itself by giving a
 * name twice with different values.
 */
module JsonCompare {
  import opened Json
  import opened Wrappers

  const DBL_EPSILON: real := 1.0 / 4503599627370496.0

  // ---- What a tree means: objects are unordered (RFC 8259 section 4) and the first of equal names wins ----

  datatype Value =
    | VNull
    | VBool(b: bool)
    | VNumber(d: real)
    | VString(s: string)
    | VArray(items: seq<Value>)
    | VObject(members: map<string, Value>)

  function Meaning(t: Json): Value
    decreases t, 1
  {
    match t
    case Null => VNull
    case Bool(b) => VBool(b)
    case Number(d) => VNumber(d)
    case String(s) => VString(s)
    case Array(items) => VArray(MeaningItems(items))
    case Object(members) => VObject(MeaningMembers(members))
  }

  function MeaningItems(items: seq<Json>): (r: seq<Value>)
    ensures |r| == |items|
    decreases items, 0
  {
    if items == [] then [] else [Meaning(items[0])] + MeaningItems(items[1..])
  }

  function MeaningMembers(members: seq<Member>): map<string, Value>
    decreases members, 0
  {
    if members == [] then map[]
    else MeaningMembers(members[1..])[members[0].key := Meaning(members[0].value)]
  }

  /** Whenever an object repeats a name it repeats the value. */
  predicate Consistent(t: Json)
    decreases t, 1
  {
    match t
    case Array(items) => ConsistentItems(items)
    case Object(members) => ConsistentMembers(members, MeaningMembers(members))
    case _ => true
  }

  predicate ConsistentItems(items: seq<Json>)
    decreases items, 0
  {
    items != [] ==> Consistent(items[0]) && ConsistentItems(items[1..])
  }

  predicate ConsistentMembers(members: seq<Member>, meaning: map<string, Value>)
    decreases members, 0
  {
    members != [] ==>
      && members[0].key in meaning
      && meaning[members[0].key] == Meaning(members[0].value)
      && Consistent(members[0].value)
      && ConsistentMembers(members[1..], meaning)
  }

  /** No object of t has two members of the same name. */
  predicate DistinctNames(t: Json)
    decreases t, 1
  {
    match t
    case Array(items) => DistinctNamesItems(items)
    case Object(members) => DistinctNamesMembers(members)
    case _ => true
  }

  predicate DistinctNamesItems(items: seq<Json>)
    decreases items, 0
  {
    items != [] ==> DistinctNames(items[0]) && DistinctNamesItems(items[1..])
  }

  predicate DistinctNamesMembers(members: seq<Member>)
    decreases members, 0
  {
    members != [] ==>
      && members[0].key !in MeaningMembers(members[1..])
      && DistinctNames(members[0].value)
      && DistinctNamesMembers(members[1..])
  }

  predicate IntNumbers(t: Json)
    decreases t, 1
  {
    match t
    case Number(d) => d == ValueInt(d) as real
    case Array(items) => IntNumbersItems(items)
    case Object(members) => IntNumbersMembers(members)
    case _ => true
  }

  predicate IntNumbersItems(items: seq<Json>)
    decreases items, 0
  {
    items != [] ==> IntNumbers(items[0]) && IntNumbersItems(items[1..])
  }

  predicate IntNumbersMembers(members: seq<Member>)
    decreases members, 0
  {
    members != [] ==> IntNumbers(members[0].value) && IntNumbersMembers(members[1..])
  }

  // ---- The comparison ----

  function Size(t: Json): nat
    decreases t, 1
  {
    match t
    case Array(items) => 1 + SizeItems(items)
    case Object(members) => 1 + SizeMembers(members)
    case _ => 1
  }

  function SizeItems(items: seq<Json>): nat
    decreases items, 0
  {
    if items == [] then 0 else 1 + Size(items[0]) + SizeItems(items[1..])
  }

  function SizeMembers(members: seq<Member>): nat
    decreases members, 0
  {
    if members == [] then 0 else 1 + Size(members[0].value) + SizeMembers(members[1..])
  }

  function Abs(x: real): real {
    if x < 0.0 then -x else x
  }

  function CompareDouble(a: real, b: real): bool {
    var maxVal := if Abs(a) > Abs(b) then Abs(a) else Abs(b);
    Abs(a - b) <= maxVal * DBL_EPSILON
  }

  /** get_object_item with case-sensitive names: the first member of that name. */
  function GetObjectItem(members: seq<Member>, name: string): (r: Option<Json>)
    ensures r.Some? ==> Size(r.value) < SizeMembers(members)
  {
    if members == [] then None
    else if members[0].key == name then Some(members[0].value)
    else GetObjectItem(members[1..], name)
  }

  function Compare(a: Json, b: Json): bool
    decreases Size(a) + Size(b), 1
  {
    match (a, b)
    case (Null, Null) => true
    case (Bool(x), Bool(y)) => x == y
    case (Number(x), Number(y)) => CompareDouble(x, y)
    case (String(x), String(y)) => x == y
    case (Array(x), Array(y)) => CompareItems(x, y)
    case (Object(x), Object(y)) => CompareMembers(x, y) && CompareMembers(y, x)
    case _ => false
  }

  function CompareItems(a: seq<Json>, b: seq<Json>): bool
    decreases SizeItems(a) + SizeItems(b), 0
  {
    if a == [] || b == [] then a == b
    else Compare(a[0], b[0]) && CompareItems(a[1..], b[1..])
  }

  /** Every member of a has its like in b. */
  function CompareMembers(a: seq<Member>, b: seq<Member>): bool
    decreases SizeMembers(a) + SizeMembers(b), 0
  {
    a == [] ||
    match GetObjectItem(b, a[0].key)
    case None => false
    case Some(v) => Compare(a[0].value, v) && CompareMembers(a[1..], b)
  }

  // ---- The loops ----

  method FindObjectItem(members: seq<Member>, name: string) returns (found: Option<Json>)
    ensures found == GetObjectItem(members, name)
  {
    var i := 0;
    assert members[0..] == members;
    while i < |members| && members[i].key != name
      invariant 0 <= i <= |members|
      invariant GetObjectItem(members, name) == GetObjectItem(members[i..], name)
    {
      assert members[i..][1..] == members[i + 1..];
      i := i + 1;
    }
    found := if i == |members| then None else Some(members[i].value);
  }

  lemma {:induction false} SizeOfMember(members: seq<Member>, i: nat)
    requires i < |members|
    ensures Size(members[i].value) < SizeMembers(members)
  {
    if i > 0 {
      SizeOfMember(members[1..], i - 1);
    }
  }

  lemma {:induction false} SizeOfItem(items: seq<Json>, i: nat)
    requires i < |items|
    ensures Size(items[i]) < SizeItems(items)
  {
    if i > 0 {
      SizeOfItem(items[1..], i - 1);
    }
  }

  method CompareTrees(a: Json, b: Json) returns (equal: bool)
    ensures equal == Compare(a, b)
    decreases Size(a) + Size(b), 1
  {
    match (a, b) {
      case (Null, Null) => equal := true;
      case (Bool(x), Bool(y)) => equal := x == y;
      case (Number(x), Number(y)) => equal := CompareDouble(x, y);
      case (String(x), String(y)) => equal := x == y;
      case (Array(x), Array(y)) => equal := CompareElements(x, y);
      case (Object(x), Object(y)) =>
        equal := FindEachMember(x, y);
        if equal {
          equal := FindEachMember(y, x);
        }
      case _ => equal := false;
    }
  }

  method CompareElements(a: seq<Json>, b: seq<Json>) returns (equal: bool)
    ensures equal == CompareItems(a, b)
    decreases SizeItems(a) + SizeItems(b), 2
  {
    var i := 0;
    assert a[0..] == a && b[0..] == b;
    while i < |a| && i < |b|
      invariant 0 <= i <= |a| && i <= |b|
      invariant CompareItems(a, b) == CompareItems(a[i..], b[i..])
    {
      SizeOfItem(a, i);
      SizeOfItem(b, i);
      equal := CompareTrees(a[i], b[i]);
      if !equal {
        return false;
      }
      assert a[i..][1..] == a[i + 1..] && b[i..][1..] == b[i + 1..];
      i := i + 1;
    }
    equal := i == |a| && i == |b|;
  }

  method FindEachMember(a: seq<Member>, b: seq<Member>) returns (all: bool)
    ensures all == CompareMembers(a, b)
    decreases SizeMembers(a) + SizeMembers(b), 2
  {
    var i := 0;
    assert a[0..] == a;
    while i < |a|
      invariant 0 <= i <= |a|
      invariant CompareMembers(a, b) == CompareMembers(a[i..], b)
    {
      var found := FindObjectItem(b, a[i].key);
      if found.None? {
        return false;
      }
      SizeOfMember(a, i);
      all := CompareTrees(a[i].value, found.value);
      if !all {
        return false;
      }
      assert a[i..][1..] == a[i + 1..];
      i := i + 1;
    }
    all := true;
  }

  // ---- Numbers ----

  /** Rounding never hides a difference between 32-bit integers. */
  lemma CompareDoubleInts(a: real, b: real)
    requires a == ValueInt(a) as real && b == ValueInt(b) as real
    ensures CompareDouble(a, b) <==> a == b
  {
    var m, n := ValueInt(a), ValueInt(b);
    if m != n {
      assert Abs(a - b) >= 1.0 by {
        assert m - n >= 1 || n - m >= 1;
        assert a - b == (m - n) as real;
      }
    }
  }

  /** Numbers are taken for equal exactly when they differ by at most the larger one in magnitude over 2^52. */
  lemma CompareDoubleIff(a: real, b: real)
    requires -a <= b <= a || a <= b <= -a
    ensures CompareDouble(a, b) <==> -Abs(a) <= 4503599627370496.0 * (a - b) <= Abs(a)
    ensures CompareDouble(b, a) <==> CompareDouble(a, b)
  {
  }

  // ---- Members by name ----

  lemma {:induction false} FirstWins(members: seq<Member>, name: string)
    ensures name in MeaningMembers(members) <==> GetObjectItem(members, name).Some?
    ensures GetObjectItem(members, name).Some? ==>
              var v := GetObjectItem(members, name).value;
              Member(name, v) in members && MeaningMembers(members)[name] == Meaning(v)
  {
    if members != [] && members[0].key != name {
      FirstWins(members[1..], name);
    } else if members != [] {
      assert members[0] == Member(name, members[0].value);
    }
  }

  lemma {:induction false} ConsistentEach(members: seq<Member>, meaning: map<string, Value>)
    ensures ConsistentMembers(members, meaning)
            <==> forall m :: m in members ==>
                   m.key in meaning && meaning[m.key] == Meaning(m.value) && Consistent(m.value)
  {
    if members != [] {
      ConsistentEach(members[1..], meaning);
      assert forall m :: m in members <==> m == members[0] || m in members[1..];
    }
  }

  /** What CompareMembers finds about one member of a. */
  predicate Alike(m: Member, b: seq<Member>) {
    match GetObjectItem(b, m.key)
    case None => false
    case Some(v) => Consistent(m.value) && Consistent(v) && Meaning(m.value) == Meaning(v)
  }

  lemma BothAlike(a: seq<Member>, b: seq<Member>)
    requires forall m :: m in a ==> Alike(m, b)
    requires forall m :: m in b ==> Alike(m, a)
    ensures MeaningMembers(a) == MeaningMembers(b)
    ensures ConsistentMembers(a, MeaningMembers(a)) && ConsistentMembers(b, MeaningMembers(b))
  {
    forall k | k in MeaningMembers(a) || k in MeaningMembers(b)
      ensures k in MeaningMembers(a) && k in MeaningMembers(b) && MeaningMembers(a)[k] == MeaningMembers(b)[k]
    {
      FirstWins(a, k);
      FirstWins(b, k);
    }
    forall m | m in a
      ensures m.key in MeaningMembers(a) && MeaningMembers(a)[m.key] == Meaning(m.value) && Consistent(m.value)
    {
      assert Alike(m, b);
      FirstWins(b, m.key);
    }
    forall m | m in b
      ensures m.key in MeaningMembers(b) && MeaningMembers(b)[m.key] == Meaning(m.value) && Consistent(m.value)
    {
      assert Alike(m, a);
      FirstWins(a, m.key);
    }
    ConsistentEach(a, MeaningMembers(a));
    ConsistentEach(b, MeaningMembers(b));
  }

  lemma SameMeaningAlike(a: seq<Member>, b: seq<Member>)
    requires MeaningMembers(a) == MeaningMembers(b)
    requires ConsistentMembers(a, MeaningMembers(a)) && ConsistentMembers(b, MeaningMembers(b))
    ensures forall m :: m in a ==> Alike(m, b)
  {
    ConsistentEach(a, MeaningMembers(a));
    ConsistentEach(b, MeaningMembers(b));
    forall m | m in a ensures Alike(m, b) {
      FirstWins(b, m.key);
    }
  }

  // ---- The comparison means equality of meaning ----

  /** Exactly what cJSON_Compare decides, for all trees with 32-bit numbers. */
  lemma {:induction false} CompareMeans(a: Json, b: Json)
    requires IntNumbers(a) && IntNumbers(b)
    ensures Compare(a, b) <==> Consistent(a) && Consistent(b) && Meaning(a) == Meaning(b)
    decreases Size(a) + Size(b), 2
  {
    match (a, b) {
      case (Number(x), Number(y)) => CompareDoubleInts(x, y);
      case (Array(x), Array(y)) => CompareItemsMeans(x, y);
      case (Object(x), Object(y)) =>
        CompareMembersMeans(x, y);
        CompareMembersMeans(y, x);
        if Compare(a, b) {
          BothAlike(x, y);
        }
        if Consistent(a) && Consistent(b) && Meaning(a) == Meaning(b) {
          SameMeaningAlike(x, y);
          SameMeaningAlike(y, x);
        }
      case _ =>
    }
  }

  lemma {:induction false} CompareItemsMeans(a: seq<Json>, b: seq<Json>)
    requires IntNumbersItems(a) && IntNumbersItems(b)
    ensures CompareItems(a, b) <==> ConsistentItems(a) && ConsistentItems(b) && MeaningItems(a) == MeaningItems(b)
    decreases SizeItems(a) + SizeItems(b), 0
  {
    if a != [] && b != [] {
      CompareMeans(a[0], b[0]);
      CompareItemsMeans(a[1..], b[1..]);
      assert MeaningItems(a)[0] == Meaning(a[0]) && MeaningItems(a)[1..] == MeaningItems(a[1..]);
      assert MeaningItems(b)[0] == Meaning(b[0]) && MeaningItems(b)[1..] == MeaningItems(b[1..]);
      assert MeaningItems(a) == [Meaning(a[0])] + MeaningItems(a[1..]);
    }
  }

  lemma {:induction false} IntNumbersFound(members: seq<Member>, name: string)
    requires IntNumbersMembers(members) && GetObjectItem(members, name).Some?
    ensures IntNumbers(GetObjectItem(members, name).value)
  {
    if members[0].key != name {
      IntNumbersFound(members[1..], name);
    }
  }

  lemma {:induction false} CompareMembersMeans(a: seq<Member>, b: seq<Member>)
    requires IntNumbersMembers(a) && IntNumbersMembers(b)
    ensures CompareMembers(a, b) <==> forall m :: m in a ==> Alike(m, b)
    decreases SizeMembers(a) + SizeMembers(b), 0
  {
    if a != [] {
      var found := GetObjectItem(b, a[0].key);
      if found.Some? {
        IntNumbersFound(b, a[0].key);
        CompareMeans(a[0].value, found.value);
      }
      CompareMembersMeans(a[1..], b);
      assert forall m :: m in a <==> m == a[0] || m in a[1..];
      assert Alike(a[0], b) <==> found.Some? && Compare(a[0].value, found.value);
    }
  }

  // ---- On trees with distinct names it is an equivalence ----

  lemma {:induction false} DistinctConsistent(t: Json)
    requires DistinctNames(t)
    ensures Consistent(t)
    decreases t, 1
  {
    match t {
      case Array(items) => DistinctConsistentItems(items);
      case Object(members) =>
        DistinctConsistentMembers(members);
      case _ =>
    }
  }

  lemma {:induction false} DistinctConsistentItems(items: seq<Json>)
    requires DistinctNamesItems(items)
    ensures ConsistentItems(items)
    decreases items, 0
  {
    if items != [] {
      DistinctConsistent(items[0]);
      DistinctConsistentItems(items[1..]);
    }
  }

  lemma {:induction false} DistinctConsistentMembers(members: seq<Member>)
    requires DistinctNamesMembers(members)
    ensures ConsistentMembers(members, MeaningMembers(members))
    decreases members, 0
  {
    if members != [] {
      DistinctConsistent(members[0].value);
      DistinctConsistentMembers(members[1..]);
      ConsistentEach(members[1..], MeaningMembers(members[1..]));
      ConsistentEach(members[1..], MeaningMembers(members));
    }
  }

  /** On trees with distinct names the comparison is reflexive, symmetric and transitive. */
  lemma CompareIsEquivalence(a: Json, b: Json, c: Json)
    requires IntNumbers(a) && IntNumbers(b) && IntNumbers(c)
    requires DistinctNames(a)
    ensures Compare(a, a)
    ensures Compare(a, b) <==> Compare(b, a)
    ensures Compare(a, b) && Compare(b, c) ==> Compare(a, c)
  {
    DistinctConsistent(a);
    CompareMeans(a, a);
    CompareMeans(a, b);
    CompareMeans(b, a);
    CompareMeans(b, c);
    CompareMeans(a, c);
  }

  /** A tree compares equal to a copy of itself exactly when it is consistent. */
  lemma ReflexiveWhenConsistent(t: Json)
    requires IntNumbers(t)
    ensures Compare(t, t) <==> Consistent(t)
  {
    CompareMeans(t, t);
  }

  /** {"a":1,"a":2} differs from its own copy. */
  lemma RepeatedNameDiffers()
    ensures !Compare(Object([Member("a", Number(1.0)), Member("a", Number(2.0))]),
                     Object([Member("a", Number(1.0)), Member("a", Number(2.0))]))
  {
    var members := [Member("a", Number(1.0)), Member("a", Number(2.0))];
    var t := Object(members);
    assert members[1..] == [Member("a", Number(2.0))];
    assert members[1..][1..] == [];
    ReflexiveWhenConsistent(t);
    ConsistentEach(members, MeaningMembers(members));
    assert members[1] in members;
    FirstWins(members, "a");
  }

  // ---- Equal meaning is equality up to the order of members ----

  function Entries(members: seq<Member>): multiset<(string, Value)> {
    if members == [] then multiset{}
    else multiset{(members[0].key, Meaning(members[0].value))} + Entries(members[1..])
  }

  lemma {:induction false} EntryOf(members: seq<Member>, k: string, v: Value)
    requires DistinctNamesMembers(members)
    ensures Entries(members)[(k, v)] == if k in MeaningMembers(members) && MeaningMembers(members)[k] == v then 1 else 0
  {
    if members != [] {
      EntryOf(members[1..], k, v);
    }
  }

  /** With distinct names, two member lists mean the same exactly when one reorders the other. */
  lemma SameUpToOrder(a: seq<Member>, b: seq<Member>)
    requires DistinctNamesMembers(a) && DistinctNamesMembers(b)
    ensures MeaningMembers(a) == MeaningMembers(b) <==> Entries(a) == Entries(b)
  {
    if MeaningMembers(a) == MeaningMembers(b) {
      forall e: (string, Value) ensures Entries(a)[e] == Entries(b)[e] {
        EntryOf(a, e.0, e.1);
        EntryOf(b, e.0, e.1);
      }
    }
    if Entries(a) == Entries(b) {
      forall k | k in MeaningMembers(a) || k in MeaningMembers(b)
        ensures k in MeaningMembers(a) && k in MeaningMembers(b) && MeaningMembers(a)[k] == MeaningMembers(b)[k]
      {
        if k in MeaningMembers(a) {
          EntryOf(a, k, MeaningMembers(a)[k]);
          EntryOf(b, k, MeaningMembers(a)[k]);
        } else {
          EntryOf(a, k, MeaningMembers(b)[k]);
          EntryOf(b, k, MeaningMembers(b)[k]);
        }
      }
    }
  }
}
