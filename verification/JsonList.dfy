/**
 * cJSON's child lists: doubly linked, ended by a null next, with the first child's prev holding the
 * last one. The edits refine edits of a sequence, and duplication copies the whole tree.
 */
module JsonList {
  import opened Wrappers

  const CIRCULAR_LIMIT: nat := 10000

  ghost function Members(s: seq<Item>): set<Item> {
    set x | x in s
  }

  /** The fields of an item that are not links. */
  datatype Content = Content(kind: nat, isReference: bool, valueString: Option<string>, valueDouble: real,
                         name: Option<string>)

  datatype Tree = Tree(content: Content, kids: seq<Tree>)

  lemma MembersAppend(s: seq<Item>, x: Item)
    ensures Members(s + [x]) == Members(s) + {x}
  {
  }

  class Item {
    var content: Content
    var next: Item?
    var prev: Item?
    var child: Item?
    /** The children, first to last. */
    ghost var children: seq<Item>

    constructor (content: Content)
      ensures this.content == content && next == null && prev == null && child == null && children == [] && Valid()
    {
      this.content := content;
      next, prev, child := null, null, null;
      children := [];
    }

    /** The pointers of the child list spell out children. */
    ghost predicate Valid()
      reads this`child, this`children, Members(children)`next, Members(children)`prev
    {
      && (forall i, j :: 0 <= i < j < |children| ==> children[i] != children[j])
      && (children == [] <==> child == null)
      && (children != [] ==>
            && child == children[0]
            && children[0].prev == children[|children| - 1]
            && children[|children| - 1].next == null)
      && (forall i :: 0 <= i < |children| - 1 ==> children[i].next == children[i + 1])
      && (forall i :: 0 < i < |children| ==> children[i].prev == children[i - 1])
    }

    lemma Neighbours(k: nat)
      requires Valid() && k < |children|
      ensures children[k] == child <==> k == 0
      ensures children[k].next == if k + 1 < |children| then children[k + 1] else null
      ensures children[k].prev == if k > 0 then children[k - 1] else children[|children| - 1]
      ensures child != null && child.prev == children[|children| - 1]
    {
    }

    lemma FirstChild()
      requires Valid()
      ensures child == if children == [] then null else children[0]
    {
    }

    /** get_array_item. */
    method GetArrayItem(index: nat) returns (item: Item?)
      requires Valid()
      ensures item == if index < |children| then children[index] else null
    {
      item := child;
      var left := index;
      ghost var i := 0;
      while item != null && left > 0
        invariant 0 <= i <= |children| && 0 <= left && left + i == index
        invariant item == if i < |children| then children[i] else null
        decreases left
      {
        Neighbours(i);
        left := left - 1;
        item := item.next;
        i := i + 1;
      }
    }

    /** add_item_to_array. A next that the item brings along stays: then the list no longer ends with it. */
    method AddItem(item: Item) returns (ok: bool)
      requires Valid() && item !in children && this !in children
      modifies this`child, this`children, Members(children)`next, Members(children)`prev, item`next, item`prev
      ensures item == this ==> !ok && children == old(children)
      ensures item != this ==>
                ok && children == old(children) + [item] && (Valid() <==> old(child) == null || old(item.next) == null)
    {
      if item == this {
        return false;
      }
      if child == null {
        child := item;
        item.prev := item;
        item.next := null;
      } else {
        var last := child.prev;
        last.next := item;
        item.prev := last;
        child.prev := item;
      }
      children := children + [item];
      ok := true;
    }

    /** cJSON_DetachItemViaPointer for the child at index k. */
    method Detach(item: Item, ghost k: nat)
      requires Valid() && k < |children| && children[k] == item && this !in children
      modifies this`child, this`children, Members(children)`next, Members(children)`prev
      ensures Valid() && children == old(children[..k] + children[k + 1..])
      ensures item.next == null && item.prev == null
    {
      Neighbours(k);
      ghost var rest := children[..k] + children[k + 1..];
      if item != child {
        item.prev.next := item.next;
      }
      if item.next != null {
        item.next.prev := item.prev;
      }
      if item == child {
        child := item.next;
      } else if item.next == null {
        child.prev := item.prev;
      }
      item.prev := null;
      item.next := null;
      children := rest;
    }

    /** cJSON_DetachItemFromArray. */
    method DetachItem(which: int) returns (item: Item?)
      requires Valid() && this !in children
      modifies this`child, this`children, Members(children)`next, Members(children)`prev
      ensures item != null <==> 0 <= which < |old(children)|
      ensures item == null ==> children == old(children)
      ensures item != null ==> item == old(children)[which] && item.next == null && item.prev == null
      ensures item != null ==> children == old(children[..which]) + old(children[which + 1..])
      ensures Valid()
    {
      if which < 0 {
        return null;
      }
      item := GetArrayItem(which);
      if item != null {
        Detach(item, which);
      }
    }

    /** The part of cJSON_InsertItemInArray that links item in front of the child at index k. */
    method InsertBefore(after: Item, item: Item, ghost k: nat)
      requires Valid() && k < |children| && children[k] == after
      requires item !in children && item != this && this !in children
      modifies this`child, this`children, Members(children)`next, Members(children)`prev, item`next, item`prev
      ensures Valid() && children == old(children[..k]) + [item] + old(children[k..])
    {
      Neighbours(k);
      item.next := after;
      item.prev := after.prev;
      after.prev := item;
      if after == child {
        child := item;
      } else {
        item.prev.next := item;
      }
      children := children[..k] + [item] + children[k..];
    }

    /** cJSON_InsertItemInArray: before the child at that index, or at the end when there is none. */
    method InsertItem(which: int, item: Item) returns (ok: bool)
      requires Valid() && item !in children && item != this && this !in children
      modifies this`child, this`children, Members(children)`next, Members(children)`prev, item`next, item`prev
      ensures ok <==> which >= 0
      ensures !ok ==> children == old(children)
      ensures ok && which >= |old(children)| ==>
                children == old(children) + [item] && (Valid() <==> old(child) == null || old(item.next) == null)
      ensures ok && which < |old(children)| ==> Valid()
      ensures ok && which < |old(children)| ==> children == old(children[..which]) + [item] + old(children[which..])
    {
      if which < 0 {
        return false;
      }
      var after := GetArrayItem(which);
      if after == null {
        ok := AddItem(item);
        return;
      }
      InsertBefore(after, item, which);
      ok := true;
    }

    /** cJSON_ReplaceItemViaPointer for the child at index k. */
    method Replace(item: Item, replacement: Item, ghost k: nat)
      requires Valid() && k < |children| && children[k] == item && this !in children
      requires replacement == item || replacement !in children
      requires replacement != this
      modifies this`child, this`children, Members(children)`next, Members(children)`prev
      modifies replacement`next, replacement`prev
      ensures Valid() && children == old(children)[k := replacement]
      ensures replacement != item ==> item.next == null && item.prev == null
    {
      if replacement == item {
        return;
      }
      Neighbours(k);
      replacement.next := item.next;
      replacement.prev := item.prev;
      if replacement.next != null {
        replacement.next.prev := replacement;
      }
      if child == item {
        if child.prev == child {
          replacement.prev := replacement;
        }
        child := replacement;
      } else {
        if replacement.prev != null {
          replacement.prev.next := replacement;
        }
        if replacement.next == null {
          child.prev := replacement;
        }
      }
      item.next := null;
      item.prev := null;
      children := children[k := replacement];
    }
  }

  // ---- Duplication ----

  /** The heap below item spells out the tree t, with every item under it in below. */
  ghost predicate Depicts(item: Item, t: Tree, below: set<Item>)
    reads item`content, item`child, item`children, below
    decreases t
  {
    && item.content == t.content
    && |item.children| == |t.kids|
    && Members(item.children) <= below
    && item.Valid()
    && forall i :: 0 <= i < |t.kids| ==> Depicts(item.children[i], t.kids[i], below)
  }

  lemma {:induction false} DepictsMore(item: Item, t: Tree, below: set<Item>, more: set<Item>)
    requires Depicts(item, t, below) && below <= more
    ensures Depicts(item, t, more)
    decreases t
  {
    forall i | 0 <= i < |t.kids| ensures Depicts(item.children[i], t.kids[i], more) {
      DepictsMore(item.children[i], t.kids[i], below, more);
    }
  }

  /** A copy owns its children, so no part of it is a reference. */
  function Owned(t: Tree): Tree {
    Tree(t.content.(isReference := false), seq(|t.kids|, i requires 0 <= i < |t.kids| => Owned(t.kids[i])))
  }

  /** t has at most this many levels of children. */
  predicate Fits(t: Tree, levels: int) {
    t.kids == [] || (levels > 0 && forall i :: 0 <= i < |t.kids| ==> Fits(t.kids[i], levels - 1))
  }

  /** The chain that the loop of Duplicate has built: a child list whose first prev is still null. */
  ghost predicate Chain(first: Item?, s: seq<Item>)
    reads Members(s)`next, Members(s)`prev
  {
    && (forall i, j :: 0 <= i < j < |s| ==> s[i] != s[j])
    && (s == [] <==> first == null)
    && (s != [] ==> first == s[0] && s[0].prev == null && s[|s| - 1].next == null)
    && (forall i :: 0 <= i < |s| - 1 ==> s[i].next == s[i + 1])
    && (forall i :: 0 < i < |s| ==> s[i].prev == s[i - 1])
  }

  /** done are copies of the first trees of ts, with everything below them in made. */
  ghost predicate Copies(done: seq<Item>, ts: seq<Tree>, made: set<Item>)
    reads Members(done)`content, Members(done)`child, Members(done)`children, made
  {
    && |done| <= |ts|
    && forall i :: 0 <= i < |done| ==> done[i] !in made && Depicts(done[i], Owned(ts[i]), made)
  }

  lemma CopiesMore(done: seq<Item>, ts: seq<Tree>, made: set<Item>, new_: set<Item>, x: Item)
    requires Copies(done, ts, made) && |done| < |ts|
    requires Depicts(x, Owned(ts[|done|]), new_) && x !in new_ && x !in made
    requires Members(done) !! new_
    ensures Copies(done + [x], ts, made + new_)
  {
    forall i | 0 <= i < |done| ensures Depicts(done[i], Owned(ts[i]), made + new_) {
      DepictsMore(done[i], Owned(ts[i]), made, made + new_);
    }
    DepictsMore(x, Owned(ts[|done|]), new_, made + new_);
  }

  /** The crosswiring in the loop of Duplicate. */
  method Attach(newItem: Item, next: Item?, newChild: Item, ghost done: seq<Item>)
    requires Chain(newItem.child, done) && newChild !in done && newChild.next == null && newChild.prev == null
    requires next == if done == [] then null else done[|done| - 1]
    modifies newItem`child, Members(done)`next, newChild`prev
    ensures Chain(newItem.child, done + [newChild])
  {
    if next != null {
      next.next := newChild;
      newChild.prev := next;
    } else {
      newItem.child := newChild;
    }
  }

  method AttachCopy(newItem: Item, next: Item?, newChild: Item, ghost done: seq<Item>, ghost ts: seq<Tree>,
                    ghost made: set<Item>)
    requires Chain(newItem.child, done) && newChild !in done && newChild.next == null && newChild.prev == null
    requires next == if done == [] then null else done[|done| - 1]
    requires Copies(done + [newChild], ts, made) && newItem !in made && newItem !in done && newItem != newChild
    modifies newItem`child, Members(done)`next, newChild`prev
    ensures Chain(newItem.child, done + [newChild]) && Copies(done + [newChild], ts, made)
  {
    hide Chain, Depicts;
    assert forall x :: x in done + [newChild] ==> x !in made;
    Attach(newItem, next, newChild, done);
  }

  lemma DepictsRoot(item: Item, t: Tree, below: set<Item>)
    requires Depicts(item, t, below)
    ensures item.content == t.content && |item.children| == |t.kids| && item.Valid()
    ensures item.child == if t.kids == [] then null else item.children[0]
  {
    item.FirstChild();
  }

  lemma DepictsChild(item: Item, t: Tree, below: set<Item>, k: nat)
    requires Depicts(item, t, below) && k < |t.kids|
    ensures |item.children| == |t.kids| && Depicts(item.children[k], t.kids[k], below)
    ensures item.children[k].next == if k + 1 < |t.kids| then item.children[k + 1] else null
  {
    item.Neighbours(k);
  }

  lemma DepictsAlone(item: Item, content: Content)
    requires item.content == content && item.child == null && item.children == []
    ensures Depicts(item, Tree(content, []), {})
  {
  }

  /** cJSON_Duplicate_rec: an independent copy of the whole tree, or nothing when it is too deep. */
  method Duplicate(item: Item, depth: nat, recurse: bool, ghost t: Tree, ghost below: set<Item>)
    returns (copy: Item?, ghost made: set<Item>)
    requires Depicts(item, t, below)
    ensures copy != null <==> !recurse || Fits(t, CIRCULAR_LIMIT - depth)
    ensures copy != null ==> fresh(copy) && fresh(made) && copy !in made && copy.next == null && copy.prev == null
    ensures copy != null ==> Depicts(copy, if recurse then Owned(t) else Owned(t).(kids := []), made)
    decreases t
  {
    hide Fits, AllFit, Copies, Depicts, Chain, Item.Valid;
    made := {};
    DepictsRoot(item, t, below);
    var newItem := new Item(item.content.(isReference := false));
    DepictsAlone(newItem, newItem.content);
    if !recurse {
      return newItem, made;
    }
    ghost var done: seq<Item> := [];
    var child := item.child;
    var next: Item? := null;
    ghost var levels := CIRCULAR_LIMIT - depth;
    NoCopies(newItem.child, t.kids, levels);
    while child != null
      invariant |done| <= |t.kids| == |item.children|
      invariant child == if |done| < |t.kids| then item.children[|done|] else null
      invariant newItem.content == t.content.(isReference := false) && newItem.next == null && newItem.prev == null
      invariant Chain(newItem.child, done)
      invariant next == if done == [] then null else done[|done| - 1]
      invariant fresh(newItem) && fresh(made) && fresh(Members(done)) && newItem !in made && newItem !in done
      invariant Copies(done, t.kids, made)
      invariant AllFit(t.kids, |done|, levels)
      invariant Depicts(item, t, below)
      decreases |t.kids| - |done|
    {
      ghost var k := |done|;
      if depth >= CIRCULAR_LIMIT {
        NoneFit(t, k, levels);
        return null, made;
      }
      DepictsChild(item, t, below, k);
      ghost var new_: set<Item>;
      var newChild: Item?;
      newChild, new_ := Duplicate(child, depth + 1, true, t.kids[k], below);
      if newChild == null {
        NoneFit(t, k, levels);
        return null, made;
      }
      CopiesMore(done, t.kids, made, new_, newChild);
      AttachCopy(newItem, next, newChild, done, t.kids, made + new_);
      FitsMore(t.kids, k, levels);
      MembersAppend(done, newChild);
      next := newChild;
      made := made + new_;
      done := done + [newChild];
      child := child.next;
    }
    made := FinishCopy(newItem, next, done, t, made);
    FitsAll(t, levels);
    copy := newItem;
  }

  method FinishList(newItem: Item, last: Item?, ghost done: seq<Item>)
    requires Chain(newItem.child, done)
    requires last == if done == [] then null else done[|done| - 1]
    modifies newItem`children, Members(done)`prev
    ensures newItem.Valid() && newItem.children == done
  {
    if newItem.child != null {
      newItem.child.prev := last;
    }
    newItem.children := done;
  }

  method FinishCopy(newItem: Item, last: Item?, ghost done: seq<Item>, ghost t: Tree, ghost made: set<Item>)
    returns (ghost all: set<Item>)
    requires Chain(newItem.child, done) && Copies(done, t.kids, made) && |done| == |t.kids|
    requires newItem.content == t.content.(isReference := false) && newItem !in made && newItem !in done
    requires last == if done == [] then null else done[|done| - 1]
    modifies newItem`children, Members(done)`prev
    ensures all == made + Members(done) && newItem !in all
    ensures Depicts(newItem, Owned(t), all)
  {
    hide Chain, Item.Valid;
    FinishList(newItem, last, done);
    all := made + Members(done);
    assert Copies(done, t.kids, made);
    forall i | 0 <= i < |done| ensures Depicts(done[i], Owned(t.kids[i]), all) {
      DepictsMore(done[i], Owned(t.kids[i]), made, all);
    }
  }

  predicate AllFit(ts: seq<Tree>, k: nat, levels: int) {
    k == 0 || (levels > 0 && forall i :: 0 <= i < k && i < |ts| ==> Fits(ts[i], levels - 1))
  }

  lemma NoCopies(first: Item?, ts: seq<Tree>, levels: int)
    requires first == null
    ensures Chain(first, []) && Copies([], ts, {}) && AllFit(ts, 0, levels)
  {
  }

  lemma NoneFit(t: Tree, k: nat, levels: int)
    requires k < |t.kids| && (levels <= 0 || !Fits(t.kids[k], levels - 1))
    ensures !Fits(t, levels)
  {
  }

  lemma FitsMore(ts: seq<Tree>, k: nat, levels: int)
    requires k < |ts| && levels > 0 && AllFit(ts, k, levels) && Fits(ts[k], levels - 1)
    ensures AllFit(ts, k + 1, levels)
  {
  }

  lemma FitsAll(t: Tree, levels: int)
    ensures Fits(t, levels) <==> AllFit(t.kids, |t.kids|, levels)
  {
  }
}
