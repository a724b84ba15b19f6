/**
 The intrusive singly linked list: items carry their own next pointer, and the list itself is
 addressed as if it were an item, so that insertion and removal never special-case the front.
 */
module LinkedList {

  class Item {
    var next: Item?

    constructor ()
      ensures next == null
    {
      next := null;
    }
  }

  /** The sequence without the element at k. */
  function Without<T>(s: seq<T>, k: nat): (r: seq<T>)
    requires k < |s|
    ensures |r| == |s| - 1
    ensures forall i :: 0 <= i < k ==> r[i] == s[i]
    ensures forall i :: k <= i < |r| ==> r[i] == s[i + 1]
  {
    s[..k] + s[k + 1..]
  }

  lemma WithoutTail<T>(s: seq<T>, k: nat)
    requires 0 < k < |s|
    ensures Without(s, k)[1..] == Without(s[1..], k - 1)
  {
  }

  /** Nothing new appears, and an element that occurred once is gone. */
  lemma WithoutMembers<T>(s: seq<T>, k: nat)
    requires k < |s|
    ensures forall x :: x in Without(s, k) ==> x in s
    ensures Distinct(s) ==> Distinct(Without(s, k)) && s[k] !in Without(s, k)
  {
  }

  ghost predicate Distinct<T>(s: seq<T>) {
    forall i, j :: 0 <= i < j < |s| ==> s[i] != s[j]
  }

  class List {
    const head: Item       // the list variable, seen as an item whose next is the first item
    ghost var nodes: seq<Item>  // head and then the items, in order
    ghost var Repr: set<Item>   // everything the list may write to; removed items stay in it

    ghost function Items(): seq<Item>
      reads this
    {
      if nodes == [] then [] else nodes[1..]
    }

    /** Acyclic, duplicate free, and linked exactly in the order of nodes. */
    ghost predicate Valid()
      reads this, Repr
    {
      && nodes != [] && nodes[0] == head
      && (forall i :: 0 <= i < |nodes| ==> nodes[i] in Repr)
      && Distinct(nodes)
      && (forall i :: 0 <= i < |nodes| - 1 ==> nodes[i].next == nodes[i + 1])
      && nodes[|nodes| - 1].next == null
    }

    constructor ()
      ensures Valid() && Items() == [] && fresh(Repr)
    {
      var h := new Item();
      head := h;
      nodes, Repr := [h], {h};
    }

    method Empty() returns (empty: bool)
      requires Valid()
      ensures empty <==> Items() == []
    {
      empty := head.next == null;
    }

    method GetFirstItem() returns (first: Item?)
      requires Valid()
      ensures first == if Items() == [] then null else Items()[0]
    {
      first := head.next;
    }

    method GetLastItem() returns (last: Item?)
      requires Valid()
      ensures last == if Items() == [] then null else Items()[|Items()| - 1]
    {
      last := null;
      var it := head.next;
      ghost var i := 1;
      while it != null
        invariant 1 <= i <= |nodes|
        invariant it == if i < |nodes| then nodes[i] else null
        invariant last == if i == 1 then null else nodes[i - 1]
        decreases |nodes| - i
      {
        last := it;
        it := it.next;
        i := i + 1;
      }
    }

    /** Adds at the front, unless the item is in the list already. */
    method Add(item: Item) returns (added: bool)
      requires Valid() && item != head
      modifies this`nodes, this`Repr, head, item
      ensures Valid() && Repr == old(Repr) + {item}
      ensures added == (item !in old(Items()))
      ensures Items() == if added then [item] + old(Items()) else old(Items())
    {
      Repr := Repr + {item};
      var it := head.next;
      ghost var i := 1;
      while it != null
        invariant 1 <= i <= |nodes|
        invariant it == if i < |nodes| then nodes[i] else null
        invariant item !in nodes[..i]
        decreases |nodes| - i
      {
        if it == item {
          assert nodes[i] == Items()[i - 1];
          return false;
        }
        it := it.next;
        i := i + 1;
      }
      assert nodes[..i] == nodes;
      item.next := head.next;
      head.next := item;
      nodes := [head, item] + nodes[1..];
      return true;
    }

    /** Adds at the end, unless the item is in the list already. */
    method AddTail(item: Item) returns (added: bool)
      requires Valid() && item != head
      modifies this`nodes, this`Repr, Repr, item
      ensures Valid() && Repr == old(Repr) + {item}
      ensures added == (item !in old(Items()))
      ensures Items() == if added then old(Items()) + [item] else old(Items())
    {
      Repr := Repr + {item};
      var it := head;
      ghost var i := 0;
      while it.next != null
        invariant 0 <= i < |nodes| && it == nodes[i]
        invariant it.next == if i + 1 < |nodes| then nodes[i + 1] else null
        invariant item !in nodes[..i + 1]
        decreases |nodes| - i
      {
        if it.next == item {
          assert nodes[i + 1] == Items()[i];
          return false;
        }
        it := it.next;
        i := i + 1;
      }
      assert nodes[..i + 1] == nodes;
      item.next := null;
      it.next := item;
      nodes := nodes + [item];
      return true;
    }

    /** Points prev past its successor, the node at k. */
    method Unlink(prev: Item, next: Item?, ghost k: nat)
      requires Valid() && 0 < k < |nodes| && prev == nodes[k - 1]
      requires next == if k + 1 < |nodes| then nodes[k + 1] else null
      modifies this`nodes, prev
      ensures Valid() && nodes == Without(old(nodes), k)
    {
      prev.next := next;
      nodes := Without(nodes, k);
    }

    /** Unlinks the item wherever it is; at is the place it had. */
    method Remove(item: Item?) returns (removed: bool, ghost at: nat)
      requires Valid() && item != head
      modifies this`nodes, Repr
      ensures Valid()
      ensures removed == (item != null && item in old(Items()))
      ensures if removed then at < |old(Items())| && old(Items())[at] == item && nodes == Without(old(nodes), at + 1)
              else nodes == old(nodes)
      ensures removed ==> Items() == Without(old(Items()), at)
    {
      at := 0;
      if item == null {
        return false, at;
      }
      hide Without;
      var it: Item? := head;
      while it != null
        invariant 0 <= at <= |nodes|
        invariant it == if at < |nodes| then nodes[at] else null
        invariant it != null ==> it.next == if at + 1 < |nodes| then nodes[at + 1] else null
        invariant forall j :: 0 <= j <= at && j < |nodes| ==> nodes[j] != item
        decreases |nodes| - at
      {
        if it.next == item {
          ghost var was := nodes;
          assert item == nodes[at + 1];
          assert at + 2 < |nodes| ==> nodes[at + 1].next == nodes[at + 2];
          Unlink(it, item.next, at + 1);
          WithoutTail(was, at + 1);
          assert was[1..][at] == item;
          return true, at;
        }
        it := it.next;
        at := at + 1;
      }
      return false, at;
    }

    method Count() returns (counter: nat)
      requires Valid()
      ensures counter == |Items()|
    {
      counter := 0;
      var it := head;
      while it.next != null
        invariant 0 <= counter < |nodes| && it == nodes[counter]
        decreases |nodes| - counter
      {
        it := it.next;
        counter := counter + 1;
      }
    }

    /** Removes and returns the first item. */
    method Pop() returns (item: Item?)
      requires Valid()
      modifies this`nodes, head
      ensures Valid()
      ensures if old(Items()) == [] then item == null && Items() == []
              else item == old(Items())[0] && Items() == old(Items())[1..]
    {
      item := head.next;
      if item == null {
        return null;
      }
      assert |nodes| > 1 ==> nodes[0].next == nodes[1];
      assert |nodes| > 2 ==> nodes[1].next == nodes[2];
      head.next := item.next;
      nodes := Without(nodes, 1);
    }
  }

  /** What a sweep does with each item it visits. */
  datatype Action = Keep | IteratorRemove | ListRemove

  class Iterator {
    var advanceOnNext: bool
    var prev: Item
    var curr: Item?
    const list: List

    /**
     The cursor stands after the first k items: the item returned last is the k-th one, unless it
     has been removed, by the iterator or directly from the list.
     */
    ghost predicate At(k: nat)
      reads this, prev, list, list.Repr
    {
      && list.Valid() && k < |list.nodes|
      && if !advanceOnNext then prev == list.nodes[k] && curr == prev.next
         else curr != null
              && if prev.next == curr then k > 0 && prev == list.nodes[k - 1] && curr == list.nodes[k]
                 else prev == list.nodes[k]
    }

    lemma Stands(k: nat)
      requires At(k)
      ensures list.Valid()
    {
    }

    /** iterator_init */
    constructor (list: List)
      requires list.Valid()
      ensures this.list == list && At(0) && !advanceOnNext
    {
      advanceOnNext := false;
      this.list := list;
      prev := list.head;
      curr := list.head.next;
    }

    method HasNext(ghost k: nat) returns (more: bool)
      requires At(k)
      ensures At(k) && list.nodes == old(list.nodes)
      ensures more <==> k < |list.Items()|
    {
      assert k < |list.nodes| - 1 ==> list.nodes[k].next == list.nodes[k + 1];
      if !advanceOnNext {
        return curr != null;
      }
      if prev.next != curr {
        // current item has been removed
        return prev.next != null;
      }
      return curr.next != null;
    }

    method Next(ghost k: nat) returns (item: Item)
      requires At(k) && k < |list.Items()|
      modifies this
      ensures At(k + 1) && item == list.Items()[k]
      ensures advanceOnNext && curr == item && prev.next == item
    {
      assert list.nodes[k].next == list.nodes[k + 1];
      if advanceOnNext {
        if prev.next == curr {
          prev := curr;
          curr := curr.next;
        } else {
          // curr was removed from the list
          curr := prev.next;
        }
      } else {
        advanceOnNext := true;
      }
      item := curr;
    }

    /** Removes the item that Next has just returned. */
    method Remove(ghost k: nat)
      requires At(k) && k > 0 && advanceOnNext && prev.next == curr
      modifies this`curr, this`advanceOnNext, list`nodes, prev
      ensures At(k - 1) && list.Items() == Without(old(list.Items()), k - 1)
    {
      hide Without;
      ghost var was := list.nodes;
      assert k < |was| - 1 ==> was[k].next == was[k + 1];
      assert prev == was[k - 1] && curr == was[k];
      curr := curr.next;
      list.Unlink(prev, curr, k);
      advanceOnNext := false;
      WithoutTail(was, k);
      ghost var nodes := list.nodes;
      assert nodes[k - 1] == prev;
      assert k < |nodes| ==> nodes[k - 1].next == nodes[k];
    }
  }

  /** The items a sweep leaves in the list. */
  function Kept<T>(items: seq<T>, actions: seq<Action>): seq<T>
    requires |items| == |actions|
  {
    if items == [] then []
    else
      var n := |items| - 1;
      Kept(items[..n], actions[..n]) + if actions[n] == Keep then [items[n]] else []
  }

  /** Directly removing the item returned last leaves the cursor where it was. */
  method RemoveCurrent(it: Iterator, ghost k: nat)
    requires it.At(k) && k > 0 && it.advanceOnNext && it.prev.next == it.curr
    modifies it.list`nodes, it.list.Repr
    ensures it.At(k - 1) && it.list.nodes == Without(old(it.list.nodes), k)
  {
    hide Without;
    ghost var was := it.list.nodes;
    assert was[1..][k - 1] == it.curr;
    var removed, at := it.list.Remove(it.curr);
    assert was[1..][at] == was[at + 1];
    assert at == k - 1;
    WithoutMembers(was, k);
    ghost var nodes := it.list.nodes;
    assert it.prev == nodes[k - 1];
    if k < |nodes| {
      assert nodes[k - 1].next == nodes[k];
      assert nodes[k] in nodes;
    } else {
      assert nodes[k - 1].next == null;
    }
  }

  /** One round of a sweep: visit the next item, then do with it what action says. */
  method Visit(it: Iterator, action: Action, ghost k: nat) returns (item: Item)
    requires it.At(k) && k < |it.list.Items()|
    modifies it, it.list`nodes, it.list.Repr
    ensures item == old(it.list.Items())[k]
    ensures it.list.Repr == old(it.list.Repr)
    ensures it.At(if action == Keep then k + 1 else k)
    ensures it.list.nodes == if action == Keep then old(it.list.nodes) else Without(old(it.list.nodes), k + 1)
  {
    hide Without;
    item := it.Next(k);
    match action {
      case Keep =>
      case IteratorRemove => it.Remove(k + 1);
      case ListRemove => RemoveCurrent(it, k + 1);
    }
  }

  /** In the middle of a sweep: the cursor stands between what was kept of the visited items and the rest. */
  ghost predicate Swept<T>(all: seq<T>, actions: seq<Action>, visited: seq<T>, items: seq<T>, k: nat) {
    var n := |visited|;
    && |all| == |actions| && n <= |all| && visited == all[..n]
    && items == Kept(all[..n], actions[..n]) + all[n..]
    && k == |Kept(all[..n], actions[..n])|
  }

  lemma SweptStart<T>(all: seq<T>, actions: seq<Action>)
    requires |all| == |actions|
    ensures Swept(all, actions, [], all, 0)
  {
  }

  lemma SweptStep<T>(all: seq<T>, actions: seq<Action>, visited: seq<T>, items: seq<T>, k: nat)
    requires Swept(all, actions, visited, items, k) && k < |items|
    ensures |visited| < |all|
    ensures if actions[|visited|] == Keep then Swept(all, actions, visited + [items[k]], items, k + 1)
            else Swept(all, actions, visited + [items[k]], Without(items, k), k)
  {
    var n := |visited|;
    assert all[..n + 1][..n] == all[..n] && actions[..n + 1][..n] == actions[..n];
    assert all[n..] == [all[n]] + all[n + 1..] && all[..n + 1] == all[..n] + [all[n]];
  }

  lemma SweptEnd<T>(all: seq<T>, actions: seq<Action>, visited: seq<T>, items: seq<T>, k: nat)
    requires Swept(all, actions, visited, items, k) && k >= |items|
    ensures visited == all && items == Kept(all, actions)
  {
    assert all[..|all|] == all && actions[..|all|] == actions;
  }

  /** One round of a sweep, and whether another one follows. */
  method SweepRound(it: Iterator, action: Action, ghost all: seq<Item>, ghost actions: seq<Action>,
                    ghost visited: seq<Item>, ghost k: nat)
    returns (item: Item, more: bool, ghost next: nat)
    requires it.At(k) && k < |it.list.Items()| && Swept(all, actions, visited, it.list.Items(), k)
    requires |visited| < |actions| && action == actions[|visited|]
    modifies it, it.list`nodes, it.list.Repr
    ensures it.list.Repr == old(it.list.Repr)
    ensures it.At(next) && Swept(all, actions, visited + [item], it.list.Items(), next)
    ensures more <==> next < |it.list.Items()|
  {
    hide Without, Swept;
    ghost var nodes, items := it.list.nodes, it.list.Items();
    SweptStep(all, actions, visited, items, k);
    item := Visit(it, action, k);
    WithoutTail(nodes, k + 1);
    assert it.list.Items() == if action == Keep then items else Without(items, k);
    next := if action == Keep then k + 1 else k;
    more := it.HasNext(next);
  }

  /**
   One pass over the list that keeps each item, removes it through the iterator, or removes it from
   the list directly: every original item is visited exactly once and in order, and exactly the
   kept ones remain, in order.
   */
  method Sweep(list: List, actions: seq<Action>) returns (visited: seq<Item>)
    requires list.Valid() && |actions| == |list.Items()|
    modifies list`nodes, list.Repr
    ensures list.Valid()
    ensures visited == old(list.Items())
    ensures list.Items() == Kept(old(list.Items()), actions)
  {
    hide Kept, Without, Swept, Iterator.At;
    ghost var all := list.Items();
    var it := new Iterator(list);
    visited := [];
    ghost var k: nat := 0;
    SweptStart(all, actions);
    var more := it.HasNext(k);
    while more
      invariant it.list == list && fresh(it) && list.Repr == old(list.Repr)
      invariant it.At(k)
      invariant Swept(all, actions, visited, list.Items(), k)
      invariant more <==> k < |list.Items()|
      decreases |all| - |visited|
    {
      SweptStep(all, actions, visited, list.Items(), k);
      var item;
      item, more, k := SweepRound(it, actions[|visited|], all, actions, visited, k);
      visited := visited + [item];
    }
    it.Stands(k);
    SweptEnd(all, actions, visited, list.Items(), k);
  }
}
