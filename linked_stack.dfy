/**
 * The singly linked LIFO stack of linked_stack_kata/src/day_10.rs, with its
 * construction from an iterator and its three iterators: the consuming one,
 * the shared-reference one and the mutable-reference one.
 *
 * The chain of nodes from `head` is abstracted by the ghost sequence `Nodes`
 * (head first); the stack's contents are the items of those nodes. Because
 * the contents are read off the nodes rather than kept in a ghost copy, a
 * write through the mutable iterator changes them exactly where it happens.
 */
module LinkedStack {
  import opened Wrappers

  /** A node of the chain: one item and the link to the rest. */
  class Node<T> {
    var item: T
    var next: Node?<T>

    /** `Node::new`. */
    constructor (item: T, next: Node?<T>)
      ensures this.item == item && this.next == next
    {
      this.item := item;
      this.next := next;
    }
  }

  /**
   * `nodes` is the chain of links that starts at `first` and ends in `None`:
   * each node's `next` is the node after it, and the last one's is `None`.
   */
  ghost predicate IsChain<T>(first: Node?<T>, nodes: seq<Node<T>>)
    reads nodes`next
    decreases |nodes|
  {
    if nodes == [] then first == null
    else first == nodes[0] && IsChain(nodes[0].next, nodes[1..])
  }

  /** The links determine the chain: from a given start there is only one. */
  lemma {:induction false} ChainDetermined<T>(first: Node?<T>, a: seq<Node<T>>, b: seq<Node<T>>)
    requires IsChain(first, a) && IsChain(first, b)
    ensures a == b
    decreases |a|
  {
    if a != [] {
      assert b != [] && b[0] == a[0];
      ChainDetermined(a[0].next, a[1..], b[1..]);
      assert a == [a[0]] + a[1..] && b == [b[0]] + b[1..];
    }
  }

  /** Every suffix of a chain is the chain that starts at its first node. */
  lemma {:induction false} ChainSuffix<T>(first: Node?<T>, nodes: seq<Node<T>>, k: nat)
    requires IsChain(first, nodes) && k < |nodes|
    ensures IsChain(nodes[k], nodes[k..])
    decreases k
  {
    if k > 0 {
      ChainSuffix(nodes[0].next, nodes[1..], k - 1);
      assert nodes[1..][k - 1..] == nodes[k..];
    }
  }

  /**
   * A chain that ends in `None` never revisits a node: two positions holding
   * the same node would start two chains of different lengths from one node.
   */
  lemma ChainNoRepeat<T>(first: Node?<T>, nodes: seq<Node<T>>, i: nat, j: nat)
    requires IsChain(first, nodes)
    requires i < j < |nodes|
    ensures nodes[i] != nodes[j]
  {
    ChainSuffix(first, nodes, i);
    ChainSuffix(first, nodes, j);
    if nodes[i] == nodes[j] {
      ChainDetermined(nodes[i], nodes[i..], nodes[j..]);
    }
  }

  /** The node at position `k` of a chain occurs nowhere else in it. */
  lemma ChainUnique<T>(first: Node?<T>, nodes: seq<Node<T>>, k: nat)
    requires IsChain(first, nodes) && k < |nodes|
    ensures forall i :: 0 <= i < |nodes| && i != k ==> nodes[i] != nodes[k]
  {
    forall i | 0 <= i < |nodes| && i != k
      ensures nodes[i] != nodes[k]
    {
      if i < k {
        ChainNoRepeat(first, nodes, i, k);
      } else {
        ChainNoRepeat(first, nodes, k, i);
      }
    }
  }

  /** The items of a chain, head first. */
  ghost function Items<T>(nodes: seq<Node<T>>): seq<T>
    reads nodes
  {
    seq(|nodes|, i requires 0 <= i < |nodes| reads nodes => nodes[i].item)
  }

  /** The sequence in the opposite order: the order in which pushed items come back out. */
  function Reverse<T>(xs: seq<T>): (r: seq<T>)
    ensures |r| == |xs|
    ensures forall i :: 0 <= i < |xs| ==> r[i] == xs[|xs| - 1 - i]
  {
    if xs == [] then [] else [xs[|xs| - 1]] + Reverse(xs[..|xs| - 1])
  }

  /** Reversing twice gives back the original order. */
  lemma {:induction false} ReverseReverse<T>(xs: seq<T>)
    ensures Reverse(Reverse(xs)) == xs
  {
  }

  class Stack<T> {
    var head: Node?<T>
    ghost var Nodes: seq<Node<T>>

    ghost predicate Valid()
      reads this, Nodes`next
    {
      IsChain(head, Nodes)
    }

    /** The items on the stack, top first. */
    ghost function Contents(): seq<T>
      reads this, Nodes
    {
      Items(Nodes)
    }

    /** `Stack::default`: the empty stack. */
    constructor Default()
      ensures Valid() && Nodes == [] && Contents() == []
    {
      head := null;
      Nodes := [];
    }

    /** `push`: the new item goes on top, on a fresh node; the rest of the chain is untouched. */
    method Push(item: T)
      requires Valid()
      modifies this
      ensures Valid()
      ensures Contents() == [item] + old(Contents())
      ensures |Nodes| == |old(Nodes)| + 1 && fresh(Nodes[0]) && Nodes[1..] == old(Nodes)
    {
      var node := new Node(item, head);
      ghost var rest := Nodes;
      assert Items(rest) == old(Items(rest));
      head := node;
      Nodes := [node] + rest;
      assert Nodes[1..] == rest;
      assert Items(Nodes) == [item] + Items(rest);
    }

    /**
     * `pop`: `None` and no change on an empty stack; otherwise the top item,
     * and the stack loses exactly its first node.
     */
    method Pop() returns (r: Option<T>)
      requires Valid()
      modifies this
      ensures Valid()
      ensures old(Contents()) == [] ==> r == None && Nodes == [] && Contents() == []
      ensures old(Contents()) != [] ==> r == Some(old(Contents())[0]) && Nodes == old(Nodes)[1..]
      ensures Contents() == if old(Contents()) == [] then [] else old(Contents())[1..]
    {
      if head == null {
        r := None;
      } else {
        r := Some(head.item);
        head := head.next;
        Nodes := Nodes[1..];
      }
    }

    /** `into_iter(self)`: the consuming iterator takes the stack over. */
    method IntoIter() returns (it: StackIter<T>)
      requires Valid()
      ensures fresh(it) && it.stack == this && it.Valid()
    {
      it := new StackIter(this);
    }

    /** `into_iter(&self)`: a shared-reference iterator positioned at the head. */
    method Iter() returns (it: StackRefIter<T>)
      requires Valid()
      ensures fresh(it) && it.Valid() && it.Rest == Nodes
    {
      it := new StackRefIter(head, Nodes);
    }

    /** `into_iter(&mut self)`: a mutable-reference iterator positioned at the head. */
    method IterMut() returns (it: StackMutRefIter<T>)
      requires Valid()
      ensures fresh(it) && it.Valid() && it.Rest == Nodes
    {
      it := new StackMutRefIter(head, Nodes);
    }
  }

  /** `from_iter`: pushes the items in iteration order, so the last one ends up on top. */
  method FromIter<T>(items: seq<T>) returns (s: Stack<T>)
    ensures fresh(s) && s.Valid() && s.Contents() == Reverse(items)
    ensures forall i :: 0 <= i < |s.Nodes| ==> fresh(s.Nodes[i])
  {
    s := new Stack.Default();
    var i := 0;
    while i < |items|
      invariant 0 <= i <= |items|
      invariant fresh(s) && s.Valid()
      invariant forall i :: 0 <= i < |s.Nodes| ==> fresh(s.Nodes[i])
      invariant s.Contents() == Reverse(items[..i])
    {
      s.Push(items[i]);
      assert items[..i + 1][..i] == items[..i];
      i := i + 1;
    }
    assert items[..i] == items;
  }

  /** `StackIter`: the consuming iterator; every `next` is a `pop` of the stack it owns. */
  class StackIter<T> {
    var stack: Stack<T>

    constructor (stack: Stack<T>)
      requires stack.Valid()
      ensures this.stack == stack && Valid()
    {
      this.stack := stack;
    }

    ghost predicate Valid()
      reads this, stack, stack.Nodes`next
    {
      stack.Valid()
    }

    /** The items still to come. */
    ghost function Remaining(): seq<T>
      reads this, stack, stack.Nodes
    {
      stack.Contents()
    }

    method Next() returns (r: Option<T>)
      requires Valid()
      modifies stack
      ensures Valid()
      ensures old(Remaining()) == [] ==> r == None && Remaining() == []
      ensures old(Remaining()) != [] ==> r == Some(old(Remaining())[0]) && Remaining() == old(Remaining())[1..]
    {
      r := stack.Pop();
    }
  }

  /** `StackRefIter`: walks the chain without touching it, one node per `next`. */
  class StackRefIter<T> {
    var node: Node?<T>
    ghost var Rest: seq<Node<T>>

    constructor (node: Node?<T>, ghost rest: seq<Node<T>>)
      requires IsChain(node, rest)
      ensures this.node == node && Rest == rest && Valid()
    {
      this.node := node;
      Rest := rest;
    }

    ghost predicate Valid()
      reads this, Rest`next
    {
      IsChain(node, Rest)
    }

    method Next() returns (r: Option<T>)
      requires Valid()
      modifies this
      ensures Valid()
      ensures old(Rest) == [] ==> r == None && Rest == []
      ensures old(Rest) != [] ==> r == Some(old(Rest[0].item)) && Rest == old(Rest)[1..]
    {
      if node == null {
        r := None;
      } else {
        r := Some(node.item);
        node := node.next;
        Rest := Rest[1..];
      }
    }
  }

  /**
   * `StackMutRefIter`: walks the chain one node per `next` and hands out the
   * node itself, through which the caller may overwrite the item, as a
   * `&mut T` allows; the links are never touched.
   */
  class StackMutRefIter<T> {
    var node: Node?<T>
    ghost var Rest: seq<Node<T>>

    constructor (node: Node?<T>, ghost rest: seq<Node<T>>)
      requires IsChain(node, rest)
      ensures this.node == node && Rest == rest && Valid()
    {
      this.node := node;
      Rest := rest;
    }

    ghost predicate Valid()
      reads this, Rest`next
    {
      IsChain(node, Rest)
    }

    method Next() returns (r: Option<Node<T>>)
      requires Valid()
      modifies this
      ensures Valid()
      ensures old(Rest) == [] ==> r == None && Rest == []
      ensures old(Rest) != [] ==> r == Some(old(Rest)[0]) && Rest == old(Rest)[1..]
    {
      if node == null {
        r := None;
      } else {
        r := Some(node);
        node := node.next;
        Rest := Rest[1..];
      }
    }
  }

  /** Draining the consuming iterator yields the stack's items top first, then `None`. */
  method Drain<T>(it: StackIter<T>) returns (xs: seq<T>, last: Option<T>)
    requires it.Valid()
    modifies it.stack
    ensures xs == old(it.Remaining()) && last == None && it.Remaining() == []
  {
    xs := [];
    var r := it.Next();
    while r.Some?
      invariant it.Valid()
      invariant r.Some? ==> old(it.Remaining()) == xs + [r.value] + it.Remaining()
      invariant r.None? ==> old(it.Remaining()) == xs && it.Remaining() == []
      decreases |it.Remaining()|, r.Some?
    {
      xs := xs + [r.value];
      r := it.Next();
    }
    last := r;
  }

  /** Walking the shared-reference iterator yields the stack's items top first and changes nothing. */
  method Collect<T>(s: Stack<T>) returns (xs: seq<T>)
    requires s.Valid()
    ensures xs == s.Contents()
  {
    var it := s.Iter();
    xs := [];
    var r := it.Next();
    while r.Some?
      invariant it.Valid() && fresh(it)
      invariant |xs| <= |s.Nodes|
      invariant forall i :: 0 <= i < |xs| ==> xs[i] == s.Nodes[i].item
      invariant r.Some? ==> |xs| < |s.Nodes| && r.value == s.Nodes[|xs|].item && it.Rest == s.Nodes[|xs| + 1..]
      invariant r.None? ==> |xs| == |s.Nodes|
      decreases |s.Nodes| - |xs|
    {
      xs := xs + [r.value];
      r := it.Next();
    }
  }

  /** Reading through every reference the mutable iterator hands out yields the stack's items top first. */
  method CollectMut<T>(s: Stack<T>) returns (xs: seq<T>)
    requires s.Valid()
    ensures xs == s.Contents()
  {
    var it := s.IterMut();
    xs := [];
    var r := it.Next();
    while r.Some?
      invariant it.Valid() && fresh(it)
      invariant |xs| <= |s.Nodes|
      invariant forall i :: 0 <= i < |xs| ==> xs[i] == s.Nodes[i].item
      invariant r.Some? ==> |xs| < |s.Nodes| && r.value == s.Nodes[|xs|] && it.Rest == s.Nodes[|xs| + 1..]
      invariant r.None? ==> |xs| == |s.Nodes|
      decreases |s.Nodes| - |xs|
    {
      xs := xs + [r.value.item];
      r := it.Next();
    }
  }

  /**
   * Writing through every reference the mutable iterator hands out visits each
   * item once, top first (`seen` is what each reference held when handed out):
   * the items are rewritten in place by `f`, and the chain keeps its nodes,
   * length and order.
   */
  method UpdateAll<T>(s: Stack<T>, f: T -> T)
    requires s.Valid()
    modifies s.Nodes`item
    ensures s.Valid() && s.Nodes == old(s.Nodes)
    ensures |s.Contents()| == |old(s.Contents())|
    ensures forall i :: 0 <= i < |s.Nodes| ==> s.Contents()[i] == f(old(s.Contents())[i])
  {
    ghost var before := s.Contents();
    var it := s.IterMut();
    var k := 0;
    var r := it.Next();
    while r.Some?
      invariant it.Valid() && fresh(it)
      invariant s.Valid()
      invariant 0 <= k <= |s.Nodes|
      invariant r.Some? ==> k < |s.Nodes| && r.value == s.Nodes[k] && it.Rest == s.Nodes[k + 1..]
      invariant r.None? ==> k == |s.Nodes|
      invariant forall i :: 0 <= i < k ==> s.Nodes[i].item == f(before[i])
      invariant forall i :: k <= i < |s.Nodes| ==> s.Nodes[i].item == before[i]
      decreases |s.Nodes| - k
    {
      var node := r.value;
      ChainUnique(s.head, s.Nodes, k);
      node.item := f(node.item);
      k := k + 1;
      r := it.Next();
    }
  }

  /** `push` then `pop` hands the pushed item back and restores the stack. */
  method PushPop<T>(s: Stack<T>, x: T) returns (r: Option<T>)
    requires s.Valid()
    modifies s
    ensures s.Valid() && r == Some(x) && s.Contents() == old(s.Contents()) && s.Nodes == old(s.Nodes)
  {
    s.Push(x);
    r := s.Pop();
  }

  /** Items pushed onto an empty stack pop off in the reverse order, and then the stack is empty. */
  method PopAfterPushes<T>(a: T, b: T, c: T) returns (first: Option<T>, second: Option<T>, third: Option<T>, fourth: Option<T>)
    ensures first == Some(c) && second == Some(b) && third == Some(a) && fourth == None
  {
    var s := new Stack.Default();
    s.Push(a);
    s.Push(b);
    s.Push(c);
    first := s.Pop();
    second := s.Pop();
    third := s.Pop();
    fourth := s.Pop();
  }

  /** A stack built from an iterator and then consumed yields the items in reverse iteration order. */
  method FromIterIntoIter<T>(items: seq<T>) returns (xs: seq<T>, last: Option<T>)
    ensures xs == Reverse(items) && last == None
  {
    var s := FromIter(items);
    var it := s.IntoIter();
    xs, last := Drain(it);
  }

  /** Popping a default stack gives `None`. */
  method PopEmpty<T>() returns (r: Option<T>)
    ensures r == None
  {
    var s := new Stack<T>.Default();
    r := s.Pop();
  }

  /** One item pushed onto an empty stack comes back, and then nothing. */
  method PushPopSingle<T>(x: T) returns (first: Option<T>, second: Option<T>)
    ensures first == Some(x) && second == None
  {
    var s := new Stack.Default();
    s.Push(x);
    first := s.Pop();
    second := s.Pop();
  }

  /**
   * A stack collected from `1..=3` yields `3, 2, 1` through the shared-reference
   * iterator and then again through the consuming one.
   */
  method IterateCollected() returns (walked: seq<int>, drained: seq<int>, last: Option<int>)
    ensures walked == [3, 2, 1] && drained == [3, 2, 1] && last == None
  {
    var s := FromIter([1, 2, 3]);
    walked := Collect(s);
    var it := s.IntoIter();
    drained, last := Drain(it);
  }

  /** The mutable-reference iterator over a stack collected from `1..=3` hands out `3, 2, 1`. */
  method MutIterateCollected() returns (walked: seq<int>)
    ensures walked == [3, 2, 1]
  {
    var s := FromIter([1, 2, 3]);
    walked := CollectMut(s);
  }
}
