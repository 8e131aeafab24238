/**
 The thread lists of src/kern/thread/threadlist.c: doubly linked through the threads' own list nodes, between
 two sentinel nodes.  Every operation is proved against the same operation on a sequence of nodes.
 */
module Threadlists {

  /** A struct threadlistnode; self is the thread it belongs to, 0 for a sentinel. */
  class Node {
    var prev: Node?
    var next: Node?
    const self: nat

    constructor (self: nat)
      ensures this.self == self && prev == null && next == null
    {
      this.self := self;
      prev, next := null, null;
    }
  }

  /** c is linked in both directions, from its first to its last node. */
  ghost predicate Chain(c: seq<Node>)
    reads c
  {
    && |c| >= 2
    && (forall i, j | 0 <= i < j < |c| :: c[i] != c[j])
    && (forall i | 0 <= i < |c| - 1 :: c[i].next == c[i + 1])
    && (forall i | 1 <= i < |c| :: c[i].prev == c[i - 1])
    && c[0].prev == null && c[|c| - 1].next == null
  }

  /** Puts x between positions i and i + 1. */
  function Insert(c: seq<Node>, i: nat, x: Node): (r: seq<Node>)
    requires i + 1 < |c|
    ensures |r| == |c| + 1
    ensures forall k | 0 <= k < |r| :: r[k] == if k <= i then c[k] else if k == i + 1 then x else c[k - 1]
  {
    c[..i + 1] + [x] + c[i + 1..]
  }

  function Delete(c: seq<Node>, i: nat): (r: seq<Node>)
    requires i < |c|
    ensures |r| == |c| - 1
    ensures forall k | 0 <= k < |r| :: r[k] == if k < i then c[k] else c[k + 1]
  {
    c[..i] + c[i + 1..]
  }

  /** threadlist_insertafternode. */
  method InsertAfterNode(on: Node, addee: Node, ghost c: seq<Node>, ghost i: nat)
    requires Chain(c) && i + 1 < |c| && c[i] == on && addee !in c
    requires addee.prev == null && addee.next == null
    modifies c, addee
    ensures Chain(Insert(c, i, addee))
  {
    assert on.next == c[i + 1];
    addee.prev := on;
    addee.next := on.next;
    addee.prev.next := addee;
    addee.next.prev := addee;
  }

  /** threadlist_insertbeforenode. */
  method InsertBeforeNode(addee: Node, on: Node, ghost c: seq<Node>, ghost i: nat)
    requires Chain(c) && i + 1 < |c| && c[i + 1] == on && addee !in c
    requires addee.prev == null && addee.next == null
    modifies c, addee
    ensures Chain(Insert(c, i, addee))
  {
    assert on.prev == c[i];
    addee.prev := on.prev;
    addee.next := on;
    addee.prev.next := addee;
    addee.next.prev := addee;
  }

  /** threadlist_removenode. */
  method RemoveNode(tln: Node, ghost c: seq<Node>, ghost i: nat)
    requires Chain(c) && 0 < i < |c| - 1 && c[i] == tln
    modifies c
    ensures Chain(Delete(c, i)) && tln.prev == null && tln.next == null
  {
    assert tln.prev == c[i - 1] && tln.next == c[i + 1];
    tln.prev.next := tln.next;
    tln.next.prev := tln.prev;
    tln.prev := null;
    tln.next := null;
  }

  /** A position between the sentinels is one of the list proper. */
  lemma Spliced(head: Node, nodes: seq<Node>, tail: Node, i: nat, x: Node)
    requires i <= |nodes|
    ensures Insert([head] + nodes + [tail], i, x) == [head] + (nodes[..i] + [x] + nodes[i..]) + [tail]
  {
  }

  lemma Cut(head: Node, nodes: seq<Node>, tail: Node, i: nat)
    requires i < |nodes|
    ensures Delete([head] + nodes + [tail], i + 1) == [head] + (nodes[..i] + nodes[i + 1..]) + [tail]
  {
  }

  class Threadlist {
    const head: Node
    const tail: Node
    var count: nat
    ghost var nodes: seq<Node>

    ghost function All(): seq<Node>
      reads this
    {
      [head] + nodes + [tail]
    }

    /** The list runs through nodes, and tl_count is its length. */
    ghost predicate Valid()
      reads this, All()
    {
      && Chain(All()) && count == |nodes|
      && head.self == 0 && tail.self == 0 && forall i | 0 <= i < |nodes| :: nodes[i].self != 0
    }

    /** A thread that is on no list. */
    ghost predicate Loose(t: Node)
      reads this, t
    {
      t !in All() && t.prev == null && t.next == null && t.self != 0
    }

    /** threadlist_init. */
    constructor ()
      ensures Valid() && nodes == [] && fresh(head) && fresh(tail)
    {
      var h := new Node(0);
      var t := new Node(0);
      head, tail, count, nodes := h, t, 0, [];
      new;
      head.next := tail;
      tail.prev := head;
    }

    /** threadlist_isempty. */
    method IsEmpty() returns (empty: bool)
      requires Valid()
      ensures empty <==> nodes == []
    {
      empty := count == 0;
    }

    /** threadlist_addhead. */
    method AddHead(t: Node)
      requires Valid() && Loose(t)
      modifies this, All(), t
      ensures Valid() && nodes == [t] + old(nodes)
    {
      InsertAfterNode(head, t, All(), 0);
      count := count + 1;
      nodes := [t] + nodes;
      assert All() == Insert(old(All()), 0, t);
    }

    /** threadlist_addtail. */
    method AddTail(t: Node)
      requires Valid() && Loose(t)
      modifies this, All(), t
      ensures Valid() && nodes == old(nodes) + [t]
    {
      InsertBeforeNode(t, tail, All(), |nodes|);
      count := count + 1;
      nodes := nodes + [t];
      assert All() == Insert(old(All()), |old(nodes)|, t);
    }

    /** threadlist_remhead. */
    method RemHead() returns (t: Node?)
      requires Valid()
      modifies this, All()
      ensures Valid()
      ensures t == null <==> old(nodes) == []
      ensures t == null ==> nodes == old(nodes)
      ensures t != null ==> t == old(nodes)[0] && nodes == old(nodes)[1..] && Loose(t)
    {
      var tln := head.next;
      assert All()[0].next == All()[1];
      assert nodes != [] ==> All()[1].next == All()[2];
      if tln.next == null {
        return null;
      }
      RemoveNode(tln, All(), 1);
      count := count - 1;
      nodes := nodes[1..];
      assert All() == Delete(old(All()), 1);
      return tln;
    }

    /** threadlist_remtail. */
    method RemTail() returns (t: Node?)
      requires Valid()
      modifies this, All()
      ensures Valid()
      ensures t == null <==> old(nodes) == []
      ensures t == null ==> nodes == old(nodes)
      ensures t != null ==> t == old(nodes)[|old(nodes)| - 1] && nodes == old(nodes)[..|old(nodes)| - 1] && Loose(t)
    {
      var tln := tail.prev;
      ghost var n := |nodes|;
      assert All()[n + 1].prev == All()[n];
      assert n > 0 ==> All()[n].prev == All()[n - 1];
      if tln.prev == null {
        return null;
      }
      RemoveNode(tln, All(), n);
      count := count - 1;
      nodes := nodes[..n - 1];
      assert All() == Delete(old(All()), n);
      return tln;
    }

    /** threadlist_insertafter. */
    method InsertAfter(on: Node, addee: Node, ghost i: nat)
      requires Valid() && Loose(addee) && i < |nodes| && nodes[i] == on
      modifies this, All(), addee
      ensures Valid() && nodes == old(nodes)[..i + 1] + [addee] + old(nodes)[i + 1..]
    {
      ghost var c := All();
      Spliced(head, nodes, tail, i + 1, addee);
      InsertAfterNode(on, addee, c, i + 1);
      count := count + 1;
      nodes := nodes[..i + 1] + [addee] + nodes[i + 1..];
      assert All() == Insert(c, i + 1, addee);
    }

    /** threadlist_insertbefore. */
    method InsertBefore(addee: Node, on: Node, ghost i: nat)
      requires Valid() && Loose(addee) && i < |nodes| && nodes[i] == on
      modifies this, All(), addee
      ensures Valid() && nodes == old(nodes)[..i] + [addee] + old(nodes)[i..]
    {
      ghost var c := All();
      Spliced(head, nodes, tail, i, addee);
      InsertBeforeNode(addee, on, c, i);
      count := count + 1;
      nodes := nodes[..i] + [addee] + nodes[i..];
      assert All() == Insert(c, i, addee);
    }

    /** threadlist_remove. */
    method Remove(t: Node, ghost i: nat)
      requires Valid() && i < |nodes| && nodes[i] == t
      modifies this, All()
      ensures Valid() && Loose(t) && nodes == old(nodes)[..i] + old(nodes)[i + 1..]
    {
      ghost var c := All();
      Cut(head, nodes, tail, i);
      RemoveNode(t, c, i + 1);
      count := count - 1;
      nodes := nodes[..i] + nodes[i + 1..];
      assert All() == Delete(c, i + 1);
    }

    /** THREADLIST_FORALL visits the threads in order. */
    method Forward() returns (ts: seq<nat>)
      requires Valid()
      ensures |ts| == |nodes| && forall i | 0 <= i < |nodes| :: ts[i] == nodes[i].self
    {
      ts := [];
      ghost var c := All();
      assert c[0].next == c[1];
      var cur := head.next;
      while cur.self != 0
        invariant |ts| <= |nodes| && cur == c[|ts| + 1] && (|ts| < |nodes| ==> cur == nodes[|ts|])
        invariant forall i | 0 <= i < |ts| :: ts[i] == nodes[i].self
        decreases |nodes| - |ts|
      {
        assert c[|ts| + 1].next == c[|ts| + 2];
        ts := ts + [cur.self];
        cur := cur.next;
      }
    }

    /** THREADLIST_FORALL_REV visits them in the opposite order. */
    method Backward() returns (ts: seq<nat>)
      requires Valid()
      ensures |ts| == |nodes| && forall i | 0 <= i < |nodes| :: ts[i] == nodes[|nodes| - 1 - i].self
    {
      ts := [];
      ghost var c, n := All(), |nodes|;
      assert c[n + 1].prev == c[n];
      var cur := tail.prev;
      while cur.self != 0
        invariant |ts| <= n && cur == c[n - |ts|] && (|ts| < n ==> cur == nodes[n - 1 - |ts|])
        invariant forall i | 0 <= i < |ts| :: ts[i] == nodes[n - 1 - i].self
        decreases n - |ts|
      {
        assert c[n - |ts|].prev == c[n - |ts| - 1];
        ts := ts + [cur.self];
        cur := cur.prev;
      }
    }
  }
}
