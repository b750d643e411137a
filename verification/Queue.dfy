/** The singly linked queue of Queue.cpp: O(1) enqueue, dequeue, splice (load) and detach (dump). */
module LinkedQueue {
  import opened Basics

  class Node<T> {
    var data: T
    var next: Node?<T>

    constructor (data: T)
      ensures this.data == data && next == null
    {
      this.data := data;
      next := null;
    }
  }

  /** Following next from head visits exactly these nodes, ends at tail, and stops there. */
  ghost predicate Chain<T>(nodes: seq<Node<T>>, head: Node?<T>, tail: Node?<T>)
    reads nodes
  {
    if nodes == [] then head == null && tail == null
    else
      && head == nodes[0]
      && tail == nodes[|nodes| - 1]
      && tail.next == null
      && forall i :: 0 <= i < |nodes| - 1 ==> nodes[i].next == nodes[i + 1]
  }

  ghost function Values<T>(nodes: seq<Node<T>>): seq<T>
    reads nodes
  {
    seq(|nodes|, i requires 0 <= i < |nodes| reads nodes => nodes[i].data)
  }

  /** A chain that ends cannot visit a node twice. */
  lemma {:induction false} ChainIsDistinct<T>(nodes: seq<Node<T>>, head: Node?<T>, tail: Node?<T>, i: nat, j: nat)
    requires Chain(nodes, head, tail) && i < j < |nodes|
    ensures nodes[i] != nodes[j]
    decreases |nodes| - j
  {
    assert nodes[i].next == nodes[i + 1];
    if j + 1 < |nodes| {
      ChainIsDistinct(nodes, head, tail, i + 1, j + 1);
      assert nodes[j].next == nodes[j + 1];
    }
  }

  /** The head pointer alone determines the chain. */
  lemma {:induction false} ChainIsUnique<T>(a: seq<Node<T>>, b: seq<Node<T>>, head: Node?<T>, tailA: Node?<T>, tailB: Node?<T>)
    requires Chain(a, head, tailA) && Chain(b, head, tailB)
    ensures a == b && tailA == tailB
    decreases |a|
  {
    if a != [] {
      var next := head.next;
      assert |a| > 1 ==> a[0].next == a[1];
      assert |b| > 1 ==> b[0].next == b[1];
      if |a| > 1 && |b| > 1 {
        ChainIsUnique(a[1..], b[1..], next, tailA, tailB);
        assert a == [head] + a[1..] && b == [head] + b[1..];
      }
    }
  }

  class Queue<T> {
    var m_size: nat
    var m_head: Node?<T>
    var m_tail: Node?<T>
    ghost var nodes: seq<Node<T>>

    ghost predicate Valid()
      reads this, nodes
    {
      m_size == |nodes| && Chain(nodes, m_head, m_tail)
    }

    ghost function Contents(): seq<T>
      reads this, nodes
    {
      Values(nodes)
    }

    constructor ()
      ensures Valid() && nodes == []
    {
      m_size := 0;
      m_head := null;
      m_tail := null;
      nodes := [];
    }

    method Enqueue(t_data: T) returns (ret: int)
      requires Valid()
      modifies this, nodes
      ensures Valid() && ret == 0
      ensures |nodes| == |old(nodes)| + 1 && nodes[..|old(nodes)|] == old(nodes) && fresh(nodes[|old(nodes)|])
      ensures Contents() == old(Contents()) + [t_data]
    {
      TailIsLast();
      var newNode := new Node(t_data);
      if m_size == 0 {
        m_head := newNode;
        m_tail := newNode;
        m_size := 1;
      } else {
        m_tail.next := newNode;
        m_tail := m_tail.next;
        m_size := m_size + 1;
      }
      nodes := nodes + [newNode];
      return 0;
    }

    /** Splices a chain of t_num_terms nodes behind the tail in O(1); a count of 0 or less is refused. */
    method Load(t_new_nodes: Node?<T>, t_new_nodes_tail: Node?<T>, t_num_terms: int, ghost chain: seq<Node<T>>)
      returns (ret: int)
      requires Valid()
      requires t_num_terms > 0 ==>
                 && Chain(chain, t_new_nodes, t_new_nodes_tail) && |chain| == t_num_terms
                 && forall n | n in chain :: n !in nodes
      modifies this, nodes
      ensures Valid()
      ensures t_num_terms <= 0 ==> ret == -1 && nodes == old(nodes) && Contents() == old(Contents())
      ensures t_num_terms > 0 ==>
                && ret == 0 && nodes == old(nodes) + chain
                && Contents() == old(Contents()) + old(Values(chain))
    {
      if t_num_terms <= 0 { return -1; }
      TailIsLast();
      assert forall i | 0 <= i < |chain| :: chain[i] in chain && chain[i] !in nodes;
      assert m_size != 0 ==> m_tail in nodes;
      if m_size == 0 {
        m_head := t_new_nodes;
        m_tail := t_new_nodes_tail;
      } else {
        m_tail.next := t_new_nodes;
        m_tail := t_new_nodes_tail;
      }
      m_size := m_size + t_num_terms;
      nodes := nodes + chain;
      return 0;
    }

    /** The source dereferences m_head, so the caller must know that the queue is not empty. */
    method Dequeue() returns (data: T)
      requires Valid() && m_size != 0
      modifies this
      ensures Valid() && nodes == old(nodes)[1..]
      ensures [data] + Contents() == old(Contents())
    {
      data := m_head.data;
      if m_size == 1 {
        m_head := null;
        m_tail := null;
        m_size := 0;
      } else {
        m_head := m_head.next;
        m_size := m_size - 1;
      }
      nodes := nodes[1..];
    }

    /** Hands the whole chain over in O(1) and leaves the queue empty; the count is an int32_t. */
    method Dump() returns (t_head: Node?<T>, t_tail: Node?<T>, size_out: int)
      requires Valid()
      modifies this
      ensures Valid() && nodes == [] && Contents() == []
      ensures Chain(old(nodes), t_head, t_tail) && size_out == ToInt32(|old(nodes)|)
    {
      t_head := m_head;
      t_tail := m_tail;
      m_head := null;
      m_tail := null;
      size_out := ToInt32(m_size);
      m_size := 0;
      nodes := [];
    }

    /** The other nodes are not the tail, so relinking the tail leaves them alone. */
    lemma TailIsLast()
      requires Valid()
      ensures forall i | 0 <= i < |nodes| - 1 :: nodes[i] != nodes[|nodes| - 1]
    {
      forall i | 0 <= i < |nodes| - 1
        ensures nodes[i] != nodes[|nodes| - 1]
      {
        ChainIsDistinct(nodes, m_head, m_tail, i, |nodes| - 1);
      }
    }
  }

  /**
   Ownership transfer as the server uses it: dump everything out of src, load it behind dst.
   The nodes themselves move; none is copied and none is left behind.
   */
  method MoveAll<T>(src: Queue<T>, dst: Queue<T>) returns (size: int)
    requires src.Valid() && dst.Valid() && src != dst
    requires forall n | n in src.nodes :: n !in dst.nodes
    requires src.m_size < 0x8000_0000
    modifies src, dst, dst.nodes
    ensures src.Valid() && dst.Valid() && src.nodes == []
    ensures dst.nodes == old(dst.nodes) + old(src.nodes)
    ensures dst.Contents() == old(dst.Contents()) + old(src.Contents())
    ensures size == |old(src.nodes)|
  {
    ghost var chain := src.nodes;
    var head, tail;
    head, tail, size := src.Dump();
    if size > 0 {
      var _ := dst.Load(head, tail, size, chain);
    }
  }
}
