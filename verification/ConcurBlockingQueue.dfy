/**
 The bodies that ConcurBlockingQueue runs while it holds m_data, over the linked queue.
 Each one is proved to do to the linked list what the Access (or the empty Test) step of the monitor
 does to its sequence, so the protocol results hold for the pointer structure.
 */
module ConcurrentQueue {
  import opened Basics
  import opened LinkedQueue
  import M = Monitor

  class ConcurBlockingQueue<T> {
    const m_queue: Queue<T>

    ghost predicate Valid()
      reads m_queue, m_queue.nodes
    {
      m_queue.Valid()
    }

    ghost function Items(): seq<T>
      reads m_queue, m_queue.nodes
    {
      m_queue.Contents()
    }

    constructor ()
      ensures Valid() && fresh(m_queue) && m_queue.nodes == []
    {
      m_queue := new Queue();
    }

    method Enqueue(t_in: T, t_prio: M.Priority) returns (ret: int)
      requires Valid()
      modifies m_queue, m_queue.nodes
      ensures Valid()
      ensures ret == 0 && Items() == old(Items()) + [t_in]
      ensures M.SeqApply(old(Items()), M.Enqueue(t_in, t_prio)) == Some((Items(), M.Code(ret)))
    {
      ret := m_queue.Enqueue(t_in);
    }

    /** A blocking caller gets here only after its wait loop saw a nonzero size. */
    method Dequeue(t_prio: M.Priority, t_block: M.Block) returns (out: Option<T>)
      requires Valid()
      requires t_block.BLOCK? ==> m_queue.m_size != 0
      modifies m_queue
      ensures Valid()
      ensures out.None? <==> old(Items()) == []
      ensures (if out.Some? then [out.value] else []) + Items() == old(Items())
      ensures M.SeqApply(old(Items()), M.Dequeue(t_prio, t_block))
           == Some((Items(), if out.Some? then M.Item(out.value) else M.Null))
    {
      if m_queue.m_size == 0 {
        out := None;
      } else {
        ghost var was := Items();
        var data := m_queue.Dequeue();
        out := Some(data);
        assert was[0] == ([data] + Items())[0];
        assert was[1..] == ([data] + Items())[1..] == Items();
      }
    }

    /** The caller receives the detached chain; its values are the batch of the monitor step. */
    method Dump(t_prio: M.Priority, t_block: M.Block)
      returns (t_head: Node?<T>, t_tail: Node?<T>, ret: int)
      requires Valid()
      requires t_block.BLOCK? ==> m_queue.m_size != 0
      modifies m_queue
      ensures Valid()
      ensures m_queue.nodes == [] && Items() == [] && Values(old(m_queue.nodes)) == old(Items())
      ensures Chain(old(m_queue.nodes), t_head, t_tail) && ret == ToInt32(|old(m_queue.nodes)|)
      ensures M.SeqApply(old(Items()), M.Dump(t_prio, t_block))
           == Some((Items(), M.Batch(Values(old(m_queue.nodes)))))
    {
      if m_queue.m_size == 0 {
        t_head, t_tail, ret := null, null, 0;
      } else {
        t_head, t_tail, ret := m_queue.Dump();
      }
    }

    method Load(t_head: Node?<T>, t_tail: Node?<T>, t_num_in: int, t_prio: M.Priority, ghost chain: seq<Node<T>>)
      returns (ret: int)
      requires Valid()
      requires t_num_in > 0 ==>
                 && Chain(chain, t_head, t_tail) && |chain| == t_num_in
                 && forall n | n in chain :: n !in m_queue.nodes
      requires t_num_in <= 0 ==> chain == []
      modifies m_queue, m_queue.nodes
      ensures Valid()
      ensures if t_num_in <= 0 then ret == -1 && Items() == old(Items())
              else ret == 0 && Items() == old(Items()) + old(Values(chain))
      ensures M.SeqApply(old(Items()), M.Load(old(Values(chain)), t_prio)) == Some((Items(), M.Code(ret)))
    {
      if t_num_in <= 0 { return -1; }
      ret := m_queue.Load(t_head, t_tail, t_num_in, chain);
    }
  }
}
