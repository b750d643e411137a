/**
 The locking protocol of ConcurBlockingQueue as a state machine.

 Every thread of an arbitrary finite set runs one operation at a time. A step is one lock, unlock,
 wait, notify or queue access of one thread, so every interleaving of the source's statements is a run.
 */
module Monitor {
  import opened Basics

  type Tid = nat

  datatype Priority = HIGH | LOW
  datatype Block = BLOCK | NONBLOCK

  datatype Op<T> =
    | Enqueue(item: T, prio: Priority)
    | Load(chain: seq<T>, prio: Priority)
    | Dequeue(prio: Priority, block: Block)
    | Dump(prio: Priority, block: Block)
  {
    predicate Consumes() { Dequeue? || Dump? }
    predicate Blocks() { Consumes() && block.BLOCK? }
    // A LOW enqueue is the one insertion that leaves m_con alone.
    predicate Notifies() { (Enqueue? && prio.HIGH?) || Load? }
  }

  datatype Result<T> = Code(code: int) | Item(item: T) | Null | Batch(items: seq<T>)

  // ---------- The sequential queue every operation is measured against ----------

  /** Effect of one operation on the contents, or None where it would have to wait. */
  function SeqApply<T>(items: seq<T>, op: Op<T>): Option<(seq<T>, Result<T>)> {
    match op
    case Enqueue(x, _) => Some((items + [x], Code(0)))
    case Load(xs, _) => if xs == [] then Some((items, Code(-1))) else Some((items + xs, Code(0)))
    case Dequeue(_, b) =>
      if items != [] then Some((items[1..], Item(items[0])))
      else if b.NONBLOCK? then Some((items, Null)) else None
    case Dump(_, b) =>
      if items != [] then Some(([], Batch(items)))
      else if b.NONBLOCK? then Some((items, Batch([]))) else None
  }

  // ---------- Threads, locks, history ----------

  /** Where a thread stands inside its operation; the comment names the locks it holds besides m_low. */
  datatype PC<T> =
    | Idle
    | WantLow(op: Op<T>)                        // blocked on m_low_prio_access
    | WantNext(op: Op<T>)                       // blocked on m_next_to_access
    | WantData(op: Op<T>)                       // m_next
    | GotData(op: Op<T>)                        // m_next, m_data
    | Test(op: Op<T>)                           // m_data: about to look at the size
    | Access(op: Op<T>)                         // m_data: about to change the queue
    | Notify(op: Op<T>, res: Result<T>)         // m_data: about to notify_one
    | UnlockData(op: Op<T>, res: Result<T>)     // m_data
    | UnlockLow(op: Op<T>, res: Result<T>)      // (m_low only)
    | Parked(op: Op<T>)                         // waiting on m_con
    | Woken(op: Op<T>)                          // left m_con, must lock m_data again

  /** Requested marks the moment a thread starts to wait for m_next; Committed the access that decides the result. */
  datatype Event<T> =
    | Called(t: Tid, op: Op<T>)
    | Requested(t: Tid)
    | Committed(t: Tid, op: Op<T>, res: Result<T>)
    | Returned(t: Tid, op: Op<T>, res: Result<T>)

  datatype State<T> = State(
    low: Option<Tid>, next: Option<Tid>, data: Option<Tid>,
    items: seq<T>, pcs: map<Tid, PC<T>>, hist: seq<Event<T>>)

  datatype Action<T> = Call(op: Op<T>) | Go | NotifyOne(who: Option<Tid>) | Spurious
  datatype Move<T> = Move(t: Tid, a: Action<T>)

  function Init<T>(threads: set<Tid>): State<T> {
    State(None, None, None, [], map t | t in threads :: Idle, [])
  }

  function ParkedSet<T>(s: State<T>): set<Tid> { set t | t in s.pcs && s.pcs[t].Parked? }
  function WokenSet<T>(s: State<T>): set<Tid> { set t | t in s.pcs && s.pcs[t].Woken? }

  ghost predicate CanGo<T>(s: State<T>, t: Tid) {
    t in s.pcs &&
    match s.pcs[t]
    case WantLow(_) => s.low.None?
    case WantNext(_) => s.next.None?
    case WantData(_) => s.data.None?
    case GotData(_) => true
    case Test(_) => true
    case Access(op) => SeqApply(s.items, op).Some?
    case UnlockData(_, _) => true
    case UnlockLow(_, _) => true
    case Woken(_) => s.data.None?
    case _ => false
  }

  ghost predicate Enabled<T>(s: State<T>, t: Tid, a: Action<T>) {
    t in s.pcs &&
    match a
    case Call(op) => s.pcs[t].Idle?
    case NotifyOne(who) =>
      s.pcs[t].Notify? && (if who.Some? then who.value in ParkedSet(s) else ParkedSet(s) == {})
    case Spurious => s.pcs[t].Parked?
    case Go => CanGo(s, t)
  }

  function Goto<T>(s: State<T>, t: Tid, pc: PC<T>): State<T> { s.(pcs := s.pcs[t := pc]) }
  function Record<T>(s: State<T>, e: Event<T>): State<T> { s.(hist := s.hist + [e]) }

  ghost function Apply<T>(s: State<T>, t: Tid, a: Action<T>): State<T>
    requires Enabled(s, t, a)
  {
    match a
    case Call(op) => ApplyCall(s, t, op)
    case NotifyOne(who) =>
      var s1 := if who.Some? then Goto(s, who.value, Woken(s.pcs[who.value].op)) else s;
      Goto(s1, t, UnlockData(s.pcs[t].op, s.pcs[t].res))
    case Spurious => Goto(s, t, Woken(s.pcs[t].op))
    case Go => ApplyGo(s, t)
  }

  function ApplyCall<T>(s: State<T>, t: Tid, op: Op<T>): State<T> {
    if op.Load? && op.chain == [] then
      // t_num_in <= 0: refused before any lock is taken
      s.(hist := s.hist + [Called(t, op), Committed(t, op, Code(-1)), Returned(t, op, Code(-1))])
    else if op.prio.LOW? then
      Goto(Record(s, Called(t, op)), t, WantLow(op))
    else
      Goto(s.(hist := s.hist + [Called(t, op), Requested(t)]), t, WantNext(op))
  }

  function ApplyGo<T>(s: State<T>, t: Tid): State<T>
    requires CanGo(s, t)
  {
    match s.pcs[t]
    case WantLow(op) => Goto(Record(s.(low := Some(t)), Requested(t)), t, WantNext(op))
    case WantNext(op) => Goto(s.(next := Some(t)), t, WantData(op))
    case WantData(op) => Goto(s.(data := Some(t)), t, GotData(op))
    case GotData(op) => Goto(s.(next := None), t, if op.Consumes() then Test(op) else Access(op))
    case Test(op) => ApplyTest(s, t, op)
    case Access(op) => ApplyAccess(s, t, op)
    case UnlockData(op, res) =>
      if op.prio.LOW? then Goto(s.(data := None), t, UnlockLow(op, res))
      else Goto(Record(s.(data := None), Returned(t, op, res)), t, Idle)
    case UnlockLow(op, res) => Goto(Record(s.(low := None), Returned(t, op, res)), t, Idle)
    case Woken(op) => Goto(s.(data := Some(t)), t, Test(op))
  }

  /** The size check of a consumer, with the wait of a blocking one. */
  function ApplyTest<T>(s: State<T>, t: Tid, op: Op<T>): State<T> {
    if s.items != [] then Goto(s, t, Access(op))
    else if op.Blocks() then Goto(s.(data := None), t, Parked(op))
    else
      var res := if op.Dequeue? then Null else Batch([]);
      Goto(Record(s, Committed(t, op, res)), t, UnlockData(op, res))
  }

  function ApplyAccess<T>(s: State<T>, t: Tid, op: Op<T>): State<T>
    requires SeqApply(s.items, op).Some?
  {
    var (items, res) := SeqApply(s.items, op).value;
    Goto(Record(s.(items := items), Committed(t, op, res)), t,
         if op.Notifies() then Notify(op, res) else UnlockData(op, res))
  }

  // ---------- Runs ----------

  /** State after a list of moves, or None if some move was not possible. */
  ghost function Exec<T>(s: State<T>, moves: seq<Move<T>>): Option<State<T>>
    decreases |moves|
  {
    if moves == [] then Some(s)
    else if Enabled(s, moves[0].t, moves[0].a) then Exec(Apply(s, moves[0].t, moves[0].a), moves[1..])
    else None
  }

  /** The operations a program is allowed to call. */
  type Policy<!T> = Op<T> -> bool

  ghost predicate Follows<T>(moves: seq<Move<T>>, policy: Policy<T>) {
    forall i :: 0 <= i < |moves| && moves[i].a.Call? ==> policy(moves[i].a.op)
  }

  ghost predicate ReachableBy<T>(s: State<T>, policy: Policy<T>, threads: set<Tid>, moves: seq<Move<T>>) {
    Follows(moves, policy) && Exec(Init(threads), moves) == Some(s)
  }

  ghost predicate Reachable<T(!new)>(s: State<T>, policy: Policy<T>) {
    exists threads: set<Tid>, moves: seq<Move<T>> :: ReachableBy(s, policy, threads, moves)
  }

  // ---------- The lock discipline ----------

  predicate HoldsLow<T>(pc: PC<T>) { !pc.Idle? && !pc.WantLow? && pc.op.prio.LOW? }
  predicate HoldsNext<T>(pc: PC<T>) { pc.WantData? || pc.GotData? }
  predicate HoldsData<T>(pc: PC<T>) {
    pc.GotData? || pc.Test? || pc.Access? || pc.Notify? || pc.UnlockData?
  }

  predicate OkPC<T>(items: seq<T>, pc: PC<T>) {
    && (!pc.Idle? && pc.op.Load? ==> pc.op.chain != [])
    && (pc.WantLow? || pc.UnlockLow? ==> pc.op.prio.LOW?)
    && (pc.Test? ==> pc.op.Consumes())
    && (pc.Parked? || pc.Woken? ==> pc.op.Blocks())
    && (pc.Notify? ==> pc.op.Notifies())
    && (pc.Access? && pc.op.Consumes() ==> items != [])
  }

  /** The owner recorded in each mutex is exactly the thread whose position says it holds it. */
  ghost predicate ThreadOk<T>(s: State<T>, t: Tid)
    requires t in s.pcs
  {
    && OkPC(s.items, s.pcs[t])
    && (HoldsLow(s.pcs[t]) <==> s.low == Some(t))
    && (HoldsNext(s.pcs[t]) <==> s.next == Some(t))
    && (HoldsData(s.pcs[t]) <==> s.data == Some(t))
  }

  ghost predicate LockInv<T>(s: State<T>) {
    && (forall t | t in s.pcs :: ThreadOk(s, t))
    && (s.low.Some? ==> s.low.value in s.pcs)
    && (s.next.Some? ==> s.next.value in s.pcs)
    && (s.data.Some? ==> s.data.value in s.pcs)
  }

  /** Owner of a mutex after its thread moved from holding it (was) to holding it (now). */
  function Owner(o: Option<Tid>, t: Tid, was: bool, now: bool): Option<Tid> {
    if now then Some(t) else if was then None else o
  }

  lemma LockInvLocal<T>(s: State<T>, t: Tid, pc: PC<T>, s': State<T>)
    requires LockInv(s) && t in s.pcs && s'.pcs == s.pcs[t := pc]
    requires OkPC(s'.items, pc)
    requires s'.items == s.items || s.data == Some(t)
    requires s'.low == Owner(s.low, t, HoldsLow(s.pcs[t]), HoldsLow(pc))
    requires s'.next == Owner(s.next, t, HoldsNext(s.pcs[t]), HoldsNext(pc))
    requires s'.data == Owner(s.data, t, HoldsData(s.pcs[t]), HoldsData(pc))
    requires HoldsLow(pc) && !HoldsLow(s.pcs[t]) ==> s.low.None?
    requires HoldsNext(pc) && !HoldsNext(s.pcs[t]) ==> s.next.None?
    requires HoldsData(pc) && !HoldsData(s.pcs[t]) ==> s.data.None?
    ensures LockInv(s')
  {
    forall u | u in s'.pcs
      ensures ThreadOk(s', u)
    {
      assert ThreadOk(s, u) && ThreadOk(s, t);
      if u != t { assert s'.pcs[u] == s.pcs[u]; }
    }
  }

  lemma LockInvQueue<T>(s: State<T>, t: Tid)
    requires LockInv(s) && CanGo(s, t)
    requires s.pcs[t].Test? || s.pcs[t].Access?
    ensures LockInv(ApplyGo(s, t))
  {
    assert ThreadOk(s, t);
    LockInvLocal(s, t, ApplyGo(s, t).pcs[t], ApplyGo(s, t));
  }

  lemma LockInvGo<T>(s: State<T>, t: Tid)
    requires LockInv(s) && CanGo(s, t)
    ensures LockInv(ApplyGo(s, t))
  {
    if s.pcs[t].Test? || s.pcs[t].Access? {
      LockInvQueue(s, t);
    } else {
      assert ThreadOk(s, t);
      LockInvLocal(s, t, ApplyGo(s, t).pcs[t], ApplyGo(s, t));
    }
  }

  lemma LockInvNotify<T>(s: State<T>, t: Tid, w: Tid)
    requires LockInv(s) && Enabled(s, t, NotifyOne(Some(w)))
    ensures LockInv(Apply(s, t, NotifyOne(Some(w))))
  {
    var s' := Apply(s, t, NotifyOne(Some(w)));
    var s1 := Goto(s, w, Woken(s.pcs[w].op));
    assert ThreadOk(s, w) && ThreadOk(s, t);
    LockInvLocal(s, w, s1.pcs[w], s1);
    LockInvLocal(s1, t, s'.pcs[t], s');
  }

  lemma LockInvStep<T>(s: State<T>, t: Tid, a: Action<T>)
    requires LockInv(s) && Enabled(s, t, a)
    ensures LockInv(Apply(s, t, a))
  {
    assert ThreadOk(s, t);
    if a.Go? {
      LockInvGo(s, t);
    } else if a.NotifyOne? && a.who.Some? {
      LockInvNotify(s, t, a.who.value);
    } else if a.Call? && a.op.Load? && a.op.chain == [] {
      assert Apply(s, t, a).pcs == s.pcs;
    } else {
      LockInvLocal(s, t, Apply(s, t, a).pcs[t], Apply(s, t, a));
    }
  }

  lemma {:induction false} LockInvRun<T>(s: State<T>, moves: seq<Move<T>>)
    requires LockInv(s) && Exec(s, moves).Some?
    ensures LockInv(Exec(s, moves).value)
    decreases |moves|
  {
    if moves != [] {
      LockInvStep(s, moves[0].t, moves[0].a);
      LockInvRun(Apply(s, moves[0].t, moves[0].a), moves[1..]);
    }
  }

  lemma ReachableLockInv<T(!new)>(s: State<T>, policy: Policy<T>)
    requires Reachable(s, policy)
    ensures LockInv(s)
  {
    var threads: set<Tid>, moves: seq<Move<T>> :| ReachableBy(s, policy, threads, moves);
    LockInvRun(Init(threads), moves);
  }

  /** Mutual exclusion: two threads past the low gate, or holding the same lock, are the same thread. */
  lemma MutualExclusion<T(!new)>(s: State<T>, policy: Policy<T>, t: Tid, u: Tid)
    requires Reachable(s, policy) && t in s.pcs && u in s.pcs
    ensures HoldsLow(s.pcs[t]) && HoldsLow(s.pcs[u]) ==> t == u
    ensures HoldsNext(s.pcs[t]) && HoldsNext(s.pcs[u]) ==> t == u
    ensures HoldsData(s.pcs[t]) && HoldsData(s.pcs[u]) ==> t == u
  {
    ReachableLockInv(s, policy);
    assert ThreadOk(s, t) && ThreadOk(s, u);
  }

  // ---------- Stuck states ----------

  /** Some statement of t can execute without a new call and without a spurious wakeup. */
  ghost predicate CanMove<T(!new)>(s: State<T>, t: Tid) {
    exists a: Action<T> :: !a.Call? && !a.Spurious? && Enabled(s, t, a)
  }

  ghost predicate Stuck<T(!new)>(s: State<T>) {
    forall t | t in s.pcs :: !CanMove(s, t)
  }

  /** t is parked, or kept out by the low gate that a parked LOW consumer still holds. */
  ghost predicate WaitsForItems<T>(s: State<T>, t: Tid)
    requires t in s.pcs
  {
    || s.pcs[t].Parked?
    || (s.pcs[t].WantLow? && s.low.Some? && s.low.value in s.pcs && s.pcs[s.low.value].Parked?)
  }

  lemma CanMoveIff<T(!new)>(s: State<T>, t: Tid)
    ensures CanMove(s, t) <==> CanGo(s, t) || (t in s.pcs && s.pcs[t].Notify?)
  {
    if CanGo(s, t) {
      assert Enabled(s, t, Go);
    } else if t in s.pcs && s.pcs[t].Notify? {
      if ParkedSet(s) == {} {
        assert Enabled(s, t, NotifyOne(None));
      } else {
        var w :| w in ParkedSet(s);
        assert Enabled(s, t, NotifyOne(Some(w)));
      }
    }
  }

  lemma StuckIff<T(!new)>(s: State<T>, policy: Policy<T>)
    requires Reachable(s, policy)
    ensures Stuck(s) <==>
            && s.data.None? && s.next.None?
            && forall t | t in s.pcs && !s.pcs[t].Idle? :: WaitsForItems(s, t)
  {
    ReachableLockInv(s, policy);
    forall t { CanMoveIff(s, t); }
    if Stuck(s) {
      StuckLocksFree(s);
      forall t | t in s.pcs && !s.pcs[t].Idle?
        ensures WaitsForItems(s, t)
      {
        assert ThreadOk(s, t) && !CanGo(s, t);
      }
    }
  }

  lemma StuckLocksFree<T(!new)>(s: State<T>)
    requires LockInv(s) && Stuck(s)
    ensures s.data.None? && s.next.None?
    ensures forall t | t in s.pcs :: !CanGo(s, t) && !s.pcs[t].Notify?
  {
    forall t | t in s.pcs
      ensures !CanGo(s, t) && !s.pcs[t].Notify?
    {
      CanMoveIff(s, t);
    }
  }
}
