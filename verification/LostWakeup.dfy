/**
 When can a consumer sleep on m_con forever although the queue holds items?
 The answer depends only on which operations the program calls; LosesWakeups is the exact condition.
 */
module LostWakeup {
  import opened Basics
  import opened Monitor

  // ---------- The condition, on the operations a program may call ----------

  ghost predicate LowEnqueues<T(!new)>(p: Policy<T>) { exists x: T :: p(Enqueue(x, LOW)) }
  predicate HighBlocking<T>(p: Policy<T>) { p(Dequeue(HIGH, BLOCK)) || p(Dump(HIGH, BLOCK)) }
  ghost predicate MultiLoads<T(!new)>(p: Policy<T>, prio: Priority) {
    exists chain: seq<T> :: |chain| >= 2 && p(Load(chain, prio))
  }

  /**
   A LOW enqueue never notifies, so it strands a parked HIGH consumer. A load of several nodes notifies
   once, so it strands a second consumer when the first takes only one item. The LOW gate rescues the
   remaining combinations: no LOW insertion runs while a LOW consumer is parked.
   */
  ghost predicate LosesWakeups<T(!new)>(p: Policy<T>) {
    || (LowEnqueues(p) && HighBlocking(p))
    || ((MultiLoads(p, LOW) || MultiLoads(p, HIGH)) && p(Dequeue(HIGH, BLOCK)))
    || (MultiLoads(p, HIGH) && p(Dequeue(LOW, BLOCK)) && p(Dump(HIGH, BLOCK)))
  }

  // ---------- The invariant of the remaining programs ----------

  ghost predicate Obeys<T>(s: State<T>, p: Policy<T>) {
    forall t | t in s.pcs && !s.pcs[t].Idle? :: p(s.pcs[t].op)
  }

  predicate WillLook<T>(pc: PC<T>) {
    pc.Notify? || pc.Test? || (pc.Access? && pc.op.Consumes())
  }

  /** One item is accounted for by the lock holder: it is about to take one or to wake someone. */
  function Credit<T>(s: State<T>): nat {
    if s.data.Some? && s.data.value in s.pcs && WillLook(s.pcs[s.data.value]) then 1 else 0
  }

  ghost predicate Counted<T>(s: State<T>) { |s.items| <= |WokenSet(s)| + Credit(s) }

  predicate WillDump<T>(pc: PC<T>) {
    (pc.Woken? || pc.Test? || pc.Access?) && pc.op == Dump(pc.op.prio, BLOCK)
  }

  ghost predicate DumpComing<T>(s: State<T>) { exists t :: t in s.pcs && WillDump(s.pcs[t]) }

  ghost predicate ParkedAllDump<T>(s: State<T>) { forall t | t in s.pcs && s.pcs[t].Parked? :: s.pcs[t].op.Dump? }
  ghost predicate ParkedAllLow<T>(s: State<T>) { forall t | t in s.pcs && s.pcs[t].Parked? :: s.pcs[t].op.prio.LOW? }

  ghost predicate NotifyComing<T>(s: State<T>) {
    && s.data.Some? && s.data.value in s.pcs && s.pcs[s.data.value].Notify?
    && (ParkedAllDump(s) || ParkedAllLow(s))
  }

  ghost predicate Covered<T>(s: State<T>) {
    ParkedSet(s) == {} || Counted(s) || DumpComing(s) || NotifyComing(s)
  }

  /** Cardinality of the woken set after one thread moves. */
  lemma WokenMove<T>(s: State<T>, t: Tid, pc: PC<T>, s': State<T>)
    requires t in s.pcs && s'.pcs == s.pcs[t := pc]
    ensures |WokenSet(s')| == |WokenSet(s)| + (if pc.Woken? then 1 else 0) - (if s.pcs[t].Woken? then 1 else 0)
    ensures !pc.Parked? ==> ParkedSet(s') <= ParkedSet(s)
  {
    if pc.Woken? {
      assert WokenSet(s') == WokenSet(s) + {t};
    } else {
      assert WokenSet(s') == WokenSet(s) - {t};
    }
  }

  lemma DumpStays<T>(s: State<T>, t: Tid, pc: PC<T>, s': State<T>)
    requires DumpComing(s) && t in s.pcs && s'.pcs == s.pcs[t := pc]
    requires WillDump(s.pcs[t]) ==> WillDump(pc)
    ensures DumpComing(s')
  {
    var d :| d in s.pcs && WillDump(s.pcs[d]);
    assert d in s'.pcs && WillDump(s'.pcs[d]);
  }

  /** Steps that neither insert items nor leave a position that was accounted for. */
  lemma CoveredQuiet<T>(s: State<T>, t: Tid, pc: PC<T>, s': State<T>)
    requires Covered(s) && t in s.pcs && s'.pcs == s.pcs[t := pc] && s'.items == s.items
    requires s.data != Some(t) ==> !HoldsData(s.pcs[t])
    requires s'.data == Owner(s.data, t, HoldsData(s.pcs[t]), HoldsData(pc))
    requires HoldsData(pc) && !HoldsData(s.pcs[t]) ==> s.data.None?
    requires !pc.Parked? && !s.pcs[t].Notify?
    requires WillLook(s.pcs[t]) || s.pcs[t].Woken? ==> WillLook(pc)
    requires WillDump(s.pcs[t]) ==> WillDump(pc)
    ensures Covered(s')
  {
    WokenMove(s, t, pc, s');
    if DumpComing(s) {
      DumpStays(s, t, pc, s');
    } else if NotifyComing(s) {
      assert forall u | u in s'.pcs && s'.pcs[u].Parked? :: u in s.pcs && s.pcs[u] == s'.pcs[u];
      assert NotifyComing(s');
    }
  }

  /** Who can be parked while t is about to insert. */
  lemma ParkedDuringInsert<T(!new)>(s: State<T>, t: Tid, p: Policy<T>)
    requires LockInv(s) && Obeys(s, p) && !LosesWakeups(p)
    requires t in s.pcs && s.pcs[t].Access? && !s.pcs[t].op.Consumes()
    ensures !s.pcs[t].op.Notifies() ==> ParkedSet(s) == {}
    ensures s.pcs[t].op.Load? && |s.pcs[t].op.chain| >= 2 ==> ParkedAllDump(s) || ParkedAllLow(s)
  {
    var op := s.pcs[t].op;
    assert ThreadOk(s, t) && p(op);
    forall u | u in s.pcs && s.pcs[u].Parked?
      ensures ThreadOk(s, u) && p(s.pcs[u].op) && s.pcs[u].op.Blocks()
      ensures op.prio.LOW? ==> s.pcs[u].op.prio.HIGH?
    {
      assert ThreadOk(s, u);
    }
    if !op.Notifies() {
      assert op == Enqueue(op.item, LOW);
      forall u | u in s.pcs && s.pcs[u].Parked?
        ensures false
      {
      }
    } else if op.Load? && |op.chain| >= 2 {
      assert p(Load(op.chain, op.prio));
      forall u | u in s.pcs && s.pcs[u].Parked?
        ensures s.pcs[u].op != Dequeue(HIGH, BLOCK)
      {
      }
    }
  }

  lemma CoveredInsert<T(!new)>(s: State<T>, t: Tid, p: Policy<T>)
    requires Covered(s) && LockInv(s) && Obeys(s, p) && !LosesWakeups(p)
    requires t in s.pcs && s.pcs[t].Access? && !s.pcs[t].op.Consumes()
    ensures Covered(ApplyGo(s, t))
  {
    var s', op := ApplyGo(s, t), s.pcs[t].op;
    assert ThreadOk(s, t);
    ParkedDuringInsert(s, t, p);
    WokenMove(s, t, s'.pcs[t], s');
    if ParkedSet(s) != {} {
      if op.Load? && |op.chain| >= 2 {
        assert forall u | u in s'.pcs && s'.pcs[u].Parked? :: s.pcs[u] == s'.pcs[u];
        assert NotifyComing(s');
      } else if DumpComing(s) {
        DumpStays(s, t, s'.pcs[t], s');
      } else {
        assert Counted(s');
      }
    }
  }

  lemma CoveredTake<T>(s: State<T>, t: Tid)
    requires Covered(s) && LockInv(s) && CanGo(s, t)
    requires s.pcs[t].Access? && s.pcs[t].op.Consumes()
    ensures Covered(ApplyGo(s, t))
  {
    var s', op := ApplyGo(s, t), s.pcs[t].op;
    assert ThreadOk(s, t);
    WokenMove(s, t, s'.pcs[t], s');
    if op.Dequeue? && DumpComing(s) {
      DumpStays(s, t, s'.pcs[t], s');
    }
  }

  lemma CoveredNotify<T>(s: State<T>, t: Tid, who: Option<Tid>)
    requires Covered(s) && LockInv(s) && Enabled(s, t, NotifyOne(who))
    ensures Covered(Apply(s, t, NotifyOne(who)))
  {
    var s' := Apply(s, t, NotifyOne(who));
    if who.Some? {
      var w := who.value;
      var s1 := Goto(s, w, Woken(s.pcs[w].op));
      assert ThreadOk(s, w) && ThreadOk(s, t);
      WokenMove(s, w, s1.pcs[w], s1);
      WokenMove(s1, t, s'.pcs[t], s');
      if DumpComing(s) {
        DumpStays(s, w, s1.pcs[w], s1);
        DumpStays(s1, t, s'.pcs[t], s');
      } else if NotifyComing(s) && ParkedAllDump(s) {
        assert w in s'.pcs && WillDump(s'.pcs[w]);
      } else if NotifyComing(s) {
        forall u | u in ParkedSet(s)
          ensures s.low == Some(u)
        {
          assert ThreadOk(s, u);
        }
        assert ParkedSet(s) == {w};
      }
    } else {
      WokenMove(s, t, s'.pcs[t], s');
    }
  }

  lemma CoveredSpurious<T>(s: State<T>, t: Tid)
    requires Covered(s) && LockInv(s) && Enabled(s, t, Spurious)
    ensures Covered(Apply(s, t, Spurious))
  {
    var s' := Apply(s, t, Spurious);
    WokenMove(s, t, s'.pcs[t], s');
    if DumpComing(s) {
      DumpStays(s, t, s'.pcs[t], s');
    } else if NotifyComing(s) {
      assert forall u | u in s'.pcs && s'.pcs[u].Parked? :: s.pcs[u] == s'.pcs[u];
      assert NotifyComing(s');
    }
  }

  lemma CoveredGo<T(!new)>(s: State<T>, t: Tid, p: Policy<T>)
    requires Covered(s) && LockInv(s) && Obeys(s, p) && !LosesWakeups(p) && CanGo(s, t)
    ensures Covered(ApplyGo(s, t))
  {
    assert ThreadOk(s, t);
    if s.pcs[t].Access? {
      if s.pcs[t].op.Consumes() { CoveredTake(s, t); } else { CoveredInsert(s, t, p); }
    } else if !s.pcs[t].Test? || s.items != [] {
      CoveredQuiet(s, t, ApplyGo(s, t).pcs[t], ApplyGo(s, t));
    }
  }

  lemma CoveredCall<T>(s: State<T>, t: Tid, op: Op<T>)
    requires Covered(s) && LockInv(s) && t in s.pcs && s.pcs[t].Idle?
    ensures Covered(ApplyCall(s, t, op))
  {
    var s' := ApplyCall(s, t, op);
    assert ThreadOk(s, t);
    assert s'.pcs == s.pcs[t := s'.pcs[t]];
    CoveredQuiet(s, t, s'.pcs[t], s');
  }

  lemma CoveredStep<T(!new)>(s: State<T>, t: Tid, a: Action<T>, p: Policy<T>)
    requires Covered(s) && LockInv(s) && Obeys(s, p) && !LosesWakeups(p)
    requires Enabled(s, t, a) && (a.Call? ==> p(a.op))
    ensures Covered(Apply(s, t, a)) && Obeys(Apply(s, t, a), p)
  {
    match a {
      case Go => CoveredGo(s, t, p);
      case NotifyOne(who) => CoveredNotify(s, t, who);
      case Spurious => CoveredSpurious(s, t);
      case Call(op) => CoveredCall(s, t, op);
    }
  }

  lemma {:induction false} CoveredRun<T(!new)>(s: State<T>, moves: seq<Move<T>>, p: Policy<T>)
    requires Covered(s) && LockInv(s) && Obeys(s, p) && !LosesWakeups(p)
    requires Follows(moves, p) && Exec(s, moves).Some?
    ensures Covered(Exec(s, moves).value)
    decreases |moves|
  {
    if moves != [] {
      var t, a := moves[0].t, moves[0].a;
      CoveredStep(s, t, a, p);
      LockInvStep(s, t, a);
      assert Follows(moves[1..], p) by {
        assert forall i | 0 <= i < |moves[1..]| :: moves[1..][i] == moves[i + 1];
      }
      CoveredRun(Apply(s, t, a), moves[1..], p);
    }
  }

  ghost predicate Unfinished<T>(s: State<T>) { exists t :: t in s.pcs && !s.pcs[t].Idle? }

  lemma StuckCoveredIsEmpty<T(!new)>(s: State<T>)
    requires LockInv(s) && Covered(s) && Stuck(s) && ParkedSet(s) != {}
    ensures s.items == []
  {
    StuckLocksFree(s);
    assert WokenSet(s) == {};
    forall t | t in s.pcs
      ensures !WillDump(s.pcs[t])
    {
      assert ThreadOk(s, t);
    }
  }

  /** For these programs a stuck state with work left always has an empty queue. */
  lemma NoLostWakeup<T(!new)>(s: State<T>, p: Policy<T>)
    requires Reachable(s, p) && !LosesWakeups(p) && Stuck(s) && Unfinished(s)
    ensures s.items == []
  {
    var threads: set<Tid>, moves: seq<Move<T>> :| ReachableBy(s, p, threads, moves);
    CoveredRun(Init(threads), moves, p);
    StuckIff(s, p);
    ReachableLockInv(s, p);
    var t :| t in s.pcs && !s.pcs[t].Idle?;
    assert WaitsForItems(s, t);
    assert (if s.pcs[t].Parked? then t else s.low.value) in ParkedSet(s);
    StuckCoveredIsEmpty(s);
  }

  // ---------- The losing programs really lose ----------

  lemma ReachStep<T(!new)>(s: State<T>, p: Policy<T>, t: Tid, a: Action<T>) returns (s': State<T>)
    requires Reachable(s, p) && Enabled(s, t, a) && (a.Call? ==> p(a.op))
    ensures s' == Apply(s, t, a) && Reachable(s', p)
  {
    var threads: set<Tid>, moves: seq<Move<T>> :| ReachableBy(s, p, threads, moves);
    s' := Apply(s, t, a);
    ExecSnoc(Init(threads), moves, Move(t, a));
    assert ReachableBy(s', p, threads, moves + [Move(t, a)]);
  }

  lemma {:induction false} ExecSnoc<T>(s: State<T>, moves: seq<Move<T>>, m: Move<T>)
    requires Exec(s, moves).Some? && Enabled(Exec(s, moves).value, m.t, m.a)
    ensures Exec(s, moves + [m]) == Some(Apply(Exec(s, moves).value, m.t, m.a))
    decreases |moves|
  {
    if moves != [] {
      assert (moves + [m])[1..] == moves[1..] + [m];
      ExecSnoc(Apply(s, moves[0].t, moves[0].a), moves[1..], m);
    } else {
      assert (moves + [m])[1..] == [];
    }
  }

  lemma ReachGo<T(!new)>(s: State<T>, p: Policy<T>, t: Tid) returns (s': State<T>)
    requires Reachable(s, p) && CanGo(s, t)
    ensures s' == ApplyGo(s, t) && Reachable(s', p)
  {
    s' := ReachStep(s, p, t, Go);
  }

  lemma Request<T(!new)>(s: State<T>, p: Policy<T>, t: Tid, op: Op<T>) returns (s': State<T>)
    requires Reachable(s, p) && p(op) && t in s.pcs && s.pcs[t].Idle?
    requires op.prio.LOW? ==> s.low.None?
    requires op.Load? ==> op.chain != []
    ensures Reachable(s', p) && s'.items == s.items && s'.next == s.next && s'.data == s.data
    ensures s'.low == if op.prio.LOW? then Some(t) else s.low
    ensures s'.pcs == s.pcs[t := WantNext(op)] && s'.hist == s.hist + [Called(t, op)] + [Requested(t)]
  {
    s' := ReachStep(s, p, t, Call(op));
    assert s' == ApplyCall(s, t, op);
    assert s.hist + [Called(t, op), Requested(t)] == s.hist + [Called(t, op)] + [Requested(t)];
    if op.prio.LOW? { s' := ReachGo(s', p, t); }
  }

  lemma LockBoth<T(!new)>(s: State<T>, p: Policy<T>, t: Tid, op: Op<T>) returns (s': State<T>)
    requires Reachable(s, p) && t in s.pcs && s.pcs[t] == WantNext(op) && s.next.None? && s.data.None?
    ensures Reachable(s', p) && s'.items == s.items && s'.low == s.low && s'.hist == s.hist
    ensures s'.next == s'.data == Some(t) && s'.pcs == s.pcs[t := GotData(op)]
  {
    s' := ReachGo(s, p, t);
    s' := ReachGo(s', p, t);
  }

  /** A thread walks through all gates when they are open. */
  lemma Enter<T(!new)>(s: State<T>, p: Policy<T>, t: Tid, op: Op<T>) returns (s': State<T>)
    requires Reachable(s, p) && p(op) && t in s.pcs && s.pcs[t].Idle?
    requires s.next.None? && s.data.None? && (op.prio.LOW? ==> s.low.None?)
    requires op.Load? ==> op.chain != []
    ensures Reachable(s', p) && s'.items == s.items && s'.next.None? && s'.data == Some(t)
    ensures s'.low == if op.prio.LOW? then Some(t) else s.low
    ensures s'.pcs == s.pcs[t := if op.Consumes() then Test(op) else Access(op)]
  {
    var s1 := Request(s, p, t, op);
    var s2 := LockBoth(s1, p, t, op);
    assert s2.pcs == s.pcs[t := GotData(op)];
    s' := ReachGo(s2, p, t);
  }

  lemma Leave<T(!new)>(s: State<T>, p: Policy<T>, t: Tid) returns (s': State<T>)
    requires Reachable(s, p) && t in s.pcs && s.pcs[t].UnlockData? && s.next.None?
    ensures Reachable(s', p) && s'.items == s.items && s'.next.None? && s'.data.None?
    ensures s'.low == if s.pcs[t].op.prio.LOW? then None else s.low
    ensures s'.pcs == s.pcs[t := Idle] && s'.hist == s.hist + [Returned(t, s.pcs[t].op, s.pcs[t].res)]
  {
    var op := s.pcs[t].op;
    s' := ReachGo(s, p, t);
    if op.prio.LOW? { s' := ReachGo(s', p, t); }
  }

  lemma ParkOne<T(!new)>(s: State<T>, p: Policy<T>, t: Tid, op: Op<T>) returns (s': State<T>)
    requires Reachable(s, p) && p(op) && t in s.pcs && s.pcs[t].Idle? && op.Blocks()
    requires s.next.None? && s.data.None? && (op.prio.LOW? ==> s.low.None?) && s.items == []
    ensures Reachable(s', p) && s'.items == [] && s'.next.None? && s'.data.None?
    ensures s'.low == if op.prio.LOW? then Some(t) else s.low
    ensures s'.pcs == s.pcs[t := Parked(op)]
  {
    s' := Enter(s, p, t, op);
    s' := ReachGo(s', p, t);
  }

  lemma Wake<T(!new)>(s: State<T>, p: Policy<T>, t: Tid, w: Tid) returns (s': State<T>)
    requires Reachable(s, p) && t in s.pcs && s.pcs[t].Notify? && w in s.pcs && s.pcs[w].Parked?
    ensures Reachable(s', p)
    ensures s' == s.(pcs := s.pcs[w := Woken(s.pcs[w].op)][t := UnlockData(s.pcs[t].op, s.pcs[t].res)])
  {
    assert w in ParkedSet(s);
    s' := ReachStep(s, p, t, NotifyOne(Some(w)));
  }

  lemma Put<T(!new)>(s: State<T>, p: Policy<T>, t: Tid) returns (s': State<T>)
    requires Reachable(s, p) && t in s.pcs && s.pcs[t].Access? && !s.pcs[t].op.Consumes() && s.items == []
    requires s.pcs[t].op.Load? ==> s.pcs[t].op.chain != []
    ensures Reachable(s', p) && s'.low == s.low && s'.next == s.next && s'.data == s.data
    ensures var op := s.pcs[t].op;
            && s'.items == (if op.Load? then op.chain else [op.item])
            && s'.pcs == s.pcs[t := if op.Notifies() then Notify(op, Code(0)) else UnlockData(op, Code(0))]
  {
    s' := ReachGo(s, p, t);
  }

  lemma PutAndLeave<T(!new)>(s: State<T>, p: Policy<T>, t: Tid, op: Op<T>, w: Tid) returns (s': State<T>)
    requires Reachable(s, p) && t in s.pcs && s.pcs[t] == Access(op) && !op.Consumes()
    requires s.next.None? && s.items == [] && (op.Load? ==> op.chain != [])
    requires w in s.pcs && s.pcs[w].Parked?
    ensures Reachable(s', p) && s'.next.None? && s'.data.None?
    ensures s'.items == if op.Load? then op.chain else [op.item]
    ensures s'.pcs == if op.Notifies() then s.pcs[w := Woken(s.pcs[w].op)][t := Idle] else s.pcs[t := Idle]
  {
    s' := Put(s, p, t);
    if op.Notifies() { s' := Wake(s', p, t, w); }
    s' := Leave(s', p, t);
  }

  /** An insertion into an empty queue; a notification, if it comes, wakes w. */
  lemma InsertOne<T(!new)>(s: State<T>, p: Policy<T>, t: Tid, op: Op<T>, w: Tid) returns (s': State<T>)
    requires Reachable(s, p) && p(op) && t in s.pcs && s.pcs[t].Idle? && !op.Consumes()
    requires s.next.None? && s.data.None? && (op.prio.LOW? ==> s.low.None?) && s.items == []
    requires op.Load? ==> op.chain != []
    requires w in s.pcs && s.pcs[w].Parked?
    ensures Reachable(s', p) && s'.next.None? && s'.data.None?
    ensures s'.items == if op.Load? then op.chain else [op.item]
    ensures s'.pcs == if op.Notifies() then s.pcs[w := Woken(s.pcs[w].op)][t := Idle] else s.pcs[t := Idle]
  {
    var s1 := Enter(s, p, t, op);
    assert s1.pcs[t] == Access(op);
    s' := PutAndLeave(s1, p, t, op, w);
  }

  lemma TakeOne<T(!new)>(s: State<T>, p: Policy<T>, t: Tid) returns (s': State<T>)
    requires Reachable(s, p) && t in s.pcs && s.pcs[t].Woken? && s.pcs[t].op.Dequeue?
    requires s.next.None? && s.data.None? && s.items != []
    ensures Reachable(s', p) && s'.next.None? && s'.data.None?
    ensures s'.items == s.items[1..] && s'.pcs == s.pcs[t := Idle]
  {
    s' := ReachGo(s, p, t);
    s' := ReachGo(s', p, t);
    s' := ReachGo(s', p, t);
    s' := Leave(s', p, t);
  }

  lemma StartReachable<T(!new)>(p: Policy<T>, threads: set<Tid>)
    ensures Reachable<T>(Init(threads), p)
  {
    assert ReachableBy<T>(Init(threads), p, threads, []);
  }

  lemma LostByLowEnqueue<T(!new)>(p: Policy<T>, x: T, c: Op<T>) returns (s: State<T>)
    requires p(Enqueue(x, LOW)) && p(c) && c.Blocks() && c.prio.HIGH?
    ensures Reachable(s, p) && Stuck(s) && s.items == [x] && s.pcs == map[0 := Parked(c), 1 := Idle]
  {
    s := Init({0, 1});
    StartReachable(p, {0, 1});
    s := ParkOne(s, p, 0, c);
    s := InsertOne(s, p, 1, Enqueue(x, LOW), 0);
    StuckIff(s, p);
  }

  lemma LostByLoadTail<T(!new)>(s: State<T>, p: Policy<T>, load: Op<T>, first: Op<T>, second: Op<T>)
    returns (s': State<T>)
    requires Reachable(s, p) && p(load) && load.Load? && |load.chain| >= 2 && first.Dequeue?
    requires s.next.None? && s.data.None? && (load.prio.LOW? ==> s.low.None?) && s.items == []
    requires s.pcs == map[0 := Parked(first), 1 := Parked(second), 2 := Idle]
    ensures Reachable(s', p) && s'.next.None? && s'.data.None? && s'.items == load.chain[1..]
    ensures s'.pcs == map[0 := Idle, 1 := Parked(second), 2 := Idle]
  {
    s' := InsertOne(s, p, 2, load, 0);
    assert s'.pcs[0] == Woken(first);
    s' := TakeOne(s', p, 0);
  }

  /** Three threads, the first parked. */
  lemma ParkFirst<T(!new)>(p: Policy<T>, first: Op<T>) returns (s: State<T>)
    requires p(first) && first.Blocks()
    ensures Reachable(s, p) && s.next.None? && s.data.None? && s.items == []
    ensures s.low == if first.prio.LOW? then Some(0) else None
    ensures s.pcs == map[0 := Parked(first), 1 := Idle, 2 := Idle]
  {
    s := Init({0, 1, 2});
    StartReachable(p, {0, 1, 2});
    s := ParkOne(s, p, 0, first);
  }

  lemma ParkTwo<T(!new)>(p: Policy<T>, first: Op<T>, second: Op<T>) returns (s: State<T>)
    requires p(first) && first.Blocks() && p(second) && second.Blocks() && second.prio.HIGH?
    ensures Reachable(s, p) && s.next.None? && s.data.None? && s.items == []
    ensures s.low == if first.prio.LOW? then Some(0) else None
    ensures s.pcs == map[0 := Parked(first), 1 := Parked(second), 2 := Idle]
  {
    s := ParkFirst(p, first);
    s := ParkOne(s, p, 1, second);
  }

  lemma LostByLoad<T(!new)>(p: Policy<T>, load: Op<T>, first: Op<T>, second: Op<T>) returns (s: State<T>)
    requires p(load) && load.Load? && |load.chain| >= 2
    requires p(first) && first == Dequeue(first.prio, BLOCK)
    requires p(second) && second.Blocks() && second.prio.HIGH?
    requires first.prio.HIGH? || load.prio.HIGH?
    ensures Reachable(s, p) && Stuck(s) && s.items == load.chain[1..]
    ensures s.pcs == map[0 := Idle, 1 := Parked(second), 2 := Idle]
  {
    s := ParkTwo(p, first, second);
    s := LostByLoadTail(s, p, load, first, second);
    StuckIff(s, p);
  }

  lemma LostWakeupExists<T(!new)>(p: Policy<T>) returns (s: State<T>)
    requires LosesWakeups(p)
    ensures Reachable(s, p) && Stuck(s) && Unfinished(s) && s.items != []
  {
    if LowEnqueues(p) && HighBlocking(p) {
      var x: T :| p(Enqueue(x, LOW));
      s := LostByLowEnqueue(p, x, if p(Dequeue(HIGH, BLOCK)) then Dequeue(HIGH, BLOCK) else Dump(HIGH, BLOCK));
      assert !s.pcs[0].Idle?;
    } else {
      var prio := if MultiLoads(p, HIGH) then HIGH else LOW;
      var chain: seq<T> :| |chain| >= 2 && p(Load(chain, prio));
      if p(Dequeue(HIGH, BLOCK)) {
        s := LostByLoad(p, Load(chain, prio), Dequeue(HIGH, BLOCK), Dequeue(HIGH, BLOCK));
      } else {
        s := LostByLoad(p, Load(chain, prio), Dequeue(LOW, BLOCK), Dump(HIGH, BLOCK));
      }
      assert !s.pcs[1].Idle?;
    }
  }

  /** The exact condition: a program never strands a consumer beside items iff it avoids the losing combinations. */
  lemma NoLostWakeupIff<T(!new)>(p: Policy<T>)
    ensures (forall s: State<T> | Reachable(s, p) && Stuck(s) && Unfinished(s) :: s.items == []) <==> !LosesWakeups(p)
  {
    if LosesWakeups(p) {
      var s := LostWakeupExists(p);
    } else {
      forall s: State<T> | Reachable(s, p) && Stuck(s) && Unfinished(s)
        ensures s.items == []
      {
        NoLostWakeup(s, p);
      }
    }
  }
}
