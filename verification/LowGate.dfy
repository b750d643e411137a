/**
 The deadlock that the low gate makes possible. A LOW consumer that waits for items keeps m_low_prio_access
 while it is parked, so a LOW insertion, which would bring the items, cannot get in.
 */
module LowGate {
  import opened Basics
  import opened Monitor
  import LostWakeup

  predicate Inserts<T>(op: Op<T>) { op.Enqueue? || (op.Load? && op.chain != []) }

  ghost predicate Allows<T(!new)>(p: Policy<T>, prio: Priority) {
    exists op: Op<T> :: p(op) && Inserts(op) && op.prio == prio
  }

  predicate LowBlocking<T>(p: Policy<T>) { p(Dequeue(LOW, BLOCK)) || p(Dump(LOW, BLOCK)) }

  predicate Inserting<T>(pc: PC<T>) { !pc.Idle? && Inserts(pc.op) }

  ghost predicate Barred<T>(s: State<T>) { exists t :: t in s.pcs && Inserting(s.pcs[t]) }

  // ---------- When an insertion can be barred ----------

  lemma FollowsRest<T>(moves: seq<Move<T>>, p: Policy<T>)
    requires Follows(moves, p) && moves != []
    ensures Follows(moves[1..], p) && (moves[0].a.Call? ==> p(moves[0].a.op))
  {
    assert forall i | 0 <= i < |moves[1..]| :: moves[1..][i] == moves[i + 1];
  }

  lemma {:induction false} ObeysRun<T>(s: State<T>, moves: seq<Move<T>>, p: Policy<T>)
    requires LostWakeup.Obeys(s, p) && Follows(moves, p) && Exec(s, moves).Some?
    ensures LostWakeup.Obeys(Exec(s, moves).value, p)
    decreases |moves|
  {
    if moves != [] {
      FollowsRest(moves, p);
      ObeysRun(Apply(s, moves[0].t, moves[0].a), moves[1..], p);
    }
  }

  lemma BarredNeedsLow<T(!new)>(s: State<T>, p: Policy<T>)
    requires Reachable(s, p) && Stuck(s) && Barred(s)
    ensures LowBlocking(p) && Allows(p, LOW)
  {
    var threads: set<Tid>, moves: seq<Move<T>> :| ReachableBy(s, p, threads, moves);
    ObeysRun(Init(threads), moves, p);
    StuckIff(s, p);
    ReachableLockInv(s, p);
    var t :| t in s.pcs && Inserting(s.pcs[t]);
    assert ThreadOk(s, t) && WaitsForItems(s, t);
    var w := s.low.value;
    assert ThreadOk(s, w);
    assert s.pcs[w].op == Dequeue(LOW, BLOCK) || s.pcs[w].op == Dump(LOW, BLOCK);
  }

  /** One thread parks as a LOW consumer, the other asks for the gate. */
  lemma BarredExists<T(!new)>(p: Policy<T>) returns (s: State<T>)
    requires LowBlocking(p) && Allows(p, LOW)
    ensures Reachable(s, p) && Stuck(s) && Shut(s, 0)
    ensures 1 in s.pcs && s.pcs[1].WantLow? && Inserting(s.pcs[1])
  {
    var op: Op<T> :| p(op) && Inserts(op) && op.prio.LOW?;
    var consumer := if p(Dequeue(LOW, BLOCK)) then Dequeue(LOW, BLOCK) else Dump(LOW, BLOCK);
    s := ParkLow(p, consumer);
    s := LostWakeup.ReachStep(s, p, 1, Call(op));
    assert s.pcs == map[0 := Parked(consumer), 1 := WantLow(op)];
    StuckIff(s, p);
  }

  lemma ParkLow<T(!new)>(p: Policy<T>, consumer: Op<T>) returns (s: State<T>)
    requires p(consumer) && consumer.Blocks() && consumer.prio.LOW?
    ensures Reachable(s, p) && s.items == [] && s.low == Some(0) && s.next.None? && s.data.None?
    ensures s.pcs == map[0 := Parked(consumer), 1 := Idle]
  {
    LostWakeup.StartReachable(p, {0, 1});
    s := Init({0, 1});
    s := LostWakeup.ParkOne(s, p, 0, consumer);
  }

  /**
   The exact condition: some run ends with an insertion that waits forever for its turn if and only if
   the program uses LOW both for a blocking consumer and for an insertion.
   */
  lemma BarredIff<T(!new)>(p: Policy<T>)
    ensures (exists s: State<T> :: Reachable(s, p) && Stuck(s) && Barred(s)) <==> LowBlocking(p) && Allows(p, LOW)
  {
    if LowBlocking(p) && Allows(p, LOW) {
      var s := BarredExists(p);
      assert Barred(s);
    }
    if s: State<T> :| Reachable(s, p) && Stuck(s) && Barred(s) {
      BarredNeedsLow(s, p);
    }
  }

  /** Only programs with a blocking consumer can get stuck with work left: the others finish what they begin. */
  lemma StuckNeedsBlocking<T(!new)>(s: State<T>, p: Policy<T>)
    requires Reachable(s, p) && Stuck(s) && LostWakeup.Unfinished(s)
    ensures exists op: Op<T> :: p(op) && op.Blocks()
  {
    var threads: set<Tid>, moves: seq<Move<T>> :| ReachableBy(s, p, threads, moves);
    ObeysRun(Init(threads), moves, p);
    StuckIff(s, p);
    ReachableLockInv(s, p);
    var t :| t in s.pcs && !s.pcs[t].Idle?;
    assert WaitsForItems(s, t);
    var w := if s.pcs[t].Parked? then t else s.low.value;
    assert ThreadOk(s, w) && p(s.pcs[w].op) && s.pcs[w].op.Blocks();
  }

  // ---------- When it stays barred ----------

  /** w holds the low gate and waits for items; the queue is empty and nobody inside the gate inserts. */
  ghost predicate Shut<T>(s: State<T>, w: Tid) {
    && s.items == [] && s.low == Some(w) && w in s.pcs
    && (s.pcs[w].Parked? || s.pcs[w].Woken? || s.pcs[w].Test?) && s.pcs[w].op.Blocks() && s.pcs[w].op.prio.LOW?
    && forall t | t in s.pcs && Inserting(s.pcs[t]) :: s.pcs[t].WantLow?
  }

  /** Nobody inserts or notifies while the gate is shut; what steps are consumers that find the queue empty. */
  lemma ShutStep<T>(s: State<T>, w: Tid, t: Tid, a: Action<T>)
    requires LockInv(s) && Shut(s, w) && Enabled(s, t, a)
    requires a.Call? && Inserts(a.op) ==> a.op.prio.LOW?
    ensures Shut(Apply(s, t, a), w)
    ensures forall u | u in s.pcs && s.pcs[u].WantLow? :: Apply(s, t, a).pcs[u] == s.pcs[u]
  {
    assert ThreadOk(s, t) && ThreadOk(s, w);
    if a.Go? { ShutGo(s, w, t); }
  }

  lemma ShutGo<T>(s: State<T>, w: Tid, t: Tid)
    requires LockInv(s) && Shut(s, w) && CanGo(s, t)
    ensures Shut(ApplyGo(s, t), w) && !s.pcs[t].WantLow?
    ensures forall u | u in s.pcs && u != t :: ApplyGo(s, t).pcs[u] == s.pcs[u]
  {
    assert ThreadOk(s, t) && ThreadOk(s, w);
    assert !Inserting(s.pcs[t]) && !s.pcs[t].Access?;
  }

  /**
   Without HIGH insertions nothing helps any more: in every continuation the queue stays empty, the gate
   stays shut, and whoever waits at it still waits.
   */
  lemma {:induction false} ShutForever<T(!new)>(s: State<T>, moves: seq<Move<T>>, p: Policy<T>, w: Tid)
    requires LockInv(s) && Shut(s, w) && !Allows(p, HIGH)
    requires Follows(moves, p) && Exec(s, moves).Some?
    ensures Shut(Exec(s, moves).value, w)
    ensures forall u | u in s.pcs && s.pcs[u].WantLow? ::
              u in Exec(s, moves).value.pcs && Exec(s, moves).value.pcs[u] == s.pcs[u]
    decreases |moves|
  {
    if moves != [] {
      var t, a := moves[0].t, moves[0].a;
      assert a.Call? && Inserts(a.op) ==> a.op.prio.LOW?;
      ShutStep(s, w, t, a);
      LockInvStep(s, t, a);
      FollowsRest(moves, p);
      ShutForever(Apply(s, t, a), moves[1..], p, w);
    }
  }

  /** Such a program can lock itself out for good. */
  lemma LowOnlyProgramsDeadlock<T(!new)>(p: Policy<T>) returns (s: State<T>)
    requires LowBlocking(p) && Allows(p, LOW) && !Allows(p, HIGH)
    ensures Reachable(s, p) && 1 in s.pcs && Inserting(s.pcs[1])
    ensures forall moves | Follows(moves, p) && Exec(s, moves).Some? ::
              Exec(s, moves).value.items == [] && 1 in Exec(s, moves).value.pcs && Exec(s, moves).value.pcs[1] == s.pcs[1]
  {
    s := BarredExists(p);
    ReachableLockInv(s, p);
    forall moves | Follows(moves, p) && Exec(s, moves).Some?
      ensures Exec(s, moves).value.items == []
      ensures 1 in Exec(s, moves).value.pcs && Exec(s, moves).value.pcs[1] == s.pcs[1]
    {
      ShutForever(s, moves, p, 0);
    }
  }
}
