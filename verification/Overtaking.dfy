/**
 The priority gate. When m_next_to_access is granted in request order, at most one LOW operation
 commits between the moment a HIGH thread asks for m_next and the moment it first holds m_data.
 */
module Overtaking {
  import opened Basics
  import opened Monitor
  import LostWakeup

  /** A monitor state with the line of threads waiting for m_next, in request order. */
  datatype Fair<T> = Fair(s: State<T>, line: seq<Tid>)

  ghost predicate Waits<T>(s: State<T>, t: Tid) { t in s.pcs && s.pcs[t].WantNext? }

  ghost predicate FairEnabled<T>(f: Fair<T>, t: Tid, a: Action<T>) {
    Enabled(f.s, t, a) && (Waits(f.s, t) ==> f.line != [] && f.line[0] == t)
  }

  function NextLine<T>(s: State<T>, t: Tid, s': State<T>, line: seq<Tid>): seq<Tid>
    requires t in s.pcs && t in s'.pcs && (s.pcs[t].WantNext? ==> line != [])
  {
    if s.pcs[t].WantNext? && !s'.pcs[t].WantNext? then line[1..]
    else if !s.pcs[t].WantNext? && s'.pcs[t].WantNext? then line + [t]
    else line
  }

  ghost function FairApply<T>(f: Fair<T>, t: Tid, a: Action<T>): Fair<T>
    requires FairEnabled(f, t, a)
  {
    var s' := Apply(f.s, t, a);
    Fair(s', NextLine(f.s, t, s', f.line))
  }

  ghost function FairExec<T>(f: Fair<T>, moves: seq<Move<T>>): Option<Fair<T>>
    decreases |moves|
  {
    if moves == [] then Some(f)
    else if FairEnabled(f, moves[0].t, moves[0].a) then FairExec(FairApply(f, moves[0].t, moves[0].a), moves[1..])
    else None
  }

  /** The fair runs are runs of the monitor. */
  lemma {:induction false} FairIsRun<T>(f: Fair<T>, moves: seq<Move<T>>)
    requires FairExec(f, moves).Some?
    ensures Exec(f.s, moves) == Some(FairExec(f, moves).value.s)
    decreases |moves|
  {
    if moves != [] {
      FairIsRun(FairApply(f, moves[0].t, moves[0].a), moves[1..]);
    }
  }

  // ---------- Counting ----------

  /** A LOW operation got its turn at the queue; a refused load never asks for one. */
  predicate LowCommit<T>(e: Event<T>) {
    e.Committed? && e.op.prio.LOW? && !(e.op.Load? && e.op.chain == [])
  }

  /** Number of LOW operations committed since h last asked for m_next. */
  function LowSince<T>(hist: seq<Event<T>>, h: Tid): nat {
    if hist == [] then 0
    else
      var e := hist[|hist| - 1];
      if e.Requested? && e.t == h then 0
      else LowSince(hist[..|hist| - 1], h) + if LowCommit(e) then 1 else 0
  }

  lemma LowSinceSnoc<T>(hist: seq<Event<T>>, e: Event<T>, h: Tid)
    ensures LowSince(hist + [e], h) ==
            if e.Requested? && e.t == h then 0 else LowSince(hist, h) + if LowCommit(e) then 1 else 0
  {
    assert (hist + [e])[..|hist|] == hist;
  }

  // ---------- The invariant ----------

  ghost predicate LineInv<T>(f: Fair<T>) {
    && (forall i | 0 <= i < |f.line| :: Waits(f.s, f.line[i]))
    && (forall t | Waits(f.s, t) :: t in f.line)
    && (forall i, j | 0 <= i < j < |f.line| :: f.line[i] != f.line[j])
  }

  /** h has asked for m_next and has not yet held m_data. */
  predicate Entering<T>(pc: PC<T>) { (pc.WantNext? || pc.WantData?) && pc.op.prio.HIGH? }

  /** u stands before h in the line. */
  ghost predicate Before(line: seq<Tid>, u: Tid, h: Tid) {
    exists i, j :: 0 <= i < j < |line| && line[i] == u && line[j] == h
  }

  /** The operation has had its turn at the queue. */
  predicate Done<T>(pc: PC<T>) { pc.Notify? || pc.UnlockData? || pc.UnlockLow? }

  /** l is a LOW thread past the gate that can still commit before h holds m_data. */
  ghost predicate Ahead<T>(f: Fair<T>, h: Tid, l: Tid) {
    && l in f.s.pcs && f.s.low == Some(l)
    && !Done(f.s.pcs[l])
    && (f.s.pcs[l].WantNext? ==> Before(f.line, l, h))
  }

  ghost predicate AnyAhead<T>(f: Fair<T>, h: Tid) { f.s.low.Some? && Ahead(f, h, f.s.low.value) }

  ghost predicate OvertakeOk<T>(f: Fair<T>, h: Tid) {
    h in f.s.pcs && Entering(f.s.pcs[h]) ==>
      LowSince(f.s.hist, h) + (if AnyAhead(f, h) then 1 else 0) <= 1
  }

  ghost predicate FairInv<T>(f: Fair<T>) {
    LockInv(f.s) && LineInv(f) && forall h :: OvertakeOk(f, h)
  }

  /** What a step of t can change of positions and of the low gate. */
  ghost predicate Shape<T>(s: State<T>, t: Tid, s': State<T>) {
    && t in s.pcs && s'.pcs.Keys == s.pcs.Keys
    && (forall u | u in s.pcs && u != t ::
          s'.pcs[u] == s.pcs[u] || (s.pcs[u].Parked? && s'.pcs[u].Woken?))
    && (s.pcs[t].WantNext? ==> s'.pcs[t].WantData? && s.next.None?)
    && (s'.low == s.low || s'.low == None || (s'.low == Some(t) && s'.pcs[t].WantNext?))
    && (s.low == Some(t) && s'.low == Some(t) ==>
          !s'.pcs[t].WantNext? && (Done(s.pcs[t]) ==> Done(s'.pcs[t])))
  }

  lemma GoShape<T>(s: State<T>, t: Tid)
    requires LockInv(s) && CanGo(s, t)
    ensures Shape(s, t, ApplyGo(s, t))
  {
    assert ThreadOk(s, t);
  }

  lemma StepShape<T>(s: State<T>, t: Tid, a: Action<T>)
    requires LockInv(s) && Enabled(s, t, a)
    ensures Shape(s, t, Apply(s, t, a))
  {
    assert ThreadOk(s, t);
    if a.Go? { GoShape(s, t); }
  }

  lemma LineStep<T>(f: Fair<T>, t: Tid, f': Fair<T>)
    requires LineInv(f) && Shape(f.s, t, f'.s) && (Waits(f.s, t) ==> f.line != [] && f.line[0] == t)
    requires f'.line == NextLine(f.s, t, f'.s, f.line)
    ensures LineInv(f')
  {
    forall u | u != t
      ensures Waits(f.s, u) <==> Waits(f'.s, u)
    {
    }
    LineMove(f, t, f');
  }

  lemma LineMove<T>(f: Fair<T>, t: Tid, f': Fair<T>)
    requires LineInv(f) && (Waits(f.s, t) ==> f.line != [] && f.line[0] == t && !Waits(f'.s, t))
    requires forall u | u != t :: Waits(f.s, u) <==> Waits(f'.s, u)
    requires f'.line == if Waits(f.s, t) then f.line[1..] else if Waits(f'.s, t) then f.line + [t] else f.line
    ensures LineInv(f')
  {
    forall u | Waits(f'.s, u) && u != t
      ensures u in f'.line
    {
      var i :| 0 <= i < |f.line| && f.line[i] == u;
      if Waits(f.s, t) && i > 0 { assert f'.line[i - 1] == u; }
    }
  }

  /** Whoever stands before h did so before another thread left the front of the line or joined its end. */
  lemma BeforeBack(line: seq<Tid>, t: Tid, line': seq<Tid>, l: Tid, h: Tid)
    requires line' == line || (line != [] && line' == line[1..]) || (line' == line + [t] && t != h)
    requires Before(line', l, h)
    ensures Before(line, l, h)
  {
    var i, j :| 0 <= i < j < |line'| && line'[i] == l && line'[j] == h;
    if line' == line || line' == line + [t] {
      assert line[i] == l && line[j] == h;
    } else {
      assert line[i + 1] == l && line[j + 1] == h;
    }
  }

  /** A step of another thread puts nobody new ahead of h. */
  lemma AheadBack<T>(f: Fair<T>, t: Tid, f': Fair<T>, h: Tid)
    requires LockInv(f.s) && LineInv(f) && Shape(f.s, t, f'.s)
    requires Waits(f.s, t) ==> f.line != [] && f.line[0] == t
    requires f'.line == NextLine(f.s, t, f'.s, f.line)
    requires h in f.s.pcs && Entering(f.s.pcs[h]) && Entering(f'.s.pcs[h])
    requires f.s.pcs[h] == f'.s.pcs[h] || (h == t && Waits(f.s, h))
    requires AnyAhead(f', h)
    ensures AnyAhead(f, h)
  {
    var l := f'.s.low.value;
    assert ThreadOk(f.s, h);
    if Waits(f'.s, l) {
      BeforeBack(f.line, t, f'.line, l, h);
    } else if Waits(f.s, l) {
      assert l == t && h != t && Waits(f.s, h);
      var j :| 0 <= j < |f.line| && f.line[j] == h;
      assert f.line[0] == l;
      assert Before(f.line, l, h);
    }
  }

  // ---------- The count ----------

  lemma CallHist<T>(s: State<T>, t: Tid, op: Op<T>, h: Tid)
    ensures var s' := ApplyCall(s, t, op);
            LowSince(s'.hist, h) ==
            if h == t && op.prio.HIGH? && !(op.Load? && op.chain == []) then 0 else LowSince(s.hist, h)
  {
    var s' := ApplyCall(s, t, op);
    var h1 := s.hist + [Called(t, op)];
    LowSinceSnoc(s.hist, Called(t, op), h);
    if op.Load? && op.chain == [] {
      var h2 := h1 + [Committed(t, op, Code(-1))];
      LowSinceSnoc(h1, Committed(t, op, Code(-1)), h);
      LowSinceSnoc(h2, Returned(t, op, Code(-1)), h);
      assert s'.hist == h2 + [Returned(t, op, Code(-1))];
    } else if op.prio.HIGH? {
      LowSinceSnoc(h1, Requested(t), h);
      assert s'.hist == h1 + [Requested(t)];
    }
  }

  /** The count for h grows only when the owner of the low gate takes its turn at the queue. */
  lemma GoHist<T>(s: State<T>, t: Tid, h: Tid)
    requires CanGo(s, t) && (h != t || !s.pcs[t].WantLow?)
    requires !s.pcs[t].Idle? && s.pcs[t].op.Load? ==> s.pcs[t].op.chain != []
    ensures var s' := ApplyGo(s, t);
            LowSince(s'.hist, h) == LowSince(s.hist, h) ||
            (LowSince(s'.hist, h) == LowSince(s.hist, h) + 1 && Done(s'.pcs[t]) && !Done(s.pcs[t])
             && !s.pcs[t].WantNext? && HoldsLow(s.pcs[t]))
  {
    var s' := ApplyGo(s, t);
    if s'.hist != s.hist {
      LowSinceSnoc(s.hist, s'.hist[|s.hist|], h);
    }
  }

  lemma OvertakeOther<T>(f: Fair<T>, t: Tid, a: Action<T>, h: Tid)
    requires FairInv(f) && FairEnabled(f, t, a) && h != t
    ensures OvertakeOk(FairApply(f, t, a), h)
  {
    var f' := FairApply(f, t, a);
    assert ThreadOk(f.s, t) && OvertakeOk(f, h);
    StepShape(f.s, t, a);
    if h in f.s.pcs && Entering(f'.s.pcs[h]) {
      if AnyAhead(f', h) { AheadBack(f, t, f', h); }
      if a.Call? { CallHist(f.s, t, a.op, h); } else if a.Go? { GoHist(f.s, t, h); }
    }
  }

  lemma OvertakeSelf<T>(f: Fair<T>, h: Tid, a: Action<T>)
    requires FairInv(f) && FairEnabled(f, h, a)
    ensures OvertakeOk(FairApply(f, h, a), h)
  {
    var f' := FairApply(f, h, a);
    assert ThreadOk(f.s, h) && OvertakeOk(f, h);
    StepShape(f.s, h, a);
    if Entering(f'.s.pcs[h]) {
      if a.Call? {
        CallHist(f.s, h, a.op, h);
      } else {
        assert Waits(f.s, h);
        if AnyAhead(f', h) { AheadBack(f, h, f', h); }
      }
    }
  }

  lemma FairInvStep<T>(f: Fair<T>, t: Tid, a: Action<T>)
    requires FairInv(f) && FairEnabled(f, t, a)
    ensures FairInv(FairApply(f, t, a))
  {
    LockInvStep(f.s, t, a);
    StepShape(f.s, t, a);
    LineStep(f, t, FairApply(f, t, a));
    forall h
      ensures OvertakeOk(FairApply(f, t, a), h)
    {
      if h == t { OvertakeSelf(f, h, a); } else { OvertakeOther(f, t, a, h); }
    }
  }

  lemma {:induction false} FairInvRun<T>(f: Fair<T>, moves: seq<Move<T>>)
    requires FairInv(f) && FairExec(f, moves).Some?
    ensures FairInv(FairExec(f, moves).value)
    decreases |moves|
  {
    if moves != [] {
      FairInvStep(f, moves[0].t, moves[0].a);
      FairInvRun(FairApply(f, moves[0].t, moves[0].a), moves[1..]);
    }
  }

  /**
   Bounded overtaking: in every fair run, while a HIGH thread is between its request for m_next and
   its first hold of m_data, at most one LOW operation has committed since that request.
   */
  lemma AtMostOneLowOvertakes<T>(threads: set<Tid>, moves: seq<Move<T>>, h: Tid)
    requires FairExec(Fair(Init(threads), []), moves).Some?
    ensures var s := FairExec(Fair(Init(threads), []), moves).value.s;
            h in s.pcs && Entering(s.pcs[h]) ==> LowSince(s.hist, h) <= 1
  {
    FairInvRun(Fair(Init(threads), []), moves);
    assert OvertakeOk(FairExec(Fair(Init(threads), []), moves).value, h);
  }

  // ---------- The grant order is needed ----------

  /** LOW and HIGH threads alone with the queue: the HIGH one has asked for m_next n LOW commits ago. */
  ghost predicate Overtaken<T(!new)>(s: State<T>, p: Policy<T>, n: nat) {
    && Reachable(s, p) && s.low.None? && s.next.None? && s.data.None? && s.items == []
    && s.pcs == map[0 := Idle, 1 := WantNext(Dequeue(HIGH, NONBLOCK))]
    && LowSince(s.hist, 1) == n
  }

  /** The step of t commits an operation. */
  predicate Commits<T>(s: State<T>, t: Tid)
    requires t in s.pcs
  {
    s.pcs[t].Access? || (s.pcs[t].Test? && s.items == [] && !s.pcs[t].op.Blocks())
  }

  lemma LowGo<T(!new)>(s: State<T>, p: Policy<T>, t: Tid, op: Op<T>, h: Tid) returns (s': State<T>)
    requires Reachable(s, p) && CanGo(s, t) && h != t
    requires !s.pcs[t].Idle? && s.pcs[t].op == op && op.Dequeue? && op.prio.LOW?
    ensures s' == ApplyGo(s, t) && Reachable(s', p)
    ensures LowSince(s'.hist, h) == LowSince(s.hist, h) + if Commits(s, t) then 1 else 0
  {
    s' := LostWakeup.ReachGo(s, p, t);
    if s'.hist != s.hist {
      LowSinceSnoc(s.hist, s'.hist[|s.hist|], h);
    }
  }

  lemma LowCall<T(!new)>(s: State<T>, p: Policy<T>, n: nat, op: Op<T>) returns (s': State<T>)
    requires Overtaken(s, p, n) && op == Dequeue(LOW, NONBLOCK) && p(op)
    ensures Reachable(s', p) && s'.low == Some(0) && s'.next.None? && s'.data.None? && s'.items == []
    ensures s'.pcs == map[0 := WantNext(op), 1 := WantNext(Dequeue(HIGH, NONBLOCK))] && LowSince(s'.hist, 1) == n
  {
    LowSinceSnoc(s.hist, Called(0, op), 1);
    LowSinceSnoc(s.hist + [Called(0, op)], Requested(0), 1);
    s' := LostWakeup.Request(s, p, 0, op);
  }

  lemma LowFinish<T(!new)>(s: State<T>, p: Policy<T>, n: nat, op: Op<T>) returns (s': State<T>)
    requires Reachable(s, p) && op == Dequeue(LOW, NONBLOCK) && LowSince(s.hist, 1) == n
    requires s.low == Some(0) && s.data == Some(0) && s.next.None? && s.items == []
    requires s.pcs == map[0 := Test(op), 1 := WantNext(Dequeue(HIGH, NONBLOCK))]
    ensures Overtaken(s', p, n + 1)
  {
    var s1 := LowGo(s, p, 0, op, 1);
    assert s1.pcs[0] == UnlockData(op, Null) && LowSince(s1.hist, 1) == n + 1;
    LowSinceSnoc(s1.hist, Returned(0, op, Null), 1);
    s' := LostWakeup.Leave(s1, p, 0);
    assert LowSince(s'.hist, 1) == n + 1;
  }

  lemma LowTurn<T(!new)>(s: State<T>, p: Policy<T>, n: nat) returns (s': State<T>)
    requires Overtaken(s, p, n) && p(Dequeue(LOW, NONBLOCK))
    ensures Overtaken(s', p, n + 1)
  {
    var op := Dequeue(LOW, NONBLOCK);
    s' := LowCall(s, p, n, op);
    s' := LostWakeup.LockBoth(s', p, 0, op);
    s' := LowGo(s', p, 0, op, 1);
    s' := LowFinish(s', p, n, op);
  }

  /** Without request-order grants no bound holds: any number of LOW operations can pass a waiting HIGH thread. */
  lemma {:induction false} UnfairOvertaking<T(!new)>(p: Policy<T>, n: nat) returns (s: State<T>)
    requires p(Dequeue(LOW, NONBLOCK)) && p(Dequeue(HIGH, NONBLOCK))
    ensures Overtaken(s, p, n)
  {
    if n == 0 {
      LostWakeup.StartReachable(p, {0, 1});
      s := Init({0, 1});
      CallHist(s, 1, Dequeue(HIGH, NONBLOCK), 1);
      s := LostWakeup.ReachStep(s, p, 1, Call(Dequeue(HIGH, NONBLOCK)));
    } else {
      var before := UnfairOvertaking(p, n - 1);
      s := LowTurn(before, p, n - 1);
    }
  }
}
