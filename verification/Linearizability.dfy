/**
 Every run of the monitor is linearizable with respect to the sequential queue of Monitor.SeqApply.
 The witness is the order of the Committed events in the history.
 */
module Linearizability {
  import opened Basics
  import opened Monitor

  // ---------- Reading a history ----------

  /** Contents of a sequential queue that ran the committed operations in order; None if a recorded result is not its own. */
  ghost function Replay<T>(hist: seq<Event<T>>): Option<seq<T>> {
    if hist == [] then Some([])
    else
      var e := hist[|hist| - 1];
      match Replay(hist[..|hist| - 1])
      case None => None
      case Some(items) =>
        if !e.Committed? then Some(items)
        else
          match SeqApply(items, e.op)
          case None => None
          case Some(p) => if p.1 == e.res then Some(p.0) else None
  }

  /** What the history says about one thread. Broken is absorbing. */
  datatype View<T> = Outside | Pending(op: Op<T>) | Decided(op: Op<T>, res: Result<T>) | Broken

  ghost function Advance<T>(v: View<T>, e: Event<T>): View<T> {
    match e
    case Requested(_) => v
    case Called(_, op) => if v.Outside? then Pending(op) else Broken
    case Committed(_, op, res) => if v == Pending(op) then Decided(op, res) else Broken
    case Returned(_, op, res) => if v == Decided(op, res) then Outside else Broken
  }

  ghost function ViewOf<T>(hist: seq<Event<T>>, t: Tid): View<T> {
    if hist == [] then Outside
    else
      var e := hist[|hist| - 1];
      var v := ViewOf(hist[..|hist| - 1], t);
      if e.t == t then Advance(v, e) else v
  }

  function PcView<T>(pc: PC<T>): View<T> {
    match pc
    case Idle => Outside
    case Notify(op, res) => Decided(op, res)
    case UnlockData(op, res) => Decided(op, res)
    case UnlockLow(op, res) => Decided(op, res)
    case _ => Pending(pc.op)
  }

  // ---------- The invariant ----------

  ghost function StateView<T>(s: State<T>, t: Tid): View<T> {
    if t in s.pcs then PcView(s.pcs[t]) else Outside
  }

  ghost predicate LinInv<T>(s: State<T>) {
    && Replay(s.hist) == Some(s.items)
    && forall t :: ViewOf(s.hist, t) == StateView(s, t)
  }

  lemma Snoc<T>(hist: seq<Event<T>>, e: Event<T>)
    ensures (hist + [e])[..|hist|] == hist && (hist + [e])[|hist|] == e
  {
  }

  lemma ViewSnoc<T>(hist: seq<Event<T>>, e: Event<T>, t: Tid)
    ensures ViewOf(hist + [e], t) == if e.t == t then Advance(ViewOf(hist, t), e) else ViewOf(hist, t)
  {
    Snoc(hist, e);
  }

  lemma ReplaySnoc<T>(hist: seq<Event<T>>, e: Event<T>)
    requires !e.Committed?
    ensures Replay(hist + [e]) == Replay(hist)
  {
    Snoc(hist, e);
  }

  lemma ReplayCommit<T>(hist: seq<Event<T>>, t: Tid, op: Op<T>, items: seq<T>)
    requires Replay(hist) == Some(items) && SeqApply(items, op).Some?
    ensures var p := SeqApply(items, op).value; Replay(hist + [Committed(t, op, p.1)]) == Some(p.0)
  {
    Snoc(hist, Committed(t, op, SeqApply(items, op).value.1));
  }

  /** One more event of t, with t's position moving accordingly, keeps the views. */
  lemma ViewStep<T>(s: State<T>, t: Tid, e: Event<T>, pc: PC<T>, s': State<T>)
    requires forall u :: ViewOf(s.hist, u) == StateView(s, u)
    requires t in s.pcs && e.t == t && s'.hist == s.hist + [e] && s'.pcs == s.pcs[t := pc]
    requires Advance(PcView(s.pcs[t]), e) == PcView(pc)
    ensures forall u :: ViewOf(s'.hist, u) == StateView(s', u)
  {
    forall u
      ensures ViewOf(s'.hist, u) == StateView(s', u)
    {
      ViewSnoc(s.hist, e, u);
    }
  }

  lemma ViewSilent<T>(s: State<T>, t: Tid, pc: PC<T>, s': State<T>)
    requires forall u :: ViewOf(s.hist, u) == StateView(s, u)
    requires t in s.pcs && s'.hist == s.hist && s'.pcs == s.pcs[t := pc]
    requires PcView(s.pcs[t]) == PcView(pc)
    ensures forall u :: ViewOf(s'.hist, u) == StateView(s', u)
  {
  }

  lemma LinInvRefused<T>(s: State<T>, t: Tid, op: Op<T>)
    requires LinInv(s) && t in s.pcs && s.pcs[t].Idle? && op.Load? && op.chain == []
    ensures LinInv(ApplyCall(s, t, op))
  {
    var s', r := ApplyCall(s, t, op), Code(-1);
    var s1 := Goto(Record(s, Called(t, op)), t, WantNext(op));
    ReplaySnoc(s.hist, Called(t, op));
    ViewStep(s, t, Called(t, op), WantNext(op), s1);
    var s2 := Goto(Record(s1, Committed(t, op, r)), t, UnlockData(op, r));
    ReplayCommit(s1.hist, t, op, s.items);
    ViewStep(s1, t, Committed(t, op, r), UnlockData(op, r), s2);
    var s3 := Goto(Record(s2, Returned(t, op, r)), t, Idle);
    ReplaySnoc(s2.hist, Returned(t, op, r));
    ViewStep(s2, t, Returned(t, op, r), Idle, s3);
    assert s3.hist == s'.hist && s3.pcs == s'.pcs;
  }

  lemma LinInvCall<T>(s: State<T>, t: Tid, op: Op<T>)
    requires LinInv(s) && t in s.pcs && s.pcs[t].Idle? && !(op.Load? && op.chain == [])
    ensures LinInv(ApplyCall(s, t, op))
  {
    var s' := ApplyCall(s, t, op);
    var s1 := Goto(Record(s, Called(t, op)), t, WantLow(op));
    ReplaySnoc(s.hist, Called(t, op));
    ViewStep(s, t, Called(t, op), WantLow(op), s1);
    if op.prio.HIGH? {
      ReplaySnoc(s1.hist, Requested(t));
      assert s1.hist + [Requested(t)] == s'.hist;
      ViewStep(s1, t, Requested(t), WantNext(op), s'.(pcs := s1.pcs[t := WantNext(op)]));
      assert s1.pcs[t := WantNext(op)] == s'.pcs;
    }
  }

  lemma LinInvCommit<T>(s: State<T>, t: Tid, op: Op<T>, s': State<T>)
    requires LinInv(s) && t in s.pcs && PcView(s.pcs[t]) == Pending(op)
    requires SeqApply(s.items, op).Some?
    requires var (items, res) := SeqApply(s.items, op).value;
             && s'.items == items && s'.hist == s.hist + [Committed(t, op, res)]
             && t in s'.pcs && s'.pcs == s.pcs[t := s'.pcs[t]] && PcView(s'.pcs[t]) == Decided(op, res)
    ensures LinInv(s')
  {
    ReplayCommit(s.hist, t, op, s.items);
    ViewStep(s, t, Committed(t, op, SeqApply(s.items, op).value.1), s'.pcs[t], s');
  }

  lemma LinInvGo<T>(s: State<T>, t: Tid)
    requires LinInv(s) && CanGo(s, t) && OkPC(s.items, s.pcs[t])
    ensures LinInv(ApplyGo(s, t))
  {
    var s' := ApplyGo(s, t);
    if s'.hist == s.hist {
      ViewSilent(s, t, s'.pcs[t], s');
    } else if s.pcs[t].Access? || s.pcs[t].Test? {
      LinInvCommit(s, t, s.pcs[t].op, s');
    } else {
      var e := if s.pcs[t].WantLow? then Requested(t) else Returned(t, s.pcs[t].op, s.pcs[t].res);
      ViewStep(s, t, e, s'.pcs[t], s');
      ReplaySnoc(s.hist, e);
    }
  }

  lemma LinInvStep<T>(s: State<T>, t: Tid, a: Action<T>)
    requires LinInv(s) && LockInv(s) && Enabled(s, t, a)
    ensures LinInv(Apply(s, t, a))
  {
    match a {
      case Call(op) => if op.Load? && op.chain == [] { LinInvRefused(s, t, op); } else { LinInvCall(s, t, op); }
      case Go => assert ThreadOk(s, t); LinInvGo(s, t);
      case Spurious => ViewSilent(s, t, Woken(s.pcs[t].op), Apply(s, t, a));
      case NotifyOne(who) =>
        var s1 := if who.Some? then Goto(s, who.value, Woken(s.pcs[who.value].op)) else s;
        if who.Some? { ViewSilent(s, who.value, Woken(s.pcs[who.value].op), s1); }
        ViewSilent(s1, t, UnlockData(s.pcs[t].op, s.pcs[t].res), Apply(s, t, a));
    }
  }

  lemma {:induction false} LinInvRun<T>(s: State<T>, moves: seq<Move<T>>)
    requires LinInv(s) && LockInv(s) && Exec(s, moves).Some?
    ensures LinInv(Exec(s, moves).value)
    decreases |moves|
  {
    if moves != [] {
      LinInvStep(s, moves[0].t, moves[0].a);
      LockInvStep(s, moves[0].t, moves[0].a);
      LinInvRun(Apply(s, moves[0].t, moves[0].a), moves[1..]);
    }
  }

  lemma ReachableLinInv<T(!new)>(s: State<T>, policy: Policy<T>)
    requires Reachable(s, policy)
    ensures LinInv(s)
  {
    var threads: set<Tid>, moves: seq<Move<T>> :| ReachableBy(s, policy, threads, moves);
    LinInvRun(Init(threads), moves);
  }

  // ---------- From the invariant to linearizability ----------

  lemma {:induction false} Prefixes<T>(hist: seq<Event<T>>, i: nat, t: Tid)
    requires i <= |hist|
    ensures Replay(hist).Some? ==> Replay(hist[..i]).Some?
    ensures !ViewOf(hist, t).Broken? ==> !ViewOf(hist[..i], t).Broken?
  {
    if i < |hist| {
      var h := hist[..|hist| - 1];
      Prefixes(h, i, t);
      assert h[..i] == hist[..i];
    } else {
      assert hist[..i] == hist;
    }
  }

  /** Only Requested events of t between positions lo and hi. */
  ghost predicate Quiet<T>(hist: seq<Event<T>>, t: Tid, lo: int, hi: int) {
    forall k :: 0 <= lo < k < hi <= |hist| && hist[k].t == t ==> hist[k].Requested?
  }

  lemma {:induction false} FindCall<T>(hist: seq<Event<T>>, t: Tid) returns (c: nat)
    requires ViewOf(hist, t).Pending?
    ensures c < |hist| && hist[c] == Called(t, ViewOf(hist, t).op) && Quiet(hist, t, c, |hist|)
    decreases |hist|
  {
    var n := |hist| - 1;
    if hist[n] == Called(t, ViewOf(hist, t).op) {
      c := n;
    } else {
      c := FindCall(hist[..n], t);
      assert forall k | 0 <= k < n :: hist[k] == hist[..n][k];
    }
  }

  lemma {:induction false} FindCommit<T>(hist: seq<Event<T>>, t: Tid) returns (c: nat, b: nat)
    requires ViewOf(hist, t).Decided?
    ensures c < b < |hist|
    ensures hist[c] == Called(t, ViewOf(hist, t).op)
    ensures hist[b] == Committed(t, ViewOf(hist, t).op, ViewOf(hist, t).res)
    ensures Quiet(hist, t, c, b) && Quiet(hist, t, b, |hist|)
    decreases |hist|
  {
    var n := |hist| - 1;
    if hist[n].t == t && hist[n].Committed? {
      b := n;
      c := FindCall(hist[..n], t);
    } else {
      c, b := FindCommit(hist[..n], t);
    }
    assert forall k | 0 <= k < n :: hist[k] == hist[..n][k];
  }

  /**
   Linearizability. Whenever an operation returns, it committed exactly once since its call, and the
   value it returns is the one the sequential queue gives when the operations run in commit order.
   */
  lemma ReturnedIsLinearized<T(!new)>(s: State<T>, policy: Policy<T>, i: nat) returns (c: nat, b: nat)
    requires Reachable(s, policy) && i < |s.hist| && s.hist[i].Returned?
    ensures c < b < i
    ensures s.hist[c] == Called(s.hist[i].t, s.hist[i].op)
    ensures s.hist[b] == Committed(s.hist[i].t, s.hist[i].op, s.hist[i].res)
    ensures Quiet(s.hist, s.hist[i].t, c, b) && Quiet(s.hist, s.hist[i].t, b, i)
    ensures Replay(s.hist[..b]).Some?
    ensures SeqApply(Replay(s.hist[..b]).value, s.hist[i].op).Some?
    ensures SeqApply(Replay(s.hist[..b]).value, s.hist[i].op).value.1 == s.hist[i].res
  {
    ReachableLinInv(s, policy);
    var t := s.hist[i].t;
    Prefixes(s.hist, i + 1, t);
    assert s.hist[..i + 1][..i] == s.hist[..i];
    c, b := FindCommit(s.hist[..i], t);
    assert forall k | 0 <= k < i :: s.hist[k] == s.hist[..i][k];
    CommitsAreLegal(s.hist, b);
  }

  lemma CommitsAreLegal<T>(hist: seq<Event<T>>, b: nat)
    requires Replay(hist).Some? && b < |hist| && hist[b].Committed?
    ensures Replay(hist[..b]).Some?
    ensures SeqApply(Replay(hist[..b]).value, hist[b].op).Some?
    ensures SeqApply(Replay(hist[..b]).value, hist[b].op).value.1 == hist[b].res
  {
    Prefixes(hist, b + 1, 0);
    assert hist[..b + 1][..b] == hist[..b];
  }

  /** A blocking dequeue or dump only ever commits on a nonempty queue, and takes its front or all of it. */
  lemma BlockingCommitsOnItems<T(!new)>(s: State<T>, policy: Policy<T>, b: nat)
    requires Reachable(s, policy) && b < |s.hist| && s.hist[b].Committed? && s.hist[b].op.Blocks()
    ensures Replay(s.hist[..b]).Some? && Replay(s.hist[..b]).value != []
    ensures var q := Replay(s.hist[..b]).value;
            s.hist[b].res == if s.hist[b].op.Dequeue? then Item(q[0]) else Batch(q)
  {
    ReachableLinInv(s, policy);
    CommitsAreLegal(s.hist, b);
  }

  // ---------- Conservation and order ----------

  function PutBy<T>(e: Event<T>): seq<T> {
    if e.Committed? && e.op.Enqueue? then [e.op.item] else if e.Committed? && e.op.Load? then e.op.chain else []
  }

  function TakenBy<T>(e: Event<T>): seq<T> {
    if e.Committed? && e.res.Item? then [e.res.item] else if e.Committed? && e.res.Batch? then e.res.items else []
  }

  ghost function Inserted<T>(hist: seq<Event<T>>): seq<T> {
    if hist == [] then [] else Inserted(hist[..|hist| - 1]) + PutBy(hist[|hist| - 1])
  }

  ghost function Removed<T>(hist: seq<Event<T>>): seq<T> {
    if hist == [] then [] else Removed(hist[..|hist| - 1]) + TakenBy(hist[|hist| - 1])
  }

  lemma OneConserves<T>(items: seq<T>, e: Event<T>)
    requires e.Committed? && SeqApply(items, e.op).Some? && SeqApply(items, e.op).value.1 == e.res
    ensures items + PutBy(e) == TakenBy(e) + SeqApply(items, e.op).value.0
  {
  }

  lemma {:induction false} ReplayConserves<T>(hist: seq<Event<T>>)
    requires Replay(hist).Some?
    ensures Inserted(hist) == Removed(hist) + Replay(hist).value
  {
    if hist != [] {
      var h, e := hist[..|hist| - 1], hist[|hist| - 1];
      ReplayConserves(h);
      var items := Replay(h).value;
      if e.Committed? { OneConserves(items, e); }
      Chain(Removed(h), items, PutBy(e), TakenBy(e), Replay(hist).value);
    }
  }

  lemma Chain<X>(removed: seq<X>, items: seq<X>, put: seq<X>, taken: seq<X>, items': seq<X>)
    requires items + put == taken + items'
    ensures (removed + items) + put == (removed + taken) + items'
  {
    assert (removed + items) + put == removed + (items + put);
  }

  /**
   What every committed operation returns, in terms of the history alone: with q the items inserted and not
   yet removed, a dequeue gives null exactly if q is empty and else the oldest item, blocking or not; a dump
   gives all of q; an insertion is refused exactly if it is a load of nothing.
   */
  lemma CommittedResults<T(!new)>(s: State<T>, policy: Policy<T>, b: nat)
    requires Reachable(s, policy) && b < |s.hist| && s.hist[b].Committed?
    ensures var h, op, res := s.hist[..b], s.hist[b].op, s.hist[b].res;
            && Removed(h) <= Inserted(h)
            && var q := Inserted(h)[|Removed(h)|..];
               && (op.Dequeue? ==> res == if q == [] then Null else Item(q[0]))
               && (op.Dump? ==> res == Batch(q))
               && (op.Blocks() ==> q != [])
               && (!op.Consumes() ==> res == Code(if op.Load? && op.chain == [] then -1 else 0))
  {
    ReachableLinInv(s, policy);
    CommitsAreLegal(s.hist, b);
    ReplayConserves(s.hist[..b]);
  }

  /** Nothing is lost, duplicated or reordered: what went in is what came out followed by what is there. */
  lemma FifoConservation<T(!new)>(s: State<T>, policy: Policy<T>)
    requires Reachable(s, policy)
    ensures Inserted(s.hist) == Removed(s.hist) + s.items
  {
    ReachableLinInv(s, policy);
    ReplayConserves(s.hist);
  }
}
