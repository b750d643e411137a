/** Turns of run, one after the other, on values: what a turn takes, serves, keeps and loses, over whole runs. */
module Turns {
  import opened Basics
  import opened ServerApi
  import opened EventLoop
  import M = Monitor
  import L = Linearizability
  import Table

  datatype RequestKind = ADD_CONNECT | DISCONNECT | DO_HANDSHAKE
  datatype Request = Request(ssl_info: SslNode, poll: PollFd, req: RequestKind)

  /** The table entries that a list of requests adds, in order. */
  function Adds(rs: seq<Request>): seq<Entry> {
    if rs == [] then []
    else
      var r := rs[|rs| - 1];
      Adds(rs[..|rs| - 1]) + if r.req.ADD_CONNECT? then [(r.poll, r.ssl_info)] else []
  }

  lemma AddsSnoc(rs: seq<Request>, r: Request)
    ensures Adds(rs + [r]) == Adds(rs) + if r.req.ADD_CONNECT? then [(r.poll, r.ssl_info)] else []
  {
    assert (rs + [r])[..|rs|] == rs;
  }

  function EntryOf(n: SslNode): Entry { (PollFd(n.fp, 0), n) }

  /** The table entry that an accept leaves behind, if it registers. */
  function AcceptedEntry(s: Server, env: AcceptEnv): Option<Entry> {
    var n := AcceptResult(s, env).0;
    if n.Some? then Some(EntryOf(n.value)) else None
  }

  // ---------- One turn ----------

  /** A turn from the table before and the server's view v to the table after and the view v'. */
  datatype Turn = Turn(before: seq<Entry>, v: Server, requests: seq<Request>, events: Events, ok: ReadOk, env: AcceptEnv,
                       after: seq<Entry>, v': Server, handled: seq<int>, acc: Option<Entry>)
  {
    /** The table when poll is called. */
    function Drained(): seq<Entry> { before + Adds(requests) }
  }

  /** Open descriptors are distinct: those requested are new, and the accepted one is when it is made. */
  ghost predicate MayStart(drained: seq<Entry>, events: Events, ok: ReadOk, env: AcceptEnv, listen: int) {
    && Table.Distinct(drained, Fd)
    && env.fd !in AtAccept(Polled(drained, events), 0, listen, ok)
  }

  ghost predicate Done(t: Turn, listen: int) {
    && TurnResult(t.Drained(), t.after, t.handled, t.acc, t.events, listen, t.ok)
    && if listen in Fds(t.Drained()) && t.events(listen) & POLLIN != 0 then
         t.v' == Step(t.v, Accept(t.env)).0 && t.acc == AcceptedEntry(t.v, t.env)
       else t.v' == t.v && t.acc == None
  }

  /** The connections that the turn loses: input was reported and the read failed. */
  ghost function Lost(t: Turn, listen: int): set<(int, SslNode)> {
    set p | p in Pairs(t.Drained()) && t.events(p.0) & POLLIN != 0 && p.0 != listen && !t.ok(p.0)
  }

  lemma PairsConcat(a: seq<Entry>, b: seq<Entry>)
    requires Table.Distinct(a + b, Fd)
    ensures multiset(Pairs(a + b)) == multiset(Pairs(a)) + multiset(Pairs(b))
  {
    forall e | e in a + b
      ensures e in a || e in b
    {
    }
    forall e | e in a || e in b
      ensures e in a + b
    {
    }
    assert Pairs(a + b) == Pairs(a) + Pairs(b);
    forall x, y | x in a && y in b
      ensures x.0.fd != y.0.fd
    {
      var i :| 0 <= i < |a| && a[i] == x;
      var j :| 0 <= j < |b| && b[j] == y;
      assert Fd((a + b)[i].0) != Fd((a + b)[|a| + j].0);
    }
    assert Pairs(a) !! Pairs(b);
  }

  /** The accepted descriptor is none of those that stay. */
  lemma AcceptedIsNew(t: Turn, listen: int)
    requires MayStart(t.Drained(), t.events, t.ok, t.env, listen) && Done(t, listen)
    ensures (Pairs(t.Drained()) - Lost(t, listen)) !! Added(t.acc)
    ensures Pairs(t.after) == Pairs(t.Drained()) - Lost(t, listen) + Added(t.acc)
  {
    var p := Polled(t.Drained(), t.events);
    AtAcceptIsOpen(p, 0, listen, t.ok);
    forall q | q in Pairs(t.Drained()) - Lost(t, listen)
      ensures q.0 != t.env.fd
    {
      var i :| 0 <= i < |p| && q == (t.Drained()[i].0.fd, t.Drained()[i].1);
      assert p[i] in p && !Drops(p[i], listen, t.ok);
    }
  }

  /** Nothing appears or vanishes: what was there, requested or accepted is what is there or was lost. */
  lemma TurnConserves(t: Turn, listen: int)
    requires MayStart(t.Drained(), t.events, t.ok, t.env, listen) && Done(t, listen)
    ensures multiset(Pairs(t.before)) + multiset(Pairs(Adds(t.requests))) + multiset(Added(t.acc))
         == multiset(Pairs(t.after)) + multiset(Lost(t, listen))
  {
    PairsConcat(t.before, Adds(t.requests));
    AcceptedIsNew(t, listen);
    var all, lost, acc := Pairs(t.Drained()), Lost(t, listen), Added(t.acc);
    assert lost <= all && (all - lost) !! acc;
    assert multiset(all) == multiset(all - lost) + multiset(lost);
    assert multiset(all - lost + acc) == multiset(all - lost) + multiset(acc);
  }

  // ---------- Runs ----------

  /** Each turn starts where the one before it ended. */
  ghost predicate Run(turns: seq<Turn>, listen: int) {
    && (forall i | 0 <= i < |turns| :: Done(turns[i], listen))
    && (forall i | 0 <= i < |turns| :: MayStart(turns[i].Drained(), turns[i].events, turns[i].ok, turns[i].env, listen))
    && (forall i | 0 < i < |turns| :: turns[i].before == turns[i - 1].after && turns[i].v == turns[i - 1].v')
  }

  /** A run is a shorter run and a last turn. */
  lemma RunLast(turns: seq<Turn>, listen: int)
    requires Run(turns, listen) && turns != []
    ensures var n := |turns| - 1;
            var t := turns[n];
            && Run(turns[..n], listen) && Done(t, listen)
            && MayStart(t.Drained(), t.events, t.ok, t.env, listen)
            && (n > 0 ==> turns[..n][0] == turns[0] && t.before == turns[..n][n - 1].after && t.v == turns[..n][n - 1].v')
  {
    hide Done, MayStart;
    var r := turns[..|turns| - 1];
    assert forall i | 0 <= i < |r| :: r[i] == turns[i];
  }

  ghost function Requested(turns: seq<Turn>): multiset<(int, SslNode)> {
    if turns == [] then multiset{}
    else Requested(turns[..|turns| - 1]) + multiset(Pairs(Adds(turns[|turns| - 1].requests)))
  }

  ghost function Accepted(turns: seq<Turn>): multiset<(int, SslNode)> {
    if turns == [] then multiset{} else Accepted(turns[..|turns| - 1]) + multiset(Added(turns[|turns| - 1].acc))
  }

  ghost function LostAll(turns: seq<Turn>, listen: int): multiset<(int, SslNode)> {
    if turns == [] then multiset{} else LostAll(turns[..|turns| - 1], listen) + multiset(Lost(turns[|turns| - 1], listen))
  }

  lemma Balance<X>(first: multiset<X>, r: multiset<X>, a: multiset<X>, mid: multiset<X>, l: multiset<X>,
                   r': multiset<X>, a': multiset<X>, last: multiset<X>, l': multiset<X>)
    requires first + r + a == mid + l && mid + r' + a' == last + l'
    ensures first + (r + r') + (a + a') == last + (l + l')
  {
    forall x
      ensures (first + (r + r') + (a + a'))[x] == (last + (l + l'))[x]
    {
      assert (first + r + a)[x] == (mid + l)[x] && (mid + r' + a')[x] == (last + l')[x];
    }
  }

  /** The final connections are the initial ones, all requested and all accepted, less all whose read failed. */
  lemma {:induction false} RunConserves(turns: seq<Turn>, listen: int)
    requires Run(turns, listen) && turns != []
    ensures multiset(Pairs(turns[0].before)) + Requested(turns) + Accepted(turns)
         == multiset(Pairs(turns[|turns| - 1].after)) + LostAll(turns, listen)
    decreases |turns|
  {
    hide Run, Done, MayStart, Pairs, Lost, Adds;
    var n := |turns| - 1;
    RunLast(turns, listen);
    TurnConserves(turns[n], listen);
    if n > 0 {
      RunConserves(turns[..n], listen);
    } else {
      assert turns[..n] == [];
      assert Requested(turns[..n]) == Accepted(turns[..n]) == LostAll(turns[..n], listen) == multiset{};
    }
    var t := turns[n];
    assert Requested(turns) == Requested(turns[..n]) + multiset(Pairs(Adds(t.requests)));
    assert Accepted(turns) == Accepted(turns[..n]) + multiset(Added(t.acc));
    assert LostAll(turns, listen) == LostAll(turns[..n], listen) + multiset(Lost(t, listen));
    Balance(multiset(Pairs(turns[0].before)), Requested(turns[..n]), Accepted(turns[..n]), multiset(Pairs(t.before)),
            LostAll(turns[..n], listen), multiset(Pairs(Adds(t.requests))), multiset(Added(t.acc)),
            multiset(Pairs(t.after)), multiset(Lost(t, listen)));
  }

  lemma TurnKeepsListener(t: Turn, listen: int)
    requires Done(t, listen) && listen in Fds(t.before)
    ensures listen in Fds(t.after) && !AllLost(t.Drained(), t.events, listen, t.ok)
  {
    var e :| e in t.before && e.0.fd == listen;
    assert e in t.Drained() && (e.0.fd, e.1) in Pairs(t.Drained());
    assert (e.0.fd, e.1) in Pairs(t.after);
  }

  /** A server that listens goes on listening, and none of its turns leaves the table. */
  lemma {:induction false} ListenerForever(turns: seq<Turn>, listen: int)
    requires Run(turns, listen) && turns != [] && listen in Fds(turns[0].before)
    ensures forall i | 0 <= i < |turns| ::
              listen in Fds(turns[i].after) && !AllLost(turns[i].Drained(), turns[i].events, listen, turns[i].ok)
    decreases |turns|
  {
    hide Run, Done, MayStart, Fds, AllLost;
    var n := |turns| - 1;
    RunLast(turns, listen);
    if n > 0 {
      ListenerForever(turns[..n], listen);
      assert forall i | 0 <= i < n :: turns[..n][i] == turns[i];
    }
    TurnKeepsListener(turns[n], listen);
  }

  ghost function AcceptedNodes(turns: seq<Turn>): seq<SslNode> {
    if turns == [] then []
    else
      var acc := turns[|turns| - 1].acc;
      AcceptedNodes(turns[..|turns| - 1]) + if acc.Some? then [acc.value.1] else []
  }

  /** Over a run the server registers exactly the accepted nodes, in order, and stays TLS-safe. */
  lemma {:induction false} RegisteredAreAccepted(turns: seq<Turn>, listen: int)
    requires Run(turns, listen) && turns != [] && TlsSafe(turns[0].v)
    ensures TlsSafe(turns[|turns| - 1].v')
    ensures turns[|turns| - 1].v'.registered == turns[0].v.registered + AcceptedNodes(turns)
    decreases |turns|
  {
    hide Run, Done, MayStart, TlsSafe;
    var n := |turns| - 1;
    RunLast(turns, listen);
    if n > 0 {
      RegisteredAreAccepted(turns[..n], listen);
    } else {
      assert turns[..n] == [];
    }
    TurnRegisters(turns[n], listen);
  }

  lemma TurnRegisters(t: Turn, listen: int)
    requires Done(t, listen) && TlsSafe(t.v)
    ensures TlsSafe(t.v') && t.v'.registered == t.v.registered + if t.acc.Some? then [t.acc.value.1] else []
  {
    StepIsTlsSafe(t.v, Accept(t.env));
  }

  // ---------- With the shared queue ----------

  ghost function Batches(hist: seq<M.Event<Request>>): seq<seq<Request>> {
    if hist == [] then []
    else
      var e := hist[|hist| - 1];
      Batches(hist[..|hist| - 1]) + if e.Committed? && e.res.Batch? then [e.res.items] else []
  }

  function Flatten<X>(s: seq<seq<X>>): seq<X> {
    if s == [] then [] else Flatten(s[..|s| - 1]) + s[|s| - 1]
  }

  ghost predicate OnlyDumps(hist: seq<M.Event<Request>>) {
    forall i :: 0 <= i < |hist| && hist[i].Committed? ==> !hist[i].res.Item?
  }

  lemma {:induction false} RemovedInBatches(hist: seq<M.Event<Request>>)
    requires OnlyDumps(hist)
    ensures L.Removed(hist) == Flatten(Batches(hist))
    decreases |hist|
  {
    if hist != [] {
      var h, e := hist[..|hist| - 1], hist[|hist| - 1];
      assert OnlyDumps(h) by { assert forall i | 0 <= i < |h| :: h[i] == hist[i]; }
      RemovedInBatches(h);
      if e.Committed? && e.res.Batch? {
        assert Batches(hist)[..|Batches(hist)| - 1] == Batches(h);
      } else {
        assert Batches(hist) == Batches(h);
      }
    }
  }

  /**
   When each turn takes one dump of the shared queue and nobody else removes, then over all turns the requests
   are handled in the order in which any number of threads put them in, each once; the rest is still queued.
   */
  lemma RequestsInOrder(s: M.State<Request>, policy: M.Policy<Request>, turns: seq<Turn>)
    requires M.Reachable(s, policy) && OnlyDumps(s.hist)
    requires |turns| == |Batches(s.hist)| && forall i | 0 <= i < |turns| :: turns[i].requests == Batches(s.hist)[i]
    ensures Flatten(seq(|turns|, i requires 0 <= i < |turns| => turns[i].requests)) + s.items == L.Inserted(s.hist)
  {
    L.FifoConservation(s, policy);
    RemovedInBatches(s.hist);
    assert seq(|turns|, i requires 0 <= i < |turns| => turns[i].requests) == Batches(s.hist);
  }
}
