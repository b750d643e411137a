/** The server object: mode flags, connection table, request queue, and the event loop over them. */
module JudoServerClass {
  import opened Basics
  import opened LinkedQueue
  import opened DualArray
  import opened ConcurrentQueue
  import opened ServerApi
  import opened EventLoop
  import opened Teardown
  import opened Turns
  import M = Monitor
  import N = Negotiation
  import Table

  const JUDO_NO_SERVER_SOCK_ADDR := -20

  /** The counter that poll returns is enough for the whole table. */
  lemma BudgetStarts(s0: seq<Entry>, ready: int)
    requires ready == -1 || ready == PollCount(s0)
    requires s0 == [] ==> ready == 0
    ensures Budget(ready, s0, 0)
  {
    ReadyIsPolled(s0);
    assert s0[0..] == s0;
    if s0 != [] { BudgetSpent(ready, s0, 0); }
  }

  lemma Taken<X>(done: seq<X>, left: seq<X>, x: X, rest: seq<X>)
    requires left == [x] + rest
    ensures done + left == (done + [x]) + rest
  {
  }

  /**
   Bookkeeping of a sweep: descriptors visited, descriptors served in order, entry appended, listener served,
   and the descriptors that are in the table when it is.
   */
  datatype Walk = Walk(done: set<int>, handled: seq<int>, acc: Option<Entry>, accepted: bool, open: set<int>)

  ghost predicate Walking(s0: seq<Entry>, c: seq<Entry>, index: nat, w: Walk, listen: int, ok: ReadOk) {
    && SweepInv(s0, c, index, w.done, w.handled, w.acc, listen, ok)
    && (w.accepted <==> listen in w.handled)
    && (w.accepted || AtAccept(c, index, listen, ok) <= w.open)
  }

  /** What a walk has done beyond the table: one accept once it has served the listening socket, else nothing. */
  ghost predicate Outcome(w: Walk, before: Server, after: Server, env: AcceptEnv) {
    if w.accepted then after == Step(before, Accept(env)).0 && w.acc == AcceptedEntry(before, env)
    else after == before && w.acc == None
  }

  /** Steps still to come: an entry ahead, and the accept, which adds one. */
  ghost function Ahead(c: seq<Entry>, index: int, w: Walk): int {
    |c| - index + if w.accepted then 0 else 1
  }

  ghost predicate Continues(c: seq<Entry>, index: nat, atEnd: bool, sockets: int) {
    if atEnd then NothingAhead(c, index) else Budget(sockets, c, index)
  }

  lemma WalkAccept(s0: seq<Entry>, c: seq<Entry>, index: nat, w: Walk, listen: int, ok: ReadOk, acc: Option<Entry>, sockets: int)
    requires Walking(s0, c, index, w, listen, ok) && index < |c| && Ready(c[index]) && c[index].0.fd == listen
    requires sockets != 0 && Budget(sockets, c, index) && (acc.Some? ==> acc.value.0.fd !in Fds(c) && acc.value.0.revents == 0)
    ensures var c' := if acc.Some? then c + [acc.value] else c;
            && !w.accepted
            && Walking(s0, c', index + 1, Walk(w.done + {listen}, w.handled + [listen], acc, true, w.open), listen, ok)
            && Continues(c', index + 1, index + 1 == |c|, sockets)
  {
    StepAccept(s0, c, index, w.done, w.handled, listen, ok, acc);
    AcceptContinues(c, index, acc, sockets);
  }

  /** A walk that stands at the ready listening socket has not accepted yet. */
  lemma ListenerAhead(s0: seq<Entry>, c: seq<Entry>, index: nat, w: Walk, listen: int, ok: ReadOk)
    requires Walking(s0, c, index, w, listen, ok) && index < |c| && Ready(c[index]) && c[index].0.fd == listen
    ensures !w.accepted && Fds(c) <= w.open
  {
    AtListener(c, index, listen, ok);
  }

  lemma AcceptContinues(c: seq<Entry>, index: nat, acc: Option<Entry>, sockets: int)
    requires index < |c| && sockets != 0 && Budget(sockets, c, index) && (acc.Some? ==> acc.value.0.revents == 0)
    ensures Continues(if acc.Some? then c + [acc.value] else c, index + 1, index + 1 == |c|, sockets)
  {
    CountHead(c, index);
    CountAppend(c, index + 1, acc);
    if index + 1 < |c| { BudgetSpent(sockets, if acc.Some? then c + [acc.value] else c, index + 1); }
  }

  lemma CountAppend(c: seq<Entry>, index: nat, acc: Option<Entry>)
    requires index <= |c| && (acc.Some? ==> !Ready(acc.value))
    ensures var c' := if acc.Some? then c + [acc.value] else c; ReadyCount(c'[index..]) == ReadyCount(c[index..])
  {
    if acc.Some? {
      assert (c + [acc.value])[index..] == c[index..] + [acc.value];
      ReadyCountConcat(c[index..], [acc.value]);
    }
  }

  lemma WalkPass(s0: seq<Entry>, c: seq<Entry>, index: nat, w: Walk, listen: int, ok: ReadOk, sockets: int)
    requires Walking(s0, c, index, w, listen, ok) && index < |c| && !Ready(c[index])
    requires sockets != 0 && Budget(sockets, c, index)
    ensures Walking(s0, c, index + 1, w.(done := w.done + {c[index].0.fd}), listen, ok)
    ensures Continues(c, index + 1, index + 1 == |c|, sockets)
  {
    AtAcceptIsOpen(c, index + 1, listen, ok);
    StepPass(s0, c, index, w.done, w.handled, w.acc, listen, ok);
    CountHead(c, index);
    if index + 1 < |c| { BudgetSpent(sockets, c, index + 1); }
  }

  lemma WalkRead(s0: seq<Entry>, c: seq<Entry>, index: nat, w: Walk, listen: int, ok: ReadOk, sockets: int)
    requires Walking(s0, c, index, w, listen, ok) && index < |c| && Ready(c[index])
    requires c[index].0.fd != listen && ok(c[index].0.fd) && sockets != 0 && Budget(sockets, c, index)
    ensures var fd := c[index].0.fd;
            var c' := c[index := (PollFd(fd, 0), c[index].1)];
            && Walking(s0, c', index + 1, Walk(w.done + {fd}, w.handled + [fd], w.acc, w.accepted, w.open), listen, ok)
            && Continues(c', index + 1, index + 1 == |c'|, sockets - 1)
  {
    var c' := c[index := (PollFd(c[index].0.fd, 0), c[index].1)];
    StepRead(s0, c, index, w.done, w.handled, w.acc, listen, ok);
    CountHead(c, index);
    assert c'[index + 1..] == c[index + 1..];
    if index + 1 < |c| { BudgetSpent(sockets - 1, c', index + 1); }
  }

  lemma WalkDrop(s0: seq<Entry>, c: seq<Entry>, index: nat, w: Walk, listen: int, ok: ReadOk, sockets: int)
    requires Walking(s0, c, index, w, listen, ok) && index < |c| && Ready(c[index])
    requires c[index].0.fd != listen && !ok(c[index].0.fd) && sockets != 0 && Budget(sockets, c, index)
    ensures var fd, c' := c[index].0.fd, Table.SwapRemove(c, index);
            && Walking(s0, c', index, Walk(w.done + {fd}, w.handled + [fd], w.acc, w.accepted, w.open), listen, ok)
            && Continues(c', index, index == |c'|, sockets - 1)
  {
    StepDrop(s0, c, index, w.done, w.handled, w.acc, listen, ok);
    CountRemove(c, index);
    if index < |c| - 1 { BudgetSpent(sockets - 1, Table.SwapRemove(c, index), index); }
  }

  /** The table after a ready client was visited. */
  function Served(c: seq<Entry>, index: nat, readOk: bool): seq<Entry>
    requires index < |c|
  {
    if readOk then c[index := (PollFd(c[index].0.fd, 0), c[index].1)] else Table.SwapRemove(c, index)
  }

  lemma WalkServe(s0: seq<Entry>, c: seq<Entry>, index: nat, w: Walk, listen: int, ok: ReadOk, sockets: int)
    returns (w': Walk)
    requires Walking(s0, c, index, w, listen, ok) && index < |c| && Ready(c[index])
    requires c[index].0.fd != listen && sockets != 0 && Budget(sockets, c, index)
    ensures w'.acc == w.acc && w'.accepted == w.accepted && w'.open == w.open
    ensures var r, c' := ok(c[index].0.fd), Served(c, index, ok(c[index].0.fd));
            var next := if r then index + 1 else index;
            && |c'| == |c| - (if r then 0 else 1)
            && Walking(s0, c', next, w', listen, ok) && Continues(c', next, next == |c'|, sockets - 1)
  {
    w' := w.(done := w.done + {c[index].0.fd}, handled := w.handled + [c[index].0.fd]);
    if ok(c[index].0.fd) {
      WalkRead(s0, c, index, w, listen, ok, sockets);
    } else {
      WalkDrop(s0, c, index, w, listen, ok, sockets);
    }
  }

  /** The end of a walk, where nothing ready is left or nothing at all. */
  lemma WalkEnds(s0: seq<Entry>, c: seq<Entry>, index: nat, w: Walk, listen: int, ok: ReadOk, before: Server, after: Server, env: AcceptEnv)
    requires Walking(s0, c, index, w, listen, ok) && Outcome(w, before, after, env)
    requires c == [] || NothingAhead(c, index)
    ensures c == [] ==> !Stays(s0, listen, ok) && !w.accepted
    ensures c != [] ==> Stays(s0, listen, ok)
    ensures NothingAhead(c, index) && SweepResult(s0, c, w.handled, w.acc, listen, ok)
    ensures w.accepted <==> listen in ReadyFds(s0)
  {
    SweepEnds(s0, c, index, w.done, w.handled, w.acc, listen, ok);
    EmptiedIff(s0, c, index, w.done, w.handled, w.acc, listen, ok);
    if w.accepted { ListenerStays(s0, listen, ok); }
  }

  lemma FirstTable(fd: int, node: SslNode, request: Request, events: Events, ok: ReadOk)
    requires request.req.ADD_CONNECT? && fd != request.poll.fd
    ensures var table := [(PollFd(fd, 0), node)] + Adds([request]);
            && AtAccept(Polled(table, events), 0, fd, ok) == {fd, request.poll.fd}
            && Table.Distinct(table, Fd) && Fds(table) == {fd, request.poll.fd} && !AllLost(table, events, fd, ok)
            && Pairs(table) == {(fd, node), (request.poll.fd, request.ssl_info)}
  {
    assert [] + [request] == [request];
    AddsSnoc([], request);
    var table := [(PollFd(fd, 0), node)] + Adds([request]);
    assert table[0] in table;
    PolledKeeps(table, events);
  }

  /** Looking an entry up by its own descriptor finds it where it stands. */
  lemma FindSelf(c: seq<Entry>, i: nat, t: PollFd)
    requires Table.Distinct(c, Fd) && i < |c| && t.fd == c[i].0.fd
    ensures Table.Find(c, ComparePollFd, t) == i
  {
    var r := Table.Find(c, ComparePollFd, t);
    assert ComparePollFd(t, c[i].0) == 0;
    assert 0 <= r < i ==> Fd(c[r].0) != Fd(c[i].0);
  }

  class JudoServer {
    var m_mode: bv16
    var m_active: bool
    var m_buffer_factor: bv8
    var m_server_list_sock: int
    const m_ssl_nodes: DualDynamicArray<PollFd, SslNode>
    const m_input_queue: ConcurBlockingQueue<Request>
    ghost var registered: seq<SslNode>

    /** The part of the state that the API specification speaks about. */
    ghost function View(): Server
      reads this
    {
      Server(m_mode, m_active, m_buffer_factor, registered)
    }

    ghost function Connections(): seq<Entry>
      reads m_ssl_nodes, m_ssl_nodes.m_first_array, m_ssl_nodes.m_second_array
      requires m_ssl_nodes.Valid()
    {
      m_ssl_nodes.Contents()
    }

    ghost predicate Valid()
      reads this, m_ssl_nodes, m_ssl_nodes.m_first_array, m_ssl_nodes.m_second_array
    {
      && m_ssl_nodes.Valid() && m_ssl_nodes.m_compare == ComparePollFd
      && this !in m_ssl_nodes.Footprint()
      && TlsSafe(View())
    }

    /** init_ */
    constructor ()
      ensures Valid() && fresh(m_ssl_nodes.Footprint()) && fresh(m_input_queue) && fresh(m_input_queue.m_queue)
      ensures m_input_queue.Valid() && m_input_queue.m_queue.nodes == []
      ensures View() == FRESH && Connections() == []
      ensures m_server_list_sock == -1
    {
      m_ssl_nodes := new DualDynamicArray(ComparePollFd);
      m_server_list_sock := -1;
      m_mode := 0;
      m_active := false;
      m_buffer_factor := 10;
      m_input_queue := new ConcurBlockingQueue();
      registered := [];
    }

    /** A server with an address also opens its listening socket. */
    constructor Listening(addressEmpty: bool, fd: int, node: SslNode)
      ensures Valid() && fresh(m_ssl_nodes.Footprint()) && fresh(m_input_queue) && fresh(m_input_queue.m_queue)
      ensures m_input_queue.Valid() && m_input_queue.m_queue.nodes == [] && View() == FRESH
      ensures if addressEmpty then m_server_list_sock == -1 && Connections() == []
              else m_server_list_sock == fd && Connections() == [(PollFd(fd, 0), node)]
    {
      m_ssl_nodes := new DualDynamicArray(ComparePollFd);
      m_server_list_sock := -1;
      m_mode := 0;
      m_active := false;
      m_buffer_factor := 10;
      m_input_queue := new ConcurBlockingQueue();
      registered := [];
      new;
      var _ := JudoMakeServerSock(addressEmpty, fd, node);
    }

    /** Opens the listening socket and gives it the first free table slot. */
    method JudoMakeServerSock(addressEmpty: bool, fd: int, node: SslNode) returns (ret: int)
      requires Valid()
      modifies `m_server_list_sock, m_ssl_nodes.Footprint()
      ensures Valid() && fresh(m_ssl_nodes.Footprint() - old(m_ssl_nodes.Footprint()))
      ensures if addressEmpty then
                ret == JUDO_NO_SERVER_SOCK_ADDR && Connections() == old(Connections())
                && m_server_list_sock == old(m_server_list_sock)
              else
                ret == JUDO_SUCCESS && m_server_list_sock == fd
                && Connections() == old(Connections()) + [(PollFd(fd, 0), node)]
    {
      if addressEmpty { return JUDO_NO_SERVER_SOCK_ADDR; }
      m_server_list_sock := fd;
      m_ssl_nodes.Add(PollFd(fd, 0), node);
      return JUDO_SUCCESS;
    }

    // ---------- Flags ----------

    method SetMode(mode: bv16)
      requires Valid() && ModeOk(mode)
      modifies `m_mode
      ensures Valid() && View() == old(View()).(mode := mode)
    {
      m_mode := mode;
    }

    method EnableSSL()
      requires Valid()
      modifies `m_mode
      ensures Valid() && View() == old(View()).(mode := old(m_mode) | N.JUDO_MODE_SSL_ENABLED)
    {
      FlagArithmetic(m_mode);
      SetMode(m_mode | N.JUDO_MODE_SSL_ENABLED);
    }

    method JudoSetUpServerSockSSL(fill: int) returns (ret: int)
      requires Valid()
      modifies `m_mode
      ensures Valid()
      ensures View() == Step(old(View()), SetUpServerSockSSL(fill)).0
      ensures ret == Step(old(View()), SetUpServerSockSSL(fill)).1
    {
      if fill != JUDO_SUCCESS {
        ret := fill;
      } else {
        EnableSSL();
        ret := JUDO_SUCCESS;
      }
    }

    method JudoServerRequireCerts() returns (ret: int)
      requires Valid()
      modifies `m_mode
      ensures Valid()
      ensures View() == Step(old(View()), ServerRequireCerts).0
      ensures ret == Step(old(View()), ServerRequireCerts).1
    {
      FlagArithmetic(m_mode);
      if m_mode & N.JUDO_MODE_SSL_ENABLED != 0 && !m_active {
        SetMode(m_mode | N.JUDO_MODE_SERVER_CERTS_REQ);
        return 0;
      }
      return -1;
    }

    method JudoClientRequireCerts() returns (ret: int)
      requires Valid()
      modifies `m_mode
      ensures Valid()
      ensures View() == Step(old(View()), ClientRequireCerts).0
      ensures ret == Step(old(View()), ClientRequireCerts).1
    {
      FlagArithmetic(m_mode);
      if m_mode & N.JUDO_MODE_SSL_ENABLED != 0 && !m_active {
        SetMode(m_mode | N.JUDO_MODE_CLIENT_CERTS_REQ);
        return 0;
      }
      return -1;
    }

    // ---------- Connections ----------

    method JudoAccept(env: AcceptEnv) returns (ret: int)
      requires Valid()
      modifies `registered, m_ssl_nodes.Footprint()
      ensures Valid() && fresh(m_ssl_nodes.Footprint() - old(m_ssl_nodes.Footprint()))
      ensures View() == Step(old(View()), Accept(env)).0
      ensures ret == Step(old(View()), Accept(env)).1
      ensures var n := AcceptResult(old(View()), env).0;
              Connections() == old(Connections()) + if n.Some? then [(PollFd(n.value.fp, 0), n.value)] else []
    {
      StepIsTlsSafe(View(), Accept(env));
      var new_node := SslNode(env.fd, 0, false);
      if m_mode & N.JUDO_MODE_SSL_ENABLED != 0 {
        if env.fill != JUDO_SUCCESS { return env.fill; }
        new_node := new_node.(tls := true);
      }
      var mode := m_buffer_factor;
      if m_mode & N.JUDO_MODE_SERVER_CERTS_REQ != 0 { mode := mode | N.JUDO_CON_SERVER_CERTS; }
      if m_mode & N.JUDO_MODE_CLIENT_CERTS_REQ != 0 { mode := mode | N.JUDO_CON_CLIENT_CERTS; }
      assert mode == N.Offer(m_mode, m_buffer_factor);
      new_node := new_node.(mode := mode);
      if !env.writeOk { return JUDO_FAILURE; }
      if env.reply.Some? && N.ServerAccepts(new_node.mode, env.reply.value) {
        if N.CertMode(new_node.mode) && !env.handshake { return N.JUDO_SSL_HANDSHAKE_FAILURE; }
      } else {
        return JUDO_FAILURE;
      }
      m_ssl_nodes.Add(PollFd(new_node.fp, 0), new_node);
      registered := registered + [new_node];
      return JUDO_SUCCESS;
    }

    method JudoConnect(t_mode: bv8, certFiles: bool, env: ConnectEnv) returns (ret: int)
      requires Valid()
      modifies `registered, m_ssl_nodes.Footprint()
      ensures Valid() && fresh(m_ssl_nodes.Footprint() - old(m_ssl_nodes.Footprint()))
      ensures View() == Step(old(View()), Connect(t_mode, certFiles, env)).0
      ensures ret == Step(old(View()), Connect(t_mode, certFiles, env)).1
      ensures var n := ConnectResult(t_mode, certFiles, env).0;
              Connections() == old(Connections()) + if n.Some? then [(PollFd(n.value.fp, 0), n.value)] else []
    {
      StepIsTlsSafe(View(), Connect(t_mode, certFiles, env));
      if N.ClientCerts(t_mode) && !certFiles { return N.JUDO_INPUT_CERT_FILES_MISSING; }
      var new_node := SslNode(env.fd, t_mode, false);
      if N.CertMode(t_mode) {
        if env.fill != JUDO_SUCCESS { return env.fill; }
        new_node := new_node.(tls := true);
      }
      if !env.connected { return JUDO_CONNECTION_FAILURE; }
      if env.offer.None? { return N.JUDO_REMOTE_HOST_DISCONNECT; }
      var reaction := N.ClientReact(t_mode, env.offer.value);
      if reaction.Refuse? { return reaction.code; }
      new_node := new_node.(mode := reaction.mode);
      if N.CertMode(new_node.mode) && !env.handshake { return N.JUDO_SSL_HANDSHAKE_FAILURE; }
      m_ssl_nodes.Add(PollFd(new_node.fp, 0), new_node);
      registered := registered + [new_node];
      return JUDO_SUCCESS;
    }

    method JudoDisconnect(t_poll: PollFd)
      requires Valid()
      modifies m_ssl_nodes.Footprint()
      ensures Valid() && fresh(m_ssl_nodes.Footprint() - old(m_ssl_nodes.Footprint()))
      ensures Connections() == Table.Remove(old(Connections()), ComparePollFd, t_poll)
    {
      m_ssl_nodes.Remove(t_poll);
    }

    // ---------- The event loop ----------

    method HandleRequest(current: Request)
      requires Valid()
      modifies m_ssl_nodes.Footprint()
      ensures Valid() && fresh(m_ssl_nodes.Footprint() - old(m_ssl_nodes.Footprint()))
      ensures Connections() == old(Connections()) +
                if current.req.ADD_CONNECT? then [(current.poll, current.ssl_info)] else []
    {
      if current.req.ADD_CONNECT? {
        m_ssl_nodes.Add(current.poll, current.ssl_info);
      }
    }

    /** The body of the inner loop: takes the front request and handles it. */
    method WorkOne(queue: Queue<Request>) returns (current: Request)
      requires Valid() && queue.Valid() && queue !in m_ssl_nodes.Footprint() && queue.m_size != 0
      requires forall n | n in queue.nodes :: n !in m_ssl_nodes.Footprint()
      modifies queue, m_ssl_nodes.Footprint()
      ensures Valid() && queue.Valid() && fresh(m_ssl_nodes.Footprint() - old(m_ssl_nodes.Footprint()))
      ensures queue !in m_ssl_nodes.Footprint() && (forall n | n in queue.nodes :: n !in m_ssl_nodes.Footprint())
      ensures queue.m_size == old(queue.m_size) - 1
      ensures [current] + queue.Contents() == old(queue.Contents())
      ensures Connections() == old(Connections()) +
                if current.req.ADD_CONNECT? then [(current.poll, current.ssl_info)] else []
    {
      current := queue.Dequeue();
      HandleRequest(current);
    }

    /** The inner loop: works the local queue off in order. */
    method WorkOff(queue: Queue<Request>) returns (ghost processed: seq<Request>)
      requires Valid() && queue.Valid() && queue !in m_ssl_nodes.Footprint()
      requires forall n | n in queue.nodes :: n !in m_ssl_nodes.Footprint()
      modifies queue, m_ssl_nodes.Footprint()
      ensures Valid() && queue.Valid() && queue.nodes == []
      ensures fresh(m_ssl_nodes.Footprint() - old(m_ssl_nodes.Footprint()))
      ensures processed == old(queue.Contents())
      ensures Connections() == old(Connections()) + Adds(processed)
    {
      hide TlsSafe, Chain;
      processed := [];
      assert Adds(processed) == [];
      while queue.m_size != 0
        invariant Valid() && queue.Valid() && queue !in m_ssl_nodes.Footprint()
        invariant fresh(m_ssl_nodes.Footprint() - old(m_ssl_nodes.Footprint()))
        invariant forall n | n in queue.nodes :: n !in m_ssl_nodes.Footprint()
        invariant processed + queue.Contents() == old(queue.Contents())
        invariant Connections() == old(Connections()) + Adds(processed)
        decreases queue.m_size
      {
        ghost var left := queue.Contents();
        var current := WorkOne(queue);
        Taken(processed, left, current, queue.Contents());
        AddsSnoc(processed, current);
        processed := processed + [current];
      }
    }

    /** Detaches everything that is queued and hands it to the local queue. */
    method TakeRequests(queue: Queue<Request>)
      requires m_input_queue.Valid() && queue.Valid() && queue.nodes == []
      requires queue != m_input_queue.m_queue && m_input_queue.m_queue.m_size < 0x8000_0000
      modifies queue, m_input_queue.m_queue
      ensures m_input_queue.Valid() && queue.Valid() && m_input_queue.m_queue.nodes == []
      ensures queue.nodes == old(m_input_queue.m_queue.nodes)
      ensures queue.Contents() == old(m_input_queue.Items())
    {
      ghost var chain := m_input_queue.m_queue.nodes;
      var head, tail, size := m_input_queue.Dump(M.HIGH, M.NONBLOCK);
      if size > 0 {
        var _ := queue.Load(head, tail, size, chain);
      }
    }

    /** One drain: takes over everything that was queued and works it off in order. */
    method Drain(queue: Queue<Request>) returns (ghost processed: seq<Request>)
      requires Valid() && m_input_queue.Valid() && queue.Valid() && queue.nodes == []
      requires queue != m_input_queue.m_queue && m_input_queue.m_queue.m_size < 0x8000_0000
      requires m_ssl_nodes.Footprint() !! {queue, m_input_queue.m_queue}
      requires forall n | n in m_input_queue.m_queue.nodes :: n !in m_ssl_nodes.Footprint()
      modifies queue, m_input_queue.m_queue, m_ssl_nodes.Footprint()
      ensures Valid() && m_input_queue.Valid() && queue.Valid()
      ensures fresh(m_ssl_nodes.Footprint() - old(m_ssl_nodes.Footprint()))
      ensures queue.nodes == [] && m_input_queue.m_queue.nodes == []
      ensures processed == old(m_input_queue.Items())
      ensures Connections() == old(Connections()) + Adds(processed)
    {
      TakeRequests(queue);
      processed := WorkOff(queue);
    }

    /** A ready client: its revents are cleared, it is read, and it is disconnected if the read fails. */
    method VisitClient(index: nat, current_poll: PollFd, readOk: bool) returns (ret: int)
      requires Valid() && Table.Distinct(Connections(), Fd)
      requires index < m_ssl_nodes.m_size && current_poll == Connections()[index].0
      modifies m_ssl_nodes.Footprint()
      ensures Valid() && fresh(m_ssl_nodes.Footprint() - old(m_ssl_nodes.Footprint()))
      ensures ret == if readOk then 0 else -1
      ensures Connections() == Served(old(Connections()), index, readOk)
    {
      ghost var c := Connections();
      m_ssl_nodes.SetFirst(index, current_poll.(revents := 0));
      if readOk {
        ret := 0;
      } else {
        PairsReplace(c, index, Connections()[index]);
        FindSelf(Connections(), index, current_poll);
        JudoDisconnect(current_poll);
        assert Connections() == Table.SwapRemove(c, index);
        ret := -1;
      }
    }

    /** revents = 0 on the last entry visited. */
    method ClearRevents(index: nat, ghost s0: seq<Entry>, ghost w: Walk, ghost readOk: ReadOk)
      requires Valid() && index < |Connections()|
      requires Walking(s0, Connections(), index + 1, w, m_server_list_sock, readOk)
      requires NothingAhead(Connections(), index + 1)
      modifies m_ssl_nodes.m_first_array
      ensures Valid()
      ensures Connections() == old(Connections())[index := (PollFd(old(Connections())[index].0.fd, 0), old(Connections())[index].1)]
      ensures Walking(s0, Connections(), index + 1, w, m_server_list_sock, readOk)
      ensures NothingAhead(Connections(), index + 1)
    {
      ghost var c := Connections();
      StepClear(s0, c, index + 1, w.done, w.handled, w.acc, m_server_list_sock, readOk, index);
      AtAcceptBehind(c, index + 1, m_server_list_sock, readOk, index);
      m_ssl_nodes.SetFirst(index, PollFd(m_ssl_nodes.m_first_array[index].fd, 0));
    }

    /** The listening socket is ready: accept, which may append an entry. */
    method VisitListener(index: nat, readOk: ReadOk, env: AcceptEnv, ghost s0: seq<Entry>, ghost w: Walk, ghost sockets: int)
      returns (ghost w': Walk)
      requires Valid() && Walking(s0, Connections(), index, w, m_server_list_sock, readOk) && env.fd !in Fds(Connections())
      requires index < |Connections()| && Ready(Connections()[index]) && Connections()[index].0.fd == m_server_list_sock
      requires sockets != 0 && Budget(sockets, Connections(), index)
      modifies `registered, m_ssl_nodes.Footprint()
      ensures Valid() && fresh(m_ssl_nodes.Footprint() - old(m_ssl_nodes.Footprint()))
      ensures !w.accepted && w'.accepted && w'.open == w.open && Outcome(w', old(View()), View(), env)
      ensures |old(Connections())| <= |Connections()| <= |old(Connections())| + 1
      ensures Walking(s0, Connections(), index + 1, w', m_server_list_sock, readOk)
      ensures Continues(Connections(), index + 1, index + 1 == |old(Connections())|, sockets)
    {
      ghost var c, acc := Connections(), AcceptedEntry(View(), env);
      w' := Walk(w.done + {m_server_list_sock}, w.handled + [m_server_list_sock], acc, true, w.open);
      WalkAccept(s0, c, index, w, m_server_list_sock, readOk, acc, sockets);
      var _ := JudoAccept(env);
      assert Connections() == if acc.Some? then c + [acc.value] else c;
    }

    /** A ready client at index: read in place, or dropped with the last entry taking the slot. */
    method VisitReadyClient(index: nat, readOk: ReadOk, ghost s0: seq<Entry>, ghost w: Walk, ghost sockets: int)
      returns (ret: int, ghost w': Walk)
      requires Valid() && Walking(s0, Connections(), index, w, m_server_list_sock, readOk)
      requires index < |Connections()| && Ready(Connections()[index]) && Connections()[index].0.fd != m_server_list_sock
      requires sockets != 0 && Budget(sockets, Connections(), index)
      modifies m_ssl_nodes.Footprint()
      ensures Valid() && fresh(m_ssl_nodes.Footprint() - old(m_ssl_nodes.Footprint()))
      ensures (ret == 0 || ret == -1) && |Connections()| == |old(Connections())| + ret
      ensures w'.acc == w.acc && w'.accepted == w.accepted && w'.open == w.open && View() == old(View())
      ensures Walking(s0, Connections(), index + 1 + ret, w', m_server_list_sock, readOk)
      ensures Continues(Connections(), index + 1 + ret, index + 1 + ret == |Connections()|, sockets - 1)
    {
      ghost var c := Connections();
      var current_poll := m_ssl_nodes.m_first_array[index];
      assert current_poll == c[index].0;
      assert Table.Distinct(c, Fd);
      w' := WalkServe(s0, c, index, w, m_server_list_sock, readOk, sockets);
      hide TlsSafe, Walking, Continues, Served;
      ret := VisitClient(index, current_poll, readOk(current_poll.fd));
    }

    /**
     The body of the walk up to its end-of-table test. The entry at index is visited; afterwards index' is
     the last visited slot, -1 after a drop at slot 0, and array_size the size the end test compares it with.
     */
    method Visit(index: nat, sockets: int, readOk: ReadOk, env: AcceptEnv, ghost s0: seq<Entry>, ghost w: Walk, ghost v0: Server)
      returns (index': int, array_size: int, sockets': int, ghost w': Walk)
      requires Valid() && Walking(s0, Connections(), index, w, m_server_list_sock, readOk)
      requires sockets != 0 && Budget(sockets, Connections(), index) && env.fd !in w.open
      requires Outcome(w, v0, View(), env)
      modifies `registered, m_ssl_nodes.Footprint()
      ensures Valid() && fresh(m_ssl_nodes.Footprint() - old(m_ssl_nodes.Footprint()))
      ensures -1 <= index' < |Connections()| && (index' == -1 && index' == array_size - 1 <==> Connections() == [])
      ensures Walking(s0, Connections(), index' + 1, w', m_server_list_sock, readOk)
      ensures Continues(Connections(), index' + 1, index' == array_size - 1, sockets')
      ensures Ahead(Connections(), index' + 1, w') < Ahead(old(Connections()), index, w)
      ensures Outcome(w', v0, View(), env) && w'.open == w.open
    {
      hide TlsSafe, Walking, Step, AcceptedEntry, NothingAhead;
      ghost var c := Connections();
      array_size := m_ssl_nodes.m_size;
      var current_poll := m_ssl_nodes.m_first_array[index];
      assert current_poll == c[index].0;
      index', sockets', w' := index, sockets, w;
      if current_poll.revents & POLLIN != 0 {
        if current_poll.fd == m_server_list_sock {
          ListenerAhead(s0, c, index, w, m_server_list_sock, readOk);
          w' := VisitListener(index, readOk, env, s0, w, sockets);
        } else {
          var ret;
          ret, w' := VisitReadyClient(index, readOk, s0, w, sockets);
          if ret == -1 {
            index' := index - 1;
            array_size := array_size - 1;
          }
          sockets' := sockets - 1;
        }
      } else {
        WalkPass(s0, c, index, w, m_server_list_sock, readOk, sockets);
        w' := w.(done := w.done + {current_poll.fd});
      }
    }

    /**
     One step of the walk: visit an entry, stop at the end of the table, step the index. When the last entry
     of all was dropped the source writes to slot -1 there; this is reported as not defined.
     */
    method StepWalk(index: nat, sockets: int, readOk: ReadOk, env: AcceptEnv, ghost s0: seq<Entry>, ghost w: Walk, ghost v0: Server)
      returns (defined: bool, next: nat, sockets': int, ghost w': Walk)
      requires Valid() && Walking(s0, Connections(), index, w, m_server_list_sock, readOk)
      requires sockets != 0 && Budget(sockets, Connections(), index) && env.fd !in w.open
      requires Outcome(w, v0, View(), env)
      modifies `registered, m_ssl_nodes.Footprint()
      ensures Valid() && fresh(m_ssl_nodes.Footprint() - old(m_ssl_nodes.Footprint()))
      ensures defined <==> Connections() != []
      ensures Walking(s0, Connections(), next, w', m_server_list_sock, readOk)
      ensures defined ==> Budget(sockets', Connections(), next)
      ensures Ahead(Connections(), next, w') < Ahead(old(Connections()), index, w)
      ensures Outcome(w', v0, View(), env) && w'.open == w.open
    {
      hide TlsSafe, Walking, Outcome, NothingAhead;
      var index', array_size;
      index', array_size, sockets', w' := Visit(index, sockets, readOk, env, s0, w, v0);
      next := index' + 1;
      defined := true;
      if index' == array_size - 1 {
        if index' == -1 {
          defined := false;
        } else {
          ClearRevents(index', s0, w', readOk);
          sockets' := 0;
        }
      }
    }

    /**
     The sweep after poll. readOk says which reads succeed and env how an accept goes; the descriptor of an
     accepted connection is new. acc is the entry that was appended, handled the descriptors served, in order.
     The walk leaves the table at slot -1 exactly when no entry survives; an empty table is left at once.
     */
    method Sweep(ready: int, readOk: ReadOk, env: AcceptEnv)
      returns (defined: bool, ghost handled: seq<int>, ghost acc: Option<Entry>)
      requires Valid() && Table.Distinct(Connections(), Fd)
      requires ready == -1 || ready == PollCount(Connections())
      requires env.fd !in AtAccept(Connections(), 0, m_server_list_sock, readOk)
      modifies `registered, m_ssl_nodes.Footprint()
      ensures Valid() && fresh(m_ssl_nodes.Footprint() - old(m_ssl_nodes.Footprint()))
      ensures defined <==> ready == 0 || Stays(old(Connections()), m_server_list_sock, readOk)
      ensures !defined ==> Connections() == [] && View() == old(View())
      ensures defined ==> SweepResult(old(Connections()), Connections(), handled, acc, m_server_list_sock, readOk)
      ensures defined ==>
                if m_server_list_sock in ReadyFds(old(Connections())) then
                  View() == Step(old(View()), Accept(env)).0 && acc == AcceptedEntry(old(View()), env)
                else View() == old(View()) && acc == None
    {
      hide AtAccept, TlsSafe;
      ghost var s0, listen, v0 := Connections(), m_server_list_sock, View();
      ghost var w := Walk({}, [], None, false, AtAccept(s0, 0, listen, readOk));
      handled, acc := [], None;
      var sockets_to_handel := ready;
      var index := 0;
      if sockets_to_handel != 0 && m_ssl_nodes.m_size == 0 { return false, handled, acc; }
      SweepStarts(s0, listen, readOk);
      BudgetStarts(s0, ready);
      defined := true;
      while sockets_to_handel != 0
        invariant Valid() && fresh(m_ssl_nodes.Footprint() - old(m_ssl_nodes.Footprint()))
        invariant Walking(s0, Connections(), index, w, listen, readOk)
        invariant Budget(sockets_to_handel, Connections(), index)
        invariant env.fd !in w.open
        invariant Outcome(w, v0, View(), env) && (s0 != [] ==> Connections() != [])
        decreases Ahead(Connections(), index, w)
      {
        defined, index, sockets_to_handel, w := StepWalk(index, sockets_to_handel, readOk, env, s0, w, v0);
        if !defined {
          WalkEnds(s0, Connections(), index, w, listen, readOk, v0, View(), env);
          return false, handled, acc;
        }
      }
      WalkEnds(s0, Connections(), index, w, listen, readOk, v0, View(), env);
      handled, acc := w.handled, w.acc;
    }

    /** What the system call does to the table: revents of every entry, and their count or -1. */
    method Poll(events: Events, fails: bool) returns (ready: int)
      requires Valid()
      modifies m_ssl_nodes.m_first_array
      ensures Valid() && Connections() == Polled(old(Connections()), events)
      ensures ready == if fails then -1 else PollCount(Connections())
    {
      ghost var c := Connections();
      var i := 0;
      ready := 0;
      while i < m_ssl_nodes.m_size
        invariant i <= m_ssl_nodes.m_size == |c| && Valid()
        invariant Connections() == Polled(c[..i], events) + c[i..]
        invariant ready == PollCount(Polled(c[..i], events))
      {
        var fd := m_ssl_nodes.m_first_array[i].fd;
        assert fd == Connections()[i].0.fd == c[i].0.fd;
        PolledSnoc(c, i, events);
        m_ssl_nodes.SetFirst(i, PollFd(fd, events(fd)));
        if events(fd) != 0 { ready := ready + 1; }
        i := i + 1;
      }
      assert c[..i] == c && c[i..] == [];
      if fails { ready := -1; }
    }

    /**
     One turn of run: drain the requests, poll, sweep. The descriptors that requests and accept bring in
     are new. A turn is defined unless every connection is lost in it, or poll fails on an empty table.
     */
    method RunTurn(queue: Queue<Request>, events: Events, fails: bool, readOk: ReadOk, env: AcceptEnv)
      returns (defined: bool, ghost processed: seq<Request>, ghost handled: seq<int>, ghost acc: Option<Entry>)
      requires Valid() && m_input_queue.Valid() && queue.Valid() && queue.nodes == []
      requires queue != m_input_queue.m_queue && m_input_queue.m_queue.m_size < 0x8000_0000
      requires m_ssl_nodes.Footprint() !! {queue, m_input_queue.m_queue}
      requires forall n | n in m_input_queue.m_queue.nodes :: n !in m_ssl_nodes.Footprint()
      requires MayStart(Connections() + Adds(m_input_queue.Items()), events, readOk, env, m_server_list_sock)
      modifies `registered, queue, m_input_queue.m_queue, m_ssl_nodes.Footprint()
      ensures Valid() && m_input_queue.Valid() && queue.Valid()
      ensures fresh(m_ssl_nodes.Footprint() - old(m_ssl_nodes.Footprint()))
      ensures queue.nodes == [] && m_input_queue.m_queue.nodes == []
      ensures processed == old(m_input_queue.Items())
      ensures var table := old(Connections()) + Adds(processed);
              defined <==> if table == [] then !fails else !AllLost(table, events, m_server_list_sock, readOk)
      ensures defined ==>
                Done(Turn(old(Connections()), old(View()), processed, events, readOk, env, Connections(), View(), handled, acc),
                     m_server_list_sock)
      ensures defined && m_server_list_sock in Fds(old(Connections())) ==> m_server_list_sock in Fds(Connections())
    {
      hide TlsSafe, SweepResult, TurnResult, AllLost, Stays, Step, AcceptedEntry, AtAccept;
      ghost var c, v := Connections(), View();
      processed := Drain(queue);
      ghost var table := Connections();
      PolledKeeps(table, events);
      var ready := Poll(events, fails);
      defined, handled, acc := Sweep(ready, readOk, env);
      ReadyPolled(table, events);
      LostPolled(table, events, m_server_list_sock, readOk);
      if defined {
        TurnEnds(table, Connections(), handled, acc, events, m_server_list_sock, readOk);
        ghost var turn := Turn(c, v, processed, events, readOk, env, Connections(), View(), handled, acc);
        if m_server_list_sock in Fds(c) { TurnKeepsListener(turn, m_server_list_sock); }
      }
    }

    // ---------- Start and end of the server ----------

    /** The first statement of run: from here on the certificate calls are refused. */
    method BeginRun()
      requires Valid()
      modifies `m_active
      ensures Valid() && View() == Step(old(View()), Run).0
    {
      m_active := true;
    }

    /** The body of the destructor's loop: the last node is released and its descriptor's first entry removed. */
    method ReleaseLast(i: nat) returns (node: SslNode)
      requires Valid() && i == |Connections()| - 1
      modifies m_ssl_nodes.Footprint()
      ensures Valid() && fresh(m_ssl_nodes.Footprint() - old(m_ssl_nodes.Footprint()))
      ensures node == old(Connections())[i].1
      ensures Connections() == Table.SwapRemove(old(Connections()), FirstLike(old(Connections())))
    {
      node := m_ssl_nodes.m_second_array[i];
      var test := m_ssl_nodes.m_first_array[i];
      assert (test, node) == Connections()[i];
      ghost var first := FirstLike(Connections());
      JudoDisconnect(test);
    }

    /** The loop of the destructor: it empties the table and releases one node per entry. */
    method TearDown() returns (ghost released: seq<SslNode>)
      requires Valid()
      modifies m_ssl_nodes.Footprint()
      ensures Valid() && Connections() == []
      ensures released == Released(old(Connections()))
    {
      hide Released, TlsSafe;
      released := [];
      var i := m_ssl_nodes.m_size - 1;
      while i >= 0
        invariant -1 <= i && Valid() && fresh(m_ssl_nodes.Footprint() - old(m_ssl_nodes.Footprint()))
        invariant |Connections()| == i + 1
        invariant released + Released(Connections()) == Released(old(Connections()))
      {
        ghost var c := Connections();
        var node := ReleaseLast(i);
        ReleasedFirst(c);
        Taken(released, Released(c), node, Released(Connections()));
        released := released + [node];
        i := i - 1;
      }
    }
  }

  /** A listening server with one connection handed in, started. */
  method Started(fd: int, node: SslNode, request: Request) returns (server: JudoServer)
    ensures fresh(server) && fresh(server.m_ssl_nodes.Footprint()) && fresh(server.m_input_queue.m_queue)
    ensures server.Valid() && server.m_active && server.m_server_list_sock == fd
    ensures server.Connections() == [(PollFd(fd, 0), node)]
    ensures server.m_input_queue.Valid() && server.m_input_queue.m_queue.m_size == 1
    ensures server.m_input_queue.Items() == [request]
  {
    server := new JudoServer.Listening(false, fd, node);
    var _ := server.m_input_queue.Enqueue(request, M.LOW);
    assert |server.m_input_queue.Items()| == |server.m_input_queue.m_queue.nodes|;
    server.BeginRun();
  }

  /**
   From construction to the end of the first turn, with one connection handed in before: whatever poll and
   read do, the turn is defined, the listening socket stays, and the connection stays unless its read fails.
   */
  method FirstTurn(fd: int, node: SslNode, request: Request, events: Events, fails: bool, readOk: ReadOk, env: AcceptEnv)
    returns (server: JudoServer, defined: bool)
    requires request.req.ADD_CONNECT? && fd != request.poll.fd && env.fd != fd && env.fd != request.poll.fd
    ensures fresh(server) && server.Valid() && defined
    ensures (fd, node) in Pairs(server.Connections())
    ensures (request.poll.fd, request.ssl_info) in Pairs(server.Connections())
            <==> (events(request.poll.fd) & POLLIN != 0 ==> readOk(request.poll.fd))
  {
    hide TlsSafe, TurnResult, SweepResult, AllLost, Pairs, Fds, Adds, Step, AtAccept;
    server := Started(fd, node, request);
    var queue := new Queue();
    ghost var table := server.Connections() + Adds([request]);
    FirstTable(fd, node, request, events, readOk);
    ghost var processed, handled, acc;
    defined, processed, handled, acc := server.RunTurn(queue, events, fails, readOk, env);
    TurnKeeps(table, server.Connections(), handled, acc, events, fd, readOk, (fd, node));
    TurnKeeps(table, server.Connections(), handled, acc, events, fd, readOk, (request.poll.fd, request.ssl_info));
  }
}
