/** What the public calls of JudoServer do to its mode flags and to the set of connections it registers. */
module ServerApi {
  import opened Basics
  import opened Negotiation

  const JUDO_SUCCESS := 0
  const JUDO_FAILURE := -1
  const JUDO_CONNECTION_FAILURE := -21

  /** A connection; tls records that judoFill*SSLFields_ completed on it. */
  datatype SslNode = SslNode(fp: int, mode: bv8, tls: bool)

  /** fill is the result of filling the TLS fields, 0 or an error; a missing byte is a failed read. */
  datatype AcceptEnv = AcceptEnv(fill: int, fd: int, writeOk: bool, reply: Option<bv8>, handshake: bool)
  datatype ConnectEnv = ConnectEnv(fill: int, fd: int, connected: bool, offer: Option<bv8>, handshake: bool)

  datatype Server = Server(mode: bv16, active: bool, factor: bv8, registered: seq<SslNode>)

  const FRESH := Server(0, false, 10, [])

  /** judoAccept_: the node it registers, if any, and its return code. */
  function AcceptResult(s: Server, env: AcceptEnv): (Option<SslNode>, int) {
    var tls := s.mode & JUDO_MODE_SSL_ENABLED != 0;
    var mode := Offer(s.mode, s.factor);
    if tls && env.fill != JUDO_SUCCESS then (None, env.fill)
    else if !env.writeOk then (None, JUDO_FAILURE)
    else if env.reply.Some? && ServerAccepts(mode, env.reply.value) then
      if CertMode(mode) && !env.handshake then (None, JUDO_SSL_HANDSHAKE_FAILURE)
      else (Some(SslNode(env.fd, mode, tls)), JUDO_SUCCESS)
    else (None, JUDO_FAILURE)
  }

  /** judoConnect_ */
  function ConnectResult(t_mode: bv8, certFiles: bool, env: ConnectEnv): (Option<SslNode>, int) {
    if ClientCerts(t_mode) && !certFiles then (None, JUDO_INPUT_CERT_FILES_MISSING)
    else if CertMode(t_mode) && env.fill != JUDO_SUCCESS then (None, env.fill)
    else if !env.connected then (None, JUDO_CONNECTION_FAILURE)
    else
      match env.offer
      case None => (None, JUDO_REMOTE_HOST_DISCONNECT)
      case Some(offer) =>
        match ClientReact(t_mode, offer)
        case Refuse(code, _) => (None, code)
        case Commit(mode) =>
          if CertMode(mode) && !env.handshake then (None, JUDO_SSL_HANDSHAKE_FAILURE)
          else (Some(SslNode(env.fd, mode, CertMode(t_mode))), JUDO_SUCCESS)
  }

  datatype Call =
    | SetUpServerSockSSL(fill: int)
    | ServerRequireCerts
    | ClientRequireCerts
    | Run
    | Accept(acceptEnv: AcceptEnv)
    | Connect(t_mode: bv8, certFiles: bool, connectEnv: ConnectEnv)

  function Register(s: Server, r: (Option<SslNode>, int)): (Server, int) {
    (if r.0.Some? then s.(registered := s.registered + [r.0.value]) else s, r.1)
  }

  /** The calls that change m_mode, with their return codes. */
  function FlagStep(mode: bv16, active: bool, c: Call): (bv16, int) {
    match c
    case SetUpServerSockSSL(fill) =>
      if fill != JUDO_SUCCESS then (mode, fill) else (mode | JUDO_MODE_SSL_ENABLED, JUDO_SUCCESS)
    case ServerRequireCerts =>
      if mode & JUDO_MODE_SSL_ENABLED != 0 && !active then (mode | JUDO_MODE_SERVER_CERTS_REQ, 0) else (mode, -1)
    case ClientRequireCerts =>
      if mode & JUDO_MODE_SSL_ENABLED != 0 && !active then (mode | JUDO_MODE_CLIENT_CERTS_REQ, 0) else (mode, -1)
    case _ => (mode, 0)
  }

  function Step(s: Server, c: Call): (Server, int) {
    match c
    case Accept(env) => Register(s, AcceptResult(s, env))
    case Connect(t_mode, files, env) => Register(s, ConnectResult(t_mode, files, env))
    case Run => (s.(active := true), 0)
    case _ => var (mode, ret) := FlagStep(s.mode, s.active, c); (s.(mode := mode), ret)
  }

  function RunCalls(s: Server, calls: seq<Call>): Server {
    if calls == [] then s else Step(RunCalls(s, calls[..|calls| - 1]), calls[|calls| - 1]).0
  }

  // ---------- What each call means ----------

  /** The client wrote back the server's own byte, and the server's comparison can see it. */
  predicate Echoed(mode: bv8, reply: Option<bv8>) { reply == Some(mode) && mode < 0x80 }

  /**
   accept registers exactly if every step before it succeeded: the TLS fields, when TLS is on, the write of
   the mode byte, its echo, and the handshake, when the mode has certificates. The code is 0 exactly then,
   and otherwise that of the first step that failed.
   */
  lemma AcceptOutcome(s: Server, env: AcceptEnv)
    ensures var (n, code) := AcceptResult(s, env);
            var mode, tls := Offer(s.mode, s.factor), s.mode & JUDO_MODE_SSL_ENABLED != 0;
            && (n.Some? <==> (tls ==> env.fill == 0) && env.writeOk && Echoed(mode, env.reply) && (CertMode(mode) ==> env.handshake))
            && (n.Some? ==> n.value == SslNode(env.fd, mode, tls))
            && (code == 0 <==> n.Some?)
            && (tls && env.fill != 0 ==> code == env.fill)
            && ((tls ==> env.fill == 0) && !(env.writeOk && Echoed(mode, env.reply)) ==> code == JUDO_FAILURE)
            && ((tls ==> env.fill == 0) && env.writeOk && Echoed(mode, env.reply) && CertMode(mode) && !env.handshake ==> code == JUDO_SSL_HANDSHAKE_FAILURE)
  {
    var mode := Offer(s.mode, s.factor);
    if env.reply.Some? { ServerAcceptsIff(mode, env.reply.value); }
  }

  predicate SameFlags(a: bv8, b: bv8) { ServerCerts(a) == ServerCerts(b) && ClientCerts(a) == ClientCerts(b) }

  /**
   connect registers exactly if every step before it succeeded: the files are there, the TLS fields, when the
   wanted mode has certificates, the connection, an offer with the wanted flags, and the handshake, when the
   offer has certificates. The code is 0 exactly then, and otherwise that of the first step that failed.
   */
  lemma ConnectOutcome(t_mode: bv8, certFiles: bool, env: ConnectEnv)
    ensures var (n, code) := ConnectResult(t_mode, certFiles, env);
            var files, filled := ClientCerts(t_mode) ==> certFiles, CertMode(t_mode) ==> env.fill == 0;
            var reached := files && filled && env.connected;
            var matched := reached && env.offer.Some? && SameFlags(env.offer.value, t_mode);
            && (n.Some? <==> matched && (CertMode(t_mode) ==> env.handshake))
            && (n.Some? ==> n.value == SslNode(env.fd, env.offer.value, CertMode(t_mode)))
            && (code == 0 <==> n.Some?)
            && (!files ==> code == JUDO_INPUT_CERT_FILES_MISSING)
            && (files && !filled ==> code == env.fill)
            && (files && filled && !env.connected ==> code == JUDO_CONNECTION_FAILURE)
            && (reached && env.offer.None? ==> code == JUDO_REMOTE_HOST_DISCONNECT)
            && (reached && env.offer.Some? && !matched ==>
                  code == if ServerCerts(env.offer.value) != ServerCerts(t_mode) then
                            if ServerCerts(t_mode) then JUDO_REMOTE_HOST_NO_SERVER_CERTS else JUDO_REMOTE_HOST_SERVER_CERTS_REQUIRED
                          else if ClientCerts(t_mode) then JUDO_REMOTE_HOST_NO_CLIENT_CERTS else JUDO_REMOTE_HOST_CLIENT_CERTS_REQUIRED)
            && (matched && CertMode(t_mode) && !env.handshake ==> code == JUDO_SSL_HANDSHAKE_FAILURE)
  {
    if env.offer.Some? { ClientReaction(t_mode, env.offer.value); }
  }

  /**
   A requirement call works exactly while TLS is enabled and the server does not run; it then puts its own flag
   into the byte the server offers, and in any case changes nothing else.
   */
  lemma ServerRequireOutcome(s: Server, factor: bv8)
    ensures var allowed := s.mode & 0x0002 != 0 && !s.active;
            var (a, code) := Step(s, ServerRequireCerts);
            && code == (if allowed then 0 else -1)
            && a == s.(mode := if allowed then s.mode | 0x0004 else s.mode)
            && (allowed ==> Offer(a.mode, factor) == Offer(s.mode, factor) | 0x40)
  {
    hide Offer;
    OrBits(s.mode);
    OfferWithServer(s.mode, s.mode | 0x0004, factor);
  }

  lemma ClientRequireOutcome(s: Server, factor: bv8)
    ensures var allowed := s.mode & 0x0002 != 0 && !s.active;
            var (a, code) := Step(s, ClientRequireCerts);
            && code == (if allowed then 0 else -1)
            && a == s.(mode := if allowed then s.mode | 0x0008 else s.mode)
            && (allowed ==> Offer(a.mode, factor) == Offer(s.mode, factor) | 0x80)
  {
    hide Offer;
    OrBits(s.mode);
    OfferWithClient(s.mode, s.mode | 0x0008, factor);
  }

  /** Filling the fields decides: TLS is switched on if it succeeds, nothing changes if not, and its code is returned. */
  lemma SetUpOutcome(s: Server, fill: int)
    ensures var (a, code) := Step(s, SetUpServerSockSSL(fill));
            code == fill && a == s.(mode := if fill == 0 then s.mode | 0x0002 else s.mode)
  {
    hide Offer, Register, AcceptResult, ConnectResult;
  }

  /** So TLS is enabled afterwards exactly if it was before or the filling succeeded; every other bit, and the offer, stay. */
  lemma TlsEnabledIff(s: Server, fill: int, factor: bv8)
    ensures var m, m' := s.mode, Step(s, SetUpServerSockSSL(fill)).0.mode;
            && (m' & 0x0002 != 0 <==> m & 0x0002 != 0 || fill == 0)
            && m' & 0xFFFD == m & 0xFFFD && Offer(m', factor) == Offer(m, factor)
  {
    SetUpOutcome(s, fill);
    hide Step, Offer;
    OrBits(s.mode);
    OfferAsBefore(s.mode, s.mode | 0x0002, factor);
  }

  lemma OrBits(m: bv16)
    ensures (m | 0x0002) & 0x0002 != 0 && (m | 0x0002) & 0xFFFD == m & 0xFFFD
    ensures (m | 0x0002) & 0x0004 == m & 0x0004 && (m | 0x0002) & 0x0008 == m & 0x0008
    ensures (m | 0x0004) & 0x0004 != 0 && (m | 0x0004) & 0x0008 == m & 0x0008
    ensures (m | 0x0008) & 0x0008 != 0 && (m | 0x0008) & 0x0004 == m & 0x0004
  {
  }

  lemma OfferWithServer(m: bv16, m': bv16, f: bv8)
    requires m' & 0x0004 != 0 && m' & 0x0008 == m & 0x0008
    ensures Offer(m', f) == Offer(m, f) | 0x40
  {
    OrCommutes(f);
  }

  lemma OfferWithClient(m: bv16, m': bv16, f: bv8)
    requires m' & 0x0008 != 0 && m' & 0x0004 == m & 0x0004
    ensures Offer(m', f) == Offer(m, f) | 0x80
  {
    OrCommutes(f);
  }

  lemma OfferAsBefore(m: bv16, m': bv16, f: bv8)
    requires m' & 0x0004 == m & 0x0004 && m' & 0x0008 == m & 0x0008
    ensures Offer(m', f) == Offer(m, f)
  {
  }

  lemma OrCommutes(f: bv8)
    ensures (f | 0x40) | 0x40 == f | 0x40 && (f | 0x80) | 0x80 == f | 0x80 && (f | 0x80) | 0x40 == (f | 0x40) | 0x80
    ensures ((f | 0x40) | 0x80) | 0x40 == (f | 0x40) | 0x80 && ((f | 0x40) | 0x80) | 0x80 == (f | 0x40) | 0x80
  {
  }

  /** run marks the server active and changes nothing else; from then on both requirement calls are refused. */
  lemma RunActivates(s: Server)
    ensures var (a, code) := Step(s, Run);
            && code == 0 && a == s.(active := true)
            && Step(a, ServerRequireCerts) == (a, -1) && Step(a, ClientRequireCerts) == (a, -1)
  {
    ServerRequireOutcome(s.(active := true), 0);
    ClientRequireOutcome(s.(active := true), 0);
  }

  /** accept and connect register at the end of the list, what they return, and nothing else changes. */
  lemma CallsRegister(s: Server, env: AcceptEnv, t_mode: bv8, certFiles: bool, t_env: ConnectEnv)
    ensures var (n, code) := AcceptResult(s, env);
            Step(s, Call.Accept(env)) == (s.(registered := s.registered + if n.Some? then [n.value] else []), code)
    ensures var (n, code) := ConnectResult(t_mode, certFiles, t_env);
            Step(s, Call.Connect(t_mode, certFiles, t_env)) == (s.(registered := s.registered + if n.Some? then [n.value] else []), code)
  {
    assert s.registered + [] == s.registered;
  }

  // ---------- Safety over all runs ----------

  predicate RequiresCerts(mode: bv16) {
    mode & JUDO_MODE_SERVER_CERTS_REQ != 0 || mode & JUDO_MODE_CLIENT_CERTS_REQ != 0
  }

  predicate ModeOk(mode: bv16) { RequiresCerts(mode) ==> mode & JUDO_MODE_SSL_ENABLED != 0 }

  /** A certificate connection has its TLS fields. */
  predicate NodeSafe(n: SslNode) { CertMode(n.mode) ==> n.tls }

  ghost predicate TlsSafe(s: Server) {
    && ValidFactor(s.factor)
    && ModeOk(s.mode)
    && (forall n | n in s.registered :: NodeSafe(n))
  }

  lemma FlagArithmetic(mode: bv16)
    ensures ModeOk(mode | JUDO_MODE_SSL_ENABLED)
    ensures mode & JUDO_MODE_SSL_ENABLED != 0 ==>
              ModeOk(mode | JUDO_MODE_SERVER_CERTS_REQ) && ModeOk(mode | JUDO_MODE_CLIENT_CERTS_REQ)
  {
  }

  lemma AcceptIsTlsSafe(s: Server, env: AcceptEnv)
    requires TlsSafe(s)
    ensures var n := AcceptResult(s, env).0; n.Some? ==> NodeSafe(n.value)
  {
    OfferFlags(s.mode, s.factor);
  }

  /** On the client the offer's flags are the caller's, because a mismatch was refused; so the fields are filled. */
  lemma ConnectIsTlsSafe(t_mode: bv8, certFiles: bool, env: ConnectEnv)
    ensures var n := ConnectResult(t_mode, certFiles, env).0; n.Some? ==> NodeSafe(n.value)
  {
    if env.offer.Some? { ClientReaction(t_mode, env.offer.value); }
  }

  lemma RegisterIsTlsSafe(s: Server, r: (Option<SslNode>, int))
    requires TlsSafe(s) && (r.0.Some? ==> NodeSafe(r.0.value))
    ensures TlsSafe(Register(s, r).0)
  {
  }

  lemma FlagsAreTlsSafe(mode: bv16, active: bool, c: Call)
    requires ModeOk(mode)
    ensures ModeOk(FlagStep(mode, active, c).0)
  {
    FlagArithmetic(mode);
  }

  lemma FlagCallIsTlsSafe(s: Server, c: Call)
    requires TlsSafe(s) && !c.Accept? && !c.Connect?
    ensures TlsSafe(Step(s, c).0)
  {
    FlagsAreTlsSafe(s.mode, s.active, c);
  }

  lemma StepIsTlsSafe(s: Server, c: Call)
    requires TlsSafe(s)
    ensures TlsSafe(Step(s, c).0)
  {
    if c.Accept? {
      AcceptIsTlsSafe(s, c.acceptEnv);
      RegisterIsTlsSafe(s, AcceptResult(s, c.acceptEnv));
    } else if c.Connect? {
      ConnectIsTlsSafe(c.t_mode, c.certFiles, c.connectEnv);
      RegisterIsTlsSafe(s, ConnectResult(c.t_mode, c.certFiles, c.connectEnv));
    } else {
      FlagCallIsTlsSafe(s, c);
    }
  }

  /** In every run of calls: certificates are only demanded with TLS set up, and no certificate connection lacks TLS fields. */
  lemma {:induction false} TlsSafety(calls: seq<Call>)
    ensures TlsSafe(RunCalls(FRESH, calls))
  {
    if calls != [] {
      TlsSafety(calls[..|calls| - 1]);
      StepIsTlsSafe(RunCalls(FRESH, calls[..|calls| - 1]), calls[|calls| - 1]);
    }
  }

  lemma FlagsFreeze(mode: bv16, c: Call)
    ensures var m := FlagStep(mode, true, c).0;
            && m & JUDO_MODE_SERVER_CERTS_REQ == mode & JUDO_MODE_SERVER_CERTS_REQ
            && m & JUDO_MODE_CLIENT_CERTS_REQ == mode & JUDO_MODE_CLIENT_CERTS_REQ
            && forall f: bv8 :: Offer(m, f) == Offer(mode, f)
  {
  }

  /** While the server runs, the certificate requirements, and so the byte it offers, cannot change any more. */
  lemma {:induction false} RequirementsFreeze(s: Server, calls: seq<Call>)
    requires s.active
    ensures var r := RunCalls(s, calls);
            && r.active && r.factor == s.factor && Offer(r.mode, r.factor) == Offer(s.mode, s.factor)
  {
    if calls != [] {
      var b := RunCalls(s, calls[..|calls| - 1]);
      RequirementsFreeze(s, calls[..|calls| - 1]);
      FlagsFreeze(b.mode, calls[|calls| - 1]);
    }
  }

  /** A server that demands client certificates never accepts anybody, whatever the client answers. */
  lemma ClientCertServersAcceptNobody(s: Server, env: AcceptEnv)
    requires ValidFactor(s.factor) && s.mode & JUDO_MODE_CLIENT_CERTS_REQ != 0
    ensures AcceptResult(s, env).0.None?
  {
    OfferFlags(s.mode, s.factor);
    if env.reply.Some? { ServerAcceptsIff(Offer(s.mode, s.factor), env.reply.value); }
  }

  /**
   The calls end as the protocol says: when each reads what the other wrote, and a handshake succeeds exactly
   if the server enters it too, accept and connect register, or return the codes, of the finished negotiation.
   */
  lemma CallsFollowProtocol(acts: seq<Action>, u: Setup, s: Server, fd: int, t_fd: int)
    requires Exec(START, acts, u).Some? && Reliable(acts) && Over(Exec(START, acts, u).value)
    requires s.mode == u.m_mode && s.factor == u.factor
    ensures var n, mode := Exec(START, acts, u).value, u.Mode();
            var reply := match ClientReact(u.t_mode, mode) case Commit(m) => m case Refuse(_, r) => r;
            var shaken := ServerAccepts(mode, reply);
            var accepted := AcceptResult(s, AcceptEnv(JUDO_SUCCESS, fd, true, Some(reply), shaken)).0;
            var (connected, code) := ConnectResult(u.t_mode, u.certFiles, ConnectEnv(JUDO_SUCCESS, t_fd, true, Some(mode), shaken));
            && (!FilesMissing(u) ==> (accepted.Some? <==> n.server.SRegistered?))
            && (accepted.Some? ==> accepted.value.mode == mode)
            && n.client == if connected.Some? then CRegistered(connected.value.mode) else CFailed(code)
  {
    var mode := u.Mode();
    AgreementIff(acts, u);
    ClientReaction(u.t_mode, mode);
    ServerAcceptsIff(mode, mode);
    BitValue(mode);
    Ended(Exec(START, acts, u).value, u) by { FlowRun(START, acts, u); }
  }
}
