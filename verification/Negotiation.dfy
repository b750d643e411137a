/**
 The one-byte mode negotiation between judoAccept_ and judoConnect_, as functions and as a protocol
 of two endpoints and a channel that may lose a byte. For a certificate mode each end also has to finish a
 TLS handshake, which takes the other end; the server finishes last, as in TLS 1.3.
 */
module Negotiation {
  import opened Basics
  import opened Framing
  import Capacity

  const JUDO_MODE_SSL_ENABLED: bv16 := 0x0002
  const JUDO_MODE_SERVER_CERTS_REQ: bv16 := 0x0004
  const JUDO_MODE_CLIENT_CERTS_REQ: bv16 := 0x0008
  const JUDO_CON_SERVER_CERTS: bv8 := 0x40
  const JUDO_CON_CLIENT_CERTS: bv8 := 0x80

  const JUDO_SSL_HANDSHAKE_FAILURE := -22
  const JUDO_REMOTE_HOST_SERVER_CERTS_REQUIRED := -23
  const JUDO_REMOTE_HOST_CLIENT_CERTS_REQUIRED := -24
  const JUDO_INPUT_CERT_FILES_MISSING := -25
  const JUDO_REMOTE_HOST_NO_SERVER_CERTS := -26
  const JUDO_REMOTE_HOST_NO_CLIENT_CERTS := -27
  const JUDO_REMOTE_HOST_DISCONNECT := -28

  predicate ServerCerts(mode: bv8) { mode & JUDO_CON_SERVER_CERTS != 0 }
  predicate ClientCerts(mode: bv8) { mode & JUDO_CON_CLIENT_CERTS != 0 }
  predicate CertMode(mode: bv8) { ServerCerts(mode) || ClientCerts(mode) }

  /** Packet size exponents the server supports. */
  predicate ValidFactor(factor: bv8) { 6 <= factor <= 15 }

  /** The mode byte the server writes after accept. */
  function Offer(m_mode: bv16, factor: bv8): bv8 {
    var plain := factor;
    var withServer := if m_mode & JUDO_MODE_SERVER_CERTS_REQ != 0 then plain | JUDO_CON_SERVER_CERTS else plain;
    if m_mode & JUDO_MODE_CLIENT_CERTS_REQ != 0 then withServer | JUDO_CON_CLIENT_CERTS else withServer
  }

  /** A byte read into a signed char and promoted to int. */
  function SignedChar(b: bv8): int { if b < 0x80 then b as int else b as int - 256 }

  /** The server's comparison of the reply, a char, with its mode, a uint8_t. */
  predicate ServerAccepts(mode: bv8, reply: bv8) { SignedChar(reply) == mode as int }

  /** Because of the signed char, a mode with the client-certificate bit matches no reply at all. */
  lemma ServerAcceptsIff(mode: bv8, reply: bv8)
    ensures ServerAccepts(mode, reply) <==> reply == mode && mode < 0x80
  {
    if reply as int == mode as int { assert reply == mode; }
  }

  datatype Reaction = Refuse(code: int, reply: bv8) | Commit(mode: bv8)

  function ClientReact(t_mode: bv8, offer: bv8): Reaction {
    if offer & JUDO_CON_SERVER_CERTS != t_mode & JUDO_CON_SERVER_CERTS then
      Refuse(if offer & JUDO_CON_SERVER_CERTS != 0 then JUDO_REMOTE_HOST_SERVER_CERTS_REQUIRED
             else JUDO_REMOTE_HOST_NO_SERVER_CERTS, 0xFF)
    else if offer & JUDO_CON_CLIENT_CERTS != t_mode & JUDO_CON_CLIENT_CERTS then
      Refuse(if offer & JUDO_CON_CLIENT_CERTS != 0 then JUDO_REMOTE_HOST_CLIENT_CERTS_REQUIRED
             else JUDO_REMOTE_HOST_NO_CLIENT_CERTS, 0xFF)
    else Commit(offer)
  }

  /** The client commits exactly on equal certificate flags; every mismatch has its own code, server flag first. */
  lemma ClientReaction(t_mode: bv8, offer: bv8)
    ensures var r := ClientReact(t_mode, offer);
            && (r == Commit(offer) <==>
                  ServerCerts(offer) == ServerCerts(t_mode) && ClientCerts(offer) == ClientCerts(t_mode))
            && (r.Commit? || (r.reply == 0xFF && forall m :: !ServerAccepts(m, r.reply)))
            && (r == Refuse(JUDO_REMOTE_HOST_SERVER_CERTS_REQUIRED, 0xFF) <==> ServerCerts(offer) && !ServerCerts(t_mode))
            && (r == Refuse(JUDO_REMOTE_HOST_NO_SERVER_CERTS, 0xFF) <==> !ServerCerts(offer) && ServerCerts(t_mode))
            && (r == Refuse(JUDO_REMOTE_HOST_CLIENT_CERTS_REQUIRED, 0xFF) <==>
                  ServerCerts(offer) == ServerCerts(t_mode) && ClientCerts(offer) && !ClientCerts(t_mode))
            && (r == Refuse(JUDO_REMOTE_HOST_NO_CLIENT_CERTS, 0xFF) <==>
                  ServerCerts(offer) == ServerCerts(t_mode) && !ClientCerts(offer) && ClientCerts(t_mode))
  {
    BitValue(offer);
    BitValue(t_mode);
    forall m: bv8
      ensures !ServerAccepts(m, 0xFF)
    {
      ServerAcceptsIff(m, 0xFF);
    }
  }

  lemma BitValue(m: bv8)
    ensures m & 0x40 == 0 || m & 0x40 == 0x40
    ensures m & 0x80 == 0 || m & 0x80 == 0x80
    ensures m & 0x80 == 0 <==> m < 0x80
  {
  }

  lemma OfferFlags(m_mode: bv16, factor: bv8)
    requires ValidFactor(factor)
    ensures var o := Offer(m_mode, factor);
            && (ServerCerts(o) <==> m_mode & JUDO_MODE_SERVER_CERTS_REQ != 0)
            && (ClientCerts(o) <==> m_mode & JUDO_MODE_CLIENT_CERTS_REQ != 0)
            && (o < 0x80 <==> m_mode & JUDO_MODE_CLIENT_CERTS_REQ == 0)
            && o & 0x3F == factor
  {
  }

  // ---------- The protocol ----------

  /** What both ends were started with. */
  datatype Setup = Setup(m_mode: bv16, factor: bv8, t_mode: bv8, certFiles: bool) {
    function Mode(): bv8 { Offer(m_mode, factor) }
  }

  datatype Server = SListening | SWaiting(mode: bv8) | SHandshake(mode: bv8) | SRegistered(mode: bv8) | SFailed
  datatype Client = CIdle | CWaiting | CHandshake(mode: bv8) | CRegistered(mode: bv8) | CFailed(code: int)

  datatype Net = Net(server: Server, client: Client, toClient: Option<bv8>, toServer: Option<bv8>)

  /** An end gives its handshake up without a fault of its own only when the other end has closed. */
  datatype Action = Connect | Accept | ClientRead | ServerRead
                  | ClientFinish | ServerFinish | ClientGivesUp | ServerGivesUp
                  | LoseOffer | LoseReply | ClientTimeout | ServerTimeout | ClientTlsFails | ServerTlsFails
  {
    predicate Fault() {
      LoseOffer? || LoseReply? || ClientTimeout? || ServerTimeout? || ClientTlsFails? || ServerTlsFails?
    }
  }

  predicate Enabled(n: Net, a: Action) {
    match a
    case Connect => n.client.CIdle?
    case Accept => n.server.SListening? && n.client.CWaiting?
    case ClientRead => n.client.CWaiting? && n.toClient.Some?
    case ServerRead => n.server.SWaiting? && n.toServer.Some?
    case ClientFinish => n.client.CHandshake? && n.server.SHandshake?
    case ServerFinish => n.server.SHandshake? && n.client.CRegistered?
    case ClientGivesUp => n.client.CHandshake? && n.server.SFailed?
    case ServerGivesUp => n.server.SHandshake? && n.client.CFailed?
    case LoseOffer => n.toClient.Some?
    case LoseReply => n.toServer.Some?
    case ClientTimeout => n.client.CWaiting?
    case ServerTimeout => n.server.SWaiting?
    case ClientTlsFails => n.client.CHandshake?
    case ServerTlsFails => n.server.SHandshake?
  }

  function Apply(n: Net, a: Action, u: Setup): Net
    requires Enabled(n, a)
  {
    match a
    case Connect =>
      if FilesMissing(u) then n.(client := CFailed(JUDO_INPUT_CERT_FILES_MISSING))
      else n.(client := CWaiting)
    case Accept => n.(server := SWaiting(u.Mode()), toClient := Some(u.Mode()))
    case ClientRead =>
      (match ClientReact(u.t_mode, n.toClient.value)
       case Refuse(code, reply) => n.(client := CFailed(code), toClient := None, toServer := Some(reply))
       case Commit(mode) =>
         n.(client := if CertMode(mode) then CHandshake(mode) else CRegistered(mode),
            toClient := None, toServer := Some(mode)))
    case ServerRead =>
      n.(server := if !ServerAccepts(n.server.mode, n.toServer.value) then SFailed
                   else if CertMode(n.server.mode) then SHandshake(n.server.mode) else SRegistered(n.server.mode),
         toServer := None)
    case ClientFinish => n.(client := CRegistered(n.client.mode))
    case ServerFinish => n.(server := SRegistered(n.server.mode))
    case ClientGivesUp => n.(client := CFailed(JUDO_SSL_HANDSHAKE_FAILURE))
    case ServerGivesUp => n.(server := SFailed)
    case LoseOffer => n.(toClient := None)
    case LoseReply => n.(toServer := None)
    case ClientTimeout => n.(client := CFailed(JUDO_REMOTE_HOST_DISCONNECT))
    case ServerTimeout => n.(server := SFailed)
    case ClientTlsFails => n.(client := CFailed(JUDO_SSL_HANDSHAKE_FAILURE))
    case ServerTlsFails => n.(server := SFailed)
  }

  const START := Net(SListening, CIdle, None, None)

  function Exec(n: Net, acts: seq<Action>, u: Setup): Option<Net>
    decreases |acts|
  {
    if acts == [] then Some(n)
    else if Enabled(n, acts[0]) then Exec(Apply(n, acts[0], u), acts[1..], u)
    else None
  }

  predicate Reliable(acts: seq<Action>) { forall a | a in acts :: !a.Fault() }

  /** The client has written the mode byte back. */
  predicate Committed(c: Client, mode: bv8) { c == CHandshake(mode) || c == CRegistered(mode) }

  ghost predicate Inv(n: Net, u: Setup) {
    var mode := u.Mode();
    && (n.toClient.Some? ==> n.toClient.value == mode)
    && (n.server.SWaiting? || n.server.SHandshake? || n.server.SRegistered? ==> n.server.mode == mode)
    && (n.client.CHandshake? || n.client.CRegistered? ==> n.client.mode == mode && ClientReact(u.t_mode, mode).Commit?)
    && (n.client.CHandshake? || n.server.SHandshake? ==> CertMode(mode))
    && (n.server.SHandshake? || n.server.SRegistered? ==> mode < 0x80)
    && (n.toServer.Some? ==>
          || n.toServer.value == 0xFF
          || (n.toServer.value == mode && (Committed(n.client, mode) || (CertMode(mode) && n.client.CFailed?))))
    && (n.server.SRegistered? ==> n.client == CRegistered(mode))
  }

  lemma InvStep(n: Net, a: Action, u: Setup)
    requires Inv(n, u) && Enabled(n, a)
    ensures Inv(Apply(n, a, u), u)
  {
    ClientReaction(u.t_mode, u.Mode());
    if a.ServerRead? { ServerAcceptsIff(n.server.mode, n.toServer.value); }
  }

  lemma {:induction false} InvRun(n: Net, acts: seq<Action>, u: Setup)
    requires Inv(n, u) && Exec(n, acts, u).Some?
    ensures Inv(Exec(n, acts, u).value, u)
    decreases |acts|
  {
    if acts != [] {
      InvStep(n, acts[0], u);
      InvRun(Apply(n, acts[0], u), acts[1..], u);
    }
  }

  /** Whatever is lost: a server that registers has a client that committed to the identical byte. */
  lemma ServerImpliesClient(acts: seq<Action>, u: Setup)
    requires Exec(START, acts, u).Some?
    ensures var n := Exec(START, acts, u).value;
            n.server.SRegistered? ==>
              n.client == CRegistered(n.server.mode) && n.server.mode == u.Mode() && u.Mode() < 0x80
  {
    InvRun(START, acts, u);
  }

  // ---------- Without faults ----------

  /** Progress bookkeeping of fault-free runs: a byte is under way exactly while its reader waits for it. */
  ghost predicate Flow(n: Net, u: Setup) {
    var mode := u.Mode();
    && Inv(n, u)
    && (n.server.SListening? ==> n.toClient.None? && n.toServer.None? && !Committed(n.client, mode))
    && (n.server.SWaiting? ==>
          if n.client.CWaiting? then n.toClient.Some? && n.toServer.None?
          else n.toClient.None? && n.toServer.Some? && !n.client.CIdle?)
    && (n.server.SWaiting? && Committed(n.client, mode) ==> n.toServer == Some(mode))
    && (n.server.SWaiting? && n.client.CFailed? ==> n.toServer == Some(0xFF))
    && (!n.server.SListening? && !n.server.SWaiting? ==> n.toClient.None? && n.toServer.None?)
    && (n.server.SHandshake? ==> Committed(n.client, mode))
    && (n.server.SFailed? ==> n.client.CFailed? || (Committed(n.client, mode) && mode >= 0x80))
    && (n.client.CRegistered? ==> !CertMode(mode) || n.server.SHandshake? || n.server.SRegistered?)
    && (n.client.CWaiting? || Committed(n.client, mode) ==> !FilesMissing(u))
    && (n.client.CFailed? ==>
          if Mismatch(u) then n.client.code == MismatchCode(u)
          else n.client.code == JUDO_SSL_HANDSHAKE_FAILURE && mode >= 0x80 && n.server.SFailed?)
  }

  predicate FilesMissing(u: Setup) { ClientCerts(u.t_mode) && !u.certFiles }

  /** The client turns the offer down, or never asks because its own files are missing. */
  predicate Mismatch(u: Setup) {
    FilesMissing(u) || ClientReact(u.t_mode, u.Mode()).Refuse?
  }

  function MismatchCode(u: Setup): int
    requires Mismatch(u)
  {
    if FilesMissing(u) then JUDO_INPUT_CERT_FILES_MISSING
    else ClientReact(u.t_mode, u.Mode()).code
  }

  lemma FlowStep(n: Net, a: Action, u: Setup)
    requires Flow(n, u) && Enabled(n, a) && !a.Fault()
    ensures Flow(Apply(n, a, u), u)
  {
    InvStep(n, a, u);
    ClientReaction(u.t_mode, u.Mode());
    if a.ServerRead? { ServerAcceptsIff(n.server.mode, n.toServer.value); }
  }

  lemma {:induction false} FlowRun(n: Net, acts: seq<Action>, u: Setup)
    requires Flow(n, u) && Exec(n, acts, u).Some? && Reliable(acts)
    ensures Flow(Exec(n, acts, u).value, u)
    decreases |acts|
  {
    if acts != [] {
      assert acts[0] in acts && forall a | a in acts[1..] :: a in acts;
      FlowStep(n, acts[0], u);
      FlowRun(Apply(n, acts[0], u), acts[1..], u);
    }
  }

  /** No step is possible but a fault. */
  predicate Over(n: Net) { forall a: Action :: Enabled(n, a) ==> a.Fault() }

  /**
   With delivery guaranteed, a finished negotiation has registered both ends or neither, and both exactly if
   nothing mismatches and the mode is below 128. At 128 and above the server refuses even its own byte and
   closes, so the client, whose mode demands a handshake, fails in it.
   */
  lemma AgreementIff(acts: seq<Action>, u: Setup)
    requires Exec(START, acts, u).Some? && Reliable(acts) && Over(Exec(START, acts, u).value)
    ensures var n := Exec(START, acts, u).value;
            && (n.client.CRegistered? <==> !Mismatch(u) && u.Mode() < 0x80)
            && (n.server.SRegistered? <==> n.client.CRegistered?)
            && (n.client.CRegistered? ==> n.client.mode == n.server.mode == u.Mode())
            && (!Mismatch(u) && u.Mode() >= 0x80 ==>
                  n.client == CFailed(JUDO_SSL_HANDSHAKE_FAILURE) && n.server == SFailed)
            && (Mismatch(u) ==> n.client == CFailed(MismatchCode(u)))
  {
    FlowRun(START, acts, u);
    Ended(Exec(START, acts, u).value, u);
  }

  lemma Ended(n: Net, u: Setup)
    requires Flow(n, u) && Over(n)
    ensures n.client.CRegistered? || n.client.CFailed?
    ensures n.client.CRegistered? <==> n.server.SRegistered?
  {
    assert Enabled(n, Connect) ==> Connect.Fault();
    assert Enabled(n, Accept) ==> Accept.Fault();
    assert Enabled(n, ClientRead) ==> ClientRead.Fault();
    assert Enabled(n, ServerRead) ==> ServerRead.Fault();
    assert Enabled(n, ClientFinish) ==> ClientFinish.Fault();
    assert Enabled(n, ServerFinish) ==> ServerFinish.Fault();
    assert Enabled(n, ClientGivesUp) ==> ClientGivesUp.Fault();
    BitValue(u.Mode());
  }

  /**
   A client that ends without a connection has a code that tells why: its missing files, or the first of its
   two certificate flags that differs from what the server demands, and in which direction, or, when neither
   differs, the handshake with a server that demands client certificates.
   */
  lemma RefusalsAreExplained(acts: seq<Action>, u: Setup)
    requires Exec(START, acts, u).Some? && Reliable(acts) && Over(Exec(START, acts, u).value) && ValidFactor(u.factor)
    ensures var c := Exec(START, acts, u).value.client;
            var missing := FilesMissing(u);
            var server := u.m_mode & JUDO_MODE_SERVER_CERTS_REQ != 0;
            var client := u.m_mode & JUDO_MODE_CLIENT_CERTS_REQ != 0;
            var agree := !missing && server == ServerCerts(u.t_mode);
            && (c == CFailed(JUDO_INPUT_CERT_FILES_MISSING) <==> missing)
            && (c == CFailed(JUDO_REMOTE_HOST_SERVER_CERTS_REQUIRED) <==> !missing && server && !ServerCerts(u.t_mode))
            && (c == CFailed(JUDO_REMOTE_HOST_NO_SERVER_CERTS) <==> !missing && !server && ServerCerts(u.t_mode))
            && (c == CFailed(JUDO_REMOTE_HOST_CLIENT_CERTS_REQUIRED) <==> agree && client && !ClientCerts(u.t_mode))
            && (c == CFailed(JUDO_REMOTE_HOST_NO_CLIENT_CERTS) <==> agree && !client && ClientCerts(u.t_mode))
            && (c == CFailed(JUDO_SSL_HANDSHAKE_FAILURE) <==> agree && client && ClientCerts(u.t_mode))
            && (c == CRegistered(u.Mode()) <==> agree && !client && !ClientCerts(u.t_mode))
  {
    AgreementIff(acts, u);
    OfferFlags(u.m_mode, u.factor);
    ClientReaction(u.t_mode, u.Mode());
  }

  /**
   The run in which it fails: a server that requires client certificates and the client that offers exactly
   what is required. Nothing is lost, and still the server refuses the byte and the client's handshake fails.
   */
  lemma MatchingEndsFail(m_mode: bv16, factor: bv8) returns (u: Setup, acts: seq<Action>)
    requires m_mode & JUDO_MODE_CLIENT_CERTS_REQ != 0 && ValidFactor(factor)
    ensures u == Setup(m_mode, factor, Offer(m_mode, factor), true) && !Mismatch(u) && Reliable(acts)
    ensures Exec(START, acts, u) == Some(Net(SFailed, CFailed(JUDO_SSL_HANDSHAKE_FAILURE), None, None))
    ensures Over(Exec(START, acts, u).value)
  {
    var mode := Offer(m_mode, factor);
    u, acts := Setup(m_mode, factor, mode, true), [Connect, Accept, ClientRead, ServerRead, ClientGivesUp];
    OfferFlags(m_mode, factor);
    ClientReaction(mode, mode);
    ServerAcceptsIff(mode, mode);
    var n1 := Net(SListening, CWaiting, None, None);
    var n2 := Net(SWaiting(mode), CWaiting, Some(mode), None);
    var n3 := Net(SWaiting(mode), CHandshake(mode), None, Some(mode));
    var n4 := Net(SFailed, CHandshake(mode), None, None);
    var n5 := Net(SFailed, CFailed(JUDO_SSL_HANDSHAKE_FAILURE), None, None);
    ExecCons(n4, [], ClientGivesUp, n5, u);
    ExecCons(n3, [ClientGivesUp], ServerRead, n4, u);
    ExecCons(n2, [ServerRead, ClientGivesUp], ClientRead, n3, u);
    ExecCons(n1, [ClientRead, ServerRead, ClientGivesUp], Accept, n2, u);
    ExecCons(START, [Accept, ClientRead, ServerRead, ClientGivesUp], Connect, n1, u);
  }

  lemma ExecCons(n: Net, acts: seq<Action>, a: Action, n': Net, u: Setup)
    requires Enabled(n, a) && Apply(n, a, u) == n'
    ensures Exec(n, [a] + acts, u) == Exec(n', acts, u)
  {
    assert ([a] + acts)[1..] == acts;
  }

  /** Fault-free negotiations cannot go on forever: six steps at most. */
  function StepsLeft(n: Net): nat {
    (match n.client case CIdle => 3 case CWaiting => 2 case CHandshake(_) => 1 case _ => 0)
    + (match n.server case SListening => 3 case SWaiting(_) => 2 case SHandshake(_) => 1 case _ => 0)
  }

  lemma {:induction false} ReliableRunsEnd(n: Net, acts: seq<Action>, u: Setup)
    requires Exec(n, acts, u).Some? && Reliable(acts)
    ensures |acts| <= StepsLeft(n) <= 6
    decreases |acts|
  {
    if acts != [] {
      assert acts[0] in acts && forall a | a in acts[1..] :: a in acts;
      ReliableRunsEnd(Apply(n, acts[0], u), acts[1..], u);
    }
  }

  // ---------- The packet size both ends derive ----------

  function BufferSize(mode: bv8): nat { Capacity.Pow2((mode & 0x3F) as nat) }

  /** The mask written in judoSend_ and judoRead_ keeps the two flags; it is the intended one only without them. */
  lemma LiteralMaskIff(mode: bv8)
    requires ValidFactor(mode & 0x3F)
    ensures mode & 0xCF == mode & 0x3F <==> !CertMode(mode)
  {
  }

  lemma SizesAreLarge(factor: bv8)
    requires ValidFactor(factor)
    ensures 64 <= Capacity.Pow2(factor as nat) <= 32768 && (factor == 10 ==> Capacity.Pow2(factor as nat) == 1024)
  {
    var f := factor as nat;
    assert Capacity.Pow2(6) == 64 && Capacity.Pow2(10) == 1024 && Capacity.Pow2(15) == 32768 by { PowersOfTwo(); }
    if f > 6 { Capacity.Pow2Gap(6, f); }
    if f < 15 { Capacity.Pow2Gap(f, 15); }
  }

  lemma PowersOfTwo()
    ensures Capacity.Pow2(6) == 64 && Capacity.Pow2(10) == 1024 && Capacity.Pow2(15) == 32768
  {
    assert Capacity.Pow2(4) == 16;
    assert Capacity.Pow2(8) == 256;
    assert Capacity.Pow2(12) == 4096;
  }

  /** End to end: once the server has registered, what either end sends is what the other one reads. */
  lemma EndToEnd(acts: seq<Action>, u: Setup, stream: seq<Packet>, msgs: seq<seq<Byte>>)
    requires Exec(START, acts, u).Some? && ValidFactor(u.factor)
    requires Exec(START, acts, u).value.server.SRegistered?
    ensures var n := Exec(START, acts, u).value;
            && n.client.CRegistered? && BufferSize(n.client.mode) == BufferSize(n.server.mode) > 40
            && BufferSize(n.client.mode) == Capacity.Pow2(u.factor as nat)
            && var B := BufferSize(n.client.mode);
               (AllSendable(msgs, B) && EncodesAll(stream, msgs, B) ==>
                  Whole(stream, B) && DecodeAll(stream, B) == PaddedAll(msgs, B))
  {
    ServerImpliesClient(acts, u);
    OfferFlags(u.m_mode, u.factor);
    SizesAreLarge(u.factor);
    var B := BufferSize(u.Mode());
    if AllSendable(msgs, B) && EncodesAll(stream, msgs, B) { RoundTripComplete(stream, msgs, B); }
  }
}
