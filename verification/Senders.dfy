/**
 Any number of threads in judoSend_ and judoRead_ on one connection. The per-node lock keeps their
 packets apart although every packet is a separate write.
 */
module Senders {
  import opened Basics
  import opened Framing

  type Tid = nat

  datatype PC =
    | Outside
    | WantSend(msg: seq<Byte>)              // judoSend_ called, lock not held
    | Sending(msg: seq<Byte>, k: nat)       // holds the lock, k packets written
    | WantRead                              // judoRead_ called, lock not held
    | InRead                                // holds the lock, writes nothing

  /** started lists the messages in the order in which their senders got the lock. */
  datatype State = State(lock: Option<Tid>, pcs: map<Tid, PC>, wire: seq<Packet>, started: seq<seq<Byte>>)

  datatype Action = CallSend(msg: seq<Byte>) | CallRead | Lock | Write(p: Packet) | Unlock

  ghost predicate Enabled(s: State, t: Tid, a: Action, B: nat) {
    t in s.pcs &&
    match a
    case CallSend(msg) => s.pcs[t].Outside? && Sendable(msg, B)
    case CallRead => s.pcs[t].Outside?
    case Lock => s.lock.None? && (s.pcs[t].WantSend? || s.pcs[t].WantRead?)
    case Write(p) =>
      && s.pcs[t].Sending? && Sendable(s.pcs[t].msg, B) && s.pcs[t].k < Packets(|s.pcs[t].msg|, B)
      && PacketOf(p, s.pcs[t].k + 1, Packets(|s.pcs[t].msg|, B), s.pcs[t].msg, B)
    case Unlock =>
      s.pcs[t].InRead? ||
      (s.pcs[t].Sending? && Sendable(s.pcs[t].msg, B) && s.pcs[t].k == Packets(|s.pcs[t].msg|, B))
  }

  function Goto(s: State, t: Tid, pc: PC): State { s.(pcs := s.pcs[t := pc]) }

  ghost function Apply(s: State, t: Tid, a: Action, B: nat): State
    requires Enabled(s, t, a, B)
  {
    match a
    case CallSend(msg) => Goto(s, t, WantSend(msg))
    case CallRead => Goto(s, t, WantRead)
    case Lock =>
      if s.pcs[t].WantRead? then Goto(s.(lock := Some(t)), t, InRead)
      else Goto(s.(lock := Some(t), started := s.started + [s.pcs[t].msg]), t, Sending(s.pcs[t].msg, 0))
    case Write(p) => Goto(s.(wire := s.wire + [p]), t, Sending(s.pcs[t].msg, s.pcs[t].k + 1))
    case Unlock => Goto(s.(lock := None), t, Outside)
  }

  datatype Move = Move(t: Tid, a: Action)

  ghost function Exec(s: State, moves: seq<Move>, B: nat): Option<State>
    decreases |moves|
  {
    if moves == [] then Some(s)
    else if Enabled(s, moves[0].t, moves[0].a, B) then Exec(Apply(s, moves[0].t, moves[0].a, B), moves[1..], B)
    else None
  }

  function Init(threads: set<Tid>): State { State(None, map t | t in threads :: Outside, [], []) }

  // ---------- The wire ----------

  predicate Holds(pc: PC) { pc.Sending? || pc.InRead? }

  ghost predicate LockInv(s: State, B: nat) {
    && (forall t | t in s.pcs :: Holds(s.pcs[t]) <==> s.lock == Some(t))
    && (forall t | t in s.pcs && s.pcs[t].WantSend? :: Sendable(s.pcs[t].msg, B))
    && (s.lock.Some? ==> s.lock.value in s.pcs)
  }

  /** Some thread is in the middle of a message. */
  predicate InSend(s: State) { s.lock.Some? && s.lock.value in s.pcs && s.pcs[s.lock.value].Sending? }

  /** Number of packets of the unfinished message on the wire. */
  function Written(s: State): nat
    requires InSend(s)
  {
    s.pcs[s.lock.value].k
  }

  /** The messages before the one the lock holder is sending. */
  function Earlier(s: State): seq<seq<Byte>> {
    if InSend(s) && s.started != [] then s.started[..|s.started| - 1] else s.started
  }

  ghost predicate WireInv(s: State, B: nat) {
    && AllSendable(s.started, B)
    && AllSendable(Earlier(s), B)
    && (!InSend(s) ==> EncodesAll(s.wire, s.started, B))
    && (InSend(s) ==>
          && s.started != [] && s.started[|s.started| - 1] == s.pcs[s.lock.value].msg
          && Sendable(s.pcs[s.lock.value].msg, B)
          && Written(s) <= |s.wire|
          && EncodesAll(s.wire[..|s.wire| - Written(s)], Earlier(s), B)
          && EncodesPart(s.wire[|s.wire| - Written(s)..], Written(s), s.pcs[s.lock.value].msg, B))
  }

  lemma LockInvStep(s: State, t: Tid, a: Action, B: nat)
    requires LockInv(s, B) && Enabled(s, t, a, B)
    ensures LockInv(Apply(s, t, a, B), B)
  {
  }

  lemma WireInvLock(s: State, t: Tid, B: nat)
    requires LockInv(s, B) && WireInv(s, B) && Enabled(s, t, Lock, B)
    ensures WireInv(Apply(s, t, Lock, B), B)
  {
    var s' := Apply(s, t, Lock, B);
    if s.pcs[t].WantSend? {
      assert s'.started[..|s'.started| - 1] == s.started;
      assert s.wire[..|s.wire|] == s.wire;
    }
  }

  lemma WireInvWrite(s: State, t: Tid, p: Packet, B: nat)
    requires LockInv(s, B) && WireInv(s, B) && Enabled(s, t, Write(p), B)
    ensures WireInv(Apply(s, t, Write(p), B), B)
  {
    var s' := Apply(s, t, Write(p), B);
    var n := |s.wire| - Written(s);
    assert s'.wire[..n] == s.wire[..n];
    assert s'.wire[n..] == s.wire[n..] + [p];
  }

  lemma WireInvUnlock(s: State, t: Tid, B: nat)
    requires LockInv(s, B) && WireInv(s, B) && Enabled(s, t, Unlock, B)
    ensures WireInv(Apply(s, t, Unlock, B), B)
  {
    if s.pcs[t].Sending? {
      var n := |s.wire| - Written(s);
      EncodesAllSnoc(s.wire[..n], Earlier(s), s.wire[n..], s.pcs[t].msg, B);
      assert s.wire[..n] + s.wire[n..] == s.wire;
      assert Earlier(s) + [s.pcs[t].msg] == s.started;
    }
  }

  lemma WireInvStep(s: State, t: Tid, a: Action, B: nat)
    requires LockInv(s, B) && WireInv(s, B) && Enabled(s, t, a, B)
    ensures WireInv(Apply(s, t, a, B), B)
  {
    match a {
      case Lock => WireInvLock(s, t, B);
      case Write(p) => WireInvWrite(s, t, p, B);
      case Unlock => WireInvUnlock(s, t, B);
      case _ =>
    }
  }

  lemma {:induction false} InvRun(s: State, moves: seq<Move>, B: nat)
    requires LockInv(s, B) && WireInv(s, B) && Exec(s, moves, B).Some?
    ensures LockInv(Exec(s, moves, B).value, B) && WireInv(Exec(s, moves, B).value, B)
    decreases |moves|
  {
    if moves != [] {
      LockInvStep(s, moves[0].t, moves[0].a, B);
      WireInvStep(s, moves[0].t, moves[0].a, B);
      InvRun(Apply(s, moves[0].t, moves[0].a, B), moves[1..], B);
    }
  }

  /** The messages that are completely on the wire, in lock order. */
  function Completed(s: State, B: nat): seq<seq<Byte>>
    requires B > 40
  {
    if InSend(s) && Written(s) < Packets(|s.pcs[s.lock.value].msg|, B) then Earlier(s) else s.started
  }

  /**
   In every reachable state the wire is the complete encodings of the earlier messages in the order of
   their locks, followed by a part of the lock holder's message and nothing else.
   */
  lemma SendersDoNotInterleave(threads: set<Tid>, moves: seq<Move>, B: nat)
    requires B > 40 && Exec(Init(threads), moves, B).Some?
    ensures WireInv(Exec(Init(threads), moves, B).value, B)
  {
    InvRun(Init(threads), moves, B);
  }

  /** So whoever reads the stream as it stands gets exactly the completed messages. */
  lemma ReceiverGetsCompleted(threads: set<Tid>, moves: seq<Move>, B: nat)
    requires B > 40 && Exec(Init(threads), moves, B).Some?
    ensures var s := Exec(Init(threads), moves, B).value;
            Whole(s.wire, B) && DecodeAll(s.wire, B) == PaddedAll(Completed(s, B), B)
  {
    var s := Exec(Init(threads), moves, B).value;
    InvRun(Init(threads), moves, B);
    if InSend(s) {
      var n, msg := |s.wire| - Written(s), s.pcs[s.lock.value].msg;
      assert s.wire[..n] + s.wire[n..] == s.wire;
      if Written(s) < Packets(|msg|, B) {
        RoundTrip(s.wire[..n], Earlier(s), s.wire[n..], Written(s), msg, B);
      } else {
        EncodesAllSnoc(s.wire[..n], Earlier(s), s.wire[n..], msg, B);
        assert Earlier(s) + [msg] == s.started;
        RoundTripComplete(s.wire, s.started, B);
      }
    } else {
      RoundTripComplete(s.wire, s.started, B);
    }
  }
}
