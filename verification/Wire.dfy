/** judoSend_ and judoRead_ themselves, on byte buffers that are reused from packet to packet. */
module Wire {
  import opened Framing

  /** One end of a connection: packets written so far, and packets the peer has written that are not read yet. */
  class Socket {
    var sent: seq<Packet>
    var incoming: seq<Packet>
  }

  method PutInt32(buffer: array<Byte>, at: nat, v: int)
    requires at + 4 <= buffer.Length && -0x8000_0000 <= v < 0x8000_0000
    modifies buffer
    ensures buffer[at..at + 4] == Int32Bytes(v)
    ensures forall k | 0 <= k < buffer.Length && !(at <= k < at + 4) :: buffer[k] == old(buffer[k])
  {
    var b := Int32Bytes(v);
    buffer[at], buffer[at + 1], buffer[at + 2], buffer[at + 3] := b[0], b[1], b[2], b[3];
  }

  /** Division of int32_t values, which truncates toward zero. */
  function TruncDiv(a: int, b: int): int
    requires b > 0
  {
    if a >= 0 then a / b else -(-a / b)
  }

  /** Where the fill index stands after `upto` payload bytes: it stops at t_size, which a negative size never is. */
  function FillIndex(t_size: int, upto: nat): int { if 0 <= t_size < upto then t_size else upto }

  /** The sizes below zero for which the truncating division still gives a packet. */
  predicate SmallNegative(t_size: int, B: nat)
    requires B > 40
  {
    t_size < 0 < t_size + Payload(B)
  }

  /** The bytes the sending loop takes from the caller's buffer. */
  function Taken(t_buffer: seq<Byte>, t_size: int, B: nat): seq<Byte>
    requires B > 40 && Readable(t_buffer, t_size, B)
  {
    if t_size >= 0 then t_buffer[..t_size] else if SmallNegative(t_size, B) then t_buffer[..Payload(B)] else []
  }

  /** The caller's buffer has the bytes that are read: t_size of them, or a whole payload for a small negative size. */
  predicate Readable(t_buffer: seq<Byte>, t_size: int, B: nat)
    requires B > 40
  {
    t_size <= |t_buffer| && (SmallNegative(t_size, B) ==> Payload(B) <= |t_buffer|)
  }

  /** What a call puts on the wire: the encoding of t_size bytes; for a negative size one whole payload, or nothing. */
  ghost predicate Sends(added: seq<Packet>, t_buffer: seq<Byte>, t_size: int, B: nat)
    requires B > 40 && Readable(t_buffer, t_size, B)
  {
    if t_size >= 0 then Sendable(t_buffer[..t_size], B) && Encodes(added, t_buffer[..t_size], B)
    else if SmallNegative(t_size, B) then |added| == 1 && PacketOf(added[0], 1, 1, t_buffer[..Payload(B)], B)
    else added == []
  }

  /** The inner loop of judoSend_: one payload, zeros once the message is used up. */
  method FillPayload(buffer: array<Byte>, t_buffer: seq<Byte>, t_size: int, start: nat, B: nat) returns (index: nat)
    requires B > 40 && buffer.Length == B
    requires if t_size >= 0 then start <= t_size <= |t_buffer| else start == 0 && Payload(B) <= |t_buffer|
    modifies buffer
    ensures index == FillIndex(t_size, start + Payload(B))
    ensures var msg := t_buffer[..if t_size >= 0 then t_size else Payload(B)];
            forall j | 8 <= j < 8 + Payload(B) :: buffer[j] == PadByte(msg, start + j - 8)
    ensures buffer[..8] == old(buffer[..8])
  {
    ghost var msg := t_buffer[..if t_size >= 0 then t_size else Payload(B)];
    index := start;
    var j := 0;
    while j < B - 40
      invariant j <= B - 40
      invariant index == FillIndex(t_size, start + j)
      invariant forall k | 8 <= k < 8 + j :: buffer[k] == PadByte(msg, start + k - 8)
      invariant buffer[..8] == old(buffer[..8])
    {
      if index != t_size {
        buffer[8 + j] := t_buffer[index];
        index := index + 1;
      } else {
        buffer[8 + j] := 0;
      }
      j := j + 1;
    }
  }

  /** The body of the outer loop: packet i of n in the reused buffer. */
  method FillPacket(buffer: array<Byte>, t_buffer: seq<Byte>, t_size: int, i: nat, n: nat, start: nat, B: nat)
    returns (index: nat)
    requires B > 40 && buffer.Length == B && 1 <= i <= n < 0x8000_0000 && Readable(t_buffer, t_size, B)
    requires start == FillIndex(t_size, Times(i - 1, Payload(B)))
    requires if t_size >= 0 then Times(i - 1, Payload(B)) <= t_size else SmallNegative(t_size, B) && i == 1
    modifies buffer
    ensures index == FillIndex(t_size, Times(i, Payload(B)))
    ensures PacketOf(buffer[..], i, n, Taken(t_buffer, t_size, B), B)
  {
    PutInt32(buffer, 0, i);
    PutInt32(buffer, 4, n);
    assert buffer[0..4] == Int32Bytes(i);
    ghost var header := buffer[..8];
    index := FillPayload(buffer, t_buffer, t_size, start, B);
    assert buffer[..][0..4] == header[0..4] && buffer[..][4..8] == header[4..8];
  }

  /** The number of packets judoSend_ computes, none for a size of minus a payload or less. */
  lemma PacketCount(t_size: int, B: nat)
    requires 64 <= B && -0x8000_0000 <= t_size < 0x8000_0000
    ensures var n := 1 + TruncDiv(t_size, B - 40);
            && n < 0x8000_0000
            && (t_size >= 0 ==> n == Packets(t_size, B))
            && (SmallNegative(t_size, B) ==> n == 1)
            && (t_size < 0 && !SmallNegative(t_size, B) ==> n <= 0)
  {
    if t_size < 0 {
      Division(-t_size, Payload(B));
      TimesMono(0, -t_size / Payload(B), Payload(B));
    } else {
      Division(t_size, Payload(B));
      TimesMono(0, t_size / Payload(B), Payload(B));
      TimesWiden(t_size / Payload(B), 2, Payload(B));
      TimesIsProduct(t_size / Payload(B), 2);
    }
  }

  /**
   Writes one message; everything already on the wire stays in front of it. Nothing stops a negative size:
   above minus a payload it sends one whole payload of the caller's buffer, below it sends nothing.
   */
  method JudoSend(sock: Socket, B: nat, t_buffer: seq<Byte>, t_size: int) returns (ret: int)
    requires 64 <= B && -0x8000_0000 <= t_size < 0x8000_0000 && Readable(t_buffer, t_size, B)
    modifies sock`sent
    ensures ret == 0
    ensures |old(sock.sent)| <= |sock.sent| && sock.sent[..|old(sock.sent)|] == old(sock.sent)
    ensures Sends(sock.sent[|old(sock.sent)|..], t_buffer, t_size, B)
  {
    ghost var msg, was := Taken(t_buffer, t_size, B), sock.sent;
    PacketCount(t_size, B);
    var packets := 1 + TruncDiv(t_size, B - 40);
    var index := 0;
    var buffer := new Byte[B];
    var i := 1;
    while i <= packets
      invariant 1 <= i && (packets >= 1 ==> i <= packets + 1)
      invariant packets >= 1 ==> index == FillIndex(t_size, Times(i - 1, Payload(B)))
      invariant |was| <= |sock.sent| && sock.sent[..|was|] == was
      invariant if packets >= 1 then PartOf(sock.sent[|was|..], i - 1, packets, msg, B) else sock.sent == was
    {
      if t_size >= 0 { TimesMono(i - 1, packets - 1, Payload(B)); }
      index := FillPacket(buffer, t_buffer, t_size, i, packets, index, B);
      Extend(sock.sent[|was|..], i - 1, packets, buffer[..], msg, B);
      assert (sock.sent + [buffer[..]])[|was|..] == sock.sent[|was|..] + [buffer[..]];
      sock.sent := sock.sent + [buffer[..]];
      i := i + 1;
    }
    return 0;
  }

  lemma Extend(pkts: seq<Packet>, k: nat, n: nat, p: Packet, msg: seq<Byte>, B: nat)
    requires B > 40 && k < n < 0x8000_0000 && PartOf(pkts, k, n, msg, B) && PacketOf(p, k + 1, n, msg, B)
    ensures PartOf(pkts + [p], k + 1, n, msg, B)
  {
  }

  /** What the peer reads from a small negative size: a payload of the buffer without any terminating zero of its own. */
  lemma NegativeSizeSendsUnterminated(p: Packet, rest: seq<Packet>, text: seq<Byte>, B: nat)
    requires B > 40 && |text| == Payload(B) && PacketOf(p, 1, 1, text, B) && Whole(rest, B)
    ensures Whole([p] + rest, B) && Read([p] + rest, [], B) == Message(text, rest)
  {
    Int32RoundTrip(p, 0, 1);
    Int32RoundTrip(p, 4, 1);
    assert Times(0, Payload(B)) == 0;
    assert forall j | 8 <= j < 8 + Payload(B) :: p[j] == text[j - 8];
    assert p[8..8 + Payload(B)] == text;
    ReadUnroll(p, rest, [], B);
  }

  // ---------- Receiving ----------

  /** Number of packets one call of judoRead_ takes from the stream. */
  function Consumed(stream: seq<Packet>, B: nat): (n: nat)
    requires B > 40 && Whole(stream, B)
    ensures n <= |stream|
  {
    if stream == [] then 0
    else if Int32At(stream[0], 0) == Int32At(stream[0], 4) then 1
    else 1 + Consumed(stream[1..], B)
  }

  /** The buffer that the first packet announces, b * B bytes as an int32_t, has room for the payloads that follow. */
  predicate Fits(stream: seq<Packet>, B: nat)
    requires B > 40 && Whole(stream, B)
  {
    stream != [] ==>
      var b := Int32At(stream[0], 4);
      b >= 0 && Times(b, B) < 0x8000_0000 && Times(Consumed(stream, B), Payload(B)) <= Times(b, B)
  }

  lemma {:induction false} ConsumedPart(pkts: seq<Packet>, k: nat, rest: seq<Packet>, msg: seq<Byte>, B: nat)
    requires Sendable(msg, B) && EncodesFrom(pkts, k, msg, B) && k < Packets(|msg|, B)
    requires Whole(rest, B) && (k + |pkts| < Packets(|msg|, B) ==> rest == [])
    ensures Whole(pkts + rest, B) && Consumed(pkts + rest, B) <= Packets(|msg|, B) - k
    decreases |pkts|
  {
    if pkts != [] {
      FromTail(pkts, k, msg, B);
      Int32RoundTrip(pkts[0], 0, k + 1);
      Int32RoundTrip(pkts[0], 4, Packets(|msg|, B));
      assert (pkts + rest)[1..] == pkts[1..] + rest;
      if k + 1 < Packets(|msg|, B) { ConsumedPart(pkts[1..], k + 1, rest, msg, B); }
    }
  }

  lemma {:induction false} TimesWiden(n: nat, p: nat, q: nat)
    requires p <= q
    ensures Times(n, p) <= Times(n, q)
  {
    if n > 0 { TimesWiden(n - 1, p, q); }
  }

  /** Receive writes stay in the buffer for everything a judoSend_ puts on the wire, cut off or not. */
  lemma SentStreamsFit(pkts: seq<Packet>, k: nat, rest: seq<Packet>, msg: seq<Byte>, B: nat)
    requires Sendable(msg, B) && EncodesPart(pkts, k, msg, B) && Times(Packets(|msg|, B), B) < 0x8000_0000
    requires Whole(rest, B) && (k < Packets(|msg|, B) ==> rest == [])
    ensures Whole(pkts + rest, B) && Fits(pkts + rest, B)
  {
    ConsumedPart(pkts, 0, rest, msg, B);
    if pkts != [] {
      assert PacketOf(pkts[0], 1, Packets(|msg|, B), msg, B);
      Int32RoundTrip(pkts[0], 4, Packets(|msg|, B));
      TimesMono(Consumed(pkts + rest, B), Packets(|msg|, B), Payload(B));
      TimesWiden(Packets(|msg|, B), Payload(B), B);
    }
  }

  /** Packet k is read: only packets whose number and count differ stand before it. */
  predicate Reached(stream: seq<Packet>, k: nat, B: nat)
    requires B > 40 && Whole(stream, B)
  {
    k < |stream| && forall j | 0 <= j < k :: Int32At(stream[j], 0) != Int32At(stream[j], 4)
  }

  lemma {:induction false} ConsumedIff(stream: seq<Packet>, k: nat, B: nat)
    requires B > 40 && Whole(stream, B)
    ensures Reached(stream, k, B) <==> k < Consumed(stream, B)
    decreases |stream|
  {
    if stream != [] && k > 0 {
      ConsumedIff(stream[1..], k - 1, B);
      assert forall j | 1 <= j < |stream| :: stream[j] == stream[1..][j - 1];
      assert forall j | 0 <= j < |stream| - 1 :: stream[1..][j] == stream[j + 1];
    }
  }

  /**
   Exactly when receiving is defined: the announced size is an int32_t that is not negative, and every
   packet that is read still has room for its payload.
   */
  lemma FitsIff(stream: seq<Packet>, B: nat)
    requires B > 40 && Whole(stream, B) && stream != []
    ensures var b := Int32At(stream[0], 4);
            Fits(stream, B) <==>
              && b >= 0 && Times(b, B) < 0x8000_0000
              && forall k: nat | Reached(stream, k, B) :: Times(k + 1, Payload(B)) <= Times(b, B)
  {
    var n := Consumed(stream, B);
    ConsumedIff(stream, n - 1, B);
    forall k: nat | Reached(stream, k, B)
      ensures Times(k + 1, Payload(B)) <= Times(n, Payload(B))
    {
      ConsumedIff(stream, k, B);
      TimesMono(k + 1, n, Payload(B));
    }
  }

  /** A first packet "2 of 1" makes the second one run over the end of the buffer, unless packets are small. */
  lemma OutOfOrderOverruns(p: Packet, q: Packet, rest: seq<Packet>, B: nat)
    requires 40 < B < 0x8000_0000 && |p| == B && |q| == B && Whole(rest, B)
    requires Int32At(p, 0) == 2 && Int32At(p, 4) == 1
    ensures Whole([p, q] + rest, B)
    ensures B > 80 ==> !Fits([p, q] + rest, B)
    ensures B <= 80 && Int32At(q, 0) == Int32At(q, 4) ==> Fits([p, q] + rest, B)
  {
    var s := [p, q] + rest;
    assert s[0] == p && s[1..][0] == q;
    assert Times(1, B) == Times(0, B) + B;
    assert Times(2, Payload(B)) == Times(1, Payload(B)) + Payload(B) && Times(1, Payload(B)) == Times(0, Payload(B)) + Payload(B);
    ConsumedIff(s, 1, B);
    TimesMono(2, Consumed(s, B), Payload(B));
  }

  /**
   Collects one message into a fresh buffer; fails, with the connection given up, when the stream ends first.
   Where the source allocates a negative or overflowing size or writes past the buffer, the behaviour is not
   defined, and nothing more is said.
   */
  method JudoRead(sock: Socket, B: nat) returns (defined: bool, ret: int, t_out_buf: array<Byte>, t_outbuf_size: int)
    requires B > 40 && Whole(sock.incoming, B)
    modifies sock`incoming
    ensures defined <==> Fits(old(sock.incoming), B)
    ensures defined ==>
            match Read(old(sock.incoming), [], B)
            case Disconnected => ret == -1 && sock.incoming == []
            case Message(data, rest) =>
              && ret == 0 && sock.incoming == rest
              && |data| <= t_out_buf.Length == t_outbuf_size && t_out_buf[..|data|] == data
  {
    hide Read, Consumed;
    var index := 0;
    t_outbuf_size := -1;
    t_out_buf := new Byte[0];
    ghost var all, acc: seq<Byte>, read := sock.incoming, [], 0;
    var a, b := 0, 1;
    while a != b
      invariant fresh(t_out_buf) && index == Times(read, Payload(B)) <= t_out_buf.Length
      invariant Whole(sock.incoming, B) && acc == t_out_buf[..index]
      invariant Read(all, [], B) == if a == b then Message(acc, sock.incoming) else Read(sock.incoming, acc, B)
      invariant Consumed(all, B) == read + if a == b then 0 else Consumed(sock.incoming, B)
      invariant t_outbuf_size == -1 <==> read == 0
      invariant read == 0 ==> sock.incoming == all && a != b
      invariant read > 0 ==> Announces(all, t_outbuf_size, B) && t_outbuf_size == t_out_buf.Length
      decreases a != b, |sock.incoming|
    {
      Unroll(sock.incoming, acc, B);
      if sock.incoming == [] {
        return true, -1, t_out_buf, t_outbuf_size;
      }
      var packet_buffer := sock.incoming[0];
      sock.incoming := sock.incoming[1..];
      a := Int32At(packet_buffer, 0);
      b := Int32At(packet_buffer, 4);
      if t_outbuf_size == -1 {
        if b < 0 || b * B >= 0x8000_0000 {
          if b >= 0 { TimesIsProduct(b, B); }
          return false, 0, t_out_buf, t_outbuf_size;
        }
        TimesIsProduct(b, B);
        t_outbuf_size := b * B;
        t_out_buf := new Byte[t_outbuf_size];
      }
      TimesMono(read + 1, Consumed(all, B), Payload(B));
      if index + (B - 40) > t_out_buf.Length {
        return false, 0, t_out_buf, t_outbuf_size;
      }
      CopyPayload(t_out_buf, index, packet_buffer, B);
      index := index + (B - 40);
      acc := acc + packet_buffer[8..8 + Payload(B)];
      read := read + 1;
    }
    return true, 0, t_out_buf, t_outbuf_size;
  }

  /** One packet further along a stream. */
  lemma Unroll(stream: seq<Packet>, acc: seq<Byte>, B: nat)
    requires B > 40 && Whole(stream, B)
    ensures stream == [] ==> Read(stream, acc, B) == Disconnected && Consumed(stream, B) == 0
    ensures stream != [] ==>
              && Whole(stream[1..], B)
              && var acc', last := acc + stream[0][8..8 + Payload(B)], Int32At(stream[0], 0) == Int32At(stream[0], 4);
                 && Read(stream, acc, B) == (if last then Message(acc', stream[1..]) else Read(stream[1..], acc', B))
                 && Consumed(stream, B) == 1 + if last then 0 else Consumed(stream[1..], B)
  {
  }

  /** The size computed from the first packet. */
  predicate Announces(stream: seq<Packet>, size: int, B: nat)
    requires B > 40 && Whole(stream, B)
  {
    stream != [] &&
    var b := Int32At(stream[0], 4);
    b >= 0 && size == Times(b, B) < 0x8000_0000
  }

  method CopyPayload(out: array<Byte>, index: nat, packet: Packet, B: nat)
    requires B > 40 && |packet| == B && index + Payload(B) <= out.Length
    modifies out
    ensures out[..index + Payload(B)] == old(out[..index]) + packet[8..8 + Payload(B)]
  {
    var i := 0;
    while i < B - 40
      invariant i <= B - 40
      invariant out[..index + i] == old(out[..index]) + packet[8..8 + i]
    {
      out[index + i] := packet[8 + i];
      i := i + 1;
    }
  }
}
