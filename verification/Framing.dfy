/**
 Message framing of judoSend_ and judoRead_. A packet has B bytes: packet number and packet count as
 little-endian 32-bit integers, B - 40 payload bytes, and 32 trailing bytes whose content is left open.
 One read of the socket returns one whole packet or fails.
 */
module Framing {
  import opened Basics

  type Byte = n: nat | n < 256
  type Packet = seq<Byte>

  function Payload(B: nat): nat
    requires B > 40
  {
    B - 40
  }

  /** k * p, unfolded step by step. */
  function Times(k: nat, p: nat): nat { if k == 0 then 0 else Times(k - 1, p) + p }

  lemma {:induction false} TimesIsProduct(k: nat, p: nat)
    ensures Times(k, p) == k * p
  {
    if k > 0 {
      TimesIsProduct(k - 1, p);
      assert k * p == (k - 1) * p + p;
    } else {
      assert 0 * p == 0;
    }
  }

  lemma {:induction false} TimesMono(j: nat, k: nat, p: nat)
    requires j <= k
    ensures Times(j, p) <= Times(k, p)
    ensures p > 0 ==> k <= Times(k, p)
  {
    if j < k {
      TimesMono(j, k - 1, p);
    } else if k > 0 {
      TimesMono(k - 1, k - 1, p);
    }
  }

  /** 1 + s / (B - 40): a message always ends in a packet with at least one zero byte. */
  function Packets(s: nat, B: nat): (n: nat)
    requires B > 40
    ensures n >= 1 && Times(n, Payload(B)) > s >= Times(n - 1, Payload(B))
  {
    Division(s, Payload(B));
    1 + s / Payload(B)
  }

  lemma Division(s: nat, p: nat)
    requires p > 0
    ensures s / p >= 0 && Times(s / p, p) <= s < Times(s / p, p) + p
  {
    TimesIsProduct(s / p, p);
    Remainder(s, p);
  }

  lemma Remainder(s: nat, p: nat)
    requires p > 0
    ensures s / p >= 0 && (s / p) * p <= s < (s / p) * p + p
  {
    assert s == p * (s / p) + s % p;
  }

  // ---------- Integers on the wire ----------

  function Int32Bytes(v: int): (b: seq<Byte>)
    requires -0x8000_0000 <= v < 0x8000_0000
    ensures |b| == 4
  {
    var u := if v < 0 then v + 0x1_0000_0000 else v;
    [u % 256, u / 256 % 256, u / 65536 % 256, u / 16777216]
  }

  function Int32At(p: seq<Byte>, at: nat): (v: int)
    requires at + 4 <= |p|
  {
    ToInt32(p[at] as int + 256 * p[at + 1] as int + 65536 * p[at + 2] as int + 16777216 * p[at + 3] as int)
  }

  /** The least significant byte comes first. */
  lemma Int32IsLittleEndian(v: int)
    requires -0x8000_0000 <= v < 0x8000_0000
    ensures var b := Int32Bytes(v);
            b[0] as int + 256 * b[1] as int + 65536 * b[2] as int + 16777216 * b[3] as int
            == if v < 0 then v + 0x1_0000_0000 else v
  {
    var u := if v < 0 then v + 0x1_0000_0000 else v;
    assert u / 65536 == u / 256 / 256 && u / 16777216 == u / 65536 / 256;
    assert u == u % 256 + 256 * (u / 256 % 256) + 65536 * (u / 65536 % 256) + 16777216 * (u / 16777216);
  }

  lemma Int32RoundTrip(p: seq<Byte>, at: nat, v: int)
    requires -0x8000_0000 <= v < 0x8000_0000
    requires at + 4 <= |p| && p[at..at + 4] == Int32Bytes(v)
    ensures Int32At(p, at) == v
  {
    var u := if v < 0 then v + 0x1_0000_0000 else v;
    var b := p[at..at + 4];
    assert forall k | 0 <= k < 4 :: p[at + k] == b[k];
    assert p[at + 0] == u % 256;
    assert u / 65536 == u / 256 / 256 && u / 16777216 == u / 65536 / 256;
    assert u == u % 256 + 256 * (u / 256 % 256) + 65536 * (u / 65536 % 256) + 16777216 * (u / 16777216);
  }

  // ---------- Encoding ----------

  function PadByte(msg: seq<Byte>, k: nat): Byte { if k < |msg| then msg[k] else 0 }

  /** Packet i of n (counted from 1) of a message. */
  ghost predicate PacketOf(pkt: Packet, i: nat, n: nat, msg: seq<Byte>, B: nat)
    requires B > 40 && 1 <= i <= n < 0x8000_0000
  {
    && |pkt| == B
    && pkt[0..4] == Int32Bytes(i)
    && pkt[4..8] == Int32Bytes(n)
    && var start := Times(i - 1, Payload(B)); forall j | 8 <= j < 8 + Payload(B) :: pkt[j] == PadByte(msg, start + j - 8)
  }

  /** The first k of n packets. */
  ghost predicate PartOf(pkts: seq<Packet>, k: nat, n: nat, msg: seq<Byte>, B: nat)
    requires B > 40 && n < 0x8000_0000
  {
    && |pkts| == k <= n
    && forall i | 0 <= i < k :: PacketOf(pkts[i], i + 1, n, msg, B)
  }

  /** The packet count fits the int32_t field that carries it. */
  predicate Sendable(msg: seq<Byte>, B: nat) {
    B > 40 && Packets(|msg|, B) < 0x8000_0000
  }

  /** The first k packets of a message. */
  ghost predicate EncodesPart(pkts: seq<Packet>, k: nat, msg: seq<Byte>, B: nat)
    requires Sendable(msg, B)
  {
    PartOf(pkts, k, Packets(|msg|, B), msg, B)
  }

  ghost predicate Encodes(pkts: seq<Packet>, msg: seq<Byte>, B: nat)
    requires Sendable(msg, B)
  {
    EncodesPart(pkts, Packets(|msg|, B), msg, B)
  }

  ghost predicate AllSendable(msgs: seq<seq<Byte>>, B: nat) {
    forall m | m in msgs :: Sendable(m, B)
  }

  /** A stream that is the encodings of msgs, one after the other. */
  ghost predicate EncodesAll(stream: seq<Packet>, msgs: seq<seq<Byte>>, B: nat)
    requires AllSendable(msgs, B)
  {
    if msgs == [] then stream == []
    else
      assert Sendable(msgs[0], B);
      var n := Packets(|msgs[0]|, B);
      n <= |stream| && Encodes(stream[..n], msgs[0], B) && EncodesAll(stream[n..], msgs[1..], B)
  }

  // ---------- Decoding ----------

  datatype Reading = Message(data: seq<Byte>, rest: seq<Packet>) | Disconnected

  ghost predicate Whole(stream: seq<Packet>, B: nat) { forall i | 0 <= i < |stream| :: |stream[i]| == B }

  /** The do-while loop of judoRead_: collect payloads until packet number and count agree. */
  function Read(stream: seq<Packet>, acc: seq<Byte>, B: nat): (r: Reading)
    requires B > 40 && Whole(stream, B)
    ensures r.Message? ==> |r.rest| < |stream| && Whole(r.rest, B)
  {
    if stream == [] then Disconnected
    else
      var p := stream[0];
      var acc' := acc + p[8..8 + Payload(B)];
      if Int32At(p, 0) != Int32At(p, 4) then Read(stream[1..], acc', B)
      else Message(acc', stream[1..])
  }

  /** Reads until the connection drops. */
  function DecodeAll(stream: seq<Packet>, B: nat): seq<seq<Byte>>
    requires B > 40 && Whole(stream, B)
    decreases |stream|
  {
    match Read(stream, [], B)
    case Disconnected => []
    case Message(data, rest) => [data] + DecodeAll(rest, B)
  }

  /** A message as it arrives: followed by zeros up to a whole number of payloads. */
  function Padded(msg: seq<Byte>, B: nat): (d: seq<Byte>)
    requires B > 40
    ensures |d| == Times(Packets(|msg|, B), Payload(B)) > |msg|
    ensures d[..|msg|] == msg && forall k | |msg| <= k < |d| :: d[k] == 0
  {
    seq(Times(Packets(|msg|, B), Payload(B)), k requires k >= 0 => PadByte(msg, k))
  }

  function PaddedAll(msgs: seq<seq<Byte>>, B: nat): seq<seq<Byte>>
    requires B > 40
  {
    if msgs == [] then [] else [Padded(msgs[0], B)] + PaddedAll(msgs[1..], B)
  }

  /** The bytes a C string reader sees. */
  function CString(d: seq<Byte>): seq<Byte> {
    if d == [] || d[0] == 0 then [] else [d[0]] + CString(d[1..])
  }

  lemma {:induction false} CStringOfPrefix(d: seq<Byte>, n: nat)
    requires n < |d| && d[n] == 0 && forall k | 0 <= k < n :: d[k] != 0
    ensures CString(d) == d[..n]
    decreases n
  {
    if n > 0 {
      CStringOfPrefix(d[1..], n - 1);
      assert d[..n] == [d[0]] + d[1..][..n - 1];
    }
  }

  /** The zero padding makes every NUL-free message readable as a C string. */
  lemma TextSurvives(msg: seq<Byte>, B: nat)
    requires B > 40 && 0 !in msg
    ensures CString(Padded(msg, B)) == msg
  {
    var d := Padded(msg, B);
    assert forall k | 0 <= k < |msg| :: d[k] == d[..|msg|][k] && msg[k] in msg;
    CStringOfPrefix(d, |msg|);
  }

  // ---------- Round trip ----------

  lemma EncodedIsWhole(pkts: seq<Packet>, k: nat, msg: seq<Byte>, B: nat)
    requires Sendable(msg, B) && EncodesPart(pkts, k, msg, B)
    ensures Whole(pkts, B)
  {
  }

  lemma {:induction false} AllEncodedIsWhole(stream: seq<Packet>, msgs: seq<seq<Byte>>, B: nat)
    requires AllSendable(msgs, B) && EncodesAll(stream, msgs, B)
    ensures Whole(stream, B)
    decreases |msgs|
  {
    if msgs != [] {
      assert Sendable(msgs[0], B);
      var n := Packets(|msgs[0]|, B);
      EncodedIsWhole(stream[..n], n, msgs[0], B);
      AllEncodedIsWhole(stream[n..], msgs[1..], B);
      assert stream == stream[..n] + stream[n..];
    }
  }

  /** Packets k + 1, k + 2, ... of a message, as far as they are there. */
  ghost predicate EncodesFrom(pkts: seq<Packet>, k: nat, msg: seq<Byte>, B: nat)
    requires Sendable(msg, B)
  {
    && k + |pkts| <= Packets(|msg|, B)
    && forall i | 0 <= i < |pkts| :: PacketOf(pkts[i], k + i + 1, Packets(|msg|, B), msg, B)
  }

  lemma FromTail(pkts: seq<Packet>, k: nat, msg: seq<Byte>, B: nat)
    requires Sendable(msg, B) && EncodesFrom(pkts, k, msg, B) && pkts != []
    ensures k < Packets(|msg|, B) && PacketOf(pkts[0], k + 1, Packets(|msg|, B), msg, B)
    ensures EncodesFrom(pkts[1..], k + 1, msg, B)
  {
  }

  /** Reading goes on after packet k of a message: all packets there, the message; some missing, no message. */
  lemma {:induction false} ReadFrom(pkts: seq<Packet>, k: nat, rest: seq<Packet>, acc: seq<Byte>, msg: seq<Byte>, B: nat)
    requires Sendable(msg, B) && EncodesFrom(pkts, k, msg, B) && k < Packets(|msg|, B)
    requires Whole(rest, B) && (k + |pkts| < Packets(|msg|, B) ==> rest == [])
    requires Times(k, Payload(B)) <= |Padded(msg, B)| && acc == Padded(msg, B)[..Times(k, Payload(B))]
    ensures Whole(pkts + rest, B)
    ensures Read(pkts + rest, acc, B)
         == if k + |pkts| == Packets(|msg|, B) then Message(Padded(msg, B), rest) else Disconnected
    decreases |pkts|
  {
    if pkts != [] {
      var tail := pkts[1..] + rest;
      FromTail(pkts, k, msg, B);
      ReadHeader(pkts[0], k, msg, B);
      ReadStep(pkts[0], k, acc, msg, B);
      assert pkts + rest == [pkts[0]] + tail;
      if k + 1 < Packets(|msg|, B) {
        ReadFrom(pkts[1..], k + 1, rest, acc + pkts[0][8..8 + Payload(B)], msg, B);
      } else {
        assert tail == rest;
      }
      ReadUnroll(pkts[0], tail, acc, B);
    }
  }

  lemma ReadUnroll(p: Packet, tail: seq<Packet>, acc: seq<Byte>, B: nat)
    requires B > 40 && |p| == B && Whole(tail, B)
    ensures Whole([p] + tail, B)
    ensures Read([p] + tail, acc, B)
         == if Int32At(p, 0) == Int32At(p, 4) then Message(acc + p[8..8 + Payload(B)], tail)
            else Read(tail, acc + p[8..8 + Payload(B)], B)
  {
    assert ([p] + tail)[1..] == tail;
  }

  lemma ReadHeader(p: Packet, k: nat, msg: seq<Byte>, B: nat)
    requires Sendable(msg, B) && k < Packets(|msg|, B)
    requires PacketOf(p, k + 1, Packets(|msg|, B), msg, B)
    ensures Int32At(p, 0) == k + 1 && Int32At(p, 4) == Packets(|msg|, B)
  {
    Int32RoundTrip(p, 0, k + 1);
    Int32RoundTrip(p, 4, Packets(|msg|, B));
  }

  lemma ReadStep(p: Packet, k: nat, acc: seq<Byte>, msg: seq<Byte>, B: nat)
    requires Sendable(msg, B) && k < Packets(|msg|, B)
    requires PacketOf(p, k + 1, Packets(|msg|, B), msg, B)
    requires Times(k, Payload(B)) <= |Padded(msg, B)| && acc == Padded(msg, B)[..Times(k, Payload(B))]
    ensures Times(k + 1, Payload(B)) <= |Padded(msg, B)|
    ensures acc + p[8..8 + Payload(B)] == Padded(msg, B)[..Times(k + 1, Payload(B))]
  {
    TimesMono(k + 1, Packets(|msg|, B), Payload(B));
    var d, start := Padded(msg, B), Times(k, Payload(B));
    assert forall j | 8 <= j < 8 + Payload(B) :: p[j] == d[start + j - 8];
    assert p[8..8 + Payload(B)] == d[start..start + Payload(B)];
  }

  /** One whole encoding in front of a stream reads as its message; a proper part of one reads as a lost connection. */
  lemma ReadOne(pkts: seq<Packet>, upto: nat, rest: seq<Packet>, msg: seq<Byte>, B: nat)
    requires Sendable(msg, B) && EncodesPart(pkts, upto, msg, B)
    requires Whole(rest, B) && (upto < Packets(|msg|, B) ==> rest == [])
    ensures Whole(pkts + rest, B)
    ensures Read(pkts + rest, [], B)
         == if upto == Packets(|msg|, B) then Message(Padded(msg, B), rest) else Disconnected
  {
    ReadFrom(pkts, 0, rest, [], msg, B);
  }

  lemma DecodeOne(pkts: seq<Packet>, rest: seq<Packet>, msg: seq<Byte>, B: nat)
    requires Sendable(msg, B) && Encodes(pkts, msg, B) && Whole(rest, B)
    ensures Whole(pkts + rest, B)
    ensures DecodeAll(pkts + rest, B) == [Padded(msg, B)] + DecodeAll(rest, B)
  {
    ReadOne(pkts, Packets(|msg|, B), rest, msg, B);
  }

  lemma DecodePart(part: seq<Packet>, k: nat, msg: seq<Byte>, B: nat)
    requires Sendable(msg, B) && EncodesPart(part, k, msg, B) && k < Packets(|msg|, B)
    ensures Whole(part, B) && DecodeAll(part, B) == []
  {
    ReadOne(part, k, [], msg, B);
    assert part + [] == part;
  }

  lemma EncodesAllHead(stream: seq<Packet>, msgs: seq<seq<Byte>>, B: nat) returns (n: nat)
    requires AllSendable(msgs, B) && EncodesAll(stream, msgs, B) && msgs != []
    ensures Sendable(msgs[0], B) && n == Packets(|msgs[0]|, B) <= |stream|
    ensures Encodes(stream[..n], msgs[0], B) && AllSendable(msgs[1..], B) && EncodesAll(stream[n..], msgs[1..], B)
    ensures PaddedAll(msgs, B) == [Padded(msgs[0], B)] + PaddedAll(msgs[1..], B)
    ensures stream == stream[..n] + stream[n..]
  {
    assert Sendable(msgs[0], B);
    n := Packets(|msgs[0]|, B);
  }

  lemma {:induction false} DecodeThen(stream: seq<Packet>, msgs: seq<seq<Byte>>, tail: seq<Packet>, B: nat)
    requires B > 40 && AllSendable(msgs, B) && EncodesAll(stream, msgs, B) && Whole(tail, B)
    ensures Whole(stream + tail, B)
    ensures DecodeAll(stream + tail, B) == PaddedAll(msgs, B) + DecodeAll(tail, B)
    decreases |msgs|
  {
    if msgs == [] {
      assert stream + tail == tail;
    } else {
      var n := EncodesAllHead(stream, msgs, B);
      DecodeThen(stream[n..], msgs[1..], tail, B);
      DecodeOne(stream[..n], stream[n..] + tail, msgs[0], B);
      Reassociate(stream[..n], stream[n..], tail);
      Reassociate([Padded(msgs[0], B)], PaddedAll(msgs[1..], B), DecodeAll(tail, B));
    }
  }

  lemma Reassociate<X>(a: seq<X>, b: seq<X>, c: seq<X>)
    ensures a + (b + c) == (a + b) + c
  {
  }

  /**
   Round trip, also for a stream that breaks off: complete encodings followed by a part of the next one
   decode to exactly the complete messages.
   */
  lemma RoundTrip(stream: seq<Packet>, msgs: seq<seq<Byte>>, part: seq<Packet>, k: nat, next: seq<Byte>, B: nat)
    requires B > 40 && AllSendable(msgs, B) && EncodesAll(stream, msgs, B)
    requires Sendable(next, B) && EncodesPart(part, k, next, B) && k < Packets(|next|, B)
    ensures Whole(stream + part, B)
    ensures DecodeAll(stream + part, B) == PaddedAll(msgs, B)
  {
    DecodePart(part, k, next, B);
    DecodeThen(stream, msgs, part, B);
  }

  lemma RoundTripComplete(stream: seq<Packet>, msgs: seq<seq<Byte>>, B: nat)
    requires B > 40 && AllSendable(msgs, B) && EncodesAll(stream, msgs, B)
    ensures Whole(stream, B) && DecodeAll(stream, B) == PaddedAll(msgs, B)
  {
    DecodeThen(stream, msgs, [], B);
    assert stream + [] == stream;
  }

  /** Cutting an encoded stream anywhere between packets loses only messages at the end. */
  lemma {:induction false} CutStream(stream: seq<Packet>, msgs: seq<seq<Byte>>, cut: nat, B: nat)
    requires B > 40 && AllSendable(msgs, B) && EncodesAll(stream, msgs, B) && cut <= |stream|
    ensures Whole(stream[..cut], B)
    ensures DecodeAll(stream[..cut], B) <= PaddedAll(msgs, B)
    decreases |msgs|
  {
    if msgs != [] {
      var n := EncodesAllHead(stream, msgs, B);
      if cut < n {
        assert stream[..cut] == stream[..n][..cut];
        DecodePart(stream[..cut], cut, msgs[0], B);
      } else {
        var rest := stream[n..];
        CutStream(rest, msgs[1..], cut - n, B);
        CutAfter(stream, n, cut);
        DecodeOne(stream[..n], rest[..cut - n], msgs[0], B);
      }
    }
  }

  lemma CutAfter<X>(s: seq<X>, n: nat, cut: nat)
    requires n <= cut <= |s|
    ensures s[..cut] == s[..n] + s[n..][..cut - n]
  {
  }

  /** A further message appended to an encoded stream. */
  lemma {:induction false} EncodesAllSnoc(stream: seq<Packet>, msgs: seq<seq<Byte>>, pkts: seq<Packet>, msg: seq<Byte>, B: nat)
    requires AllSendable(msgs, B) && EncodesAll(stream, msgs, B) && Sendable(msg, B) && Encodes(pkts, msg, B)
    ensures AllSendable(msgs + [msg], B) && EncodesAll(stream + pkts, msgs + [msg], B)
    decreases |msgs|
  {
    if msgs == [] {
      assert (stream + pkts)[..|pkts|] == pkts && (stream + pkts)[|pkts|..] == [];
      assert (msgs + [msg])[1..] == [];
    } else {
      assert Sendable(msgs[0], B);
      var n := Packets(|msgs[0]|, B);
      EncodesAllSnoc(stream[n..], msgs[1..], pkts, msg, B);
      assert (stream + pkts)[..n] == stream[..n] && (stream + pkts)[n..] == stream[n..] + pkts;
      assert (msgs + [msg])[1..] == msgs[1..] + [msg];
    }
  }

  // ---------- Packet arithmetic ----------

  /** Products as the source writes them: the padding, the receive buffer, and when its size fits an int32_t. */
  lemma PacketArithmetic(s: nat, B: nat)
    requires B > 40
    ensures var P, n := Payload(B), 1 + s / Payload(B);
            && n == Packets(s, B)
            && n * P > s                                       // at least one zero byte of padding
            && n * P <= n * B                                  // receive writes stay within b * B
            && 8 + P == B - 32                                 // the terminator lies just past the payload
            && Times(n, B) == n * B
            && (s * B <= P * (0x7FFF_FFFF - B) ==> n * B <= 0x7FFF_FFFF)
  {
    var P, n := Payload(B), 1 + s / Payload(B);
    TimesIsProduct(n, P);
    TimesIsProduct(n, B);
    assert n * B == n * P + n * 40;
    if s * B <= P * (0x7FFF_FFFF - B) {
      Remainder(s, P);
      BoundByProduct(s / P, s, P, B);
      assert n * B == (s / P) * B + B;
    }
  }

  lemma BoundByProduct(q: nat, s: nat, P: nat, B: nat)
    requires P > 0 && q * P <= s && s * B <= P * (0x7FFF_FFFF - B)
    ensures q * B <= 0x7FFF_FFFF - B
  {
    MulMono(q * P, s, B);
    assert (q * P) * B == P * (q * B);
    Cancel(P, q * B, 0x7FFF_FFFF - B);
  }

  lemma Cancel(c: nat, a: int, b: int)
    requires c > 0 && c * a <= c * b
    ensures a <= b
  {
    if a > b { MulMonoStrict(c, b, a); }
  }

  lemma MulMono(a: nat, b: nat, c: nat)
    requires a <= b
    ensures a * c <= b * c
  {
  }

  lemma MulMonoStrict(c: nat, a: int, b: int)
    requires c > 0 && a < b
    ensures c * a < c * b
  {
  }
}
