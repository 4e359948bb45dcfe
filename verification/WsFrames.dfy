/** WebSocket frames (section 5.2 of RFC 6455) as `WSSession` and `WSConnection` send
    and parse them: the header bit layout, the extended lengths, masking, and what the
    receive loop makes of a byte stream. */
module WsFrames {
  import opened Wrappers
  import opened Bytes
  import opened Codec

  const CONTINUE := 0
  const TEXT_FRAME := 1
  const BIN_FRAME := 2
  const CLOSE := 8
  const PING := 9
  const PONG := 10

  /** `WSFrameHead`; `rsv` holds the three reserved bits, `rsv3` lowest. */
  datatype Head = Head(opcode: nat, rsv: nat, fin: bool, payload: nat, mask: bool)

  predicate HeadOk(h: Head) { h.opcode < 16 && h.rsv < 8 && h.payload < 128 }

  /** Three bits in the opposite order. */
  function Mirror(r: nat): nat
    requires r < 8
  {
    [0, 4, 2, 6, 1, 5, 3, 7][r]
  }

  /** The struct as it lies in memory and is sent: compilers lay out its bit-fields from
      the low bit of each byte on little-endian machines and from the high bit on
      big-endian ones. */
  function HeadBytes(host: Endian, h: Head): (r: seq<byte>)
    requires HeadOk(h)
    ensures |r| == 2
  {
    var fin, mask := if h.fin then 1 else 0, if h.mask then 1 else 0;
    if host.Little? then [h.opcode + 16 * h.rsv + 128 * fin, h.payload + 128 * mask]
    else [16 * h.opcode + 2 * Mirror(h.rsv) + fin, 2 * h.payload + mask]
  }

  function ParseHead(host: Endian, b0: byte, b1: byte): (h: Head)
    ensures HeadOk(h)
  {
    if host.Little? then Head(b0 % 16, b0 / 16 % 8, b0 >= 128, b1 % 128, b1 >= 128)
    else Head(b0 / 16, Mirror(b0 / 2 % 8), b0 % 2 == 1, b1 / 2, b1 % 2 == 1)
  }

  /** The bit layout loses nothing, in either direction, on either machine. */
  lemma HeadRoundTrip(host: Endian, h: Head, b0: byte, b1: byte)
    ensures HeadOk(h) ==> ParseHead(host, HeadBytes(host, h)[0], HeadBytes(host, h)[1]) == h
    ensures HeadBytes(host, ParseHead(host, b0, b1)) == [b0, b1]
  {
    if HeadOk(h) {
      HeadParsed(host, h);
    }
    HeadRebuilt(host, b0, b1);
  }

  lemma MirrorTwice(r: nat)
    requires r < 8
    ensures Mirror(r) < 8 && Mirror(Mirror(r)) == r
  {
  }

  lemma HeadParsed(host: Endian, h: Head)
    requires HeadOk(h)
    ensures ParseHead(host, HeadBytes(host, h)[0], HeadBytes(host, h)[1]) == h
  {
    hide Mirror;
    MirrorTwice(h.rsv);
    LowFirst(h.opcode, h.rsv, if h.fin then 1 else 0);
    HighFirst(h.opcode, Mirror(h.rsv), if h.fin then 1 else 0);
  }

  lemma LowFirst(opcode: nat, rsv: nat, fin: nat)
    requires opcode < 16 && rsv < 8 && fin < 2
    ensures var b := opcode + 16 * rsv + 128 * fin; b % 16 == opcode && b / 16 % 8 == rsv && (b >= 128 <==> fin == 1)
  {
    assert (opcode + 16 * rsv + 128 * fin) / 16 == rsv + 8 * fin;
  }

  lemma HighFirst(opcode: nat, rsv: nat, fin: nat)
    requires opcode < 16 && rsv < 8 && fin < 2
    ensures var b := 16 * opcode + 2 * rsv + fin; b / 16 == opcode && b / 2 % 8 == rsv && b % 2 == fin
  {
    assert (16 * opcode + 2 * rsv + fin) / 2 == 8 * opcode + rsv;
  }

  lemma HeadRebuilt(host: Endian, b0: byte, b1: byte)
    ensures HeadBytes(host, ParseHead(host, b0, b1)) == [b0, b1]
  {
    hide Mirror;
    MirrorTwice(b0 / 2 % 8);
    if host.Big? {
      assert b0 / 16 == b0 / 2 / 8;
    }
  }

  // ----------------------------------------------------------------- masking

  lemma XorParts(a: nat, b: nat)
    ensures Xor(a, b) % 2 == (a % 2 + b % 2) % 2 && Xor(a, b) / 2 == Xor(a / 2, b / 2)
  {
  }

  lemma Parity(a: nat, b: nat, x: nat)
    requires x % 2 == (a % 2 + b % 2) % 2
    ensures (x % 2 + b % 2) % 2 == a % 2
  {
  }

  lemma {:induction false} XorTwice(a: nat, b: nat)
    ensures Xor(Xor(a, b), b) == a
    decreases a + b
  {
    if a > 0 || b > 0 {
      var x := Xor(a, b);
      XorParts(a, b);
      XorParts(x, b);
      XorTwice(a / 2, b / 2);
      Parity(a, b, x);
    }
  }

  lemma {:induction false} XorBound(a: nat, b: nat, n: nat)
    requires a < Pow2(n) && b < Pow2(n)
    ensures Xor(a, b) < Pow2(n)
  {
    if n > 0 {
      XorBound(a / 2, b / 2, n - 1);
    }
  }

  function XorByte(a: byte, b: byte): byte {
    XorBound(a, b, 8);
    assert Pow2(8) == 256;
    Xor(a, b)
  }

  /** The masking loops: byte `i` with key byte `i % 4`. */
  function Masked(s: seq<byte>, key: seq<byte>): (r: seq<byte>)
    requires |key| == 4
    ensures |r| == |s| && forall i :: 0 <= i < |s| ==> r[i] == XorByte(s[i], key[i % 4])
  {
    seq(|s|, i requires 0 <= i < |s| => XorByte(s[i], key[i % 4]))
  }

  lemma DivUnique(a: nat, d: nat, q: nat, r: nat)
    requires a == d * q + r && r < d
    ensures a / d == q
  {
    TimesIsProduct(q, d);
    LocateUnique(a, d, q, r);
  }

  lemma DivTwice(a: nat, p: nat)
    requires p > 0
    ensures a / (2 * p) == a / 2 / p
  {
    var h := a / 2;
    var q, r := h / p, h % p;
    assert h == p * q + r;
    assert (2 * p) * q == 2 * (p * q);
    DivUnique(a, 2 * p, q, 2 * r + a % 2);
  }

  /** Bit `n` of an exclusive or is set exactly if it is set in one of the two. */
  lemma {:induction false} XorBits(a: nat, b: nat, n: nat)
    ensures Xor(a, b) / Pow2(n) % 2 == (a / Pow2(n) + b / Pow2(n)) % 2
  {
    hide Xor, Pow2;
    XorParts(a, b);
    if n > 0 {
      XorBits(a / 2, b / 2, n - 1);
      BitBelow(a, n);
      BitBelow(b, n);
      BitBelow(Xor(a, b), n);
    } else {
      assert Pow2(0) == 1 by {
        PowZero();
      }
    }
  }

  lemma PowZero()
    ensures Pow2(0) == 1
  {
  }

  lemma BitBelow(a: nat, n: nat)
    requires n > 0
    ensures a / Pow2(n) == a / 2 / Pow2(n - 1)
  {
    DivTwice(a, Pow2(n - 1));
  }

  /** What masking does to bit `n` of byte `i`: it is flipped exactly if that bit of byte
      `i % 4` of the key is set (section 5.3 of RFC 6455). */
  lemma MaskedBits(s: seq<byte>, key: seq<byte>, i: nat, n: nat)
    requires |key| == 4 && i < |s|
    ensures Masked(s, key)[i] / Pow2(n) % 2 == (s[i] / Pow2(n) + key[i % 4] / Pow2(n)) % 2
  {
    XorBits(s[i], key[i % 4], n);
  }

  lemma MaskedTwice(s: seq<byte>, key: seq<byte>)
    requires |key| == 4
    ensures Masked(Masked(s, key), key) == s
  {
    forall i | 0 <= i < |s|
      ensures Masked(Masked(s, key), key)[i] == s[i]
    {
      XorTwice(s[i], key[i % 4]);
    }
  }

  // ------------------------------------------------------------------- sending

  /** A frame as `send_message`, `ping` and `pong` produce it; `key` is empty on the
      server's side and four bytes on the client's. */
  datatype Frame = Data(opcode: nat, fin: bool, key: seq<byte>, payload: seq<byte>) | Ping | Pong

  ghost predicate FrameOk(f: Frame) {
    f.Data? ==> f.opcode < 16 && (|f.key| == 0 || |f.key| == 4) && |f.payload| < M64
  }

  /** The extended length: 16 bits in network order, but 64 bits in the opposite one. */
  function LengthBytes(host: Endian, n: nat): seq<byte> {
    if n < 126 then [] else if n < 65536 then FixedWrite(host, Big, n, 2) else FixedWrite(host, Little, n, 8)
  }

  function ShortLength(n: nat): nat { if n < 126 then n else if n < 65536 then 126 else 127 }

  function FrameHead(f: Frame): (h: Head) {
    match f
    case Data(opcode, fin, key, payload) => Head(opcode, 0, fin, ShortLength(|payload|), |key| == 4)
    case Ping => Head(PING, 0, true, 0, false)
    case Pong => Head(PONG, 0, true, 0, false)
  }

  /** The payload as it goes on the wire. */
  function Body(payload: seq<byte>, key: seq<byte>): (r: seq<byte>)
    ensures |r| == |payload|
  {
    if |key| == 4 then Masked(payload, key) else payload
  }

  ghost function FrameBytes(host: Endian, f: Frame): seq<byte>
    requires FrameOk(f)
  {
    HeadBytes(host, FrameHead(f)) +
    (if f.Data? then LengthBytes(host, |f.payload|) + (f.key + Body(f.payload, f.key)) else [])
  }

  // ----------------------------------------------------------------- receiving

  datatype Message = Message(opcode: nat, data: seq<byte>)

  /** How the receive loop ends: with a message; with the connection closed; or by
      storing or unmasking outside its buffer. */
  datatype Outcome = Got(msg: Message) | Closed | Corrupt

  function Int32(n: int): int {
    var m := n % 0x1_0000_0000;
    if m < 0x8000_0000 then m else m - 0x1_0000_0000
  }

  /** The announced length and what follows it, if enough bytes arrive. */
  function ParseLength(host: Endian, payload: nat, s: seq<byte>): (r: Option<Parsed<nat>>)
    ensures r.Some? ==> r.value.used <= |s|
  {
    if payload == 126 then
      if |s| < 2 then None else Some(Parsed(FixedRead(host, Big, s[..2]), 2))
    else if payload == 127 then
      if |s| < 8 then None else Some(Parsed(FixedRead(host, Big, s[..8]), 8))
    else Some(Parsed(payload, 0))
  }

  /** A stored fragment, or how storing it ended the loop. */
  datatype Stored = Kept(data: seq<byte>, rest: seq<byte>) | Stop(outcome: Outcome)

  /** The size test on a fragment: 64-bit unsigned, after converting `cur_len`, which
      is an `int` and so the length of `data` only below 2^31. */
  predicate TooBig(data: seq<byte>, length: nat, max: nat) {
    (Int32(|data|) + length) % 0x1_0000_0000_0000_0000 >= max
  }

  /** `read_fixed_size(&data[cur_len], length)` on what arrives, and the unmasking.
      Its 64-bit counter and its `int` result decide whether it reads and whether
      the caller takes it for a success. */
  function StorePayload(data: seq<byte>, length: nat, key: seq<byte>, s: seq<byte>): (r: Stored)
    requires |key| == 0 || |key| == 4
    ensures r.Kept? ==> |r.rest| <= |s| && |r.data| == |data| + length
  {
    if length == 0 || length >= 0x8000_0000_0000_0000 then Stop(if Int32(length) <= 0 then Closed else Corrupt)
    else if s == [] then Stop(Closed)
    else if Int32(|data|) != |data| then Stop(Corrupt)
    else if |s| < length || Int32(length) <= 0 then Stop(Closed)
    else Kept(data + Body(s[..length], key), s[length..])
  }

  /** A data frame after its header. */
  function StoreFrame(host: Endian, server: bool, max: nat, h: Head, data: seq<byte>, s: seq<byte>): (r: Stored)
    ensures r.Kept? ==> |r.rest| <= |s|
  {
    if server && !h.mask then Stop(Closed)
    else
      match ParseLength(host, h.payload, s)
      case None => Stop(Closed)
      case Some(Parsed(length, k)) =>
        if TooBig(data, length, max) then Stop(Closed)
        else if h.mask then
          if |s| < k + 4 then Stop(Closed) else StorePayload(data, length, s[k..k + 4], s[k + 4..])
        else StorePayload(data, length, [], s[k..])
  }

  /** The outcome, the bytes left after a message, and the pongs sent. */
  datatype Receipt = Receipt(outcome: Outcome, rest: seq<byte>, pongs: nat)

  predicate IsData(opcode: nat) { opcode == CONTINUE || opcode == TEXT_FRAME || opcode == BIN_FRAME }

  /** One round of the receive loop: it ends, or goes on with what is left. */
  datatype Step = End(outcome: Outcome, left: seq<byte>)
    | Next(left: seq<byte>, data: seq<byte>, opcode: nat, pong: bool)

  function Round(host: Endian, server: bool, max: nat, s: seq<byte>, room: nat, data: seq<byte>, opcode: nat): (r: Step)
    ensures r.Next? ==> |r.left| < |s| && (r.pong ==> room > 0)
  {
    if |s| < 2 then End(Closed, [])
    else
      var h := ParseHead(host, s[0], s[1]);
      if h.opcode == PING then
        if room == 0 then End(Closed, []) else Next(s[2..], data, opcode, true)
      else if IsData(h.opcode) then
        match StoreFrame(host, server, max, h, data, s[2..])
        case Stop(outcome) => End(outcome, [])
        case Kept(data', rest) =>
          var op := if opcode == 0 then h.opcode else opcode;
          if h.fin then End(Got(Message(op, data')), rest) else Next(rest, data', op, false)
      else if h.opcode == CLOSE then End(Closed, [])
      else Next(s[2..], data, opcode, false)
  }

  /** `recv_message` on the bytes `s` that arrive before the stream fails, able to
      send `room` more pongs; `data` are the fragments so far and `opcode` the first
      data opcode seen. */
  function Receive(host: Endian, server: bool, max: nat, s: seq<byte>, room: nat, data: seq<byte>, opcode: nat): Receipt
    decreases |s|
  {
    match Round(host, server, max, s, room, data, opcode)
    case End(outcome, left) => Receipt(outcome, left, 0)
    case Next(left, data', op, pong) =>
      var r := Receive(host, server, max, left, if pong then room - 1 else room, data', op);
      if pong then r.(pongs := r.pongs + 1) else r
  }

  // ------------------------------------------------------------ the size bound

  lemma PayloadFits(data: seq<byte>, length: nat, max: nat, key: seq<byte>, s: seq<byte>)
    requires (|key| == 0 || |key| == 4) && !TooBig(data, length, max)
    ensures var r := StorePayload(data, length, key, s);
            r.Kept? ==> |r.data| < max
  {
    if StorePayload(data, length, key, s).Kept? {
      assert (|data| + length) % 0x1_0000_0000_0000_0000 == |data| + length;
    }
  }

  /** What a frame that is kept adds: it fits the limit, whatever length it announced
      and however that length wraps around. */
  lemma KeptFits(host: Endian, server: bool, max: nat, h: Head, data: seq<byte>, s: seq<byte>)
    ensures var r := StoreFrame(host, server, max, h, data, s);
            r.Kept? ==> |r.data| < max
  {
    var p := ParseLength(host, h.payload, s);
    if p.Some? && !TooBig(data, p.value.value, max) {
      var k := p.value.used;
      if h.mask && |s| >= k + 4 {
        PayloadFits(data, p.value.value, max, s[k..k + 4], s[k + 4..]);
      } else {
        PayloadFits(data, p.value.value, max, [], s[k..]);
      }
    }
  }

  /** Every message returned is strictly shorter than the configured maximum. */
  lemma {:induction false} MessageFits(host: Endian, server: bool, max: nat, s: seq<byte>, room: nat, data: seq<byte>,
                                       opcode: nat)
    ensures var r := Receive(host, server, max, s, room, data, opcode);
            r.outcome.Got? ==> |r.outcome.msg.data| < max
    decreases |s|
  {
    if |s| >= 2 {
      KeptFits(host, server, max, ParseHead(host, s[0], s[1]), data, s[2..]);
    }
    var r := Round(host, server, max, s, room, data, opcode);
    if r.Next? {
      MessageFits(host, server, max, r.left, if r.pong then room - 1 else room, r.data, r.opcode);
    }
  }

  /** A length that passes the size test by wrapping around is negative as an `int`. */
  lemma WrappedLengthIsNegative(n: nat, length: nat, max: nat)
    requires n < 0x8000_0000 && max <= 0x8000_0000 && 0x8000_0000_0000_0000 <= length < M64
    requires (n + length) % 0x1_0000_0000_0000_0000 < max
    ensures Int32(length) < 0
  {
    assert n + length >= M64;
    assert length % 0x1_0000_0000 == length - 0xffff_ffff_0000_0000;
  }

  lemma PayloadStaysInside(data: seq<byte>, length: nat, max: nat, key: seq<byte>, s: seq<byte>)
    requires max <= 0x8000_0000 && |data| < 0x8000_0000 && length < M64 && (|key| == 0 || |key| == 4)
    requires !TooBig(data, length, max)
    ensures StorePayload(data, length, key, s) != Stop(Corrupt)
  {
    assert Int32(|data|) == |data|;
    if length >= 0x8000_0000_0000_0000 {
      WrappedLengthIsNegative(|data|, length, max);
    }
  }

  /** With a limit up to 2^31 no fragment is stored outside the buffer. */
  lemma StoreStaysInside(host: Endian, server: bool, max: nat, h: Head, data: seq<byte>, s: seq<byte>)
    requires max <= 0x8000_0000 && |data| < 0x8000_0000 && h.payload < 128
    ensures StoreFrame(host, server, max, h, data, s) != Stop(Corrupt)
  {
    LengthBound(host, h.payload, s);
    var p := ParseLength(host, h.payload, s);
    if p.Some? && !TooBig(data, p.value.value, max) {
      var k := p.value.used;
      if h.mask && |s| >= k + 4 {
        PayloadStaysInside(data, p.value.value, max, s[k..k + 4], s[k + 4..]);
      } else {
        PayloadStaysInside(data, p.value.value, max, [], s[k..]);
      }
    }
  }

  lemma LengthBound(host: Endian, payload: nat, s: seq<byte>)
    requires payload < 128
    ensures var p := ParseLength(host, payload, s);
            p.Some? ==> p.value.value < M64
  {
    Widths();
    if payload == 126 && |s| >= 2 {
      FixedReadBound(host, Big, s[..2]);
    } else if payload == 127 && |s| >= 8 {
      FixedReadBound(host, Big, s[..8]);
    }
  }

  lemma FixedReadBound(host: Endian, endian: Endian, bs: seq<byte>)
    ensures FixedRead(host, endian, bs) < Pow256(|bs|)
  {
    FromLittleRoundTrip(bs);
    FromLittleRoundTrip(Reverse(bs));
    FromLittleRoundTrip(Reverse(LittleBytes(FromMemory(host, bs), |bs|)));
  }

  lemma {:induction false} NeverCorrupt(host: Endian, server: bool, max: nat, s: seq<byte>, room: nat,
                                        data: seq<byte>, opcode: nat)
    requires max <= 0x8000_0000 && |data| < 0x8000_0000
    ensures Receive(host, server, max, s, room, data, opcode).outcome != Corrupt
    decreases |s|
  {
    if |s| >= 2 {
      StoreStaysInside(host, server, max, ParseHead(host, s[0], s[1]), data, s[2..]);
      KeptFits(host, server, max, ParseHead(host, s[0], s[1]), data, s[2..]);
    }
    var r := Round(host, server, max, s, room, data, opcode);
    if r.Next? {
      NeverCorrupt(host, server, max, r.left, if r.pong then room - 1 else room, r.data, r.opcode);
    }
  }

  // ------------------------------------------------------------- reassembly

  /** The extended length, for payloads under 65536 bytes, is read back. */
  lemma LengthRoundTrip(host: Endian, n: nat, tail: seq<byte>)
    requires n < 65536
    ensures ParseLength(host, ShortLength(n), LengthBytes(host, n) + tail) == Some(Parsed(n, |LengthBytes(host, n)|))
  {
    Widths();
    if n >= 126 {
      assert (LengthBytes(host, n) + tail)[..2] == FixedWrite(host, Big, n, 2);
      FixedRoundTrip(host, Big, n, 2);
    }
  }

  ghost predicate Acceptable(f: Frame, server: bool) {
    FrameOk(f) && (f.Data? ==> 0 < |f.payload| < 65536 && IsData(f.opcode) && (server ==> |f.key| == 4))
  }

  lemma PayloadRoundTrip(data: seq<byte>, payload: seq<byte>, key: seq<byte>, tail: seq<byte>)
    requires 0 < |payload| < 65536 && |data| < 0x8000_0000 && (|key| == 0 || |key| == 4)
    ensures StorePayload(data, |payload|, key, Body(payload, key) + tail) == Kept(data + payload, tail)
  {
    var body := Body(payload, key);
    assert (body + tail)[..|payload|] == body && (body + tail)[|payload|..] == tail;
    if |key| == 4 {
      MaskedTwice(payload, key);
    }
    assert Int32(|payload|) == |payload| && Int32(|data|) == |data|;
  }

  /** Taking apart a prefix, a key and what follows. */
  lemma Apart(len: seq<byte>, key: seq<byte>, rest: seq<byte>)
    ensures var s := len + (key + rest);
            s[|len|..|len| + |key|] == key && s[|len| + |key|..] == rest && s[|len|..] == key + rest
  {
  }

  /** A data frame is stored as it was sent. */
  lemma FrameRoundTrip(host: Endian, server: bool, max: nat, f: Frame, data: seq<byte>, tail: seq<byte>)
    requires f.Data? && Acceptable(f, server) && |data| + |f.payload| < max && |data| < 0x8000_0000
    ensures var s := LengthBytes(host, |f.payload|) + (f.key + (Body(f.payload, f.key) + tail));
            StoreFrame(host, server, max, FrameHead(f), data, s) == Kept(data + f.payload, tail)
  {
    var len, rest := LengthBytes(host, |f.payload|), Body(f.payload, f.key) + tail;
    LengthRoundTrip(host, |f.payload|, f.key + rest);
    Apart(len, f.key, rest);
    PayloadRoundTrip(data, f.payload, f.key, tail);
    NotTooBig(data, |f.payload|, max);
    assert |f.key| == 0 ==> f.key == [];
  }

  lemma NotTooBig(data: seq<byte>, n: nat, max: nat)
    requires |data| < 0x8000_0000 && |data| + n < max && n < 65536
    ensures !TooBig(data, n, max)
  {
    assert Int32(|data|) == |data|;
  }

  lemma HeadFirst(host: Endian, h: Head, s: seq<byte>)
    requires HeadOk(h)
    ensures var w := HeadBytes(host, h) + s;
            w[2..] == s && |w| == |s| + 2 && ParseHead(host, w[0], w[1]) == h
  {
    HeadRoundTrip(host, h, 0, 0);
  }

  /** What one accepted frame makes of the receive loop. */
  function AfterFrame(f: Frame, tail: seq<byte>, data: seq<byte>, opcode: nat): Step {
    match f
    case Data(op, fin, _, payload) =>
      var op' := if opcode == 0 then op else opcode;
      if fin then End(Got(Message(op', data + payload)), tail) else Next(tail, data + payload, op', false)
    case Ping => Next(tail, data, opcode, true)
    case Pong => Next(tail, data, opcode, false)
  }

  lemma FrameSplit(host: Endian, f: Frame, tail: seq<byte>)
    requires f.Data? && FrameOk(f)
    ensures FrameBytes(host, f) + tail
            == HeadBytes(host, FrameHead(f)) + (LengthBytes(host, |f.payload|)
              + (f.key + (Body(f.payload, f.key) + tail)))
  {
    hide HeadBytes, LengthBytes, Body;
    var head, len, body := HeadBytes(host, FrameHead(f)), LengthBytes(host, |f.payload|), Body(f.payload, f.key);
    Assoc(head, len + (f.key + body), tail);
    Assoc(len, f.key + body, tail);
    Assoc(f.key, body, tail);
  }

  lemma RoundOnData(host: Endian, server: bool, max: nat, f: Frame, tail: seq<byte>, room: nat, data: seq<byte>,
                    opcode: nat)
    requires f.Data? && Acceptable(f, server) && |data| + |f.payload| < max && |data| < 0x8000_0000
    ensures Round(host, server, max, FrameBytes(host, f) + tail, room, data, opcode)
            == AfterFrame(f, tail, data, opcode)
  {
    hide StoreFrame, LengthBytes, Body, HeadBytes, ParseHead;
    var s := LengthBytes(host, |f.payload|) + (f.key + (Body(f.payload, f.key) + tail));
    FrameSplit(host, f, tail);
    HeadFirst(host, FrameHead(f), s);
    FrameRoundTrip(host, server, max, f, data, tail);
  }

  lemma RoundOnControl(host: Endian, server: bool, max: nat, f: Frame, tail: seq<byte>, room: nat, data: seq<byte>,
                       opcode: nat)
    requires FrameOk(f) && !f.Data? && (f.Ping? ==> room > 0)
    ensures Round(host, server, max, FrameBytes(host, f) + tail, room, data, opcode)
            == AfterFrame(f, tail, data, opcode)
  {
    assert FrameBytes(host, f) + tail == HeadBytes(host, FrameHead(f)) + tail;
    HeadFirst(host, FrameHead(f), tail);
  }

  /** The format on a little-endian machine, byte by byte: the first byte has the opcode and
      128 for the last frame of a message; the second has the length, or 126 with two more
      bytes in network order, or 127 with eight, and 128 for a masked payload; then the
      key and the masked payload, or the payload. */
  lemma WireFormat(f: Frame)
    requires f.Data? && FrameOk(f)
    ensures var n, mask := |f.payload|, if f.key == [] then 0 else 128;
            var first := f.opcode + if f.fin then 128 else 0;
            var rest := if f.key == [] then f.payload else f.key + Masked(f.payload, f.key);
            && (n < 126 ==> FrameBytes(Little, f) == [first, n + mask] + rest)
            && (126 <= n < 65536 ==> FrameBytes(Little, f) == [first, 126 + mask, n / 256, n % 256] + rest)
            && (n >= 65536 ==> FrameBytes(Little, f) == [first, 127 + mask] + (LittleBytes(n, 8) + rest))
  {
    hide Masked;
    var n, rest := |f.payload|, if f.key == [] then f.payload else f.key + Masked(f.payload, f.key);
    assert f.key + Body(f.payload, f.key) == rest;
    var head := HeadBytes(Little, FrameHead(f));
    assert head == [f.opcode + if f.fin then 128 else 0, ShortLength(n) + if f.key == [] then 0 else 128];
    WireLength(n);
    if n < 126 {
      assert [] + rest == rest;
    } else if n < 65536 {
      assert head + ([n / 256, n % 256] + rest) == [head[0], head[1], n / 256, n % 256] + rest;
    }
  }

  lemma WireLength(n: nat)
    ensures n < 126 ==> LengthBytes(Little, n) == [] && ShortLength(n) == n
    ensures 126 <= n < 65536 ==> LengthBytes(Little, n) == [n / 256, n % 256] && ShortLength(n) == 126
    ensures n >= 65536 ==> LengthBytes(Little, n) == LittleBytes(n, 8) && ShortLength(n) == 127
  {
    hide ByteSwap;
    FixedWriteOrder(Little, Big, n, 2);
    FixedWriteOrder(Little, Little, n, 8);
    if 126 <= n < 65536 {
      assert LittleBytes(n, 2) == [n % 256] + LittleBytes(n / 256, 1);
      assert LittleBytes(n / 256, 1) == [n / 256 % 256] + LittleBytes(n / 256 / 256, 0);
      assert LittleBytes(n, 2) == [n % 256, n / 256];
    }
  }

  /** A server closes on an unmasked data frame. */
  lemma UnmaskedRefused(host: Endian, max: nat, f: Frame, tail: seq<byte>, room: nat, data: seq<byte>, opcode: nat)
    requires f.Data? && FrameOk(f) && IsData(f.opcode) && f.key == []
    ensures Round(host, true, max, FrameBytes(host, f) + tail, room, data, opcode) == End(Closed, [])
  {
    hide LengthBytes, Body, HeadBytes, ParseHead;
    FrameSplit(host, f, tail);
    HeadFirst(host, FrameHead(f), LengthBytes(host, |f.payload|) + (f.key + (Body(f.payload, f.key) + tail)));
  }

  /** Other frames: CLOSE (8) ends the loop, PING (9) is answered or, if that fails, ends it,
      and the rest, PONG among them, are passed over. */
  lemma ControlRound(host: Endian, server: bool, max: nat, h: Head, s: seq<byte>, room: nat, data: seq<byte>,
                     opcode: nat)
    requires HeadOk(h) && h.opcode > 2
    ensures Round(host, server, max, HeadBytes(host, h) + s, room, data, opcode) ==
            if h.opcode == 8 || (h.opcode == 9 && room == 0) then End(Closed, [])
            else Next(s, data, opcode, h.opcode == 9)
  {
    hide HeadBytes, ParseHead;
    HeadFirst(host, h, s);
  }

  // ---------------------------------------------------------- whole messages

  ghost predicate IsCode(host: Endian, f: Frame, code: seq<byte>) { FrameOk(f) && code == FrameBytes(host, f) }

  /** `codes` are the frames as bytes. */
  ghost predicate Coded(host: Endian, fs: seq<Frame>, codes: seq<seq<byte>>) {
    && |codes| == |fs|
    && forall i {:trigger IsCode(host, fs[i], codes[i])} :: 0 <= i < |fs| ==> IsCode(host, fs[i], codes[i])
  }

  function Concat(codes: seq<seq<byte>>): seq<byte> {
    if codes == [] then [] else codes[0] + Concat(codes[1..])
  }

  /** The payloads of the data frames, concatenated. */
  function Payloads(fs: seq<Frame>): seq<byte> {
    if fs == [] then [] else (if fs[0].Data? then fs[0].payload else []) + Payloads(fs[1..])
  }

  function Pings(fs: seq<Frame>): nat {
    if fs == [] then 0 else (if fs[0].Ping? then 1 else 0) + Pings(fs[1..])
  }

  /** The first opcode other than CONTINUE, starting from `opcode`. */
  function FirstOpcode(fs: seq<Frame>, opcode: nat): nat {
    if fs == [] then opcode
    else FirstOpcode(fs[1..], if opcode == 0 && fs[0].Data? then fs[0].opcode else opcode)
  }

  /** Frames of one message: any mix of control frames and unfinished fragments, then
      the finishing fragment. */
  ghost predicate IsMessage(fs: seq<Frame>, server: bool) {
    && fs != [] && (forall i :: 0 <= i < |fs| ==> Acceptable(fs[i], server))
    && (forall i :: 0 <= i < |fs| ==> (fs[i].Data? && fs[i].fin <==> i == |fs| - 1))
  }

  lemma PayloadsNext(fs: seq<Frame>, data: seq<byte>)
    requires fs != []
    ensures data + Payloads(fs) == (data + if fs[0].Data? then fs[0].payload else []) + Payloads(fs[1..])
  {
    Assoc(data, if fs[0].Data? then fs[0].payload else [], Payloads(fs[1..]));
  }

  /** A round that goes on, then the rest of the loop. */
  lemma Unroll(host: Endian, server: bool, max: nat, s: seq<byte>, room: nat, data: seq<byte>, opcode: nat, r: Step,
               rest: Receipt)
    requires Round(host, server, max, s, room, data, opcode) == r && r.Next?
    requires Receive(host, server, max, r.left, if r.pong then room - 1 else room, r.data, r.opcode) == rest
    ensures Receive(host, server, max, s, room, data, opcode) == if r.pong then rest.(pongs := rest.pongs + 1) else rest
  {
  }

  lemma MessageNext(fs: seq<Frame>, server: bool)
    requires IsMessage(fs, server)
    ensures fs[0].Data? && fs[0].fin ==> |fs| == 1
    ensures !(fs[0].Data? && fs[0].fin) ==> IsMessage(fs[1..], server)
  {
    assert |fs| > 1 ==> !(fs[0].Data? && fs[0].fin);
  }

  lemma RoundOnCode(host: Endian, server: bool, max: nat, fs: seq<Frame>, codes: seq<seq<byte>>, tail: seq<byte>,
                    room: nat, data: seq<byte>, opcode: nat)
    requires Coded(host, fs, codes) && fs != []
    requires Acceptable(fs[0], server) && (fs[0].Ping? ==> room > 0) && |data| < 0x8000_0000
    requires fs[0].Data? ==> |data| + |fs[0].payload| < max
    ensures Round(host, server, max, codes[0] + tail, room, data, opcode) == AfterFrame(fs[0], tail, data, opcode)
  {
    assert IsCode(host, fs[0], codes[0]);
    if fs[0].Data? {
      RoundOnData(host, server, max, fs[0], tail, room, data, opcode);
    } else {
      RoundOnControl(host, server, max, fs[0], tail, room, data, opcode);
    }
  }

  lemma CodedNext(host: Endian, fs: seq<Frame>, codes: seq<seq<byte>>)
    requires Coded(host, fs, codes) && fs != []
    ensures Coded(host, fs[1..], codes[1..])
  {
    forall i | 0 <= i < |fs| - 1
      ensures IsCode(host, fs[1..][i], codes[1..][i])
    {
      assert IsCode(host, fs[i + 1], codes[i + 1]);
    }
  }

  /** `recv_message` on the frames of one message returns the concatenated payload and
      the first data opcode, leaves exactly what follows, and answers every ping. */
  lemma {:induction false} Reassembles(host: Endian, server: bool, max: nat, fs: seq<Frame>, codes: seq<seq<byte>>,
                                       tail: seq<byte>, room: nat, data: seq<byte>, opcode: nat)
    requires IsMessage(fs, server) && Coded(host, fs, codes) && Pings(fs) <= room
    requires |data| + |Payloads(fs)| < max && |data| + |Payloads(fs)| < 0x8000_0000
    ensures Receive(host, server, max, Concat(codes) + tail, room, data, opcode)
            == Receipt(Got(Message(FirstOpcode(fs, opcode), data + Payloads(fs))), tail, Pings(fs))
    decreases |fs|
  {
    var f, after, s := fs[0], Concat(codes[1..]) + tail, Concat(codes) + tail;
    Assoc(codes[0], Concat(codes[1..]), tail);
    PayloadsNext(fs, data);
    MessageNext(fs, server);
    RoundOnCode(host, server, max, fs, codes, after, room, data, opcode);
    CodedNext(host, fs, codes);
    var r := AfterFrame(f, after, data, opcode);
    if r.Next? {
      assert r.data == data + if f.Data? then f.payload else [];
      Reassembles(host, server, max, fs[1..], codes[1..], tail, if r.pong then room - 1 else room, r.data, r.opcode);
      Unroll(host, server, max, s, room, data, opcode, r,
             Receipt(Got(Message(FirstOpcode(fs, opcode), data + Payloads(fs))), tail, Pings(fs[1..])));
    } else {
      assert after == tail && data + Payloads(fs) == data + f.payload;
    }
  }

  // --------------------------------------------------------- where it breaks down

  lemma StopIsNoMessage(host: Endian, server: bool, max: nat, h: Head, data: seq<byte>, s: seq<byte>)
    ensures var r := StoreFrame(host, server, max, h, data, s);
            r.Stop? ==> !r.outcome.Got?
  {
  }

  /** A finished data frame from a little-endian machine is a CLOSE to a big-endian one. */
  lemma LittleToBigCloses(server: bool, max: nat, f: Frame, tail: seq<byte>, room: nat, data: seq<byte>, opcode: nat)
    requires f.Data? && FrameOk(f) && IsData(f.opcode) && f.fin
    ensures Round(Big, server, max, FrameBytes(Little, f) + tail, room, data, opcode) == End(Closed, [])
  {
    hide StoreFrame, LengthBytes, Body;
    FrameSplit(Little, f, tail);
    assert HeadBytes(Little, FrameHead(f))[0] == f.opcode + 128;
  }

  /** A data frame from a big-endian machine is never finished to a little-endian one. */
  lemma BigToLittleNeverFinishes(server: bool, max: nat, f: Frame, tail: seq<byte>, room: nat, data: seq<byte>,
                                 opcode: nat)
    requires f.Data? && FrameOk(f) && IsData(f.opcode)
    ensures var r := Round(Little, server, max, FrameBytes(Big, f) + tail, room, data, opcode);
            r.End? ==> !r.outcome.Got?
  {
    hide StoreFrame, LengthBytes, Body;
    FrameSplit(Big, f, tail);
    var s := FrameBytes(Big, f) + tail;
    assert HeadBytes(Big, FrameHead(f))[0] < 128;
    StopIsNoMessage(Little, server, max, ParseHead(Little, s[0], s[1]), data, s[2..]);
  }

  /** Because the header is sent as it lies in memory, a finished frame that the
      receiver would accept is taken for what it is exactly if both machines have the
      same byte order. */
  lemma ReceivedIffSameHost(sender: Endian, receiver: Endian, server: bool, max: nat, f: Frame, tail: seq<byte>,
                            room: nat, data: seq<byte>, opcode: nat)
    requires f.Data? && Acceptable(f, server) && f.fin && |data| + |f.payload| < max && |data| < 0x8000_0000
    ensures Round(receiver, server, max, FrameBytes(sender, f) + tail, room, data, opcode)
            == AfterFrame(f, tail, data, opcode)
            <==> sender == receiver
  {
    hide Round, FrameBytes;
    if sender == receiver {
      RoundOnData(receiver, server, max, f, tail, room, data, opcode);
    } else if sender.Little? {
      LittleToBigCloses(server, max, f, tail, room, data, opcode);
    } else {
      BigToLittleNeverFinishes(server, max, f, tail, room, data, opcode);
    }
  }

  lemma {:induction false} LowZeros(bs: seq<byte>, k: nat)
    requires k <= |bs| && forall i :: 0 <= i < k ==> bs[i] == 0
    ensures FromLittle(bs) == Pow256(k) * FromLittle(bs[k..])
  {
    if k == 0 {
      assert bs[0..] == bs;
    } else {
      LowZeros(bs[1..], k - 1);
      assert bs[1..][k - 1..] == bs[k..];
      assert Pow256(k) * FromLittle(bs[k..]) == 256 * (Pow256(k - 1) * FromLittle(bs[k..]));
    }
  }

  lemma {:induction false} NonZeroByte(bs: seq<byte>, i: nat)
    requires i < |bs| && bs[i] > 0
    ensures FromLittle(bs) > 0
  {
    if i > 0 {
      NonZeroByte(bs[1..], i - 1);
    }
  }

  lemma {:induction false} SmallIsShort(v: nat, n: nat, k: nat)
    requires k <= n && v < Pow256(k)
    ensures forall i :: k <= i < n ==> LittleBytes(v, n)[i] == 0
    ensures v > 0 ==> exists i :: 0 <= i < k && LittleBytes(v, n)[i] > 0
  {
    if k == 0 {
      if n > 0 {
        SmallIsShort(0, n - 1, 0);
      }
    } else {
      SmallIsShort(v / 256, n - 1, k - 1);
      if 0 < v && v % 256 == 0 {
        var i :| 0 <= i < k - 1 && LittleBytes(v / 256, n - 1)[i] > 0;
        assert LittleBytes(v, n)[i + 1] > 0;
      } else if v > 0 {
        assert LittleBytes(v, n)[0] > 0;
      }
    }
  }

  /** A 64-bit length under 2^32 is read back byte-reversed, as one of at least 2^32. */
  lemma LongLengthMisread(host: Endian, n: nat)
    requires 0 < n < M32
    ensures FixedRead(host, Big, FixedWrite(host, Little, n, 8)) >= M32
  {
    hide FixedWrite, LittleBytes, FromLittle, Pow256;
    Widths();
    var bs := LittleBytes(n, 8);
    FixedWriteOrder(host, Little, n, 8);
    BigReadsReverse(host, bs);
    SmallIsShort(n, 8, 4);
    var back := Reverse(bs);
    LowZeros(back, 4);
    var i :| 0 <= i < 4 && bs[i] > 0;
    assert back[4..][3 - i] == bs[i];
    NonZeroByte(back[4..], 3 - i);
  }

  lemma BigReadsReverse(host: Endian, bs: seq<byte>)
    ensures FixedRead(host, Big, bs) == FromLittle(Reverse(bs))
  {
    FromLittleRoundTrip(bs);
  }

  lemma LongIsTooBig(length: nat, max: nat)
    requires max < M32 <= length < M64
    ensures TooBig([], length, max)
  {
  }

  lemma LongFrameRefused(host: Endian, server: bool, max: nat, f: Frame, tail: seq<byte>)
    requires f.Data? && FrameOk(f) && max < M32 && 65536 <= |f.payload| < M32
    ensures var s := LengthBytes(host, |f.payload|) + (f.key + (Body(f.payload, f.key) + tail));
            StoreFrame(host, server, max, FrameHead(f), [], s) == Stop(Closed)
  {
    var n := |f.payload|;
    var len := LengthBytes(host, n);
    var s := len + (f.key + (Body(f.payload, f.key) + tail));
    assert s[..8] == len;
    LongLengthMisread(host, n);
    LengthBound(host, 127, s);
    var length := FixedRead(host, Big, s[..8]);
    assert M32 <= length < M64;
    LongIsTooBig(length, max);
  }

  lemma EmptyFrameRefused(host: Endian, server: bool, max: nat, f: Frame, tail: seq<byte>)
    requires f.Data? && FrameOk(f) && f.payload == []
    ensures var s := LengthBytes(host, |f.payload|) + (f.key + (Body(f.payload, f.key) + tail));
            StoreFrame(host, server, max, FrameHead(f), [], s) == Stop(Closed)
  {
  }

  lemma RoundRefuses(host: Endian, server: bool, max: nat, f: Frame, tail: seq<byte>, room: nat)
    requires f.Data? && FrameOk(f) && IsData(f.opcode) && max < M32
    requires |f.payload| == 0 || 65536 <= |f.payload| < M32
    ensures Round(host, server, max, FrameBytes(host, f) + tail, room, [], 0) == End(Closed, [])
  {
    var s := LengthBytes(host, |f.payload|) + (f.key + (Body(f.payload, f.key) + tail));
    assert FrameBytes(host, f) + tail == HeadBytes(host, FrameHead(f)) + s;
    HeadFirst(host, FrameHead(f), s);
    if |f.payload| == 0 {
      EmptyFrameRefused(host, server, max, f, tail);
    } else {
      LongFrameRefused(host, server, max, f, tail);
    }
  }

  lemma LastRound(host: Endian, server: bool, max: nat, s: seq<byte>, room: nat, data: seq<byte>, opcode: nat,
                  outcome: Outcome, left: seq<byte>)
    requires Round(host, server, max, s, room, data, opcode) == End(outcome, left)
    ensures Receive(host, server, max, s, room, data, opcode) == Receipt(outcome, left, 0)
  {
  }

  /** A finished frame within the limit is received exactly when its payload is neither
      empty nor 65536 bytes or more; otherwise the connection is closed. */
  lemma SingleFrameReceivedIff(host: Endian, server: bool, max: nat, f: Frame, tail: seq<byte>, room: nat, s: seq<byte>)
    requires f.Data? && FrameOk(f) && f.fin && IsData(f.opcode) && (server ==> |f.key| == 4)
    requires |f.payload| < max < M32 && s == FrameBytes(host, f) + tail
    ensures Receive(host, server, max, s, room, [], 0)
            == if 0 < |f.payload| < 65536 then Receipt(Got(Message(f.opcode, f.payload)), tail, 0)
              else Receipt(Closed, [], 0)
  {
    hide Round, FrameBytes, Receive;
    if 0 < |f.payload| < 65536 {
      RoundOnData(host, server, max, f, tail, room, [], 0);
      assert [] + f.payload == f.payload;
      LastRound(host, server, max, s, room, [], 0, Got(Message(f.opcode, f.payload)), tail);
    } else {
      RoundRefuses(host, server, max, f, tail, room);
      LastRound(host, server, max, s, room, [], 0, Closed, []);
    }
  }

  /** The header, length and mask of an unfinished masked frame announcing `n` bytes. */
  function LongStart(host: Endian, n: nat): seq<byte> {
    HeadBytes(host, Head(BIN_FRAME, 0, false, 127, true)) + (FixedWrite(host, Big, n, 8) + ([0, 0, 0, 0]))
  }

  lemma StoreLong(host: Endian, server: bool, max: nat, n: nat, s: seq<byte>, data: seq<byte>)
    requires n < M64
    ensures StoreFrame(host, server, max, Head(BIN_FRAME, 0, false, 127, true), data,
            FixedWrite(host, Big, n, 8) + ([0, 0, 0, 0] + s))
            == if TooBig(data, n, max) then Stop(Closed) else StorePayload(data, n, [0, 0, 0, 0], s)
  {
    var len, key := FixedWrite(host, Big, n, 8), [0, 0, 0, 0];
    Apart(len, key, s);
    assert (len + (key + s))[..8] == len;
    Widths();
    FixedRoundTrip(host, Big, n, 8);
  }

  lemma RoundOnLong(host: Endian, server: bool, max: nat, n: nat, room: nat, s: seq<byte>, data: seq<byte>,
                    opcode: nat, st: Stored)
    requires n < M64 && !TooBig(data, n, max) && st == StorePayload(data, n, [0, 0, 0, 0], s)
    ensures var r := Round(host, server, max, LongStart(host, n) + s, room, data, opcode);
            r == if st.Kept? then Next(st.rest, st.data, if opcode == 0 then BIN_FRAME else opcode, false)
              else End(st.outcome, [])
  {
    var h := Head(BIN_FRAME, 0, false, 127, true);
    var len, key := FixedWrite(host, Big, n, 8), [0, 0, 0, 0];
    var after := len + (key + s);
    assert LongStart(host, n) + s == HeadBytes(host, h) + after by {
      Assoc(HeadBytes(host, h), len + key, s);
      Assoc(len, key, s);
    }
    HeadFirst(host, h, after);
    StoreLong(host, server, max, n, s, data);
  }

  function Zeros(n: nat): seq<byte> { seq(n, _ => 0) }

  lemma StoreZeros(data: seq<byte>, n: nat, max: nat, tail: seq<byte>) returns (data': seq<byte>)
    requires 0 < n < 0x8000_0000 && |data| < 0x8000_0000 && |data| + n < max
    ensures |data'| == |data| + n && !TooBig(data, n, max)
    ensures StorePayload(data, n, [0, 0, 0, 0], Zeros(n) + tail) == Kept(data', tail)
  {
    var s := Zeros(n) + tail;
    assert s[n..] == tail;
    assert Int32(n) == n && Int32(|data|) == |data|;
    data' := StorePayload(data, n, [0, 0, 0, 0], s).data;
  }

  lemma LongKept(host: Endian, server: bool, max: nat, n: nat, room: nat, s: seq<byte>, tail: seq<byte>,
                 data: seq<byte>, opcode: nat)
      returns (data': seq<byte>)
    requires 0 < n < 0x8000_0000 && |data| < 0x8000_0000 && |data| + n < max
    requires s == LongStart(host, n) + (Zeros(n) + tail)
    ensures |data'| == |data| + n
    ensures Round(host, server, max, s, room, data, opcode)
            == Next(tail, data', if opcode == 0 then BIN_FRAME else opcode, false)
  {
    data' := StoreZeros(data, n, max, tail);
    RoundOnLong(host, server, max, n, room, Zeros(n) + tail, data, opcode, Kept(data', tail));
  }

  lemma NegativeIndex(data: seq<byte>, max: nat, s: seq<byte>)
    requires 0x8000_0000 < max && |data| == 0x8000_0000 && s != []
    ensures !TooBig(data, 0x8000_0000, max) && StorePayload(data, 0x8000_0000, [0, 0, 0, 0], s) == Stop(Corrupt)
  {
    assert Int32(|data|) == -0x8000_0000;
  }

  /** A third fragment, when two have made 2^31 bytes. */
  lemma LongCorrupts(host: Endian, server: bool, max: nat, room: nat, s: seq<byte>, data: seq<byte>, opcode: nat)
    requires 0x8000_0000 < max && |data| == 0x8000_0000 && s == LongStart(host, 0x8000_0000) + [0]
    ensures Receive(host, server, max, s, room, data, opcode) == Receipt(Corrupt, [], 0)
  {
    NegativeIndex(data, max, [0]);
    RoundOnLong(host, server, max, 0x8000_0000, room, [0], data, opcode, Stop(Corrupt));
    LastRound(host, server, max, s, room, data, opcode, Corrupt, []);
  }

  /** With a limit over 2^31, two fragments of 2^30 bytes and the start of a third make
      the loop store before its buffer. */
  lemma CorruptReached(host: Endian, server: bool, max: nat, room: nat) returns (s: seq<byte>)
    requires 0x8000_0000 < max
    ensures Receive(host, server, max, s, room, [], 0).outcome == Corrupt
  {
    var n := 0x4000_0000;
    var s3 := LongStart(host, 0x8000_0000) + [0];
    var s2 := LongStart(host, n) + (Zeros(n) + s3);
    s := LongStart(host, n) + (Zeros(n) + s2);
    var d1 := LongKept(host, server, max, n, room, s, s2, [], 0);
    var d2 := LongKept(host, server, max, n, room, s2, s3, d1, BIN_FRAME);
    LongCorrupts(host, server, max, room, s3, d2, BIN_FRAME);
    Unroll(host, server, max, s2, room, d1, BIN_FRAME, Next(s3, d2, BIN_FRAME, false), Receipt(Corrupt, [], 0));
    Unroll(host, server, max, s, room, [], 0, Next(s2, d1, BIN_FRAME, false), Receipt(Corrupt, [], 0));
  }

  /** Some peer can make the loop store outside its buffer exactly when the limit is
      over 2^31. */
  lemma CorruptIff(host: Endian, server: bool, max: nat, room: nat)
    ensures (exists s :: Receive(host, server, max, s, room, [], 0).outcome == Corrupt) <==> max > 0x8000_0000
  {
    if max > 0x8000_0000 {
      var s := CorruptReached(host, server, max, room);
    } else {
      forall s
        ensures Receive(host, server, max, s, room, [], 0).outcome != Corrupt
      {
        NeverCorrupt(host, server, max, s, room, [], 0);
      }
    }
  }
}
