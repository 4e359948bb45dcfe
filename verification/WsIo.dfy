/** `Stream`'s fixed-size transfers over short reads and writes, and the WebSocket
    operations of `WSSession` and `WSConnection` on top of them. */
module WsIo {
  import opened Wrappers
  import opened Bytes
  import opened Codec
  import opened WsFrames

  /** `WSFrameMessage`. */
  class FrameMessage {
    var opcode: nat
    var data: seq<byte>

    constructor (opcode: nat, data: seq<byte>)
      ensures this.opcode == opcode && this.data == data
    {
      this.opcode, this.data := opcode, data;
    }

    /** The client's masking loop. */
    method MaskInPlace(key: seq<byte>)
      requires |key| == 4
      modifies this`data
      ensures data == Masked(old(data), key)
    {
      hide XorByte;
      ghost var masked := Masked(data, key);
      var i := 0;
      while i < |data|
        invariant 0 <= i <= |data| == |masked|
        invariant forall j :: 0 <= j < |data| ==> data[j] == if j < i then masked[j] else old(data)[j]
      {
        data := data[i := XorByte(data[i], key[i % 4])];
        i := i + 1;
      }
    }
  }

  /** The first bytes of `w`, up to `n`. */
  function Prefix(w: seq<byte>, n: nat): seq<byte> { if |w| <= n then w else w[..n] }

  lemma PrefixAppend(out: seq<byte>, a: seq<byte>, b: seq<byte>, n: nat)
    requires |a| <= n
    ensures (out + a) + Prefix(b, n - |a|) == out + Prefix(a + b, n)
  {
  }

  lemma PrefixCut(a: seq<byte>, b: seq<byte>, n: nat)
    requires n < |a|
    ensures Prefix(a + b, n) == Prefix(a, n)
  {
  }

  /** Two transfers in a row. */
  lemma MoreTaken(buf: seq<byte>, at: nat, s: seq<byte>, offset: nat, k: nat)
    requires offset + k <= |s| && at + offset + k <= |buf|
    ensures s[offset..][k..] == s[offset + k..]
    ensures Splice(Splice(buf, at, s[..offset]), at + offset, s[offset..][..k]) == Splice(buf, at, s[..offset + k])
  {
    SpliceSplice(buf, at, s[..offset], s[offset..][..k]);
    assert s[..offset] + s[offset..][..k] == s[..offset + k];
  }

  /** A connected stream: the bytes still to arrive before a read fails, the bytes
      written, and how many more it takes before a write fails. Each read and write
      moves some positive number of bytes of its own choosing. Closing is recorded. */
  class Stream {
    const host: Endian
    const server: bool
    var input: seq<byte>
    var output: seq<byte>
    var room: nat
    var closed: bool

    constructor (host: Endian, server: bool, input: seq<byte>, room: nat)
      ensures this.host == host && this.server == server && this.input == input && this.room == room
      ensures output == [] && !closed
    {
      this.host, this.server, this.input, this.room := host, server, input, room;
      output, closed := [], false;
    }

    method Read(buf: array<byte>, at: nat, n: nat) returns (k: int)
      requires 0 < n && at + n <= buf.Length
      modifies this`input, buf
      ensures k <= 0 <==> old(input) == []
      ensures k <= 0 ==> input == [] && buf[..] == old(buf[..])
      ensures k > 0 ==> k <= n && k <= |old(input)| && input == old(input)[k..]
      ensures k > 0 ==> buf[..] == Splice(old(buf[..]), at, old(input)[..k])
    {
      if input == [] {
        k :| k == 0 || k == -1;
        return;
      }
      k :| 1 <= k <= n && k <= |input|;
      forall i | 0 <= i < k { buf[at + i] := input[i]; }
      input := input[k..];
    }

    /** `read_fixed_size(buffer + at, len)`, for every 64-bit `len`. */
    method ReadFixedSize(buf: array<byte>, at: nat, len: nat) returns (r: int)
      requires len < M64 && (len < 0x8000_0000_0000_0000 ==> at + len <= buf.Length)
      modifies this`input, buf
      ensures len >= 0x8000_0000_0000_0000 ==> r == Int32(len) && input == old(input) && buf[..] == old(buf[..])
      ensures len <= |old(input)| && len < 0x8000_0000_0000_0000 ==>
                r == Int32(len) && input == old(input)[len..] && buf[..] == Splice(old(buf[..]), at, old(input)[..len])
      ensures |old(input)| < len < 0x8000_0000_0000_0000 ==> r <= 0 && input == []
    {
      hide Int32, Splice;
      if len < 0x8000_0000_0000_0000 {
        SpliceNothing(buf[..], at);
      }
      assert input == input[0..];
      var offset: nat := 0;
      var left := if len < 0x8000_0000_0000_0000 then len else len - 0x1_0000_0000_0000_0000;
      while left > 0
        invariant len >= 0x8000_0000_0000_0000 ==> left < 0 && input == old(input) && buf[..] == old(buf[..])
        invariant len < 0x8000_0000_0000_0000 ==>
                    left >= 0 && offset == len - left && offset <= |old(input)|
                    && input == old(input)[offset..] && buf[..] == Splice(old(buf[..]), at, old(input)[..offset])
        decreases left
      {
        var k := Read(buf, at + offset, left);
        if k <= 0 {
          return k;
        }
        MoreTaken(old(buf[..]), at, old(input), offset, k);
        offset := offset + k;
        left := left - k;
      }
      return Int32(len);
    }

    method Write(data: seq<byte>) returns (k: int)
      requires data != []
      modifies this`output, this`room
      ensures k <= 0 <==> old(room) == 0
      ensures k <= 0 ==> output == old(output) && room == 0
      ensures k > 0 ==> k <= |data| && k <= old(room) && room == old(room) - k && output == old(output) + data[..k]
    {
      if room == 0 {
        k :| k == 0 || k == -1;
        return;
      }
      k :| 1 <= k <= |data| && k <= room;
      output, room := output + data[..k], room - k;
    }

    /** `write_fixed_size(data, len)`. */
    method WriteFixedSize(data: seq<byte>) returns (r: int)
      requires |data| < 0x8000_0000_0000_0000
      modifies this`output, this`room
      ensures output == old(output) + Prefix(data, old(room))
      ensures room == if |data| <= old(room) then old(room) - |data| else 0
      ensures if |data| <= old(room) then r == Int32(|data|) else r <= 0
    {
      var offset, left := 0, |data|;
      while left > 0
        invariant offset + left == |data| && offset <= old(room) && left >= 0
        invariant room == old(room) - offset && output == old(output) + data[..offset]
        decreases left
      {
        var k := Write(data[offset..]);
        if k <= 0 {
          return k;
        }
        assert data[..offset] + data[offset..][..k] == data[..offset + k];
        Assoc(old(output), data[..offset], data[offset..][..k]);
        offset, left := offset + k, left - k;
      }
      assert data[..offset] == data;
      return Int32(|data|);
    }

    // ------------------------------------------------------------- receiving

    /** A fixed-size read into a local variable. */
    method Take(n: nat) returns (ok: bool, bs: seq<byte>)
      requires 0 < n <= 8
      modifies this`input
      ensures ok <==> n <= |old(input)|
      ensures ok ==> bs == old(input)[..n] && input == old(input)[n..]
      ensures !ok ==> input == []
    {
      var buf := new byte[n](_ => 0);
      var r := ReadFixedSize(buf, 0, n);
      ok, bs := r > 0, buf[..];
    }

    /** The extended length of a data frame. */
    method TakeLength(payload: nat) returns (r: Option<nat>)
      requires payload < 128
      modifies this`input
      ensures match ParseLength(host, payload, old(input))
              case None => r == None
              case Some(Parsed(length, k)) => r == Some(length) && input == old(input)[k..]
    {
      if payload == 126 {
        var ok, bs := Take(2);
        r := if ok then Some(FixedRead(host, Big, bs)) else None;
      } else if payload == 127 {
        var ok, bs := Take(8);
        r := if ok then Some(FixedRead(host, Big, bs)) else None;
      } else {
        r := Some(payload);
      }
    }

    /** `data.resize(cur_len + length)`, the read and the unmasking loop. Storing at a
        negative index and unmasking a payload that was never read end the model. */
    method TakePayload(data: seq<byte>, cur: int, length: nat, key: seq<byte>, max: nat) returns (r: Stored)
      requires cur == Int32(|data|) && |data| < M32 && length < M64 && max < M32 && (|key| == 0 || |key| == 4)
      requires !TooBig(data, length, max)
      modifies this`input
      ensures r == StorePayload(data, length, key, old(input))
      ensures r.Kept? ==> input == r.rest
    {
      if cur < 0 && 0 < length < 0x8000_0000_0000_0000 {
        return Stop(if input == [] then Closed else Corrupt);
      }
      var at := if cur < 0 then 0 else cur;
      var buf := Resized(data, (cur + length) % 0x1_0000_0000_0000_0000);
      var n := ReadFixedSize(buf, at, length);
      if n <= 0 {
        return Stop(Closed);
      }
      if length >= 0x8000_0000_0000_0000 {
        return Stop(Corrupt);
      }
      LengthFits(cur, length, max);
      FillTail(data, Zeros(length), old(input)[..length]);
      if |key| == 4 {
        Unmask(buf, at, n, key);
        FillTail(data, old(input)[..length], Masked(old(input)[..length], key));
      }
      return Kept(buf[..], input);
    }

    method TakeFrame(h: Head, data: seq<byte>, cur: int, max: nat) returns (r: Stored)
      requires cur == Int32(|data|) && |data| < M32 && HeadOk(h) && max < M32
      modifies this`input
      ensures r == StoreFrame(host, server, max, h, data, old(input))
      ensures r.Kept? ==> input == r.rest
    {
      if server && !h.mask {
        return Stop(Closed);
      }
      LengthBound(host, h.payload, input);
      ghost var parsed := ParseLength(host, h.payload, input);
      var length := TakeLength(h.payload);
      if length.None? {
        return Stop(Closed);
      }
      if (cur + length.value) % 0x1_0000_0000_0000_0000 >= max {
        return Stop(Closed);
      }
      if h.mask {
        var ok, key := Take(4);
        if !ok {
          return Stop(Closed);
        }
        assert key == old(input)[parsed.value.used..parsed.value.used + 4];
        assert input == old(input)[parsed.value.used + 4..];
        r := TakePayload(data, cur, length.value, key, max);
      } else {
        r := TakePayload(data, cur, length.value, [], max);
      }
    }

    method Close()
      modifies this`closed
      ensures closed
    {
      closed := true;
    }

    method WriteHead(h: Head) returns (v: int)
      requires HeadOk(h)
      modifies this`output, this`room
      ensures output == old(output) + Prefix(HeadBytes(host, h), old(room))
      ensures room == if old(room) < 2 then 0 else old(room) - 2
      ensures if old(room) < 2 then v <= 0 else v == 2
    {
      var head := HeadBytes(host, h);
      assert |head| == 2;
      v := WriteFixedSize(head);
    }

    /** `ping`, which unlike `pong` does not close on a result of zero. */
    method Ping() returns (v: int)
      modifies this`output, this`room, this`closed
      ensures output == old(output) + Prefix(PingBytes(host), old(room))
      ensures room == if old(room) < 2 then 0 else old(room) - 2
      ensures if old(room) < 2 then v <= 0 else v == 2
      ensures closed == (old(closed) || v < 0)
    {
      v := WriteHead(Head(PING, 0, true, 0, false));
      if v < 0 {
        Close();
      }
    }

    method Pong() returns (v: int)
      modifies this`output, this`room, this`closed
      ensures output == old(output) + Prefix(PongBytes(host), old(room))
      ensures room == if old(room) < 2 then 0 else old(room) - 2
      ensures if old(room) < 2 then v <= 0 else v == 2
      ensures closed == (old(closed) || v <= 0)
    {
      v := WriteHead(Head(PONG, 0, true, 0, false));
      if v <= 0 {
        Close();
      }
    }

    /** One turn of the receive loop. */
    method RecvRound(max: nat, data: seq<byte>, cur: int, opcode: nat) returns (r: Step)
      requires cur == Int32(|data|) && |data| < M32 && max < M32
      modifies this`input, this`output, this`room, this`closed
      ensures r == Round(host, server, max, old(input), old(room) / 2, data, opcode)
      ensures r.Next? && r.pong ==> room == old(room) - 2 && output == old(output) + PongBytes(host)
      ensures !(r.Next? && r.pong) && r != End(Closed, []) ==> room == old(room) && output == old(output)
      ensures r.Next? || r.outcome.Got? ==> input == r.left && closed == old(closed)
    {
      var ok, head := Take(2);
      if !ok {
        return End(Closed, []);
      }
      var h := ParseHead(host, head[0], head[1]);
      if h.opcode == PING {
        var v := Pong();
        if v <= 0 {
          return End(Closed, []);
        }
        return Next(input, data, opcode, true);
      } else if IsData(h.opcode) {
        var stored := TakeFrame(h, data, cur, max);
        if stored.Stop? {
          return End(stored.outcome, []);
        }
        var op := if opcode == 0 && h.opcode != CONTINUE then h.opcode else opcode;
        if h.fin {
          return End(Got(Message(op, stored.data)), input);
        }
        return Next(input, stored.data, op, false);
      } else if h.opcode == CLOSE {
        return End(Closed, []);
      }
      return Next(input, data, opcode, false);
    }

    /** One turn, and what it leaves for the turns to come. */
    method RecvStep(max: nat, data: seq<byte>, cur: int, opcode: nat, ghost all: Receipt) returns (r: Step)
      requires cur == Int32(|data|) && |data| < M32 && max < M32
      requires all == Receive(host, server, max, input, room / 2, data, opcode)
      modifies this`input, this`output, this`room, this`closed
      ensures r.End? ==> all == Receipt(r.outcome, r.left, 0)
      ensures r.End? && r.outcome.Got? ==>
                input == r.left && room == old(room) && output == old(output) && closed == old(closed)
      ensures r.Next? ==> |r.data| < M32 && |input| < |old(input)| && closed == old(closed)
      ensures r.Next? && !r.pong ==> room == old(room) && output == old(output)
      ensures r.Next? && r.pong ==> room == old(room) - 2 && output == old(output) + PongBytes(host)
      ensures r.Next? ==> var rest := Receive(host, server, max, input, room / 2, r.data, r.opcode);
                          all == if r.pong then MorePongs(rest, 1) else rest
    {
      hide Round, Receive;
      KeepsSmall(host, server, max, input, room / 2, data, opcode);
      r := RecvRound(max, data, cur, opcode);
      if r.End? {
        LastRound(host, server, max, old(input), old(room) / 2, data, opcode, r.outcome, r.left);
      } else {
        ghost var room' := if r.pong then old(room) / 2 - 1 else old(room) / 2;
        if r.pong {
          HalfOf(old(room));
        }
        assert room' == room / 2;
        ghost var rest := Receive(host, server, max, r.left, room', r.data, r.opcode);
        Unroll(host, server, max, old(input), old(room) / 2, data, opcode, r, rest);
      }
    }

    /** `recv_message`: whatever the sizes of the single reads and writes, its outcome,
        what it consumes and the pongs it sends are those of `Receive`. */
    method RecvMessage(max: nat) returns (outcome: Outcome)
      requires max < M32
      modifies this`input, this`output, this`room, this`closed
      ensures var r := Receive(host, server, max, old(input), old(room) / 2, [], 0);
              && outcome == r.outcome
              && (outcome.Got? ==> input == r.rest && output == old(output) + Pongs(host, r.pongs)
                                   && room == old(room) - 2 * r.pongs && closed == old(closed))
              && (outcome.Closed? ==> closed)
    {
      hide Round, Receive;
      var opcode: nat, data: seq<byte>, cur := 0, [], 0;
      ghost var pongs: nat := 0;
      ghost var all := Receive(host, server, max, input, room / 2, [], 0);
      ghost var rest := all;
      while true
        invariant cur == Int32(|data|) && |data| < M32
        invariant room == old(room) - 2 * pongs && closed == old(closed)
        invariant output == old(output) + Pongs(host, pongs)
        invariant rest == Receive(host, server, max, input, room / 2, data, opcode)
        invariant MorePongs(rest, pongs) == all
        decreases |input|
      {
        var r := RecvStep(max, data, cur, opcode, rest);
        if r.End? {
          outcome := r.outcome;
          if outcome.Closed? {
            Close();
          }
          return;
        }
        if r.pong {
          PongsNext(host, old(output), pongs);
          pongs := pongs + 1;
        }
        data, opcode, cur := r.data, r.opcode, Int32(|r.data|);
        rest := Receive(host, server, max, input, room / 2, data, opcode);
      }
    }

    // --------------------------------------------------------------- sending

    /** One more part of a frame `done + part + rest`. */
    method Put(part: seq<byte>, ghost start: seq<byte>, ghost done: seq<byte>, ghost rest: seq<byte>,
               ghost room0: nat) returns (r: int)
      requires |part| < 0x8000_0000_0000_0000
      requires output == start + done && room == room0 - |done|
      modifies this`output, this`room
      ensures if |done + part| <= room0 then r == Int32(|part|) && output == start + (done + part)
              && room == room0 - |done + part|
              else r <= 0 && room == 0 && output == start + Prefix((done + part) + rest, room0)
    {
      r := WriteFixedSize(part);
      PrefixAppend(start, done, part, room0);
      if |done + part| > room0 {
        PrefixCut(done + part, rest, room0);
      }
    }

    /** The stages of `send_message`: the header, the length and, on the client's side,
        the masking and the key, then the payload. */
    method PutFrame(head: seq<byte>, len: seq<byte>, key: seq<byte>, msg: FrameMessage, ghost w: seq<byte>)
        returns (ok: bool)
      requires |head| == 2 && |len| <= 8 && (|key| == 0 || |key| == 4) && |msg.data| < 0x8000_0000_0000_0000
      requires w == ((head + len) + key) + Body(msg.data, key)
      modifies this`output, this`room, msg`data
      ensures output == old(output) + Prefix(w, old(room))
      ensures room == if |w| <= old(room) then old(room) - |w| else 0
      ensures ok <==> |w| <= old(room) && Int32(|old(msg.data)|) > 0
      ensures ok ==> msg.data == Body(old(msg.data), key)
    {
      ghost var start, room0, body := output, room, Body(msg.data, key);
      assert output == start + [];
      Assoc(head, len, key + body);
      Assoc(head + len, key, body);
      assert [] + head == head;
      var r := Put(head, start, [], len + (key + body), room0);
      if r <= 0 {
        return false;
      }
      if |len| > 0 {
        r := Put(len, start, head, key + body, room0);
        if r <= 0 {
          return false;
        }
      }
      assert head + [] == head;
      if |key| > 0 {
        msg.MaskInPlace(key);
        r := Put(key, start, head + len, body, room0);
        if r <= 0 {
          return false;
        }
      }
      assert (head + len) + [] == head + len;
      r := Put(msg.data, start, (head + len) + key, [], room0);
      assert w + [] == w;
      ok := r > 0;
    }

    /** `send_message` of the server (`key` empty) and of the client (`key` random,
        and the message left masked). A frame without payload is sent and then
        reported as a failure. */
    method SendMessage(msg: FrameMessage, fin: bool, key: seq<byte>) returns (r: int)
      requires |key| == (if server then 0 else 4) && |msg.data| < 0x8000_0000_0000_0000
      modifies this`output, this`room, this`closed, msg`data
      ensures var w := FrameBytes(host, Data(old(msg.opcode) % 16, fin, key, old(msg.data)));
              var ok := |w| <= old(room) && Int32(|old(msg.data)|) > 0;
              && output == old(output) + Prefix(w, old(room))
              && room == (if |w| <= old(room) then old(room) - |w| else 0)
              && r == (if ok then Int32(|old(msg.data)| + 2) else -1)
              && closed == (old(closed) || !ok)
              && (ok ==> msg.data == Body(old(msg.data), key))
    {
      var size := |msg.data|;
      var head := HeadBytes(host, Head(msg.opcode % 16, 0, fin, ShortLength(size), !server));
      var len := LengthBytes(host, size);
      ghost var w := FrameBytes(host, Data(msg.opcode % 16, fin, key, msg.data));
      Assoc(head, len, key + Body(msg.data, key));
      Assoc(head + len, key, Body(msg.data, key));
      var ok := PutFrame(head, len, key, msg, w);
      if ok {
        return Int32(size + 2);
      }
      Close();
      return -1;
    }

    method SendData(f: Frame, ghost code: seq<byte>) returns (r: int)
      requires FrameOk(f) && IsCode(host, f, code) && |code| <= room
      requires f.Data? && |f.key| == (if server then 0 else 4) && 0 < |f.payload| < 65536
      modifies this`output, this`room, this`closed
      ensures output == old(output) + code && room == old(room) - |code| && r > 0 && closed == old(closed)
    {
      var msg := new FrameMessage(f.opcode, f.payload);
      SmallLength(|f.payload|);
      assert f == Data(msg.opcode % 16, f.fin, f.key, msg.data);
      r := SendMessage(msg, f.fin, f.key);
    }

    /** A frame by the operation that sends frames of its kind. */
    method SendFrame(f: Frame, ghost code: seq<byte>) returns (r: int)
      requires FrameOk(f) && IsCode(host, f, code) && |code| <= room
      requires f.Data? ==> |f.key| == (if server then 0 else 4) && 0 < |f.payload| < 65536
      modifies this`output, this`room, this`closed
      ensures output == old(output) + code && room == old(room) - |code| && r > 0 && closed == old(closed)
    {
      if f.Data? {
        r := SendData(f, code);
      } else {
        ControlBytes(host, f);
        if f.Ping? {
          r := Ping();
        } else {
          r := Pong();
        }
      }
    }
  }

  /** The two bytes of a finished frame without payload. */
  function PingBytes(host: Endian): seq<byte> { if host.Little? then [137, 0] else [145, 0] }

  function PongBytes(host: Endian): seq<byte> { if host.Little? then [138, 0] else [161, 0] }

  /** `n` pongs as bytes. */
  function Pongs(host: Endian, n: nat): seq<byte> { if n == 0 then [] else Pongs(host, n - 1) + PongBytes(host) }

  lemma {:induction false} PongsNext(host: Endian, out: seq<byte>, n: nat)
    ensures (out + Pongs(host, n)) + PongBytes(host) == out + Pongs(host, n + 1)
  {
    Assoc(out, Pongs(host, n), PongBytes(host));
  }

  lemma HalfOf(n: nat)
    requires n >= 2
    ensures (n - 2) / 2 == n / 2 - 1
  {
  }

  lemma ControlHeads(host: Endian)
    ensures HeadBytes(host, Head(PING, 0, true, 0, false)) == PingBytes(host)
    ensures HeadBytes(host, Head(PONG, 0, true, 0, false)) == PongBytes(host)
  {
  }

  /** The two bytes of a ping and of a pong are their frames. */
  lemma ControlBytes(host: Endian, f: Frame)
    requires !f.Data?
    ensures FrameBytes(host, f) == if f.Ping? then PingBytes(host) else PongBytes(host)
  {
    ControlHeads(host);
    if f.Ping? {
      assert FrameHead(f) == Head(PING, 0, true, 0, false);
    } else {
      assert FrameHead(f) == Head(PONG, 0, true, 0, false);
    }
  }

  function MorePongs(r: Receipt, n: nat): Receipt { r.(pongs := r.pongs + n) }

  lemma KeepsSmall(host: Endian, server: bool, max: nat, s: seq<byte>, room: nat, data: seq<byte>, opcode: nat)
    requires |data| < M32 && max < M32
    ensures var r := Round(host, server, max, s, room, data, opcode);
            r.Next? ==> |r.data| < M32
  {
    if |s| >= 2 {
      KeptFits(host, server, max, ParseHead(host, s[0], s[1]), data, s[2..]);
    }
  }

  lemma LengthFits(cur: nat, length: nat, max: nat)
    requires cur < M32 && length < 0x8000_0000_0000_0000 && max < M32
    requires (cur + length) % 0x1_0000_0000_0000_0000 < max && Int32(length) > 0
    ensures Int32(length) == length && (cur + length) % 0x1_0000_0000_0000_0000 == cur + length
  {
  }

  lemma FillTail(data: seq<byte>, fill: seq<byte>, d: seq<byte>)
    requires |fill| == |d|
    ensures Splice(data + fill, |data|, d) == data + d
    ensures (data + d)[|data|..|data| + |d|] == d
  {
  }

  /** `std::string::resize`. */
  method Resized(data: seq<byte>, n: nat) returns (buf: array<byte>)
    ensures fresh(buf) && buf[..] == if n <= |data| then data[..n] else data + Zeros(n - |data|)
  {
    buf := new byte[n](i => if 0 <= i < |data| then data[i] else 0);
  }

  /** The unmasking loop. */
  method Unmask(buf: array<byte>, at: nat, n: nat, key: seq<byte>)
    requires at + n <= buf.Length && |key| == 4
    modifies buf
    ensures buf[..] == Splice(old(buf[..]), at, Masked(old(buf[at..at + n]), key))
  {
    ghost var masked := Masked(buf[at..at + n], key);
    var i := 0;
    while i < n
      invariant 0 <= i <= n
      invariant forall j :: 0 <= j < i ==> buf[at + j] == masked[j]
      invariant forall j :: 0 <= j < buf.Length && !(at <= j < at + i) ==> buf[j] == old(buf[j])
    {
      buf[at + i] := XorByte(buf[at + i], key[i % 4]);
      i := i + 1;
    }
  }

  lemma SmallLength(n: nat)
    requires n < 65536
    ensures Int32(n) == n && Int32(n + 2) == n + 2
  {
  }

  lemma {:induction false} ConcatNext(codes: seq<seq<byte>>, i: nat)
    requires i < |codes|
    ensures Concat(codes[..i + 1]) == Concat(codes[..i]) + codes[i]
    ensures |Concat(codes[..i + 1])| <= |Concat(codes)|
  {
    if i > 0 {
      ConcatNext(codes[1..], i - 1);
      assert codes[..i + 1][1..] == codes[1..][..i] && codes[..i][1..] == codes[1..][..i - 1];
      Assoc(codes[0], Concat(codes[1..][..i - 1]), codes[i]);
    } else {
      assert codes[..1][1..] == [];
      assert codes[0] + [] == codes[0] && [] + codes[0] == codes[0];
    }
  }

  /** The frames of one message, sent by one side with `send_message`, `ping` and `pong`
      and received by the other with `recv_message`, for every pattern of short writes
      and reads. The two machines must have the same byte order. */
  method Deliver(sender: Stream, receiver: Stream, fs: seq<Frame>, max: nat, ghost codes: seq<seq<byte>>)
      returns (outcome: Outcome)
    requires sender != receiver && sender.server != receiver.server && sender.host == receiver.host
             && sender.output == []
    requires IsMessage(fs, receiver.server) && Coded(sender.host, fs, codes) && max < M32
    requires forall i :: 0 <= i < |fs| && fs[i].Data? ==> |fs[i].key| == (if sender.server then 0 else 4)
    requires |Payloads(fs)| < max && |Payloads(fs)| < 0x8000_0000
    requires |Concat(codes)| <= sender.room && 2 * Pings(fs) <= receiver.room
    modifies sender, receiver
    ensures outcome == Got(Message(FirstOpcode(fs, 0), Payloads(fs)))
    ensures receiver.input == [] && receiver.closed == old(receiver.closed)
    ensures receiver.output == old(receiver.output) + Pongs(receiver.host, Pings(fs))
  {
    var i := 0;
    while i < |fs|
      invariant 0 <= i <= |fs|
      invariant sender.output == Concat(codes[..i]) && sender.room == old(sender.room) - |sender.output|
      invariant unchanged(receiver)
    {
      assert IsCode(sender.host, fs[i], codes[i]) && Acceptable(fs[i], receiver.server);
      ConcatNext(codes, i);
      var r := sender.SendFrame(fs[i], codes[i]);
      i := i + 1;
    }
    assert codes[..i] == codes;
    receiver.input := sender.output;
    Reassembles(receiver.host, receiver.server, max, fs, codes, [], receiver.room / 2, [], 0);
    assert Concat(codes) + [] == receiver.input;
    assert [] + Payloads(fs) == Payloads(fs);
    outcome := receiver.RecvMessage(max);
  }
}
