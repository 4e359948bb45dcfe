/** The loop of `HTTPConnection::recv_response` that reads a chunked body (section 7.1 of
    RFC 9112) through a fixed buffer, over reads of any size. The bytes arrive in
    segments, and a read returns what it has room for of the first one, so that every
    pattern of short reads is some sequence of segments. */
module ChunkedBody {
  import opened Bytes

  const CR: byte := 13
  const LF: byte := 10

  predicate IsHexDigit(b: byte) { 48 <= b <= 57 || 65 <= b <= 70 || 97 <= b <= 102 }

  function DigitValue(b: byte): nat
    requires IsHexDigit(b)
  {
    if b <= 57 then b - 48 else if b <= 70 then b - 55 else b - 87
  }

  predicate IsHex(s: seq<byte>) { forall i :: 0 <= i < |s| ==> IsHexDigit(s[i]) }

  function HexValue(s: seq<byte>): nat
    requires IsHex(s)
  {
    if s == [] then 0 else 16 * HexValue(s[..|s| - 1]) + DigitValue(s[|s| - 1])
  }

  const LOWER := "0123456789abcdef"
  const UPPER := "0123456789ABCDEF"

  /** The code of a character, for those under 256. */
  function Code(c: char): byte { if c as int < 256 then c as int else 0 }

  /** The digits, in either case. */
  lemma DigitTable(v: nat)
    requires v < 16
    ensures IsHexDigit(Code(LOWER[v])) && DigitValue(Code(LOWER[v])) == v
    ensures IsHexDigit(Code(UPPER[v])) && DigitValue(Code(UPPER[v])) == v
  {
  }

  /** No other byte is a digit. */
  lemma OnlyDigits(b: byte)
    ensures IsHexDigit(b) <==> exists v :: 0 <= v < 16 && (b == Code(LOWER[v]) || b == Code(UPPER[v]))
  {
    if IsHexDigit(b) {
      var v := DigitValue(b);
      DigitTable(v);
      assert b == Code(LOWER[v]) || b == Code(UPPER[v]);
    } else {
      forall v | 0 <= v < 16
        ensures b != Code(LOWER[v]) && b != Code(UPPER[v])
      {
        DigitTable(v);
      }
    }
  }

  /** A number in hexadecimal, as a sender writes it. */
  function HexText(n: nat): (r: seq<byte>)
    ensures r != []
  {
    if n < 16 then [Code(LOWER[n])] else HexText(n / 16) + [Code(LOWER[n % 16])]
  }

  /** Reading a number's hexadecimal text gives the number. */
  lemma {:induction false} HexTextValue(n: nat)
    ensures IsHex(HexText(n)) && HexValue(HexText(n)) == n
  {
    DigitTable(n % 16);
    if n >= 16 {
      HexTextValue(n / 16);
      var r := HexText(n);
      assert r[..|r| - 1] == HexText(n / 16);
    } else {
      assert HexText(n)[..0] == [];
    }
  }

  // ----------------------------------------------------------- the size line

  /** What one run of the parser makes of the buffer: a whole size line, of `used`
      bytes; the beginning of one; or anything else. */
  datatype Line = Complete(size: nat, used: nat) | Partial | Other

  /** The number of leading hex digits. */
  function Digits(s: seq<byte>): (k: nat)
    ensures k <= |s| && IsHex(s[..k]) && (k < |s| ==> !IsHexDigit(s[k]))
  {
    if s == [] || !IsHexDigit(s[0]) then 0
    else
      var k := Digits(s[1..]);
      assert forall i :: 0 < i < k + 1 ==> s[i] == s[1..][..k][i - 1];
      k + 1
  }

  /** A size line without extensions. */
  function ParseLine(s: seq<byte>): (r: Line)
    ensures r.Complete? ==> 0 < r.used <= |s|
  {
    var k := Digits(s);
    if k == |s| then Partial
    else if k == 0 then Other
    else if s[k] == LF then Complete(HexValue(s[..k]), k + 1)
    else if s[k] != CR then Other
    else if k + 1 == |s| then Partial
    else if s[k + 1] == LF then Complete(HexValue(s[..k]), k + 2)
    else Other
  }

  lemma DigitsAre(s: seq<byte>, k: nat)
    requires k <= |s| && IsHex(s[..k]) && (k < |s| ==> !IsHexDigit(s[k]))
    ensures Digits(s) == k
  {
    hide IsHexDigit, Digits;
    var d := Digits(s);
    assert !(d < k) by {
      if d < k {
        HexAt(s, k, d);
      }
    }
    assert !(k < d) by {
      if k < d {
        HexAt(s, d, k);
      }
    }
  }

  lemma HexAt(s: seq<byte>, k: nat, i: nat)
    requires i < k <= |s| && IsHex(s[..k])
    ensures IsHexDigit(s[i])
  {
    assert s[..k][i] == s[i];
  }

  function LineBytes(digits: seq<byte>): (r: seq<byte>)
    ensures |r| == |digits| + 2
  {
    digits + [CR, LF]
  }

  /** The parser on a buffer that begins a size line: it finds the whole line exactly
      when it is there, and otherwise takes the buffer for the beginning of one. */
  lemma ParsesLine(digits: seq<byte>, rest: seq<byte>, buf: seq<byte>)
    requires IsHex(digits) && digits != [] && buf <= LineBytes(digits) + rest
    ensures ParseLine(buf) == if |buf| < |digits| + 2 then Partial else Complete(HexValue(digits), |digits| + 2)
  {
    hide HexValue, Digits, IsHex, IsHexDigit;
    var n, all := |digits|, LineBytes(digits) + rest;
    LineStarts(digits, rest, buf);
    if |buf| > n {
      assert buf[n] == all[n] == CR;
      assert |buf| > n + 1 ==> buf[n + 1] == all[n + 1] == LF;
    }
  }

  lemma LineStarts(digits: seq<byte>, rest: seq<byte>, buf: seq<byte>)
    requires IsHex(digits) && buf <= LineBytes(digits) + rest
    ensures Digits(buf) == (if |buf| < |digits| then |buf| else |digits|)
    ensures |buf| >= |digits| ==> buf[..|digits|] == digits
  {
    hide HexValue, Digits, IsHex, IsHexDigit;
    var n, all := |digits|, LineBytes(digits) + rest;
    if |buf| < n {
      assert buf[..|buf|] == digits[..|buf|];
      HexPrefix(digits, |buf|);
      DigitsAre(buf, |buf|);
    } else {
      assert buf[..n] == digits;
      CrIsNoDigit();
      assert |buf| > n ==> buf[n] == all[n] == CR;
      DigitsAre(buf, n);
    }
  }

  lemma CrIsNoDigit()
    ensures !IsHexDigit(CR) && !IsHexDigit(LF)
  {
  }

  lemma HexPrefix(s: seq<byte>, k: nat)
    requires IsHex(s) && k <= |s|
    ensures IsHex(s[..k]) && IsHex(s[k..])
  {
  }

  lemma LineTaken(digits: seq<byte>, rest: seq<byte>, buf: seq<byte>, input: seq<byte>)
    requires IsHex(digits) && digits != [] && buf + input == LineBytes(digits) + rest
    ensures var n := |digits| + 2;
            if |buf| < n then ParseLine(buf) == Partial
            else ParseLine(buf) == Complete(HexValue(digits), n) && buf[n..] + input == rest
  {
    assert buf <= buf + input;
    ParsesLine(digits, rest, buf);
    assert (LineBytes(digits) + rest)[|digits| + 2..] == rest;
    if |buf| >= |digits| + 2 {
      assert (buf + input)[|digits| + 2..] == buf[|digits| + 2..] + input;
    }
  }

  function Pow16(n: nat): nat { if n == 0 then 1 else 16 * Pow16(n - 1) }

  lemma Times16(x: nat, y: nat)
    ensures (16 * x) * y == 16 * (x * y)
  {
  }

  lemma {:induction false} HexAppend(a: seq<byte>, b: seq<byte>)
    requires IsHex(a) && IsHex(b)
    ensures IsHex(a + b) && HexValue(a + b) == Pow16(|b|) * HexValue(a) + HexValue(b) && Pow16(|b|) > 0
  {
    if b == [] {
      assert a + b == a;
    } else {
      var c := b[..|b| - 1];
      HexAppend(a, c);
      assert (a + b)[..|a + b| - 1] == a + c;
      Times16(Pow16(|c|), HexValue(a));
    }
  }

  // -------------------------------------------------------------- the arrivals

  type Segments = s: seq<seq<byte>> | forall i :: 0 <= i < |s| ==> |s[i]| > 0

  function Joined(segs: Segments): seq<byte> {
    if segs == [] then [] else segs[0] + Joined(segs[1..])
  }

  /** How many bytes one read with this much room returns. */
  function Piece(segs: Segments, room: nat): (k: nat)
    requires segs != [] && room > 0
    ensures 0 < k <= room && k <= |segs[0]| && k <= |Joined(segs)|
  {
    if |segs[0]| < room then |segs[0]| else room
  }

  /** What is still to arrive after `n` bytes. */
  function Drop(segs: Segments, n: nat): (r: Segments)
    ensures n > 0 && segs != [] ==> |Joined(r)| < |Joined(segs)|
  {
    if n == 0 || segs == [] then segs
    else if n < |segs[0]| then [segs[0][n..]] + segs[1..]
    else
      assert |Joined(Drop(segs[1..], n - |segs[0]|))| <= |Joined(segs[1..])|;
      Drop(segs[1..], n - |segs[0]|)
  }

  lemma {:induction false} DropJoined(segs: Segments, n: nat)
    requires n <= |Joined(segs)|
    ensures Joined(Drop(segs, n)) == Joined(segs)[n..]
  {
    if n > 0 && segs != [] {
      if n < |segs[0]| {
        assert Drop(segs, n)[1..] == segs[1..];
      } else {
        DropJoined(segs[1..], n - |segs[0]|);
      }
    }
  }

  lemma {:induction false} DropTwice(segs: Segments, m: nat, n: nat)
    ensures Drop(Drop(segs, m), n) == Drop(segs, m + n)
  {
    if m > 0 && segs != [] {
      if m < |segs[0]| {
        var d := Drop(segs, m);
        assert d[1..] == segs[1..] && d[0] == segs[0][m..];
        if n > 0 && n < |d[0]| {
          assert segs[0][m..][n..] == segs[0][m + n..];
        }
      } else {
        DropTwice(segs[1..], m - |segs[0]|, n);
      }
    }
  }

  // ------------------------------------------------------- the loops as functions

  datatype SizeRead = Sized(size: nat, buf: seq<byte>, segs: Segments) | Failed

  /** The inner loop: read unless something is buffered, run the parser, go on until a
      line is complete. The parser starts afresh on every run and uses up what it takes
      for the beginning of a line. `room` is the size of the buffer. */
  function ReadSize(buf: seq<byte>, segs: Segments, room: nat): (r: SizeRead)
    requires room > 0
    ensures r.Sized? ==> |r.buf| + |Joined(r.segs)| < |buf| + |Joined(segs)|
    ensures r.Sized? && |buf| < room ==> |r.buf| < room
    decreases |Joined(segs)|, |buf|
  {
    if buf == [] then
      if segs == [] then Failed
      else
        var k := Piece(segs, room);
        DropJoined(segs, k);
        match ParseLine(segs[0][..k])
        case Other => Failed
        case Complete(size, used) => Sized(size, segs[0][used..k], Drop(segs, k))
        case Partial => ReadSize([], Drop(segs, k), room)
    else
      match ParseLine(buf)
      case Other => Failed
      case Complete(size, used) => Sized(size, buf[used..], segs)
      case Partial => ReadSize([], segs, room)
  }

  /** The outer loop's result: the body, what is left, and the sizes it read. */
  datatype Outcome = Outcome(ok: bool, body: seq<byte>, sizes: seq<nat>, buf: seq<byte>, segs: Segments)

  function Receive(buf: seq<byte>, segs: Segments, room: nat): (r: Outcome)
    requires room > 0
    decreases |buf| + |Joined(segs)|
  {
    match ReadSize(buf, segs, room)
    case Failed => Outcome(false, [], [], [], [])
    case Sized(size, b, s) =>
      if |b| + |Joined(s)| < size + 2 then Outcome(false, [], [size], [], [])
      else
        var b' := if size + 2 <= |b| then b[size + 2..] else [];
        var s' := if size + 2 <= |b| then s else Drop(s, size + 2 - |b|);
        DropJoined(s, if size + 2 <= |b| then 0 else size + 2 - |b|);
        var payload := (b + Joined(s))[..size];
        if size == 0 then Outcome(true, payload, [0], b', s')
        else
          var r := Receive(b', s', room);
          r.(body := payload + r.body, sizes := [size] + r.sizes)
  }

  // ------------------------------------------------------------------ one line

  /** Where in a line of `n` bytes the piece begins that holds the line's end: 0 if the
      line is whole in the buffer when first parsed. */
  function LineStart(n: nat, len: nat, segs: Segments, room: nat): nat
    requires room > 0
    decreases |Joined(segs)|
  {
    if len >= n then 0
    else if segs == [] then n
    else
      var k := Piece(segs, room);
      len + LineStart(n - len, k, Drop(segs, k), room)
  }

  /** How many bytes are buffered, and what is still to arrive, after a line. */
  function AfterLine(n: nat, len: nat, segs: Segments, room: nat): (r: (nat, Segments))
    requires room > 0
    decreases |Joined(segs)|
  {
    if len >= n then (len - n, segs)
    else if segs == [] then (0, segs)
    else
      var k := Piece(segs, room);
      AfterLine(n - len, k, Drop(segs, k), room)
  }

  /** A piece that begins at or after the line's end is not understood. */
  lemma NoDigitFails(buf: seq<byte>, segs: Segments, room: nat)
    requires room > 0 && buf + Joined(segs) != [] && !IsHexDigit((buf + Joined(segs))[0])
    ensures ReadSize(buf, segs, room) == Failed
  {
    var first := (buf + Joined(segs))[0];
    if buf == [] {
      assert segs != [];
      var k := Piece(segs, room);
      assert segs[0][..k][0] == first;
    }
  }

  /** The first read of the inner loop only moves bytes into the buffer. */
  lemma FirstRead(segs: Segments, room: nat)
    requires room > 0 && segs != []
    ensures var k := Piece(segs, room);
            && ReadSize([], segs, room) == ReadSize(segs[0][..k], Drop(segs, k), room)
            && segs[0][..k] + Joined(Drop(segs, k)) == Joined(segs)
  {
    hide ParseLine;
    var k := Piece(segs, room);
    DropJoined(segs, k);
    assert Joined(segs)[..k] == segs[0][..k];
    assert Joined(segs) == Joined(segs)[..k] + Joined(segs)[k..];
    assert forall used: nat | used <= k :: segs[0][used..k] == segs[0][..k][used..];
  }

  /** The inner loop reads the value of the digits from the piece on that holds the
      line's end, and uses up the line; or fails if that piece begins with no digit. */
  ghost predicate ReadsLine(digits: seq<byte>, rest: seq<byte>, buf: seq<byte>, segs: Segments, room: nat)
    requires room > 0
  {
    var n, r := |digits| + 2, ReadSize(buf, segs, room);
    var o := LineStart(n, |buf|, segs, room);
    && (o >= |digits| ==> r == Failed)
    && (o < |digits| ==>
          && r.Sized? && IsHex(digits[o..]) && r.size == HexValue(digits[o..]) && r.buf + Joined(r.segs) == rest
          && AfterLine(n, |buf|, segs, room) == (|r.buf|, r.segs))
  }

  lemma ReadsWhole(digits: seq<byte>, rest: seq<byte>, buf: seq<byte>, segs: Segments, room: nat)
    requires room > 0 && IsHex(digits) && digits != [] && buf + Joined(segs) == LineBytes(digits) + rest
    requires |buf| >= |digits| + 2
    ensures ReadsLine(digits, rest, buf, segs, room)
  {
    hide ParseLine, HexValue, IsHex, LineBytes, Digits;
    LineTaken(digits, rest, buf, Joined(segs));
    assert digits[0..] == digits;
  }

  lemma ReadsFirst(digits: seq<byte>, rest: seq<byte>, segs: Segments, room: nat)
    requires room > 0 && segs != []
    requires var k := Piece(segs, room); ReadsLine(digits, rest, segs[0][..k], Drop(segs, k), room)
    ensures ReadsLine(digits, rest, [], segs, room)
  {
    hide ReadSize, HexValue, IsHex, Joined;
    FirstRead(segs, room);
  }

  lemma ReadsLater(digits: seq<byte>, rest: seq<byte>, buf: seq<byte>, segs: Segments, room: nat)
    requires room > 0 && 0 < |buf| < |digits| && ParseLine(buf) == Partial
    requires segs != [] && ReadsLine(digits[|buf|..], rest, [], segs, room)
    ensures ReadsLine(digits, rest, buf, segs, room)
  {
    hide ParseLine, HexValue, IsHex, Joined;
    var o' := LineStart(|digits| + 2 - |buf|, 0, segs, room);
    assert o' < |digits| - |buf| ==> digits[|buf|..][o'..] == digits[|buf| + o'..];
  }

  lemma ReadsNothing(digits: seq<byte>, rest: seq<byte>, buf: seq<byte>, segs: Segments, room: nat)
    requires room > 0 && |digits| <= |buf| < |digits| + 2 && buf != [] && ParseLine(buf) == Partial
    requires ReadSize([], segs, room) == Failed
    ensures ReadsLine(digits, rest, buf, segs, room)
  {
    hide ParseLine, HexValue, IsHex, Joined;
  }

  /** Exactly what the inner loop makes of a size line, however it arrives. */
  lemma {:induction false} LineRead(digits: seq<byte>, rest: seq<byte>, buf: seq<byte>, segs: Segments, room: nat)
    requires room > 0 && IsHex(digits) && digits != [] && buf + Joined(segs) == LineBytes(digits) + rest
    ensures ReadsLine(digits, rest, buf, segs, room)
    decreases |Joined(segs)|, |buf|
  {
    hide ReadsLine, ReadSize, ParseLine, HexValue, IsHex, LineBytes, Digits, LineStart, AfterLine;
    var n := |digits| + 2;
    if buf == [] {
      assert buf + Joined(segs) == Joined(segs) && segs != [];
      var k := Piece(segs, room);
      FirstRead(segs, room);
      LineRead(digits, rest, segs[0][..k], Drop(segs, k), room);
      ReadsFirst(digits, rest, segs, room);
    } else if |buf| >= n {
      ReadsWhole(digits, rest, buf, segs, room);
    } else {
      LineTaken(digits, rest, buf, Joined(segs));
      LineCut(digits, rest, buf, Joined(segs));
      if |buf| < |digits| {
        LineRead(digits[|buf|..], rest, [], segs, room);
        ReadsLater(digits, rest, buf, segs, room);
      } else {
        assert [] + Joined(segs) == Joined(segs);
        NoDigitFails([], segs, room);
        ReadsNothing(digits, rest, buf, segs, room);
      }
    }
  }

  /** A piece shorter than the line, and what is left of the line. */
  lemma LineCut(digits: seq<byte>, rest: seq<byte>, buf: seq<byte>, input: seq<byte>)
    requires IsHex(digits) && |buf| < |digits| + 2 && buf + input == LineBytes(digits) + rest
    ensures input != []
    ensures |buf| < |digits| ==> IsHex(digits[|buf|..]) && [] + input == LineBytes(digits[|buf|..]) + rest
    ensures |buf| >= |digits| ==> !IsHexDigit(input[0])
  {
    var all := LineBytes(digits) + rest;
    assert input == all[|buf|..];
    if |buf| < |digits| {
      assert all[|buf|..] == LineBytes(digits[|buf|..]) + rest;
      HexPrefix(digits, |buf|);
    } else {
      assert input[0] == all[|buf|];
    }
  }

  predicate AllZero(s: seq<byte>) { forall i :: 0 <= i < |s| ==> s[i] == 48 }

  lemma {:induction false} HexZero(s: seq<byte>)
    requires IsHex(s)
    ensures HexValue(s) == 0 <==> AllZero(s)
  {
    if s != [] {
      HexZero(s[..|s| - 1]);
      assert s == s[..|s| - 1] + [s[|s| - 1]];
    }
  }

  /** When a size line is understood, from the sizes of the arrivals alone: a digit comes
      with the line's end, and the digits that came before that piece are zeros. */
  predicate LineRight(digits: seq<byte>, len: nat, segs: Segments, room: nat)
    requires room > 0
  {
    var o := LineStart(|digits| + 2, len, segs, room);
    o < |digits| && AllZero(digits[..o])
  }

  /** The inner loop reads the line's own size if and only if that holds. */
  lemma SizeRightIff(digits: seq<byte>, rest: seq<byte>, buf: seq<byte>, segs: Segments, room: nat)
    requires room > 0 && IsHex(digits) && digits != [] && buf + Joined(segs) == LineBytes(digits) + rest
    ensures var r := ReadSize(buf, segs, room);
            r.Sized? && r.size == HexValue(digits) <==> LineRight(digits, |buf|, segs, room)
  {
    hide ReadSize, LineStart, AfterLine, HexValue, IsHex, AllZero, LineBytes, Joined;
    LineRead(digits, rest, buf, segs, room);
    var o := LineStart(|digits| + 2, |buf|, segs, room);
    if o < |digits| {
      SuffixValue(digits, o);
    }
  }

  /** Leading digits can be dropped exactly if they are zeros. */
  lemma SuffixValue(digits: seq<byte>, o: nat)
    requires IsHex(digits) && o <= |digits|
    ensures IsHex(digits[o..]) && (HexValue(digits[o..]) == HexValue(digits) <==> AllZero(digits[..o]))
  {
    hide AllZero, IsHexDigit;
    var a, b := digits[..o], digits[o..];
    HexPrefix(digits, o);
    HexAppend(a, b);
    assert a + b == digits;
    HexZero(a);
    NoProduct(Pow16(|b|), HexValue(a));
  }

  lemma NoProduct(x: nat, y: nat)
    requires x > 0
    ensures x * y == 0 <==> y == 0
  {
  }

  // ------------------------------------------------------------------ the wire

  /** A chunk: its size line's digits and its payload. */
  datatype Chunk = Chunk(digits: seq<byte>, payload: seq<byte>)

  ghost predicate ChunkOk(c: Chunk) {
    IsHex(c.digits) && c.digits != [] && HexValue(c.digits) == |c.payload|
  }

  function ChunkBytes(c: Chunk): seq<byte> { LineBytes(c.digits) + (c.payload + [CR, LF]) }

  function Wire(cs: seq<Chunk>): seq<byte> { if cs == [] then [] else ChunkBytes(cs[0]) + Wire(cs[1..]) }

  function Payload(cs: seq<Chunk>): seq<byte> { if cs == [] then [] else cs[0].payload + Payload(cs[1..]) }

  /** A body: its chunks are well formed and exactly the last is empty. */
  ghost predicate IsBody(cs: seq<Chunk>) {
    && cs != [] && (forall i :: 0 <= i < |cs| ==> ChunkOk(cs[i]))
    && (forall i :: 0 <= i < |cs| ==> (cs[i].payload == [] <==> i == |cs| - 1))
  }

  // ----------------------------------------------------------------- whole bodies

  function Sizes(cs: seq<Chunk>): seq<nat> { if cs == [] then [] else [|cs[0].payload|] + Sizes(cs[1..]) }

  /** How many bytes are buffered, and what is still to arrive, after a chunk's payload
      and its line end. */
  function AfterChunk(size: nat, len: nat, segs: Segments): (nat, Segments) {
    if size + 2 <= len then (len - (size + 2), segs) else (0, Drop(segs, size + 2 - len))
  }

  /** Every size line is understood; in particular if each is whole in the buffer when
      first parsed. */
  ghost predicate LinesRight(cs: seq<Chunk>, len: nat, segs: Segments, room: nat)
    requires room > 0
    decreases |cs|
  {
    cs == [] ||
    (LineRight(cs[0].digits, len, segs, room) &&
     var l := AfterLine(|cs[0].digits| + 2, len, segs, room);
     var c := AfterChunk(|cs[0].payload|, l.0, l.1);
     LinesRight(cs[1..], c.0, c.1, room))
  }

  /** A body starts with its first chunk, and goes on unless that one is empty. */
  lemma BodyNext(cs: seq<Chunk>, tail: seq<byte>)
    requires IsBody(cs)
    ensures cs != [] && ChunkOk(cs[0]) && (cs[0].payload == [] <==> |cs| == 1) && (|cs| > 1 ==> IsBody(cs[1..]))
    ensures Wire(cs) + tail == LineBytes(cs[0].digits) + (cs[0].payload + ([CR, LF] + (Wire(cs[1..]) + tail)))
    ensures |cs| == 1 ==> Wire(cs[1..]) + tail == tail && Payload(cs) == []
  {
    hide ChunkOk, LineBytes;
    Regroup(LineBytes(cs[0].digits), cs[0].payload, [CR, LF], Wire(cs[1..]), tail);
    if |cs| == 1 {
      LastChunk(cs, tail);
    } else {
      RestIsBody(cs);
    }
  }

  lemma LastChunk(cs: seq<Chunk>, tail: seq<byte>)
    requires |cs| == 1 && cs[0].payload == []
    ensures Wire(cs[1..]) + tail == tail && Payload(cs) == []
  {
    assert cs[1..] == [];
  }

  lemma RestIsBody(cs: seq<Chunk>)
    requires IsBody(cs) && |cs| > 1
    ensures IsBody(cs[1..]) && cs[0].payload != []
  {
    hide ChunkOk;
    assert forall i :: 0 <= i < |cs| - 1 ==> cs[1..][i] == cs[i + 1];
  }

  lemma Regroup(a: seq<byte>, b: seq<byte>, c: seq<byte>, d: seq<byte>, e: seq<byte>)
    ensures ((a + (b + c)) + d) + e == a + (b + (c + (d + e)))
  {
  }

  /** Every size line is whole in the buffer when it is first parsed. */
  ghost predicate LinesWhole(cs: seq<Chunk>, len: nat, segs: Segments, room: nat)
    requires room > 0
    decreases |cs|
  {
    cs == [] ||
    (LineStart(|cs[0].digits| + 2, len, segs, room) == 0 &&
     var l := AfterLine(|cs[0].digits| + 2, len, segs, room);
     var c := AfterChunk(|cs[0].payload|, l.0, l.1);
     LinesWhole(cs[1..], c.0, c.1, room))
  }

  lemma {:induction false} WholeIsRight(cs: seq<Chunk>, len: nat, segs: Segments, room: nat)
    requires room > 0 && LinesWhole(cs, len, segs, room) && forall i :: 0 <= i < |cs| ==> cs[i].digits != []
    ensures LinesRight(cs, len, segs, room)
    decreases |cs|
  {
    if cs != [] {
      var l := AfterLine(|cs[0].digits| + 2, len, segs, room);
      var c := AfterChunk(|cs[0].payload|, l.0, l.1);
      WholeIsRight(cs[1..], c.0, c.1, room);
    }
  }

  /** What is left after a chunk, from buffer or arrivals. */
  lemma ChunkTaken(payload: seq<byte>, rest: seq<byte>, b: seq<byte>, s: Segments)
    requires b + Joined(s) == payload + ([CR, LF] + rest)
    ensures var n := |payload| + 2;
            && |b| + |Joined(s)| >= n && (b + Joined(s))[..|payload|] == payload
            && (n <= |b| ==> b[n..] + Joined(s) == rest)
            && (n > |b| ==> [] + Joined(Drop(s, n - |b|)) == rest)
  {
    var n, all := |payload| + 2, b + Joined(s);
    assert all[n..] == rest;
    if n <= |b| {
      assert all[n..] == b[n..] + Joined(s);
    } else {
      DropJoined(s, n - |b|);
      assert all[n..] == Joined(s)[n - |b|..];
    }
  }

  /** One turn of the outer loop on a chunk whose size it has read. */
  lemma TurnTaken(buf: seq<byte>, segs: Segments, room: nat, r: SizeRead, b': seq<byte>, s': Segments, next: Outcome)
    requires room > 0 && r == ReadSize(buf, segs, room) && r.Sized? && |r.buf| + |Joined(r.segs)| >= r.size + 2
    requires b' == (if r.size + 2 <= |r.buf| then r.buf[r.size + 2..] else [])
    requires s' == (if r.size + 2 <= |r.buf| then r.segs else Drop(r.segs, r.size + 2 - |r.buf|))
    requires r.size > 0 ==> next == Receive(b', s', room)
    ensures var payload := (r.buf + Joined(r.segs))[..r.size];
            Receive(buf, segs, room) ==
            if r.size == 0 then Outcome(true, payload, [0], b', s')
            else next.(body := payload + next.body, sizes := [r.size] + next.sizes)
  {
    hide ReadSize, Joined, Drop;
  }

  /** A line that is not understood: the loop fails, or goes on with another size. */
  lemma TurnMissed(buf: seq<byte>, segs: Segments, room: nat, size: nat)
    requires room > 0
    requires var r := ReadSize(buf, segs, room); !(r.Sized? && r.size == size)
    ensures var r := Receive(buf, segs, room); !(r.ok && r.sizes != [] && r.sizes[0] == size)
  {
    hide ReadSize, Joined, Drop;
  }

  /** The outer loop reads the sizes of the chunks and comes to its end if and only if
      every size line is understood; then the body is the chunks' payloads in order,
      however the bytes were split over reads, and exactly the chunks are used up. */
  lemma {:induction false} ReceivedIff(cs: seq<Chunk>, tail: seq<byte>, buf: seq<byte>, segs: Segments, room: nat)
    requires room > 0 && IsBody(cs) && buf + Joined(segs) == Wire(cs) + tail
    ensures var r := Receive(buf, segs, room);
            && (LinesRight(cs, |buf|, segs, room) <==> r.ok && r.sizes == Sizes(cs))
            && (LinesRight(cs, |buf|, segs, room) ==> r.body == Payload(cs) && r.buf + Joined(r.segs) == tail)
    decreases |cs|
  {
    hide Receive, ReadSize, IsBody, LineBytes, HexValue, Wire, Joined, Drop, LineStart, AfterLine, LineRight;
    BodyNext(cs, tail);
    var c, after := cs[0], Wire(cs[1..]) + tail;
    var rest := c.payload + ([CR, LF] + after);
    LineRead(c.digits, rest, buf, segs, room);
    SizeRightIff(c.digits, rest, buf, segs, room);
    LineRightStarts(c.digits, |buf|, segs, room);
    var r := ReadSize(buf, segs, room);
    if r.Sized? && r.size == |c.payload| {
      ChunkTaken(c.payload, after, r.buf, r.segs);
      var n := r.size + 2;
      var b' := if n <= |r.buf| then r.buf[n..] else [];
      var s' := if n <= |r.buf| then r.segs else Drop(r.segs, n - |r.buf|);
      var next := Receive(b', s', room);
      TurnTaken(buf, segs, room, r, b', s', next);
      if r.size > 0 {
        ReceivedIff(cs[1..], tail, b', s', room);
        assert ([r.size] + next.sizes)[1..] == next.sizes && Sizes(cs)[1..] == Sizes(cs[1..]);
      } else {
        assert cs[1..] == [];
      }
    } else {
      TurnMissed(buf, segs, room, |c.payload|);
    }
  }

  lemma LineRightStarts(digits: seq<byte>, len: nat, segs: Segments, room: nat)
    requires room > 0
    ensures LineRight(digits, len, segs, room) ==> LineStart(|digits| + 2, len, segs, room) < |digits|
  {
  }

  // ----------------------------------------------------------- bodies as they are sent

  /** A payload as a chunk, its size in hexadecimal. */
  function ToChunk(p: seq<byte>): Chunk { Chunk(HexText(|p|), p) }

  /** A body sent in the given pieces, and the empty chunk that ends it. */
  function ToChunks(ps: seq<seq<byte>>): seq<Chunk> {
    if ps == [] then [ToChunk([])] else [ToChunk(ps[0])] + ToChunks(ps[1..])
  }

  function Whole(ps: seq<seq<byte>>): seq<byte> { if ps == [] then [] else ps[0] + Whole(ps[1..]) }

  lemma {:induction false} ToChunksIsBody(ps: seq<seq<byte>>)
    requires forall i :: 0 <= i < |ps| ==> ps[i] != []
    ensures IsBody(ToChunks(ps)) && Payload(ToChunks(ps)) == Whole(ps)
  {
    hide HexValue, IsHex, HexText;
    var cs := ToChunks(ps);
    if ps == [] {
      HexTextValue(0);
      assert cs[1..] == [];
    } else {
      HexTextValue(|ps[0]|);
      ToChunksIsBody(ps[1..]);
      assert cs[1..] == ToChunks(ps[1..]);
    }
  }

  /** A body sent in any pieces, each with its size in hexadecimal, is received if every
      size line is understood; whatever follows it is left. */
  lemma SentBodyReceived(ps: seq<seq<byte>>, tail: seq<byte>, buf: seq<byte>, segs: Segments, room: nat)
    requires room > 0 && (forall i :: 0 <= i < |ps| ==> ps[i] != [])
    requires buf + Joined(segs) == Wire(ToChunks(ps)) + tail && LinesRight(ToChunks(ps), |buf|, segs, room)
    ensures var r := Receive(buf, segs, room);
            r.ok && r.body == Whole(ps) && r.buf + Joined(r.segs) == tail
  {
    hide Receive, LinesRight, Joined, Wire, IsBody, Payload;
    ToChunksIsBody(ps);
    ReceivedIff(ToChunks(ps), tail, buf, segs, room);
  }

  /** A body of 16 bytes whose size line "10" arrives in two pieces: the loop takes "0" for
      the size, and ends at once with an empty body and no sign of failure. */
  lemma SplitLineLosesBody(payload: seq<byte>, room: nat) returns (cs: seq<Chunk>, segs: Segments)
    requires |payload| == 16 && room >= 3
    ensures IsBody(cs) && [] + Joined(segs) == Wire(cs) + [] && Payload(cs) == payload
    ensures Receive([], segs, room).ok && Receive([], segs, room).body == []
  {
    hide Receive, HexValue, Wire;
    Hex10();
    var c, last := Chunk([49, 48], payload), Chunk([48], []);
    cs := [c, last];
    assert IsBody(cs);
    BodyNext(cs, []);
    var rest := payload + ([CR, LF] + (Wire(cs[1..]) + []));
    var second: seq<byte> := [48, CR, LF] + rest;
    segs := [[49], second];
    assert segs[1..] == [second] && [second][1..] == [];
    assert Joined([second]) == second && Joined(segs) == [49] + second;
    assert [] + Joined(segs) == LineBytes(c.digits) + rest;
    LastPayload(c, last);
    SplitTurn(rest, segs, room, second);
  }

  lemma Hex10()
    ensures HexValue([48]) == 0 && HexValue([49, 48]) == 16
  {
    assert [49, 48][..1] == [49] && [49][..0] == [] && [48][..0] == [];
    assert HexValue([49]) == 1;
  }

  lemma LastPayload(c: Chunk, last: Chunk)
    requires last.payload == []
    ensures Payload([c, last]) == c.payload
  {
    assert [c, last][1..] == [last] && [last][1..] == [];
    assert Payload([last]) == [] && c.payload + [] == c.payload;
  }

  lemma SplitTurn(rest: seq<byte>, segs: Segments, room: nat, second: seq<byte>)
    requires room >= 3 && |second| >= 3 && |rest| >= 2 && segs == [[49], second]
    requires [] + Joined(segs) == LineBytes([49, 48]) + rest
    ensures Receive([], segs, room).ok && Receive([], segs, room).body == []
  {
    hide Receive, ReadSize, LineBytes;
    LineRead([49, 48], rest, [], segs, room);
    assert Drop(segs, 1) == [second];
    assert LineStart(3, Piece([second], room), Drop([second], Piece([second], room)), room) == 0;
    assert LineStart(4, 1, [second], room) == 1;
    assert LineStart(4, 0, segs, room) == 1;
    assert [49, 48][1..] == [48] && [48][..0] == [];
    var r := ReadSize([], segs, room);
    assert r.size == 0 && |r.buf + Joined(r.segs)| >= 2;
    var b' := if 2 <= |r.buf| then r.buf[2..] else [];
    var s' := if 2 <= |r.buf| then r.segs else Drop(r.segs, 2 - |r.buf|);
    TurnTaken([], segs, room, r, b', s', Outcome(false, [], [], [], []));
  }

  // ------------------------------------------------------------------ the methods

  /** The connection's side that reads. */
  class Source {
    var segs: Segments

    constructor (segs: Segments)
      ensures this.segs == segs
    {
      this.segs := segs;
    }

    method Read(buf: array<byte>, at: nat, n: nat) returns (k: int)
      requires 0 < n && at + n <= buf.Length
      modifies this, buf
      ensures old(segs) == [] ==> k <= 0 && segs == [] && buf[..] == old(buf[..])
      ensures old(segs) != [] ==> k == Piece(old(segs), n) && segs == Drop(old(segs), k)
                                  && buf[..] == Splice(old(buf[..]), at, old(segs)[0][..k])
    {
      if segs == [] {
        k :| k == 0 || k == -1;
        return;
      }
      k := Piece(segs, n);
      forall i | 0 <= i < k { buf[at + i] := segs[0][i]; }
      segs := Drop(segs, k);
    }
  }

  /** `memmove(data, data + k, len - k)`. */
  method Shift(buf: array<byte>, k: nat, len: nat)
    requires k <= len <= buf.Length
    modifies buf
    ensures buf[..len - k] == old(buf[k..len])
  {
    forall i | 0 <= i < len - k { buf[i] := buf[i + k]; }
  }

  /** The parser on the first `len` bytes, which it shifts out as far as it used them. */
  method Parse(buf: array<byte>, len: nat) returns (line: Line, left: nat)
    requires 0 < len <= buf.Length
    modifies buf
    ensures line == ParseLine(old(buf[..len])) && left <= len
    ensures line.Complete? ==> left < len && buf[..left] == old(buf[..len])[line.used..]
    ensures line.Partial? ==> left == 0
  {
    line := ParseLine(buf[..len]);
    var nparse := if line.Complete? then line.used else if line.Partial? then len else 0;
    Shift(buf, nparse, len);
    left := len - nparse;
  }

  /** Read into the empty buffer. */
  method Refill(s: Source, buf: array<byte>) returns (rt: int)
    requires buf.Length > 0
    modifies s, buf
    ensures rt <= buf.Length && (rt <= 0 <==> old(s.segs) == [])
    ensures rt > 0 ==> ReadSize(buf[..rt], s.segs, buf.Length) == ReadSize([], old(s.segs), buf.Length)
    ensures rt > 0 ==> |Joined(s.segs)| < |Joined(old(s.segs))|
  {
    hide ReadSize, Joined;
    ghost var segs0 := s.segs;
    rt := s.Read(buf, 0, buf.Length);
    if rt > 0 {
      FirstRead(segs0, buf.Length);
      assert buf[..rt] == segs0[0][..rt];
    }
  }

  /** The inner loop. */
  method SizeLine(s: Source, buf: array<byte>, len0: nat) returns (ok: bool, size: nat, len: nat)
    requires len0 < buf.Length
    modifies s, buf
    ensures var r := ReadSize(old(buf[..len0]), old(s.segs), buf.Length);
            && (ok <==> r.Sized?) && len <= buf.Length
            && (ok ==> size == r.size && len < buf.Length && buf[..len] == r.buf && s.segs == r.segs)
  {
    hide ParseLine, Joined, Drop;
    len, ok, size := len0, true, 0;
    ghost var r := ReadSize(buf[..len], s.segs, buf.Length);
    var begin := true;
    while true
      invariant len < buf.Length && (!begin ==> len == 0)
      invariant r == ReadSize(buf[..len], s.segs, buf.Length)
      decreases |Joined(s.segs)|, begin
    {
      if !begin || len == 0 {
        assert buf[..len] == [];
        var rt := Refill(s, buf);
        if rt <= 0 {
          ok := false;
          return;
        }
        len := rt;
      }
      var line: Line;
      line, len := Parse(buf, len);
      if line.Other? {
        ok := false;
        return;
      }
      if line.Complete? {
        size := line.size;
        return;
      }
      assert buf[..len] == [];
      begin := false;
    }
  }

  /** The rest of a chunk that is not in the buffer, in pieces of at most its size. */
  method ReadRest(s: Source, buf: array<byte>, n: nat) returns (ok: bool, got: seq<byte>)
    requires buf.Length > 0
    modifies s, buf
    ensures ok <==> n <= |Joined(old(s.segs))|
    ensures ok ==> got == Joined(old(s.segs))[..n] && s.segs == Drop(old(s.segs), n)
  {
    hide Joined, Drop, Piece;
    var left := n;
    got := [];
    ghost var all := Joined(s.segs);
    DropNothing(s.segs);
    while left > 0
      invariant 0 <= left <= n && n - left <= |all|
      invariant got == all[..n - left] && s.segs == Drop(old(s.segs), n - left)
      decreases left
    {
      ghost var segs0, done := s.segs, n - left;
      DropJoined(old(s.segs), done);
      var rt := s.Read(buf, 0, if left > buf.Length then buf.Length else left);
      if rt <= 0 {
        NothingJoined();
        return false, got;
      }
      FirstPiece(segs0, rt, all, done);
      DropTwice(old(s.segs), done, rt);
      assert buf[..rt] == segs0[0][..rt];
      got := got + buf[..rt];
      left := left - rt;
    }
    ok := true;
  }

  lemma FirstPiece(segs: Segments, k: nat, all: seq<byte>, done: nat)
    requires segs != [] && k <= |segs[0]| && done <= |all| && Joined(segs) == all[done..]
    ensures done + k <= |all| && all[..done] + segs[0][..k] == all[..done + k]
  {
    assert segs[0][..k] == Joined(segs)[..k];
    assert all[done..][..k] == all[done..done + k];
  }

  lemma DropNothing(segs: Segments)
    ensures Drop(segs, 0) == segs
  {
  }

  lemma NothingJoined()
    ensures Joined([]) == []
  {
  }

  /** A chunk's payload and the line end behind it, from the buffer or the stream. */
  method TakeChunk(s: Source, buf: array<byte>, len0: nat, size: nat, body0: seq<byte>)
      returns (ok: bool, len: nat, body: seq<byte>)
    requires len0 < buf.Length
    modifies s, buf
    ensures var b, segs := old(buf[..len0]), old(s.segs);
            && (ok <==> |b| + |Joined(segs)| >= size + 2) && len < buf.Length
            && (ok ==> body == body0 + (b + Joined(segs))[..size])
            && (ok && size + 2 <= |b| ==> buf[..len] == b[size + 2..] && s.segs == segs)
            && (ok && size + 2 > |b| ==> buf[..len] == [] && s.segs == Drop(segs, size + 2 - |b|))
  {
    hide Joined, Drop;
    ghost var all := buf[..len0] + Joined(s.segs);
    if size + 2 <= len0 {
      assert buf[..size] == all[..size];
      body := body0 + buf[..size];
      Shift(buf, size + 2, len0);
      ok, len := true, len0 - (size + 2);
    } else {
      body := body0 + buf[..len0];
      var got: seq<byte>;
      ok, got := ReadRest(s, buf, size + 2 - len0);
      len := 0;
      if !ok {
        return;
      }
      body := body + got;
      assert body == body0 + all[..size + 2];
      body := body[..|body| - 2];
      assert body == body0 + all[..size];
    }
  }

  /** The outer loop. */
  method RecvChunked(s: Source, buf: array<byte>, len0: nat) returns (ok: bool, body: seq<byte>, len: nat)
    requires len0 < buf.Length
    modifies s, buf
    ensures var r := Receive(old(buf[..len0]), old(s.segs), buf.Length);
            && ok == r.ok && len <= buf.Length
            && (ok ==> body == r.body && buf[..len] == r.buf && s.segs == r.segs)
  {
    hide Receive, ReadSize, Joined, Drop;
    len, body, ok := len0, [], true;
    ghost var all := Receive(buf[..len], s.segs, buf.Length);
    var done := false;
    while !done
      invariant len < buf.Length
      invariant !done ==> Follows(all, body, Receive(buf[..len], s.segs, buf.Length))
      invariant done ==> all.ok && body == all.body && buf[..len] == all.buf && s.segs == all.segs
      decreases !done, len + |Joined(s.segs)|
    {
      ghost var b0, s0 := buf[..len], s.segs;
      var size: nat;
      ok, size, len := SizeLine(s, buf, len);
      TurnFails(b0, s0, buf.Length);
      if !ok {
        return;
      }
      ghost var r := ReadSize(b0, s0, buf.Length);
      ghost var body0 := body;
      SizedShrinks(b0, s0, buf.Length);
      ok, len, body := TakeChunk(s, buf, len, size, body);
      if !ok {
        return;
      }
      LeftShrinks(r.buf, r.segs, size, buf[..len], s.segs);
      ghost var next := Receive(buf[..len], s.segs, buf.Length);
      TurnTaken(b0, s0, buf.Length, r, buf[..len], s.segs, next);
      Assoc(body0, (r.buf + Joined(r.segs))[..size], next.body);
      done := size == 0;
    }
  }

  /** `all` is what the loop returns if it has `body` already and `rest` is still to come. */
  ghost predicate Follows(all: Outcome, body: seq<byte>, rest: Outcome) {
    all.ok == rest.ok && all.body == body + rest.body && all.buf == rest.buf && all.segs == rest.segs
  }

  lemma TurnFails(buf: seq<byte>, segs: Segments, room: nat)
    requires room > 0
    ensures var r := ReadSize(buf, segs, room);
            r.Failed? || |r.buf| + |Joined(r.segs)| < r.size + 2 ==> !Receive(buf, segs, room).ok
  {
    hide ReadSize, Joined, Drop;
  }

  lemma SizedShrinks(buf: seq<byte>, segs: Segments, room: nat)
    requires room > 0
    ensures var r := ReadSize(buf, segs, room);
            r.Sized? ==> |r.buf| + |Joined(r.segs)| < |buf| + |Joined(segs)|
  {
  }

  lemma LeftShrinks(b: seq<byte>, segs: Segments, size: nat, b': seq<byte>, segs': Segments)
    requires |b| + |Joined(segs)| >= size + 2
    requires size + 2 <= |b| ==> b' == b[size + 2..] && segs' == segs
    requires size + 2 > |b| ==> b' == [] && segs' == Drop(segs, size + 2 - |b|)
    ensures |b'| + |Joined(segs')| <= |b| + |Joined(segs)|
  {
    if size + 2 > |b| {
      DropJoined(segs, size + 2 - |b|);
    }
  }
}
