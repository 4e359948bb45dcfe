/** The typed reads and writes of `ByteArray` (src/bytearray.cc), proved against
    the pure formats, and the round trip of any list of them. */
module TypedIo {
  import opened Wrappers
  import opened Bytes
  import opened Codec
  import opened ByteArrays

  /** What is written: fixed-width integers of 1, 2, 4 or 8 bytes (`float` and
      `double` go through the unsigned ones), varints and zigzag varints of 32 or
      64 bits, and strings prefixed by a fixed-width or a varint length. */
  datatype Kind =
    | Unsigned(width: nat)
    | Signed(width: nat)
    | VarUnsigned(bits: nat)
    | VarSigned(bits: nat)
    | Str(width: nat)
    | VarStr

  datatype Value = Num(n: int) | Text(s: seq<byte>)

  /** The values the source's parameter types admit, and the strings whose length
      fits the width of its prefix. */
  ghost predicate Fits(kind: Kind, value: Value) {
    match kind
    case Unsigned(w) => w in {1, 2, 4, 8} && value.Num? && 0 <= value.n < Pow256(w)
    case Signed(w) => w in {1, 2, 4, 8} && value.Num? && SignedRange(value.n, Pow256(w))
    case VarUnsigned(b) => b in {32, 64} && value.Num? && 0 <= value.n < Pow2(b)
    case VarSigned(b) => b in {32, 64} && value.Num? && SignedRange(value.n, Pow2(b))
    case Str(w) => w in {2, 4, 8} && value.Text? && |value.s| < Pow256(w)
    case VarStr => value.Text? && |value.s| < M64
  }

  /** Every argument of the source's integer types fits, and every string whose length its
      prefix can hold. */
  lemma EveryArgumentFits(n: int, s: seq<byte>)
    ensures 0 <= n < 0x100 <==> Fits(Unsigned(1), Num(n))
    ensures 0 <= n < 0x1_0000 <==> Fits(Unsigned(2), Num(n))
    ensures 0 <= n < 0x1_0000_0000 <==> Fits(Unsigned(4), Num(n))
    ensures 0 <= n < 0x1_0000_0000_0000_0000 <==> Fits(Unsigned(8), Num(n))
    ensures -0x80 <= n < 0x80 <==> Fits(Signed(1), Num(n))
    ensures -0x8000 <= n < 0x8000 <==> Fits(Signed(2), Num(n))
    ensures -0x8000_0000 <= n < 0x8000_0000 <==> Fits(Signed(4), Num(n))
    ensures -0x8000_0000_0000_0000 <= n < 0x8000_0000_0000_0000 <==> Fits(Signed(8), Num(n))
    ensures 0 <= n < 0x1_0000_0000 <==> Fits(VarUnsigned(32), Num(n))
    ensures 0 <= n < 0x1_0000_0000_0000_0000 <==> Fits(VarUnsigned(64), Num(n))
    ensures -0x8000_0000 <= n < 0x8000_0000 <==> Fits(VarSigned(32), Num(n))
    ensures -0x8000_0000_0000_0000 <= n < 0x8000_0000_0000_0000 <==> Fits(VarSigned(64), Num(n))
    ensures |s| < 0x1_0000 <==> Fits(Str(2), Text(s))
    ensures |s| < 0x1_0000_0000 <==> Fits(Str(4), Text(s))
    ensures |s| < 0x1_0000_0000_0000_0000 <==> Fits(Str(8), Text(s))
    ensures |s| < 0x1_0000_0000_0000_0000 <==> Fits(VarStr, Text(s))
  {
    Widths();
  }

  function Rounds(bits: nat): nat { if bits == 32 then 5 else 10 }

  /** Truncation to the low `n` bits. */
  function LowBits(v: nat, n: nat): nat { if n == 0 then 0 else v % 2 + 2 * LowBits(v / 2, n - 1) }

  lemma {:induction false} LowBitsFit(v: nat, n: nat)
    requires v < Pow2(n)
    ensures LowBits(v, n) == v
  {
    if n > 0 {
      LowBitsFit(v / 2, n - 1);
    }
  }

  /** Truncation is done bit by bit, and so commutes with `|`. */
  lemma {:induction false} LowBitsOr(a: nat, b: nat, n: nat)
    ensures LowBits(Or(a, b), n) == Or(LowBits(a, n), LowBits(b, n))
  {
    if n > 0 {
      LowBitsOr(a / 2, b / 2, n - 1);
      OrParts(a, b);
      OrParts(LowBits(a, n), LowBits(b, n));
    }
  }

  lemma OrParts(a: nat, b: nat)
    ensures Or(a, b) % 2 == (if a % 2 == 1 || b % 2 == 1 then 1 else 0) && Or(a, b) / 2 == Or(a / 2, b / 2)
  {
  }

  function ZigzagOf(v: int, bits: nat): int { if bits == 32 then Zigzag32(v) else Zigzag64(v) }

  lemma ZigzagFits(v: int, bits: nat)
    requires bits in {32, 64} && SignedRange(v, Pow2(bits))
    ensures 0 <= ZigzagOf(v, bits) < Pow2(bits) && Unzigzag(ZigzagOf(v, bits), bits) == v
  {
    Widths();
    ZigzagRoundTrip(v);
  }

  ghost function Encode(host: Endian, e: Endian, kind: Kind, value: Value): seq<byte>
    requires Fits(kind, value)
  {
    match kind
    case Unsigned(w) => FixedWrite(host, e, value.n, w)
    case Signed(w) => FixedWrite(host, e, ToUnsigned(value.n, Pow256(w)), w)
    case VarUnsigned(b) => Varint(value.n)
    case VarSigned(b) => ZigzagFits(value.n, b); Varint(ZigzagOf(value.n, b))
    case Str(w) => FixedWrite(host, e, |value.s|, w) + value.s
    case VarStr => Varint(|value.s|) + value.s
  }

  ghost function DecodeFixed(host: Endian, e: Endian, w: nat, bs: seq<byte>): (r: Option<Parsed<nat>>)
    ensures r.Some? ==> r.value.used <= |bs|
  {
    if |bs| < w then None else Some(Parsed(FixedRead(host, e, bs[..w]), w))
  }

  ghost function DecodeVarint(bits: nat, bs: seq<byte>): (r: Option<Parsed<nat>>)
    ensures r.Some? ==> r.value.used <= |bs|
  {
    match Unvarint(bs, Rounds(bits))
    case None => None
    case Some(Parsed(v, k)) => Some(Parsed(LowBits(v, bits), k))
  }

  ghost function DecodeText(prefix: Option<Parsed<nat>>, bs: seq<byte>): Option<Parsed<Value>>
    requires prefix.Some? ==> prefix.value.used <= |bs|
  {
    if prefix.None? || prefix.value.used + prefix.value.value > |bs| then None
    else
      var k, n := prefix.value.used, prefix.value.value;
      Some(Parsed(Text(bs[k..k + n]), k + n))
  }

  ghost function Decode(host: Endian, e: Endian, kind: Kind, bs: seq<byte>): Option<Parsed<Value>> {
    match kind
    case Unsigned(w) =>
      (match DecodeFixed(host, e, w, bs)
       case None => None
       case Some(Parsed(v, k)) => Some(Parsed(Num(v), k)))
    case Signed(w) =>
      (match DecodeFixed(host, e, w, bs)
       case None => None
       case Some(Parsed(v, k)) => Some(Parsed(Num(ToSigned(v, Pow256(w))), k)))
    case VarUnsigned(b) =>
      (match DecodeVarint(b, bs)
       case None => None
       case Some(Parsed(v, k)) => Some(Parsed(Num(v), k)))
    case VarSigned(b) =>
      (match DecodeVarint(b, bs)
       case None => None
       case Some(Parsed(v, k)) => Some(Parsed(Num(Unzigzag(v, b)), k)))
    case Str(w) => DecodeText(DecodeFixed(host, e, w, bs), bs)
    case VarStr => DecodeText(DecodeVarint(64, bs), bs)
  }

  // ------------------------------------------------------- round trips, purely

  lemma FixedDecodes(host: Endian, e: Endian, w: nat, v: nat, tail: seq<byte>)
    requires v < Pow256(w)
    ensures DecodeFixed(host, e, w, FixedWrite(host, e, v, w) + tail) == Some(Parsed(v, w))
  {
    assert (FixedWrite(host, e, v, w) + tail)[..w] == FixedWrite(host, e, v, w);
    FixedRoundTrip(host, e, v, w);
  }

  lemma VarintDecodes(bits: nat, v: nat, tail: seq<byte>)
    requires bits in {32, 64} && v < Pow2(bits)
    ensures DecodeVarint(bits, Varint(v) + tail) == Some(Parsed(v, |Varint(v)|))
  {
    Widths();
    VarintRoundTrip(v, Rounds(bits), tail);
    LowBitsFit(v, bits);
  }

  lemma ToSignedInverse(v: int, m: nat)
    requires SignedRange(v, m) && m % 2 == 0
    ensures 0 <= ToUnsigned(v, m) < m && ToSigned(ToUnsigned(v, m), m) == v
  {
  }

  lemma TextDecodes(prefix: seq<byte>, s: seq<byte>, tail: seq<byte>)
    ensures DecodeText(Some(Parsed(|s|, |prefix|)), (prefix + s) + tail) == Some(Parsed(Text(s), |prefix + s|))
  {
    assert ((prefix + s) + tail)[|prefix|..|prefix| + |s|] == s;
  }

  lemma IntegerRoundTrip(host: Endian, e: Endian, kind: Kind, value: Value, tail: seq<byte>)
    requires Fits(kind, value) && (kind.Unsigned? || kind.Signed?)
    ensures Decode(host, e, kind, Encode(host, e, kind, value) + tail)
            == Some(Parsed(value, |Encode(host, e, kind, value)|))
  {
    if kind.Unsigned? {
      FixedDecodes(host, e, kind.width, value.n, tail);
    } else {
      ToSignedInverse(value.n, Pow256(kind.width));
      FixedDecodes(host, e, kind.width, ToUnsigned(value.n, Pow256(kind.width)), tail);
    }
  }

  lemma StrRoundTrip(host: Endian, e: Endian, w: nat, value: Value, tail: seq<byte>)
    requires Fits(Str(w), value)
    ensures Decode(host, e, Str(w), Encode(host, e, Str(w), value) + tail)
            == Some(Parsed(value, |Encode(host, e, Str(w), value)|))
  {
    var prefix := FixedWrite(host, e, |value.s|, w);
    FixedDecodes(host, e, w, |value.s|, value.s + tail);
    assert (prefix + value.s) + tail == prefix + (value.s + tail);
    TextDecodes(prefix, value.s, tail);
  }

  lemma VarStrRoundTrip(s: seq<byte>, tail: seq<byte>)
    requires |s| < M64
    ensures var bs := (Varint(|s|) + s) + tail;
            DecodeText(DecodeVarint(64, bs), bs) == Some(Parsed(Text(s), |Varint(|s|) + s|))
  {
    Widths();
    VarintDecodes(64, |s|, s + tail);
    assert (Varint(|s|) + s) + tail == Varint(|s|) + (s + tail);
    TextDecodes(Varint(|s|), s, tail);
  }

  /** Decoding what was encoded, with anything after it, returns the value and
      uses exactly its bytes. */
  lemma RoundTrip(host: Endian, e: Endian, kind: Kind, value: Value, tail: seq<byte>)
    requires Fits(kind, value)
    ensures Decode(host, e, kind, Encode(host, e, kind, value) + tail)
            == Some(Parsed(value, |Encode(host, e, kind, value)|))
  {
    hide FixedWrite, Varint, Unvarint, DecodeFixed, DecodeVarint, Unzigzag, ZigzagOf;
    match kind
    case Unsigned(w) => IntegerRoundTrip(host, e, kind, value, tail);
    case Signed(w) => IntegerRoundTrip(host, e, kind, value, tail);
    case VarUnsigned(b) => VarintDecodes(b, value.n, tail);
    case VarSigned(b) =>
      ZigzagFits(value.n, b);
      VarintDecodes(b, ZigzagOf(value.n, b), tail);
    case Str(w) => StrRoundTrip(host, e, w, value, tail);
    case VarStr => VarStrRoundTrip(value.s, tail);
  }

  // ---------------------------------------------------------- on the array

  /** Where every write is faithful: anywhere but the very end of storage. */
  ghost predicate Ready(ba: ByteArray)
    reads ba, ba.nodes
  {
    ba.Valid() && ba.position < ba.Storage()
  }

  lemma WriteAtTwice(c: seq<byte>, p: nat, a: seq<byte>, b: seq<byte>)
    requires p <= |c|
    ensures WriteAt(WriteAt(c, p, a), p + |a|, b) == WriteAt(c, p, a + b)
  {
  }

  /** `write_fixed_*`: swap when the selected order is not the host's, then write
      the integer as it lies in memory. */
  method WriteFixed(ba: ByteArray, host: Endian, e: Endian, v: nat, w: nat)
    requires Ready(ba) && w > 0
    modifies ba, ba.nodes
    ensures Ready(ba) && old(ba.nodes) <= ba.nodes
    ensures forall i :: |old(ba.nodes)| <= i < |ba.nodes| ==> fresh(ba.nodes[i])
    ensures ba.position == old(ba.position) + w
    ensures ba.Contents() == WriteAt(old(ba.Contents()), old(ba.position), FixedWrite(host, e, v, w))
  {
    var x := v;
    if e != host {
      x := ByteSwap(x, w);
    }
    ba.Write(InMemory(host, x, w));
  }

  lemma VarintUnfold(x: nat, done: seq<byte>)
    ensures done + Varint(x) == if x < 128 then done + [x] else (done + [x % 128 + 128]) + Varint(x / 128)
  {
    if x >= 128 {
      Assoc(done, [x % 128 + 128], Varint(x / 128));
    }
  }

  /** The loop of `write_uint32` and `write_uint64`: the scratch buffer of `cap`
      bytes is never overrun. */
  method VarintBytes(v: nat, cap: nat) returns (bs: seq<byte>)
    requires 0 < cap && v < Pow128(cap)
    ensures bs == Varint(v) && |bs| <= cap
  {
    hide Varint;
    var tmp := new byte[cap](i => 0);
    var x, i := v, 0;
    while x >= 128
      invariant 0 <= i < cap && 0 <= x < Pow128(cap - i)
      invariant Varint(v) == tmp[..i] + Varint(x)
      decreases x
    {
      assert Pow128(cap - i) == 128 * Pow128(cap - i - 1) && Pow128(0) == 1;
      VarintUnfold(x, tmp[..i]);
      tmp[i] := x % 128 + 128;
      i := i + 1;
      x := x / 128;
    }
    VarintUnfold(x, tmp[..i]);
    tmp[i] := x;
    i := i + 1;
    bs := tmp[..i];
  }

  method WriteVarint(ba: ByteArray, v: nat, bits: nat)
    requires Ready(ba) && bits in {32, 64} && v < Pow2(bits)
    modifies ba, ba.nodes
    ensures Ready(ba) && old(ba.nodes) <= ba.nodes
    ensures forall i :: |old(ba.nodes)| <= i < |ba.nodes| ==> fresh(ba.nodes[i])
    ensures ba.position == old(ba.position) + |Varint(v)|
    ensures ba.Contents() == WriteAt(old(ba.Contents()), old(ba.position), Varint(v))
  {
    Widths();
    var bs := VarintBytes(v, Rounds(bits));
    ba.Write(bs);
  }

  /** The second half of writing a string, after its length. */
  method WriteText(ba: ByteArray, s: seq<byte>, ghost before: seq<byte>, ghost p: nat, ghost prefix: seq<byte>)
    requires Ready(ba) && p <= |before| && ba.position == p + |prefix|
    requires ba.Contents() == WriteAt(before, p, prefix)
    modifies ba, ba.nodes
    ensures Ready(ba) && old(ba.nodes) <= ba.nodes
    ensures forall i :: |old(ba.nodes)| <= i < |ba.nodes| ==> fresh(ba.nodes[i])
    ensures ba.position == p + |prefix + s|
    ensures ba.Contents() == WriteAt(before, p, prefix + s)
  {
    WriteAtTwice(before, p, prefix, s);
    ba.Write(s);
  }

  /** `write_fixed_str16`, `write_fixed_str32`, `write_fixed_str64` */
  method WriteStr(ba: ByteArray, host: Endian, e: Endian, w: nat, s: seq<byte>)
    requires Ready(ba) && w > 0
    modifies ba, ba.nodes
    ensures Ready(ba) && old(ba.nodes) <= ba.nodes
    ensures forall i :: |old(ba.nodes)| <= i < |ba.nodes| ==> fresh(ba.nodes[i])
    ensures ba.position == old(ba.position) + w + |s|
    ensures ba.Contents() == WriteAt(old(ba.Contents()), old(ba.position), FixedWrite(host, e, |s|, w) + s)
  {
    ghost var before, p := ba.Contents(), ba.position;
    WriteFixed(ba, host, e, |s|, w);
    WriteText(ba, s, before, p, FixedWrite(host, e, |s|, w));
  }

  /** `write_str` */
  method WriteVarStr(ba: ByteArray, s: seq<byte>)
    requires Ready(ba) && |s| < Pow2(64)
    modifies ba, ba.nodes
    ensures Ready(ba) && old(ba.nodes) <= ba.nodes
    ensures forall i :: |old(ba.nodes)| <= i < |ba.nodes| ==> fresh(ba.nodes[i])
    ensures ba.position == old(ba.position) + |Varint(|s|) + s|
    ensures ba.Contents() == WriteAt(old(ba.Contents()), old(ba.position), Varint(|s|) + s)
  {
    ghost var before, p := ba.Contents(), ba.position;
    WriteVarint(ba, |s|, 64);
    WriteText(ba, s, before, p, Varint(|s|));
  }

  /** Any one typed write puts the value's encoding at the position. */
  method WriteValue(ba: ByteArray, host: Endian, e: Endian, kind: Kind, value: Value)
    requires Ready(ba) && Fits(kind, value)
    modifies ba, ba.nodes
    ensures Ready(ba) && old(ba.nodes) <= ba.nodes
    ensures forall i :: |old(ba.nodes)| <= i < |ba.nodes| ==> fresh(ba.nodes[i])
    ensures ba.position == old(ba.position) + |Encode(host, e, kind, value)|
    ensures ba.Contents() == WriteAt(old(ba.Contents()), old(ba.position), Encode(host, e, kind, value))
  {
    hide Linked, Indexed, Held, Uniform, Flatten, Times, WriteAt, Varint, FixedWrite, ZigzagOf, Pow2, Unzigzag;
    match kind
    case Unsigned(w) => WriteFixed(ba, host, e, value.n, w);
    case Signed(w) =>
      ToSignedInverse(value.n, Pow256(w));
      WriteFixed(ba, host, e, ToUnsigned(value.n, Pow256(w)), w);
    case VarUnsigned(b) => WriteVarint(ba, value.n, b);
    case VarSigned(b) =>
      ZigzagFits(value.n, b);
      WriteVarint(ba, ZigzagOf(value.n, b), b);
    case Str(w) => WriteStr(ba, host, e, w, value.s);
    case VarStr =>
      Widths();
      WriteVarStr(ba, value.s);
  }

  /** The unread bytes. */
  ghost function Rest(ba: ByteArray): seq<byte>
    requires ba.Valid()
    reads ba, ba.nodes
  {
    ba.Contents()[ba.position..]
  }

  /** `read_fixed_*`, which throws when too few bytes are left. */
  method ReadFixed(ba: ByteArray, host: Endian, e: Endian, w: nat) returns (r: Option<nat>)
    requires ba.Valid()
    modifies ba`position, ba`cur, ba`at
    ensures ba.Valid() && ba.Contents() == old(ba.Contents())
    ensures r.None? <==> DecodeFixed(host, e, w, old(Rest(ba))).None?
    ensures r.None? ==> ba.position == old(ba.position)
    ensures r.Some? ==>
              ba.position == old(ba.position) + w && DecodeFixed(host, e, w, old(Rest(ba))) == Some(Parsed(r.value, w))
  {
    var d := ba.Read(w);
    if d.None? {
      return None;
    }
    assert d.value == old(Rest(ba))[..w];
    var v := FromMemory(host, d.value);
    return Some(if e == host then v else ByteSwap(v, w));
  }

  /** `v << n` before truncation. */
  function ShiftLeft(v: nat, n: nat): nat { if n == 0 then v else 2 * ShiftLeft(v, n - 1) }

  lemma {:induction false} ShiftAdd(a: nat, b: nat, n: nat)
    ensures ShiftLeft(a + b, n) == ShiftLeft(a, n) + ShiftLeft(b, n)
    ensures ShiftLeft(2 * a, n) == ShiftLeft(a, n + 1)
  {
    if n > 0 {
      ShiftAdd(a, b, n - 1);
    }
  }

  lemma ShiftGroup(low: nat, v: nat, n: nat)
    ensures ShiftLeft(low + 128 * v, n) == ShiftLeft(low, n) + ShiftLeft(v, n + 7)
  {
    hide ShiftLeft;
    ShiftAdd(low, 128 * v, n);
    ShiftAdd(64 * v, 0, n);
    ShiftAdd(32 * v, 0, n + 1);
    ShiftAdd(16 * v, 0, n + 2);
    ShiftAdd(8 * v, 0, n + 3);
    ShiftAdd(4 * v, 0, n + 4);
    ShiftAdd(2 * v, 0, n + 5);
    ShiftAdd(v, 0, n + 6);
  }

  /** Where a varint's reading stands: `acc` from `done` bytes so far, and what is
      still to come counts shifted by `i`. */
  ghost predicate Pending(whole: Option<Parsed<nat>>, acc: nat, i: nat, rest: Option<Parsed<nat>>, done: nat) {
    if rest.None? then whole.None?
    else whole == Some(Parsed(acc + ShiftLeft(rest.value.value, i), done + rest.value.used))
  }

  lemma PendingMore(whole: Option<Parsed<nat>>, acc: nat, acc': nat, i: nat, bs: seq<byte>, k: nat, done: nat)
    requires k > 0 && bs != [] && bs[0] >= 128 && Pending(whole, acc, i, Unvarint(bs, k), done)
    requires acc' == acc + ShiftLeft(bs[0] % 128, i)
    ensures Pending(whole, acc', i + 7, Unvarint(bs[1..], k - 1), done + 1)
  {
    var rest := Unvarint(bs[1..], k - 1);
    if rest.Some? {
      ShiftGroup(bs[0] % 128, rest.value.value, i);
    }
  }

  lemma PendingLast(whole: Option<Parsed<nat>>, acc: nat, acc': nat, i: nat, bs: seq<byte>, k: nat, done: nat)
    requires k > 0 && bs != [] && bs[0] < 128 && Pending(whole, acc, i, Unvarint(bs, k), done)
    requires acc' == acc + ShiftLeft(bs[0] % 128, i)
    ensures whole == Some(Parsed(acc', done + 1))
  {
  }

  lemma {:induction false} ShiftZero(n: nat)
    ensures ShiftLeft(0, n) == 0
  {
    if n > 0 {
      ShiftZero(n - 1);
    }
  }

  lemma PendingDone(whole: Option<Parsed<nat>>, acc: nat, i: nat, bs: seq<byte>, done: nat)
    requires Pending(whole, acc, i, Unvarint(bs, 0), done)
    ensures whole == Some(Parsed(acc, done))
  {
    ShiftZero(i);
  }

  lemma PendingStart(whole: Option<Parsed<nat>>, bits: nat)
    ensures Pending(whole, 0, 0, whole, 0) && LowBits(0, bits) == 0
  {
    LowBitsFit(0, bits);
  }

  method ReadByte(ba: ByteArray) returns (r: Option<byte>)
    requires ba.Valid()
    modifies ba`position, ba`cur, ba`at
    ensures ba.Valid() && ba.Contents() == old(ba.Contents())
    ensures r.None? <==> old(Rest(ba)) == []
    ensures r.None? ==> ba.position == old(ba.position)
    ensures r.Some? ==>
              r.value == old(Rest(ba))[0] && ba.position == old(ba.position) + 1 && Rest(ba) == old(Rest(ba))[1..]
  {
    var d := ba.Read(1);
    if d.None? {
      return None;
    }
    return Some(d.value[0]);
  }

  lemma {:induction false} OrZero(x: nat)
    ensures Or(0, x) == x
  {
    if x > 0 {
      OrZero(x / 2);
    }
  }

  /** `|` of bits below `i` and bits from `i` on is their sum. */
  lemma {:induction false} OrDisjoint(v: nat, x: nat, i: nat)
    requires v < Pow2(i)
    ensures Or(v, ShiftLeft(x, i)) == v + ShiftLeft(x, i)
  {
    if i == 0 {
      OrZero(x);
    } else {
      OrDisjoint(v / 2, x, i - 1);
      OrParts(v, ShiftLeft(x, i));
    }
  }

  lemma {:induction false} ShiftBound(x: nat, i: nat)
    requires x < 128
    ensures ShiftLeft(x, i) + Pow2(i) <= Pow2(i + 7)
  {
    if i > 0 {
      ShiftBound(x, i - 1);
      assert Pow2(i + 7) == 2 * Pow2(i - 1 + 7);
    } else {
      assert Pow2(7) == 128;
    }
  }

  /** `v |= (b & 0x7f) << i`, truncated to the width: the bits so far lie below `i`. */
  method AddGroup(v: nat, b: byte, i: nat, bits: nat, ghost acc: nat) returns (v': nat, ghost acc': nat)
    requires v == LowBits(acc, bits) && acc < Pow2(i) && i < bits
    ensures acc' == acc + ShiftLeft(b % 128, i) && v' == LowBits(acc', bits) && acc' < Pow2(i + 7)
  {
    hide LowBits, Or, ShiftLeft, Pow2;
    v' := Or(v, LowBits(ShiftLeft(b % 128, i), bits));
    acc' := acc + ShiftLeft(b % 128, i);
    LowBitsOr(acc, ShiftLeft(b % 128, i), bits);
    OrDisjoint(acc, b % 128, i);
    ShiftBound(b % 128, i);
  }

  datatype Round = Short | Last | More

  /** One round of the reading loop: the next byte, if any, ends the number or not. */
  method VarintRound(ba: ByteArray, bits: nat, v: nat, i: nat,
                     ghost whole: Option<Parsed<nat>>, ghost acc: nat, ghost k: nat, ghost done: nat)
    returns (e: Round, v': nat, ghost acc': nat)
    requires ba.Valid() && k > 0 && v == LowBits(acc, bits) && Pending(whole, acc, i, Unvarint(Rest(ba), k), done)
    requires acc < Pow2(i) && i < bits
    modifies ba`position, ba`cur, ba`at
    ensures ba.Valid() && ba.Contents() == old(ba.Contents())
    ensures e.Short? ==> whole.None? && ba.position == old(ba.position)
    ensures !e.Short? ==> ba.position == old(ba.position) + 1 && v' == LowBits(acc', bits) && acc' < Pow2(i + 7)
    ensures e.Last? ==> whole == Some(Parsed(acc', done + 1))
    ensures e.More? ==> Pending(whole, acc', i + 7, Unvarint(Rest(ba), k - 1), done + 1)
  {
    ghost var rest := Rest(ba);
    var b := ReadByte(ba);
    if b.None? {
      return Short, v, acc;
    }
    v', acc' := AddGroup(v, b.value, i, bits, acc);
    if b.value < 128 {
      PendingLast(whole, acc, acc', i, rest, k, done);
      e := Last;
    } else {
      PendingMore(whole, acc, acc', i, rest, k, done);
      e := More;
    }
  }

  /** The loop of `read_uint32` and `read_uint64`: bytes are read one at a time, and
      each shifted group is added modulo the width. */
  method VarintLoop(ba: ByteArray, bits: nat, ghost rounds: nat, ghost whole: Option<Parsed<nat>>)
      returns (r: Option<nat>)
    requires ba.Valid() && 7 * rounds - 7 < bits <= 7 * rounds && whole == Unvarint(Rest(ba), rounds)
    modifies ba`position, ba`cur, ba`at
    ensures ba.Valid() && ba.Contents() == old(ba.Contents()) && ba.position >= old(ba.position)
    ensures whole.None? <==> r.None?
    ensures r.Some? ==>
              r.value == LowBits(whole.value.value, bits) && ba.position == old(ba.position) + whole.value.used
  {
    hide Linked, Indexed, Held, Uniform, Flatten, Times, Unvarint, LowBits, Pending, ShiftLeft;
    PendingStart(whole, bits);
    var v: nat, i: nat := 0, 0;
    ghost var acc: nat, k: nat, done: nat := 0, rounds, 0;
    while i < bits
      invariant ba.Valid() && ba.Contents() == old(ba.Contents()) && ba.position == old(ba.position) + done
      invariant i + 7 * k == 7 * rounds && v == LowBits(acc, bits) && acc < Pow2(i)
      invariant Pending(whole, acc, i, Unvarint(Rest(ba), k), done)
    {
      var e;
      e, v, acc := VarintRound(ba, bits, v, i, whole, acc, k, done);
      if e != More {
        return if e.Short? then None else Some(v);
      }
      k, done := k - 1, done + 1;
      i := i + 7;
    }
    PendingDone(whole, acc, i, Rest(ba), done);
    return Some(v);
  }

  /** `read_uint32` and `read_uint64` */
  method ReadVarint(ba: ByteArray, bits: nat) returns (r: Option<nat>)
    requires ba.Valid() && bits in {32, 64}
    modifies ba`position, ba`cur, ba`at
    ensures ba.Valid() && ba.Contents() == old(ba.Contents()) && ba.position >= old(ba.position)
    ensures r.None? <==> DecodeVarint(bits, old(Rest(ba))).None?
    ensures r.Some? ==> DecodeVarint(bits, old(Rest(ba))) == Some(Parsed(r.value, ba.position - old(ba.position)))
  {
    r := VarintLoop(ba, bits, Rounds(bits), Unvarint(Rest(ba), Rounds(bits)));
  }

  /** The second half of reading a string, after its length. */
  method ReadText(ba: ByteArray, n: nat, ghost k: nat, ghost bs: seq<byte>) returns (r: Option<Value>)
    requires ba.Valid() && k <= |bs| && Rest(ba) == bs[k..]
    modifies ba`position, ba`cur, ba`at
    ensures ba.Valid() && ba.Contents() == old(ba.Contents()) && ba.position >= old(ba.position)
    ensures r.None? <==> DecodeText(Some(Parsed(n, k)), bs).None?
    ensures r.Some? ==>
              ba.position == old(ba.position) + n && DecodeText(Some(Parsed(n, k)), bs) == Some(Parsed(r.value, k + n))
  {
    var d := ba.Read(n);
    if d.None? {
      return None;
    }
    assert d.value == bs[k..k + n];
    return Some(Text(d.value));
  }

  /** `read_fixed_str16`, `read_fixed_str32`, `read_fixed_str64` */
  method ReadStr(ba: ByteArray, host: Endian, e: Endian, w: nat) returns (r: Option<Value>)
    requires ba.Valid()
    modifies ba`position, ba`cur, ba`at
    ensures ba.Valid() && ba.Contents() == old(ba.Contents()) && ba.position >= old(ba.position)
    ensures r.None? <==> Decode(host, e, Str(w), old(Rest(ba))).None?
    ensures r.Some? ==> Decode(host, e, Str(w), old(Rest(ba))) == Some(Parsed(r.value, ba.position - old(ba.position)))
  {
    hide Linked, Indexed, Held, Uniform, Flatten, Times, FixedRead;
    ghost var bs := Rest(ba);
    var x := ReadFixed(ba, host, e, w);
    if x.None? {
      return None;
    }
    r := ReadText(ba, x.value, w, bs);
  }

  /** `read_str` */
  method ReadVarStr(ba: ByteArray) returns (r: Option<Value>)
    requires ba.Valid()
    modifies ba`position, ba`cur, ba`at
    ensures ba.Valid() && ba.Contents() == old(ba.Contents()) && ba.position >= old(ba.position)
    ensures r.None? <==> DecodeText(DecodeVarint(64, old(Rest(ba))), old(Rest(ba))).None?
    ensures r.Some? ==> DecodeText(DecodeVarint(64, old(Rest(ba))), old(Rest(ba)))
                        == Some(Parsed(r.value, ba.position - old(ba.position)))
  {
    ghost var bs, start := Rest(ba), ba.position;
    var x := ReadVarint(ba, 64);
    if x.None? {
      return None;
    }
    r := ReadText(ba, x.value, ba.position - start, bs);
  }

  method ReadInteger(ba: ByteArray, host: Endian, e: Endian, kind: Kind) returns (r: Option<Value>)
    requires ba.Valid() && (kind.Unsigned? || kind.Signed?)
    modifies ba`position, ba`cur, ba`at
    ensures ba.Valid() && ba.Contents() == old(ba.Contents()) && ba.position >= old(ba.position)
    ensures r.None? <==> Decode(host, e, kind, old(Rest(ba))).None?
    ensures r.Some? ==> Decode(host, e, kind, old(Rest(ba))) == Some(Parsed(r.value, ba.position - old(ba.position)))
  {
    var x := ReadFixed(ba, host, e, kind.width);
    if x.None? {
      return None;
    }
    return Some(Num(if kind.Unsigned? then x.value else ToSigned(x.value, Pow256(kind.width))));
  }

  method ReadVarInteger(ba: ByteArray, host: Endian, e: Endian, kind: Kind) returns (r: Option<Value>)
    requires ba.Valid() && (kind.VarUnsigned? || kind.VarSigned?) && kind.bits in {32, 64}
    modifies ba`position, ba`cur, ba`at
    ensures ba.Valid() && ba.Contents() == old(ba.Contents()) && ba.position >= old(ba.position)
    ensures r.None? <==> Decode(host, e, kind, old(Rest(ba))).None?
    ensures r.Some? ==> Decode(host, e, kind, old(Rest(ba))) == Some(Parsed(r.value, ba.position - old(ba.position)))
  {
    var x := ReadVarint(ba, kind.bits);
    if x.None? {
      return None;
    }
    return Some(Num(if kind.VarUnsigned? then x.value else Unzigzag(x.value, kind.bits)));
  }

  /** Any one typed read decodes the bytes from the position on. */
  method ReadValue(ba: ByteArray, host: Endian, e: Endian, kind: Kind) returns (r: Option<Value>)
    requires ba.Valid() && (kind.VarUnsigned? || kind.VarSigned? ==> kind.bits in {32, 64})
    modifies ba`position, ba`cur, ba`at
    ensures ba.Valid() && ba.Contents() == old(ba.Contents()) && ba.position >= old(ba.position)
    ensures r.None? <==> Decode(host, e, kind, old(Rest(ba))).None?
    ensures r.Some? ==> Decode(host, e, kind, old(Rest(ba))) == Some(Parsed(r.value, ba.position - old(ba.position)))
  {
    hide Linked, Indexed, Held, Uniform, Flatten, Times, DecodeFixed, DecodeVarint, Unzigzag;
    if kind.Unsigned? || kind.Signed? {
      r := ReadInteger(ba, host, e, kind);
    } else if kind.Str? {
      r := ReadStr(ba, host, e, kind.width);
    } else if kind.VarStr? {
      r := ReadVarStr(ba);
    } else {
      r := ReadVarInteger(ba, host, e, kind);
    }
  }

  // ------------------------------------------------------- lists of values

  datatype Typed = Typed(e: Endian, kind: Kind, value: Value)

  ghost predicate AllFit(items: seq<Typed>) {
    forall i :: 0 <= i < |items| ==> Fits(items[i].kind, items[i].value)
  }

  ghost function EncodeAll(host: Endian, items: seq<Typed>): seq<byte>
    requires AllFit(items)
  {
    if items == [] then []
    else Encode(host, items[0].e, items[0].kind, items[0].value) + EncodeAll(host, items[1..])
  }

  /** Writing a list puts the concatenated encodings at the position. */
  method WriteAll(ba: ByteArray, host: Endian, items: seq<Typed>)
    requires Ready(ba) && AllFit(items)
    modifies ba, ba.nodes
    ensures Ready(ba) && old(ba.nodes) <= ba.nodes
    ensures forall i :: |old(ba.nodes)| <= i < |ba.nodes| ==> fresh(ba.nodes[i])
    ensures ba.position == old(ba.position) + |EncodeAll(host, items)|
    ensures ba.Contents() == WriteAt(old(ba.Contents()), old(ba.position), EncodeAll(host, items))
    decreases |items|
  {
    hide Linked, Indexed, Held, Uniform, Flatten, Times, WriteAt, Encode, Fits;
    if items == [] {
      WriteNothing(ba.Contents(), ba.position);
      return;
    }
    WriteAtTwice(ba.Contents(), ba.position, Encode(host, items[0].e, items[0].kind, items[0].value),
      EncodeAll(host, items[1..]));
    WriteValue(ba, host, items[0].e, items[0].kind, items[0].value);
    WriteAll(ba, host, items[1..]);
  }

  /** What reading one value leaves of a list's encoding. */
  lemma DecodeNext(host: Endian, items: seq<Typed>, tail: seq<byte>)
    requires AllFit(items) && items != []
    ensures var code := Encode(host, items[0].e, items[0].kind, items[0].value);
            var all := EncodeAll(host, items) + tail;
            && Decode(host, items[0].e, items[0].kind, all) == Some(Parsed(items[0].value, |code|))
            && |code| <= |all| && all[|code|..] == EncodeAll(host, items[1..]) + tail
  {
    hide Encode, Decode, Fits;
    var code := Encode(host, items[0].e, items[0].kind, items[0].value);
    RoundTrip(host, items[0].e, items[0].kind, items[0].value, EncodeAll(host, items[1..]) + tail);
    Assoc(code, EncodeAll(host, items[1..]), tail);
  }

  /** One typed read of the list: `rest` is the encoding still unread. */
  method ReadNext(ba: ByteArray, host: Endian, ghost items: seq<Typed>, e: Endian, kind: Kind, ghost tail: seq<byte>)
    returns (v: Value)
    requires ba.Valid() && AllFit(items) && items != [] && items[0].e == e && items[0].kind == kind
    requires Rest(ba) == EncodeAll(host, items) + tail
    modifies ba`position, ba`cur, ba`at
    ensures ba.Valid() && ba.Contents() == old(ba.Contents()) && v == items[0].value
    ensures Rest(ba) == EncodeAll(host, items[1..]) + tail
  {
    hide Linked, Indexed, Held, Uniform, Flatten, Times, Decode, Encode;
    DecodeNext(host, items, tail);
    ghost var bs := Rest(ba);
    var r := ReadValue(ba, host, e, kind);
    assert Rest(ba) == bs[ba.position - old(ba.position)..];
    v := r.value;
  }

  /** Reading a list back. */
  method ReadAll(ba: ByteArray, host: Endian, kinds: seq<(Endian, Kind)>, ghost items: seq<Typed>,
                 ghost tail: seq<byte>)
    returns (out: seq<Value>)
    requires ba.Valid() && AllFit(items) && Rest(ba) == EncodeAll(host, items) + tail
    requires |kinds| == |items| && forall i :: 0 <= i < |items| ==> kinds[i] == (items[i].e, items[i].kind)
    modifies ba`position, ba`cur, ba`at
    ensures ba.Valid() && ba.Contents() == old(ba.Contents()) && Rest(ba) == tail
    ensures |out| == |items| && forall i :: 0 <= i < |items| ==> out[i] == items[i].value
    decreases |kinds|
  {
    if kinds == [] {
      return [];
    }
    var v := ReadNext(ba, host, items, kinds[0].0, kinds[0].1, tail);
    var vs := ReadAll(ba, host, kinds[1..], items[1..], tail);
    out := [v] + vs;
  }

  function KindsOf(items: seq<Typed>): (ks: seq<(Endian, Kind)>)
    ensures |ks| == |items| && forall i :: 0 <= i < |items| ==> ks[i] == (items[i].e, items[i].kind)
  {
    seq(|items|, i requires 0 <= i < |items| => (items[i].e, items[i].kind))
  }

  /** `set_position` back to where `code` was written leaves it next to be read. */
  method Rewind(ba: ByteArray, start: nat, ghost before: seq<byte>, ghost code: seq<byte>)
    requires ba.Valid() && start <= |before| && start <= ba.position && ba.Contents() == WriteAt(before, start, code)
    modifies ba`position, ba`size, ba`cur, ba`at
    ensures ba.Valid() && ba.Contents() == old(ba.Contents()) && ba.position == start
    ensures |code| <= |Rest(ba)| && Rest(ba) == code + Rest(ba)[|code|..]
  {
    var ok := ba.SetPosition(start);
    assert WriteAt(before, start, code)[start..][..|code|] == code;
  }

  /** Any list of typed writes, then `set_position` to where they began and the same
      typed reads, returns the values written and ends just after their bytes, for
      every chunk size and on every host. */
  method WriteThenRead(ba: ByteArray, host: Endian, items: seq<Typed>) returns (out: seq<Value>)
    requires Ready(ba) && AllFit(items)
    modifies ba, ba.nodes
    ensures ba.Valid() && ba.position == old(ba.position) + |EncodeAll(host, items)|
    ensures |out| == |items| && forall i :: 0 <= i < |items| ==> out[i] == items[i].value
  {
    var start := ba.position;
    ghost var before, code := ba.Contents(), EncodeAll(host, items);
    WriteAll(ba, host, items);
    Rewind(ba, start, before, code);
    ghost var tail := Rest(ba)[|code|..];
    out := ReadAll(ba, host, KindsOf(items), items, tail);
    assert |ba.Contents()| == ba.position + |tail|;
  }
}
