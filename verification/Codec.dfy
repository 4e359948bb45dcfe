/** The typed formats of `ByteArray` (src/bytearray.cc, src/endian.h) as pure
    functions on byte sequences: fixed-width integers in either byte order,
    zigzag, varints and length-prefixed strings. */
module Codec {
  import opened Wrappers
  import opened Bytes

  datatype Endian = Little | Big

  function Pow2(n: nat): (p: nat)
    ensures p > 0
  {
    if n == 0 then 1 else 2 * Pow2(n - 1)
  }

  function Pow128(n: nat): (p: nat)
    ensures p > 0
  {
    if n == 0 then 1 else 128 * Pow128(n - 1)
  }

  function Pow256(n: nat): (p: nat)
    ensures p > 0
  {
    if n == 0 then 1 else 256 * Pow256(n - 1)
  }

  const M32: nat := 0x1_0000_0000
  const M64: nat := 0x1_0000_0000_0000_0000

  // ------------------------------------------------------ fixed-width integers

  /** The low `n` bytes of `v`, least significant first. */
  function LittleBytes(v: nat, n: nat): (bs: seq<byte>)
    ensures |bs| == n
  {
    if n == 0 then [] else [v % 256] + LittleBytes(v / 256, n - 1)
  }

  function FromLittle(bs: seq<byte>): nat {
    if bs == [] then 0 else bs[0] + 256 * FromLittle(bs[1..])
  }

  lemma {:induction false} LittleRoundTrip(v: nat, n: nat)
    requires v < Pow256(n)
    ensures FromLittle(LittleBytes(v, n)) == v
  {
    if n > 0 {
      LittleRoundTrip(v / 256, n - 1);
      assert LittleBytes(v, n)[1..] == LittleBytes(v / 256, n - 1);
    }
  }

  lemma {:induction false} FromLittleRoundTrip(bs: seq<byte>)
    ensures FromLittle(bs) < Pow256(|bs|)
    ensures LittleBytes(FromLittle(bs), |bs|) == bs
  {
    if bs != [] {
      FromLittleRoundTrip(bs[1..]);
    }
  }

  function Reverse(bs: seq<byte>): (r: seq<byte>)
    ensures |r| == |bs| && forall i :: 0 <= i < |bs| ==> r[i] == bs[|bs| - 1 - i]
  {
    if bs == [] then [] else Reverse(bs[1..]) + [bs[0]]
  }

  /** `byteswap` on an integer of `n` bytes. */
  function ByteSwap(v: nat, n: nat): nat { FromLittle(Reverse(LittleBytes(v, n))) }

  /** An integer of `n` bytes as it lies in the memory of a machine. */
  function InMemory(host: Endian, v: nat, n: nat): (bs: seq<byte>)
    ensures |bs| == n
  {
    if host.Little? then LittleBytes(v, n) else Reverse(LittleBytes(v, n))
  }

  function FromMemory(host: Endian, bs: seq<byte>): nat {
    FromLittle(if host.Little? then bs else Reverse(bs))
  }

  /** What `write_fixed_*` passes to `write`. */
  function FixedWrite(host: Endian, endian: Endian, v: nat, n: nat): (bs: seq<byte>)
    ensures |bs| == n
  {
    InMemory(host, if endian != host then ByteSwap(v, n) else v, n)
  }

  /** What `read_fixed_*` makes of the bytes it read. */
  function FixedRead(host: Endian, endian: Endian, bs: seq<byte>): nat {
    var v := FromMemory(host, bs);
    if endian == host then v else ByteSwap(v, |bs|)
  }

  lemma ReverseTwice(bs: seq<byte>)
    ensures Reverse(Reverse(bs)) == bs
  {
  }

  /** `byteswap` undoes itself on every value of its width. */
  lemma ByteSwapTwice(v: nat, n: nat)
    requires v < Pow256(n)
    ensures ByteSwap(v, n) < Pow256(n) && ByteSwap(ByteSwap(v, n), n) == v
  {
    FromLittleRoundTrip(Reverse(LittleBytes(v, n)));
    ReverseTwice(LittleBytes(v, n));
    LittleRoundTrip(v, n);
  }

  /** On every host the bytes written are in the selected order. */
  lemma FixedWriteOrder(host: Endian, endian: Endian, v: nat, n: nat)
    ensures FixedWrite(host, endian, v, n) == if endian.Little? then LittleBytes(v, n) else Reverse(LittleBytes(v, n))
  {
    FromLittleRoundTrip(Reverse(LittleBytes(v, n)));
    ReverseTwice(LittleBytes(v, n));
  }

  lemma FixedRoundTrip(host: Endian, endian: Endian, v: nat, n: nat)
    requires v < Pow256(n)
    ensures FixedRead(host, endian, FixedWrite(host, endian, v, n)) == v
  {
    FixedWriteOrder(host, endian, v, n);
    FromLittleRoundTrip(Reverse(LittleBytes(v, n)));
    ReverseTwice(LittleBytes(v, n));
    LittleRoundTrip(v, n);
  }

  // ----------------------------------------------------- two's complement, zigzag

  /** A signed integer of modulus `m` as the unsigned one with the same bits. */
  function ToUnsigned(v: int, m: nat): int { if v < 0 then v + m else v }

  function ToSigned(u: nat, m: nat): int { if u >= m / 2 then u - m else u }

  ghost predicate SignedRange(v: int, m: nat) { -(m / 2) <= v < m / 2 }

  /** `Encode_Zigzag32`, with the wrap-around of the unsigned arithmetic it uses;
      negating the least value wraps to itself. */
  function Zigzag32(v: int): int {
    if v < 0 then ((-v % 0x1_0000_0000) * 2 % 0x1_0000_0000 - 1) % 0x1_0000_0000 else v * 2 % 0x1_0000_0000
  }

  function Zigzag64(v: int): int {
    if v < 0 then ((-v % 0x1_0000_0000_0000_0000) * 2 % 0x1_0000_0000_0000_0000 - 1) % 0x1_0000_0000_0000_0000
    else v * 2 % 0x1_0000_0000_0000_0000
  }

  /** Exclusive or, bit by bit. */
  function Xor(a: nat, b: nat): nat
    decreases a + b
  {
    if a == 0 && b == 0 then 0 else (a % 2 + b % 2) % 2 + 2 * Xor(a / 2, b / 2)
  }

  /** Inclusive or, bit by bit. */
  function Or(a: nat, b: nat): nat
    decreases a + b
  {
    if a == 0 && b == 0 then 0 else (if a % 2 == 1 || b % 2 == 1 then 1 else 0) + 2 * Or(a / 2, b / 2)
  }

  /** `Decode_Zigzag` on `n`-bit numbers: `(u >> 1) ^ -(u & 1)`. */
  function Unzigzag(u: nat, n: nat): int {
    ToSigned(Xor(u / 2, if u % 2 == 1 then Pow2(n) - 1 else 0), Pow2(n))
  }

  lemma {:induction false} XorZeroOrOnes(a: nat, n: nat)
    requires a < Pow2(n)
    ensures Xor(a, 0) == a
    ensures Pow2(n) >= 1 && Xor(a, Pow2(n) - 1) == Pow2(n) - 1 - a
  {
    if n > 0 {
      XorZeroOrOnes(a / 2, n - 1);
      assert (Pow2(n) - 1) / 2 == Pow2(n - 1) - 1;
    }
  }

  /** Zigzag numbers 0, -1, 1, -2, ... by 0, 1, 2, 3, ..., the least value too. */
  lemma ZigzagMeaning32(v: int)
    requires -0x8000_0000 <= v < 0x8000_0000
    ensures Zigzag32(v) == (if v < 0 then -2 * v - 1 else 2 * v) && 0 <= Zigzag32(v) < M32
  {
    if v == -0x8000_0000 {
      assert Zigzag32(-0x8000_0000) == 0xffff_ffff;
    } else if v < 0 {
      assert -v % 0x1_0000_0000 == -v;
    }
  }

  lemma ZigzagMeaning64(v: int)
    requires -0x8000_0000_0000_0000 <= v < 0x8000_0000_0000_0000
    ensures Zigzag64(v) == (if v < 0 then -2 * v - 1 else 2 * v) && 0 <= Zigzag64(v) < M64
  {
    if v == -0x8000_0000_0000_0000 {
      assert Zigzag64(-0x8000_0000_0000_0000) == 0xffff_ffff_ffff_ffff;
    } else if v < 0 {
      assert -v % 0x1_0000_0000_0000_0000 == -v;
    }
  }

  /** Decoding an even number gives its half, an odd one the complement. */
  lemma UnzigzagMeaning(u: nat, n: nat)
    requires u < Pow2(n) && n > 0
    ensures Unzigzag(u, n) == if u % 2 == 0 then u / 2 else -(u / 2) - 1
  {
    XorZeroOrOnes(u / 2, n);
    assert Pow2(n) == 2 * Pow2(n - 1);
  }

  lemma ZigzagRoundTrip(v: int)
    ensures SignedRange(v, M32) ==> 0 <= Zigzag32(v) < M32 && Unzigzag(Zigzag32(v), 32) == v
    ensures SignedRange(v, M64) ==> 0 <= Zigzag64(v) < M64 && Unzigzag(Zigzag64(v), 64) == v
  {
    Widths();
    if SignedRange(v, M32) {
      ZigzagMeaning32(v);
      UnzigzagMeaning(Zigzag32(v), 32);
    }
    if SignedRange(v, M64) {
      ZigzagMeaning64(v);
      UnzigzagMeaning(Zigzag64(v), 64);
    }
  }

  // ------------------------------------------------------------------ varints

  /** `write_uint32` and `write_uint64`: seven bits a byte, low bits first, the
      top bit set on all bytes but the last. */
  function Varint(v: nat): (bs: seq<byte>)
    ensures |bs| > 0
  {
    if v < 128 then [v] else [v % 128 + 128] + Varint(v / 128)
  }

  /** Seven bits a byte, low bits first. */
  function GroupsValue(bs: seq<byte>): nat {
    if bs == [] then 0 else bs[0] % 128 + 128 * GroupsValue(bs[1..])
  }

  /** A varint holds its number in groups of seven bits, low bits first, and the top bit is
      set on all bytes but the last. */
  lemma {:induction false} VarintMeaning(v: nat)
    ensures GroupsValue(Varint(v)) == v
    ensures forall i :: 0 <= i < |Varint(v)| ==> (Varint(v)[i] >= 128 <==> i < |Varint(v)| - 1)
  {
    if v >= 128 {
      VarintMeaning(v / 128);
      assert Varint(v)[1..] == Varint(v / 128);
    } else {
      assert Varint(v)[1..] == [];
    }
  }

  datatype Parsed<+T> = Parsed(value: T, used: nat)

  /** `read_uint32` and `read_uint64` before truncation to their width: at most
      `rounds` bytes, none if the input ends early. */
  function Unvarint(bs: seq<byte>, rounds: nat): (r: Option<Parsed<nat>>)
    ensures r.Some? ==> r.value.used <= |bs|
  {
    if rounds == 0 then Some(Parsed(0, 0))
    else if bs == [] then None
    else if bs[0] < 128 then Some(Parsed(bs[0], 1))
    else
      match Unvarint(bs[1..], rounds - 1)
      case None => None
      case Some(Parsed(v, k)) => Some(Parsed(bs[0] % 128 + 128 * v, k + 1))
  }

  lemma {:induction false} VarintRoundTrip(v: nat, rounds: nat, tail: seq<byte>)
    requires 0 < rounds && v < Pow128(rounds)
    ensures Unvarint(Varint(v) + tail, rounds) == Some(Parsed(v, |Varint(v)|))
    ensures |Varint(v)| <= rounds
  {
    if v >= 128 {
      assert Pow128(rounds) == 128 * Pow128(rounds - 1) && Pow128(0) == 1;
      VarintRoundTrip(v / 128, rounds - 1, tail);
      assert (Varint(v) + tail)[1..] == Varint(v / 128) + tail;
    }
  }

  lemma Pow2Byte(n: nat)
    ensures Pow2(n + 8) == 256 * Pow2(n)
  {
    assert Pow2(n + 4) == 16 * Pow2(n) by {
      assert Pow2(n + 2) == 4 * Pow2(n);
    }
    assert Pow2(n + 8) == 16 * Pow2(n + 4) by {
      assert Pow2(n + 6) == 4 * Pow2(n + 4);
    }
  }

  lemma {:induction false} Pow2Bytes(n: nat)
    ensures Pow2(8 * n) == Pow256(n)
  {
    if n > 0 {
      Pow2Bytes(n - 1);
      Pow2Byte(8 * (n - 1));
    }
  }

  lemma Widths()
    ensures Pow2(32) == Pow256(4) == M32 <= Pow128(5)
    ensures Pow2(64) == Pow256(8) == M64 <= Pow128(10)
    ensures Pow256(1) == 256 && Pow256(2) == 65536
  {
    Pow2Bytes(4);
    Pow2Bytes(8);
    assert Pow256(4) == M32;
    assert Pow256(8) == M64;
    assert Pow128(10) >= M64;
  }
}
