/** `Base64Encode` and `Base64Decode` (src/hash.cc), the encoding of section 4 of
    RFC 4648. Shifts and masks of non-negative integers are written as arithmetic. */
module Base64 {
  import opened Wrappers
  import opened Bytes

  const PAD: byte := 61

  /** The 64 characters. */
  function Symbol(v: nat): byte
    requires v < 64
  {
    if v < 26 then 65 + v else if v < 52 then 71 + v else if v < 62 then v - 4 else if v == 62 then 43 else 47
  }

  function Value(c: byte): (r: Option<nat>)
    ensures r.Some? ==> r.value < 64
  {
    if 65 <= c <= 90 then Some(c - 65)
    else if 97 <= c <= 122 then Some(c - 97 + 26)
    else if 48 <= c <= 57 then Some(c - 48 + 52)
    else if c == 43 then Some(62)
    else if c == 47 then Some(63)
    else None
  }

  lemma SymbolRoundTrip(v: nat, c: byte)
    ensures v < 64 ==> Value(Symbol(v)) == Some(v) && Symbol(v) != PAD
    ensures Value(c).Some? ==> Symbol(Value(c).value) == c
  {
  }

  /** The alphabet in four rows of sixteen. */
  const ROW0 := "ABCDEFGHIJKLMNOP"
  const ROW1 := "QRSTUVWXYZabcdef"
  const ROW2 := "ghijklmnopqrstuv"
  const ROW3 := "wxyz0123456789+/"

  lemma AlphabetTable(v: nat)
    requires v < 16
    ensures Symbol(v) == ROW0[v] as int && Symbol(16 + v) == ROW1[v] as int
    ensures Symbol(32 + v) == ROW2[v] as int && Symbol(48 + v) == ROW3[v] as int
  {
    UpperRows(v);
    LowerRows(v);
  }

  lemma UpperRows(v: nat)
    requires v < 16
    ensures Symbol(v) == ROW0[v] as int && Symbol(16 + v) == ROW1[v] as int
  {
  }

  lemma LowerRows(v: nat)
    requires v < 16
    ensures Symbol(32 + v) == ROW2[v] as int && Symbol(48 + v) == ROW3[v] as int
  {
  }

  // --------------------------------------------------------------- specification

  /** Up to three bytes, filled up with zeros, as a number of 24 bits. */
  function Pack(g: seq<byte>): (p: nat)
    requires 0 < |g| <= 3
    ensures p < 0x100_0000
  {
    var a: nat := g[0];
    var b: nat := if |g| > 1 then g[1] else 0;
    var c: nat := if |g| > 2 then g[2] else 0;
    65536 * a + 256 * b + c
  }

  /** Four characters for a group; `n` bytes of it are real. */
  function Quad(p: nat, n: nat): (q: seq<byte>)
    requires p < 0x100_0000 && 0 < n <= 3
    ensures |q| == 4
  {
    [Symbol(p / 262144), Symbol(p / 4096 % 64),
     if n > 1 then Symbol(p / 64 % 64) else PAD, if n > 2 then Symbol(p % 64) else PAD]
  }

  function Encode(s: seq<byte>): seq<byte> {
    if s == [] then []
    else if |s| <= 3 then Quad(Pack(s), |s|)
    else Quad(Pack(s[..3]), 3) + Encode(s[3..])
  }

  datatype Scanned = Scanned(packed: nat, padding: nat)

  /** One turn of the decoder's inner loop. */
  function ScanOne(s: Option<Scanned>, c: byte): Option<Scanned> {
    match s
    case None => None
    case Some(Scanned(packed, padding)) =>
      if c == PAD then Some(Scanned(64 * packed, padding + 1))
      else if padding > 0 || Value(c).None? then None
      else Some(Scanned(64 * packed + Value(c).value, padding))
  }

  /** The decoder's inner loop on the characters of one group. */
  function Scan(t: seq<byte>): Option<Scanned> {
    if t == [] then Some(Scanned(0, 0)) else ScanOne(Scan(t[..|t| - 1]), t[|t| - 1])
  }

  /** The bytes of a packed group. */
  function Unpack(p: nat, padding: nat): (g: seq<byte>)
    requires padding <= 2
    ensures |g| == 3 - padding
  {
    [p / 65536 % 256] + (if padding < 2 then [p / 256 % 256] else []) + (if padding == 0 then [p % 256] else [])
  }

  /** The decoder's groups; none where it gives up. */
  function DecodeGroups(t: seq<byte>): Option<seq<byte>> {
    if t == [] then Some([])
    else if |t| < 4 then None
    else
      match Scan(t[..4])
      case None => None
      case Some(Scanned(packed, padding)) =>
        if padding > 2 || (padding > 0 && |t| > 4) then None
        else
          match DecodeGroups(t[4..])
          case None => None
          case Some(more) => Some(Unpack(packed, padding) + more)
  }

  function Decode(t: seq<byte>): seq<byte> {
    match DecodeGroups(t)
    case None => []
    case Some(r) => r
  }

  // --------------------------------------------------------------------- meaning

  /** Byte `i` of `s`, or zero behind its end. */
  function ByteAt(s: seq<byte>, i: nat): nat { if i < |s| then s[i] else 0 }

  /** Four characters stand for the 24 bits of three bytes, six bits each, most significant
      first; a group at the end is filled up with zeros, and each character that stands
      for none of its bits is an `=`. */
  lemma {:induction false} EncodeMeaning(s: seq<byte>, k: nat)
    requires 3 * k < |s|
    ensures var t := Encode(s);
            && 4 * k + 4 <= |t|
            && Value(t[4 * k]).Some? && Value(t[4 * k + 1]).Some?
            && (t[4 * k + 2] == PAD <==> 3 * k + 1 >= |s|) && (t[4 * k + 3] == PAD <==> 3 * k + 2 >= |s|)
            && 262144 * Digit(t, 4 * k) + 4096 * Digit(t, 4 * k + 1) + 64 * Digit(t, 4 * k + 2) + Digit(t, 4 * k + 3)
               == 65536 * ByteAt(s, 3 * k) + 256 * ByteAt(s, 3 * k + 1) + ByteAt(s, 3 * k + 2)
    decreases k
  {
    hide Quad, Pack, Value;
    if k > 0 {
      var q, more := Quad(Pack(s[..3]), 3), Encode(s[3..]);
      EncodeMeaning(s[3..], k - 1);
      assert Encode(s) == q + more;
      LaterGroup(q, more, 4 * k);
      assert 3 * (k - 1) == 3 * k - 3 && 4 * (k - 1) == 4 * k - 4;
      assert ByteAt(s[3..], 3 * k - 3) == ByteAt(s, 3 * k) && ByteAt(s[3..], 3 * k - 2) == ByteAt(s, 3 * k + 1);
      assert ByteAt(s[3..], 3 * k - 1) == ByteAt(s, 3 * k + 2);
    } else {
      FirstGroup(s);
    }
  }

  lemma LaterGroup(q: seq<byte>, more: seq<byte>, i: nat)
    requires |q| == 4 && 4 <= i <= |more|
    ensures forall j :: i <= j < i + 4 ==> (q + more)[j] == more[j - 4] && Digit(q + more, j) == Digit(more, j - 4)
  {
    hide Value;
  }

  /** The value of character `i`, zero for `=`. */
  function Digit(t: seq<byte>, i: nat): nat {
    if i < |t| && Value(t[i]).Some? then Value(t[i]).value else 0
  }

  lemma FirstGroup(s: seq<byte>)
    requires s != []
    ensures var t := Encode(s);
            && 4 <= |t| && Value(t[0]).Some? && Value(t[1]).Some?
            && (t[2] == PAD <==> 1 >= |s|) && (t[3] == PAD <==> 2 >= |s|)
            && 262144 * Digit(t, 0) + 4096 * Digit(t, 1) + 64 * Digit(t, 2) + Digit(t, 3)
               == 65536 * ByteAt(s, 0) + 256 * ByteAt(s, 1) + ByteAt(s, 2)
  {
    hide Quad, Value;
    var g := if |s| <= 3 then s else s[..3];
    var p, n := Pack(g), |g|;
    var q := Quad(p, n);
    assert p == 65536 * ByteAt(s, 0) + 256 * ByteAt(s, 1) + ByteAt(s, 2);
    assert forall i :: 0 <= i < 4 ==> Encode(s)[i] == q[i];
    PackLow(g);
    QuadDigits(p, n);
  }

  lemma QuadDigits(p: nat, n: nat)
    requires p < 0x100_0000 && 0 < n <= 3 && (n < 3 ==> p % 256 == 0) && (n < 2 ==> p % 65536 == 0)
    ensures var q := Quad(p, n);
            && Value(q[0]).Some? && Value(q[1]).Some? && (q[2] == PAD <==> n < 2) && (q[3] == PAD <==> n < 3)
            && 262144 * Digit(q, 0) + 4096 * Digit(q, 1) + 64 * Digit(q, 2) + Digit(q, 3) == p
  {
    SixBits(p);
    LowBits(p);
    SymbolRoundTrip(p / 262144, 0);
    SymbolRoundTrip(p / 4096 % 64, 0);
    SymbolRoundTrip(p / 64 % 64, 0);
    SymbolRoundTrip(p % 64, 0);
  }

  // ------------------------------------------------------------------ round trip

  lemma PackRoundTrip(g: seq<byte>)
    requires 0 < |g| <= 3
    ensures Unpack(Pack(g), 3 - |g|) == g
  {
    var p := Pack(g);
    assert p / 65536 == g[0];
    assert |g| > 1 ==> p / 256 % 256 == g[1];
    assert |g| > 2 ==> p % 256 == g[2];
  }

  /** Four six-bit digits. */
  lemma SixBits(p: nat)
    requires p < 0x100_0000
    ensures p == 262144 * (p / 262144) + 4096 * (p / 4096 % 64) + 64 * (p / 64 % 64) + p % 64
    ensures p / 262144 < 64
  {
    var q := p / 64;
    var r := q / 64;
    assert p / 4096 == r && p / 262144 == r / 64;
  }

  /** What the decoder's inner loop makes of four characters. */
  lemma ScanQuad(a: byte, b: byte, c: byte, d: byte)
    ensures Scan([a, b, c, d]) == ScanOne(ScanOne(ScanOne(ScanOne(Some(Scanned(0, 0)), a), b), c), d)
  {
    assert [a, b, c, d][..3] == [a, b, c];
    assert [a, b, c][..2] == [a, b];
    assert [a, b][..1] == [a];
    assert [a][..0] == [];
    assert Scan([a]) == ScanOne(Some(Scanned(0, 0)), a);
    assert Scan([a, b]) == ScanOne(Scan([a]), b);
    assert Scan([a, b, c]) == ScanOne(Scan([a, b]), c);
  }

  lemma QuadRoundTrip(p: nat, n: nat)
    requires p < 0x100_0000 && 0 < n <= 3
    requires (n < 3 ==> p % 256 == 0) && (n < 2 ==> p % 65536 == 0)
    ensures Scan(Quad(p, n)) == Some(Scanned(p, 3 - n))
  {
    var v0, v1, v2, v3 := p / 262144, p / 4096 % 64, p / 64 % 64, p % 64;
    SixBits(p);
    LowBits(p);
    ScanSymbols(v0, v1, v2, v3, n);
  }

  lemma LowBits(p: nat)
    ensures (p % 256 == 0 ==> p % 64 == 0) && (p % 65536 == 0 ==> p / 64 % 64 == 0)
  {
    if p % 256 == 0 {
      By64(4 * (p / 256));
    }
    if p % 65536 == 0 {
      var k := p / 65536;
      By64(1024 * k);
      By64(16 * k);
      assert p == 64 * (1024 * k) && 1024 * k == 64 * (16 * k);
    }
  }

  lemma By64(k: nat)
    ensures 64 * k % 64 == 0 && 64 * k / 64 == k
  {
  }

  /** Scanning symbols puts their six-bit values together. */
  lemma ScanSymbols(v0: nat, v1: nat, v2: nat, v3: nat, n: nat)
    requires v0 < 64 && v1 < 64 && v2 < 64 && v3 < 64 && 0 < n <= 3
    ensures Scan([Symbol(v0), Symbol(v1), if n > 1 then Symbol(v2) else PAD, if n > 2 then Symbol(v3) else PAD])
            == Some(Scanned(262144 * v0 + 4096 * v1 + (if n > 1 then 64 * v2 else 0) + (if n > 2 then v3 else 0),
                            3 - n))
  {
    SymbolRoundTrip(v0, 0);
    SymbolRoundTrip(v1, 0);
    SymbolRoundTrip(v2, 0);
    SymbolRoundTrip(v3, 0);
    ScanQuad(Symbol(v0), Symbol(v1), if n > 1 then Symbol(v2) else PAD, if n > 2 then Symbol(v3) else PAD);
  }

  lemma PackLow(g: seq<byte>)
    requires 0 < |g| <= 3
    ensures (|g| < 3 ==> Pack(g) % 256 == 0) && (|g| < 2 ==> Pack(g) % 65536 == 0)
  {
  }

  /** Decoding undoes encoding, on all byte strings. */
  lemma {:induction false} RoundTrip(s: seq<byte>)
    ensures DecodeGroups(Encode(s)) == Some(s) && Decode(Encode(s)) == s
  {
    hide Quad, Pack, Scan, Unpack;
    if s != [] {
      var g := if |s| <= 3 then s else s[..3];
      PackLow(g);
      PackRoundTrip(g);
      QuadRoundTrip(Pack(g), |g|);
      var q := Quad(Pack(g), |g|);
      if |s| <= 3 {
        assert q[..4] == q && q[4..] == [];
        assert g + [] == g;
      } else {
        RoundTrip(s[3..]);
        assert (q + Encode(s[3..]))[..4] == q && (q + Encode(s[3..]))[4..] == Encode(s[3..]);
        assert g + s[3..] == s;
      }
    }
  }

  // ------------------------------------------------------------- what is accepted

  /** Characters of the alphabet, in fours, except for up to two `=` at the end. */
  ghost predicate Shape(t: seq<byte>) {
    && |t| % 4 == 0
    && forall i :: 0 <= i < |t| ==> Value(t[i]).Some? || (t[i] == PAD && i >= |t| - 2 && t[|t| - 1] == PAD)
  }

  function Padding(t: seq<byte>): nat {
    if |t| < 2 || t[|t| - 1] != PAD then 0 else if t[|t| - 2] != PAD then 1 else 2
  }

  lemma ScanShape(q: seq<byte>)
    requires |q| == 4
    ensures Shape(q) <==> Scan(q).Some? && Scan(q).value.padding <= 2
    ensures Scan(q).Some? && Scan(q).value.padding <= 2 ==> Scan(q).value.padding == Padding(q)
  {
    ScanQuad(q[0], q[1], q[2], q[3]);
    assert q == [q[0], q[1], q[2], q[3]];
  }

  lemma ShapeSplit(t: seq<byte>)
    requires |t| > 4
    ensures Shape(t) <==> Shape(t[..4]) && Padding(t[..4]) == 0 && Shape(t[4..])
    ensures Padding(t) == Padding(t[4..]) || |t| == 5
  {
    var q, r := t[..4], t[4..];
    if Shape(t) {
      assert forall i :: 0 <= i < |r| ==> r[i] == t[i + 4];
    }
    if Shape(q) && Padding(q) == 0 && Shape(r) {
      forall i | 0 <= i < |t|
        ensures Value(t[i]).Some? || (t[i] == PAD && i >= |t| - 2 && t[|t| - 1] == PAD)
      {
        if i < 4 {
          assert q[i] == t[i];
        } else {
          assert r[i - 4] == t[i];
        }
      }
    }
  }

  /** Decoding succeeds exactly on well-shaped text, and then yields three bytes for four
      characters, less the padding. */
  lemma {:induction false} DecodesIff(t: seq<byte>)
    ensures DecodeGroups(t).Some? <==> Shape(t)
    ensures DecodeGroups(t).Some? ==> |DecodeGroups(t).value| == 3 * (|t| / 4) - Padding(t)
  {
    if |t| >= 4 {
      ScanShape(t[..4]);
      DecodesIff(t[4..]);
      if |t| > 4 {
        ShapeSplit(t);
      } else {
        assert t[..4] == t;
      }
    }
  }

  /** The result is non-empty exactly for non-empty well-shaped text. */
  lemma NonEmptyIff(t: seq<byte>)
    ensures Decode(t) != [] <==> t != [] && Shape(t)
  {
    DecodesIff(t);
  }

  // ---------------------------------------------------------- encoding it again

  /** The bits of the last character before the padding that decoding drops are zero. */
  ghost predicate Canonical(t: seq<byte>)
    requires Shape(t)
  {
    && (Padding(t) == 1 ==> Value(t[|t| - 2]).value % 4 == 0)
    && (Padding(t) == 2 ==> Value(t[|t| - 3]).value % 16 == 0)
  }

  lemma BytesUnique(p: nat, b0: nat, b1: nat, b2: nat)
    requires b0 < 256 && b1 < 256 && b2 < 256 && p == 65536 * b0 + 256 * b1 + b2
    ensures p / 65536 % 256 == b0 && p / 256 % 256 == b1 && p % 256 == b2
  {
    assert p / 256 == 256 * b0 + b1;
  }

  lemma SixUnique(p: nat, v0: nat, v1: nat, v2: nat, v3: nat)
    requires v0 < 64 && v1 < 64 && v2 < 64 && v3 < 64 && p == 262144 * v0 + 4096 * v1 + 64 * v2 + v3
    ensures p < 0x100_0000 && p / 262144 == v0 && p / 4096 % 64 == v1 && p / 64 % 64 == v2 && p % 64 == v3
  {
    assert p / 64 == 4096 * v0 + 64 * v1 + v2;
    assert p / 4096 == 64 * v0 + v1;
  }

  /** Six-bit values to bytes and back: the dropped bits come back as zeros. */
  lemma QuadAgain(v0: nat, v1: nat, v2: nat, v3: nat, n: nat)
    requires v0 < 64 && v1 < 64 && v2 < 64 && v3 < 64 && 0 < n <= 3 && (n < 3 ==> v3 == 0) && (n < 2 ==> v2 == 0)
    ensures var g := Unpack(262144 * v0 + 4096 * v1 + 64 * v2 + v3, 3 - n);
            Quad(Pack(g), n) == [Symbol(v0), Symbol(if n == 1 then v1 - v1 % 16 else v1),
                                 if n == 1 then PAD else Symbol(if n == 2 then v2 - v2 % 4 else v2),
                                 if n < 3 then PAD else Symbol(v3)]
  {
    hide Symbol;
    var p := 262144 * v0 + 4096 * v1 + 64 * v2 + v3;
    var b0, b1, b2 := 4 * v0 + v1 / 16, 16 * (v1 % 16) + v2 / 4, 64 * (v2 % 4) + v3;
    BytesUnique(p, b0, b1, b2);
    var p' := Pack(Unpack(p, 3 - n));
    assert p' == 65536 * b0 + (if n > 1 then 256 * b1 else 0) + (if n > 2 then b2 else 0);
    SixUnique(p', v0, if n == 1 then v1 - v1 % 16 else v1, if n == 1 then 0 else if n == 2 then v2 - v2 % 4 else v2,
              if n < 3 then 0 else v3);
  }

  lemma SymbolInjective(v: nat, w: nat)
    requires v < 64 && w < 64
    ensures Symbol(v) == Symbol(w) <==> v == w
  {
    SymbolRoundTrip(v, 0);
    SymbolRoundTrip(w, 0);
  }

  /** One group encoded again. */
  lemma GroupAgain(q: seq<byte>, p: nat, pad: nat)
    requires |q| == 4 && Shape(q) && Scan(q) == Some(Scanned(p, pad)) && pad == Padding(q)
    ensures Quad(Pack(Unpack(p, pad)), 3 - pad) == q <==> Canonical(q)
  {
    hide Scan, Quad, Pack, Unpack, Symbol, Value;
    var v0, v1 := Value(q[0]).value, Value(q[1]).value;
    var v2 := if pad == 2 then 0 else Value(q[2]).value;
    var v3 := if pad > 0 then 0 else Value(q[3]).value;
    SymbolRoundTrip(0, q[0]);
    SymbolRoundTrip(0, q[1]);
    SymbolRoundTrip(0, q[2]);
    SymbolRoundTrip(0, q[3]);
    assert q == [Symbol(v0), Symbol(v1), if pad == 2 then PAD else Symbol(v2), if pad > 0 then PAD else Symbol(v3)];
    ScanSymbols(v0, v1, v2, v3, 3 - pad);
    QuadAgain(v0, v1, v2, v3, 3 - pad);
    SymbolInjective(v1, v1 - v1 % 16);
    SymbolInjective(v2, v2 - v2 % 4);
  }

  /** Encoding what was decoded gives the text back exactly when the dropped bits were
      zero. */
  lemma {:induction false} ReencodesIff(t: seq<byte>)
    requires Shape(t)
    ensures Encode(Decode(t)) == t <==> Canonical(t)
  {
    DecodesIff(t);
    if t != [] {
      var q := t[..4];
      ScanShape(q);
      if |t| == 4 {
        assert q == t;
        LastAgain(t);
      } else {
        ShapeSplit(t);
        DecodesIff(t[4..]);
        ReencodesIff(t[4..]);
        FirstAgain(t, Decode(t[4..]));
      }
    }
  }

  /** It need not: "QR==" is accepted, stands for one byte, and comes back as "QQ==". */
  lemma NotCanonical()
    ensures Shape([81, 82, PAD, PAD]) && !Canonical([81, 82, PAD, PAD])
    ensures Decode([81, 82, PAD, PAD]) == [65] && Encode([65]) == [81, 81, PAD, PAD]
  {
    var t := [81, 82, PAD, PAD];
    ScanQuad(81, 82, PAD, PAD);
    assert t[..4] == t && t[4..] == [];
    assert DecodeGroups([]) == Some([]);
    assert Scan(t) == Some(Scanned(0x411000, 2));
    assert DecodeGroups(t) == Some(Unpack(0x411000, 2) + []);
  }

  lemma LastAgain(q: seq<byte>)
    requires |q| == 4 && Shape(q)
    ensures Encode(Decode(q)) == q <==> Canonical(q)
  {
    hide Scan, Quad, Pack, Unpack, Shape, Canonical, Padding;
    ScanShape(q);
    var Scanned(p, pad) := Scan(q).value;
    assert q[..4] == q && q[4..] == [];
    var g := Unpack(p, pad);
    assert DecodeGroups([]) == Some([]);
    assert DecodeGroups(q) == Some(g + []);
    assert Decode(q) == g + [] == g;
    GroupAgain(q, p, pad);
  }

  lemma FirstAgain(t: seq<byte>, more: seq<byte>)
    requires |t| > 4 && Shape(t) && DecodeGroups(t[4..]) == Some(more) && more != []
    ensures Encode(Decode(t)) == t[..4] + Encode(more)
  {
    var q := t[..4];
    ShapeSplit(t);
    ScanShape(q);
    var Scanned(p, pad) := Scan(q).value;
    GroupAgain(q, p, pad);
    var g := Unpack(p, 0);
    assert Decode(t) == g + more;
    assert (g + more)[..3] == g && (g + more)[3..] == more;
  }

  // ------------------------------------------------------------------- the loops

  /** The first bytes of a group, most significant first. */
  function Gather(g: seq<byte>): nat {
    if g == [] then 0 else 256 * Gather(g[..|g| - 1]) + g[|g| - 1]
  }

  lemma GatherPack(g: seq<byte>)
    requires 0 < |g| <= 3
    ensures Pack(g) == if |g| == 1 then 65536 * Gather(g) else if |g| == 2 then 256 * Gather(g) else Gather(g)
  {
    var a: nat := g[0];
    assert [g[0]][..0] == [];
    assert Gather([g[0]]) == a;
    if |g| == 1 {
      assert g == [g[0]];
    } else {
      var b: nat := g[1];
      assert [g[0], g[1]][..1] == [g[0]];
      assert Gather([g[0], g[1]]) == 256 * a + b;
      if |g| == 2 {
        assert g == [g[0], g[1]];
      } else {
        assert g[..2] == [g[0], g[1]];
      }
    }
  }

  /** The encoder's two inner loops: up to three bytes into 24 bits. */
  method PackGroup(data: seq<byte>, start: nat) returns (packed: nat, ptr: nat, padding: nat)
    requires start < |data|
    ensures start < ptr <= |data| && padding == 3 - (ptr - start) && (padding > 0 ==> ptr == |data|) && ptr <= start + 3
    ensures packed == Pack(data[start..ptr])
  {
    packed, ptr, padding := 0, start, 0;
    var i := 0;
    while i < 3 && ptr < |data|
      invariant ptr == start + i && i <= 3 && ptr <= |data|
      invariant packed == Gather(data[start..ptr])
    {
      assert data[start..ptr + 1][..i] == data[start..ptr];
      packed := 256 * packed + data[ptr];
      i, ptr := i + 1, ptr + 1;
    }
    GatherPack(data[start..ptr]);
    if i == 2 {
      padding := 1;
    } else if i == 1 {
      padding := 2;
    }
    ghost var n, p := i, packed;
    while i < 3
      invariant n <= i <= 3 && packed == (if i - n == 0 then p else if i - n == 1 then 256 * p else 65536 * p)
    {
      packed := 256 * packed;
      i := i + 1;
    }
  }

  lemma EncodeNext(s: seq<byte>, n: nat, ret: seq<byte>)
    requires 0 < n <= 3 && n <= |s| && (n < 3 ==> n == |s|)
    ensures ret + Encode(s) == (ret + Quad(Pack(s[..n]), n)) + Encode(s[n..])
  {
    var q := Quad(Pack(s[..n]), n);
    Assoc(ret, q, Encode(s[n..]));
    if |s| <= 3 {
      assert s[..n] == s && s[n..] == [];
      assert q + Encode([]) == q;
    }
  }

  method Base64Encode(data: seq<byte>) returns (ret: seq<byte>)
    ensures ret == Encode(data)
  {
    hide Pack, Symbol;
    ret := [];
    var ptr := 0;
    while ptr < |data|
      invariant 0 <= ptr <= |data| && Encode(data) == ret + Encode(data[ptr..])
    {
      ghost var start, ret0 := ptr, ret;
      var packed: nat, padding: nat;
      packed, ptr, padding := PackGroup(data, ptr);
      EncodeNext(data[start..], ptr - start, ret);
      assert data[start..][..ptr - start] == data[start..ptr] && data[start..][ptr - start..] == data[ptr..];
      SixBits(packed);
      ret := ret + [Symbol(packed / 262144)] + [Symbol(packed / 4096 % 64)];
      if padding != 2 {
        ret := ret + [Symbol(packed / 64 % 64)];
      }
      if padding == 0 {
        ret := ret + [Symbol(packed % 64)];
      }
      ret := ret + seq(padding, _ => PAD);
      assert ret == ret0 + Quad(packed, 3 - padding);
    }
  }

  /** The decoder's inner loop on up to four characters. */
  method ScanGroup(src: seq<byte>, start: nat) returns (ok: bool, packed: nat, padding: nat, ptr: nat)
    requires start < |src|
    ensures start <= ptr <= |src| && ptr <= start + 4 && (ok && ptr < start + 4 ==> ptr == |src|)
    ensures ok ==> Scan(src[start..ptr]) == Some(Scanned(packed, padding))
    ensures !ok ==> |src| - start >= 4 ==> Scan(src[start..start + 4]) == None
  {
    packed, padding, ptr, ok := 0, 0, start, true;
    var i := 0;
    while i < 4 && ptr < |src|
      invariant ptr == start + i && i <= 4 && ptr <= |src|
      invariant Scan(src[start..ptr]) == Some(Scanned(packed, padding))
    {
      var c := src[ptr];
      ghost var t := src[start..ptr + 1];
      assert t[..i] == src[start..ptr] && t[i] == c;
      assert Scan(t) == ScanOne(Some(Scanned(packed, padding)), c);
      i, ptr := i + 1, ptr + 1;
      if c == PAD {
        padding, packed := padding + 1, 64 * packed;
        continue;
      }
      if padding > 0 {
        ScanStays(src, start, ptr);
        return false, packed, padding, ptr;
      }
      var val := Value(c);
      if val.None? {
        ScanStays(src, start, ptr);
        return false, packed, padding, ptr;
      }
      packed := 64 * packed + val.value;
    }
  }

  lemma {:induction false} ScanStays(src: seq<byte>, start: nat, ptr: nat)
    requires start <= ptr <= |src| && ptr <= start + 4 && Scan(src[start..ptr]) == None
    ensures start + 4 <= |src| ==> Scan(src[start..start + 4]) == None
    decreases start + 4 - ptr
  {
    if ptr < start + 4 <= |src| {
      assert src[start..ptr + 1][..ptr - start] == src[start..ptr];
      ScanStays(src, start, ptr + 1);
    }
  }

  ghost function Behind(done: seq<byte>, more: Option<seq<byte>>): Option<seq<byte>> {
    if more.None? then None else Some(done + more.value)
  }

  lemma BehindNothing(more: Option<seq<byte>>)
    ensures Behind([], more) == more
  {
    if more.Some? {
      assert [] + more.value == more.value;
    }
  }

  lemma DecodeNext(t: seq<byte>, done: seq<byte>, p: nat, pad: nat)
    requires |t| >= 4 && Scan(t[..4]) == Some(Scanned(p, pad))
    ensures Behind(done, DecodeGroups(t)) ==
            if pad > 2 || (pad > 0 && |t| > 4) then None
            else Behind(done + Unpack(p, pad), DecodeGroups(t[4..]))
  {
    if pad <= 2 && DecodeGroups(t[4..]).Some? {
      Assoc(done, Unpack(p, pad), DecodeGroups(t[4..]).value);
    }
  }

  /** The decoder, writing into a buffer of three quarters of the text's length. */
  method Base64Decode(src: seq<byte>) returns (r: seq<byte>)
    ensures r == Decode(src)
  {
    hide Scan;
    var result := new byte[|src| * 3 / 4](_ => 0);
    var w, ptr := 0, 0;
    assert src[0..] == src;
    BehindNothing(DecodeGroups(src));
    while ptr < |src|
      invariant 0 <= ptr <= |src| && 0 <= w <= result.Length && (ptr < |src| ==> 4 * w == 3 * ptr)
      invariant DecodeGroups(src) == Behind(result[..w], DecodeGroups(src[ptr..]))
    {
      ghost var t, done := src[ptr..], result[..w];
      var start := ptr;
      var ok: bool, packed: nat, padding: nat;
      ok, packed, padding, ptr := ScanGroup(src, start);
      if !ok {
        assert |t| >= 4 ==> t[..4] == src[start..start + 4];
        return [];
      }
      if ptr - start != 4 {
        return [];
      }
      assert t[..4] == src[start..ptr] && t[4..] == src[ptr..];
      DecodeNext(t, done, packed, padding);
      if padding > 0 && ptr != |src| {
        return [];
      }
      if padding > 2 {
        return [];
      }
      result[w] := packed / 65536 % 256;
      w := w + 1;
      if padding != 2 {
        result[w] := packed / 256 % 256;
        w := w + 1;
      }
      if padding == 0 {
        result[w] := packed % 256;
        w := w + 1;
      }
      assert result[..w] == done + Unpack(packed, padding);
    }
    assert src[ptr..] == [];
    return result[..w];
  }
}
