/** Bytes and byte sequences, shared by the wire formats and `ByteArray`. */
module Bytes {

  type byte = x: int | 0 <= x < 256

  /** Overwrite `s` with `d` from index `p`. */
  function Splice(s: seq<byte>, p: nat, d: seq<byte>): seq<byte>
    requires p + |d| <= |s|
  {
    s[..p] + d + s[p + |d|..]
  }

  /** Overwrite or extend `s` with `d` from index `p`. */
  function WriteAt(s: seq<byte>, p: nat, d: seq<byte>): seq<byte>
    requires p <= |s|
  {
    s[..p] + d + (if p + |d| <= |s| then s[p + |d|..] else [])
  }

  lemma Assoc(a: seq<byte>, b: seq<byte>, c: seq<byte>)
    ensures (a + b) + c == a + (b + c)
  {
  }

  lemma WriteNothing(s: seq<byte>, p: nat)
    requires p <= |s|
    ensures WriteAt(s, p, []) == s
  {
  }

  lemma JoinSlices(s: seq<byte>, i: nat, j: nat, k: nat)
    requires i <= j <= k <= |s|
    ensures s[i..j] + s[j..k] == s[i..k]
  {
  }

  lemma SliceOfPrefix(s: seq<byte>, size: nat, p: nat, n: nat)
    requires p + n <= size <= |s|
    ensures s[..size][p..p + n] == s[p..p + n]
  {
  }

  lemma SliceOfSlice(s: seq<byte>, size: nat, p: nat, n: nat, r: nat)
    requires r <= n && p + n <= size <= |s|
    ensures s[p..p + n][..r] == s[..size][p..p + r]
  {
  }

  lemma SpliceNothing(s: seq<byte>, p: nat)
    requires p <= |s|
    ensures Splice(s, p, []) == s
  {
  }

  lemma SpliceSplice(s: seq<byte>, p: nat, d: seq<byte>, e: seq<byte>)
    requires p + |d| + |e| <= |s|
    ensures Splice(Splice(s, p, d), p + |d|, e) == Splice(s, p, d + e)
  {
  }

  function Flatten(cs: seq<seq<byte>>): seq<byte> {
    if cs == [] then [] else Flatten(cs[..|cs| - 1]) + cs[|cs| - 1]
  }

  ghost predicate Uniform(cs: seq<seq<byte>>, b: nat) {
    forall i :: 0 <= i < |cs| ==> |cs[i]| == b
  }

  /** `n` chunks of `b` bytes: the product, as a sum, so that proofs about chunk
      boundaries stay linear. */
  function Times(n: nat, b: nat): nat { if n == 0 then 0 else Times(n - 1, b) + b }

  lemma {:induction false} TimesIsProduct(n: nat, b: nat)
    ensures Times(n, b) == n * b
  {
    if n > 0 {
      TimesIsProduct(n - 1, b);
      assert n * b == (n - 1) * b + b;
    }
  }

  lemma {:induction false} TimesMonotone(m: nat, n: nat, b: nat)
    requires m <= n
    ensures Times(m, b) <= Times(n, b)
    ensures m < n ==> Times(m, b) + b <= Times(n, b)
  {
    if m < n {
      TimesMonotone(m, n - 1, b);
    }
  }

  /** A position as chunk index and offset. */
  lemma Locate(p: nat, b: nat)
    requires b > 0
    ensures p == Times(p / b, b) + p % b
  {
    TimesIsProduct(p / b, b);
  }

  lemma LocateUnique(p: nat, b: nat, c: nat, o: nat)
    requires o < b && p == Times(c, b) + o
    ensures p / b == c && p % b == o
  {
    Locate(p, b);
    if p / b < c {
      TimesMonotone(p / b, c, b);
    } else if p / b > c {
      TimesMonotone(c, p / b, b);
    }
  }

  lemma {:induction false} FlattenLength(cs: seq<seq<byte>>, b: nat)
    requires Uniform(cs, b)
    ensures |Flatten(cs)| == Times(|cs|, b)
  {
    if cs != [] {
      FlattenLength(cs[..|cs| - 1], b);
    }
  }

  lemma {:induction false} FlattenAppend(cs: seq<seq<byte>>, ds: seq<seq<byte>>)
    ensures Flatten(cs + ds) == Flatten(cs) + Flatten(ds)
  {
    if ds == [] {
      assert cs + ds == cs;
    } else {
      FlattenAppend(cs, ds[..|ds| - 1]);
      assert (cs + ds)[..|cs + ds| - 1] == cs + ds[..|ds| - 1];
    }
  }

  /** The flattening around chunk `c`. */
  lemma FlattenAround(cs: seq<seq<byte>>, b: nat, c: nat)
    requires Uniform(cs, b) && c < |cs|
    ensures Flatten(cs) == Flatten(cs[..c]) + cs[c] + Flatten(cs[c + 1..])
    ensures |Flatten(cs[..c])| == Times(c, b) && |Flatten(cs)| == Times(|cs|, b) && Times(c, b) + b <= Times(|cs|, b)
  {
    assert cs == cs[..c] + ([cs[c]] + cs[c + 1..]);
    FlattenAppend(cs[..c], [cs[c]] + cs[c + 1..]);
    FlattenAppend([cs[c]], cs[c + 1..]);
    assert Flatten([cs[c]]) == cs[c];
    FlattenLength(cs[..c], b);
    FlattenLength(cs, b);
    TimesMonotone(c, |cs|, b);
  }

  lemma SpliceMiddle(x: seq<byte>, y: seq<byte>, z: seq<byte>, o: nat, d: seq<byte>)
    requires o + |d| <= |y|
    ensures Splice(x + y + z, |x| + o, d) == x + Splice(y, o, d) + z
  {
  }

  lemma SliceMiddle(x: seq<byte>, y: seq<byte>, z: seq<byte>, o: nat, n: nat)
    requires o + n <= |y|
    ensures (x + y + z)[|x| + o..|x| + o + n] == y[o..o + n]
  {
  }

  /** Overwriting inside one chunk overwrites the flattening. */
  lemma FlattenSplice(cs: seq<seq<byte>>, b: nat, c: nat, o: nat, d: seq<byte>)
    requires Uniform(cs, b) && c < |cs| && o + |d| <= b
    ensures Times(c, b) + o + |d| <= |Flatten(cs)|
    ensures Flatten(cs[c := Splice(cs[c], o, d)]) == Splice(Flatten(cs), Times(c, b) + o, d)
  {
    hide Flatten, Times;
    var cs' := cs[c := Splice(cs[c], o, d)];
    FlattenAround(cs, b, c);
    FlattenAround(cs', b, c);
    assert cs'[..c] == cs[..c] && cs'[c + 1..] == cs[c + 1..];
    SpliceMiddle(Flatten(cs[..c]), cs[c], Flatten(cs[c + 1..]), o, d);
  }

  /** A slice of one chunk is a slice of the flattening. */
  lemma FlattenSlice(cs: seq<seq<byte>>, b: nat, c: nat, o: nat, n: nat)
    requires Uniform(cs, b) && c < |cs| && o + n <= b
    ensures Times(c, b) + o + n <= |Flatten(cs)|
    ensures cs[c][o..o + n] == Flatten(cs)[Times(c, b) + o..Times(c, b) + o + n]
  {
    hide Flatten, Times;
    FlattenAround(cs, b, c);
    SliceMiddle(Flatten(cs[..c]), cs[c], Flatten(cs[c + 1..]), o, n);
  }
}
