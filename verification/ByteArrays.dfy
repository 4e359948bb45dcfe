/** `ByteArray` (src/bytearray.cc): a linked list of fixed-size chunks with a
    cached cursor node, refining a flat byte sequence with a position. */
module ByteArrays {
  import opened Wrappers
  import opened Bytes

  /** A chunk.  `idx` is its place in the list it was linked into. */
  class Node {
    var buf: seq<byte>
    var next: Node?
    ghost const idx: nat

    constructor (n: nat, ghost idx: nat)
      ensures |buf| == n && next == null && this.idx == idx
    {
      buf := seq(n, i => 0);
      next := null;
      this.idx := idx;
    }
  }

  function Following(ns: seq<Node>, i: nat): Node? { if i + 1 < |ns| then ns[i + 1] else null }

  ghost predicate Linked(ns: seq<Node>)
    reads ns`next
  {
    forall i {:trigger Following(ns, i)} :: 0 <= i < |ns| ==> ns[i].next == Following(ns, i)
  }

  ghost predicate Indexed(ns: seq<Node>) {
    forall i :: 0 <= i < |ns| ==> ns[i].idx == i
  }

  /** The buffers of the nodes hold these chunks. */
  ghost predicate Held(ns: seq<Node>, cs: seq<seq<byte>>)
    reads ns`buf
  {
    |cs| == |ns| && forall i :: 0 <= i < |ns| ==> ns[i].buf == cs[i]
  }

  /** `after` holds `data` at `start` and otherwise what `before` held. */
  ghost predicate Overwritten(before: seq<byte>, after: seq<byte>, start: nat, data: seq<byte>) {
    && |before| <= |after| && start + |data| <= |after|
    && after[start..start + |data|] == data
    && forall k :: 0 <= k < |before| && !(start <= k < start + |data|) ==> after[k] == before[k]
  }

  lemma SpliceOverwrites(before: seq<byte>, grown: seq<byte>, start: nat, data: seq<byte>)
    requires before <= grown && start + |data| <= |grown|
    ensures Overwritten(before, Splice(grown, start, data), start, data)
  {
  }

  /** Overwriting the store at a position inside the contents overwrites or
      extends the contents. */
  lemma OverwrittenContents(before: seq<byte>, after: seq<byte>, size: nat, start: nat, data: seq<byte>)
    requires Overwritten(before, after, start, data) && start <= size <= |before|
    ensures var end := start + |data|;
            after[..if end > size then end else size] == WriteAt(before[..size], start, data)
  {
    var end := start + |data|;
    var n := if end > size then end else size;
    assert after[..n] == after[..start] + after[start..end] + after[end..n];
    assert after[..start] == before[..start];
    assert after[end..n] == if end <= size then before[end..size] else [];
  }

  lemma ChunksGrow(cs: seq<seq<byte>>, d: seq<byte>, base: nat)
    requires Uniform(cs, base) && |d| == base
    ensures Uniform(cs + [d], base) && |Flatten(cs + [d])| == |Flatten(cs)| + base
    ensures Times(|cs + [d]|, base) == Times(|cs|, base) + base
  {
    assert (cs + [d])[..|cs|] == cs;
  }

  function CeilDiv(n: nat, b: nat): nat
    requires b > 0
  {
    (n + b - 1) / b
  }

  lemma CeilDivBounds(n: nat, b: nat)
    requires b > 0
    ensures n <= Times(CeilDiv(n, b), b) < n + b
  {
    Locate(n + b - 1, b);
  }

  /** One entry of an I/O vector: `len` bytes of a chunk from `off`. */
  datatype IoVec = IoVec(node: Node, off: nat, len: nat)

  function TotalLen(vs: seq<IoVec>): nat {
    if vs == [] then 0 else TotalLen(vs[..|vs| - 1]) + vs[|vs| - 1].len
  }

  function ViewBytes(v: IoVec): seq<byte>
    reads v.node`buf
  {
    if v.off + v.len <= |v.node.buf| then v.node.buf[v.off..v.off + v.len] else []
  }

  /** The bytes a gathering write sends. */
  ghost function Gather(vs: seq<IoVec>): seq<byte>
    reads set v | v in vs :: v.node`buf
  {
    if vs == [] then [] else Gather(vs[..|vs| - 1]) + ViewBytes(vs[|vs| - 1])
  }

  /** The views are non-empty slices of consecutive chunks from offset `o` of
      chunk `c` on, each reaching the end of its chunk except the last: in order,
      disjoint and without gaps. */
  ghost predicate Tiles(vs: seq<IoVec>, ns: seq<Node>, base: nat, c: nat, o: nat) {
    && c + |vs| <= |ns|
    && forall i :: 0 <= i < |vs| ==>
         && vs[i].node == ns[c + i]
         && vs[i].off == (if i == 0 then o else 0)
         && 0 < vs[i].len <= base - vs[i].off
         && (i + 1 < |vs| ==> vs[i].off + vs[i].len == base)
  }

  lemma NoTiles(ns: seq<Node>, base: nat, c: nat, o: nat)
    requires c <= |ns|
    ensures Tiles([], ns, base, c, o) && TotalLen([]) == 0
  {
  }

  lemma TilesNext(vs: seq<IoVec>, ns: seq<Node>, base: nat, c: nat, o: nat, v: IoVec)
    requires Tiles(vs, ns, base, c, o) && c + |vs| < |ns| && v.node == ns[c + |vs|]
    requires v.off == (if vs == [] then o else 0) && 0 < v.len <= base - v.off
    requires vs != [] ==> vs[|vs| - 1].off + vs[|vs| - 1].len == base
    ensures Tiles(vs + [v], ns, base, c, o) && TotalLen(vs + [v]) == TotalLen(vs) + v.len
  {
    var ws := vs + [v];
    assert ws[..|ws| - 1] == vs;
    forall i | 0 <= i < |ws|
      ensures ws[i].node == ns[c + i] && ws[i].off == (if i == 0 then o else 0) && 0 < ws[i].len <= base - ws[i].off
      ensures i + 1 < |ws| ==> ws[i].off + ws[i].len == base
    {
      if i < |vs| {
        assert ws[i] == vs[i];
      }
    }
  }

  /** View `n` starts where the views before it end. */
  lemma {:induction false} TileAddress(vs: seq<IoVec>, ns: seq<Node>, base: nat, c: nat, o: nat, n: nat)
    requires Tiles(vs, ns, base, c, o) && n < |vs|
    ensures Times(c + n, base) + vs[n].off == Times(c, base) + o + TotalLen(vs[..n])
  {
    if n > 0 {
      TileAddress(vs, ns, base, c, o, n - 1);
      assert vs[..n][..n - 1] == vs[..n - 1];
    }
  }

  class ByteArray {
    const base: nat
    var position: nat
    var capacity: nat
    var size: nat
    var root: Node
    var cur: Node
    /** The nodes from `root` on, what they hold, and the index of `cur`. */
    ghost var nodes: seq<Node>
    ghost var chunks: seq<seq<byte>>
    ghost var at: nat

    ghost function Storage(): nat
      reads this`nodes
    {
      Times(|nodes|, base)
    }

    ghost function Store(): seq<byte>
      reads this`chunks
    {
      Flatten(chunks)
    }

    /** The chain of nodes and the cursor in it. */
    ghost predicate Shape()
      reads this, nodes
    {
      && base > 0
      && Linked(nodes) && Indexed(nodes) && Held(nodes, chunks) && Uniform(chunks, base)
      && at < |nodes| && nodes[0] == root && nodes[at] == cur
      && |Store()| == Storage()
    }

    /** How capacity relates to the chain: a fresh array has one chunk that its
        capacity does not count, and `clear` makes it count. */
    ghost predicate Rep()
      reads this, nodes
    {
      && Shape()
      && (capacity == Storage() || capacity + base == Storage())
      && position <= size <= capacity
    }

    /** Byte `p` lies in chunk `c`. */
    ghost predicate InChunk(p: nat, c: nat) {
      Times(c, base) <= p < Times(c, base) + base
    }

    ghost predicate CursorFor(p: nat, c: nat)
      reads this`nodes
    {
      InChunk(p, c) || (p == Storage() && c == |nodes| - 1)
    }

    /** The cursor is the node at `position`, or the last node when `position` is
        the very end of storage. */
    ghost predicate Valid()
      reads this, nodes
    {
      Rep() && CursorFor(position, at)
    }

    /** The abstract value: the first `size` bytes. */
    ghost function Contents(): seq<byte>
      requires Rep()
      reads this, nodes
    {
      Store()[..size]
    }

    lemma CursorIsQuotient()
      requires Valid() && position < Storage()
      ensures at == position / base
    {
      if InChunk(position, at) {
        LocateUnique(position, base, at, position - Times(at, base));
      }
    }

    constructor (base: nat)
      requires base > 0
      ensures Valid() && this.base == base && size == 0 && position == 0
      ensures fresh(nodes)
    {
      this.base := base;
      position, capacity, size := 0, 0, 0;
      var n := new Node(base, 0);
      root, cur := n, n;
      nodes, at, chunks := [n], 0, [n.buf];
      new;
      assert Times(1, base) == Times(0, base) + base;
      FlattenLength(chunks, base);
    }

    // ------------------------------------------------------------- growth

    method Last() returns (tmp: Node)
      requires Shape()
      ensures tmp == nodes[|nodes| - 1]
    {
      tmp := root;
      ghost var k := 0;
      while tmp.next != null
        invariant k < |nodes| && tmp == nodes[k]
        decreases |nodes| - k
      {
        assert tmp.next == Following(nodes, k);
        tmp, k := tmp.next, k + 1;
      }
      assert tmp.next == Following(nodes, k);
    }

    /** One round of the growth loop: link a new node after the last one. */
    method Append(tail: Node) returns (n: Node)
      requires Rep() && tail == nodes[|nodes| - 1]
      modifies this`nodes, this`capacity, this`chunks, tail`next
      ensures Rep() && capacity == old(capacity) + base
      ensures nodes == old(nodes) + [n] && old(chunks) <= chunks && fresh(n)
    {
      hide Uniform, Flatten, Times;
      ghost var ns := nodes;
      n := new Node(base, |nodes|);
      tail.next := n;
      nodes, chunks := nodes + [n], chunks + [n.buf];
      capacity := capacity + base;
      forall i | 0 <= i < |nodes|
        ensures nodes[i].next == Following(nodes, i)
      {
        if i < |ns| - 1 {
          assert nodes[i] == ns[i] && old(ns[i].next) == Following(ns, i);
          assert ns[i].idx != tail.idx;
        }
      }
      ChunksGrow(old(chunks), n.buf, base);
    }

    method Grow(tail: Node, cnt: nat)
      requires Rep() && tail == nodes[|nodes| - 1]
      modifies this`nodes, this`capacity, this`chunks, tail`next
      ensures Rep() && old(nodes) <= nodes && old(chunks) <= chunks && capacity == old(capacity) + Times(cnt, base)
      ensures (forall i :: |old(nodes)| <= i < |nodes| ==> fresh(nodes[i]))
    {
      var tmp, left := tail, cnt;
      while left > 0
        invariant 0 <= left <= cnt && Rep() && old(nodes) <= nodes && old(chunks) <= chunks && tmp == nodes[|nodes| - 1]
        invariant tmp == tail || fresh(tmp)
        invariant (forall i :: |old(nodes)| <= i < |nodes| ==> fresh(nodes[i]))
        invariant capacity + Times(left, base) == old(capacity) + Times(cnt, base)
      {
        tmp := Append(tmp);
        left := left - 1;
      }
    }

    /** `add_free_capacity_to`: nothing if more than `n` bytes are free, otherwise
        whole chunks until between `n + base` and `n + 2 * base` are.  The cursor
        stays: the source means to advance it when nothing was free, but tests a
        counter that the loop has brought to zero. */
    method AddFreeCapacityTo(n: nat)
      requires Rep()
      modifies this`nodes, this`capacity, this`chunks, nodes`next
      ensures Rep() && old(nodes) <= nodes && old(chunks) <= chunks
      ensures (forall i :: |old(nodes)| <= i < |nodes| ==> fresh(nodes[i]))
      ensures old(capacity) - position > n ==> nodes == old(nodes) && chunks == old(chunks) && capacity == old(capacity)
      ensures old(capacity) - position <= n ==> n + base <= capacity - position < n + 2 * base
    {
      var free := capacity - position;
      if free > n {
        return;
      }
      var need := n - free;
      var cnt := CeilDiv(need, base) + 1;
      CeilDivBounds(need, base);
      var tmp := Last();
      Grow(tmp, cnt);
    }

    // ---------------------------------------------------------- transfers

    /** Where a transfer from the cursor really starts: at `position`, except at
        the very end of storage, where the cursor node is one chunk behind. */
    ghost function TransferStart(): nat
      requires Rep()
      reads this, nodes
    {
      if position < Storage() then position else position - base
    }

    lemma CursorAddress()
      requires Valid()
      ensures Times(at, base) + position % base == TransferStart()
      ensures position <= Storage() && TransferStart() < Storage()
    {
      TimesMonotone(at, |nodes|, base);
      if InChunk(position, at) {
        LocateUnique(position, base, at, position - Times(at, base));
      } else {
        assert Times(|nodes|, base) == Times(|nodes| - 1, base) + base;
        LocateUnique(position, base, |nodes|, 0);
      }
    }

    /** Following `next` from chunk `c` below the end of storage is never null. */
    lemma NextNode(node: Node, c: nat)
      requires Shape() && c < |nodes| && node == nodes[c]
      ensures Times(c + 1, base) == Times(c, base) + base <= Storage() && |node.buf| == base
      ensures node.next != null <==> c + 1 < |nodes|
      ensures node.next != null <==> Times(c, base) + base < Storage()
      ensures c + 1 < |nodes| ==> node.next == nodes[c + 1]
    {
      assert node.next == Following(nodes, c);
      TimesMonotone(c + 1, |nodes|, base);
    }

    /** The node after a transfer of `n` bytes at offset `o` of node `c`: the next
        one, if any, exactly when the bytes end this one. */
    method Past(node: Node, ghost c: nat, o: nat, n: nat) returns (node': Node, ghost c': nat)
      requires Shape() && c < |nodes| && node == nodes[c] && o + n <= base
      ensures c' < |nodes| && node' == nodes[c'] && CursorFor(Times(c, base) + o + n, c')
      ensures o + n == base && Times(c, base) + base < Storage() ==> Times(c', base) == Times(c, base) + base
    {
      NextNode(node, c);
      if o + n == base && node.next != null {
        node', c' := node.next, c + 1;
      } else {
        node', c' := node, c;
      }
    }

    /** `memcpy` into node `c`. */
    method CopyInto(node: Node, ghost c: nat, o: nat, d: seq<byte>)
      requires Shape() && c < |nodes| && node == nodes[c] && o + |d| <= base
      modifies node`buf, this`chunks
      ensures Shape() && Times(c, base) + o + |d| <= Storage()
      ensures Store() == Splice(old(Store()), Times(c, base) + o, d)
    {
      FlattenSplice(chunks, base, c, o, d);
      node.buf := Splice(node.buf, o, d);
      chunks := chunks[c := Splice(chunks[c], o, d)];
      forall j | 0 <= j < |nodes|
        ensures nodes[j].buf == chunks[j]
      {
        assert nodes[j].idx == j && node.idx == c;
      }
    }

    /** Copy `data[has..until]` to node `c`. */
    method CopyNext(node: Node, ghost c: nat, data: seq<byte>, has: nat, until: nat, npos: nat,
                    ghost before: seq<byte>, ghost start: nat)
      requires Shape() && c < |nodes| && node == nodes[c]
      requires has <= until <= |data| && npos + until - has <= base && Times(c, base) + npos == start + has
      requires start + |data| <= |before| && Store() == Splice(before, start, data[..has])
      modifies node`buf, this`chunks
      ensures Shape() && Store() == Splice(before, start, data[..until])
    {
      CopyInto(node, c, npos, data[has..until]);
      SpliceSplice(before, start, data[..has], data[has..until]);
      assert data[..has] + data[has..until] == data[..until];
    }

    /** One round of the copy loop of `write`: fill the rest of the cursor node, or
        finish inside it. */
    method WriteRound(data: seq<byte>, has: nat, npos: nat, ghost before: seq<byte>, ghost start: nat)
        returns (until: nat)
      requires Shape() && has < |data| && npos < base && Times(at, base) + npos == start + has
      requires start + |data| < Storage() == |before| && Store() == Splice(before, start, data[..has])
      modifies this`position, this`cur, this`at, this`chunks, cur`buf
      ensures Shape() && has < until <= |data| && position == old(position) + until - has
      ensures Store() == Splice(before, start, data[..until])
      ensures until == |data| ==> InChunk(start + |data|, at)
      ensures until < |data| ==> Times(at, base) == start + until
    {
      hide Linked, Indexed, Held, Uniform, Flatten, Splice;
      var size, ncap := |data| - has, base - npos;
      until := if ncap >= size then |data| else has + ncap;
      CopyNext(cur, at, data, has, until, npos, before, start);
      position := position + until - has;
      cur, at := Past(cur, at, npos, until - has);
    }

    /** The copy loop of `write`, from the cursor node and offset `o` on. */
    method WriteLoop(data: seq<byte>, o: nat, ghost start: nat)
      requires Shape() && |data| > 0 && o < base && Times(at, base) + o == start && start + |data| < Storage()
      modifies this`position, this`cur, this`at, this`chunks, nodes`buf
      ensures Shape() && position == old(position) + |data|
      ensures Store() == Splice(old(Store()), start, data)
      ensures InChunk(start + |data|, at)
    {
      ghost var before := Store();
      var npos, has := o, 0;
      while has < |data|
        invariant Shape() && 0 <= has <= |data| && position == old(position) + has
        invariant Store() == Splice(before, start, data[..has])
        invariant has < |data| ==> 0 <= npos < base && Times(at, base) + npos == start + has
        invariant has == |data| ==> InChunk(start + |data|, at)
      {
        has := WriteRound(data, has, npos, before, start);
        npos := 0;
      }
      assert data[..has] == data;
    }

    lemma GrownStore(before: seq<seq<byte>>)
      requires before <= chunks
      ensures Flatten(before) <= Store()
    {
      assert chunks == before + chunks[|before|..];
      FlattenAppend(before, chunks[|before|..]);
    }

    /** Grow, then copy from the cursor node on. */
    method Put(data: seq<byte>, ghost start: nat)
      requires Valid() && |data| > 0 && start == TransferStart()
      modifies this`position, this`capacity, this`nodes, this`chunks, this`cur, this`at, nodes
      ensures Shape() && old(nodes) <= nodes && (forall i :: |old(nodes)| <= i < |nodes| ==> fresh(nodes[i]))
      ensures capacity == Storage() || capacity + base == Storage()
      ensures position == old(position) + |data| < capacity && size <= capacity
      ensures Overwritten(old(Store()), Store(), start, data) && InChunk(start + |data|, at)
    {
      CursorAddress();
      AddFreeCapacityTo(|data|);
      GrownStore(old(chunks));
      SpliceOverwrites(old(Store()), Store(), start, data);
      WriteLoop(data, position % base, start);
    }

    /** `write`: overwrites or extends at the position, unless the position is the
        very end of storage.  There the bytes land one chunk too early and the
        cursor node falls behind. */
    method Write(data: seq<byte>)
      requires Valid()
      modifies this, nodes
      ensures Rep() && old(nodes) <= nodes && (forall i :: |old(nodes)| <= i < |nodes| ==> fresh(nodes[i]))
      ensures position == old(position) + |data| && size == if position > old(size) then position else old(size)
      ensures |data| == 0 ==> Valid() && Store() == old(Store())
      ensures |data| > 0 ==> (Valid() <==> old(position < Storage()))
      ensures |data| > 0 ==> position < Storage() && Overwritten(old(Store()), Store(), old(TransferStart()), data)
      ensures old(position < Storage()) ==> Contents() == WriteAt(old(Contents()), old(position), data)
    {
      hide Linked, Indexed, Held, Uniform, Flatten, Times, WriteAt;
      if |data| == 0 {
        WriteNothing(Contents(), position);
        return;
      }
      ghost var start := TransferStart();
      Put(data, start);
      if start == old(position) {
        OverwrittenContents(old(Store()), Store(), size, start, data);
      }
      if position > size {
        size := position;
      }
    }

    /** One round of the copy loop of `read`. */
    method ReadRound(node: Node, ghost c: nat, o: nat, n: nat) returns (d: seq<byte>, node': Node, ghost c': nat)
      requires Shape() && c < |nodes| && node == nodes[c] && o < base && 0 < n && Times(c, base) + o + n <= Storage()
      ensures 0 < |d| <= n && d == Store()[Times(c, base) + o..Times(c, base) + o + |d|]
      ensures c' < |nodes| && node' == nodes[c'] && CursorFor(Times(c, base) + o + |d|, c')
      ensures |d| < n ==> Times(c', base) == Times(c, base) + o + |d|
    {
      var ncap := base - o;
      var k := if ncap >= n then n else ncap;
      FlattenSlice(chunks, base, c, o, k);
      d := node.buf[o..o + k];
      node', c' := Past(node, c, o, k);
    }

    /** The copy loop of both `read`s: `n` bytes from offset `o` of node `c`. */
    method ReadLoop(node: Node, ghost c: nat, o: nat, n: nat) returns (out: seq<byte>, node': Node, ghost c': nat)
      requires Shape() && c < |nodes| && node == nodes[c] && o < base && Times(c, base) + o + n <= Storage()
      ensures out == Store()[Times(c, base) + o..Times(c, base) + o + n]
      ensures c' < |nodes| && node' == nodes[c'] && (n > 0 ==> CursorFor(Times(c, base) + o + n, c'))
              && (n == 0 ==> c' == c)
    {
      hide Linked, Indexed, Held, Uniform, Flatten, Times;
      ghost var start := Times(c, base) + o;
      out, node', c' := [], node, c;
      var npos := o;
      while |out| < n
        invariant |out| <= n && out == Store()[start..start + |out|]
        invariant c' < |nodes| && node' == nodes[c']
        invariant |out| < n ==> 0 <= npos < base && Times(c', base) + npos == start + |out|
        invariant |out| == n ==> if n > 0 then CursorFor(start + n, c') else c' == c
      {
        var d;
        d, node', c' := ReadRound(node', c', npos, n - |out|);
        JoinSlices(Store(), start, start + |out|, start + |out| + |d|);
        out := out + d;
        npos := 0;
      }
    }

    /** `read` from the cursor: fails iff fewer than `n` bytes follow the position,
        otherwise returns that slice of the contents and moves past it. */
    method Read(n: nat) returns (r: Option<seq<byte>>)
      requires Valid()
      modifies this`position, this`cur, this`at
      ensures Valid() && Contents() == old(Contents())
      ensures r.Some? <==> old(position) + n <= size
      ensures r.Some? ==> r.value == Contents()[old(position)..old(position) + n] && position == old(position) + n
      ensures r.None? ==> position == old(position)
    {
      hide Linked, Indexed, Held, Uniform, Flatten, Times;
      if n > size - position {
        return None;
      }
      CursorAddress();
      var out;
      out, cur, at := ReadLoop(cur, at, position % base, n);
      SliceOfPrefix(Store(), size, position, n);
      position := position + n;
      return Some(out);
    }

    /** The walk from `root` to the node holding byte `p`. */
    method Seek(p: nat) returns (node: Node, ghost c: nat, o: nat)
      requires Shape() && p < Storage()
      ensures c < |nodes| && node == nodes[c] && o < base && Times(c, base) + o == p
    {
      node, c, o := root, 0, p;
      while o >= |node.buf|
        invariant c < |nodes| && node == nodes[c] && Times(c, base) + o == p
      {
        NextNode(node, c);
        o := o - |node.buf|;
        node, c := node.next, c + 1;
      }
    }

    /** The positional `read`, which leaves the array alone. */
    method ReadAt(n: nat, p: nat) returns (r: Option<seq<byte>>)
      requires Rep() && p <= size && p < Storage()
      ensures r.Some? <==> p + n <= size
      ensures r.Some? ==> r.value == Contents()[p..p + n]
    {
      hide Linked, Indexed, Held, Uniform, Flatten, Times;
      if n > size - p {
        return None;
      }
      var npos := p % base;
      var node, c, o := Seek(p);
      LocateUnique(p, base, c, o);
      var out, _, _ := ReadLoop(node, c, npos, n);
      SliceOfPrefix(Store(), size, p, n);
      return Some(out);
    }

    /** The walk of `set_position`. */
    method CursorNode(v: nat) returns (node: Node, ghost c: nat)
      requires Shape() && v <= Storage()
      ensures c < |nodes| && node == nodes[c] && CursorFor(v, c)
    {
      node, c := root, 0;
      var left := v;
      while left > |node.buf|
        invariant 0 <= left && c < |nodes| && node == nodes[c] && Times(c, base) + left == v
      {
        NextNode(node, c);
        left := left - |node.buf|;
        node, c := node.next, c + 1;
      }
      node, c := Past(node, c, left, 0);
    }

    /** `set_position`: refuses what lies beyond the capacity, otherwise moves
        there, extending the contents over bytes already stored if needed.  It
        recomputes the cursor, so it also repairs one that fell behind. */
    method SetPosition(v: nat) returns (ok: bool)
      requires Rep()
      modifies this`position, this`size, this`cur, this`at
      ensures ok <==> v <= capacity
      ensures ok ==> Valid() && position == v && size == if v > old(size) then v else old(size)
      ensures !ok ==> Rep() && position == old(position) && size == old(size) && at == old(at) && cur == old(cur)
    {
      hide Linked, Indexed, Held, Uniform, Flatten, Times;
      if v > capacity {
        return false;
      }
      position := v;
      size := if position > size then position else size;
      cur, at := CursorNode(v);
      return true;
    }

    /** `clear`: one chunk is kept, and now counted by the capacity. */
    method Clear()
      requires Rep()
      modifies this, root`next
      ensures Valid() && size == 0 && position == 0 && capacity == Storage() == base && nodes == old(nodes)[..1]
    {
      position, size, capacity := 0, 0, base;
      cur := root;
      root.next := null;
      nodes, chunks, at := nodes[..1], chunks[..1], 0;
      assert Times(1, base) == Times(0, base) + base;
      FlattenLength(chunks, base);
    }

    // -------------------------------------------------------------- views

    /** The loop of the three functions that return I/O vectors. */
    method Views(node: Node, ghost c: nat, o: nat, len: nat) returns (vs: seq<IoVec>)
      requires Shape() && c < |nodes| && node == nodes[c] && o < base && Times(c, base) + o + len <= Storage()
      ensures Tiles(vs, nodes, base, c, o) && TotalLen(vs) == len
    {
      hide Linked, Indexed, Held, Uniform, Flatten, Tiles, TotalLen;
      NoTiles(nodes, base, c, o);
      vs := [];
      var node', left, npos := node, len, o;
      while left > 0
        invariant 0 <= left && Tiles(vs, nodes, base, c, o) && TotalLen(vs) + left == len
        invariant left > 0 ==>
                    && c + |vs| < |nodes| && node' == nodes[c + |vs|] && npos == (if vs == [] then o else 0)
                    && Times(c + |vs|, base) + npos == Times(c, base) + o + TotalLen(vs)
                    && (vs != [] ==> vs[|vs| - 1].off + vs[|vs| - 1].len == base)
      {
        NextNode(node', c + |vs|);
        var ncap := |node'.buf| - npos;
        var iov;
        if ncap >= left {
          iov := IoVec(node', npos, left);
          left := 0;
        } else {
          iov := IoVec(node', npos, ncap);
          left := left - ncap;
          node' := node'.next;
          npos := 0;
        }
        TilesNext(vs, nodes, base, c, o, iov);
        vs := vs + [iov];
      }
    }

    /** One view holds the bytes at its address. */
    lemma ViewSlice(vs: seq<IoVec>, c: nat, o: nat, n: nat)
      requires Shape() && Tiles(vs, nodes, base, c, o) && n < |vs|
      ensures var p := Times(c, base) + o + TotalLen(vs[..n]);
              p + vs[n].len <= |Store()| && ViewBytes(vs[n]) == Store()[p..p + vs[n].len]
    {
      hide Linked, Indexed, Flatten, Times, TotalLen;
      TileAddress(vs, nodes, base, c, o, n);
      FlattenSlice(chunks, base, c + n, vs[n].off, vs[n].len);
    }

    /** The views hold exactly the bytes from their start on. */
    lemma {:induction false} GatherTiles(vs: seq<IoVec>, c: nat, o: nat)
      requires Shape() && Tiles(vs, nodes, base, c, o) && Times(c, base) + o <= Storage()
      ensures Times(c, base) + o + TotalLen(vs) <= Storage()
      ensures Gather(vs) == Store()[Times(c, base) + o..Times(c, base) + o + TotalLen(vs)]
      decreases |vs|
    {
      hide Linked, Indexed, Held, Uniform, Flatten, Times, ViewBytes;
      if vs != [] {
        var n, start := |vs| - 1, Times(c, base) + o;
        GatherTiles(vs[..n], c, o);
        ViewSlice(vs, c, o, n);
        JoinSlices(Store(), start, start + TotalLen(vs[..n]), start + TotalLen(vs));
      }
    }

    /** What a scattering read does: fill the views in order with `data`. */
    method Scatter(vs: seq<IoVec>, ghost c: nat, ghost o: nat, data: seq<byte>, ghost start: nat)
      requires Shape() && Tiles(vs, nodes, base, c, o) && |data| <= TotalLen(vs)
      requires start == Times(c, base) + o && start + |data| <= Storage()
      modifies this`chunks, nodes`buf
      ensures Shape() && Store() == Splice(old(Store()), start, data)
    {
      hide Linked, Indexed, Held, Uniform, Flatten;
      ghost var before := Store();
      var i, has := 0, 0;
      while has < |data|
        invariant Shape() && 0 <= i <= |vs| && 0 <= has <= |data|
        invariant Store() == Splice(before, start, data[..has])
        invariant has < |data| ==> has == TotalLen(vs[..i])
      {
        assert vs[..|vs|] == vs;
        TileAddress(vs, nodes, base, c, o, i);
        assert vs[..i + 1][..i] == vs[..i];
        var until := if vs[i].len >= |data| - has then |data| else has + vs[i].len;
        CopyNext(vs[i].node, c + i, data, has, until, vs[i].off, before, start);
        has := until;
        i := i + 1;
      }
      assert data[..has] == data;
    }

    /** `get_enable_read_buffers` from the position. */
    method GetReadBuffers(len: nat) returns (vs: seq<IoVec>)
      requires Valid()
      ensures TotalLen(vs) == if len > size - position then size - position else len
      ensures Tiles(vs, nodes, base, at, position % base)
      ensures Gather(vs) == Contents()[position..position + TotalLen(vs)]
    {
      hide Linked, Indexed, Held, Uniform, Flatten, Times;
      var n := if len > size - position then size - position else len;
      if n == 0 {
        return [];
      }
      CursorAddress();
      vs := Views(cur, at, position % base, n);
      GatherTiles(vs, at, position % base);
      SliceOfPrefix(Store(), size, position, n);
    }

    /** `get_enable_read_buffers` from a given position. */
    method GetReadBuffersAt(len: nat, p: nat) returns (vs: seq<IoVec>)
      requires Rep()
      ensures TotalLen(vs) == if p >= size then 0 else if len > size - p then size - p else len
      ensures p < size ==> Gather(vs) == Contents()[p..p + TotalLen(vs)]
      ensures p < size && len > 0 ==> Tiles(vs, nodes, base, p / base, p % base)
    {
      hide Linked, Indexed, Held, Uniform, Flatten, Times;
      if p >= size {
        return [];
      }
      var n := if len > size - p then size - p else len;
      if n == 0 {
        return [];
      }
      var node, c, o := Seek(p);
      LocateUnique(p, base, c, o);
      vs := Views(node, c, o, n);
      GatherTiles(vs, c, o);
      SliceOfPrefix(Store(), size, p, n);
    }

    /** `get_enable_write_buffers`: room for `len` bytes from the position. */
    method GetWriteBuffers(len: nat) returns (vs: seq<IoVec>)
      requires Valid()
      modifies this`nodes, this`capacity, this`chunks, nodes`next
      ensures Rep() && old(nodes) <= nodes && (forall i :: |old(nodes)| <= i < |nodes| ==> fresh(nodes[i]))
      ensures old(Store()) <= Store() && TotalLen(vs) == len && (len > 0 ==> len < capacity - position)
      ensures Tiles(vs, nodes, base, at, position % base)
      ensures Times(at, base) + position % base == old(TransferStart())
      ensures old(position < Storage()) ==> Valid()
    {
      CursorAddress();
      if len == 0 {
        return [];
      }
      AddFreeCapacityTo(len);
      GrownStore(old(chunks));
      vs := Views(cur, at, position % base, len);
    }

    /** `SocketStream::read` into the array when the socket delivers `data`: the bytes
        land where `Write(data)` puts them, with the same position, and, unless that is
        the very end of storage, the same contents.  There `set_position` repairs the
        cursor, which `Write` leaves behind. */
    method Receive(len: nat, data: seq<byte>)
      requires Valid() && |data| <= len
      modifies this, nodes
      ensures Rep() && old(nodes) <= nodes && (forall i :: |old(nodes)| <= i < |nodes| ==> fresh(nodes[i]))
      ensures position == old(position) + |data| && (|data| > 0 || old(position < Storage()) ==> Valid())
      ensures Overwritten(old(Store()), Store(), old(TransferStart()), data)
      ensures size == if position > old(size) then position else old(size)
      ensures old(position < Storage()) ==> Contents() == WriteAt(old(Contents()), old(position), data)
    {
      hide Linked, Indexed, Held, Uniform, Flatten, Times, Tiles, WriteAt;
      ghost var start := TransferStart();
      CursorAddress();
      var vs := GetWriteBuffers(len);
      SpliceOverwrites(old(Store()), Store(), start, data);
      Scatter(vs, at, position % base, data, start);
      if start == old(position) {
        OverwrittenContents(old(Store()), Store(), size, start, data);
      }
      if |data| > 0 {
        var ok := SetPosition(position + |data|);
      }
    }

    /** `SocketStream::write` from the array when the socket takes `r` of the bytes
        in the views: they are the next `r` bytes of the contents. */
    method Send(len: nat, r: nat) returns (vs: seq<IoVec>)
      requires Valid() && r <= len && r <= size - position
      modifies this`position, this`size, this`cur, this`at
      ensures Valid() && Contents() == old(Contents()) && position == old(position) + r
      ensures r <= TotalLen(vs) == |Gather(vs)| && Gather(vs)[..r] == Contents()[old(position)..old(position) + r]
    {
      hide Linked, Indexed, Held, Uniform, Flatten, Times, Tiles, Gather, TotalLen;
      CursorAddress();
      ghost var c, o, p := at, position % base, position;
      vs := GetReadBuffers(len);
      if r > 0 {
        var ok := SetPosition(position + r);
        GatherTiles(vs, c, o);
        SliceOfSlice(Store(), size, p, TotalLen(vs), r);
      }
    }
  }

  /** Why `Write` excludes the very end of storage: after `clear`, a position equal
      to the capacity is accepted, and the byte written there replaces the first
      one instead of following it. */
  method WriteAtEndOverwrites(ba: ByteArray, b: byte)
    requires ba.Rep() && ba.root.buf[0] != b
    modifies ba, ba.nodes
    ensures ba.Rep() && !ba.Valid() && ba.position == ba.base + 1
    ensures ba.Contents()[0] == b && b != old(ba.root.buf[0])
  {
    ba.Clear();
    var ok := ba.SetPosition(ba.base);
    ba.Write([b]);
    assert ba.Store()[0..1] == [b];
  }
}
