/** The I/O event table of `IOManager` (src/iomanager.cc).

    Concretely a vector of per-descriptor contexts, each with two status bits
    and two stored continuations, next to the interest set kept by the kernel
    and an atomic counter.  Abstractly one map from (descriptor, direction) to
    the continuation that the next readiness, cancellation or close wakes.  One
    method call is one critical section of `ctx->mutex`. */
module IoEvents {
  import opened Wrappers

  datatype Dir = Read | Write

  datatype Key = Key(fd: nat, dir: Dir)

  /** What `EventContext` stores: a coroutine with the thread it must resume on,
      or a callback. */
  datatype Cont = CoCont(co: nat, tid: nat) | CbCont(cb: nat)

  /** `Context`: the bits of `statuses` and the two `EventContext`s. */
  datatype Context = Context(read: bool, write: bool, rc: Option<Cont>, wc: Option<Cont>) {

    predicate Has(d: Dir) { if d.Read? then read else write }

    function Stored(d: Dir): Option<Cont> { if d.Read? then rc else wc }

    predicate Ok() { (read <==> rc.Some?) && (write <==> wc.Some?) }

    function Put(d: Dir, on: bool, c: Option<Cont>): Context {
      if d.Read? then this.(read := on, rc := c) else this.(write := on, wc := c)
    }
  }

  const FRESH := Context(false, false, None, None)

  /** The event mask registered with the kernel for one descriptor. */
  datatype Mask = Mask(read: bool, write: bool)

  datatype CtlOp = Add | Mod | Del

  function Other(d: Dir): Dir { if d.Read? then Write else Read }

  predicate Bit(cs: seq<Context>, k: Key) {
    k.fd < |cs| && cs[k.fd].Has(k.dir)
  }

  function Bits(cs: seq<Context>, fd: nat): Mask {
    if fd < |cs| then Mask(cs[fd].read, cs[fd].write) else Mask(false, false)
  }

  function KernelBits(interest: map<nat, Mask>, fd: nat): Mask {
    if fd in interest then interest[fd] else Mask(false, false)
  }

  /** A status bit is set iff a continuation is stored. */
  ghost predicate Consistent(cs: seq<Context>) {
    forall fd :: 0 <= fd < |cs| ==> cs[fd].Ok()
  }

  /** The kernel holds exactly the status bits of every descriptor, and registers
      no descriptor with an empty mask. */
  ghost predicate Mirrored(cs: seq<Context>, interest: map<nat, Mask>) {
    && (forall fd: nat :: Bits(cs, fd) == KernelBits(interest, fd))
    && (forall fd :: fd in interest ==> interest[fd].read || interest[fd].write)
  }

  ghost function SetBits(cs: seq<Context>): (ks: set<Key>)
    ensures forall k: Key :: k in ks <==> Bit(cs, k)
  {
    set fd: nat, d: Dir | fd < |cs| && cs[fd].Has(d) :: Key(fd, d)
  }

  /** The armed registrations: the abstract value of the table. */
  ghost function Armed(cs: seq<Context>): (m: map<Key, Cont>)
    requires Consistent(cs)
    ensures forall k: Key :: k in m <==> Bit(cs, k)
  {
    map k: Key | k in SetBits(cs) :: cs[k.fd].Stored(k.dir).value
  }

  /** Adding a key to a map, or removing one, moves its size by one. */
  lemma MapSizes(m: map<Key, Cont>, k: Key, c: Cont)
    ensures k !in m ==> |m[k := c]| == |m| + 1
    ensures k in m ==> |m - {k}| == |m| - 1
  {
    assert m[k := c].Keys == m.Keys + {k};
    assert (m - {k}).Keys == m.Keys - {k};
  }

  lemma RemoveTwo(m: map<Key, Cont>, a: Key, b: Key)
    requires a != b
    ensures (m - {a}) - {b} == m - {a, b}
    ensures ContsAt(m - {a}, b) == ContsAt(m, b)
  {
  }

  lemma BitPut(cs: seq<Context>, fd: nat, d: Dir, c: Option<Cont>, k: Key)
    requires Consistent(cs) && fd < |cs|
    ensures var cs' := cs[fd := cs[fd].Put(d, c.Some?, c)];
            && (Bit(cs', k) <==> if k == Key(fd, d) then c.Some? else Bit(cs, k))
            && (Bit(cs', k) ==> cs'[k.fd].Stored(k.dir) == if k == Key(fd, d) then c else cs[k.fd].Stored(k.dir))
  {
  }

  lemma ArmedPut(cs: seq<Context>, fd: nat, d: Dir, c: Option<Cont>)
    requires Consistent(cs) && fd < |cs|
    ensures var cs' := cs[fd := cs[fd].Put(d, c.Some?, c)];
            && Consistent(cs')
            && Armed(cs') == if c.Some? then Armed(cs)[Key(fd, d) := c.value] else Armed(cs) - {Key(fd, d)}
  {
    var cs' := cs[fd := cs[fd].Put(d, c.Some?, c)];
    assert Consistent(cs');
    forall k: Key
      ensures Bit(cs', k) <==> if k == Key(fd, d) then c.Some? else Bit(cs, k)
      ensures Bit(cs', k) ==> cs'[k.fd].Stored(k.dir) == if k == Key(fd, d) then c else cs[k.fd].Stored(k.dir)
    {
      BitPut(cs, fd, d, c, k);
    }
  }

  /** Clearing a direction, whether or not it was set. */
  lemma ArmedDrop(cs: seq<Context>, fd: nat, d: Dir)
    requires Consistent(cs) && fd < |cs|
    ensures var cs' := cs[fd := cs[fd].Put(d, false, None)];
            && Consistent(cs')
            && Armed(cs') == Armed(cs) - {Key(fd, d)}
            && |Armed(cs')| == |Armed(cs)| - (if cs[fd].Has(d) then 1 else 0)
    ensures cs[fd].Has(d) ==> ContsAt(Armed(cs), Key(fd, d)) == [cs[fd].Stored(d).value]
    ensures !cs[fd].Has(d) ==> ContsAt(Armed(cs), Key(fd, d)) == [] && cs[fd].Put(d, false, None) == cs[fd]
  {
    ArmedPut(cs, fd, d, None);
    assert Key(fd, d) in Armed(cs) <==> Bit(cs, Key(fd, d));
    if cs[fd].Has(d) {
      MapSizes(Armed(cs), Key(fd, d), cs[fd].Stored(d).value);
    } else {
      assert Armed(cs) - {Key(fd, d)} == Armed(cs);
    }
  }

  lemma ArmedGrow(cs: seq<Context>, cs': seq<Context>)
    requires Consistent(cs) && cs <= cs'
    requires forall i :: |cs| <= i < |cs'| ==> cs'[i] == FRESH
    ensures Consistent(cs') && Armed(cs') == Armed(cs)
  {
    assert forall fd :: 0 <= fd < |cs'| ==> cs'[fd].Ok();
    assert forall k: Key :: Bit(cs', k) <==> Bit(cs, k);
  }

  function ContsAt(m: map<Key, Cont>, k: Key): seq<Cont> { if k in m then [m[k]] else [] }

  /** Changing one descriptor on both sides alike keeps the mirror. */
  lemma MirrorSet(cs: seq<Context>, cs': seq<Context>, interest: map<nat, Mask>, interest': map<nat, Mask>, fd: nat)
    requires Mirrored(cs, interest) && fd < |cs| == |cs'|
    requires forall i :: 0 <= i < |cs| && i != fd ==> cs'[i] == cs[i]
    requires interest' == interest - {fd} || (fd in interest' && interest' == interest[fd := interest'[fd]])
    requires fd in interest' <==> cs'[fd].read || cs'[fd].write
    requires fd in interest' ==> interest'[fd] == Mask(cs'[fd].read, cs'[fd].write)
    ensures Mirrored(cs', interest')
  {
    forall f: nat
      ensures Bits(cs', f) == KernelBits(interest', f)
    {
      assert Bits(cs, f) == KernelBits(interest, f);
    }
  }

  /** What the invariant says of one descriptor. */
  lemma OneDescriptor(cs: seq<Context>, interest: map<nat, Mask>, fd: nat)
    requires Consistent(cs) && Mirrored(cs, interest) && fd < |cs|
    ensures cs[fd].Ok() && (fd in interest <==> cs[fd].read || cs[fd].write)
    ensures forall d :: Key(fd, d) in Armed(cs) <==> cs[fd].Has(d)
    ensures forall d :: cs[fd].Has(d) ==> cs[fd].Stored(d) == Some(Armed(cs)[Key(fd, d)])
  {
    assert Bits(cs, fd) == KernelBits(interest, fd);
  }

  class IOManager {
    var contexts: seq<Context>
    /** The kernel's side: descriptors registered with `epoll_ctl`. */
    var interest: map<nat, Mask>
    /** `m_appending_event_cnt` */
    var pending: nat
    /** Continuations passed to `schedule`, oldest first. */
    var woken: seq<Cont>

    /** The table is consistent, the kernel mirrors it, and the pending count is
        the number of set bits. */
    ghost predicate Valid()
      reads this
    {
      && |contexts| >= 128
      && Consistent(contexts)
      && Mirrored(contexts, interest)
      && pending == |Armed(contexts)|
    }

    constructor ()
      ensures Valid() && Armed(contexts) == map[] && woken == []
    {
      contexts, interest, pending, woken := [], map[], 0, [];
      new;
      FdContextResize(128);
      ArmedGrow([], contexts);
      assert Armed(contexts) == map[];
    }

    /** `fd_context_resize`: grow the vector, keeping every existing context. */
    method FdContextResize(size: nat)
      modifies this`contexts
      ensures old(contexts) <= contexts
      ensures |contexts| == if size <= |old(contexts)| then |old(contexts)| else size
      ensures forall i :: |old(contexts)| <= i < |contexts| ==> contexts[i] == FRESH
    {
      while |contexts| < size
        invariant old(contexts) <= contexts
        invariant |contexts| <= if size <= |old(contexts)| then |old(contexts)| else size
        invariant forall i :: |old(contexts)| <= i < |contexts| ==> contexts[i] == FRESH
      {
        contexts := contexts + [FRESH];
      }
    }

    /** `epoll_ctl`.  The preconditions say when the kernel accepts an operation, and make
        every call site prove that the one it chose is legal: a new descriptor for ADD, a
        known one for MOD and DEL, and no empty mask in between; `ok` is any other kernel
        failure. */
    method EpollCtl(op: CtlOp, fd: nat, mask: Mask, ok: bool)
      requires op.Add? ==> fd !in interest && (mask.read || mask.write)
      requires op.Mod? ==> fd in interest && (mask.read || mask.write)
      requires op.Del? ==> fd in interest
      modifies this`interest
      ensures interest == if !ok then old(interest)
                          else if op.Del? then old(interest) - {fd}
                          else old(interest)[fd := mask]
    {
      if ok {
        if op.Del? {
          interest := interest - {fd};
        } else {
          interest := interest[fd := mask];
        }
      }
    }

    /** The lookup at the start of `add_event`: grows the vector by half when the
        descriptor is beyond its end, which always reaches that descriptor. */
    method EnsureContext(fd: nat)
      requires Valid()
      modifies this`contexts
      ensures Valid() && fd < |contexts| && Armed(contexts) == old(Armed(contexts))
    {
      if |contexts| <= fd {
        FdContextResize(fd * 3 / 2);
      }
      ArmedGrow(old(contexts), contexts);
      forall f: nat
        ensures Bits(contexts, f) == KernelBits(interest, f)
      {
        assert Bits(old(contexts), f) == KernelBits(interest, f);
      }
    }

    /** `add_event`: refuses a direction that is already armed, otherwise arms
        exactly that one. */
    method AddEvent(fd: nat, d: Dir, c: Cont, ok: bool) returns (r: bool)
      requires Valid()
      modifies this
      ensures Valid() && fd < |contexts| && woken == old(woken)
      ensures r <==> Key(fd, d) !in old(Armed(contexts)) && ok
      ensures Armed(contexts) == if r then old(Armed(contexts))[Key(fd, d) := c] else old(Armed(contexts))
    {
      hide Consistent, Mirrored, Armed;
      EnsureContext(fd);
      OneDescriptor(contexts, interest, fd);
      var ctx := contexts[fd];
      if ctx.Has(d) {
        return false;
      }
      EpollCtl(if ctx.read || ctx.write then Mod else Add, fd, Mask(ctx.read || d.Read?, ctx.write || d.Write?), ok);
      if !ok {
        return false;
      }
      pending := pending + 1;
      ghost var before := contexts;
      contexts := contexts[fd := ctx.Put(d, true, Some(c))];
      ArmedPut(before, fd, d, Some(c));
      MapSizes(Armed(before), Key(fd, d), c);
      MirrorSet(before, contexts, old(interest), interest, fd);
      return true;
    }

    /** `trigger_event`: re-tests the bit, then hands the continuation to the
        scheduler and clears the context. */
    method TriggerEvent(fd: nat, d: Dir)
      requires fd < |contexts| && (contexts[fd].Has(d) ==> contexts[fd].Stored(d).Some?)
      modifies this`contexts, this`woken
      ensures !old(contexts)[fd].Has(d) ==> contexts == old(contexts) && woken == old(woken)
      ensures old(contexts)[fd].Has(d) ==>
                && contexts == old(contexts)[fd := old(contexts)[fd].Put(d, false, None)]
                && woken == old(woken) + [old(contexts)[fd].Stored(d).value]
    {
      if !contexts[fd].Has(d) {
        return;
      }
      woken := woken + [contexts[fd].Stored(d).value];
      contexts := contexts[fd := contexts[fd].Put(d, false, None)];
    }

    /** The part shared by `idle` and `cancel_event`: deregister one armed
        direction with the kernel, then trigger it. */
    method Consume(fd: nat, d: Dir, ok: bool) returns (r: bool)
      requires Valid() && Bit(contexts, Key(fd, d))
      modifies this
      ensures Valid() && r == ok && |contexts| == |old(contexts)|
      ensures Key(fd, d) in old(Armed(contexts))
      ensures Armed(contexts) == if r then old(Armed(contexts)) - {Key(fd, d)} else old(Armed(contexts))
      ensures woken == if r then old(woken) + [old(Armed(contexts))[Key(fd, d)]] else old(woken)
    {
      hide Consistent, Mirrored, Armed;
      OneDescriptor(contexts, interest, fd);
      var ctx := contexts[fd];
      var left := ctx.Has(Other(d));
      EpollCtl(if left then Mod else Del, fd, Mask(ctx.read && !d.Read?, ctx.write && !d.Write?), ok);
      if !ok {
        return false;
      }
      ArmedDrop(contexts, fd, d);
      pending := pending - 1;
      TriggerEvent(fd, d);
      MirrorSet(old(contexts), contexts, old(interest), interest, fd);
      return true;
    }

    /** One iteration of the dispatch loop of `idle`.  An error or hangup raises
        both bits, and then only one direction is kept, WRITE over READ. */
    method Dispatch(fd: nat, evIn: bool, evOut: bool, evErrHup: bool, ok: bool) returns (fired: Option<Dir>)
      requires Valid() && fd < |contexts|
      modifies this
      ensures Valid()
      ensures var ready := if evOut || evErrHup then Some(Write) else if evIn then Some(Read) else None;
              fired == if ok && ready.Some? && Key(fd, ready.value) in old(Armed(contexts)) then ready else None
      ensures fired.None? ==> Armed(contexts) == old(Armed(contexts)) && woken == old(woken)
      ensures fired.Some? ==>
                && Armed(contexts) == old(Armed(contexts)) - {Key(fd, fired.value)}
                && woken == old(woken) + [old(Armed(contexts))[Key(fd, fired.value)]]
    {
      var ready := None;
      if evIn || evErrHup {
        ready := Some(Read);
      }
      if evOut || evErrHup {
        ready := Some(Write);
      }
      if ready.None? || !contexts[fd].Has(ready.value) {
        return None;
      }
      var r := Consume(fd, ready.value, ok);
      return if r then ready else None;
    }

    /** `cancel_event`: true iff it consumed the registration. */
    method CancelEvent(fd: nat, d: Dir, ok: bool) returns (r: bool)
      requires Valid()
      modifies this
      ensures Valid()
      ensures r <==> Key(fd, d) in old(Armed(contexts)) && ok
      ensures Armed(contexts) == if r then old(Armed(contexts)) - {Key(fd, d)} else old(Armed(contexts))
      ensures woken == if r then old(woken) + [old(Armed(contexts))[Key(fd, d)]] else old(woken)
    {
      if |contexts| <= fd || !contexts[fd].Has(d) {
        return false;
      }
      r := Consume(fd, d, ok);
    }

    /** One of the two blocks of `cancel_all_event`. */
    method Drop(fd: nat, d: Dir)
      requires fd < |contexts| && Consistent(contexts) && pending == |Armed(contexts)|
      modifies this`contexts, this`pending, this`woken
      ensures contexts == old(contexts)[fd := old(contexts)[fd].Put(d, false, None)]
      ensures Consistent(contexts) && pending == |Armed(contexts)|
      ensures Armed(contexts) == old(Armed(contexts)) - {Key(fd, d)}
      ensures woken == old(woken) + ContsAt(old(Armed(contexts)), Key(fd, d))
    {
      ghost var cs := contexts;
      ArmedDrop(cs, fd, d);
      if contexts[fd].Has(d) {
        TriggerEvent(fd, d);
        pending := pending - 1;
      }
      assert contexts == cs[fd := cs[fd].Put(d, false, None)];
    }

    method DropBoth(fd: nat)
      requires fd < |contexts| && Consistent(contexts) && pending == |Armed(contexts)|
      modifies this`contexts, this`pending, this`woken
      ensures contexts == old(contexts)[fd := FRESH]
      ensures Consistent(contexts) && pending == |Armed(contexts)|
      ensures Armed(contexts) == old(Armed(contexts)) - {Key(fd, Read), Key(fd, Write)}
      ensures woken == old(woken) + ContsAt(old(Armed(contexts)), Key(fd, Read))
              + ContsAt(old(Armed(contexts)), Key(fd, Write))
    {
      hide Consistent, Bit, SetBits;
      RemoveTwo(Armed(contexts), Key(fd, Read), Key(fd, Write));
      Drop(fd, Read);
      Drop(fd, Write);
    }

    /** `cancel_all_event`, called by the hooked `close`: afterwards nothing of
        `fd` is armed and each continuation was handed out exactly once, READ
        before WRITE. */
    method CancelAllEvent(fd: nat, ok: bool) returns (r: bool)
      requires Valid()
      modifies this
      ensures Valid()
      ensures r <==> (Key(fd, Read) in old(Armed(contexts)) || Key(fd, Write) in old(Armed(contexts))) && ok
      ensures Armed(contexts) == if r then old(Armed(contexts)) - {Key(fd, Read), Key(fd, Write)}
              else old(Armed(contexts))
      ensures woken == if !r then old(woken)
                       else old(woken) + ContsAt(old(Armed(contexts)), Key(fd, Read))
                            + ContsAt(old(Armed(contexts)), Key(fd, Write))
    {
      if |contexts| <= fd || !(contexts[fd].read || contexts[fd].write) {
        return false;
      }
      assert Bits(contexts, fd) == KernelBits(interest, fd);
      EpollCtl(Del, fd, Mask(false, false), ok);
      if !ok {
        return false;
      }
      DropBoth(fd);
      MirrorSet(old(contexts), contexts, old(interest), interest, fd);
      return true;
    }
  }
}
