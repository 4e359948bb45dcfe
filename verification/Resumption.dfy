/** What follows from the protocol of `ParkWake` for one coroutine, callback or idle
    coroutine, stated on the actions of a run: where it is resumed, how long it waits, and
    that what has ended stays so. */
module Resumption {
  import opened Wrappers
  import opened IoEvents
  import opened ParkWake

  // -------------------------------------------------------------- where it is resumed

  /** Step `n` of the run resumes coroutine `co`. */
  ghost predicate ResumesAt(ss: seq<State>, acts: seq<Action>, n: nat, co: nat) {
    n < |acts| && n < |ss| && acts[n].Resume? && IsGot(ss[n], acts[n].t) && ss[n].thr[acts[n].t].task.co == co
  }

  /** A waiting coroutine keeps waiting, at the same home, until it is resumed. */
  lemma WaitsAtHome(s: State, a: Action, co: nat)
    requires TokenInv(s) && Enabled(s, a) && co in s.cos && (s.cos[co].state.Yielded? || s.cos[co].state.Init?)
    requires !(a.Resume? && s.thr[a.t].task.co == co)
    ensures var s' := Apply(s, a);
            co in s'.cos && s'.cos[co].state == s.cos[co].state && s'.cos[co].home == s.cos[co].home
  {
    hide Finds, Runnable, Unique, OnlyWaiting, Homed, Live, TokenFor;
  }

  lemma {:induction false} WaitsUntil(ss: seq<State>, acts: seq<Action>, j: nat, i: nat, co: nat)
    requires IsBehavior(ss, acts) && j <= i < |ss| && co in ss[j].cos
    requires ss[j].cos[co].state.Yielded? || ss[j].cos[co].state.Init?
    requires forall n :: j <= n < i ==> !ResumesAt(ss, acts, n, co)
    ensures co in ss[i].cos && ss[i].cos[co].state == ss[j].cos[co].state && ss[i].cos[co].home == ss[j].cos[co].home
  {
    hide Apply, Enabled, IsBehavior, TokenInv;
    if j < i {
      WaitsUntil(ss, acts, j, i - 1, co);
      TokensThere(ss, acts, i - 1);
      assert !ResumesAt(ss, acts, i - 1, co);
      ResumeIsGot(ss[i - 1], acts[i - 1]);
      WaitsAtHome(ss[i - 1], acts[i - 1], co);
    }
  }

  lemma TokensThere(ss: seq<State>, acts: seq<Action>, n: nat)
    requires IsBehavior(ss, acts) && n < |ss|
    ensures |ss| == |acts| + 1 && TokenInv(ss[n])
    ensures n < |acts| ==> Enabled(ss[n], acts[n]) && ss[n + 1] == Apply(ss[n], acts[n])
  {
    RunInv(ss, acts, n);
  }

  lemma ResumeIsGot(s: State, a: Action)
    requires Enabled(s, a)
    ensures a.Resume? ==> IsGot(s, a.t) && s.thr[a.t].task.Wake?
  {
  }

  /** A dequeued wake-up is on the coroutine's home thread. */
  lemma DequeuedAtHome(s: State, t: nat)
    requires TokenInv(s) && IsGot(s, t) && s.thr[t].task.Wake?
    ensures var co := s.thr[t].task.co; co in s.cos && (s.cos[co].home == 0 || s.cos[co].home == t)
  {
    assert TokenFor(s, s.thr[t].task.co, AtThread(t));
  }

  /** In every run, a coroutine that yields on a thread is next resumed on that thread,
      whatever woke it and whoever did. */
  lemma ResumedWhereItYielded(ss: seq<State>, acts: seq<Action>, j: nat, i: nat, co: nat)
    requires IsBehavior(ss, acts) && j < i < |acts|
    requires acts[j].Yield? && At(ss[j], acts[j].t, Run(co))
    requires ResumesAt(ss, acts, i, co) && forall n :: j < n < i ==> !ResumesAt(ss, acts, n, co)
    ensures acts[i].t == acts[j].t
  {
    hide Inv;
    TokensThere(ss, acts, j);
    assert co in ss[j + 1].cos && ss[j + 1].cos[co].state == Yielded && ss[j + 1].cos[co].home == acts[j].t;
    WaitsUntil(ss, acts, j + 1, i, co);
    TokensThere(ss, acts, i);
    DequeuedAtHome(ss[i], acts[i].t);
  }

  /** In every run, a coroutine scheduled for a thread is first resumed on that thread. */
  lemma FirstResumedWhereScheduled(ss: seq<State>, acts: seq<Action>, j: nat, i: nat, co: nat)
    requires IsBehavior(ss, acts) && j < i < |acts|
    requires acts[j].Spawn? && acts[j].co == co && acts[j].accept && acts[j].pin != 0
    requires ResumesAt(ss, acts, i, co) && forall n :: j < n < i ==> !ResumesAt(ss, acts, n, co)
    ensures acts[i].t == acts[j].pin
  {
    hide Inv;
    assert co in ss[j + 1].cos && ss[j + 1].cos[co].state == Init && ss[j + 1].cos[co].home == acts[j].pin;
    WaitsUntil(ss, acts, j + 1, i, co);
    TokensThere(ss, acts, i);
    DequeuedAtHome(ss[i], acts[i].t);
  }

  // ------------------------------------------------------- callbacks and idle threads

  lemma EventStays(s: State, a: Action, key: Key)
    requires Enabled(s, a) && !(a.Consume? && a.key == key)
    ensures key in s.events ==> key in Apply(s, a).events && Apply(s, a).events[key] == s.events[key]
    ensures a.ArmCallback? && a.key == key ==> key in Apply(s, a).events && Apply(s, a).events[key] == CbCont(a.cb)
  {
    hide Finds, Runnable, NoBatch;
  }

  /** In every run, a callback registered for an event stays registered until that event is
      consumed, and is then scheduled. */
  lemma {:induction false} CallbackWaits(ss: seq<State>, acts: seq<Action>, j: nat, i: nat, key: Key, cb: nat)
    requires IsBehavior(ss, acts) && j < i < |ss| && acts[j] == ArmCallback(key, cb)
    requires forall n :: j < n < i ==> !(acts[n].Consume? && acts[n].key == key)
    ensures key in ss[i].events && ss[i].events[key] == CbCont(cb)
    ensures i < |acts| && acts[i].Consume? && acts[i].key == key && acts[i].accept ==>
              var q, q' := ss[i].q, ss[i + 1].q;
              q.next in q'.tasks && q'.tasks[q.next] == Wake(acts[i].newCo, 0)
  {
    hide IsBehavior, Apply, Enabled, TokenInv;
    TokensThere(ss, acts, i - 1);
    EventStays(ss[i - 1], acts[i - 1], key);
    if j < i - 1 {
      CallbackWaits(ss, acts, j, i - 1, key, cb);
    }
    if i < |acts| && acts[i].Consume? && acts[i].key == key && acts[i].accept {
      TokensThere(ss, acts, i);
      CallbackScheduled(ss[i], acts[i]);
    }
  }

  lemma CallbackScheduled(s: State, a: Action)
    requires Enabled(s, a) && a.Consume? && a.accept && a.key in s.events && s.events[a.key].CbCont?
    ensures var q, q' := s.q, Apply(s, a).q; q.next in q'.tasks && q'.tasks[q.next] == Wake(a.newCo, 0)
  {
  }

  lemma DoneStays(s: State, a: Action, t: nat)
    requires Enabled(s, a)
    ensures t in s.c.idleDone || a == IdleEnd(t) ==> t in Apply(s, a).c.idleDone
  {
    hide Finds, Runnable, NoBatch;
  }

  lemma {:induction false} DoneSince(ss: seq<State>, acts: seq<Action>, j: nat, i: nat, t: nat)
    requires IsBehavior(ss, acts) && j < i < |ss| && acts[j] == IdleEnd(t)
    ensures t in ss[i].c.idleDone
  {
    hide Enabled, Apply, IsBehavior;
    TokensThere(ss, acts, i - 1);
    DoneStays(ss[i - 1], acts[i - 1], t);
    if j < i - 1 {
      DoneSince(ss, acts, j, i - 1, t);
    }
  }

  /** In every run, once the idle coroutine of a thread has ended, that thread is never again
      inside it. */
  lemma IdleEndedForGood(ss: seq<State>, acts: seq<Action>, j: nat, i: nat, t: nat)
    requires IsBehavior(ss, acts) && j < i < |ss| && acts[j] == IdleEnd(t)
    ensures !At(ss[i], t, Idle)
  {
    hide IsBehavior, Inv;
    DoneSince(ss, acts, j, i, t);
    IdleNeverResumedAfterEnd(ss, acts, i, t);
  }
}
