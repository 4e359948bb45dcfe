/** `TimerManager` (src/timer.cc): an ordered set of timers keyed by a deadline that
    the timers themselves carry. */
module Timers {
  import opened Wrappers

  /** A timer object; callbacks are named by numbers, `None` is a null one. */
  datatype Timer = Timer(interval: int, loop: bool, next: int, cb: Option<nat>)

  /** What a caller can observe: a callback handed out, with the deadline it had and
      the clock reading it was compared with; and a successful cancellation. */
  datatype Event = Fired(id: nat, cb: nat, deadline: int, now: int) | Cancelled(id: nat)

  /** `Comparator` on two timers: by deadline, then by address. */
  predicate Before(a: Timer, i: nat, b: Timer, j: nat) {
    if a.next > b.next then false
    else if a.next < b.next then true
    else i < j
  }

  predicate Less(recs: map<nat, Timer>, i: nat, j: nat)
    requires i in recs && j in recs
  {
    Before(recs[i], i, recs[j], j)
  }

  ghost predicate Sorted(recs: map<nat, Timer>, ids: seq<nat>) {
    && (forall k :: 0 <= k < |ids| ==> ids[k] in recs)
    && (forall k, l :: 0 <= k < l < |ids| ==> Less(recs, ids[k], ids[l]))
  }

  /** The first place whose timer is not before timer `id`. */
  ghost predicate LowerBound(recs: map<nat, Timer>, ids: seq<nat>, id: nat, p: nat)
    requires Sorted(recs, ids) && id in recs
  {
    && p <= |ids|
    && (forall k :: 0 <= k < p ==> Less(recs, ids[k], id))
    && (p < |ids| ==> !Less(recs, ids[p], id))
  }

  /** The comparator finds a timer exactly when it is a member, because members are
      sorted by the deadlines they have now. */
  lemma FoundIffMember(recs: map<nat, Timer>, ids: seq<nat>, id: nat, p: nat)
    requires Sorted(recs, ids) && id in recs && LowerBound(recs, ids, id, p)
    ensures (p < |ids| && !Less(recs, id, ids[p])) <==> id in ids
    ensures id in ids ==> p < |ids| && ids[p] == id
  {
    if id in ids {
      var k :| 0 <= k < |ids| && ids[k] == id;
    }
  }

  lemma InsertSorted(recs: map<nat, Timer>, ids: seq<nat>, id: nat, p: nat)
    requires Sorted(recs, ids) && id in recs && LowerBound(recs, ids, id, p) && id !in ids
    ensures Sorted(recs, ids[..p] + [id] + ids[p..])
    ensures forall x :: x in ids[..p] + [id] + ids[p..] <==> x in ids || x == id
  {
    var out := ids[..p] + [id] + ids[p..];
    forall k, l | 0 <= k < l < |out|
      ensures Less(recs, out[k], out[l])
    {
      if l == p {
      } else if k == p {
        assert Less(recs, id, ids[p]);
      }
    }
    assert out[p] == id;
    forall x | x in ids
      ensures x in out
    {
      var k :| 0 <= k < |ids| && ids[k] == x;
      assert out[if k < p then k else k + 1] == x;
    }
  }

  lemma EraseSorted(recs: map<nat, Timer>, ids: seq<nat>, p: nat)
    requires Sorted(recs, ids) && p < |ids|
    ensures Sorted(recs, ids[..p] + ids[p + 1..]) && ids[p] in recs
    ensures forall x :: x in ids[..p] + ids[p + 1..] <==> x in ids && x != ids[p]
  {
    var out := ids[..p] + ids[p + 1..];
    assert forall k :: 0 <= k < |out| ==> out[k] == ids[if k < p then k else k + 1];
    forall x | x in ids && x != ids[p]
      ensures x in out
    {
      var k :| 0 <= k < |ids| && ids[k] == x;
      assert out[if k < p then k else k - 1] == x;
    }
  }

  /** Changing a timer that is not a member keeps the order. */
  lemma UpdateOutside(recs: map<nat, Timer>, ids: seq<nat>, id: nat, t: Timer)
    requires Sorted(recs, ids) && id !in ids
    ensures Sorted(recs[id := t], ids)
  {
  }

  // ---------------------------------------------------------------- history

  /** What has been handed out and cancelled so far is consistent with the timers:
      nothing fires before its deadline; a one-shot fires at its own deadline and at
      most once, and has no callback afterwards; nothing cancelled fires later. */
  ghost predicate History(recs: map<nat, Timer>, log: seq<Event>) {
    && (forall n :: 0 <= n < |log| ==> EventOk(recs, log[n]))
    && (forall m, n :: 0 <= m < n < |log| && log[n].Fired? && log[m].id == log[n].id ==>
          log[m].Fired? && recs[log[n].id].loop)
  }

  predicate EventOk(recs: map<nat, Timer>, e: Event) {
    && e.id in recs
    && (e.Cancelled? ==> recs[e.id].cb.None?)
    && (e.Fired? ==> e.deadline <= e.now)
    && (e.Fired? && !recs[e.id].loop ==> recs[e.id].cb.None? && e.deadline == recs[e.id].next)
  }

  /** Changes to a timer that history allows: its kind stays, a one-shot's deadline
      stays, and a callback may be dropped but not put back. */
  predicate Allowed(t: Timer, t': Timer) {
    t'.loop == t.loop && (!t.loop ==> t'.next == t.next) && (t.cb.None? ==> t'.cb.None?)
  }

  lemma HistoryUpdate(recs: map<nat, Timer>, recs': map<nat, Timer>, log: seq<Event>)
    requires History(recs, log) && forall x :: x in recs ==> x in recs' && Allowed(recs[x], recs'[x])
    ensures History(recs', log)
  {
    forall n | 0 <= n < |log|
      ensures EventOk(recs', log[n])
    {
      assert EventOk(recs, log[n]);
    }
    forall m, n | 0 <= m < n < |log| && log[n].Fired? && log[m].id == log[n].id
      ensures log[m].Fired? && recs'[log[n].id].loop
    {
      assert EventOk(recs, log[n]);
    }
  }

  lemma HistoryAdd(recs: map<nat, Timer>, log: seq<Event>, e: Event)
    requires History(recs, log) && EventOk(recs, e)
    requires e.Fired? ==> forall n :: 0 <= n < |log| && log[n].id == e.id ==> log[n].Fired? && recs[e.id].loop
    ensures History(recs, log + [e])
  {
  }

  /** A timer that still has its callback was never cancelled, and fired only if it
      loops. */
  lemma NotYetFired(recs: map<nat, Timer>, log: seq<Event>, id: nat, n: nat)
    requires History(recs, log) && id in recs && recs[id].cb.Some? && n < |log| && log[n].id == id
    ensures log[n].Fired? && recs[id].loop
  {
    assert EventOk(recs, log[n]);
  }

  // ------------------------------------------------------------ the manager

  /** What `all_expired_cbs` makes of an expired timer. */
  function AfterExpiry(t: Timer, now: int): Timer {
    if t.loop then t.(next := t.interval + now) else t.(cb := None)
  }

  /** The earliest deadline, if any. */
  function Earliest(recs: map<nat, Timer>, ids: seq<nat>): Option<int> {
    if ids == [] || ids[0] !in recs then None else Some(recs[ids[0]].next)
  }

  predicate Lowered(before: Option<int>, after: Option<int>) {
    after.Some? && (before.None? || after.value < before.value)
  }

  /** The events of handing out the non-null callbacks of `ids` in order. */
  ghost function FiredOf(recs: map<nat, Timer>, ids: seq<nat>, now: int): seq<Event>
    requires forall k :: 0 <= k < |ids| ==> ids[k] in recs
  {
    if ids == [] then []
    else
      var id := ids[|ids| - 1];
      FiredOf(recs, ids[..|ids| - 1], now) +
      (if recs[id].cb.None? then [] else [Fired(id, recs[id].cb.value, recs[id].next, now)])
  }

  lemma FiredNext(recs: map<nat, Timer>, ids: seq<nat>, now: int, i: nat)
    requires i < |ids| && forall k :: 0 <= k < |ids| ==> ids[k] in recs
    ensures ids[..i + 1] == ids[..i] + [ids[i]]
    ensures FiredOf(recs, ids[..i + 1], now) == FiredOf(recs, ids[..i], now) +
            (if recs[ids[i]].cb.None? then [] else [Fired(ids[i], recs[ids[i]].cb.value, recs[ids[i]].next, now)])
  {
    assert ids[..i + 1][..i] == ids[..i];
  }

  /** The timers of `done`, all expired at `now`, have been dealt with. */
  ghost predicate Progress(recs0: map<nat, Timer>, ids0: seq<nat>, done: seq<nat>, recs: map<nat, Timer>,
                           ids: seq<nat>, now: int) {
    && recs.Keys == recs0.Keys && (forall x :: x in ids0 ==> x in recs0)
    && (forall x :: x in recs ==> recs[x] == if x in done then AfterExpiry(recs0[x], now) else recs0[x])
    && (forall x :: x in ids <==> x in ids0 && (x in done ==> recs0[x].loop))
  }

  lemma ProgressStart(recs: map<nat, Timer>, ids: seq<nat>, now: int)
    requires Sorted(recs, ids)
    ensures Progress(recs, ids, [], recs, ids, now) && FiredOf(recs, [], now) == []
  {
  }

  lemma ProgressAt(recs0: map<nat, Timer>, ids0: seq<nat>, todo: seq<nat>, i: nat, recs: map<nat, Timer>,
                   ids: seq<nat>, now: int)
    requires i < |todo| && Progress(recs0, ids0, todo[..i], recs, ids, now)
    requires todo[i] in ids0 && forall k, l :: 0 <= k < l < |todo| ==> todo[k] != todo[l]
    ensures todo[i] in ids && todo[i] in recs && todo[i] in recs0 && recs[todo[i]] == recs0[todo[i]]
  {
    assert todo[i] !in todo[..i];
  }

  lemma ProgressNext(recs0: map<nat, Timer>, ids0: seq<nat>, todo: seq<nat>, i: nat,
                     recs: map<nat, Timer>, ids: seq<nat>, recs': map<nat, Timer>, ids': seq<nat>, now: int)
    requires i < |todo| && Progress(recs0, ids0, todo[..i], recs, ids, now)
    requires todo[i] in ids0 && forall k, l :: 0 <= k < l < |todo| ==> todo[k] != todo[l]
    requires todo[i] in recs && recs' == recs[todo[i] := AfterExpiry(recs[todo[i]], now)]
    requires forall x :: x in ids' <==> x in ids && (x == todo[i] ==> recs[todo[i]].loop)
    ensures Progress(recs0, ids0, todo[..i + 1], recs', ids', now)
  {
    hide AfterExpiry;
    ProgressAt(recs0, ids0, todo, i, recs, ids, now);
    assert todo[..i + 1] == todo[..i] + [todo[i]];
  }

  lemma ProgressMeans(recs0: map<nat, Timer>, ids0: seq<nat>, done: seq<nat>, recs: map<nat, Timer>, ids: seq<nat>,
                      now: int)
    requires Progress(recs0, ids0, done, recs, ids, now)
    ensures recs.Keys == recs0.Keys && forall x :: x in ids0 ==> x in recs0
    ensures forall x :: x in recs ==> recs[x] == if x in done then AfterExpiry(recs0[x], now) else recs0[x]
    ensures forall x :: x in ids <==> x in ids0 && (x in done ==> recs0[x].loop)
  {
  }

  /** An expired looping timer whose next deadline precedes the earliest one. */
  predicate GoesBack(t: Timer, earliest: int, now: int) {
    t.next <= now && t.loop && t.interval + now < earliest
  }

  // ------------------------------------------------------------ the operations

  /** The manager's state and what it has handed out so far. */
  datatype State = State(recs: map<nat, Timer>, timers: seq<nat>, refreshes: nat, log: seq<Event>)

  const EMPTY := State(map[], [], 0, [])

  /** The operations, with their clock readings. */
  datatype Op =
    | Add(id: nat, now: int, interval: int, cb: Option<nat>, loop: bool)
    | Reset(id: nat, interval: int)
    | Cancel(timer: Option<nat>)
    | CancelAll
    | Expire(now: int)

  /** A new timer has an address not in use; the others name existing timers. */
  predicate CanDo(s: State, op: Op) {
    match op
    case Add(id, _, _, _, _) => id !in s.recs
    case Reset(id, _) => id in s.recs
    case Cancel(timer) => timer.Some? ==> timer.value in s.recs
    case CancelAll => true
    case Expire(_) => true
  }

  function Cancels(ids: seq<nat>): (es: seq<Event>)
    ensures |es| == |ids| && forall i :: 0 <= i < |ids| ==> es[i] == Cancelled(ids[i])
  {
    seq(|ids|, i requires 0 <= i < |ids| => Cancelled(ids[i]))
  }

  /** The number of members whose deadline has passed, which come first. */
  ghost predicate ExpiredCount(s: State, now: int, n: nat) {
    n <= |s.timers| && forall k :: 0 <= k < |s.timers| ==>
      s.timers[k] in s.recs && (s.recs[s.timers[k]].next <= now <==> k < n)
  }

  ghost predicate AddNext(s: State, op: Op, s': State)
    requires op.Add?
  {
    && s'.recs == s.recs[op.id := Timer(op.interval, op.loop, op.now + op.interval, op.cb)]
    && (forall x :: x in s'.timers <==> x in s.timers || x == op.id)
    && s'.refreshes == s.refreshes + (if [op.id] <= s'.timers then 1 else 0) && s'.log == s.log
  }

  /** The deadline stays, even of a timer that had left the set. */
  ghost predicate ResetNext(s: State, id: nat, interval: int, s': State)
    requires id in s.recs
  {
    var changed := s.recs[id].interval != interval;
    && s'.recs == s.recs[id := s.recs[id].(interval := interval)]
    && (forall x :: x in s'.timers <==> x in s.timers || (x == id && changed))
    && s'.refreshes == s.refreshes + (if changed && [id] <= s'.timers then 1 else 0) && s'.log == s.log
  }

  ghost predicate CancelNext(s: State, id: nat, s': State)
    requires id in s.recs
  {
    if id !in s.timers then s' == s
    else
      && s'.recs == s.recs[id := s.recs[id].(cb := None)]
      && (forall x :: x in s'.timers <==> x in s.timers && x != id)
      && s'.refreshes == s.refreshes + (if s.timers[0] == id then 1 else 0) && s'.log == s.log + [Cancelled(id)]
  }

  ghost predicate CancelAllNext(s: State, s': State) {
    && s'.recs.Keys == s.recs.Keys && s'.timers == []
    && (forall x :: x in s.recs ==> s'.recs[x] == if x in s.timers then s.recs[x].(cb := None) else s.recs[x])
    && s'.refreshes == s.refreshes + 1 && s'.log == s.log + Cancels(s.timers)
  }

  /** Exactly the members with a deadline up to `now` are dealt with, in order. */
  ghost predicate ExpireNext(s: State, now: int, s': State) {
    && s'.recs.Keys == s.recs.Keys && s'.refreshes == s.refreshes
    && (forall x :: x in s.timers ==> x in s.recs)
    && (forall x :: x in s'.timers <==> x in s.timers && (s.recs[x].next <= now ==> s.recs[x].loop))
    && (forall x :: x in s.recs ==>
          s'.recs[x] == if x in s.timers && s.recs[x].next <= now then AfterExpiry(s.recs[x], now) else s.recs[x])
    && exists n: nat :: ExpiredCount(s, now, n) && s'.log == s.log + FiredOf(s.recs, s.timers[..n], now)
  }

  /** What an operation does, as a relation that the methods below are proved to meet. */
  ghost predicate Next(s: State, op: Op, s': State)
    requires CanDo(s, op)
  {
    && Sorted(s'.recs, s'.timers)
    && match op
       case Add(_, _, _, _, _) => AddNext(s, op, s')
       case Reset(id, interval) => ResetNext(s, id, interval, s')
       case Cancel(timer) => if timer.None? then s' == s else CancelNext(s, timer.value, s')
       case CancelAll => CancelAllNext(s, s')
       case Expire(now) => ExpireNext(s, now, s')
  }

  class TimerManager {
    /** The timer objects, by address. */
    var recs: map<nat, Timer>
    /** `m_timers` in the order of the comparator. */
    var timers: seq<nat>
    /** Number of calls of `on_timer_refresh`. */
    var refreshes: nat
    ghost var log: seq<Event>

    ghost predicate Valid()
      reads this
    {
      Sorted(recs, timers)
    }

    ghost function Abs(): State
      reads this
    {
      State(recs, timers, refreshes, log)
    }

    constructor ()
      ensures Valid() && Abs() == EMPTY
    {
      recs, timers, refreshes, log := map[], [], 0, [];
    }

    /** `std::set::find`: only the comparator is consulted. */
    method Find(id: nat) returns (p: nat, found: bool)
      requires Sorted(recs, timers) && id in recs
      ensures LowerBound(recs, timers, id, p)
      ensures found <==> id in timers
      ensures found ==> p < |timers| && timers[p] == id
    {
      p := 0;
      while p < |timers| && Less(recs, timers[p], id)
        invariant 0 <= p <= |timers|
        invariant forall k :: 0 <= k < p ==> Less(recs, timers[k], id)
      {
        p := p + 1;
      }
      FoundIffMember(recs, timers, id, p);
      found := p < |timers| && !Less(recs, id, timers[p]);
    }

    /** `std::set::insert` of a timer that is not a member; tells whether it is now
        the first. */
    method Insert(id: nat) returns (first: bool)
      requires Sorted(recs, timers) && id in recs && id !in timers
      modifies this`timers
      ensures Sorted(recs, timers) && (forall x :: x in timers <==> x in old(timers) || x == id)
      ensures timers != [] && (first <==> timers[0] == id)
      ensures !first ==> old(timers) != [] && timers[0] == old(timers)[0] && Less(recs, timers[0], id)
    {
      var p, found := Find(id);
      InsertSorted(recs, timers, id, p);
      timers := timers[..p] + [id] + timers[p..];
      first := p == 0;
      assert timers[p] == id;
    }

    method Erase(id: nat)
      requires Sorted(recs, timers) && id in recs && id in timers
      modifies this`timers
      ensures Sorted(recs, timers) && (forall x :: x in timers <==> x in old(timers) && x != id)
      ensures timers != [] && old(timers)[0] != id ==> timers[0] == old(timers)[0]
    {
      var p, found := Find(id);
      EraseSorted(recs, timers, p);
      timers := timers[..p] + timers[p + 1..];
    }

    /** `add_timer`, at an address not in use. */
    method AddTimer(id: nat, now: int, interval: int, cb: Option<nat>, loop: bool)
      requires Valid() && id !in recs
      modifies this
      ensures Valid() && Next(old(Abs()), Add(id, now, interval, cb, loop), Abs())
      ensures recs == old(recs)[id := Timer(interval, loop, now + interval, cb)] && log == old(log)
      ensures refreshes == old(refreshes) + (if [id] <= timers then 1 else 0)
    {
      var t := Timer(interval, loop, now + interval, cb);
      UpdateOutside(recs, timers, id, t);
      recs := recs[id := t];
      var first := Insert(id);
      if first {
        refreshes := refreshes + 1;
      }
    }

    /** `is_valid_timer` is plain membership. */
    method IsValidTimer(id: nat) returns (r: bool)
      requires Valid() && id in recs
      ensures r <==> id in timers
    {
      var _, found := Find(id);
      r := found;
    }

    /** `reset_timer`: stores the interval and makes the timer a member.  The deadline
        stays what it was, even for a timer that had left the set. */
    method ResetTimer(id: nat, interval: int)
      requires Valid() && id in recs
      modifies this
      ensures Valid() && Next(old(Abs()), Reset(id, interval), Abs())
      ensures recs == old(recs)[id := old(recs)[id].(interval := interval)] && log == old(log)
      ensures forall x :: x in timers <==> x in old(timers) || (x == id && old(recs)[id].interval != interval)
      ensures refreshes == old(refreshes) + (if old(recs)[id].interval != interval && [id] <= timers then 1 else 0)
    {
      if recs[id].interval == interval {
        assert recs == recs[id := recs[id].(interval := interval)];
        return;
      }
      IntervalKeepsOrder(recs, timers, id, interval);
      recs := recs[id := recs[id].(interval := interval)];
      var _, found := Find(id);
      if found {
        Erase(id);
      }
      var first := Insert(id);
      if first {
        refreshes := refreshes + 1;
      }
    }

    /** `cancel_timer`: succeeds exactly on a member, which leaves the set and loses
        its callback. */
    method CancelTimer(timer: Option<nat>) returns (r: bool)
      requires Valid() && (timer.Some? ==> timer.value in recs)
      modifies this
      ensures Valid() && Next(old(Abs()), Cancel(timer), Abs())
      ensures r <==> timer.Some? && timer.value in old(timers)
      ensures r ==> recs == old(recs)[timer.value := old(recs)[timer.value].(cb := None)]
      ensures r ==> forall x :: x in timers <==> x in old(timers) && x != timer.value
      ensures refreshes == old(refreshes) + (if r && old(timers)[0] == timer.value then 1 else 0)
    {
      if timer.None? {
        return false;
      }
      var p, found := Find(timer.value);
      if !found {
        return false;
      }
      var needRefresh := p == 0;
      Erase(timer.value);
      Drop(timer.value);
      if needRefresh {
        refreshes := refreshes + 1;
      }
      return true;
    }

    /** Null the callback of a timer that has left the set. */
    method Drop(id: nat)
      requires Valid() && id in recs && id !in timers
      modifies this`recs, this`log
      ensures Valid() && log == old(log) + [Cancelled(id)]
      ensures recs == old(recs)[id := old(recs)[id].(cb := None)]
    {
      UpdateOutside(recs, timers, id, recs[id].(cb := None));
      recs := recs[id := recs[id].(cb := None)];
      log := log + [Cancelled(id)];
    }

    /** `cancel_all_timer`: every member loses its callback and nothing is left. */
    method CancelAllTimer()
      requires Valid()
      modifies this
      ensures Valid() && Next(old(Abs()), CancelAll, Abs())
      ensures timers == [] && refreshes == old(refreshes) + 1 && recs.Keys == old(recs).Keys
      ensures forall x :: x in recs ==> recs[x] == if x in old(timers) then old(recs)[x].(cb := None) else old(recs)[x]
    {
      hide Sorted, Silenced, Cancels;
      ghost var recs0, timers0, n := recs, timers, 0;
      SilencedNone(recs, timers);
      while timers != []
        invariant Valid() && refreshes == old(refreshes)
        invariant n <= |timers0| && timers == timers0[n..] && log == old(log) + Cancels(timers0[..n])
        invariant Silenced(recs0, timers0[..n], recs)
        decreases |timers|
      {
        var id := timers[0];
        FirstLeaves(recs, timers);
        timers := timers[1..];
        ghost var recs1 := recs;
        Drop(id);
        SilencedNext(recs0, timers0, n, recs1, recs);
        n := n + 1;
      }
      assert timers0[..n] == timers0;
      refreshes := refreshes + 1;
      SortedNone(recs);
      SilencedMeans(recs0, timers0, recs);
    }

    /** `next_timer_left_time`: -1 with no timer, 0 when the earliest deadline has
        passed, otherwise the time left to it. */
    method NextTimerLeftTime(now: int) returns (left: int)
      requires Valid()
      ensures timers == [] ==> left == -1
      ensures timers != [] ==> left >= 0 && (left == 0 <==> exists x :: x in timers && recs[x].next <= now)
      ensures timers != [] && left > 0 ==> (forall x :: x in timers ==> recs[x].next >= now + left)
                                           && exists x :: x in timers && recs[x].next == now + left
    {
      if timers == [] {
        return -1;
      }
      forall x | x in timers
        ensures recs[x].next >= recs[timers[0]].next
      {
        if x != timers[0] {
          FirstIsLeast(recs, timers, x);
        }
      }
      assert timers[0] in timers;
      if now >= recs[timers[0]].next {
        return 0;
      }
      left := recs[timers[0]].next - now;
    }

    /** One round of the second loop of `all_expired_cbs`. */
    method ExpireOne(id: nat, now: int) returns (cb: Option<nat>)
      requires Valid() && id in timers && recs[id].next <= now
      modifies this`recs, this`timers, this`log
      ensures Valid() && cb == old(recs)[id].cb
      ensures recs == old(recs)[id := AfterExpiry(old(recs)[id], now)]
      ensures forall x :: x in timers <==> x in old(timers) && (x == id ==> old(recs)[id].loop)
      ensures log == old(log) + (if cb.None? then [] else [Fired(id, cb.value, old(recs)[id].next, now)])
    {
      var t := recs[id];
      cb := t.cb;
      Erase(id);
      ghost var t' := AfterExpiry(t, now);
      UpdateOutside(recs, timers, id, t');
      if t.loop {
        recs := recs[id := t.(next := t.interval + now)];
        var first := Insert(id);
      } else {
        recs := recs[id := t.(cb := None)];
      }
      if cb.Some? {
        log := log + [Fired(id, cb.value, t.next, now)];
      }
    }

    /** The first loop of `all_expired_cbs`: the members whose deadline has passed,
        which are a prefix. */
    method Expired(now: int) returns (n: nat)
      requires Valid()
      ensures n <= |timers|
      ensures forall k :: 0 <= k < |timers| ==> (recs[timers[k]].next <= now <==> k < n)
    {
      n := 0;
      while n < |timers| && recs[timers[n]].next <= now
        invariant 0 <= n <= |timers|
        invariant forall k :: 0 <= k < n ==> recs[timers[k]].next <= now
      {
        n := n + 1;
      }
      forall k | n < k < |timers|
        ensures recs[timers[k]].next > now
      {
        assert Less(recs, timers[n], timers[k]);
      }
    }

    /** The second loop of `all_expired_cbs`, over distinct expired members. */
    method ExpireEach(ids: seq<nat>, now: int) returns (cbs: seq<Option<nat>>)
      requires Valid() && (forall i, j :: 0 <= i < j < |ids| ==> ids[i] != ids[j])
      requires forall i :: 0 <= i < |ids| ==> ids[i] in timers && ids[i] in recs && recs[ids[i]].next <= now
      modifies this`recs, this`timers, this`log
      ensures Valid() && recs.Keys == old(recs).Keys && |cbs| == |ids|
      ensures forall k :: 0 <= k < |ids| ==> cbs[k] == old(recs)[ids[k]].cb
      ensures forall x :: x in recs ==> recs[x] == if x in ids then AfterExpiry(old(recs)[x], now) else old(recs)[x]
      ensures forall x :: x in timers <==> x in old(timers) && (x in ids ==> old(recs)[x].loop)
      ensures log == old(log) + FiredOf(old(recs), ids, now)
    {
      hide Sorted, Progress, AfterExpiry, FiredOf;
      ghost var recs0, timers0 := recs, timers;
      ProgressStart(recs, timers, now);
      cbs := [];
      while |cbs| < |ids|
        invariant |cbs| <= |ids| && Valid() && (forall k :: 0 <= k < |cbs| ==> cbs[k] == recs0[ids[k]].cb)
        invariant Progress(recs0, timers0, ids[..|cbs|], recs, timers, now)
        invariant log == old(log) + FiredOf(recs0, ids[..|cbs|], now)
      {
        var i := |cbs|;
        FiredNext(recs0, ids, now, i);
        ghost var recs1, timers1 := recs, timers;
        ProgressAt(recs0, timers0, ids, i, recs, timers, now);
        var cb := ExpireOne(ids[i], now);
        ProgressNext(recs0, timers0, ids, i, recs1, timers1, recs, timers, now);
        cbs := cbs + [cb];
      }
      assert ids[..|cbs|] == ids;
      ProgressMeans(recs0, timers0, ids, recs, timers, now);
    }

    /** `all_expired_cbs`: hands out, in deadline order and once each, the callbacks of
        exactly the members whose deadline has passed; looping ones stay members
        with a new deadline, the others leave. */
    method AllExpiredCbs(now: int) returns (cbs: seq<Option<nat>>)
      requires Valid()
      modifies this`recs, this`timers, this`log
      ensures Valid() && recs.Keys == old(recs).Keys
      ensures |cbs| <= |old(timers)| && forall k :: 0 <= k < |cbs| ==> cbs[k] == old(recs)[old(timers)[k]].cb
      ensures forall k :: 0 <= k < |old(timers)| ==> (k < |cbs| <==> old(recs)[old(timers)[k]].next <= now)
      ensures forall x :: x in timers <==> x in old(timers) && (old(recs)[x].next <= now ==> old(recs)[x].loop)
      ensures forall x :: x in recs ==>
                recs[x] == if x in old(timers) && old(recs)[x].next <= now then AfterExpiry(old(recs)[x], now)
                  else old(recs)[x]
      ensures log == old(log) + FiredOf(old(recs), old(timers)[..|cbs|], now)
      ensures Next(old(Abs()), Expire(now), Abs())
      ensures forall x :: x in old(timers) && old(recs)[x].next <= now && old(recs)[x].loop ==>
                && recs[x].cb == old(recs)[x].cb && recs[x].loop && recs[x].interval == old(recs)[x].interval
                && recs[x].next == old(recs)[x].interval + now
      ensures forall x :: x in old(timers) && old(recs)[x].next <= now && !old(recs)[x].loop ==>
                && recs[x].cb == None && !recs[x].loop && recs[x].interval == old(recs)[x].interval
                && recs[x].next == old(recs)[x].next
    {
      hide FiredOf;
      var n := Expired(now);
      PrefixMembers(recs, timers, n, now);
      assert ExpiredCount(Abs(), now, n);
      cbs := ExpireEach(timers[..n], now);
    }
  }

  /** The members whose deadline has passed are those in the prefix. */
  lemma PrefixMembers(recs: map<nat, Timer>, ids: seq<nat>, n: nat, now: int)
    requires Sorted(recs, ids) && n <= |ids|
    requires forall k :: 0 <= k < |ids| ==> (recs[ids[k]].next <= now <==> k < n)
    ensures forall x :: x in ids ==> (x in ids[..n] <==> recs[x].next <= now)
    ensures forall x :: x in ids[..n] ==> x in ids
  {
    forall x | x in ids
      ensures x in ids[..n] <==> recs[x].next <= now
    {
      var k :| 0 <= k < |ids| && ids[k] == x;
      assert k < n ==> ids[..n][k] == x;
    }
  }

  lemma FirstIsLeast(recs: map<nat, Timer>, ids: seq<nat>, x: nat)
    requires Sorted(recs, ids) && x in ids && x != ids[0]
    ensures Less(recs, ids[0], x)
  {
    var k :| 0 <= k < |ids| && ids[k] == x;
  }

  lemma IntervalKeepsOrder(recs: map<nat, Timer>, ids: seq<nat>, id: nat, interval: int)
    requires Sorted(recs, ids) && id in recs
    ensures Sorted(recs[id := recs[id].(interval := interval)], ids)
  {
  }

  lemma EarliestIsLeast(recs: map<nat, Timer>, ids: seq<nat>, x: nat)
    requires Sorted(recs, ids) && x in ids
    ensures recs[ids[0]].next <= recs[x].next
  {
    if x != ids[0] {
      FirstIsLeast(recs, ids, x);
    }
  }

  /** `all_expired_cbs` does not call `on_timer_refresh`.  It lowers the earliest
      deadline if and only if some expired looping timer goes back before it. */
  lemma ExpiryLowers(recs: map<nat, Timer>, ids: seq<nat>, recs': map<nat, Timer>, ids': seq<nat>, now: int)
    requires Sorted(recs, ids) && Sorted(recs', ids') && recs'.Keys == recs.Keys
    requires forall x :: x in ids' <==> x in ids && (recs[x].next <= now ==> recs[x].loop)
    requires forall x :: x in ids ==> recs'[x] == if recs[x].next <= now then AfterExpiry(recs[x], now) else recs[x]
    ensures Lowered(Earliest(recs, ids), Earliest(recs', ids')) <==>
            exists x :: x in ids && GoesBack(recs[x], recs[ids[0]].next, now)
  {
    if ids' != [] {
      assert ids'[0] in ids';
      EarliestIsLeast(recs, ids, ids'[0]);
      if x :| x in ids && GoesBack(recs[x], recs[ids[0]].next, now) {
        EarliestIsLeast(recs', ids', x);
      }
    }
  }

  /** With non-negative intervals it never does. */
  lemma NonNegativeNeverGoesBack(recs: map<nat, Timer>, ids: seq<nat>, now: int)
    requires Sorted(recs, ids) && forall x :: x in ids ==> recs[x].interval >= 0
    ensures !exists x :: x in ids && GoesBack(recs[x], recs[ids[0]].next, now)
  {
    forall x | x in ids
      ensures !GoesBack(recs[x], recs[ids[0]].next, now)
    {
      EarliestIsLeast(recs, ids, x);
    }
  }

  /** The timers of `ids` have lost their callbacks, the others are as before. */
  ghost predicate Silenced(recs0: map<nat, Timer>, ids: seq<nat>, recs: map<nat, Timer>) {
    && recs.Keys == recs0.Keys
    && forall x :: x in recs0 ==> recs[x] == if x in ids then recs0[x].(cb := None) else recs0[x]
  }

  lemma FirstLeaves(recs: map<nat, Timer>, ids: seq<nat>)
    requires Sorted(recs, ids) && ids != []
    ensures Sorted(recs, ids[1..]) && ids[0] !in ids[1..] && ids[0] in recs
  {
    assert ids[..0] + ids[1..] == ids[1..];
    EraseSorted(recs, ids, 0);
  }

  lemma SilencedNone(recs: map<nat, Timer>, ids: seq<nat>)
    ensures Silenced(recs, ids[..0], recs) && Cancels(ids[..0]) == []
  {
  }

  lemma SilencedNext(recs0: map<nat, Timer>, ids: seq<nat>, n: nat, recs: map<nat, Timer>, recs': map<nat, Timer>)
    requires n < |ids| && Silenced(recs0, ids[..n], recs) && ids[n] in recs
             && recs' == recs[ids[n] := recs[ids[n]].(cb := None)]
    ensures Silenced(recs0, ids[..n + 1], recs') && Cancels(ids[..n + 1]) == Cancels(ids[..n]) + [Cancelled(ids[n])]
  {
    assert ids[..n + 1] == ids[..n] + [ids[n]];
  }

  lemma SilencedMeans(recs0: map<nat, Timer>, ids: seq<nat>, recs: map<nat, Timer>)
    requires Silenced(recs0, ids, recs)
    ensures recs.Keys == recs0.Keys
    ensures forall x :: x in recs0 ==> recs[x] == if x in ids then recs0[x].(cb := None) else recs0[x]
  {
  }

  lemma SortedNone(recs: map<nat, Timer>)
    ensures Sorted(recs, [])
  {
  }

  // ------------------------------------------------------------------ whole runs

  /** The states between which the operations lead, from the constructor. */
  ghost predicate Run(ss: seq<State>, ops: seq<Op>) {
    && |ss| == |ops| + 1 && ss[0] == EMPTY
    && forall i :: 0 <= i < |ops| ==> CanDo(ss[i], ops[i]) && Next(ss[i], ops[i], ss[i + 1])
  }

  lemma {:induction false} RunSorted(ss: seq<State>, ops: seq<Op>, n: nat)
    requires Run(ss, ops) && n < |ss|
    ensures Sorted(ss[n].recs, ss[n].timers)
  {
    if n > 0 {
      assert Next(ss[n - 1], ops[n - 1], ss[n]);
    }
  }

  lemma {:induction false} FiredIds(recs: map<nat, Timer>, ids: seq<nat>, now: int, n: nat)
    requires (forall k :: 0 <= k < |ids| ==> ids[k] in recs) && n < |FiredOf(recs, ids, now)|
    ensures FiredOf(recs, ids, now)[n].Fired? && FiredOf(recs, ids, now)[n].id in ids
    decreases |ids|
  {
    var init := ids[..|ids| - 1];
    if n < |FiredOf(recs, init, now)| {
      FiredIds(recs, init, now, n);
      assert FiredOf(recs, ids, now)[n].id in init;
    }
  }

  /** Handing out the callbacks of distinct expired timers. */
  lemma {:induction false} HistoryExpire(recs: map<nat, Timer>, recs': map<nat, Timer>, log: seq<Event>,
                                         ids: seq<nat>, now: int)
    requires History(recs, log) && History(recs', log) && (forall i, j :: 0 <= i < j < |ids| ==> ids[i] != ids[j])
    requires forall i :: 0 <= i < |ids| ==>
               ids[i] in recs && ids[i] in recs' && recs[ids[i]].next <= now
                 && recs'[ids[i]] == AfterExpiry(recs[ids[i]], now)
    ensures History(recs', log + FiredOf(recs, ids, now))
    decreases |ids|
  {
    if ids == [] {
      assert log + FiredOf(recs, ids, now) == log;
    } else {
      var init, id := ids[..|ids| - 1], ids[|ids| - 1];
      HistoryExpire(recs, recs', log, init, now);
      var before := log + FiredOf(recs, init, now);
      if recs[id].cb.None? {
        assert log + FiredOf(recs, ids, now) == before;
      } else {
        var e := Fired(id, recs[id].cb.value, recs[id].next, now);
        assert recs'[id] == AfterExpiry(recs[id], now);
        NotBefore(recs, log, init, id, now, before);
        HistoryAdd(recs', before, e);
        assert log + FiredOf(recs, ids, now) == before + [e];
      }
    }
  }

  lemma NotBefore(recs: map<nat, Timer>, log: seq<Event>, init: seq<nat>, id: nat, now: int, before: seq<Event>)
    requires History(recs, log) && id in recs && recs[id].cb.Some? && id !in init
    requires (forall k :: 0 <= k < |init| ==> init[k] in recs) && before == log + FiredOf(recs, init, now)
    ensures forall n :: 0 <= n < |before| && before[n].id == id ==> before[n].Fired? && recs[id].loop
  {
    forall n | 0 <= n < |before| && before[n].id == id
      ensures before[n].Fired? && recs[id].loop
    {
      if n < |log| {
        NotYetFired(recs, log, id, n);
      } else {
        FiredIds(recs, init, now, n - |log|);
      }
    }
  }

  lemma {:induction false} HistoryCancel(recs: map<nat, Timer>, log: seq<Event>, ids: seq<nat>)
    requires History(recs, log) && forall k :: 0 <= k < |ids| ==> ids[k] in recs && recs[ids[k]].cb.None?
    ensures History(recs, log + Cancels(ids))
    decreases |ids|
  {
    if ids == [] {
      assert log + Cancels(ids) == log;
    } else {
      var init := ids[..|ids| - 1];
      HistoryCancel(recs, log, init);
      var id := ids[|ids| - 1];
      assert id in recs && recs[id].cb.None?;
      HistoryAdd(recs, log + Cancels(init), Cancelled(id));
      assert log + Cancels(ids) == (log + Cancels(init)) + [Cancelled(ids[|ids| - 1])];
    }
  }

  lemma {:induction false} RunHistory(ss: seq<State>, ops: seq<Op>, n: nat)
    requires Run(ss, ops) && n < |ss|
    ensures History(ss[n].recs, ss[n].log)
  {
    if n > 0 {
      RunHistory(ss, ops, n - 1);
      RunSorted(ss, ops, n - 1);
      HistoryStep(ss[n - 1], ops[n - 1], ss[n]);
    }
  }

  /** Every operation keeps the history right. */
  lemma HistoryStep(s: State, op: Op, s': State)
    requires Sorted(s.recs, s.timers) && History(s.recs, s.log) && CanDo(s, op) && Next(s, op, s')
    ensures History(s'.recs, s'.log)
  {
    hide History;
    HistoryUpdate(s.recs, s'.recs, s.log);
    match op
    case Add(_, _, _, _, _) =>
    case Reset(_, _) =>
    case Cancel(timer) =>
      if timer.Some? && timer.value in s.timers {
        HistoryCancel(s'.recs, s.log, [timer.value]);
        assert Cancels([timer.value]) == [Cancelled(timer.value)];
      }
    case CancelAll => HistoryCancel(s'.recs, s.log, s.timers);
    case Expire(now) =>
      var n: nat :| ExpiredCount(s, now, n) && s'.log == s.log + FiredOf(s.recs, s.timers[..n], now);
      SortedDistinct(s.recs, s.timers);
      assert forall i :: 0 <= i < n ==> s.timers[..n][i] == s.timers[i] && s.timers[i] in s.timers;
      HistoryExpire(s.recs, s'.recs, s.log, s.timers[..n], now);
  }

  lemma SortedDistinct(recs: map<nat, Timer>, ids: seq<nat>)
    requires Sorted(recs, ids)
    ensures forall i, j :: 0 <= i < j < |ids| ==> ids[i] != ids[j]
  {
    forall i, j | 0 <= i < j < |ids|
      ensures ids[i] != ids[j]
    {
      assert Less(recs, ids[i], ids[j]);
    }
  }

  /** An operation lowers the earliest deadline without signalling a refresh if and only
      if it is an expiry in which a looping timer goes back before that deadline. */
  lemma UnsignalledIff(s: State, op: Op, s': State)
    requires Sorted(s.recs, s.timers) && CanDo(s, op) && Next(s, op, s')
    ensures Lowered(Earliest(s.recs, s.timers), Earliest(s'.recs, s'.timers)) && s'.refreshes == s.refreshes <==>
            op.Expire? && exists x :: x in s.timers && GoesBack(s.recs[x], s.recs[s.timers[0]].next, op.now)
  {
    if op.Expire? {
      ExpiryLowers(s.recs, s.timers, s'.recs, s'.timers, op.now);
    } else if s'.timers != [] {
      KeptFirst(s, op, s');
    }
  }

  lemma KeptFirst(s: State, op: Op, s': State)
    requires Sorted(s.recs, s.timers) && CanDo(s, op) && Next(s, op, s') && !op.Expire? && s'.timers != []
    ensures Lowered(Earliest(s.recs, s.timers), Earliest(s'.recs, s'.timers)) ==> s'.refreshes > s.refreshes
  {
    var first := s'.timers[0];
    assert first in s'.timers;
    if first in s.timers {
      EarliestIsLeast(s.recs, s.timers, first);
    }
  }

  predicate NonNegative(ops: seq<Op>) {
    forall i :: 0 <= i < |ops| ==> (ops[i].Add? || ops[i].Reset?) ==> ops[i].interval >= 0
  }

  lemma {:induction false} RunIntervals(ss: seq<State>, ops: seq<Op>, n: nat)
    requires Run(ss, ops) && n < |ss| && NonNegative(ops)
    ensures forall x :: x in ss[n].recs ==> ss[n].recs[x].interval >= 0
  {
    if n > 0 {
      RunIntervals(ss, ops, n - 1);
      assert Next(ss[n - 1], ops[n - 1], ss[n]);
      assert (ops[n - 1].Add? || ops[n - 1].Reset?) ==> ops[n - 1].interval >= 0;
    }
  }

  /** Over every run of operations: no callback is handed out before its timer's deadline
      by the clock reading it was compared with; a one-shot's at most once and at the
      deadline it was given; none after a successful cancellation. */
  lemma RunGuarantees(ss: seq<State>, ops: seq<Op>, n: nat)
    requires Run(ss, ops) && n < |ss|
    ensures var recs, log := ss[n].recs, ss[n].log;
            && (forall j :: 0 <= j < |log| && log[j].Fired? ==>
                  log[j].deadline <= log[j].now && log[j].id in recs
                    && (!recs[log[j].id].loop ==> log[j].deadline == recs[log[j].id].next))
            && (forall i, j :: 0 <= i < j < |log| && log[j].Fired? && log[i].id == log[j].id ==>
                  log[i].Fired? && log[j].id in recs && recs[log[j].id].loop)
  {
    RunHistory(ss, ops, n);
    assert forall j :: 0 <= j < |ss[n].log| ==> EventOk(ss[n].recs, ss[n].log[j]);
  }

  /** Over every run with non-negative intervals: whatever lowers the earliest deadline
      signals a refresh. */
  lemma RunRefreshes(ss: seq<State>, ops: seq<Op>, n: nat)
    requires Run(ss, ops) && n < |ops| && NonNegative(ops)
    ensures Lowered(Earliest(ss[n].recs, ss[n].timers), Earliest(ss[n + 1].recs, ss[n + 1].timers)) ==>
            ss[n + 1].refreshes > ss[n].refreshes
  {
    RunSorted(ss, ops, n);
    RunIntervals(ss, ops, n);
    if ops[n].Expire? {
      NonNegativeNeverGoesBack(ss[n].recs, ss[n].timers, ops[n].now);
    }
    UnsignalledIff(ss[n], ops[n], ss[n + 1]);
    assert ss[n + 1].refreshes >= ss[n].refreshes;
  }

  // --------------------------------------------------------- what must be handed out

  /** Between the operations `j` and `n` timer `id` is not cancelled. */
  ghost predicate Uncancelled(ops: seq<Op>, j: nat, n: nat, id: nat) {
    forall m :: j < m < n && m < |ops| ==> ops[m] != Cancel(Some(id)) && ops[m] != CancelAll
  }

  lemma {:induction false} FiredHas(recs: map<nat, Timer>, ids: seq<nat>, now: int, k: nat, c: nat)
    requires (forall i :: 0 <= i < |ids| ==> ids[i] in recs) && k < |ids| && recs[ids[k]].cb == Some(c)
    ensures Fired(ids[k], c, recs[ids[k]].next, now) in FiredOf(recs, ids, now)
    decreases |ids|
  {
    if k < |ids| - 1 {
      var init := ids[..|ids| - 1];
      assert init[k] == ids[k];
      FiredHas(recs, init, now, k, c);
    }
  }

  /** A member with a callback whose deadline has passed is handed out. */
  lemma DueIsFired(s: State, now: int, s': State, id: nat, c: nat)
    requires Sorted(s.recs, s.timers) && ExpireNext(s, now, s')
    requires id in s.timers && s.recs[id].next <= now && s.recs[id].cb == Some(c)
    ensures s.log <= s'.log && Fired(id, c, s.recs[id].next, now) in s'.log[|s.log|..]
  {
    hide FiredOf, AfterExpiry;
    var n: nat :| ExpiredCount(s, now, n) && s'.log == s.log + FiredOf(s.recs, s.timers[..n], now);
    var k :| 0 <= k < |s.timers| && s.timers[k] == id;
    FiredHas(s.recs, s.timers[..n], now, k, c);
    assert s'.log[|s.log|..] == FiredOf(s.recs, s.timers[..n], now);
  }

  /** A looping timer stays a member with its callback. */
  lemma LoopStep(s: State, op: Op, s': State, id: nat)
    requires Sorted(s.recs, s.timers) && CanDo(s, op) && Next(s, op, s') && op != Cancel(Some(id)) && op != CancelAll
    requires id in s.timers && s.recs[id].loop
    ensures id in s'.timers && id in s'.recs && s'.recs[id].loop && s'.recs[id].cb == s.recs[id].cb
  {
    hide FiredOf;
  }

  /** A one-shot that has not been handed out stays a member with its callback and its
      deadline, unless that has passed. */
  lemma OneShotStep(s: State, op: Op, s': State, id: nat)
    requires Sorted(s.recs, s.timers) && CanDo(s, op) && Next(s, op, s') && op != Cancel(Some(id)) && op != CancelAll
    requires id in s.timers && !s.recs[id].loop && !(op.Expire? && s.recs[id].next <= op.now)
    ensures id in s'.timers && id in s'.recs && !s'.recs[id].loop && s'.recs[id].cb == s.recs[id].cb
    ensures s'.recs[id].next == s.recs[id].next
  {
    hide FiredOf;
  }

  lemma LogGrows(s: State, op: Op, s': State)
    requires CanDo(s, op) && Next(s, op, s')
    ensures s.log <= s'.log
  {
    hide FiredOf, AfterExpiry;
  }

  lemma AddedState(ss: seq<State>, ops: seq<Op>, j: nat)
    requires Run(ss, ops) && j < |ops| && ops[j].Add?
    ensures var s, op := ss[j + 1], ops[j];
            && op.id in s.timers && op.id in s.recs
            && s.recs[op.id] == Timer(op.interval, op.loop, op.now + op.interval, op.cb)
  {
    assert Next(ss[j], ops[j], ss[j + 1]);
  }

  /** Over every run: a looping timer that was added with a callback and not cancelled since
      is a member with that callback. */
  lemma {:induction false} LoopingStays(ss: seq<State>, ops: seq<Op>, j: nat, n: nat)
    requires Run(ss, ops) && j < n < |ss| && ops[j].Add? && ops[j].loop && Uncancelled(ops, j, n, ops[j].id)
    ensures var s, id := ss[n], ops[j].id;
            id in s.timers && id in s.recs && s.recs[id].loop && s.recs[id].cb == ops[j].cb
  {
    hide Next;
    if n == j + 1 {
      AddedState(ss, ops, j);
    } else {
      LoopingStays(ss, ops, j, n - 1);
      RunSorted(ss, ops, n - 1);
      LoopStep(ss[n - 1], ops[n - 1], ss[n], ops[j].id);
    }
  }

  /** So every expiry at or after its deadline hands its callback out. */
  lemma LoopingFires(ss: seq<State>, ops: seq<Op>, j: nat, n: nat, c: nat)
    requires Run(ss, ops) && j < n < |ops| && ops[j].Add? && ops[j].loop && ops[j].cb == Some(c)
    requires Uncancelled(ops, j, n, ops[j].id) && ops[n].Expire?
    ensures var s, id := ss[n], ops[j].id;
            id in s.recs && (s.recs[id].next <= ops[n].now ==>
              s.log <= ss[n + 1].log && Fired(id, c, s.recs[id].next, ops[n].now) in ss[n + 1].log[|s.log|..])
  {
    hide FiredOf, AfterExpiry;
    LoopingStays(ss, ops, j, n);
    RunSorted(ss, ops, n);
    if ss[n].recs[ops[j].id].next <= ops[n].now {
      assert Next(ss[n], ops[n], ss[n + 1]);
      DueIsFired(ss[n], ops[n].now, ss[n + 1], ops[j].id, c);
    }
  }

  lemma AllowedStep(s: State, op: Op, s': State, id: nat)
    requires CanDo(s, op) && Next(s, op, s') && id in s.recs
    ensures id in s'.recs && Allowed(s.recs[id], s'.recs[id])
  {
    hide FiredOf;
  }

  /** Over every run: a timer keeps its kind, and a one-shot the deadline it was given when
      it was added, whatever is done to it; with `RunGuarantees`, it is not handed out
      before its interval has passed. */
  lemma {:induction false} DeadlineStays(ss: seq<State>, ops: seq<Op>, j: nat, n: nat)
    requires Run(ss, ops) && j < n < |ss| && ops[j].Add?
    ensures var s, op := ss[n], ops[j];
            && op.id in s.recs && s.recs[op.id].loop == op.loop
            && (!op.loop ==> s.recs[op.id].next == op.now + op.interval)
  {
    hide Next;
    if n == j + 1 {
      AddedState(ss, ops, j);
    } else {
      DeadlineStays(ss, ops, j, n - 1);
      AllowedStep(ss[n - 1], ops[n - 1], ss[n], ops[j].id);
    }
  }

  /** Callback `c` of timer `id` was handed out for the deadline `d`. */
  ghost predicate HandedOut(log: seq<Event>, id: nat, c: nat, d: int) {
    exists k :: 0 <= k < |log| && log[k].Fired? && log[k].id == id && log[k].cb == c && log[k].deadline == d
  }

  lemma HandedOutLater(log: seq<Event>, log': seq<Event>, id: nat, c: nat, d: int)
    requires HandedOut(log, id, c, d) && log <= log'
    ensures HandedOut(log', id, c, d)
  {
    var k :| 0 <= k < |log| && log[k].Fired? && log[k].id == id && log[k].cb == c && log[k].deadline == d;
    assert log'[k] == log[k];
  }

  /** Over every run: a one-shot that was added with a callback and not cancelled since has
      been handed out for the deadline it was given, or is still a member, with callback
      and deadline, and no expiry so far has reached that deadline. */
  lemma {:induction false} OneShotFires(ss: seq<State>, ops: seq<Op>, j: nat, n: nat, c: nat)
    requires Run(ss, ops) && j < n < |ss| && ops[j].Add? && !ops[j].loop && ops[j].cb == Some(c)
    requires Uncancelled(ops, j, n, ops[j].id)
    ensures var s, id, d := ss[n], ops[j].id, ops[j].now + ops[j].interval;
            || HandedOut(s.log, id, c, d)
            || (id in s.timers && id in s.recs && !s.recs[id].loop && s.recs[id].cb == Some(c) && s.recs[id].next == d
                && forall m :: j < m < n && ops[m].Expire? ==> ops[m].now < d)
  {
    hide Next, HandedOut;
    var id, d := ops[j].id, ops[j].now + ops[j].interval;
    if n == j + 1 {
      AddedState(ss, ops, j);
    } else {
      OneShotFires(ss, ops, j, n - 1, c);
      RunSorted(ss, ops, n - 1);
      var s, op, s' := ss[n - 1], ops[n - 1], ss[n];
      if HandedOut(s.log, id, c, d) {
        LogGrows(s, op, s');
        HandedOutLater(s.log, s'.log, id, c, d);
      } else if op.Expire? && d <= op.now {
        DueIsLogged(s, op.now, s', id, c);
      } else {
        OneShotStep(s, op, s', id);
      }
    }
  }

  lemma DueIsLogged(s: State, now: int, s': State, id: nat, c: nat)
    requires Sorted(s.recs, s.timers) && Next(s, Expire(now), s')
    requires id in s.timers && s.recs[id].next <= now && s.recs[id].cb == Some(c)
    ensures HandedOut(s'.log, id, c, s.recs[id].next)
  {
    hide FiredOf, AfterExpiry;
    DueIsFired(s, now, s', id, c);
    var e := Fired(id, c, s.recs[id].next, now);
    var k :| 0 <= k < |s'.log[|s.log|..]| && s'.log[|s.log|..][k] == e;
    assert s'.log[|s.log| + k] == e;
  }

  /** With a negative interval it need not: by a clock that stands still, the earliest
      deadline moves from 5 to 2 and no refresh is signalled. */
  method NegativeIntervalGoesBack() returns (m: TimerManager, before: Option<int>, signalled: nat)
    ensures before == Some(5) && Earliest(m.recs, m.timers) == Some(2) && m.refreshes == signalled
  {
    m := new TimerManager();
    m.AddTimer(1, 5, 0, Some(7), true);
    assert 1 in m.recs;
    m.ResetTimer(1, -3);
    assert 1 in m.timers;
    assert m.timers[0] in m.timers;
    before, signalled := Earliest(m.recs, m.timers), m.refreshes;
    var cbs := m.AllExpiredCbs(5);
    assert 1 in m.timers;
    assert m.timers[0] in m.timers;
  }
}
