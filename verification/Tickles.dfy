/** How idle threads learn of tasks: the tickle pipe of `IOManager`, the idle count and
    the places in `Scheduler` that tickle. A comment in src/hook.cc (lines 143-147) relies
    on it: a thread that meets a task pinned elsewhere tickles, so that the right thread
    wakes. The stop flag is not set. One action is one critical section or one atomic
    access; `FollowsProtocol` relates them to the actions of the park/wake protocol. */
module Tickles {
  import opened Wrappers
  import P = ParkWake
  import Q = TaskQueue

  /** Where a thread is: `After` has searched and, if `need`, is about to tickle;
      `Entering` is inside `idle` and not yet counted; `Waiting` is counted and in
      `epoll_wait`; `Awake` is back from it and on its way to the next search. */
  datatype Phase = Loop | After(need: bool, found: bool) | Busy | Entering | Waiting | Awake

  /** The task list, whether the pipe holds a tickle, and how many pushes onto an empty
      list have not tickled yet. */
  datatype State = State(tasks: seq<P.Task>, thr: map<nat, Phase>, pipe: bool, owed: nat)

  datatype Action =
    | Push(task: P.Task) // schedule, up to the end of its critical section
    | PushTickle         // the rest of it
    | Scan(t: nat)       // the critical section of run
    | Tickle(t: nat)     // the tickle after it, and the branch that follows
    | Done(t: nat)       // the task yields or ends
    | Wait(t: nat)       // ++m_idle_cnt, epoll_wait
    | Wake(t: nat)       // epoll_wait returns with something to do, --m_idle_cnt
    | Timeout(t: nat)    // it returns with nothing to do, and the inner loop repeats
    | Drain(t: nat)      // the tickle event is dispatched
    | Leave(t: nat)      // the idle coroutine yields

  predicate At(s: State, t: nat, p: Phase) { t in s.thr && s.thr[t] == p }

  ghost predicate SomeoneWaits(s: State) { exists t :: At(s, t, Waiting) }

  /** The first task thread `t` may run, or the number of tasks. */
  function FirstRunnable(tasks: seq<P.Task>, t: nat): (k: nat)
    ensures k <= |tasks| && (k < |tasks| ==> P.Runnable(tasks[k], t))
    ensures forall i :: 0 <= i < k ==> !P.Runnable(tasks[i], t)
  {
    if tasks == [] || P.Runnable(tasks[0], t) then 0 else 1 + FirstRunnable(tasks[1..], t)
  }

  predicate Enabled(s: State, a: Action) {
    match a
    case Push(_) => true
    case PushTickle => s.owed > 0
    case Scan(t) => At(s, t, Loop)
    case Tickle(t) => t in s.thr && s.thr[t].After?
    case Done(t) => At(s, t, Busy)
    case Wait(t) => At(s, t, Entering)
    case Wake(t) => At(s, t, Waiting)
    case Timeout(t) => At(s, t, Waiting)
    case Drain(t) => At(s, t, Awake)
    case Leave(t) => At(s, t, Awake)
  }

  ghost function ScanTo(s: State, t: nat): State {
    var k := FirstRunnable(s.tasks, t);
    var rest := if k < |s.tasks| then s.tasks[..k] + s.tasks[k + 1..] else s.tasks;
    var need := k > 0 || (rest != [] && SomeoneWaits(s));
    s.(tasks := rest, thr := s.thr[t := After(need, k < |s.tasks|)])
  }

  /** Run the task; or, if a tickle was due, search again; or go idle. */
  function AfterTickle(p: Phase): Phase
    requires p.After?
  {
    if p.found then Busy else if p.need then Loop else Entering
  }

  ghost function Apply(s: State, a: Action): State
    requires Enabled(s, a)
  {
    match a
    case Push(task) => s.(tasks := s.tasks + [task], owed := if s.tasks == [] then s.owed + 1 else s.owed)
    case PushTickle => s.(owed := s.owed - 1, pipe := s.pipe || SomeoneWaits(s))
    case Scan(t) => ScanTo(s, t)
    case Tickle(t) =>
      s.(thr := s.thr[t := AfterTickle(s.thr[t])], pipe := s.pipe || (s.thr[t].need && SomeoneWaits(s)))
    case Done(t) => s.(thr := s.thr[t := Loop])
    case Wait(t) => s.(thr := s.thr[t := Waiting])
    case Wake(t) => s.(thr := s.thr[t := Awake])
    case Timeout(t) => s.(thr := s.thr[t := Entering])
    case Drain(t) => s.(pipe := false)
    case Leave(t) => s.(thr := s.thr[t := Loop])
  }

  // ---------------------------------------------------------------- the property

  predicate Concerned(p: Phase) { p == Loop || p == Awake || (p.After? && p.need) }

  ghost predicate SomeoneConcerned(s: State) { exists t :: t in s.thr && Concerned(s.thr[t]) }

  /** Somebody will see to the queue: a tickle is in the pipe or owed by a push or a
      search, or some thread is on its way to a search. */
  ghost predicate Covered(s: State) { s.pipe || s.owed > 0 || SomeoneConcerned(s) }

  /** Thread `t` waits although task `i` is there for it. */
  predicate Overlooked(s: State, t: nat, i: nat) {
    At(s, t, Waiting) && i < |s.tasks| && P.Runnable(s.tasks[i], t)
  }

  /** No thread waits for events while a task it may run is queued, unless somebody will
      see to it. */
  ghost predicate Prompt(s: State) { (exists t, i: nat :: Overlooked(s, t, i)) ==> Covered(s) }

  /** The two ways to lose a wake-up, when nobody is about to see to the queue: a push
      onto a list that is not empty, of a task for a thread that waits; and a thread that
      begins to wait with a task for it in the list. */
  ghost predicate Gap(s: State, a: Action) {
    && !Covered(s)
    && ((a.Push? && s.tasks != [] && exists t :: At(s, t, Waiting) && P.Runnable(a.task, t))
        || (a.Wait? && exists i :: 0 <= i < |s.tasks| && P.Runnable(s.tasks[i], a.t)))
  }

  lemma StillConcerned(s: State, t: nat)
    requires t in s.thr && Concerned(s.thr[t])
    ensures Covered(s)
  {
  }

  lemma PushStep(s: State, task: P.Task)
    requires Prompt(s)
    ensures Prompt(Apply(s, Push(task))) <==> !Gap(s, Push(task))
  {
    var s' := Apply(s, Push(task));
    assert s'.tasks[|s.tasks|] == task;
    if s.tasks != [] {
      assert Covered(s') <==> Covered(s) by { assert s'.thr == s.thr; }
      if Gap(s, Push(task)) {
        var t :| At(s, t, Waiting) && P.Runnable(task, t);
        assert Overlooked(s', t, |s.tasks|);
      } else if !Prompt(s') {
        var t, i: nat :| Overlooked(s', t, i);
        assert i < |s.tasks| ==> Overlooked(s, t, i);
        assert At(s, t, Waiting) && P.Runnable(task, t);
      }
    }
  }

  lemma WaitStep(s: State, t: nat)
    requires Prompt(s) && Enabled(s, Wait(t))
    ensures Prompt(Apply(s, Wait(t))) <==> !Gap(s, Wait(t))
  {
    var s' := Apply(s, Wait(t));
    SameConcern(s, s', t);
    if Gap(s, Wait(t)) {
      var i :| 0 <= i < |s.tasks| && P.Runnable(s.tasks[i], t);
      assert Overlooked(s', t, i);
    } else if !Prompt(s') {
      var u, i: nat :| Overlooked(s', u, i);
      assert u != t ==> Overlooked(s, u, i);
    }
  }

  lemma SameConcern(s: State, s': State, t: nat)
    requires t in s.thr && t in s'.thr && s' == s.(thr := s.thr[t := s'.thr[t]])
    requires !Concerned(s.thr[t]) && !Concerned(s'.thr[t])
    ensures Covered(s') <==> Covered(s)
  {
    assert forall u :: u in s.thr && u != t ==> s'.thr[u] == s.thr[u];
  }

  lemma TimeoutStep(s: State, t: nat)
    requires Prompt(s) && Enabled(s, Timeout(t))
    ensures Prompt(Apply(s, Timeout(t)))
  {
    var s' := Apply(s, Timeout(t));
    SameConcern(s, s', t);
    if u, i: nat :| Overlooked(s', u, i) {
      assert Overlooked(s, u, i);
    }
  }

  lemma ScanStep(s: State, t: nat)
    requires Enabled(s, Scan(t))
    ensures Prompt(Apply(s, Scan(t)))
  {
    var s' := Apply(s, Scan(t));
    if u, i: nat :| Overlooked(s', u, i) {
      assert At(s, u, Waiting);
      StillConcerned(s', t);
    }
  }

  lemma TickleStep(s: State, t: nat)
    requires Prompt(s) && Enabled(s, Tickle(t))
    ensures Prompt(Apply(s, Tickle(t)))
  {
    var s' := Apply(s, Tickle(t));
    if u, i: nat :| Overlooked(s', u, i) {
      assert Overlooked(s, u, i) && At(s, u, Waiting);
      if !s.thr[t].need {
        SameConcern(s, s'.(pipe := s.pipe), t);
      }
    }
  }

  lemma PushTickleStep(s: State)
    requires Enabled(s, PushTickle)
    ensures Prompt(Apply(s, PushTickle))
  {
    var s' := Apply(s, PushTickle);
    if u, i: nat :| Overlooked(s', u, i) {
      assert At(s, u, Waiting);
    }
  }

  /** A state without overlooked tasks stays so, exactly unless the step is a gap. */
  lemma PromptStep(s: State, a: Action)
    requires Prompt(s) && Enabled(s, a)
    ensures Prompt(Apply(s, a)) <==> !Gap(s, a)
  {
    match a
    case Push(task) => PushStep(s, task);
    case PushTickle => PushTickleStep(s);
    case Scan(t) => ScanStep(s, t);
    case Tickle(t) => TickleStep(s, t);
    case Wait(t) => WaitStep(s, t);
    case Done(t) => StillConcerned(Apply(s, a), t);
    case Wake(t) => StillConcerned(Apply(s, a), t);
    case Timeout(t) => TimeoutStep(s, t);
    case Drain(t) => StillConcerned(Apply(s, a), t);
    case Leave(t) => StillConcerned(Apply(s, a), t);
  }

  // ------------------------------------------------------------------ whole runs

  ghost predicate IsRun(ss: seq<State>, acts: seq<Action>) {
    && |ss| == |acts| + 1
    && ss[0].tasks == [] && !ss[0].pipe && ss[0].owed == 0
    && (forall t :: t in ss[0].thr ==> ss[0].thr[t] == Loop)
    && forall i :: 0 <= i < |acts| ==> Enabled(ss[i], acts[i]) && ss[i + 1] == Apply(ss[i], acts[i])
  }

  lemma {:induction false} PromptUntil(ss: seq<State>, acts: seq<Action>, n: nat)
    requires IsRun(ss, acts) && n < |ss| && forall i :: 0 <= i < n ==> !Gap(ss[i], acts[i])
    ensures Prompt(ss[n])
  {
    hide Prompt, Gap, Apply;
    if n > 0 {
      PromptUntil(ss, acts, n - 1);
      PromptStep(ss[n - 1], acts[n - 1]);
    } else {
      PromptAtStart(ss[0]);
    }
  }

  lemma PromptAtStart(s: State)
    requires s.tasks == []
    ensures Prompt(s)
  {
  }

  /** In every run, no state overlooks a task if and only if no step is a gap. */
  lemma PromptIffNoGap(ss: seq<State>, acts: seq<Action>)
    requires IsRun(ss, acts)
    ensures (forall n :: 0 <= n < |ss| ==> Prompt(ss[n])) <==> (forall n :: 0 <= n < |acts| ==> !Gap(ss[n], acts[n]))
  {
    hide Prompt, Gap, Apply;
    if forall n :: 0 <= n < |ss| ==> Prompt(ss[n]) {
      forall n | 0 <= n < |acts|
        ensures !Gap(ss[n], acts[n])
      {
        assert Prompt(ss[n]) && Prompt(ss[n + 1]);
        PromptStep(ss[n], acts[n]);
      }
    }
    if forall n :: 0 <= n < |acts| ==> !Gap(ss[n], acts[n]) {
      forall n | 0 <= n < |ss|
        ensures Prompt(ss[n])
      {
        PromptUntil(ss, acts, n);
      }
    }
  }

  /** A tickle goes into the pipe only while some thread is counted as idle, and only for a
      push onto an empty list or a search that passed a task by or left one behind. */
  lemma TickledForAReason(s: State, a: Action)
    requires Enabled(s, a) && !s.pipe && Apply(s, a).pipe
    ensures SomeoneWaits(s) && (a == PushTickle || (a.Tickle? && s.thr[a.t].need))
  {
  }

  /** In every run, while nothing has been pushed no tickle is sent, owed or due. */
  lemma {:induction false} NothingToTickle(ss: seq<State>, acts: seq<Action>, n: nat)
    requires IsRun(ss, acts) && n < |ss| && forall m :: 0 <= m < n ==> !acts[m].Push?
    ensures ss[n].tasks == [] && !ss[n].pipe && ss[n].owed == 0
    ensures forall t :: t in ss[n].thr && ss[n].thr[t].After? ==> !ss[n].thr[t].need
  {
    hide Apply, Enabled;
    if n > 0 {
      NothingToTickle(ss, acts, n - 1);
      StaysQuiet(ss[n - 1], acts[n - 1]);
    }
  }

  lemma StaysQuiet(s: State, a: Action)
    requires Enabled(s, a) && !a.Push? && s.tasks == [] && !s.pipe && s.owed == 0
    requires forall t :: t in s.thr && s.thr[t].After? ==> !s.thr[t].need
    ensures var s' := Apply(s, a);
            && s'.tasks == [] && !s'.pipe && s'.owed == 0
            && forall t :: t in s'.thr && s'.thr[t].After? ==> !s'.thr[t].need
  {
  }

  // -------------------------------------------------------------- what opens a gap

  /** A thread goes idle only from a search that saw an empty list. */
  lemma IdleAfterEmpty(s: State, t: nat)
    requires Enabled(s, Scan(t))
    ensures var p := Apply(s, Scan(t)).thr[t];
            && (AfterTickle(p) == Entering <==> s.tasks == [])
            && (p.found <==> exists i :: 0 <= i < |s.tasks| && P.Runnable(s.tasks[i], t))
  {
  }

  /** On its way into a wait, from a search or a timeout. */
  predicate GoingIdle(p: Phase) { p == Entering || (p.After? && AfterTickle(p) == Entering) }

  /** Since step `l`, a search of an empty list or a timeout, thread `t` has not searched. */
  ghost predicate IdleSince(ss: seq<State>, acts: seq<Action>, t: nat, l: nat, n: nat) {
    && l < n <= |acts| < |ss| && (acts[l] == Timeout(t) || (acts[l] == Scan(t) && ss[l].tasks == []))
    && forall m :: l < m < n ==> acts[m] != Scan(t)
  }

  lemma GoingIdleStep(s: State, a: Action, t: nat)
    requires Enabled(s, a) && t in s.thr && t in Apply(s, a).thr && GoingIdle(Apply(s, a).thr[t])
    ensures a == Timeout(t) || (a == Scan(t) && s.tasks == []) || (a != Scan(t) && GoingIdle(s.thr[t]))
  {
    if a == Scan(t) {
      IdleAfterEmpty(s, t);
    }
  }

  lemma StepKeepsThreads(s: State, a: Action)
    requires Enabled(s, a)
    ensures Apply(s, a).thr.Keys == s.thr.Keys
  {
  }

  lemma {:induction false} GoingIdleSince(ss: seq<State>, acts: seq<Action>, t: nat, n: nat) returns (l: nat)
    requires IsRun(ss, acts) && n < |ss| && t in ss[n].thr && GoingIdle(ss[n].thr[t])
    ensures IdleSince(ss, acts, t, l, n)
  {
    hide Apply, Enabled, GoingIdle;
    if n == 0 {
      LoopIsNotIdle();
    } else {
      var s, a := ss[n - 1], acts[n - 1];
      StepKeepsThreads(s, a);
      GoingIdleStep(s, a, t);
      if a == Timeout(t) || a == Scan(t) {
        l := n - 1;
      } else {
        l := GoingIdleSince(ss, acts, t, n - 1);
      }
    }
  }

  lemma LoopIsNotIdle()
    ensures !GoingIdle(Loop)
  {
  }

  lemma {:induction false} PushBetween(ss: seq<State>, acts: seq<Action>, l: nat, n: nat) returns (m: nat)
    requires IsRun(ss, acts) && l < n < |ss| && ss[l].tasks == [] && ss[n].tasks != []
    ensures l <= m < n && acts[m].Push?
  {
    hide Apply, Enabled;
    if acts[n - 1].Push? {
      m := n - 1;
    } else {
      OnlyPushFills(ss[n - 1], acts[n - 1]);
      m := PushBetween(ss, acts, l, n - 1);
    }
  }

  lemma OnlyPushFills(s: State, a: Action)
    requires Enabled(s, a) && !a.Push?
    ensures s.tasks == [] ==> Apply(s, a).tasks == []
  {
  }

  /** In every run, a gap is a push; or the thread that begins to wait got there by a
      timeout, or a push came between its search, which saw an empty list, and its being
      counted. */
  lemma GapNeedsPush(ss: seq<State>, acts: seq<Action>, n: nat)
    requires IsRun(ss, acts) && n < |acts| && Gap(ss[n], acts[n])
    ensures acts[n].Push? ||
            (acts[n].Wait? && exists l: nat, m: nat :: IdleSince(ss, acts, acts[n].t, l, n) &&
                                        (acts[l].Timeout? || (l < m < n && acts[m].Push?)))
  {
    if acts[n].Wait? {
      var t := acts[n].t;
      var l := GoingIdleSince(ss, acts, t, n);
      if acts[l].Timeout? {
        assert IdleSince(ss, acts, t, l, n);
      } else {
        var m := PushBetween(ss, acts, l, n);
        assert l < m < n && acts[m].Push?;
      }
    }
  }

  // ------------------------------------------------------ as steps of the protocol

  /** Where the protocol model has a thread that is here in this phase. */
  predicate Shows(p: Phase, pc: P.Pc) {
    match p
    case Loop => pc.Loop?
    case After(_, found) => if found then pc.Got? else pc.Decide?
    case Busy => pc.Got? || pc.Run?
    case Entering => pc.Idle?
    case Waiting => pc.Idle?
    case Awake => pc.Idle?
  }

  /** The same threads at the same places, and the same tasks in the same order. */
  ghost predicate Matches(s: State, w: P.State, list: seq<Q.Entry>) {
    !w.c.stopping && SamePlaces(s.thr, w.thr) && SameTasks(s.tasks, w.q, list)
  }

  ghost predicate SamePlaces(thr: map<nat, Phase>, pcs: map<nat, P.Pc>) {
    thr.Keys == pcs.Keys && forall t :: t in thr ==> Shows(thr[t], pcs[t])
  }

  ghost predicate SameTasks(tasks: seq<P.Task>, q: P.Queue, list: seq<Q.Entry>) {
    && |list| == |tasks| && (forall i :: 0 <= i < |list| ==> list[i].task == tasks[i])
    && Q.Ordered(list, q.next) && q.tasks == Q.AsMap(list)
  }

  /** The protocol's action behind one of a thread here, if any. */
  function Behind(s: State, a: Action, list: seq<Q.Entry>): Option<P.Action>
    requires Enabled(s, a)
  {
    match a
    case Scan(t) =>
      var k := FirstRunnable(s.tasks, t);
      Some(P.Scan(t, if k < |list| then Some(list[k].id) else None))
    case Tickle(t) => if s.thr[t].found then None else Some(P.Branch(t, s.thr[t].need))
    case Leave(t) => Some(P.IdleYield(t))
    case _ => None
  }

  lemma SearchMatches(tasks: seq<P.Task>, t: nat, q: P.Queue, list: seq<Q.Entry>) returns (list': seq<Q.Entry>)
    requires SameTasks(tasks, q, list)
    ensures var k := FirstRunnable(tasks, t);
            var found := if k < |list| then Some(list[k].id) else None;
            && P.Finds(q, t, found) && (found.Some? ==> found.value in q.tasks)
            && SameTasks(if k < |tasks| then tasks[..k] + tasks[k + 1..] else tasks, P.Take(q, t, found), list')
  {
    hide Q.AsMap, Q.Ordered, P.Runnable, P.Finds;
    var k, next := FirstRunnable(tasks, t), q.next;
    assert forall j :: 0 <= j < k ==> list[j].task == tasks[j];
    Q.SearchFinds(list, next, t, k);
    list' := list;
    if k < |list| {
      list' := EraseMatches(tasks, k, q, list);
    }
  }

  lemma EraseMatches(tasks: seq<P.Task>, k: nat, q: P.Queue, list: seq<Q.Entry>) returns (list': seq<Q.Entry>)
    requires SameTasks(tasks, q, list) && k < |list|
    ensures list[k].id in q.tasks
    ensures SameTasks(tasks[..k] + tasks[k + 1..], q.(tasks := q.tasks - {list[k].id}), list')
  {
    hide Q.AsMap, Q.Ordered;
    list' := Q.Erase(list, k);
    Q.EraseOrdered(list, q.next, k);
    Q.AsMapErase(list, list', q.next, k);
    Q.AsMapHas(list, q.next, k);
  }

  lemma ScanMatches(s: State, t: nat, w: P.State, list: seq<Q.Entry>) returns (list': seq<Q.Entry>)
    requires Matches(s, w, list) && Enabled(s, Scan(t))
    ensures var b := Behind(s, Scan(t), list).value;
            P.Enabled(w, b) && Matches(Apply(s, Scan(t)), P.Apply(w, b), list')
  {
    hide SameTasks, P.Finds, P.Take;
    SameLength(s, w, list);
    list' := SearchMatches(s.tasks, t, w.q, list);
    var k := FirstRunnable(s.tasks, t);
    PlacesChange(s.thr, w.thr, t, Apply(s, Scan(t)).thr[t],
                 if k < |list| then P.Got(w.q.tasks[list[k].id]) else P.Decide);
  }

  lemma SameLength(s: State, w: P.State, list: seq<Q.Entry>)
    requires Matches(s, w, list)
    ensures |list| == |s.tasks|
  {
  }

  lemma PlacesChange(thr: map<nat, Phase>, pcs: map<nat, P.Pc>, t: nat, p: Phase, pc: P.Pc)
    requires SamePlaces(thr, pcs) && Shows(p, pc)
    ensures SamePlaces(thr[t := p], pcs[t := pc])
  {
  }

  lemma PushMatches(tasks: seq<P.Task>, task: P.Task, q: P.Queue, list: seq<Q.Entry>)
    requires SameTasks(tasks, q, list)
    ensures SameTasks(tasks + [task], P.Push(q, task, true), list + [Q.Entry(q.next, task)])
  {
    var list', q' := list + [Q.Entry(q.next, task)], P.Push(q, task, true);
    assert Q.Ordered(list', q'.next);
    forall k: nat
      ensures k in q'.tasks <==> k in Q.AsMap(list')
      ensures k in q'.tasks && k in Q.AsMap(list') ==> q'.tasks[k] == Q.AsMap(list')[k]
    {
      PushedAt(q, task, list, k);
    }
    assert q'.tasks == Q.AsMap(list');
  }

  lemma PushedAt(q: P.Queue, task: P.Task, list: seq<Q.Entry>, k: nat)
    requires Q.Ordered(list, q.next) && q.tasks == Q.AsMap(list)
    requires Q.Ordered(list + [Q.Entry(q.next, task)], q.next + 1)
    ensures var list', q' := list + [Q.Entry(q.next, task)], P.Push(q, task, true);
            && (k in q'.tasks <==> k in Q.AsMap(list'))
            && (k in q'.tasks && k in Q.AsMap(list') ==> q'.tasks[k] == Q.AsMap(list')[k])
  {
    hide Q.AsMap;
    var list', next := list + [Q.Entry(q.next, task)], q.next;
    Q.AsMapHas(list', next + 1, |list|);
    if k in Q.AsMap(list') {
      var j := Q.AsMapFrom(list', next + 1, k);
      Q.AsMapHas(list', next + 1, j);
      if j < |list| {
        Q.AsMapHas(list, next, j);
      }
    } else if k in Q.AsMap(list) {
      var j := Q.AsMapFrom(list, next, k);
      Q.AsMapHas(list', next + 1, j);
    }
  }

  /** Every step here but the running of a task is a step of the protocol on the matching
      state, or none: a search is its search, a tickle the branch after it, with `again`
      for the tickle that was due, and the end of an idle round its yield. */
  lemma FollowsProtocol(s: State, a: Action, w: P.State, list: seq<Q.Entry>) returns (list': seq<Q.Entry>)
    requires Matches(s, w, list) && Enabled(s, a) && !a.Done? && (a.Leave? ==> P.NoBatch(w, a.t))
    ensures var b := Behind(s, a, list);
            if b.Some? then P.Enabled(w, b.value) && Matches(Apply(s, a), P.Apply(w, b.value), list')
            else if a.Push? then Matches(Apply(s, a), w.(q := P.Push(w.q, a.task, true)), list')
            else Matches(Apply(s, a), w, list')
  {
    hide SameTasks, P.Finds, P.Take, P.Push, FirstRunnable;
    SameLength(s, w, list);
    list' := list;
    if a.Scan? {
      list' := ScanMatches(s, a.t, w, list);
    } else if a.Push? {
      PushMatches(s.tasks, a.task, w.q, list);
      list' := list + [Q.Entry(w.q.next, a.task)];
    }
  }

  // ----------------------------------------------------------------- two lost wake-ups

  const ANY := P.Wake(7, 0)
  const FOR2 := P.Wake(8, 2)

  function One(p: Phase): map<nat, Phase> { map[1 := p] }

  /** A task arrives while the only thread is inside `idle` and not yet counted: the push
      does not tickle, and the thread goes to sleep beside it. */
  const WINDOW: seq<State> := [
    State([], One(Loop), false, 0), State([], One(After(false, false)), false, 0), State([], One(Entering), false, 0),
    State([ANY], One(Entering), false, 1), State([ANY], One(Entering), false, 0), State([ANY], One(Waiting), false, 0)]
  const WINDOW_ACTIONS: seq<Action> := [Scan(1), Tickle(1), Push(ANY), PushTickle, Wait(1)]

  lemma NobodyWaits(s: State)
    requires forall t :: t in s.thr ==> s.thr[t] != Waiting
    ensures !SomeoneWaits(s)
  {
  }

  lemma LostInTheWindow()
    ensures IsRun(WINDOW, WINDOW_ACTIONS) && Gap(WINDOW[4], WINDOW_ACTIONS[4]) && !Prompt(WINDOW[5])
  {
    forall i | 0 <= i < 5
      ensures Enabled(WINDOW[i], WINDOW_ACTIONS[i]) && Apply(WINDOW[i], WINDOW_ACTIONS[i]) == WINDOW[i + 1]
    {
      NobodyWaits(WINDOW[i]);
    }
    assert P.Runnable(WINDOW[4].tasks[0], 1);
    assert Overlooked(WINDOW[5], 1, 0);
  }

  function Two(p: Phase, q: Phase): map<nat, Phase> { map[1 := p, 2 := q] }

  /** Thread 2 is busy. Thread 1 sees an empty list and goes idle; before it is counted a
      task for thread 2 arrives, which is no business of thread 1, and it waits. A task
      that anyone may run is then pushed onto the list, which is not empty, and nobody is
      told. */
  const BEHIND: seq<State> := [
    State([], Two(Loop, Loop), false, 0), State([FOR2], Two(Loop, Loop), false, 1),
    State([FOR2], Two(Loop, Loop), false, 0), State([], Two(Loop, After(false, true)), false, 0),
    State([], Two(Loop, Busy), false, 0), State([], Two(After(false, false), Busy), false, 0),
    State([], Two(Entering, Busy), false, 0), State([FOR2], Two(Entering, Busy), false, 1),
    State([FOR2], Two(Entering, Busy), false, 0), State([FOR2], Two(Waiting, Busy), false, 0),
    State([FOR2, ANY], Two(Waiting, Busy), false, 0)]
  const BEHIND_ACTIONS: seq<Action> :=
    [Push(FOR2), PushTickle, Scan(2), Tickle(2), Scan(1), Tickle(1), Push(FOR2), PushTickle, Wait(1), Push(ANY)]

  lemma BehindScan()
    ensures Enabled(BEHIND[2], BEHIND_ACTIONS[2]) && Apply(BEHIND[2], BEHIND_ACTIONS[2]) == BEHIND[3]
  {
    assert BEHIND[2] == State([FOR2], Two(Loop, Loop), false, 0) && BEHIND_ACTIONS[2] == Scan(2);
    assert FirstRunnable([FOR2], 2) == 0 && [FOR2][..0] + [FOR2][1..] == [];
  }

  lemma BehindFirst(i: nat)
    requires i < 5 && i != 2
    ensures Enabled(BEHIND[i], BEHIND_ACTIONS[i]) && Apply(BEHIND[i], BEHIND_ACTIONS[i]) == BEHIND[i + 1]
  {
    NobodyWaits(BEHIND[i]);
  }

  lemma BehindNext(i: nat)
    requires 5 <= i < 8
    ensures Enabled(BEHIND[i], BEHIND_ACTIONS[i]) && Apply(BEHIND[i], BEHIND_ACTIONS[i]) == BEHIND[i + 1]
  {
    NobodyWaits(BEHIND[i]);
  }

  lemma BehindLast(i: nat)
    requires 8 <= i < 10
    ensures Enabled(BEHIND[i], BEHIND_ACTIONS[i]) && Apply(BEHIND[i], BEHIND_ACTIONS[i]) == BEHIND[i + 1]
  {
  }

  lemma BehindGap()
    ensures Gap(BEHIND[9], BEHIND_ACTIONS[9]) && !Prompt(BEHIND[10])
  {
    assert At(BEHIND[9], 1, Waiting) && P.Runnable(ANY, 1);
    assert Overlooked(BEHIND[10], 1, 1);
  }

  lemma LostBehindAnother()
    ensures IsRun(BEHIND, BEHIND_ACTIONS) && Gap(BEHIND[9], BEHIND_ACTIONS[9]) && !Prompt(BEHIND[10])
  {
    hide Apply, Enabled, Gap, Prompt;
    forall i: nat | i < 10
      ensures Enabled(BEHIND[i], BEHIND_ACTIONS[i]) && Apply(BEHIND[i], BEHIND_ACTIONS[i]) == BEHIND[i + 1]
    {
      if i == 2 {
        BehindScan();
      } else if i < 5 {
        BehindFirst(i);
      } else if i < 8 {
        BehindNext(i);
      } else {
        BehindLast(i);
      }
    }
    BehindGap();
  }

  // ------------------------------------------------------- a gap after a drained tickle

  /** The actions lead from `s` to `s'`. */
  ghost predicate Leads(s: State, acts: seq<Action>, s': State)
    decreases |acts|
  {
    if acts == [] then s' == s else Enabled(s, acts[0]) && Leads(Apply(s, acts[0]), acts[1..], s')
  }

  lemma Lead(s: State, a: Action, s1: State, acts: seq<Action>, s': State)
    requires Enabled(s, a) && Apply(s, a) == s1 && Leads(s1, acts, s')
    ensures Leads(s, [a] + acts, s')
  {
    hide Enabled, Apply;
    assert ([a] + acts)[1..] == acts;
  }

  lemma NoSteps(s: State)
    ensures Leads(s, [], s)
  {
  }

  function Lone(tasks: seq<P.Task>, p: Phase, pipe: bool, owed: nat): State { State(tasks, One(p), pipe, owed) }

  lemma IdleScan()
    ensures Enabled(Lone([], Loop, false, 0), Scan(1))
    ensures Apply(Lone([], Loop, false, 0), Scan(1)) == Lone([], After(false, false), false, 0)
  {
  }

  lemma IdleTickle()
    ensures Apply(Lone([], After(false, false), false, 0), Tickle(1)) == Lone([], Entering, false, 0)
  {
  }

  lemma PushOnEmpty(p: Phase)
    ensures Apply(Lone([], p, false, 0), Push(ANY)) == Lone([ANY], p, false, 1)
  {
  }

  lemma Tickled()
    ensures Apply(Lone([ANY], Waiting, false, 1), PushTickle) == Lone([ANY], Waiting, true, 0)
  {
    assert At(Lone([ANY], Waiting, false, 1), 1, Waiting);
  }

  lemma NotTickled()
    ensures Apply(Lone([ANY], Entering, false, 1), PushTickle) == Lone([ANY], Entering, false, 0)
  {
    NobodyWaits(Lone([ANY], Entering, false, 1));
  }

  lemma TaskScan()
    ensures Enabled(Lone([ANY], Loop, false, 0), Scan(1))
    ensures Apply(Lone([ANY], Loop, false, 0), Scan(1)) == Lone([], After(false, true), false, 0)
  {
    assert FirstRunnable([ANY], 1) == 0 && [ANY][..0] + [ANY][1..] == [];
  }

  /** The thread goes idle, waits, times out and waits again; a task comes and the tickle goes
      into the pipe. */
  lemma ToTickled() returns (acts: seq<Action>)
    ensures Leads(Lone([], Loop, false, 0), acts, Lone([ANY], Waiting, true, 0))
  {
    hide Leads, ScanTo;
    var full, waiting := Lone([ANY], Waiting, true, 0), Lone([], Waiting, false, 0);
    var entering := Lone([], Entering, false, 0);
    NoSteps(full);
    Tickled();
    Lead(Lone([ANY], Waiting, false, 1), PushTickle, full, [], full);
    PushOnEmpty(Waiting);
    var a5 := [PushTickle] + [];
    Lead(waiting, Push(ANY), Lone([ANY], Waiting, false, 1), a5, full);
    var a4 := [Push(ANY)] + a5;
    Lead(entering, Wait(1), waiting, a4, full);
    var a3 := [Wait(1)] + a4;
    Lead(waiting, Timeout(1), entering, a3, full);
    var a2 := [Timeout(1)] + a3;
    Lead(entering, Wait(1), waiting, a2, full);
    var a1 := [Wait(1)] + a2;
    IdleTickle();
    Lead(Lone([], After(false, false), false, 0), Tickle(1), entering, a1, full);
    var a0 := [Tickle(1)] + a1;
    IdleScan();
    Lead(Lone([], Loop, false, 0), Scan(1), Lone([], After(false, false), false, 0), a0, full);
    acts := [Scan(1)] + a0;
  }

  /** The tickle wakes the thread and is drained. */
  lemma ToDrained()
    ensures Leads(Lone([ANY], Waiting, true, 0), [Wake(1)] + ([Drain(1)] + []), Lone([ANY], Awake, false, 0))
  {
    hide Leads;
    var drained := Lone([ANY], Awake, false, 0);
    NoSteps(drained);
    Lead(Lone([ANY], Awake, true, 0), Drain(1), drained, [], drained);
    Lead(Lone([ANY], Waiting, true, 0), Wake(1), Lone([ANY], Awake, true, 0), [Drain(1)] + [], drained);
  }

  /** It runs the task and goes idle, and the next task falls into the window. */
  lemma ToWindow() returns (acts: seq<Action>)
    ensures Leads(Lone([ANY], Awake, false, 0), acts, Lone([ANY], Entering, false, 0))
  {
    hide Leads, ScanTo;
    var last := Lone([ANY], Entering, false, 0);
    NoSteps(last);
    NotTickled();
    Lead(Lone([ANY], Entering, false, 1), PushTickle, last, [], last);
    PushOnEmpty(Entering);
    var a6 := [PushTickle] + [];
    Lead(Lone([], Entering, false, 0), Push(ANY), Lone([ANY], Entering, false, 1), a6, last);
    var a5 := [Push(ANY)] + a6;
    IdleTickle();
    Lead(Lone([], After(false, false), false, 0), Tickle(1), Lone([], Entering, false, 0), a5, last);
    var a4 := [Tickle(1)] + a5;
    IdleScan();
    Lead(Lone([], Loop, false, 0), Scan(1), Lone([], After(false, false), false, 0), a4, last);
    var a3 := [Scan(1)] + a4;
    acts := FromBusy(a3, last);
  }

  lemma FromBusy(more: seq<Action>, last: State) returns (acts: seq<Action>)
    requires Leads(Lone([], Loop, false, 0), more, last)
    ensures Leads(Lone([ANY], Awake, false, 0), acts, last)
  {
    hide Leads, ScanTo;
    Lead(Lone([], Busy, false, 0), Done(1), Lone([], Loop, false, 0), more, last);
    var a2 := [Done(1)] + more;
    Lead(Lone([], After(false, true), false, 0), Tickle(1), Lone([], Busy, false, 0), a2, last);
    var a1 := [Tickle(1)] + a2;
    TaskScan();
    Lead(Lone([ANY], Loop, false, 0), Scan(1), Lone([], After(false, true), false, 0), a1, last);
    var a0 := [Scan(1)] + a1;
    Lead(Lone([ANY], Awake, false, 0), Leave(1), Lone([ANY], Loop, false, 0), a0, last);
    acts := [Leave(1)] + a0;
  }

  /** A whole life of a tickle and a gap after it: one tickle does not cover what comes
      later. */
  lemma LostAfterDrain() returns (first: seq<Action>, second: seq<Action>)
    ensures Leads(Lone([], Loop, false, 0), first, Lone([ANY], Waiting, true, 0))
    ensures Leads(Lone([ANY], Waiting, true, 0), [Wake(1)] + ([Drain(1)] + []), Lone([ANY], Awake, false, 0))
    ensures Leads(Lone([ANY], Awake, false, 0), second, Lone([ANY], Entering, false, 0))
    ensures Gap(Lone([ANY], Entering, false, 0), Wait(1))
  {
    hide Leads;
    first := ToTickled();
    ToDrained();
    second := ToWindow();
    var s := Lone([ANY], Entering, false, 0);
    assert P.Runnable(s.tasks[0], 1);
  }
}
