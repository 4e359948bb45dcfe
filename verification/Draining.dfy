/** Which tasks are left behind: from the state in which a task was accepted, for a finished
    run of `ParkWake`, and for all its continuations, one of which is constructed. */
module Draining {
  import opened Wrappers
  import opened ParkWake

  // ------------------------------------------------------ what a run leaves behind

  /** Step `j` of the run accepts task `k`. */
  ghost predicate AcceptedAt(ss: seq<State>, j: nat, k: nat) {
    j + 1 < |ss| && ss[j].q.next == k && ss[j + 1].q.next == k + 1
  }

  /** Thread `t` searches the queue between states `j` and `i`. */
  ghost predicate Searches(acts: seq<Action>, j: nat, i: nat, t: nat) {
    exists n :: j <= n < i && n < |acts| && acts[n].Scan? && acts[n].t == t
  }

  /** One step, as far as a thread's searches go. */
  lemma SearchStep(s: State, a: Action, t: nat)
    requires Conserved(s.q) && s.q.lastScan.Keys == s.thr.Keys && Enabled(s, a) && t in s.thr
    ensures var s' := Apply(s, a);
            && s'.thr.Keys == s.thr.Keys && t in s'.q.lastScan && s.q.next <= s'.q.next
            && (a.Scan? && a.t == t ==> s'.q.lastScan[t] == s.q.next)
            && (!(a.Scan? && a.t == t) ==>
                 s'.q.lastScan[t] == s.q.lastScan[t] && (Found(s'.thr[t]) ==> Found(s.thr[t])))
            && (a.Scan? ==> s'.q.next == s.q.next)
  {
    hide Runnable;
    if !a.Scan? {
      OnlyScanTakes(s, a);
    }
  }

  /** From the acceptance of task `k` on: a thread has searched since if and only if its
      last search saw the task, and has to unless it had found nothing and not yet
      decided. */
  lemma {:induction false} SearchedSince(ss: seq<State>, acts: seq<Action>, j: nat, k: nat, t: nat, i: nat)
    requires IsBehavior(ss, acts) && AcceptedAt(ss, j, k) && j < i < |ss| && t in ss[j].thr
    ensures t in ss[i].thr && t in ss[i].q.lastScan && k < ss[i].q.next
    ensures Searches(acts, j, i, t) <==> ss[i].q.lastScan[t] > k
    ensures Found(ss[i].thr[t]) && !Found(ss[j].thr[t]) ==> Searches(acts, j, i, t)
  {
    hide IsBehavior, Found, Apply, Enabled, Conserved;
    var n := i - 1;
    QueueFacts(ss, acts, n);
    SameThreads(ss, acts, j, n);
    SearchStep(ss[n], acts[n], t);
    if n == j {
      assert !acts[j].Scan?;
      ScanBound(ss[n], t);
    } else {
      SearchedSince(ss, acts, j, k, t, n);
      if Searches(acts, j, i, t) {
        var m :| j <= m < i && m < |acts| && acts[m].Scan? && acts[m].t == t;
        assert m < n ==> Searches(acts, j, n, t);
      }
      if Searches(acts, j, n, t) {
        var m :| j <= m < n && m < |acts| && acts[m].Scan? && acts[m].t == t;
        assert Searches(acts, j, i, t);
      }
    }
  }

  lemma QueueFacts(ss: seq<State>, acts: seq<Action>, n: nat)
    requires IsBehavior(ss, acts) && n < |ss|
    ensures |ss| == |acts| + 1 && Conserved(ss[n].q) && ss[n].q.lastScan.Keys == ss[n].thr.Keys
    ensures n < |acts| ==> Enabled(ss[n], acts[n]) && ss[n + 1] == Apply(ss[n], acts[n])
  {
    RunInv(ss, acts, n);
  }

  lemma ScanBound(s: State, t: nat)
    requires Conserved(s.q) && t in s.q.lastScan
    ensures s.q.lastScan[t] <= s.q.next
  {
  }

  /** In every run, after all threads have left, a task some member could run is still
      queued if and only if, when it was accepted, every thread that may run it had found
      nothing to run and not yet acted on that, or had left, and then left without another
      search. */
  lemma RemainsIffAllHadSearched(ss: seq<State>, acts: seq<Action>, j: nat, k: nat, i: nat)
    requires IsBehavior(ss, acts) && AcceptedAt(ss, j, k) && j < i < |ss|
    requires AllExited(ss[i]) && MemberTask(ss[i], k)
    ensures k in ss[i].q.tasks <==>
            forall t :: t in ss[j].thr && Runnable(ss[i].q.accepted[k], t) ==>
              Found(ss[j].thr[t]) && !Searches(acts, j, i, t)
  {
    hide IsBehavior, Inv, Apply, Enabled, Runnable, Conserved;
    RemainsIffMissed(ss, acts, i, k);
    QueueFacts(ss, acts, i);
    SameThreads(ss, acts, j, i);
    forall t | t in ss[j].thr
      ensures Searched(ss[i].q, t) <= k <==> Found(ss[j].thr[t]) && !Searches(acts, j, i, t)
    {
      SearchedSince(ss, acts, j, k, t, i);
    }
  }

  lemma {:induction false} SameThreads(ss: seq<State>, acts: seq<Action>, j: nat, i: nat)
    requires IsBehavior(ss, acts) && j <= i < |ss|
    ensures ss[i].thr.Keys == ss[j].thr.Keys
  {
    hide IsBehavior, Enabled, Apply, Conserved;
    if j < i {
      SameThreads(ss, acts, j, i - 1);
      QueueFacts(ss, acts, i - 1);
      StepKeepsThreads(ss[i - 1], acts[i - 1]);
    }
  }

  lemma StepKeepsThreads(s: State, a: Action)
    requires Enabled(s, a)
    ensures Apply(s, a).thr.Keys == s.thr.Keys
  {
    hide Finds;
    if !a.Scan? {
      OnlyScanTakes(s, a);
    }
  }

  /** What a caller of `schedule` can see: if some thread that may run the task is, at
      that moment, anywhere but between a search that found nothing and its consequence,
      and has not left, the task is gone when all have left. */
  lemma TakenIfSomeoneSearches(ss: seq<State>, acts: seq<Action>, j: nat, k: nat, i: nat, t: nat)
    requires IsBehavior(ss, acts) && AcceptedAt(ss, j, k) && j < i < |ss|
    requires AllExited(ss[i]) && k in ss[i].q.accepted && Runnable(ss[i].q.accepted[k], t)
    requires t in ss[j].thr && !Found(ss[j].thr[t])
    ensures k !in ss[i].q.tasks
  {
    hide IsBehavior, Inv, Apply, Enabled, Runnable;
    SameThreads(ss, acts, j, i);
    assert MemberTask(ss[i], k);
    RemainsIffAllHadSearched(ss, acts, j, k, i);
  }

  // ---------------------------------------------------------------- continuations

  /** The actions lead from `s` to `s'`. */
  ghost predicate Leads(s: State, acts: seq<Action>, s': State)
    decreases |acts|
  {
    if acts == [] then s' == s else Enabled(s, acts[0]) && Leads(Apply(s, acts[0]), acts[1..], s')
  }

  lemma NoSteps(s: State)
    ensures Leads(s, [], s)
  {
  }

  lemma Lead(s: State, a: Action, acts: seq<Action>, s': State)
    requires Enabled(s, a) && Leads(Apply(s, a), acts, s')
    ensures Leads(s, [a] + acts, s')
  {
    hide Enabled, Apply;
    assert ([a] + acts)[1..] == acts;
  }

  lemma {:induction false} LeadsOn(s: State, acts: seq<Action>, s': State, more: seq<Action>, s'': State)
    requires Leads(s, acts, s') && Leads(s', more, s'')
    ensures Leads(s, acts + more, s'')
    decreases |acts|
  {
    hide Enabled, Apply;
    if acts == [] {
      assert acts + more == more;
    } else {
      LeadsOn(Apply(s, acts[0]), acts[1..], s', more, s'');
      assert (acts + more)[1..] == acts[1..] + more;
    }
  }

  // ---------------------------------------------------------- a search that must come

  /** Thread `t` has not reached the end of a search, or its last search saw task `k`. */
  ghost predicate WillSee(s: State, t: nat, k: nat) {
    t in s.thr && t in s.q.lastScan && k < s.q.next && (Found(s.thr[t]) ==> s.q.lastScan[t] > k)
  }

  lemma SeesStep(s: State, a: Action, t: nat, k: nat)
    requires Inv(s) && Enabled(s, a) && WillSee(s, t, k)
    ensures WillSee(Apply(s, a), t, k)
  {
    hide Enabled, Apply, Found, TokenInv, Counted, Balanced, Consumptions;
    SearchStep(s, a, t);
  }

  lemma {:induction false} SeenAtTheEnd(s: State, acts: seq<Action>, s': State, t: nat, k: nat)
    requires Inv(s) && Leads(s, acts, s') && WillSee(s, t, k)
    ensures Inv(s') && WillSee(s', t, k)
    decreases |acts|
  {
    hide Enabled, Apply, Inv, WillSee;
    if acts != [] {
      StepInv(s, acts[0]);
      SeesStep(s, acts[0], t, k);
      SeenAtTheEnd(Apply(s, acts[0]), acts[1..], s', t, k);
    }
  }

  // ------------------------------------------------------------- the way to the end

  /** The scheduler is stopping and task `k` is queued. */
  ghost predicate Going(s: State, k: nat) {
    Inv(s) && s.c.stopping && k in s.q.tasks
  }

  /** Thread `t` may leave when it finds nothing: it is no member main thread that others
      keep waiting. */
  predicate MayLeave(s: State, t: nat) { t in s.thr && (t != s.c.main || s.c.cnt == 0) }

  function Rank(pc: Pc): nat {
    match pc
    case Idle => 5
    case Got(_) => 4
    case Run(_) => 3
    case Loop => 2
    case Decide => 1
    case Exited => 0
  }

  /** The next action on the way of thread `t` to its end. */
  ghost predicate Onward(s: State, t: nat, a: Action, s': State) {
    && Enabled(s, a) && s' == Apply(s, a) && t in s'.thr
    && s'.thr == s.thr[t := s'.thr[t]] && s'.c.main == s.c.main && s'.c.stopping
    && (s'.thr[t] != Exited ==> s'.c == s.c)
    && |s'.q.tasks| <= |s.q.tasks| && |s'.batch| <= |s.batch|
    && (|s'.q.tasks| < |s.q.tasks| || |s'.batch| < |s.batch| || Rank(s'.thr[t]) < Rank(s.thr[t]))
  }

  lemma {:induction false} LeastRunnable(q: Queue, t: nat, n: nat) returns (found: Option<nat>)
    requires forall i :: i in q.tasks && Runnable(q.tasks[i], t) ==> i >= n
    requires forall i :: i in q.tasks ==> i < q.next
    ensures Finds(q, t, found)
    decreases q.next - n
  {
    if n in q.tasks && Runnable(q.tasks[n], t) {
      found := Some(n);
    } else if n >= q.next {
      found := None;
    } else {
      found := LeastRunnable(q, t, n + 1);
    }
  }

  lemma TaskTaken(q: Queue, i: nat)
    requires i in q.tasks
    ensures |q.tasks - {i}| == |q.tasks| - 1
  {
    assert (q.tasks - {i}).Keys == q.tasks.Keys - {i};
  }

  lemma TasksBelow(s: State)
    requires Inv(s)
    ensures forall i :: i in s.q.tasks ==> i < s.q.next
  {
    hide TokenInv, Drained, Counted, Balanced, Consumptions;
  }

  lemma FromLoop(s: State, t: nat, k: nat) returns (a: Action, s': State)
    requires Going(s, k) && At(s, t, Loop) && !Runnable(s.q.tasks[k], t)
    ensures Onward(s, t, a, s') && k in s'.q.tasks
    ensures s'.q.tasks[k] == s.q.tasks[k]
  {
    hide Inv, Runnable, Apply, Enabled, Onward, Finds;
    TasksBelow(s);
    var found := LeastRunnable(s.q, t, 0);
    if found.Some? {
      a, s' := TakeFound(s, t, k, found.value);
    } else {
      a, s' := TakeNone(s, t);
    }
  }

  lemma TakeFound(s: State, t: nat, k: nat, i: nat) returns (a: Action, s': State)
    requires s.c.stopping && At(s, t, Loop) && Finds(s.q, t, Some(i)) && k in s.q.tasks && !Runnable(s.q.tasks[k], t)
    ensures Onward(s, t, a, s') && k in s'.q.tasks && s'.q.tasks[k] == s.q.tasks[k]
  {
    hide Runnable;
    a := Scan(t, Some(i));
    TaskTaken(s.q, i);
    s' := Apply(s, a);
  }

  lemma TakeNone(s: State, t: nat) returns (a: Action, s': State)
    requires s.c.stopping && At(s, t, Loop) && Finds(s.q, t, None)
    ensures Onward(s, t, a, s') && s'.q.tasks == s.q.tasks
  {
    hide Finds;
    a := Scan(t, None);
    s' := Apply(s, a);
  }

  lemma FromGot(s: State, t: nat, k: nat) returns (a: Action, s': State)
    requires Going(s, k) && IsGot(s, t)
    ensures Onward(s, t, a, s') && s'.q.tasks == s.q.tasks
  {
    hide Drained, Counted, Balanced, Consumptions, Conserved;
    if s.thr[t].task.Wake? {
      a := Resume(t);
      DequeuedIsResumable(s, t);
    } else {
      a := RunSleepCb(t, false);
    }
    s' := Apply(s, a);
  }

  lemma FromRun(s: State, t: nat, k: nat) returns (a: Action, s': State)
    requires Going(s, k) && IsRun(s, t)
    ensures Onward(s, t, a, s') && s'.q.tasks == s.q.tasks
  {
    hide Drained, Counted, Balanced, Consumptions, Conserved;
    a := if s.cos[s.thr[t].co].state == Running(t) then Finish(t) else Yield(t);
    s' := Apply(s, a);
  }

  lemma FromIdle(s: State, t: nat, k: nat) returns (a: Action, s': State)
    requires Going(s, k) && At(s, t, Idle)
    ensures Onward(s, t, a, s') && s'.q.tasks == s.q.tasks
  {
    hide Inv, Apply, Enabled, Onward;
    if NoBatch(s, t) {
      a, s' := YieldIdle(s, t);
    } else {
      var i :| i in s.batch && s.batch[i].owner == t;
      a, s' := DropBatched(s, t, i);
    }
  }

  lemma YieldIdle(s: State, t: nat) returns (a: Action, s': State)
    requires s.c.stopping && At(s, t, Idle) && NoBatch(s, t)
    ensures Onward(s, t, a, s') && s'.q.tasks == s.q.tasks
  {
    a := IdleYield(t);
    s' := Apply(s, a);
  }

  /** `schedules` refuses once the stop flag is set. */
  lemma DropBatched(s: State, t: nat, i: nat) returns (a: Action, s': State)
    requires s.c.stopping && At(s, t, Idle) && i in s.batch && s.batch[i].owner == t
    ensures Onward(s, t, a, s') && s'.q.tasks == s.q.tasks
  {
    a := Publish(t, i, false);
    s' := Apply(s, a);
    assert (s.batch - {i}).Keys == s.batch.Keys - {i};
  }

  lemma FromDecide(s: State, t: nat) returns (a: Action, s': State)
    requires s.c.stopping && At(s, t, Decide) && MayLeave(s, t)
    ensures Onward(s, t, a, s') && s'.q.tasks == s.q.tasks && At(s', t, Exited)
  {
    a := Branch(t, false);
    s' := Apply(s, a);
  }

  lemma GoOn(s: State, t: nat, k: nat) returns (a: Action, s': State)
    requires Going(s, k) && MayLeave(s, t) && s.thr[t] != Exited && !Runnable(s.q.tasks[k], t)
    ensures Onward(s, t, a, s') && k in s'.q.tasks && s'.q.tasks[k] == s.q.tasks[k]
  {
    hide Inv, Onward, Apply, Enabled;
    match s.thr[t]
    case Loop => a, s' := FromLoop(s, t, k);
    case Got(_) => a, s' := FromGot(s, t, k);
    case Run(_) => a, s' := FromRun(s, t, k);
    case Decide => a, s' := FromDecide(s, t);
    case Idle => a, s' := FromIdle(s, t, k);
  }

  /** A thread that may not run task `k` is driven to its end: it runs what it finds to the
      end or parks it, pushes nothing, and leaves. No other thread moves. */
  lemma {:induction false} DriveOut(s: State, t: nat, k: nat) returns (acts: seq<Action>, s': State)
    requires Going(s, k) && t in s.thr && (s.thr[t] == Exited || MayLeave(s, t)) && !Runnable(s.q.tasks[k], t)
    ensures Leads(s, acts, s') && Going(s', k) && s'.thr == s.thr[t := Exited] && s'.c.main == s.c.main
    ensures s'.q.tasks[k] == s.q.tasks[k]
    decreases |s.q.tasks| + |s.batch|, Rank(s.thr[t])
  {
    hide Inv, Apply, Enabled, Runnable, Leads;
    if s.thr[t] == Exited {
      acts, s' := [], s;
      NoSteps(s);
    } else {
      var a, s1 := GoOn(s, t, k);
      StepInv(s, a);
      var more: seq<Action>;
      more, s' := DriveOut(s1, t, k);
      acts := [a] + more;
      Lead(s, a, more, s');
    }
  }

  /** Every thread that may run task `k` has found nothing, or has left. */
  ghost predicate AllFound(s: State, k: nat)
    requires k in s.q.tasks
  {
    forall t :: t in s.thr && Runnable(s.q.tasks[k], t) ==> Found(s.thr[t])
  }

  /** One thread leaves: at once if it may run the task, else after its own work. */
  lemma LeaveOne(s: State, t: nat, k: nat) returns (acts: seq<Action>, s': State)
    requires Going(s, k) && AllFound(s, k) && MayLeave(s, t) && s.thr[t] != Exited
    ensures Leads(s, acts, s') && Going(s', k) && AllFound(s', k) && s'.thr == s.thr[t := Exited]
            && s'.c.main == s.c.main
  {
    hide Inv, Apply, Enabled, Runnable, Leads;
    if Runnable(s.q.tasks[k], t) {
      var a: Action;
      a, s' := FromDecide(s, t);
      StepInv(s, a);
      NoSteps(s');
      Lead(s, a, [], s');
      acts := [a] + [];
    } else {
      acts, s' := DriveOut(s, t, k);
    }
  }

  lemma WorkersLess(s: State, s': State, t: nat)
    requires t in LiveWorkers(s) && s'.thr == s.thr[t := Exited] && s'.c.main == s.c.main
    ensures LiveWorkers(s') == LiveWorkers(s) - {t}
  {
  }

  lemma {:induction false} LeaveWorkers(s: State, k: nat) returns (acts: seq<Action>, s': State)
    requires Going(s, k) && AllFound(s, k)
    ensures Leads(s, acts, s') && Going(s', k) && AllFound(s', k) && LiveWorkers(s') == {}
    decreases |LiveWorkers(s)|
  {
    hide Inv, Leads, Runnable, Found, AllFound;
    if LiveWorkers(s) == {} {
      acts, s' := [], s;
      NoSteps(s);
    } else {
      var t :| t in LiveWorkers(s);
      var first, s1 := LeaveOne(s, t, k);
      WorkersLess(s, s1, t);
      var more: seq<Action>;
      more, s' := LeaveWorkers(s1, k);
      LeadsOn(s, first, s1, more, s');
      acts := first + more;
    }
  }

  lemma CountZero(s: State)
    requires Inv(s) && LiveWorkers(s) == {} && !At(s, s.c.main, Exited)
    ensures s.c.cnt == 0
  {
    hide TokenInv, Conserved, Drained, Balanced, Consumptions;
  }

  /** With the workers gone the main thread, if it is a member, leaves too. */
  lemma LeaveMain(s: State, k: nat) returns (acts: seq<Action>, s': State)
    requires Going(s, k) && AllFound(s, k) && LiveWorkers(s) == {}
    ensures Leads(s, acts, s') && AllExited(s') && k in s'.q.tasks
  {
    hide Inv, Leads, Runnable, Found, AllFound;
    var m := s.c.main;
    if m in s.thr && s.thr[m] != Exited {
      CountZero(s);
      acts, s' := LeaveOne(s, m, k);
    } else {
      acts, s' := [], s;
      NoSteps(s);
    }
    forall t | t in s'.thr
      ensures s'.thr[t].Exited?
    {
      assert t !in LiveWorkers(s);
    }
  }

  /** Stop, let the workers leave, then the main thread. */
  lemma LeaveAll(s: State, k: nat) returns (acts: seq<Action>, s': State)
    requires Inv(s) && k in s.q.tasks && AllFound(s, k)
    ensures Leads(s, acts, s') && AllExited(s') && k in s'.q.tasks
  {
    hide Inv, Leads, Runnable, Found;
    StepInv(s, Stop);
    var s1 := Apply(s, Stop);
    var first, s2 := LeaveWorkers(s1, k);
    var more: seq<Action>;
    more, s' := LeaveMain(s2, k);
    LeadsOn(s1, first, s2, more, s');
    acts := [Stop] + (first + more);
    Lead(s, Stop, first + more, s');
  }

  // ------------------------------------------------------------------- the theorem

  /** The run goes on to an end in which all threads have left and task `k` is queued. */
  ghost predicate LeavesBehind(s: State, k: nat, acts: seq<Action>, s': State) {
    Leads(s, acts, s') && AllExited(s') && k in s'.q.tasks
  }

  /** If some thread that may run the task is to search again, no end leaves it behind. */
  lemma NotLeftBehind(s: State, k: nat, t: nat, acts: seq<Action>, s': State)
    requires Inv(s) && k in s.q.tasks && t in s.thr && Runnable(s.q.tasks[k], t) && !Found(s.thr[t])
    ensures !LeavesBehind(s, k, acts, s')
  {
    if LeavesBehind(s, k, acts, s') {
      SeesAtFirst(s, k, t);
      SeenAtTheEnd(s, acts, s', t, k);
      SameTask(s, acts, s', k);
      StillQueued(s', k, t);
    }
  }

  lemma SeesAtFirst(s: State, k: nat, t: nat)
    requires Inv(s) && k in s.q.tasks && t in s.thr && !Found(s.thr[t])
    ensures WillSee(s, t, k)
  {
    hide TokenInv, Counted, Balanced, Consumptions;
  }

  lemma StillQueued(s: State, k: nat, t: nat)
    requires Inv(s) && k in s.q.tasks && t in s.thr && Runnable(s.q.tasks[k], t) && Found(s.thr[t])
    ensures t in s.q.lastScan && s.q.lastScan[t] <= k
  {
    hide TokenInv, Conserved, Counted, Balanced, Consumptions, Runnable, Found;
  }

  /** A task number keeps its task. */
  lemma {:induction false} SameTask(s: State, acts: seq<Action>, s': State, k: nat)
    requires Inv(s) && Leads(s, acts, s') && k in s.q.accepted
    ensures Inv(s') && k in s'.q.accepted && s'.q.accepted[k] == s.q.accepted[k]
    ensures k in s'.q.tasks ==> s'.q.tasks[k] == s'.q.accepted[k]
    decreases |acts|
  {
    hide Inv, Apply, Enabled;
    AcceptedTask(s, k);
    if acts != [] {
      StepInv(s, acts[0]);
      AcceptedStep(s, acts[0], k);
      SameTask(Apply(s, acts[0]), acts[1..], s', k);
    }
  }

  lemma AcceptedTask(s: State, k: nat)
    requires Inv(s)
    ensures k in s.q.tasks ==> k in s.q.accepted && s.q.tasks[k] == s.q.accepted[k]
    ensures s.q.next !in s.q.accepted
  {
    hide TokenInv, Drained, Counted, Balanced, Consumptions;
  }

  lemma AcceptedStep(s: State, a: Action, k: nat)
    requires Inv(s) && Enabled(s, a) && k in s.q.accepted
    ensures k in Apply(s, a).q.accepted && Apply(s, a).q.accepted[k] == s.q.accepted[k]
  {
    hide Inv, Runnable;
    AcceptedTask(s, k);
    if !a.Scan? {
      OnlyScanTakes(s, a);
    }
  }

  /** From the state in which a task has just been accepted, or any later one in which it
      is queued: some continuation ends with all threads gone and the task behind, if and
      only if every thread that may run it has found nothing to run and not yet acted on
      that, or has left. */
  lemma LeftBehindIff(ss: seq<State>, acts: seq<Action>, i: nat, k: nat)
    requires IsBehavior(ss, acts) && i < |ss| && k in ss[i].q.tasks
    ensures (exists more, s' :: LeavesBehind(ss[i], k, more, s')) <==>
            forall t :: t in ss[i].thr && Runnable(ss[i].q.tasks[k], t) ==> Found(ss[i].thr[t])
  {
    hide IsBehavior, Inv, Leads, Runnable, Found;
    var s := ss[i];
    RunInv(ss, acts, i);
    if AllFound(s, k) {
      var more, s' := LeaveAll(s, k);
      assert LeavesBehind(s, k, more, s');
    } else {
      var t :| t in s.thr && Runnable(s.q.tasks[k], t) && !Found(s.thr[t]);
      forall more, s'
        ensures !LeavesBehind(s, k, more, s')
      {
        NotLeftBehind(s, k, t, more, s');
      }
    }
  }
}
