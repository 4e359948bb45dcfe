/** That what the park/wake protocol guards against does happen in it: a run in which a
    wake-up is queued by another thread before its coroutine has yielded, by an event and
    by a timer, and in which all threads leave in the end. */
module EarlyWakeups {
  import opened Wrappers
  import opened IoEvents
  import opened ParkWake
  import opened Draining

  const KEY := Key(4, Dir.Read)

  /** Two worker threads and coroutine 7, with no event, timer or batch. */
  predicate Looks(s: State, p1: Pc, p2: Pc, co: CoState, tasks: map<nat, Task>) {
    && s.thr == map[1 := p1, 2 := p2] && 7 in s.cos && s.cos[7].state == co && s.q.tasks == tasks
    && s.events == map[] && s.timers == map[] && s.batch == map[] && s.c.main == 3
  }

  const START := State(map[], map[], map[], Queue(map[], 0, map[], [], map[1 := 0, 2 := 0]), map[],
                       map[1 := Loop, 2 := Loop], Control(3, false, 2, {}))

  lemma StartIsStart()
    ensures Start(START)
  {
    assert START.thr.Keys - {3} == {1, 2};
  }

  /** The steps one after another. */
  lemma Two(s: State, a: Action, b: Action) returns (s': State)
    requires Enabled(s, a) && Enabled(Apply(s, a), b)
    ensures s' == Apply(Apply(s, a), b) && Leads(s, [a, b], s')
  {
    s' := Apply(Apply(s, a), b);
    NoSteps(s');
    Lead(Apply(s, a), b, [], s');
    Lead(s, a, [b] + [], s');
    assert [a] + ([b] + []) == [a, b];
  }

  /** The only task is found by a thread that may run it. */
  lemma FindsOnly(q: Queue, t: nat, n: nat, task: Task)
    requires q.tasks == map[n := task] && Runnable(task, t)
    ensures Finds(q, t, Some(n)) && q.tasks - {n} == map[]
  {
  }

  lemma FindsNone(q: Queue, t: nat)
    requires q.tasks == map[]
    ensures Finds(q, t, None)
  {
  }

  // ------------------------------------------------------------------- the stretches

  /** Thread 2 goes idle. */
  lemma GoIdle(s: State, p1: Pc, co: CoState) returns (s': State)
    requires Looks(s, p1, Loop, co, map[]) && !s.c.stopping
    ensures Leads(s, [Scan(2, None), Branch(2, false)], s')
    ensures Looks(s', p1, Idle, co, map[]) && s'.c == s.c && s'.q.next == s.q.next
  {
    FindsNone(s.q, 2);
    s' := Two(s, Scan(2, None), Branch(2, false));
  }

  /** Thread 1 takes the coroutine's wake-up and resumes it. */
  lemma Pick(s: State, p2: Pc, co: CoState, n: nat, pin: nat) returns (s': State)
    requires Looks(s, Loop, p2, co, map[n := Wake(7, pin)]) && (co == Init || co == Yielded) && (pin == 0 || pin == 1)
    ensures Leads(s, [Scan(1, Some(n)), Resume(1)], s')
    ensures Looks(s', Run(7), p2, Running(1), map[]) && s'.c == s.c && s'.q.next == s.q.next
  {
    FindsOnly(s.q, 1, n, Wake(7, pin));
    s' := Two(s, Scan(1, Some(n)), Resume(1));
  }

  /** The coroutine registers an event, and thread 2 dispatches it before the yield. */
  lemma EventFirst(s: State) returns (s': State)
    requires Looks(s, Run(7), Idle, Running(1), map[]) && !s.c.stopping
    ensures Leads(s, [ArmEvent(1, KEY), Consume(2, KEY, 0, true)], s')
    ensures Looks(s', Run(7), Idle, Parking(1), map[s.q.next := Wake(7, 1)])
    ensures s'.c == s.c && s'.q.next == s.q.next + 1
  {
    s' := Two(s, ArmEvent(1, KEY), Consume(2, KEY, 0, true));
    assert s'.events == map[];
  }

  lemma ThenYield(s: State, p2: Pc, tasks: map<nat, Task>) returns (s': State)
    requires Looks(s, Run(7), p2, Parking(1), tasks)
    ensures Leads(s, [Yield(1)] + [], s')
    ensures Looks(s', Loop, p2, Yielded, tasks) && s'.c == s.c && s'.q.next == s.q.next
  {
    s' := Apply(s, Yield(1));
    NoSteps(s');
    Lead(s, Yield(1), [], s');
  }

  /** It sleeps; thread 2 takes the expired timer out before the yield. */
  lemma TimerFirst(s: State) returns (s': State)
    requires Looks(s, Run(7), Idle, Running(1), map[])
    ensures Leads(s, [ArmSleep(1, 5), Expire(2, 5)], s')
    ensures s'.batch == map[5 := Batched(Sleep(7, 1), 2)] && s'.c == s.c && s'.q.next == s.q.next
    ensures Looks(s'.(batch := map[]), Run(7), Idle, Parking(1), map[])
  {
    s' := Two(s, ArmSleep(1, 5), Expire(2, 5));
    assert s'.timers == map[];
  }

  /** Thread 2 schedules the callback and ends its idle round. */
  lemma ThenPublish(s: State) returns (s': State)
    requires s.batch == map[5 := Batched(Sleep(7, 1), 2)] && !s.c.stopping
    requires Looks(s.(batch := map[]), Run(7), Idle, Parking(1), map[])
    ensures Leads(s, [Publish(2, 5, true), IdleYield(2)], s')
    ensures Looks(s', Run(7), Loop, Parking(1), map[s.q.next := SleepCb(7, 1)])
    ensures s'.c == s.c && s'.q.next == s.q.next + 1
  {
    var s1 := Apply(s, Publish(2, 5, true));
    assert s1.batch == map[];
    s' := Two(s, Publish(2, 5, true), IdleYield(2));
  }

  /** And runs it: the wake-up is queued for thread 1. */
  lemma ThenCallback(s: State, n: nat) returns (s': State)
    requires Looks(s, Loop, Loop, Yielded, map[n := SleepCb(7, 1)]) && !s.c.stopping
    ensures Leads(s, [Scan(2, Some(n)), RunSleepCb(2, true)], s')
    ensures Looks(s', Loop, Loop, Yielded, map[s.q.next := Wake(7, 1)]) && s'.c == s.c && s'.q.next == s.q.next + 1
  {
    FindsOnly(s.q, 2, n, SleepCb(7, 1));
    s' := Two(s, Scan(2, Some(n)), RunSleepCb(2, true));
  }

  /** After stop the idle coroutine of thread 2 ends, though thread 1 is still there. */
  lemma ThenStop(s: State) returns (s': State)
    requires Looks(s, Run(7), Idle, Running(1), map[])
    ensures Leads(s, [Stop, IdleEnd(2)], s')
    ensures Looks(s', Run(7), Loop, Running(1), map[]) && s'.c.stopping && s'.c.cnt == s.c.cnt && 2 in s'.c.idleDone
  {
    s' := Two(s, Stop, IdleEnd(2));
  }

  lemma LeaveTwo(s: State) returns (s': State)
    requires Looks(s, Run(7), Loop, Running(1), map[]) && s.c.stopping
    ensures Leads(s, [Scan(2, None), Branch(2, false)], s')
    ensures Looks(s', Run(7), Exited, Running(1), map[]) && s'.c.stopping
  {
    FindsNone(s.q, 2);
    s' := Two(s, Scan(2, None), Branch(2, false));
  }

  lemma LeaveOne(s: State) returns (s': State)
    requires Looks(s, Loop, Exited, Done, map[]) && s.c.stopping
    ensures Leads(s, [Scan(1, None), Branch(1, false)], s') && Looks(s', Exited, Exited, Done, map[])
  {
    FindsNone(s.q, 1);
    s' := Two(s, Scan(1, None), Branch(1, false));
  }

  // -------------------------------------------------------------------- the whole run

  lemma Beginning() returns (acts: seq<Action>, s: State)
    ensures Leads(START, acts, s) && Looks(s, Run(7), Idle, Running(1), map[]) && !s.c.stopping
  {
    hide Leads, Enabled, Apply, Looks;
    var s1 := Spawned();
    var s2 := Pick(s1, Loop, Init, 0, 1);
    s := GoIdle(s2, Run(7), Running(1));
    LeadsOn(START, [Spawn(7, 1, true)] + [], s1, [Scan(1, Some(0)), Resume(1)], s2);
    acts := ([Spawn(7, 1, true)] + []) + [Scan(1, Some(0)), Resume(1)];
    LeadsOn(START, acts, s2, [Scan(2, None), Branch(2, false)], s);
    acts := acts + [Scan(2, None), Branch(2, false)];
  }

  lemma Spawned() returns (s: State)
    ensures Leads(START, [Spawn(7, 1, true)] + [], s)
    ensures Looks(s, Loop, Loop, Init, map[0 := Wake(7, 1)]) && !s.c.stopping
  {
    s := Apply(START, Spawn(7, 1, true));
    NoSteps(s);
    Lead(START, Spawn(7, 1, true), [], s);
  }

  /** Registered, dispatched by another thread, and only then yielded: and resumed. */
  lemma WokenByEvent(s: State) returns (acts: seq<Action>, s': State)
    requires Looks(s, Run(7), Idle, Running(1), map[]) && !s.c.stopping
    ensures acts == [ArmEvent(1, KEY), Consume(2, KEY, 0, true)] + ([Yield(1)] + [])
                    + [Scan(1, Some(s.q.next)), Resume(1)]
    ensures Leads(s, acts, s') && Looks(s', Run(7), Idle, Running(1), map[]) && !s'.c.stopping
  {
    hide Leads, Enabled, Apply, Looks;
    var n := s.q.next;
    var s1 := EventFirst(s);
    var s2 := ThenYield(s1, Idle, map[n := Wake(7, 1)]);
    s' := Pick(s2, Idle, Yielded, n, 1);
    acts := [ArmEvent(1, KEY), Consume(2, KEY, 0, true)] + ([Yield(1)] + []);
    LeadsOn(s, [ArmEvent(1, KEY), Consume(2, KEY, 0, true)], s1, [Yield(1)] + [], s2);
    LeadsOn(s, acts, s2, [Scan(1, Some(n)), Resume(1)], s');
    acts := acts + [Scan(1, Some(n)), Resume(1)];
  }

  /** Asleep, expired and scheduled by another thread, and only then yielded: and resumed. */
  lemma WokenByTimer(s: State) returns (acts: seq<Action>, s': State)
    requires Looks(s, Run(7), Idle, Running(1), map[]) && !s.c.stopping
    ensures [ArmSleep(1, 5), Expire(2, 5)] + [Publish(2, 5, true), IdleYield(2)] + ([Yield(1)] + []) <= acts
    ensures Leads(s, acts, s') && Looks(s', Run(7), Idle, Running(1), map[]) && !s'.c.stopping
  {
    hide Leads, Enabled, Apply, Looks;
    var n := s.q.next;
    var s1 := TimerFirst(s);
    var s2 := ThenPublish(s1);
    LeadsOn(s, [ArmSleep(1, 5), Expire(2, 5)], s1, [Publish(2, 5, true), IdleYield(2)], s2);
    acts := [ArmSleep(1, 5), Expire(2, 5)] + [Publish(2, 5, true), IdleYield(2)];
    var s3 := ThenYield(s2, Loop, map[n := SleepCb(7, 1)]);
    LeadsOn(s, acts, s2, [Yield(1)] + [], s3);
    acts := acts + ([Yield(1)] + []);
    var s4 := ThenCallback(s3, n);
    LeadsOn(s, acts, s3, [Scan(2, Some(n)), RunSleepCb(2, true)], s4);
    acts := acts + [Scan(2, Some(n)), RunSleepCb(2, true)];
    var s5 := Pick(s4, Loop, Yielded, n + 1, 1);
    LeadsOn(s, acts, s4, [Scan(1, Some(n + 1)), Resume(1)], s5);
    acts := acts + [Scan(1, Some(n + 1)), Resume(1)];
    s' := GoIdle(s5, Run(7), Running(1));
    LeadsOn(s, acts, s5, [Scan(2, None), Branch(2, false)], s');
    acts := acts + [Scan(2, None), Branch(2, false)];
  }

  lemma Ending(s: State) returns (acts: seq<Action>, s': State)
    requires Looks(s, Run(7), Idle, Running(1), map[])
    ensures Leads(s, acts, s') && AllExited(s') && s'.q.tasks == map[] && IdleEnd(2) in acts
  {
    hide Leads, Enabled, Apply, Looks;
    var s1 := ThenStop(s);
    var s2 := LeaveTwo(s1);
    LeadsOn(s, [Stop, IdleEnd(2)], s1, [Scan(2, None), Branch(2, false)], s2);
    acts := [Stop, IdleEnd(2)] + [Scan(2, None), Branch(2, false)];
    assert acts[1] == IdleEnd(2);
    var s3 := Finished(s2);
    LeadsOn(s, acts, s2, [Finish(1)] + [], s3);
    acts := acts + ([Finish(1)] + []);
    assert acts[1] == IdleEnd(2);
    s' := LeaveOne(s3);
    LeadsOn(s, acts, s3, [Scan(1, None), Branch(1, false)], s');
    acts := acts + [Scan(1, None), Branch(1, false)];
    assert acts[1] == IdleEnd(2);
    BothGone(s');
  }

  lemma Finished(s: State) returns (s': State)
    requires Looks(s, Run(7), Exited, Running(1), map[]) && s.c.stopping
    ensures Leads(s, [Finish(1)] + [], s') && Looks(s', Loop, Exited, Done, map[]) && s'.c.stopping
  {
    s' := Apply(s, Finish(1));
    NoSteps(s');
    Lead(s, Finish(1), [], s');
  }

  lemma BothGone(s: State)
    requires Looks(s, Exited, Exited, Done, map[])
    ensures AllExited(s) && s.q.tasks == map[]
  {
  }

  /** A run from the start: the wake-up comes before the yield, once by an event and once by
      a timer, each time the coroutine goes on, and in the end nothing is left. */
  lemma EarlyWakeupsHappen() returns (first: seq<Action>, event: seq<Action>, timer: seq<Action>, last: seq<Action>,
                                      s1: State, s2: State, s3: State, s4: State)
    ensures Start(START) && Leads(START, first, s1) && Leads(s1, event, s2)
    ensures Leads(s2, timer, s3) && Leads(s3, last, s4)
    ensures event == [ArmEvent(1, KEY), Consume(2, KEY, 0, true)] + ([Yield(1)] + [])
                     + [Scan(1, Some(s1.q.next)), Resume(1)]
    ensures [ArmSleep(1, 5), Expire(2, 5)] + [Publish(2, 5, true), IdleYield(2)] + ([Yield(1)] + []) <= timer
    ensures At(s1, 1, Run(7)) && At(s2, 1, Run(7)) && At(s3, 1, Run(7)) && AllExited(s4) && s4.q.tasks == map[]
    ensures IdleEnd(2) in last
  {
    hide Leads, Enabled, Apply;
    StartIsStart();
    first, s1 := Beginning();
    event, s2 := WokenByEvent(s1);
    timer, s3 := WokenByTimer(s2);
    last, s4 := Ending(s3);
  }
}
