/** The park/wake protocol: `Coroutine`, `Scheduler`, `IOManager` and the hooked
    system calls as one transition system over any number of threads.

    A coroutine arms one wake-up (an I/O event or a sleep timer) and then yields.
    The wake-up can be queued by another thread before the yield happens.  What
    makes this safe is that it is pinned to the thread that still runs the
    coroutine.  One action below is one critical section of the source, or a part
    of one: a search of the timers that takes several out, or a call that schedules
    several, is a run of single steps. */
module ParkWake {
  import opened Wrappers
  import opened IoEvents

  /** `Coroutine::State`.  RUNNING carries the thread and is split in two:
      `Parking` is a RUNNING coroutine that has armed its wake-up and not yet
      yielded.  `Done` is TERMINAL or EXCEPT. */
  datatype CoState = Init | Running(on: nat) | Parking(on: nat) | Yielded | Done

  /** A queued task: resume a coroutine, on thread `pin` unless that is 0; or run
      the callback of an expired sleep timer, which schedules `co` on `tid`. */
  datatype Task = Wake(co: nat, pin: nat) | SleepCb(co: nat, tid: nat)

  datatype Sleep = Sleep(co: nat, tid: nat)

  /** A sleep timer that thread `owner` has taken out as expired and not yet scheduled. */
  datatype Batched = Batched(sleep: Sleep, owner: nat)

  /** Where a thread is inside `run`. */
  datatype Pc =
    | Loop              // about to search the queue under the mutex
    | Got(task: Task)   // has dequeued a task, has not looked at its state
    | Run(co: nat)      // a user coroutine is executing
    | Decide            // found nothing to run, has not looked at the stop flag
    | Idle              // the idle coroutine is executing
    | Exited

  datatype Dequeue = Dequeue(id: nat, t: nat)

  /** The list `m_tasks`: tasks get increasing numbers as they are pushed at the
      back, so list order is number order.  The rest is history: every task ever
      accepted, every dequeue, and per thread how many tasks had been accepted
      when it last searched. */
  datatype Queue = Queue(
    tasks: map<nat, Task>,
    next: nat,
    accepted: map<nat, Task>,
    log: seq<Dequeue>,
    lastScan: map<nat, nat>)

  /** A coroutine, with the thread it last ran on or, before it has run, the one it was
      scheduled for (0 for any); and how often so far it has registered a wake-up, a
      registration of it was consumed, and it was woken. */
  datatype Co = Co(state: CoState, home: nat, arms: nat, consumed: nat, wakes: nat)

  /** `m_main_thread_id`, `m_is_stopping`, `m_thread_cnt`, and the threads whose
      idle coroutine has terminated. */
  datatype Control = Control(main: nat, stopping: bool, cnt: int, idleDone: set<nat>)

  datatype State = State(
    events: map<Key, Cont>,
    timers: map<nat, Sleep>,
    batch: map<nat, Batched>,
    q: Queue,
    cos: map<nat, Co>,
    thr: map<nat, Pc>,
    c: Control)

  predicate Runnable(task: Task, t: nat) {
    task.SleepCb? || task.pin == 0 || task.pin == t
  }

  // ---------------------------------------------------------------- actions

  datatype Action =
    | Scan(t: nat, found: Option<nat>)
    | Resume(t: nat)
    | RunSleepCb(t: nat, accept: bool)
    | Branch(t: nat, again: bool)
    | Spawn(co: nat, pin: nat, accept: bool)
    | ArmEvent(t: nat, key: Key)
    | ArmCallback(key: Key, cb: nat)
    | ArmSleep(t: nat, timer: nat)
    | Yield(t: nat)
    | Finish(t: nat)
    | Consume(t: nat, key: Key, newCo: nat, accept: bool)
    | Expire(t: nat, timer: nat)
    | Publish(t: nat, timer: nat, accept: bool)
    | IdleYield(t: nat)
    | IdleEnd(t: nat)
    | Stop

  /** `schedule` refuses a task once the stop flag is seen.  The flag is tested
      before the mutex is taken, so a call that straddles `stop` may still push:
      while stopping, either outcome is possible. */
  predicate MayAccept(s: State, accept: bool) {
    !s.c.stopping ==> accept
  }

  predicate At(s: State, t: nat, pc: Pc) {
    t in s.thr && s.thr[t] == pc
  }

  predicate IsRun(s: State, t: nat) {
    t in s.thr && s.thr[t].Run?
  }

  predicate IsGot(s: State, t: nat) {
    t in s.thr && s.thr[t].Got?
  }

  predicate InState(s: State, co: nat, c: CoState) {
    co in s.cos && s.cos[co].state == c
  }

  /** The local list of expired timers of thread `t` is empty. */
  ghost predicate NoBatch(s: State, t: nat) {
    forall i :: i in s.batch ==> s.batch[i].owner != t
  }

  predicate Busy(s: State, t: nat) {
    IsRun(s, t) && InState(s, s.thr[t].co, Running(t))
  }

  /** What a search by `t` under the mutex finds: the first task it may run. */
  ghost predicate Finds(q: Queue, t: nat, found: Option<nat>) {
    match found
    case None => forall i :: i in q.tasks ==> !Runnable(q.tasks[i], t)
    case Some(i) =>
      && i in q.tasks && Runnable(q.tasks[i], t)
      && forall j :: j in q.tasks && Runnable(q.tasks[j], t) ==> i <= j
  }

  ghost predicate Enabled(s: State, a: Action) {
    match a
    case Scan(t, found) => At(s, t, Loop) && Finds(s.q, t, found)
    case Resume(t) => IsGot(s, t) && s.thr[t].task.Wake? && s.thr[t].task.co in s.cos
    case RunSleepCb(t, accept) => IsGot(s, t) && s.thr[t].task.SleepCb? && MayAccept(s, accept)
    case Branch(t, again) => At(s, t, Decide)
    case Spawn(co, pin, accept) => co !in s.cos && MayAccept(s, accept)
    case ArmEvent(t, key) => Busy(s, t) && key !in s.events
    case ArmCallback(key, cb) => key !in s.events
    case ArmSleep(t, timer) => Busy(s, t) && timer !in s.timers && timer !in s.batch
    case Yield(t) => IsRun(s, t) && InState(s, s.thr[t].co, Parking(t))
    case Finish(t) => Busy(s, t)
    case Consume(t, key, newCo, accept) =>
      && key in s.events && MayAccept(s, accept) && (At(s, t, Idle) || Busy(s, t))
      && (s.events[key].CbCont? ==> newCo !in s.cos)
    case Expire(t, timer) => At(s, t, Idle) && timer in s.timers && timer !in s.batch
    case Publish(t, timer, accept) => At(s, t, Idle) && timer in s.batch && s.batch[timer].owner == t
      && MayAccept(s, accept)
    case IdleYield(t) => At(s, t, Idle) && NoBatch(s, t)
    case IdleEnd(t) => At(s, t, Idle) && NoBatch(s, t) && s.c.stopping && (t != s.c.main || s.c.cnt == 0)
    case Stop => true
  }

  /** The push of `schedule`. */
  function Push(q: Queue, task: Task, accept: bool): Queue {
    if !accept then q
    else q.(tasks := q.tasks[q.next := task], accepted := q.accepted[q.next := task], next := q.next + 1)
  }

  function Take(q: Queue, t: nat, found: Option<nat>): Queue {
    match found
    case None => q.(lastScan := q.lastScan[t := q.next])
    case Some(i) => q.(tasks := q.tasks - {i}, log := q.log + [Dequeue(i, t)], lastScan := q.lastScan[t := q.next])
  }

  function SpawnCo(s: State, co: nat, pin: nat, accept: bool): State {
    if !accept then s
    else s.(cos := s.cos[co := Co(Init, pin, 0, 0, 0)], q := Push(s.q, Wake(co, pin), true))
  }

  /** The body of `run` after a dequeue: resume what is INIT or YIELD, discard
      anything else. */
  function ResumeCo(s: State, t: nat, co: nat): State
    requires co in s.cos
  {
    var c := s.cos[co];
    if c.state.Init? || c.state.Yielded? then
      s.(cos := s.cos[co := Co(Running(t), t, c.arms, c.consumed, if c.state.Yielded? then c.wakes + 1 else c.wakes)],
         thr := s.thr[t := Run(co)])
    else s.(thr := s.thr[t := Loop])
  }

  /** The test of the stop flag by a thread that found nothing to run. */
  function BranchPc(c: Control, t: nat, again: bool): Pc {
    if c.stopping then
      if t == c.main && c.cnt != 0 then Idle else Exited
    else if again then Loop else Idle
  }

  /** A thread that leaves `run` decrements the thread count. */
  function BranchTo(s: State, t: nat, again: bool): State {
    var pc := BranchPc(s.c, t, again);
    s.(thr := s.thr[t := pc], c := if pc == Exited then s.c.(cnt := s.c.cnt - 1) else s.c)
  }

  function SetCo(s: State, co: nat, st: CoState): map<nat, Co>
    requires co in s.cos
  {
    s.cos[co := s.cos[co].(state := st)]
  }

  function ArmCo(s: State, t: nat, co: nat): map<nat, Co>
    requires co in s.cos
  {
    s.cos[co := s.cos[co].(state := Parking(t), arms := s.cos[co].arms + 1)]
  }

  /** A registration of `co` has been consumed. */
  function CountConsumed(cos: map<nat, Co>, co: nat): map<nat, Co> {
    if co in cos then cos[co := cos[co].(consumed := cos[co].consumed + 1)] else cos
  }

  function ConsumeEvent(s: State, key: Key, newCo: nat, accept: bool): State
    requires key in s.events
  {
    var s1 := s.(events := s.events - {key});
    match s.events[key]
    case CoCont(co, tid) => s1.(q := Push(s.q, Wake(co, tid), accept), cos := CountConsumed(s.cos, co))
    case CbCont(cb) => SpawnCo(s1, newCo, 0, accept)
  }

  function Apply(s: State, a: Action): State
    requires Enabled(s, a)
  {
    match a
    case Scan(t, found) =>
      s.(q := Take(s.q, t, found), thr := s.thr[t := if found.None? then Decide else Got(s.q.tasks[found.value])])
    case Resume(t) => ResumeCo(s, t, s.thr[t].task.co)
    case RunSleepCb(t, accept) =>
      s.(thr := s.thr[t := Loop], q := Push(s.q, Wake(s.thr[t].task.co, s.thr[t].task.tid), accept))
    case Branch(t, again) => BranchTo(s, t, again)
    case Spawn(co, pin, accept) => SpawnCo(s, co, pin, accept)
    case ArmEvent(t, key) => s.(events := s.events[key := CoCont(s.thr[t].co, t)], cos := ArmCo(s, t, s.thr[t].co))
    case ArmCallback(key, cb) => s.(events := s.events[key := CbCont(cb)])
    case ArmSleep(t, timer) => s.(timers := s.timers[timer := Sleep(s.thr[t].co, t)], cos := ArmCo(s, t, s.thr[t].co))
    case Yield(t) => s.(cos := SetCo(s, s.thr[t].co, Yielded), thr := s.thr[t := Loop])
    case Finish(t) => s.(cos := SetCo(s, s.thr[t].co, Done), thr := s.thr[t := Loop])
    case Consume(t, key, newCo, accept) => ConsumeEvent(s, key, newCo, accept)
    case Expire(t, timer) =>
      s.(timers := s.timers - {timer}, batch := s.batch[timer := Batched(s.timers[timer], t)],
         cos := CountConsumed(s.cos, s.timers[timer].co))
    case Publish(t, timer, accept) =>
      s.(batch := s.batch - {timer}, q := Push(s.q, SleepCb(s.batch[timer].sleep.co, s.batch[timer].sleep.tid), accept))
    case IdleYield(t) => s.(thr := s.thr[t := Loop])
    case IdleEnd(t) => s.(thr := s.thr[t := Loop], c := s.c.(idleDone := s.c.idleDone + {t}))
    case Stop => s.(c := s.c.(stopping := true))
  }

  /** `start` as one step: every member thread is about to search an empty queue,
      and the count is the number of workers. */
  ghost predicate Start(s: State) {
    && s.events == map[] && s.timers == map[] && s.batch == map[] && s.cos == map[]
    && 0 !in s.thr && (forall t :: t in s.thr ==> s.thr[t] == Loop)
    && s.c == Control(s.c.main, false, |s.thr.Keys - {s.c.main}|, {})
    && s.q == Queue(map[], 0, map[], [], s.q.lastScan)
    && s.q.lastScan.Keys == s.thr.Keys && (forall t :: t in s.thr ==> s.q.lastScan[t] == 0)
  }

  // ----------------------------------------------------------------- tokens

  /** The places where the wake-up of a parked coroutine can be. */
  datatype Token = AtEvent(key: Key) | AtTimer(timer: nat) | AtBatch(timer: nat) | AtTask(id: nat) | AtThread(t: nat)

  /** `x` is a wake-up of coroutine `co`: an armed event, a pending sleep timer, an
      expired one in some thread's local list, a queued callback or task, or a task some
      thread has just dequeued. */
  predicate TokenFor(s: State, co: nat, x: Token) {
    match x
    case AtEvent(k) => k in s.events && s.events[k].CoCont? && s.events[k].co == co
    case AtTimer(i) => i in s.timers && s.timers[i].co == co
    case AtBatch(i) => i in s.batch && s.batch[i].sleep.co == co
    case AtTask(i) => i in s.q.tasks && s.q.tasks[i].co == co
    case AtThread(t) => t in s.thr && s.thr[t].Got? && s.thr[t].task.co == co
  }

  function TaskHome(task: Task): nat { if task.Wake? then task.pin else task.tid }

  /** The thread a wake-up will resume its coroutine on, 0 for any. */
  function Home(s: State, x: Token): nat {
    match x
    case AtEvent(k) => if k in s.events && s.events[k].CoCont? then s.events[k].tid else 0
    case AtTimer(i) => if i in s.timers then s.timers[i].tid else 0
    case AtBatch(i) => if i in s.batch then s.batch[i].sleep.tid else 0
    case AtTask(i) => if i in s.q.tasks then TaskHome(s.q.tasks[i]) else 0
    case AtThread(t) => if t in s.thr && s.thr[t].Got? then TaskHome(s.thr[t].task) else 0
  }

  predicate Waiting(s: State, co: nat) {
    co in s.cos && (s.cos[co].state.Init? || s.cos[co].state.Parking? || s.cos[co].state.Yielded?)
  }

  /** No coroutine has two wake-ups. */
  ghost predicate Unique(s: State) {
    forall co, x, y :: TokenFor(s, co, x) && TokenFor(s, co, y) ==> x == y
  }

  /** Only a coroutine that has not started, is parking or has yielded has one. */
  ghost predicate OnlyWaiting(s: State) {
    forall co, x :: TokenFor(s, co, x) ==> Waiting(s, co)
  }

  /** Every wake-up is pinned to the thread its coroutine last ran on, or is running on
      still, or was scheduled for. */
  ghost predicate Homed(s: State) {
    forall co, x :: TokenFor(s, co, x) && co in s.cos ==> Home(s, x) == s.cos[co].home
  }

  ghost predicate HasToken(s: State, co: nat) {
    exists x :: TokenFor(s, co, x)
  }

  /** Until stop, every waiting coroutine has a wake-up. */
  ghost predicate Live(s: State) {
    !s.c.stopping ==> forall co :: Waiting(s, co) ==> HasToken(s, co)
  }

  ghost predicate GotRunnable(s: State) {
    forall t :: IsGot(s, t) ==> Runnable(s.thr[t].task, t)
  }

  predicate Executing(c: CoState, t: nat) { c == Running(t) || c == Parking(t) }

  /** RUNNING coroutines and the threads that run them match one to one. */
  ghost predicate OneThread(s: State) {
    && 0 !in s.thr
    && (forall t :: IsRun(s, t) ==> s.thr[t].co in s.cos && Executing(s.cos[s.thr[t].co].state, t))
    && (forall co, t :: co in s.cos && Executing(s.cos[co].state, t) ==> At(s, t, Run(co)) && s.cos[co].home == t)
  }

  ghost predicate TokenInv(s: State) {
    Unique(s) && OnlyWaiting(s) && Homed(s) && GotRunnable(s) && OneThread(s) && Live(s)
  }

  /** The heart of the argument: a dequeued wake-up never meets a coroutine that
      is still running, because it is pinned to the thread running it and that
      thread is here. */
  lemma DequeuedIsResumable(s: State, t: nat)
    requires OnlyWaiting(s) && Homed(s) && GotRunnable(s) && OneThread(s)
    requires IsGot(s, t) && s.thr[t].task.Wake?
    ensures InState(s, s.thr[t].task.co, Init) || InState(s, s.thr[t].task.co, Yielded)
  {
    var co := s.thr[t].task.co;
    assert TokenFor(s, co, AtThread(t));
    assert s.cos[co].state.Parking? ==> Executing(s.cos[co].state, s.cos[co].state.on);
  }

  /** From `s` to `s'` the wake-ups are the same except that `co` lost `gone`
      and gained `came`. */
  ghost predicate Moved(s: State, s': State, co: nat, gone: Option<Token>, came: Option<Token>) {
    && (forall q, x :: TokenFor(s', q, x) ==>
          if came == Some(x) then q == co else TokenFor(s, q, x) && gone != Some(x) && Home(s', x) == Home(s, x))
    && (forall q, x :: TokenFor(s, q, x) && gone != Some(x) ==> TokenFor(s', q, x))
    && (gone.Some? ==> TokenFor(s, co, gone.value))
    && (came.Some? ==> TokenFor(s', co, came.value))
  }

  /** The coroutine whose wake-up an action touches, the one it takes away and the one it
      adds. */
  datatype Touch = Touch(co: nat, gone: Option<Token>, came: Option<Token>)

  function TaskIf(s: State, accept: bool): Option<Token> { if accept then Some(AtTask(s.q.next)) else None }

  const NOTHING := Touch(0, None, None)

  function TouchOf(s: State, a: Action): Touch
    requires Enabled(s, a)
  {
    match a
    case Scan(t, found) =>
      if found.None? then NOTHING else Touch(s.q.tasks[found.value].co, Some(AtTask(found.value)), Some(AtThread(t)))
    case Resume(t) => Touch(s.thr[t].task.co, Some(AtThread(t)), None)
    case RunSleepCb(t, accept) => Touch(s.thr[t].task.co, Some(AtThread(t)), TaskIf(s, accept))
    case Branch(t, again) => NOTHING
    case Spawn(co, pin, accept) => if accept then Touch(co, None, TaskIf(s, true)) else NOTHING
    case ArmEvent(t, key) => Touch(s.thr[t].co, None, Some(AtEvent(key)))
    case ArmCallback(key, cb) => NOTHING
    case ArmSleep(t, timer) => Touch(s.thr[t].co, None, Some(AtTimer(timer)))
    case Yield(t) => NOTHING
    case Finish(t) => NOTHING
    case Consume(t, key, newCo, accept) =>
      if s.events[key].CoCont? then Touch(s.events[key].co, Some(AtEvent(key)), TaskIf(s, accept))
      else if accept then Touch(newCo, None, TaskIf(s, true)) else NOTHING
    case Expire(t, timer) => Touch(s.timers[timer].co, Some(AtTimer(timer)), Some(AtBatch(timer)))
    case Publish(t, timer, accept) => Touch(s.batch[timer].sleep.co, Some(AtBatch(timer)), TaskIf(s, accept))
    case IdleYield(t) => NOTHING
    case IdleEnd(t) => NOTHING
    case Stop => NOTHING
  }

  ghost predicate Touches(s: State, s': State, x: Touch) { Moved(s, s', x.co, x.gone, x.came) }

  /** Every coroutine but `co` keeps its state and its home. */
  ghost predicate OthersKeep(s: State, s': State, co: nat) {
    forall q :: q != co ==>
      && (q in s'.cos <==> q in s.cos)
      && (q in s.cos ==> s'.cos[q].state == s.cos[q].state && s'.cos[q].home == s.cos[q].home)
  }

  /** How a step may treat the one coroutine whose wake-up it touches. */
  ghost predicate Fits(s: State, s': State, co: nat, gone: Option<Token>, came: Option<Token>) {
    && (came.Some? ==> (gone.Some? || !HasToken(s, co)) && Waiting(s', co)
                       && Home(s', came.value) == s'.cos[co].home)
    && (came.None? && gone.Some? ==> s'.c.stopping || !Waiting(s', co))
    && (came.None? && gone.None? ==> (Waiting(s, co) <==> Waiting(s', co))
                                     && (Waiting(s', co) ==> s'.cos[co].home == s.cos[co].home))
    && (s.c.stopping ==> s'.c.stopping)
  }

  lemma MovedKeeps(s: State, s': State, co: nat, gone: Option<Token>, came: Option<Token>)
    requires Unique(s) && OnlyWaiting(s) && Homed(s) && Live(s)
    requires Moved(s, s', co, gone, came) && OthersKeep(s, s', co) && Fits(s, s', co, gone, came)
    ensures Unique(s') && OnlyWaiting(s') && Homed(s') && Live(s')
  {
    if !s'.c.stopping {
      forall q | Waiting(s', q)
        ensures HasToken(s', q)
      {
        if q == co && came.Some? {
          assert TokenFor(s', co, came.value);
        } else {
          assert Waiting(s, q);
          var x :| TokenFor(s, q, x);
          assert TokenFor(s', q, x);
        }
      }
    }
  }

  lemma ScanKeeps(s: State, t: nat, found: Option<nat>)
    requires TokenInv(s) && Enabled(s, Scan(t, found))
    ensures TokenInv(Apply(s, Scan(t, found)))
    ensures Touches(s, Apply(s, Scan(t, found)), TouchOf(s, Scan(t, found)))
  {
    hide Runnable;
    var s' := Apply(s, Scan(t, found));
    if found.None? {
      MovedKeeps(s, s', 0, None, None);
    } else {
      assert TokenFor(s, s.q.tasks[found.value].co, AtTask(found.value));
      assert TokenFor(s', s.q.tasks[found.value].co, AtThread(t));
      MovedKeeps(s, s', s.q.tasks[found.value].co, Some(AtTask(found.value)), Some(AtThread(t)));
    }
  }

  /** Starting a dequeued coroutine on `t` uses up its wake-up. */
  lemma RunMoved(s: State, s': State, t: nat, co: nat)
    requires TokenFor(s, co, AtThread(t)) && s'.thr == s.thr[t := Run(co)]
    requires s'.events == s.events && s'.timers == s.timers && s'.batch == s.batch && s'.q.tasks == s.q.tasks
    ensures Moved(s, s', co, Some(AtThread(t)), None)
  {
  }

  lemma RunOneThread(s: State, s': State, t: nat, co: nat)
    requires OneThread(s) && GotRunnable(s) && IsGot(s, t) && Waiting(s, co) && !s.cos[co].state.Parking?
    requires s'.thr == s.thr[t := Run(co)] && co in s'.cos && s'.cos == s.cos[co := s'.cos[co]]
             && s'.cos[co].state == Running(t) && s'.cos[co].home == t
    ensures OneThread(s') && GotRunnable(s')
  {
  }

  lemma ResumeKeeps(s: State, t: nat)
    requires TokenInv(s) && Enabled(s, Resume(t))
    ensures TokenInv(Apply(s, Resume(t)))
    ensures Touches(s, Apply(s, Resume(t)), TouchOf(s, Resume(t)))
  {
    DequeuedIsResumable(s, t);
    var co, s' := s.thr[t].task.co, Apply(s, Resume(t));
    RunMoved(s, s', t, co);
    RunOneThread(s, s', t, co);
    MovedKeeps(s, s', co, Some(AtThread(t)), None);
  }

  lemma RunSleepCbKeeps(s: State, t: nat, accept: bool)
    requires TokenInv(s) && Enabled(s, RunSleepCb(t, accept)) && s.q.next !in s.q.tasks
    ensures TokenInv(Apply(s, RunSleepCb(t, accept)))
    ensures Touches(s, Apply(s, RunSleepCb(t, accept)), TouchOf(s, RunSleepCb(t, accept)))
  {
    assert TokenFor(s, s.thr[t].task.co, AtThread(t));
    MovedKeeps(s, Apply(s, RunSleepCb(t, accept)), s.thr[t].task.co, Some(AtThread(t)), TaskIf(s, accept));
  }

  lemma SpawnKeeps(s: State, co: nat, pin: nat)
    requires TokenInv(s) && co !in s.cos && s.q.next !in s.q.tasks
    ensures TokenInv(SpawnCo(s, co, pin, true))
    ensures Moved(s, SpawnCo(s, co, pin, true), co, None, Some(AtTask(s.q.next)))
  {
    MovedKeeps(s, SpawnCo(s, co, pin, true), co, None, Some(AtTask(s.q.next)));
  }

  lemma ArmEventKeeps(s: State, t: nat, key: Key)
    requires TokenInv(s) && Enabled(s, ArmEvent(t, key))
    ensures TokenInv(Apply(s, ArmEvent(t, key)))
    ensures Touches(s, Apply(s, ArmEvent(t, key)), TouchOf(s, ArmEvent(t, key)))
  {
    MovedKeeps(s, Apply(s, ArmEvent(t, key)), s.thr[t].co, None, Some(AtEvent(key)));
  }

  lemma ArmSleepKeeps(s: State, t: nat, timer: nat)
    requires TokenInv(s) && Enabled(s, ArmSleep(t, timer))
    ensures TokenInv(Apply(s, ArmSleep(t, timer)))
    ensures Touches(s, Apply(s, ArmSleep(t, timer)), TouchOf(s, ArmSleep(t, timer)))
  {
    MovedKeeps(s, Apply(s, ArmSleep(t, timer)), s.thr[t].co, None, Some(AtTimer(timer)));
  }

  lemma YieldKeeps(s: State, t: nat)
    requires TokenInv(s) && Enabled(s, Yield(t))
    ensures TokenInv(Apply(s, Yield(t)))
    ensures Touches(s, Apply(s, Yield(t)), NOTHING)
  {
    MovedKeeps(s, Apply(s, Yield(t)), s.thr[t].co, None, None);
  }

  lemma FinishKeeps(s: State, t: nat)
    requires TokenInv(s) && Enabled(s, Finish(t))
    ensures TokenInv(Apply(s, Finish(t)))
    ensures Touches(s, Apply(s, Finish(t)), NOTHING)
  {
    MovedKeeps(s, Apply(s, Finish(t)), s.thr[t].co, None, None);
  }

  lemma ConsumeKeeps(s: State, t: nat, key: Key, newCo: nat, accept: bool)
    requires TokenInv(s) && Enabled(s, Consume(t, key, newCo, accept)) && s.q.next !in s.q.tasks
    requires s.events[key].CoCont?
    ensures TokenInv(Apply(s, Consume(t, key, newCo, accept)))
    ensures Touches(s, Apply(s, Consume(t, key, newCo, accept)), TouchOf(s, Consume(t, key, newCo, accept)))
  {
    assert TokenFor(s, s.events[key].co, AtEvent(key));
    MovedKeeps(s, Apply(s, Consume(t, key, newCo, accept)), s.events[key].co, Some(AtEvent(key)),
               TaskIf(s, accept));
  }

  lemma DropCallbackKeeps(s: State, key: Key)
    requires TokenInv(s) && key in s.events && s.events[key].CbCont?
    ensures TokenInv(s.(events := s.events - {key}))
    ensures Moved(s, s.(events := s.events - {key}), 0, None, None)
  {
    MovedKeeps(s, s.(events := s.events - {key}), 0, None, None);
  }

  lemma ExpireKeeps(s: State, t: nat, timer: nat)
    requires TokenInv(s) && Enabled(s, Expire(t, timer))
    ensures TokenInv(Apply(s, Expire(t, timer)))
    ensures Touches(s, Apply(s, Expire(t, timer)), TouchOf(s, Expire(t, timer)))
  {
    assert TokenFor(s, s.timers[timer].co, AtTimer(timer));
    MovedKeeps(s, Apply(s, Expire(t, timer)), s.timers[timer].co, Some(AtTimer(timer)), Some(AtBatch(timer)));
  }

  lemma PublishKeeps(s: State, t: nat, timer: nat, accept: bool)
    requires TokenInv(s) && Enabled(s, Publish(t, timer, accept)) && s.q.next !in s.q.tasks
    ensures TokenInv(Apply(s, Publish(t, timer, accept)))
    ensures Touches(s, Apply(s, Publish(t, timer, accept)), TouchOf(s, Publish(t, timer, accept)))
  {
    assert TokenFor(s, s.batch[timer].sleep.co, AtBatch(timer));
    MovedKeeps(s, Apply(s, Publish(t, timer, accept)), s.batch[timer].sleep.co, Some(AtBatch(timer)),
      TaskIf(s, accept));
  }

  predicate Plain(pc: Pc) { !pc.Got? && !pc.Run? }

  /** Steps that touch no wake-up: a thread moves between plain places. */
  lemma ThreadKeeps(s: State, s': State, t: nat, pc: Pc)
    requires TokenInv(s) && t in s.thr && Plain(s.thr[t]) && Plain(pc) && s'.thr == s.thr[t := pc]
    requires s'.events == s.events && s'.timers == s.timers && s'.batch == s.batch && s'.q.tasks == s.q.tasks
             && s'.cos == s.cos
    requires s'.c.stopping == s.c.stopping
    ensures TokenInv(s')
    ensures Touches(s, s', NOTHING)
  {
    MovedKeeps(s, s', 0, None, None);
  }

  lemma CallbackKeeps(s: State, key: Key, cb: nat)
    requires TokenInv(s) && key !in s.events
    ensures TokenInv(s.(events := s.events[key := CbCont(cb)]))
    ensures Touches(s, s.(events := s.events[key := CbCont(cb)]), NOTHING)
  {
    MovedKeeps(s, s.(events := s.events[key := CbCont(cb)]), 0, None, None);
  }

  lemma StopKeeps(s: State)
    requires TokenInv(s)
    ensures TokenInv(s.(c := s.c.(stopping := true)))
    ensures Touches(s, s.(c := s.c.(stopping := true)), NOTHING)
  {
    MovedKeeps(s, s.(c := s.c.(stopping := true)), 0, None, None);
  }

  lemma ConsumeCallbackKeeps(s: State, key: Key, newCo: nat, accept: bool)
    requires TokenInv(s) && key in s.events && s.events[key].CbCont? && newCo !in s.cos && s.q.next !in s.q.tasks
    ensures TokenInv(ConsumeEvent(s, key, newCo, accept))
    ensures Touches(s, ConsumeEvent(s, key, newCo, accept), if accept then Touch(newCo, None, TaskIf(s, true))
            else NOTHING)
  {
    DropCallbackKeeps(s, key);
    if accept {
      SpawnKeeps(s.(events := s.events - {key}), newCo, 0);
    }
  }

  lemma BranchKeeps(s: State, t: nat, again: bool)
    requires TokenInv(s) && At(s, t, Decide)
    ensures TokenInv(BranchTo(s, t, again))
    ensures Touches(s, BranchTo(s, t, again), NOTHING)
  {
    var s' := BranchTo(s, t, again);
    if s'.thr[t] == Idle {
      ThreadKeeps(s, s', t, Idle);
    } else if s'.thr[t] == Exited {
      ThreadKeeps(s, s', t, Exited);
    } else {
      ThreadKeeps(s, s', t, Loop);
    }
  }

  predicate ThreadStep(a: Action) {
    a.Scan? || a.Resume? || a.Branch? || a.IdleYield? || a.IdleEnd? || a.Yield? || a.Finish? || a.Stop?
  }

  lemma ThreadStepKeeps(s: State, a: Action)
    requires TokenInv(s) && Enabled(s, a) && ThreadStep(a)
    ensures TokenInv(Apply(s, a))
    ensures Touches(s, Apply(s, a), TouchOf(s, a))
  {
    match a
    case Scan(t, found) => ScanKeeps(s, t, found);
    case Resume(t) => ResumeKeeps(s, t);
    case Yield(t) => YieldKeeps(s, t);
    case Finish(t) => FinishKeeps(s, t);
    case Stop => StopKeeps(s);
    case Branch(t, again) => BranchKeeps(s, t, again);
    case IdleYield(t) => ThreadKeeps(s, Apply(s, a), t, Loop);
    case IdleEnd(t) => ThreadKeeps(s, Apply(s, a), t, Loop);
  }

  lemma WakeStepKeeps(s: State, a: Action)
    requires TokenInv(s) && Enabled(s, a) && !ThreadStep(a) && s.q.next !in s.q.tasks
    ensures TokenInv(Apply(s, a))
    ensures Touches(s, Apply(s, a), TouchOf(s, a))
  {
    match a
    case RunSleepCb(t, accept) => RunSleepCbKeeps(s, t, accept);
    case Spawn(co, pin, accept) => if accept { SpawnKeeps(s, co, pin); }
    case ArmEvent(t, key) => ArmEventKeeps(s, t, key);
    case ArmCallback(key, cb) => CallbackKeeps(s, key, cb);
    case ArmSleep(t, timer) => ArmSleepKeeps(s, t, timer);
    case Consume(t, key, newCo, accept) =>
      if s.events[key].CoCont? {
        ConsumeKeeps(s, t, key, newCo, accept);
      } else {
        ConsumeCallbackKeeps(s, key, newCo, accept);
      }
    case Expire(t, timer) => ExpireKeeps(s, t, timer);
    case Publish(t, timer, accept) => PublishKeeps(s, t, timer, accept);
  }

  // ------------------------------------------------- conservation of tasks

  predicate LogOk(q: Queue, d: Dequeue) {
    && d.id in q.accepted && d.id !in q.tasks && Runnable(q.accepted[d.id], d.t)
    && d.t in q.lastScan && d.id < q.lastScan[d.t]
  }

  ghost predicate InLog(log: seq<Dequeue>, i: nat) {
    exists n :: 0 <= n < |log| && log[n].id == i
  }

  /** Every accepted task is either still queued or dequeued exactly once, by a
      thread it may run on and in a search that saw it. */
  ghost predicate Conserved(q: Queue) {
    && (forall i: nat :: i in q.accepted <==> i < q.next)
    && (forall i :: i in q.tasks ==> i in q.accepted && q.tasks[i] == q.accepted[i])
    && (forall t :: t in q.lastScan ==> q.lastScan[t] <= q.next)
    && (forall n :: 0 <= n < |q.log| ==> LogOk(q, q.log[n]))
    && (forall m, n :: 0 <= m < n < |q.log| ==> q.log[m].id != q.log[n].id)
    && (forall i :: i in q.accepted && i !in q.tasks ==> InLog(q.log, i))
  }

  lemma PushConserves(q: Queue, task: Task)
    requires Conserved(q)
    ensures Conserved(Push(q, task, true))
  {
    assert forall n :: 0 <= n < |q.log| ==> LogOk(q, q.log[n]);
  }

  lemma TakeConserves(q: Queue, t: nat, found: Option<nat>)
    requires Conserved(q) && Finds(q, t, found)
    ensures Conserved(Take(q, t, found))
  {
    var q' := Take(q, t, found);
    forall n | 0 <= n < |q'.log|
      ensures LogOk(q', q'.log[n])
    {
      if n < |q.log| {
        assert LogOk(q, q.log[n]);
      }
    }
    forall m, n | 0 <= m < n < |q'.log|
      ensures q'.log[m].id != q'.log[n].id
    {
      assert LogOk(q, q.log[m]);
    }
    forall j | j in q'.accepted && j !in q'.tasks
      ensures InLog(q'.log, j)
    {
      if j in q.tasks {
        assert q'.log[|q.log|].id == j;
      } else {
        var n :| 0 <= n < |q.log| && q.log[n].id == j;
        assert q'.log[n].id == j;
      }
    }
  }

  predicate Found(pc: Pc) { pc.Decide? || pc.Exited? }

  /** A thread that found nothing leaves behind only tasks pushed since. */
  ghost predicate Drained(q: Queue, thr: map<nat, Pc>) {
    && q.lastScan.Keys == thr.Keys
    && (forall t, i :: t in thr && Found(thr[t]) && i in q.tasks && Runnable(q.tasks[i], t) ==> q.lastScan[t] <= i)
  }

  lemma PushDrains(q: Queue, task: Task, thr: map<nat, Pc>, thr': map<nat, Pc>)
    requires Conserved(q) && Drained(q, thr) && thr'.Keys == thr.Keys
    requires forall t :: t in thr && Found(thr'[t]) ==> Found(thr[t])
    ensures Drained(q, thr') && Drained(Push(q, task, true), thr')
  {
  }

  lemma TakeDrains(q: Queue, t: nat, found: Option<nat>, thr: map<nat, Pc>, pc: Pc)
    requires Drained(q, thr) && Finds(q, t, found) && t in thr && (Found(pc) ==> found.None?)
    ensures Drained(Take(q, t, found), thr[t := pc])
  {
  }

  lemma QueueStep(s: State, a: Action)
    requires Conserved(s.q) && Drained(s.q, s.thr) && Enabled(s, a)
    ensures Conserved(Apply(s, a).q) && Drained(Apply(s, a).q, Apply(s, a).thr)
  {
    var s' := Apply(s, a);
    if a.Scan? {
      TakeConserves(s.q, a.t, a.found);
      TakeDrains(s.q, a.t, a.found, s.thr, s'.thr[a.t]);
    } else {
      OnlyScanTakes(s, a);
      PushDrains(s.q, Wake(0, 0), s.thr, s'.thr);
      if s'.q != s.q {
        PushConserves(s.q, s'.q.tasks[s.q.next]);
        PushDrains(s.q, s'.q.tasks[s.q.next], s.thr, s'.thr);
      }
    }
  }

  /** Only a search removes a task or moves a thread to `Decide`; every other
      step pushes at most one task. */
  lemma OnlyScanTakes(s: State, a: Action)
    requires Enabled(s, a) && !a.Scan?
    ensures var s' := Apply(s, a);
            && (s'.q == s.q || (s.q.next in s'.q.tasks && s'.q == Push(s.q, s'.q.tasks[s.q.next], true)))
            && s'.thr.Keys == s.thr.Keys
            && forall t :: t in s.thr && Found(s'.thr[t]) ==> Found(s.thr[t])
  {
    hide Apply, Enabled, Finds;
    if ThreadStep(a) {
      OnlyScanTakesThread(s, a);
    } else {
      OnlyScanTakesWake(s, a);
    }
  }

  lemma OnlyScanTakesThread(s: State, a: Action)
    requires ThreadStep(a) && Enabled(s, a) && !a.Scan?
    ensures var s' := Apply(s, a);
            && (s'.q == s.q || (s.q.next in s'.q.tasks && s'.q == Push(s.q, s'.q.tasks[s.q.next], true)))
            && s'.thr.Keys == s.thr.Keys
            && forall t :: t in s.thr && Found(s'.thr[t]) ==> Found(s.thr[t])
  {
    hide Finds, Runnable;
  }

  lemma OnlyScanTakesWake(s: State, a: Action)
    requires !ThreadStep(a) && Enabled(s, a) && !a.Scan?
    ensures var s' := Apply(s, a);
            && (s'.q == s.q || (s.q.next in s'.q.tasks && s'.q == Push(s.q, s'.q.tasks[s.q.next], true)))
            && s'.thr.Keys == s.thr.Keys
            && forall t :: t in s.thr && Found(s'.thr[t]) ==> Found(s.thr[t])
  {
    hide Apply, Enabled, Finds;
    if Pushes(a) {
      OnlyScanTakesPush(s, a);
    } else {
      OnlyScanTakesArm(s, a);
    }
  }

  /** The actions that call `schedule`. */
  predicate Pushes(a: Action) { a.RunSleepCb? || a.Spawn? || a.Consume? || a.Publish? }

  lemma OnlyScanTakesPush(s: State, a: Action)
    requires Pushes(a) && Enabled(s, a) && !a.Scan?
    ensures var s' := Apply(s, a);
            && (s'.q == s.q || (s.q.next in s'.q.tasks && s'.q == Push(s.q, s'.q.tasks[s.q.next], true)))
            && s'.thr.Keys == s.thr.Keys
            && forall t :: t in s.thr && Found(s'.thr[t]) ==> Found(s.thr[t])
  {
    hide Apply, Enabled, Finds;
    if a.Consume? {
      OnlyScanTakesConsume(s, a);
    } else {
      OnlyScanTakesTask(s, a);
    }
  }

  lemma OnlyScanTakesConsume(s: State, a: Action)
    requires a.Consume? && Enabled(s, a) && !a.Scan?
    ensures var s' := Apply(s, a);
            && (s'.q == s.q || (s.q.next in s'.q.tasks && s'.q == Push(s.q, s'.q.tasks[s.q.next], true)))
            && s'.thr.Keys == s.thr.Keys
            && forall t :: t in s.thr && Found(s'.thr[t]) ==> Found(s.thr[t])
  {
    hide Finds, Runnable, Busy, CountConsumed, SetCo, ArmCo;
  }

  lemma OnlyScanTakesTask(s: State, a: Action)
    requires Pushes(a) && !a.Consume? && Enabled(s, a) && !a.Scan?
    ensures var s' := Apply(s, a);
            && (s'.q == s.q || (s.q.next in s'.q.tasks && s'.q == Push(s.q, s'.q.tasks[s.q.next], true)))
            && s'.thr.Keys == s.thr.Keys
            && forall t :: t in s.thr && Found(s'.thr[t]) ==> Found(s.thr[t])
  {
    hide Finds, Runnable, Busy, CountConsumed, SetCo, ArmCo;
  }

  lemma OnlyScanTakesArm(s: State, a: Action)
    requires !ThreadStep(a) && !Pushes(a) && Enabled(s, a) && !a.Scan?
    ensures var s' := Apply(s, a);
            && (s'.q == s.q || (s.q.next in s'.q.tasks && s'.q == Push(s.q, s'.q.tasks[s.q.next], true)))
            && s'.thr.Keys == s.thr.Keys
            && forall t :: t in s.thr && Found(s'.thr[t]) ==> Found(s.thr[t])
  {
    hide Finds, Runnable, Busy, CountConsumed, SetCo, ArmCo;
  }

  // ------------------------------------------------------- the thread count

  ghost function LiveWorkers(s: State): set<nat> {
    set t | t in s.thr && t != s.c.main && s.thr[t] != Exited
  }

  /** The count is the number of live workers until the main thread, when it
      is a member, has left; it leaves last.  An idle coroutine terminates only
      when its thread will not go idle again. */
  ghost predicate Counted(s: State) {
    && (At(s, s.c.main, Exited) ==> LiveWorkers(s) == {})
    && (!At(s, s.c.main, Exited) ==> s.c.cnt == |LiveWorkers(s)|)
    && (forall t :: t in s.c.idleDone ==> s.c.stopping && !At(s, t, Idle) && (t == s.c.main ==> LiveWorkers(s) == {}))
  }

  lemma SameThreadsCount(s: State, s': State)
    requires Counted(s) && s'.thr.Keys == s.thr.Keys && s'.c == s.c
    requires forall t :: t in s.thr ==>
               (s'.thr[t] == Exited <==> s.thr[t] == Exited) && (s'.thr[t] == Idle ==> s.thr[t] == Idle)
    ensures Counted(s')
  {
    assert LiveWorkers(s') == LiveWorkers(s);
  }

  lemma BranchCounts(s: State, t: nat, again: bool)
    requires Counted(s) && At(s, t, Decide)
    ensures Counted(BranchTo(s, t, again))
    ensures At(BranchTo(s, t, again), t, Idle) ==> t !in s.c.idleDone
  {
    var s' := BranchTo(s, t, again);
    if s'.thr[t] == Exited && t != s.c.main {
      assert LiveWorkers(s') == LiveWorkers(s) - {t};
    } else {
      assert LiveWorkers(s') == LiveWorkers(s);
    }
  }

  lemma IdleEndCounts(s: State, t: nat)
    requires Counted(s) && Enabled(s, IdleEnd(t))
    ensures Counted(Apply(s, IdleEnd(t)))
  {
    assert LiveWorkers(Apply(s, IdleEnd(t))) == LiveWorkers(s);
  }

  lemma CountStep(s: State, a: Action)
    requires Counted(s) && Enabled(s, a)
    ensures Counted(Apply(s, a))
  {
    hide Finds, Runnable, NoBatch;
    if a.Branch? {
      BranchCounts(s, a.t, a.again);
    } else if a.IdleEnd? {
      IdleEndCounts(s, a.t);
    } else if a.Stop? {
      assert LiveWorkers(Apply(s, a)) == LiveWorkers(s);
    } else {
      SameThreadsCount(s, Apply(s, a));
    }
  }

  // ------------------------------------------------------- parks and wakes

  /** A coroutine has parked as often as it was woken, once more while it is parked, and
      never before it started. */
  ghost predicate Balanced(s: State) {
    forall co :: co in s.cos ==>
      && s.cos[co].arms == s.cos[co].wakes + (if s.cos[co].state.Parking? || s.cos[co].state.Yielded? then 1 else 0)
      && (s.cos[co].state.Init? ==> s.cos[co].arms == 0)
  }

  lemma BalanceStep(s: State, a: Action)
    requires Balanced(s) && Enabled(s, a)
    ensures Balanced(Apply(s, a))
  {
    hide Apply, Enabled, Balanced;
    if ThreadStep(a) {
      BalanceStepThread(s, a);
    } else {
      BalanceStepWake(s, a);
    }
  }

  lemma BalanceStepThread(s: State, a: Action)
    requires ThreadStep(a) && Balanced(s) && Enabled(s, a)
    ensures Balanced(Apply(s, a))
  {
    hide Finds, Runnable;
  }

  lemma BalanceStepWake(s: State, a: Action)
    requires !ThreadStep(a) && Balanced(s) && Enabled(s, a)
    ensures Balanced(Apply(s, a))
  {
    hide Finds, Runnable;
  }

  // ------------------------------------------------------------ consumptions

  predicate IsArmed(x: Token) { x.AtEvent? || x.AtTimer? }

  /** A registration of `co` is waiting to be consumed. */
  ghost predicate Registered(s: State, co: nat) {
    exists x :: IsArmed(x) && TokenFor(s, co, x)
  }

  /** A wake-up of `co` is on its way: its registration has been consumed and the
      coroutine has not been resumed. */
  ghost predicate InFlight(s: State, co: nat) {
    exists x :: !IsArmed(x) && TokenFor(s, co, x)
  }

  /** Each registration has been consumed, once, or is still waiting to be. */
  ghost predicate Consumptions(s: State) {
    forall co :: co in s.cos ==> s.cos[co].arms == s.cos[co].consumed + (if Registered(s, co) then 1 else 0)
  }

  predicate ArmedToken(x: Option<Token>) { x.Some? && IsArmed(x.value) }

  /** How a move changes which coroutines have a registration waiting; that no second
      one is left behind is where uniqueness comes in. */
  lemma RegisteredMoved(s: State, s': State, x: Touch, co: nat)
    requires Unique(s) && Touches(s, s', x)
    ensures co != x.co ==> (Registered(s', co) <==> Registered(s, co))
    ensures co == x.co && ArmedToken(x.came) ==> Registered(s', co)
    ensures co == x.co && ArmedToken(x.gone) ==> Registered(s, co)
    ensures co == x.co && ArmedToken(x.gone) && !ArmedToken(x.came) ==> !Registered(s', co)
    ensures co == x.co && !ArmedToken(x.gone) && !ArmedToken(x.came) ==> (Registered(s', co) <==> Registered(s, co))
  {
    hide TokenFor, Home;
    if Registered(s', co) {
      var y :| IsArmed(y) && TokenFor(s', co, y);
      assert x.came != Some(y) ==> TokenFor(s, co, y) && x.gone != Some(y);
    }
    if Registered(s, co) {
      var y :| IsArmed(y) && TokenFor(s, co, y);
      assert x.gone != Some(y) ==> TokenFor(s', co, y);
      if co != x.co && x.gone == Some(y) {
        NotMine(s, s', x, co, y);
      }
    }
  }

  /** A token belongs to one coroutine. */
  lemma NotMine(s: State, s': State, x: Touch, co: nat, y: Token)
    requires Touches(s, s', x) && x.gone == Some(y) && TokenFor(s, co, y)
    ensures co == x.co
  {
  }

  /** The counters of every coroutine but the touched one stay. */
  lemma OthersCount(s: State, a: Action, co: nat)
    requires Enabled(s, a) && co in Apply(s, a).cos && co in s.cos && co != TouchOf(s, a).co
    ensures Apply(s, a).cos[co].arms == s.cos[co].arms && Apply(s, a).cos[co].consumed == s.cos[co].consumed
  {
  }

  lemma NewCo(s: State, a: Action, co: nat)
    requires Enabled(s, a) && co in Apply(s, a).cos && co !in s.cos
    ensures co == TouchOf(s, a).co && !ArmedToken(TouchOf(s, a).gone) && !ArmedToken(TouchOf(s, a).came)
    ensures Apply(s, a).cos[co].arms == Apply(s, a).cos[co].consumed == 0
  {
  }

  /** The touched coroutine: arming counts a park, consuming a registration counts it,
      and nothing else does. */
  lemma TouchedCount(s: State, a: Action)
    requires TokenInv(s) && Enabled(s, a) && TouchOf(s, a).co in s.cos
    ensures var x, co := TouchOf(s, a), TouchOf(s, a).co;
            && co in Apply(s, a).cos
            && Apply(s, a).cos[co].arms == s.cos[co].arms + (if ArmedToken(x.came) then 1 else 0)
            && Apply(s, a).cos[co].consumed == s.cos[co].consumed + (if ArmedToken(x.gone) then 1 else 0)
            && (ArmedToken(x.came) ==> x.gone.None? && !Waiting(s, co))
  {
    hide Apply, Enabled, TouchOf, TokenInv;
    if ThreadStep(a) {
      TouchedCountThread(s, a);
    } else {
      TouchedCountWake(s, a);
    }
  }

  lemma TouchedCountThread(s: State, a: Action)
    requires ThreadStep(a) && TokenInv(s) && Enabled(s, a) && TouchOf(s, a).co in s.cos
    ensures var x, co := TouchOf(s, a), TouchOf(s, a).co;
            && co in Apply(s, a).cos
            && Apply(s, a).cos[co].arms == s.cos[co].arms + (if ArmedToken(x.came) then 1 else 0)
            && Apply(s, a).cos[co].consumed == s.cos[co].consumed + (if ArmedToken(x.gone) then 1 else 0)
            && (ArmedToken(x.came) ==> x.gone.None? && !Waiting(s, co))
  {
    hide Finds, Runnable;
  }

  lemma TouchedCountWake(s: State, a: Action)
    requires !ThreadStep(a) && TokenInv(s) && Enabled(s, a) && TouchOf(s, a).co in s.cos
    ensures var x, co := TouchOf(s, a), TouchOf(s, a).co;
            && co in Apply(s, a).cos
            && Apply(s, a).cos[co].arms == s.cos[co].arms + (if ArmedToken(x.came) then 1 else 0)
            && Apply(s, a).cos[co].consumed == s.cos[co].consumed + (if ArmedToken(x.gone) then 1 else 0)
            && (ArmedToken(x.came) ==> x.gone.None? && !Waiting(s, co))
  {
    hide Finds, Runnable;
  }

  lemma ConsumptionStep(s: State, a: Action)
    requires TokenInv(s) && Consumptions(s) && Enabled(s, a) && Touches(s, Apply(s, a), TouchOf(s, a))
    ensures Consumptions(Apply(s, a))
  {
    var s', x := Apply(s, a), TouchOf(s, a);
    forall co | co in s'.cos
      ensures s'.cos[co].arms == s'.cos[co].consumed + (if Registered(s', co) then 1 else 0)
    {
      hide Apply, Enabled, TouchOf, Touches, TokenFor;
      RegisteredMoved(s, s', x, co);
      if co !in s.cos {
        NewCo(s, a, co);
        Unregistered(s, co);
      } else if co == x.co {
        TouchedCount(s, a);
        if ArmedToken(x.came) {
          Unregistered(s, co);
        }
      } else {
        OthersCount(s, a, co);
      }
    }
  }

  lemma Unregistered(s: State, co: nat)
    requires OnlyWaiting(s) && !Waiting(s, co)
    ensures !Registered(s, co) && !InFlight(s, co)
  {
  }

  // ------------------------------------------------------------ whole runs

  ghost predicate Inv(s: State) {
    TokenInv(s) && Conserved(s.q) && Drained(s.q, s.thr) && Counted(s) && Balanced(s) && Consumptions(s)
  }

  /** A run: the states between which the actions lead, from the start. */
  ghost predicate IsBehavior(ss: seq<State>, acts: seq<Action>) {
    && |ss| == |acts| + 1
    && Start(ss[0])
    && forall i :: 0 <= i < |acts| ==> Enabled(ss[i], acts[i]) && ss[i + 1] == Apply(ss[i], acts[i])
  }

  lemma StartTokens(s: State)
    requires Start(s)
    ensures TokenInv(s) && Balanced(s) && Consumptions(s)
  {
  }

  lemma StartQueue(s: State)
    requires Start(s)
    ensures Conserved(s.q) && Drained(s.q, s.thr)
  {
  }

  lemma StartCount(s: State)
    requires Start(s)
    ensures Counted(s)
  {
    assert LiveWorkers(s) == s.thr.Keys - {s.c.main};
  }

  lemma StartInv(s: State)
    requires Start(s)
    ensures Inv(s)
  {
    hide Start, TokenInv, Conserved, Drained, Counted, Balanced, Consumptions;
    StartTokens(s);
    StartQueue(s);
    StartCount(s);
  }

  lemma TokenStep(s: State, a: Action)
    requires TokenInv(s) && Enabled(s, a) && s.q.next !in s.q.tasks
    ensures TokenInv(Apply(s, a))
    ensures Touches(s, Apply(s, a), TouchOf(s, a))
  {
    if ThreadStep(a) {
      ThreadStepKeeps(s, a);
    } else {
      WakeStepKeeps(s, a);
    }
  }

  lemma StepInv(s: State, a: Action)
    requires Inv(s) && Enabled(s, a)
    ensures Inv(Apply(s, a))
  {
    TokenStep(s, a);
    QueueStep(s, a);
    CountStep(s, a);
    BalanceStep(s, a);
    ConsumptionStep(s, a);
  }

  lemma {:induction false} RunInv(ss: seq<State>, acts: seq<Action>, i: nat)
    requires IsBehavior(ss, acts) && i < |ss|
    ensures Inv(ss[i])
  {
    if i == 0 {
      StartInv(ss[0]);
    } else {
      RunInv(ss, acts, i - 1);
      StepInv(ss[i - 1], acts[i - 1]);
    }
  }

  /** In every run, a coroutine whose wake-up has been dequeued is not RUNNING,
      although the wake-up may have been queued before the coroutine yielded: the
      discard branch of `run` is never taken. */
  lemma NoWakeupIsDiscarded(ss: seq<State>, acts: seq<Action>, i: nat, t: nat)
    requires IsBehavior(ss, acts) && i < |ss|
    requires IsGot(ss[i], t) && ss[i].thr[t].task.Wake?
    ensures InState(ss[i], ss[i].thr[t].task.co, Init) || InState(ss[i], ss[i].thr[t].task.co, Yielded)
    ensures Enabled(ss[i], Resume(t)) && At(Apply(ss[i], Resume(t)), t, Run(ss[i].thr[t].task.co))
  {
    RunInv(ss, acts, i);
    DequeuedIsResumable(ss[i], t);
  }

  /** In every run, no coroutine ever has two wake-ups; a coroutine that runs or
      has ended has none; and until stop each one that waits has exactly one. */
  lemma ExactlyOneWakeup(ss: seq<State>, acts: seq<Action>, i: nat, co: nat)
    requires IsBehavior(ss, acts) && i < |ss|
    ensures forall x, y :: TokenFor(ss[i], co, x) && TokenFor(ss[i], co, y) ==> x == y
    ensures !Waiting(ss[i], co) ==> forall x :: !TokenFor(ss[i], co, x)
    ensures Waiting(ss[i], co) && !ss[i].c.stopping ==> exists x :: TokenFor(ss[i], co, x)
  {
    RunInv(ss, acts, i);
    assert Waiting(ss[i], co) && !ss[i].c.stopping ==> HasToken(ss[i], co);
  }

  /** In every run, each registration is consumed at most once, by readiness, timeout,
      close or expiry: a coroutine has registered as often as its registrations were
      consumed, plus the one that is waiting; and until stop every consumption has woken
      it, but for the one on its way. */
  lemma ConsumedOnce(ss: seq<State>, acts: seq<Action>, i: nat, co: nat)
    requires IsBehavior(ss, acts) && i < |ss| && co in ss[i].cos
    ensures var s, c := ss[i], ss[i].cos[co];
            && c.arms == c.consumed + (if Registered(s, co) then 1 else 0)
            && (!s.c.stopping ==> c.consumed == c.wakes + (if InFlight(s, co) && !c.state.Init? then 1 else 0))
            && c.wakes <= c.consumed <= c.arms <= c.wakes + 1
  {
    RunInv(ss, acts, i);
    WakesFollow(ss[i], co);
  }

  lemma WakesFollow(s: State, co: nat)
    requires TokenInv(s) && Balanced(s) && Consumptions(s) && co in s.cos
    ensures var c := s.cos[co];
            && (!s.c.stopping ==> c.consumed == c.wakes + (if InFlight(s, co) && !c.state.Init? then 1 else 0))
            && c.wakes <= c.consumed <= c.arms <= c.wakes + 1
  {
    hide TokenFor;
    if !Waiting(s, co) {
      Unregistered(s, co);
    } else {
      OneKind(s, co);
    }
  }

  /** A waiting coroutine is registered or has a wake-up on its way, never both. */
  lemma OneKind(s: State, co: nat)
    requires TokenInv(s) && Waiting(s, co)
    ensures !(Registered(s, co) && InFlight(s, co))
    ensures !s.c.stopping ==> Registered(s, co) || InFlight(s, co)
  {
    hide TokenFor;
    if !s.c.stopping {
      assert HasToken(s, co);
      var x :| TokenFor(s, co, x);
      assert IsArmed(x) || !IsArmed(x);
    }
  }

  /** In every run, tasks are conserved and affine: accepted tasks are those still
      queued plus those dequeued, disjointly; none is dequeued twice; a pinned one
      only by its thread. */
  lemma TasksConserved(ss: seq<State>, acts: seq<Action>, i: nat)
    requires IsBehavior(ss, acts) && i < |ss|
    ensures var q := ss[i].q;
            && (forall n, m :: 0 <= m < n < |q.log| ==> q.log[m].id != q.log[n].id)
            && (forall k :: k in q.accepted <==> (k in q.tasks || InLog(q.log, k)))
            && (forall k :: !(k in q.tasks && InLog(q.log, k)))
            && (forall n :: 0 <= n < |q.log| ==>
                 q.log[n].id in q.accepted && Runnable(q.accepted[q.log[n].id], q.log[n].t))
  {
    RunInv(ss, acts, i);
    var q := ss[i].q;
    assert forall n :: 0 <= n < |q.log| ==> LogOk(q, q.log[n]);
  }

  ghost predicate AllExited(s: State) {
    forall t :: t in s.thr ==> s.thr[t].Exited?
  }

  /** Whether some member thread may run task `k`: it is unpinned or pinned to a
      member. */
  ghost predicate MemberTask(s: State, k: nat) {
    k in s.q.accepted && exists t :: t in s.thr && Runnable(s.q.accepted[k], t)
  }

  function Searched(q: Queue, t: nat): nat { if t in q.lastScan then q.lastScan[t] else 0 }

  /** In every run, once all threads have left, a task some member could have run
      remains queued if and only if it was accepted after the last search of every
      thread eligible for it. */
  lemma RemainsIffMissed(ss: seq<State>, acts: seq<Action>, i: nat, k: nat)
    requires IsBehavior(ss, acts) && i < |ss|
    requires AllExited(ss[i]) && MemberTask(ss[i], k)
    ensures k in ss[i].q.tasks <==>
            forall t :: t in ss[i].thr && Runnable(ss[i].q.accepted[k], t) ==> Searched(ss[i].q, t) <= k
  {
    RunInv(ss, acts, i);
    var q := ss[i].q;
    if k !in q.tasks {
      var n :| 0 <= n < |q.log| && q.log[n].id == k;
      assert LogOk(q, q.log[n]);
    }
  }

  const NO_TASKS := Queue(map[], 0, map[], [], map[1 := 0])
  const ONE_TASK := Push(NO_TASKS, Wake(7, 0), true)
  const RACE: seq<State> := [
    State(map[], map[], map[], NO_TASKS, map[], map[1 := Loop], Control(2, false, 1, {})),
    State(map[], map[], map[], NO_TASKS, map[], map[1 := Decide], Control(2, false, 1, {})),
    State(map[], map[], map[], ONE_TASK, map[7 := Co(Init, 0, 0, 0, 0)], map[1 := Decide], Control(2, false, 1, {})),
    State(map[], map[], map[], ONE_TASK, map[7 := Co(Init, 0, 0, 0, 0)], map[1 := Decide], Control(2, true, 1, {})),
    State(map[], map[], map[], ONE_TASK, map[7 := Co(Init, 0, 0, 0, 0)], map[1 := Exited], Control(2, true, 0, {}))]
  const RACE_ACTIONS: seq<Action> := [Scan(1, None), Spawn(7, 0, true), Stop, Branch(1, false)]

  /** A run in which a task accepted before `stop` stays behind: the only thread
      searches, then the task arrives, then the stop flag is set, and only then
      does the thread look at the flag. */
  lemma DrainRace()
    ensures IsBehavior(RACE, RACE_ACTIONS)
    ensures 0 in RACE[2].q.accepted && !RACE[2].c.stopping
    ensures AllExited(RACE[4]) && MemberTask(RACE[4], 0) && 0 in RACE[4].q.tasks
  {
    hide Enabled, Apply, Start;
    RaceStart();
    RaceStep0();
    RaceStep1();
    RaceStep2();
    RaceStep3();
    assert Runnable(RACE[4].q.accepted[0], 1) && 1 in RACE[4].thr;
  }

  lemma RaceStart()
    ensures Start(RACE[0])
  {
    assert RACE[0].thr.Keys - {2} == {1};
  }

  lemma RaceStep0()
    ensures Enabled(RACE[0], RACE_ACTIONS[0]) && Apply(RACE[0], RACE_ACTIONS[0]) == RACE[1]
  {
  }

  lemma RaceStep1()
    ensures Enabled(RACE[1], RACE_ACTIONS[1]) && Apply(RACE[1], RACE_ACTIONS[1]) == RACE[2]
  {
  }

  lemma RaceStep2()
    ensures Enabled(RACE[2], RACE_ACTIONS[2]) && Apply(RACE[2], RACE_ACTIONS[2]) == RACE[3]
  {
  }

  lemma RaceStep3()
    ensures Enabled(RACE[3], RACE_ACTIONS[3]) && Apply(RACE[3], RACE_ACTIONS[3]) == RACE[4]
  {
  }

  /** In every run, the idle coroutine of a thread is never resumed after it has
      terminated. */
  lemma IdleNeverResumedAfterEnd(ss: seq<State>, acts: seq<Action>, i: nat, t: nat)
    requires IsBehavior(ss, acts) && i < |ss|
    ensures At(ss[i], t, Idle) ==> t !in ss[i].c.idleDone
    ensures At(ss[i], t, Decide) && t in ss[i].c.idleDone ==> forall again :: BranchPc(ss[i].c, t, again) == Exited
  {
    RunInv(ss, acts, i);
    if At(ss[i], t, Decide) {
      BranchCounts(ss[i], t, true);
      BranchCounts(ss[i], t, false);
    }
  }

  /** In every run, a main thread that is a member leaves only after every worker
      has, and until then the count is the number of live workers. */
  lemma MainLeavesLast(ss: seq<State>, acts: seq<Action>, i: nat)
    requires IsBehavior(ss, acts) && i < |ss|
    ensures At(ss[i], ss[i].c.main, Exited) ==> AllExited(ss[i])
    ensures !At(ss[i], ss[i].c.main, Exited) ==> ss[i].c.cnt == |LiveWorkers(ss[i])|
  {
    RunInv(ss, acts, i);
    NoLiveWorkers(ss[i]);
  }

  lemma NoLiveWorkers(s: State)
    ensures LiveWorkers(s) == {} && At(s, s.c.main, Exited) ==> AllExited(s)
  {
    forall t | LiveWorkers(s) == {} && At(s, s.c.main, Exited) && t in s.thr
      ensures s.thr[t].Exited?
    {
      assert t !in LiveWorkers(s);
    }
  }
}
