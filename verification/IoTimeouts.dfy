/** The timeout of a hooked socket call (src/hook.cc, `do_socket_io`): rounds of trying,
    arming a timer and an event, parking and looking at a flag that all rounds share. A
    timer's callback that an idle thread has already taken out survives `cancel_timer`
    and can reach into a later round. One call with a timeout; one action is one access
    to shared state. */
module IoTimeouts {
  import opened Wrappers

  /** Where the call is: about to call the system; timer added; event armed, parked until
      it is consumed; resumed; timer cancelled; flag seen clear, not yet reset; and the
      two ends. */
  datatype Phase = Try | Timed | Parked | Woken | Cleared | Tested | TimedOut | Ended

  /** A callback taken out of the timer set: not begun; past its test of the flag; past
      setting the flag and about to cancel the event. */
  datatype Progress = Taken | Passed | Raised

  /** What consumed the round's registration: readiness or a close, or the timeout of a
      round. */
  datatype Cause = ByReady | ByTimer(round: nat)

  /** `canceled` is the shared flag and `raisedBy` the round whose callback raised it last
      since it was reset. */
  datatype State = State(
    phase: Phase,
    round: nat,
    canceled: bool,
    raisedBy: Option<nat>,
    timers: set<nat>,
    cbs: map<nat, Progress>,
    armed: bool,
    cause: Option<Cause>)

  const START := State(Try, 0, false, None, {}, map[], false, None)

  datatype Action =
    | Begin          // EAGAIN: the next round adds its timer
    | Finish         // any other result
    | Arm            // add_event
    | ArmFails
    | Ready          // the event is consumed by readiness or close
    | Resume         // the wake-up is run
    | ClearTimer     // cancel_timer
    | Test           // the test of the flag
    | Reset          // the flag is reset, and the loop repeats
    | Expire(q: nat)    // an idle thread takes the timer out
    | CbTest(q: nat)    // its callback tests the call and the flag
    | CbRaise(q: nat)   // and raises the flag
    | CbCancel(q: nat)  // and cancels the event

  predicate Over(s: State) { s.phase == TimedOut || s.phase == Ended }

  predicate CbAt(s: State, q: nat, p: Progress) { q in s.cbs && s.cbs[q] == p }

  predicate Enabled(s: State, a: Action) {
    match a
    case Begin => s.phase == Try
    case Finish => s.phase == Try
    case Arm => s.phase == Timed
    case ArmFails => s.phase == Timed
    case Ready => s.armed
    case Resume => s.phase == Parked && !s.armed
    case ClearTimer => s.phase == Woken
    case Test => s.phase == Cleared
    case Reset => s.phase == Tested
    case Expire(q) => q in s.timers
    case CbTest(q) => CbAt(s, q, Taken)
    case CbRaise(q) => CbAt(s, q, Passed)
    case CbCancel(q) => CbAt(s, q, Raised)
  }

  function Apply(s: State, a: Action): State
    requires Enabled(s, a)
  {
    match a
    case Begin => s.(phase := Timed, round := s.round + 1, timers := s.timers + {s.round + 1}, cause := None)
    case Finish => s.(phase := Ended)
    case Arm => s.(phase := Parked, armed := true)
    case ArmFails => s.(phase := Ended, timers := s.timers - {s.round})
    case Ready => s.(armed := false, cause := Some(ByReady))
    case Resume => s.(phase := Woken)
    case ClearTimer => s.(phase := Cleared, timers := s.timers - {s.round})
    case Test => s.(phase := if s.canceled then TimedOut else Tested)
    case Reset => s.(phase := Try, canceled := false, raisedBy := None)
    case Expire(q) => s.(timers := s.timers - {q}, cbs := s.cbs[q := Taken])
    case CbTest(q) => s.(cbs := if s.canceled || Over(s) then s.cbs - {q} else s.cbs[q := Passed])
    case CbRaise(q) => s.(cbs := s.cbs[q := Raised], canceled := true, raisedBy := Some(q))
    case CbCancel(q) =>
      s.(cbs := s.cbs - {q}, armed := false, cause := if s.armed then Some(ByTimer(q)) else s.cause)
  }

  /** The actions lead from `s` to `s'`. */
  ghost predicate Leads(s: State, acts: seq<Action>, s': State)
    decreases |acts|
  {
    if acts == [] then s' == s else Enabled(s, acts[0]) && Leads(Apply(s, acts[0]), acts[1..], s')
  }

  ghost predicate Reachable(s: State) { exists acts :: Leads(START, acts, s) }

  // --------------------------------------------------------------- what always holds

  /** Only the current round's timer is pending, and only between its adding and its
      cancelling; a callback belongs to a round that has begun; the flag is up exactly if
      somebody raised it; and the current round's own callback cannot have cancelled the
      event, or be about to, with the flag down. */
  ghost predicate Inv(s: State) {
    && (forall q :: q in s.timers ==> q == s.round > 0 && q !in s.cbs)
    && (s.timers != {} ==> s.phase == Timed || s.phase == Parked || s.phase == Woken)
    && (forall q :: q in s.cbs ==> 0 < q <= s.round)
    && (s.canceled <==> s.raisedBy.Some?) && (s.raisedBy.Some? ==> s.raisedBy.value <= s.round)
    && (s.armed ==> s.phase == Parked) && (s.phase == TimedOut ==> s.canceled)
    && (InRound(s) && (CbAt(s, s.round, Raised) || s.cause == Some(ByTimer(s.round))) ==> s.canceled)
    && (InRound(s) && s.phase != Timed && !s.armed ==> s.cause.Some?)
  }

  predicate InRound(s: State) {
    s.phase == Timed || s.phase == Parked || s.phase == Woken || s.phase == Cleared || s.phase == TimedOut
  }

  lemma StepInv(s: State, a: Action)
    requires Inv(s) && Enabled(s, a)
    ensures Inv(Apply(s, a))
  {
  }

  lemma {:induction false} LeadsInv(s: State, acts: seq<Action>, s': State)
    requires Inv(s) && Leads(s, acts, s')
    ensures Inv(s')
    decreases |acts|
  {
    if acts != [] {
      StepInv(s, acts[0]);
      LeadsInv(Apply(s, acts[0]), acts[1..], s');
    }
  }

  lemma ReachableInv(s: State)
    requires Reachable(s)
    ensures Inv(s)
  {
    var acts :| Leads(START, acts, s);
    LeadsInv(START, acts, s);
  }

  /** Action `m` raises the flag and no later one resets it. */
  ghost predicate RaisedLast(acts: seq<Action>, m: nat) {
    m < |acts| && acts[m].CbRaise? && forall n :: m < n < |acts| ==> acts[n] != Reset
  }

  /** In every run, a flag that is up was raised by a callback and not reset since; so at the
      beginning of a round it is down, unless a callback of an earlier round was faster. */
  lemma {:induction false} FlagWasRaised(s: State, acts: seq<Action>, s': State)
    requires Leads(s, acts, s') && s'.canceled
    ensures (exists m: nat :: RaisedLast(acts, m)) || (s.canceled && forall n :: 0 <= n < |acts| ==> acts[n] != Reset)
    decreases |acts|
  {
    if acts != [] {
      var rest := acts[1..];
      FlagWasRaised(Apply(s, acts[0]), rest, s');
      if m: nat :| RaisedLast(rest, m) {
        assert forall n :: m + 1 < n < |acts| ==> acts[n] == rest[n - 1];
        assert RaisedLast(acts, m + 1);
      } else {
        assert forall n :: 0 < n < |acts| ==> acts[n] == rest[n - 1];
        assert acts[0].CbRaise? ==> RaisedLast(acts, 0);
      }
    }
  }

  /** A callback of a round that is neither pending nor on its way is gone for good. */
  lemma {:induction false} GoneForGood(s: State, acts: seq<Action>, s': State, q: nat)
    requires Inv(s) && q !in s.cbs && q !in s.timers && q <= s.round && Leads(s, acts, s')
    ensures q !in s'.cbs && q !in s'.timers
    ensures forall n :: 0 <= n < |acts| ==> acts[n] != CbRaise(q) && acts[n] != CbCancel(q)
    decreases |acts|
  {
    if acts != [] {
      StepInv(s, acts[0]);
      GoneForGood(Apply(s, acts[0]), acts[1..], s', q);
      assert forall n :: 0 < n < |acts| ==> acts[n] == acts[1..][n - 1];
    }
  }

  /** A callback that begins when the flag is up, or when the call is over, never raises the
      flag or cancels anything; and one that has cancelled does not do so again. */
  lemma CallbackOnce(s: State, a: Action, q: nat, acts: seq<Action>, s': State)
    requires Reachable(s) && Enabled(s, a) && Leads(Apply(s, a), acts, s')
    requires (a == CbTest(q) && (s.canceled || s.phase == TimedOut || s.phase == Ended)) || a == CbCancel(q)
    ensures forall n :: 0 <= n < |acts| ==> acts[n] != CbRaise(q) && acts[n] != CbCancel(q)
  {
    ReachableInv(s);
    StepInv(s, a);
    GoneForGood(Apply(s, a), acts, s', q);
  }

  /** A call that has ended without a timeout never reports one. */
  lemma EndedForGood(s: State, a: Action, acts: seq<Action>, s': State)
    requires Enabled(s, a) && (a == Finish || a == ArmFails) && Leads(Apply(s, a), acts, s')
    ensures s'.phase == Ended
  {
    RoundsGrow(Apply(s, a), acts, s');
  }

  // -------------------------------------------------------------- timeouts of others

  /** Another round's timeout had a hand in the result: it consumed the registration, or
      it raised the flag. */
  predicate Foreign(s: State) {
    (s.cause.Some? && s.cause.value.ByTimer? && s.cause.value.round != s.round) || s.raisedBy != Some(s.round)
  }

  /** What a round begins with: nothing left over from earlier ones. */
  predicate Clean(s: State) { s.cbs == map[] && !s.canceled }

  /** In a round that began clean only its own timeout is about. */
  ghost predicate OwnOnly(s: State, r: nat) {
    && s.round == r && s.cbs.Keys <= {r} && s.raisedBy in {None, Some(r)}
    && s.cause in {None, Some(ByReady), Some(ByTimer(r))}
  }

  lemma OwnOnlyStep(s: State, a: Action, r: nat)
    requires Inv(s) && OwnOnly(s, r) && s.phase != Try && Enabled(s, a)
    ensures OwnOnly(Apply(s, a), r)
  {
  }

  lemma CleanStep(s: State, a: Action)
    requires Inv(s) && s.phase == Try && Clean(s) && Enabled(s, a)
    ensures a == Finish || (a == Begin && OwnOnly(Apply(s, a), s.round + 1))
  {
    assert s.timers == {};
  }

  lemma {:induction false} RoundsGrow(s: State, acts: seq<Action>, s': State)
    requires Leads(s, acts, s')
    ensures s.round <= s'.round && (Over(s) ==> Over(s') && s'.phase == s.phase && s'.round == s.round)
    decreases |acts|
  {
    if acts != [] {
      RoundsGrow(Apply(s, acts[0]), acts[1..], s');
    }
  }

  lemma {:induction false} OwnOnlyRound(s: State, acts: seq<Action>, s': State, r: nat)
    requires Inv(s) && OwnOnly(s, r) && Leads(s, acts, s') && s.phase != Try && s'.round == r && s'.phase == TimedOut
    ensures OwnOnly(s', r)
    decreases |acts|
  {
    if acts != [] {
      var s1 := Apply(s, acts[0]);
      StepInv(s, acts[0]);
      OwnOnlyStep(s, acts[0], r);
      if s1.phase == Try {
        NextRound(s1, acts[1..], s');
      } else {
        OwnOnlyRound(s1, acts[1..], s', r);
      }
    }
  }

  /** From a try the next end by timeout is in a later round. */
  lemma {:induction false} NextRound(s: State, acts: seq<Action>, s': State)
    requires s.phase == Try && Leads(s, acts, s') && s'.phase == TimedOut
    ensures s'.round > s.round
    decreases |acts|
  {
    var s1 := Apply(s, acts[0]);
    if s1.phase == Try {
      NextRound(s1, acts[1..], s');
    } else {
      RoundsGrow(s1, acts[1..], s');
    }
  }

  /** A clean round is its own: only Begin or the end of the call can come first. */
  lemma CleanRound(s: State, acts: seq<Action>, s': State)
    requires Inv(s) && s.phase == Try && Clean(s) && Leads(s, acts, s') && s'.phase == TimedOut
             && s'.round == s.round + 1
    ensures OwnOnly(s', s'.round) && Inv(s')
  {
    LeadsInv(s, acts, s');
    CleanStep(s, acts[0]);
    StepInv(s, acts[0]);
    if acts[0] == Finish {
      RoundsGrow(Apply(s, acts[0]), acts[1..], s');
    } else {
      OwnOnlyRound(Apply(s, acts[0]), acts[1..], s', s.round + 1);
    }
  }

  lemma NoSteps(s: State)
    ensures Leads(s, [], s)
  {
  }

  /** One action, then the rest. */
  lemma Lead(s: State, a: Action, acts: seq<Action>, s': State)
    requires Enabled(s, a) && Leads(Apply(s, a), acts, s')
    ensures Leads(s, [a] + acts, s')
  {
    assert ([a] + acts)[1..] == acts;
  }

  lemma {:induction false} LeadsOn(s: State, acts: seq<Action>, s': State, more: seq<Action>, s'': State)
    requires Leads(s, acts, s') && Leads(s', more, s'')
    ensures Leads(s, acts + more, s'')
    decreases |acts|
  {
    if acts == [] {
      assert acts + more == more;
    } else {
      LeadsOn(Apply(s, acts[0]), acts[1..], s', more, s'');
      assert (acts + more)[1..] == acts[1..] + more;
    }
  }

  /** From a consumed registration with the flag up, the call times out. */
  lemma Report(s: State) returns (acts: seq<Action>, s': State)
    requires s.phase == Parked && !s.armed && s.canceled
    ensures Leads(s, acts, s') && s'.phase == TimedOut && s'.round == s.round && s'.cause == s.cause
            && s'.raisedBy == s.raisedBy
  {
    var s1 := Apply(s, Resume);
    var s2 := Apply(s1, ClearTimer);
    s' := Apply(s2, Test);
    Lead(s2, Test, [], s');
    Lead(s1, ClearTimer, [Test], s');
    acts := [Resume] + ([ClearTimer] + ([Test] + []));
    Lead(s, Resume, [ClearTimer] + ([Test] + []), s');
  }

  /** Parked in a round with the flag already up, by somebody else: readiness ends it. */
  lemma ReadyReport(s: State) returns (acts: seq<Action>, s': State)
    requires s.phase == Parked && s.armed && s.canceled && s.raisedBy != Some(s.round)
    ensures Leads(s, acts, s') && s'.phase == TimedOut && s'.round == s.round && Foreign(s')
  {
    var s1 := Apply(s, Ready);
    var more: seq<Action>;
    more, s' := Report(s1);
    acts := [Ready] + more;
    Lead(s, Ready, more, s');
  }

  /** Parked with an earlier callback about to cancel: it ends the round, and the flag is
      up or this round's own callback raises it. */
  lemma RaisedReport(s: State, q: nat) returns (acts: seq<Action>, s': State)
    requires s.phase == Parked && s.armed && CbAt(s, q, Raised) && q != s.round && (s.canceled || s.round in s.timers)
    ensures Leads(s, acts, s') && s'.phase == TimedOut && s'.round == s.round && Foreign(s')
  {
    var s1 := Apply(s, CbCancel(q));
    var more: seq<Action>;
    if s.canceled {
      more, s' := Report(s1);
    } else {
      var r := s.round;
      var s2 := Apply(s1, Expire(r));
      var s3 := Apply(s2, CbTest(r));
      var s4 := Apply(s3, CbRaise(r));
      more, s' := Report(s4);
      Lead(s3, CbRaise(r), more, s');
      Lead(s2, CbTest(r), [CbRaise(r)] + more, s');
      Lead(s1, Expire(r), [CbTest(r)] + ([CbRaise(r)] + more), s');
      more := [Expire(r)] + ([CbTest(r)] + ([CbRaise(r)] + more));
    }
    acts := [CbCancel(q)] + more;
    Lead(s, CbCancel(q), more, s');
  }

  lemma PassedReport(s: State, q: nat) returns (acts: seq<Action>, s': State)
    requires s.phase == Parked && s.armed && CbAt(s, q, Passed) && q != s.round
    ensures Leads(s, acts, s') && s'.phase == TimedOut && s'.round == s.round && Foreign(s')
  {
    var more: seq<Action>;
    more, s' := RaisedReport(Apply(s, CbRaise(q)), q);
    acts := [CbRaise(q)] + more;
    Lead(s, CbRaise(q), more, s');
  }

  lemma TakenReport(s: State, q: nat) returns (acts: seq<Action>, s': State)
    requires s.phase == Parked && s.armed && CbAt(s, q, Taken) && q != s.round && !s.canceled
    ensures Leads(s, acts, s') && s'.phase == TimedOut && s'.round == s.round && Foreign(s')
  {
    var more: seq<Action>;
    more, s' := PassedReport(Apply(s, CbTest(q)), q);
    acts := [CbTest(q)] + more;
    Lead(s, CbTest(q), more, s');
  }

  /** From a parked round with something left over. */
  lemma DirtyReport(s: State) returns (acts: seq<Action>, s': State)
    requires s.phase == Parked && s.armed && s.round in s.timers && (s.canceled ==> s.raisedBy != Some(s.round))
    requires s.canceled || exists q :: q in s.cbs && q != s.round
    ensures Leads(s, acts, s') && s'.phase == TimedOut && s'.round == s.round && Foreign(s')
  {
    if s.canceled {
      acts, s' := ReadyReport(s);
    } else {
      var q :| q in s.cbs && q != s.round;
      match s.cbs[q]
      case Taken => acts, s' := TakenReport(s, q);
      case Passed => acts, s' := PassedReport(s, q);
      case Raised => acts, s' := RaisedReport(s, q);
    }
  }

  lemma DirtyRound(s: State) returns (acts: seq<Action>, s': State)
    requires Inv(s) && s.phase == Try && !Clean(s)
    ensures Leads(s, acts, s') && s'.phase == TimedOut && s'.round == s.round + 1 && Foreign(s')
  {
    var s1 := Apply(s, Begin);
    var s2 := Apply(s1, Arm);
    if !s.canceled {
      var q :| q in s.cbs;
      assert q in s2.cbs && q != s2.round;
    }
    var more: seq<Action>;
    more, s' := DirtyReport(s2);
    Lead(s1, Arm, more, s');
    acts := [Begin] + ([Arm] + more);
    Lead(s, Begin, [Arm] + more, s');
  }

  /** The actions lead from a try to an ETIMEDOUT of the next round in which another round
      had a hand. */
  ghost predicate EndsForeign(s: State, acts: seq<Action>, s': State) {
    Leads(s, acts, s') && s'.phase == TimedOut && s'.round == s.round + 1 && Foreign(s')
  }

  /** Another round's timeout can have a hand in the next round's ETIMEDOUT if and only if,
      when that round begins, a callback of an earlier round is still on its way or has
      raised the flag since its reset. */
  lemma ForeignIff(s: State)
    requires Reachable(s) && s.phase == Try
    ensures (exists acts, s' :: EndsForeign(s, acts, s')) <==> !Clean(s)
  {
    ReachableInv(s);
    if Clean(s) {
      forall acts, s'
        ensures !EndsForeign(s, acts, s')
      {
        if EndsForeign(s, acts, s') {
          CleanRound(s, acts, s');
        }
      }
    } else {
      var acts, s' := DirtyRound(s);
      assert EndsForeign(s, acts, s');
    }
  }

  /** A round that began clean: ETIMEDOUT comes from its own timeout's raising the flag,
      and that timeout consumed the registration if and only if readiness did not. */
  lemma GenuineIff(s: State, acts: seq<Action>, s': State)
    requires Reachable(s) && s.phase == Try && Clean(s)
    requires Leads(s, acts, s') && s'.phase == TimedOut && s'.round == s.round + 1
    ensures s'.raisedBy == Some(s'.round)
    ensures s'.cause == Some(ByTimer(s'.round)) <==> s'.cause != Some(ByReady)
  {
    ReachableInv(s);
    CleanRound(s, acts, s');
  }

  /** A round's own timeout, once it has consumed the registration, is always reported. */
  lemma OwnTimeoutReported(s: State)
    requires Reachable(s) && s.phase == Cleared && s.cause == Some(ByTimer(s.round))
    ensures Apply(s, Test).phase == TimedOut
  {
    ReachableInv(s);
  }

  // --------------------------------------------------------------------- two runs

  /** The first round is over by readiness, while its callback is on its way. */
  const LEFTOVER := State(Try, 1, false, None, {}, map[1 := Taken], false, Some(ByReady))

  /** Readiness ends a round whose timer an idle thread has just taken out: the next round
      begins with the first one's callback on its way. */
  lemma LeftoverReached() returns (acts: seq<Action>)
    ensures Leads(START, acts, LEFTOVER)
  {
    hide Leads;
    var s1 := Apply(START, Begin);
    var s2 := Apply(s1, Arm);
    var s3 := Apply(s2, Ready);
    var s4 := Apply(s3, Expire(1));
    assert s4 == State(Parked, 1, false, None, {}, map[1 := Taken], false, Some(ByReady));
    var rest := Unreported();
    Lead(s3, Expire(1), rest, LEFTOVER);
    Lead(s2, Ready, [Expire(1)] + rest, LEFTOVER);
    Lead(s1, Arm, [Ready] + ([Expire(1)] + rest), LEFTOVER);
    Lead(START, Begin, [Arm] + ([Ready] + ([Expire(1)] + rest)), LEFTOVER);
    acts := [Begin] + ([Arm] + ([Ready] + ([Expire(1)] + rest)));
  }

  lemma Unreported() returns (acts: seq<Action>)
    ensures Leads(State(Parked, 1, false, None, {}, map[1 := Taken], false, Some(ByReady)), acts, LEFTOVER)
  {
    hide Leads;
    var s4 := State(Parked, 1, false, None, {}, map[1 := Taken], false, Some(ByReady));
    var s5 := Apply(s4, Resume);
    var s6 := Apply(s5, ClearTimer);
    assert s6.timers == {};
    var s7 := Apply(s6, Test);
    assert Apply(s7, Reset) == LEFTOVER;
    NoSteps(LEFTOVER);
    Lead(s7, Reset, [], LEFTOVER);
    Lead(s6, Test, [Reset] + [], LEFTOVER);
    Lead(s5, ClearTimer, [Test] + ([Reset] + []), LEFTOVER);
    Lead(s4, Resume, [ClearTimer] + ([Test] + ([Reset] + [])), LEFTOVER);
    acts := [Resume] + ([ClearTimer] + ([Test] + ([Reset] + [])));
  }

  /** A call whose second round reports ETIMEDOUT because of the first round's timeout. */
  lemma StaleTimeout() returns (acts: seq<Action>, s: State)
    ensures Leads(START, acts, s) && s.phase == TimedOut && s.round == 2 && s.cause == Some(ByTimer(1))
  {
    hide Leads;
    var first := LeftoverReached();
    var s1 := Apply(LEFTOVER, Begin);
    var s2 := Apply(s1, Arm);
    var s3 := Apply(s2, CbTest(1));
    var s4 := Apply(s3, CbRaise(1));
    var s5 := Apply(s4, CbCancel(1));
    var more: seq<Action>;
    more, s := Report(s5);
    Lead(s4, CbCancel(1), more, s);
    Lead(s3, CbRaise(1), [CbCancel(1)] + more, s);
    Lead(s2, CbTest(1), [CbRaise(1)] + ([CbCancel(1)] + more), s);
    Lead(s1, Arm, [CbTest(1)] + ([CbRaise(1)] + ([CbCancel(1)] + more)), s);
    var rest := [Begin] + ([Arm] + ([CbTest(1)] + ([CbRaise(1)] + ([CbCancel(1)] + more))));
    Lead(LEFTOVER, Begin, [Arm] + ([CbTest(1)] + ([CbRaise(1)] + ([CbCancel(1)] + more))), s);
    LeadsOn(START, first, LEFTOVER, rest, s);
    acts := first + rest;
  }

  /** A first round that reports ETIMEDOUT although readiness consumed its registration. */
  lemma ReadyAndTimedOut() returns (acts: seq<Action>, s: State)
    ensures Leads(START, acts, s) && s.phase == TimedOut && s.round == 1 && s.cause == Some(ByReady)
  {
    hide Leads;
    var s1 := Apply(START, Begin);
    var s2 := Apply(s1, Arm);
    var s3 := Apply(s2, Ready);
    var s4 := Apply(s3, Expire(1));
    var s5 := Apply(s4, CbTest(1));
    var s6 := Apply(s5, CbRaise(1));
    var more: seq<Action>;
    more, s := Report(s6);
    Lead(s5, CbRaise(1), more, s);
    Lead(s4, CbTest(1), [CbRaise(1)] + more, s);
    Lead(s3, Expire(1), [CbTest(1)] + ([CbRaise(1)] + more), s);
    Lead(s2, Ready, [Expire(1)] + ([CbTest(1)] + ([CbRaise(1)] + more)), s);
    Lead(s1, Arm, [Ready] + ([Expire(1)] + ([CbTest(1)] + ([CbRaise(1)] + more))), s);
    acts := [Begin] + ([Arm] + ([Ready] + ([Expire(1)] + ([CbTest(1)] + ([CbRaise(1)] + more)))));
    Lead(START, Begin, [Arm] + ([Ready] + ([Expire(1)] + ([CbTest(1)] + ([CbRaise(1)] + more)))), s);
  }
}
