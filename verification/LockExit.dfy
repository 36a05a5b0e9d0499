/** Which workers can still leave their loop.

    A worker exits only on reading exactly LIMIT, and the other worker bumps the same counter,
    so a worker can miss the value and then loop for ever. From every reachable state this
    module decides, by a test on the program counters and one counter, whether a worker can
    still exit in some continuation. */
module LockExit {
  import opened LockProtocol
  import opened LockProgress

  /** The worker has exited, or has read LIMIT and exits with its next step. */
  predicate Gone(s: State, t: Tid) {
    HasRead(s, t, LIMIT)
  }

  /** A call of the other worker that holds a lock and has not bumped `t`'s counter yet. */
  predicate OtherOwes(s: State, t: Tid) {
    HoldsFirst(s.W(Other(t)).pc) && !PastSecond(s.W(Other(t)).pc)
  }

  /** The smallest value that `t` can return next, unless the system is doomed. Before its own
      call starts it must first let the other worker finish. */
  function EarliestRead(s: State, t: Tid): int {
    match s.W(t).pc
    case Check => s.Counter(t) + 1 + Bit(OtherOwes(s, t))
    case LockFirst => s.Counter(t) + 1 + Bit(OtherOwes(s, t))
    case LoadFirst => s.Counter(t) + 1
    case StoreFirst => s.Counter(t) + 1
    case _ => s.Counter(t)
  }

  ghost predicate CanExit(s: State, t: Tid) {
    exists schedule :: Run(s, schedule).W(t).pc == Exited
  }

  // ----- A worker that has missed LIMIT never exits -----

  predicate Lost(s: State, t: Tid) {
    !Gone(s, t) && (Doomed(s) || EarliestRead(s, t) > LIMIT)
  }

  lemma OwnStepLost(s: State, t: Tid)
    requires Inv(s) && Lost(s, t) && !Doomed(s)
    ensures Lost(Step(s, t), t)
  {
    var s' := Step(s, t);
    assert s'.W(Other(t)) == s.W(Other(t));
    if s.W(t).pc == ReadBack {
      assert s'.W(t).ret == s.Counter(t) > LIMIT;
    } else if Enabled(s, t) {
      QuietStep(s, t);
    }
  }

  /** What a step of `u` does to the other worker's view. */
  lemma StepSeenByOther(s: State, u: Tid)
    requires Registers(s)
    ensures var s', t := Step(s, u), Other(u);
            && s'.W(t) == s.W(t)
            && (s'.W(u).pc == Following(s.W(u)) || s' == s)
            && s'.Counter(t) == s.Counter(t) + Bit(s.W(u).pc == StoreSecond)
  {
  }

  lemma StaysLost(s: State, t: Tid, s': State)
    requires Ownership(s) && Lost(s, t) && !Doomed(s)
    requires s'.W(t) == s.W(t)
    requires s'.W(Other(t)).pc == Following(s.W(Other(t))) || s' == s
    requires s'.Counter(t) == s.Counter(t) + Bit(s.W(Other(t)).pc == StoreSecond)
    ensures Lost(s', t)
  {
  }

  lemma OtherStepLost(s: State, t: Tid)
    requires Inv(s) && Lost(s, t) && !Doomed(s)
    ensures Lost(Step(s, Other(t)), t)
  {
    StepSeenByOther(s, Other(t));
    StaysLost(s, t, Step(s, Other(t)));
  }

  lemma LostStep(s: State, t: Tid, u: Tid)
    requires Inv(s) && Lost(s, t)
    ensures Lost(Step(s, u), t)
  {
    if Doomed(s) {
      DoomedStep(s, u);
    } else if u == t {
      OwnStepLost(s, t);
    } else {
      OtherStepLost(s, t);
    }
  }

  lemma {:induction false} LostForGood(s: State, t: Tid, schedule: seq<Tid>)
    requires Inv(s) && Lost(s, t)
    ensures Lost(Run(s, schedule), t)
    decreases schedule
  {
    if schedule != [] {
      LostStep(s, t, schedule[0]);
      StepKeepsInv(s, schedule[0]);
      LostForGood(Step(s, schedule[0]), t, schedule[1..]);
    }
  }

  // ----- A worker that is not lost has a schedule that makes it exit -----

  /** `t` has finished a call and is about to return `value`. */
  predicate AboutToReturn(s: State, t: Tid, value: int) {
    Inv(s) && s.W(t).pc == ReadBack && s.Counter(t) == value
  }

  /** The other worker finishes the call that it is in. */
  lemma LetOtherFinish(s: State, t: Tid) returns (schedule: seq<Tid>)
    requires Inv(s) && !HoldsFirst(s.W(t).pc)
    ensures var s' := Run(s, schedule);
            && Inv(s') && s'.W(t) == s.W(t) && !HoldsFirst(s'.W(Other(t)).pc)
            && s'.Counter(t) == s.Counter(t) + Bit(OtherOwes(s, t))
  {
    if HoldsFirst(s.W(Other(t)).pc) {
      schedule := CompleteAlone(s, Other(t));
    } else {
      schedule := [];
    }
  }

  /** `t` can run alone from `s'`, and then returns the earliest value it could from `s`. */
  predicate WayIsClear(s: State, t: Tid, s': State) {
    && Inv(s') && ClearPath(s', t) && !Leaving(s', t)
    && s'.Counter(t) + Pending(s'.W(t).pc) == EarliestRead(s, t)
  }

  lemma LastUnlock(s: State, u: Tid)
    requires s.W(u).pc == UnlockFirst
    ensures var s' := Step(s, u);
            && s'.W(Other(u)) == s.W(Other(u)) && s'.W(u).pc == ReadBack
            && s'.sequence1 == s.sequence1 && s'.sequence2 == s.sequence2
  {
  }

  lemma AfterLastUnlock(s: State, t: Tid, s': State)
    requires Inv(s') && HoldsFirst(s.W(t).pc) && s'.W(t) == s.W(t) && s'.W(Other(t)).pc == ReadBack
    requires s'.Counter(t) == s.Counter(t)
    ensures WayIsClear(s, t, s')
  {
  }

  /** The other worker's last unlock. */
  lemma LastUnlockClears(s: State, t: Tid)
    requires Inv(s) && HoldsFirst(s.W(t).pc) && s.W(Other(t)).pc == UnlockFirst
    ensures WayIsClear(s, t, Step(s, Other(t)))
  {
    StepKeepsInv(s, Other(t));
    LastUnlock(s, Other(t));
    AfterLastUnlock(s, t, Step(s, Other(t)));
  }

  lemma OutsideWaysClear(s: State, t: Tid, s': State)
    requires Inv(s) && !Gone(s, t) && !HoldsFirst(s.W(t).pc) && s.W(t).pc != ReadBack
    requires Inv(s') && s'.W(t) == s.W(t) && !HoldsFirst(s'.W(Other(t)).pc)
    requires s'.Counter(t) == s.Counter(t) + Bit(OtherOwes(s, t))
    ensures WayIsClear(s, t, s')
  {
  }

  lemma HolderWayIsClear(s: State, t: Tid)
    requires Inv(s) && !Doomed(s) && HoldsFirst(s.W(t).pc) && s.W(Other(t)).pc != UnlockFirst
    ensures WayIsClear(s, t, s)
  {
  }

  /** The other worker clears the way without making the earliest value any later. */
  lemma ClearTheWay(s: State, t: Tid) returns (schedule: seq<Tid>)
    requires Inv(s) && !Doomed(s) && !Gone(s, t) && s.W(t).pc != ReadBack
    ensures WayIsClear(s, t, Run(s, schedule))
  {
    if !HoldsFirst(s.W(t).pc) {
      schedule := LetOtherFinish(s, t);
      OutsideWaysClear(s, t, Run(s, schedule));
    } else if s.W(Other(t)).pc == UnlockFirst {
      schedule := [Other(t)];
      RunOne(s, Other(t));
      LastUnlockClears(s, t);
    } else {
      schedule := [];
      HolderWayIsClear(s, t);
    }
  }

  lemma ToReadBack(s: State, t: Tid) returns (schedule: seq<Tid>)
    requires Inv(s) && !Doomed(s) && !Gone(s, t)
    ensures AboutToReturn(Run(s, schedule), t, EarliestRead(s, t))
  {
    if s.W(t).pc == ReadBack {
      schedule := [];
    } else {
      var first := ClearTheWay(s, t);
      var rest := CompleteAlone(Run(s, first), t);
      schedule := first + rest;
      RunAppend(s, first, rest);
    }
  }

  lemma ReadLimit(s: State, t: Tid)
    requires AboutToReturn(s, t, LIMIT)
    ensures Step(Step(s, t), t).W(t).pc == Exited
    ensures Step(Step(s, t), t).W(Other(t)) == s.W(Other(t))
    ensures forall u :: Step(Step(s, t), t).Counter(u) == s.Counter(u)
    ensures Run(s, [t, t]) == Step(Step(s, t), t)
  {
    RunCons(s, t, [t]);
    assert [t, t] == [t] + [t];
    RunOne(Step(s, t), t);
  }

  /** Alone, a worker returns every following value in turn until it is about to return
      `target`. */
  lemma {:induction false} AloneUpTo(s: State, t: Tid, target: int) returns (schedule: seq<Tid>)
    requires Inv(s) && s.W(t).pc == ReadBack && !HoldsFirst(s.W(Other(t)).pc)
    requires s.Counter(t) <= target <= LIMIT
    ensures var s' := Run(s, schedule);
            AboutToReturn(s', t, target) && s'.W(Other(t)) == s.W(Other(t))
    decreases target - s.Counter(t)
  {
    if s.Counter(t) == target {
      schedule := [];
    } else {
      var first := CompleteAlone(s, t);
      var rest := AloneUpTo(Run(s, first), t, target);
      schedule := first + rest;
      RunAppend(s, first, rest);
    }
  }

  lemma ExitFromReadBack(s: State, t: Tid) returns (schedule: seq<Tid>)
    requires Inv(s) && s.W(t).pc == ReadBack && s.Counter(t) <= LIMIT
    ensures Run(s, schedule).W(t).pc == Exited
  {
    var wait := [];
    if s.Counter(t) < LIMIT {
      var finish := LetOtherFinish(s, t);
      var rest := AloneUpTo(Run(s, finish), t, LIMIT);
      RunAppend(s, finish, rest);
      wait := finish + rest;
    }
    ReadLimit(Run(s, wait), t);
    RunAppend(s, wait, [t, t]);
    schedule := wait + [t, t];
  }

  lemma NotLostExits(s: State, t: Tid) returns (schedule: seq<Tid>)
    requires Inv(s) && !Lost(s, t)
    ensures Run(s, schedule).W(t).pc == Exited
  {
    if s.W(t).pc == Exited {
      schedule := [];
    } else if Gone(s, t) {
      schedule := [t];
      RunOne(s, t);
    } else {
      var first := ToReadBack(s, t);
      var rest := ExitFromReadBack(Run(s, first), t);
      schedule := first + rest;
      RunAppend(s, first, rest);
    }
  }

  lemma LostNeverExits(s: State, t: Tid)
    requires Inv(s) && Lost(s, t)
    ensures !CanExit(s, t)
  {
    forall schedule ensures Run(s, schedule).W(t).pc != Exited {
      LostForGood(s, t, schedule);
    }
  }

  /** A worker can still exit exactly when it has read 100000, or the system is not doomed and
      the earliest value it can return is at most 100000. */
  lemma ExactExit(s: State, t: Tid)
    requires Reachable(s)
    ensures CanExit(s, t) <==> HasRead(s, t, 100000) || (!Doomed(s) && EarliestRead(s, t) <= 100000)
  {
    ReachableInv(s);
    if Lost(s, t) {
      LostNeverExits(s, t);
    } else {
      var schedule := NotLostExits(s, t);
    }
  }

  // ----- What the first exit decides for the other worker -----

  /** The worker is past its second increment and has not read back, or has read `value`. */
  predicate WillReturn(s: State, t: Tid, value: int) {
    PastSecond(s.W(t).pc) || s.W(t).pc == ReadBack || HasRead(s, t, value)
  }

  lemma ReadBackOnly(s: State, t: Tid)
    requires s.W(t).pc == ReadBack
    ensures var s' := Step(s, t);
            && s'.W(Other(t)) == s.W(Other(t)) && s'.W(t).pc == Check && s'.W(t).ret == s.Counter(t)
            && s'.sequence1 == s.sequence1 && s'.sequence2 == s.sequence2
  {
  }

  lemma AfterLimit(s: State, t: Tid)
    requires Inv(s) && s.W(t).pc == Check && s.Counter(t) == LIMIT
    ensures WillReturn(s, Other(t), LIMIT) <==>
              Gone(s, Other(t)) || (!Doomed(s) && EarliestRead(s, Other(t)) <= LIMIT)
  {
  }

  /** `t` returns 100000 in state `s`. From then on the other worker can exit exactly when at
      that moment it is past its second increment and has not read its counter back, or its
      own read has already yielded LIMIT. */
  lemma ExitOutcome(s: State, t: Tid)
    requires Reachable(s) && s.W(t).pc == ReadBack && s.Counter(t) == 100000
    ensures CanExit(Step(s, t), Other(t)) <==> WillReturn(s, Other(t), 100000)
  {
    ReachableInv(s);
    StepKeepsInv(s, t);
    RunOne(s, t);
    ReachableRun(s, [t]);
    ReadBackOnly(s, t);
    AfterLimit(Step(s, t), t);
    ExactExit(Step(s, t), Other(t));
  }

  /** Steps left to the exit of a worker that is past its second increment. */
  function StepsToExit(pc: PC): nat {
    match pc
    case UnlockSecond => 4
    case UnlockFirst => 3
    case ReadBack => 2
    case Check => 1
    case _ => 0
  }

  /** Both workers will leave: one has read LIMIT, and the other has too or is past its second
      increment. No counter changes any more. */
  predicate Closing(s: State, t: Tid) {
    && Gone(s, t)
    && (Gone(s, Other(t)) ||
        (s.Counter(Other(t)) == LIMIT && (PastSecond(s.W(Other(t)).pc) || s.W(Other(t)).pc == ReadBack)))
  }

  /** Both still leave, and `v` is `turns` steps closer to its exit. */
  predicate ClosingLater(s: State, s': State, t: Tid, v: Tid, turns: nat) {
    && Closing(s', t)
    && StepsToExit(s'.W(v).pc) == StepsToExit(s.W(v).pc) - Min(StepsToExit(s.W(v).pc), turns)
  }

  lemma GoneWorkerStep(s: State, t: Tid, v: Tid)
    requires Closing(s, t)
    ensures ClosingLater(s, Step(s, t), t, v, Bit(t == v))
  {
  }

  lemma LeavingWorkerStep(s: State, t: Tid, v: Tid)
    requires Closing(s, t)
    ensures ClosingLater(s, Step(s, Other(t)), t, v, Bit(Other(t) == v))
  {
  }

  lemma ClosingStep(s: State, t: Tid, u: Tid, v: Tid)
    requires Closing(s, t)
    ensures ClosingLater(s, Step(s, u), t, v, Bit(u == v))
  {
    if u == t {
      GoneWorkerStep(s, t, v);
    } else {
      LeavingWorkerStep(s, t, v);
    }
  }

  lemma ClosingTwice(s: State, s1: State, s2: State, t: Tid, v: Tid, a: nat, b: nat)
    requires ClosingLater(s, s1, t, v, a) && ClosingLater(s1, s2, t, v, b)
    ensures ClosingLater(s, s2, t, v, a + b)
  {
  }

  lemma {:induction false} ClosingRun(s: State, t: Tid, v: Tid, schedule: seq<Tid>)
    requires Closing(s, t)
    ensures ClosingLater(s, Run(s, schedule), t, v, Occurrences(schedule, v))
    decreases schedule
  {
    if schedule != [] {
      ClosingStep(s, t, schedule[0], v);
      ClosingRun(Step(s, schedule[0]), t, v, schedule[1..]);
      ClosingTwice(s, Step(s, schedule[0]), Run(s, schedule), t, v,
                   Bit(schedule[0] == v), Occurrences(schedule[1..], v));
    }
  }

  lemma ReturningLimitCloses(s: State, t: Tid)
    requires Reachable(s) && s.W(t).pc == ReadBack && s.Counter(t) == LIMIT
    requires CanExit(Step(s, t), Other(t))
    ensures Inv(Step(s, t)) && Closing(Step(s, t), t)
  {
    ExitOutcome(s, t);
    ReachableInv(s);
    StepKeepsInv(s, t);
  }

  /** When the other worker can still exit after `t` has returned 100000, it does: in every
      continuation that gives each worker four turns both have exited. */
  lemma ExitIsInevitable(s: State, t: Tid, schedule: seq<Tid>, u: Tid)
    requires Reachable(s) && s.W(t).pc == ReadBack && s.Counter(t) == 100000
    requires CanExit(Step(s, t), Other(t))
    requires Occurrences(schedule, u) >= 4
    ensures Run(Step(s, t), schedule).W(u).pc == Exited
  {
    ReturningLimitCloses(s, t);
    ClosingRun(Step(s, t), t, u, schedule);
    ClosedAtZero(Run(Step(s, t), schedule), t, u);
  }

  lemma ClosedAtZero(s: State, t: Tid, u: Tid)
    requires Closing(s, t) && StepsToExit(s.W(u).pc) == 0
    ensures s.W(u).pc == Exited
  {
  }

  /** A worker that has returned a value above 100000 never exits. */
  lemma OvershotNeverExits(s: State, t: Tid, i: nat)
    requires Reachable(s) && i < |s.W(t).returned| && s.W(t).returned[i].value > 100000
    ensures !CanExit(s, t)
  {
    ReachableInv(s);
    ExactExit(s, t);
    assert s.W(t).returned[|s.W(t).returned| - 1].value > LIMIT;
  }

  // ----- All the outcomes happen -----

  /** From a state where `t` is outside its function and the other worker holds nothing, `t`
      alone gets to return any later value up to LIMIT. */
  lemma AloneFromOutside(s: State, t: Tid, value: int) returns (schedule: seq<Tid>)
    requires Inv(s) && s.W(t).pc == LockFirst && !HoldsFirst(s.W(Other(t)).pc)
    requires s.Counter(t) < value <= LIMIT
    ensures AboutToReturn(Run(s, schedule), t, value)
    ensures Run(s, schedule).W(Other(t)) == s.W(Other(t))
  {
    var first := CompleteAlone(s, t);
    var rest := AloneUpTo(Run(s, first), t, value);
    schedule := first + rest;
    RunAppend(s, first, rest);
  }

  /** Both workers are outside their functions, far from LIMIT. */
  predicate Fresh(s: State, t: Tid) {
    s.W(t).pc == LockFirst && s.W(Other(t)).pc == LockFirst && s.Counter(t) < LIMIT - 1
  }

  lemma FreshInit(t: Tid)
    ensures Fresh(INIT, t)
  {
  }

  /** `t` alone runs until it has returned LIMIT and exited. */
  lemma LoneExit(s: State, t: Tid) returns (schedule: seq<Tid>)
    requires Inv(s) && Fresh(s, t)
    ensures Run(s, schedule).W(t).pc == Exited && Run(s, schedule).W(Other(t)).pc == LockFirst
  {
    var first := AloneFromOutside(s, t, LIMIT);
    ReadLimit(Run(s, first), t);
    RunAppend(s, first, [t, t]);
    schedule := first + [t, t];
  }

  /** Some run lets `t` exit while the other worker loops for ever: in no continuation does it
      exit. */
  lemma LoneExitIsReachable(t: Tid) returns (schedule: seq<Tid>)
    ensures var s := Run(INIT, schedule);
            s.W(t).pc == Exited && !CanExit(s, Other(t))
  {
    FreshInit(t);
    InvInit();
    schedule := LoneExit(INIT, t);
    RunKeepsInv(INIT, schedule);
    ExitedAtLimit(Run(INIT, schedule), t);
    LostNeverExits(Run(INIT, schedule), Other(t));
  }

  lemma ExitedAtLimit(s: State, t: Tid)
    requires Inv(s) && s.W(t).pc == Exited && s.W(Other(t)).pc == LockFirst
    ensures Lost(s, Other(t))
  {
  }

  /** One worker waits to return LIMIT - 1 while the other completes one more call: both are
      now about to return LIMIT. */
  lemma BothAtLimit(s: State) returns (schedule: seq<Tid>)
    requires Inv(s) && Fresh(s, One)
    ensures AboutToReturn(Run(s, schedule), One, LIMIT) && AboutToReturn(Run(s, schedule), Two, LIMIT)
  {
    var first := AloneFromOutside(s, One, LIMIT - 1);
    var rest := CompleteAlone(Run(s, first), Two);
    schedule := first + rest;
    RunAppend(s, first, rest);
  }

  lemma BothReturnLimit(s: State)
    requires AboutToReturn(s, One, LIMIT) && AboutToReturn(s, Two, LIMIT)
    ensures var s' := Run(s, [One, One] + [Two, Two]);
            s'.w1.pc == Exited && s'.w2.pc == Exited
  {
    ReadLimit(s, One);
    RunKeepsInv(s, [One, One]);
    var s1 := Run(s, [One, One]);
    assert AboutToReturn(s1, Two, LIMIT);
    ReadLimit(s1, Two);
    RunAppend(s, [One, One], [Two, Two]);
  }

  lemma BothExit(s: State) returns (schedule: seq<Tid>)
    requires Inv(s) && Fresh(s, One)
    ensures Run(s, schedule).w1.pc == Exited && Run(s, schedule).w2.pc == Exited
  {
    var first := BothAtLimit(s);
    BothReturnLimit(Run(s, first));
    schedule := first + ([One, One] + [Two, Two]);
    RunAppend(s, first, [One, One] + [Two, Two]);
  }

  ghost predicate OverWithoutDoom(s: State) {
    s.w1.pc == ReadBack && s.w2.pc == ReadBack && !Doomed(s) && !CanComplete(s)
  }

  /** Not completing another call does not take a deadlock: some run reaches a state where no
      lock is held and nobody has exited, yet both workers leave without another call. */
  lemma EndWithoutDoom() returns (schedule: seq<Tid>)
    ensures OverWithoutDoom(Run(INIT, schedule))
  {
    FreshInit(One);
    InvInit();
    schedule := BothAtLimit(INIT);
    NoCallLeft(Run(INIT, schedule));
  }

  lemma NoCallLeft(s: State)
    requires AboutToReturn(s, One, LIMIT) && AboutToReturn(s, Two, LIMIT)
    ensures OverWithoutDoom(s)
  {
    forall schedule ensures Run(s, schedule).Total() == s.Total() {
      BothLeavingForGood(s, schedule);
    }
  }

  /** Some run lets both workers exit. */
  lemma BothExitIsReachable() returns (schedule: seq<Tid>)
    ensures Run(INIT, schedule).w1.pc == Exited && Run(INIT, schedule).w2.pc == Exited
  {
    FreshInit(One);
    InvInit();
    schedule := BothExit(INIT);
  }

  /** One worker moves on from LIMIT - 1, the other completes a call, and so does the first
      again: both now return LIMIT + 1. */
  lemma BothOvershoot(s: State) returns (schedule: seq<Tid>)
    requires AboutToReturn(s, One, LIMIT - 1) && s.w2.pc == LockFirst
    ensures AboutToReturn(Run(s, schedule), One, LIMIT + 1) && Run(s, schedule).w2.pc == ReadBack
  {
    StepKeepsInv(s, One);
    var s1 := Step(s, One);
    assert s1.w1.pc == Check && s1.w1.ret == LIMIT - 1 && s1.w2.pc == LockFirst;
    var a := CompleteAlone(s1, Two);
    var b := CompleteAlone(Run(s1, a), One);
    RunAppend(s1, a, b);
    RunCons(s, One, a + b);
    schedule := [One] + (a + b);
  }

  lemma NeitherExits(s: State) returns (schedule: seq<Tid>)
    requires Inv(s) && Fresh(s, One)
    ensures AboutToReturn(Run(s, schedule), One, LIMIT + 1) && Run(s, schedule).w2.pc == ReadBack
  {
    var first := AloneFromOutside(s, One, LIMIT - 1);
    var rest := BothOvershoot(Run(s, first));
    schedule := first + rest;
    RunAppend(s, first, rest);
  }

  /** Neither worker exits in any continuation, and some continuation completes a call. */
  ghost predicate RunsOnWithoutExit(s: State) {
    CanComplete(s) && !CanExit(s, One) && !CanExit(s, Two)
  }

  lemma BothLost(s: State)
    requires AboutToReturn(s, One, LIMIT + 1) && s.w2.pc == ReadBack
    ensures RunsOnWithoutExit(s)
  {
    LostNeverExits(s, One);
    LostNeverExits(s, Two);
    NotDoomedCompletes(s);
  }

  /** Some run makes both workers miss LIMIT without a deadlock: neither can ever exit, and
      further calls can complete. */
  lemma NoExitIsReachable() returns (schedule: seq<Tid>)
    ensures RunsOnWithoutExit(Run(INIT, schedule))
  {
    FreshInit(One);
    InvInit();
    schedule := NeitherExits(INIT);
    BothLost(Run(INIT, schedule));
  }
}
