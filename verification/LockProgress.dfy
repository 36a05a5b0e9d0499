/** Deadlock and progress of the two workers: which states are lost, which are stuck, and that
    every other state can complete a call. */
module LockProgress {
  import opened LockProtocol

  /** Both workers hold their first mutex and still want their second. */
  predicate Doomed(s: State) {
    WantsSecond(s.w1.pc) && WantsSecond(s.w2.pc)
  }

  /** Both wait for the mutex the other one holds: line 22 against line 35. */
  predicate Deadlocked(s: State) {
    s.w1.pc == LockSecond && s.w2.pc == LockSecond
  }

  /** The worker has exited, or has read `value` and tests it next. */
  predicate HasRead(s: State, t: Tid, value: int) {
    s.W(t).pc == Exited || (s.W(t).pc == Check && s.W(t).ret == value)
  }

  /** The worker has read `value`, or reads it next unless the other worker bumps the counter. */
  predicate LeavesOn(s: State, t: Tid, value: int) {
    HasRead(s, t, value) || (s.W(t).pc == ReadBack && s.Counter(t) == value)
  }

  /** The worker's next steps end in its exit unless the other worker bumps the counter. */
  predicate Leaving(s: State, t: Tid) {
    LeavesOn(s, t, LIMIT)
  }

  predicate BothLeaving(s: State) {
    Leaving(s, One) && Leaving(s, Two)
  }

  predicate Stuck(s: State) {
    !Enabled(s, One) && !Enabled(s, Two)
  }

  // ----- Progress -----

  /** Nobody can step exactly when both workers have exited or the two wait for each other. */
  lemma ProgressCharacterised(s: State)
    requires Reachable(s)
    ensures Stuck(s) <==> (s.w1.pc == Exited && s.w2.pc == Exited) || Deadlocked(s)
  {
    ReachableInv(s);
  }

  /** Once one worker has exited the other can always step until it exits too. */
  lemma SurvivorNeverBlocks(s: State, t: Tid, schedule: seq<Tid>)
    requires Reachable(s) && s.W(t).pc == Exited
    ensures var s' := Run(s, schedule); Enabled(s', Other(t)) || s'.W(Other(t)).pc == Exited
  {
    ExitedForGood(s, t, schedule);
    ReachableRun(s, schedule);
    ReachableInv(Run(s, schedule));
    SurvivorSteps(Run(s, schedule), t);
  }

  lemma SurvivorSteps(s: State, t: Tid)
    requires Ownership(s) && s.W(t).pc == Exited
    ensures Enabled(s, Other(t)) || s.W(Other(t)).pc == Exited
  {
  }

  lemma {:induction false} ExitedForGood(s: State, t: Tid, schedule: seq<Tid>)
    requires s.W(t).pc == Exited
    ensures Run(s, schedule).W(t).pc == Exited
    decreases schedule
  {
    if schedule != [] {
      ExitedForGood(Step(s, schedule[0]), t, schedule[1..]);
    }
  }

  // ----- From doomed to deadlocked -----

  /** Steps left before a worker that wants its second mutex waits for it. */
  function StepsToWait(pc: PC): nat
    requires WantsSecond(pc)
  {
    match pc
    case LoadFirst => 3
    case StoreFirst => 2
    case Nap => 1
    case LockSecond => 0
  }

  function Occurrences(schedule: seq<Tid>, t: Tid): nat {
    if schedule == [] then 0 else Bit(schedule[0] == t) + Occurrences(schedule[1..], t)
  }

  function Min(a: nat, b: nat): nat {
    if a < b then a else b
  }

  lemma DoomedStep(s: State, t: Tid)
    requires Inv(s) && Doomed(s)
    ensures var s' := Step(s, t);
            && Doomed(s') && s'.Total() == s.Total()
            && s'.W(Other(t)) == s.W(Other(t))
            && StepsToWait(s'.W(t).pc) == StepsToWait(s.W(t).pc) - Min(StepsToWait(s.W(t).pc), 1)
            && (StepsToWait(s.W(t).pc) == 0 ==> s' == s)
  {
  }

  /** What a doomed state turns into: still doomed, no call completed, and a worker that had
      `turns` turns that many steps closer to its wait. */
  predicate DoomedLater(s: State, s': State, t: Tid, turns: nat)
    requires Doomed(s)
  {
    && Doomed(s') && s'.Total() == s.Total()
    && StepsToWait(s'.W(t).pc) == StepsToWait(s.W(t).pc) - Min(StepsToWait(s.W(t).pc), turns)
  }

  lemma DoomedTurn(s: State, t: Tid, u: Tid)
    requires Inv(s) && Doomed(s)
    ensures DoomedLater(s, Step(s, u), t, Bit(u == t))
  {
    DoomedStep(s, u);
  }

  lemma DoomedTwice(s: State, s1: State, s2: State, t: Tid, a: nat, b: nat)
    requires Doomed(s) && Doomed(s1)
    requires DoomedLater(s, s1, t, a) && DoomedLater(s1, s2, t, b)
    ensures DoomedLater(s, s2, t, a + b)
  {
  }

  /** A doomed state stays doomed in every continuation, and each worker's distance to its
      wait goes down by one with every turn it gets, until it is zero: at most three turns
      each. */
  lemma {:induction false} DoomIsInevitable(s: State, schedule: seq<Tid>, t: Tid)
    requires Inv(s) && Doomed(s)
    ensures DoomedLater(s, Run(s, schedule), t, Occurrences(schedule, t))
    decreases schedule
  {
    if schedule != [] {
      DoomedTurn(s, t, schedule[0]);
      StepKeepsInv(s, schedule[0]);
      DoomIsInevitable(Step(s, schedule[0]), schedule[1..], t);
      DoomedTwice(s, Step(s, schedule[0]), Run(s, schedule), t, Bit(schedule[0] == t), Occurrences(schedule[1..], t));
    }
  }

  lemma ThreeTurnsDeadlock(s: State, schedule: seq<Tid>)
    requires Inv(s) && Doomed(s)
    requires Occurrences(schedule, One) >= 3 && Occurrences(schedule, Two) >= 3
    ensures Deadlocked(Run(s, schedule))
  {
    DoomIsInevitable(s, schedule, One);
    DoomIsInevitable(s, schedule, Two);
    assert StepsToWait(Run(s, schedule).w1.pc) == 0 && StepsToWait(Run(s, schedule).w2.pc) == 0;
  }

  /** After a doomed state, any continuation that gives each worker three turns ends in the
      deadlock. */
  lemma DoomedBecomesDeadlocked(s: State, schedule: seq<Tid>)
    requires Reachable(s) && Doomed(s)
    requires Occurrences(schedule, One) >= 3 && Occurrences(schedule, Two) >= 3
    ensures Deadlocked(Run(s, schedule))
  {
    ReachableInv(s);
    ThreeTurnsDeadlock(s, schedule);
  }

  lemma DoomedDeadlocks(s: State) returns (schedule: seq<Tid>)
    requires Inv(s) && Doomed(s)
    ensures Deadlocked(Run(s, schedule))
  {
    schedule := [One, One, One, Two, Two, Two];
    assert Occurrences(schedule, One) >= 3 && Occurrences(schedule, Two) >= 3 by {
      assert schedule[1..] == [One, One, Two, Two, Two];
      assert schedule[1..][1..] == [One, Two, Two, Two];
    }
    ThreeTurnsDeadlock(s, schedule);
  }

  /** The deadlock is for ever: no continuation changes anything, and both counters are frozen
      at the number of completed calls plus one. */
  lemma {:induction false} DeadlockIsFrozen(s: State, schedule: seq<Tid>)
    requires Reachable(s) && Deadlocked(s)
    ensures Run(s, schedule) == s
    ensures s.sequence1 == s.sequence2 == s.Total() + 1
    decreases schedule
  {
    ReachableInv(s);
    if schedule != [] {
      assert Step(s, schedule[0]) == s;
      DeadlockIsFrozen(s, schedule[1..]);
    }
  }

  // ----- Which states can still complete a call -----

  /** Some continuation completes one more call. */
  ghost predicate CanComplete(s: State) {
    exists schedule :: Run(s, schedule).Total() > s.Total()
  }

  /** Nothing the other worker holds is in the way of `t` finishing its call. */
  predicate ClearPath(s: State, t: Tid) {
    !HoldsFirst(s.W(Other(t)).pc) || HoldsSecond(s.W(t).pc) || s.W(t).pc == UnlockFirst
  }

  /** Steps left to the end of the call in progress, or of the next one. */
  function StepsToComplete(pc: PC): nat {
    match pc
    case UnlockFirst => 1
    case UnlockSecond => 2
    case StoreSecond => 3
    case LoadSecond => 4
    case LockSecond => 5
    case Nap => 6
    case StoreFirst => 7
    case LoadFirst => 8
    case LockFirst => 9
    case Check => 10
    case ReadBack => 11
    case Exited => 12
  }

  /** What a call still has to add to the counter that its worker returns. */
  function Pending(pc: PC): nat {
    Bit(!PastFirst(pc))
  }

  lemma AloneIsEnabled(s: State, t: Tid)
    requires Ownership(s) && ClearPath(s, t) && !Leaving(s, t)
    ensures Enabled(s, t)
  {
  }

  lemma AloneStep(s: State, t: Tid)
    requires Inv(s) && ClearPath(s, t) && !Leaving(s, t)
    ensures var s' := Step(s, t);
            && s'.W(Other(t)) == s.W(Other(t))
            && s'.W(t).pc == Following(s.W(t))
            && s'.W(t).calls == s.W(t).calls + Bit(s.W(t).pc == UnlockFirst)
            && s'.Counter(t) == s.Counter(t) + Bit(s.W(t).pc == StoreFirst)
            && (s.W(t).pc == ReadBack ==> s'.W(t).ret == s.Counter(t))
            && (s.W(t).pc == Check ==> s'.W(t).ret == s.W(t).ret)
  {
    AloneIsEnabled(s, t);
    if s.W(t).pc != ReadBack {
      QuietStep(s, t);
    }
  }

  /** The worker stays on its way until the call is complete. */
  lemma StaysOnItsWay(s: State, t: Tid, s': State)
    requires ClearPath(s, t) && !Leaving(s, t) && s.W(t).pc != UnlockFirst
    requires s'.W(Other(t)) == s.W(Other(t)) && s'.W(t).pc == Following(s.W(t))
    requires s'.Counter(t) == s.Counter(t) + Bit(s.W(t).pc == StoreFirst)
    requires s.W(t).pc == ReadBack ==> s'.W(t).ret == s.Counter(t)
    requires s.W(t).pc == Check ==> s'.W(t).ret == s.W(t).ret
    ensures ClearPath(s', t) && !Leaving(s', t)
    ensures s'.Counter(t) + Pending(s'.W(t).pc) == s.Counter(t) + Pending(s.W(t).pc)
    ensures StepsToComplete(s'.W(t).pc) < StepsToComplete(s.W(t).pc)
  {
  }

  /** `s'` is `s` after `t` alone has completed one call. */
  predicate CompletedOne(s: State, t: Tid, s': State) {
    && Inv(s')
    && s'.W(t).pc == ReadBack && s'.W(t).calls == s.W(t).calls + 1
    && s'.W(Other(t)) == s.W(Other(t))
    && s'.Counter(t) == s.Counter(t) + Pending(s.W(t).pc)
  }

  lemma CompletedByUnlock(s: State, t: Tid)
    requires Inv(s) && s.W(t).pc == UnlockFirst
    ensures CompletedOne(s, t, Step(s, t))
  {
    StepKeepsInv(s, t);
    QuietStep(s, t);
    assert Step(s, t).W(Other(t)) == s.W(Other(t));
  }

  lemma CompletedAfterStep(s: State, t: Tid, s1: State, s': State)
    requires CompletedOne(s1, t, s')
    requires s1.W(t).calls == s.W(t).calls && s1.W(Other(t)) == s.W(Other(t))
    requires s1.Counter(t) + Pending(s1.W(t).pc) == s.Counter(t) + Pending(s.W(t).pc)
    ensures CompletedOne(s, t, s')
  {
  }

  /** A worker with a clear path that is not leaving completes a call when it runs alone. */
  lemma {:induction false} CompleteAlone(s: State, t: Tid) returns (schedule: seq<Tid>)
    requires Inv(s) && ClearPath(s, t) && !Leaving(s, t)
    ensures CompletedOne(s, t, Run(s, schedule))
    decreases StepsToComplete(s.W(t).pc)
  {
    if s.W(t).pc == UnlockFirst {
      schedule := [t];
      RunOne(s, t);
      CompletedByUnlock(s, t);
    } else {
      StepKeepsInv(s, t);
      AloneStep(s, t);
      StaysOnItsWay(s, t, Step(s, t));
      var rest := CompleteAlone(Step(s, t), t);
      schedule := [t] + rest;
      RunCons(s, t, rest);
      CompletedAfterStep(s, t, Step(s, t), Run(s, schedule));
    }
  }

  /** In a state that is not doomed, a worker that holds a lock can complete its call, if need
      be after the other one has released the lock it still holds. */
  lemma HolderCompletes(s: State, t: Tid) returns (schedule: seq<Tid>)
    requires Inv(s) && !Doomed(s) && HoldsFirst(s.W(t).pc)
    ensures Run(s, schedule).Total() > s.Total()
  {
    if s.W(Other(t)).pc == UnlockFirst {
      schedule := [Other(t)];
      RunOne(s, Other(t));
    } else if ClearPath(s, t) {
      schedule := CompleteAlone(s, t);
    } else {
      schedule := CompleteAlone(s, Other(t));
    }
  }

  lemma {:induction false} BothLeavingForGood(s: State, schedule: seq<Tid>)
    requires BothLeaving(s)
    ensures Run(s, schedule).Total() == s.Total()
    decreases schedule
  {
    if schedule != [] {
      assert BothLeaving(Step(s, schedule[0]));
      BothLeavingForGood(Step(s, schedule[0]), schedule[1..]);
    }
  }

  lemma NotDoomedCompletes(s: State)
    requires Inv(s) && !Doomed(s) && !BothLeaving(s)
    ensures CanComplete(s)
  {
    var schedule;
    if HoldsFirst(s.w1.pc) {
      schedule := HolderCompletes(s, One);
    } else if HoldsFirst(s.w2.pc) {
      schedule := HolderCompletes(s, Two);
    } else {
      schedule := CompleteAlone(s, if Leaving(s, One) then Two else One);
    }
    assert Run(s, schedule).Total() > s.Total();
  }

  lemma DoomedNeverCompletes(s: State)
    requires Inv(s) && Doomed(s)
    ensures !CanComplete(s)
  {
    forall schedule ensures Run(s, schedule).Total() == s.Total() {
      DoomIsInevitable(s, schedule, One);
    }
  }

  lemma LeavingNeverCompletes(s: State)
    requires BothLeaving(s)
    ensures !CanComplete(s)
  {
    forall schedule ensures Run(s, schedule).Total() == s.Total() {
      BothLeavingForGood(s, schedule);
    }
  }

  lemma CompletesExactly(s: State)
    requires Inv(s)
    ensures CanComplete(s) <==> !Doomed(s) && !BothLeaving(s)
  {
    if Doomed(s) {
      DoomedNeverCompletes(s);
    } else if BothLeaving(s) {
      LeavingNeverCompletes(s);
    } else {
      NotDoomedCompletes(s);
    }
  }

  lemma ReachableCompletes(s: State)
    requires Reachable(s)
    ensures CanComplete(s) <==> !Doomed(s) && !BothLeaving(s)
  {
    ReachableInv(s);
    CompletesExactly(s);
  }

  /** Exactly the doomed states, and those where both workers leave on 100000 or have
      exited, complete no further call in any continuation. Holding one lock on the way in is
      fatal when both do it; holding one on the way out never is. */
  lemma ExactDoom(s: State)
    requires Reachable(s)
    ensures CanComplete(s) <==> !Doomed(s) && !(LeavesOn(s, One, 100000) && LeavesOn(s, Two, 100000))
  {
    ReachableCompletes(s);
  }

  lemma BothLock(s: State)
    requires Inv(s) && s.w1.pc == LockFirst && s.w2.pc == LockFirst
    ensures Inv(Step(Step(s, One), Two)) && Doomed(Step(Step(s, One), Two))
  {
    StepKeepsInv(s, One);
    StepKeepsInv(Step(s, One), Two);
  }

  /** The first lock of each worker in turn is doom. */
  lemma LockBoth(s: State) returns (schedule: seq<Tid>)
    requires Inv(s) && s.w1.pc == LockFirst && s.w2.pc == LockFirst
    ensures Deadlocked(Run(s, schedule))
  {
    BothLock(s);
    RunCons(s, One, [Two]);
    RunOne(Step(s, One), Two);
    var rest := DoomedDeadlocks(Step(Step(s, One), Two));
    schedule := [One] + [Two] + rest;
    RunAppend(s, [One] + [Two], rest);
  }

  /** So some run deadlocks. */
  lemma DeadlockIsReachable() returns (schedule: seq<Tid>)
    ensures Deadlocked(Run(INIT, schedule))
  {
    FreshPcs();
    InvInit();
    schedule := LockBoth(INIT);
  }

  lemma FreshPcs()
    ensures INIT.w1.pc == LockFirst && INIT.w2.pc == LockFirst
  {
  }
}
