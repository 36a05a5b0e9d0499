/** Which states can still deadlock.

    The deadlock stays ahead as long as both workers will call again. It is out of reach only
    when one of them has read LIMIT, or both are bound to read it next. */
module LockDeadlock {
  import opened LockProtocol
  import opened LockProgress
  import opened LockExit

  ghost predicate CanDeadlock(s: State) {
    exists schedule :: Deadlocked(Run(s, schedule))
  }

  /** In its last call: past its second increment, or about to read back. */
  predicate Finishing(pc: PC) {
    PastSecond(pc) || pc == ReadBack
  }

  /** Both workers have bumped both counters to `value` and have not read back: whoever reads
      first reads `value`. */
  predicate BothFinishOn(s: State, value: int) {
    && Finishing(s.w1.pc) && Finishing(s.w2.pc)
    && s.sequence1 == value && s.sequence2 == value
  }

  predicate BothFinishing(s: State) {
    BothFinishOn(s, LIMIT)
  }

  // ----- Out of reach -----

  /** One worker has read LIMIT, or both will. */
  predicate Averted(s: State) {
    Gone(s, One) || Gone(s, Two) || BothFinishing(s)
  }

  lemma GoneStep(s: State, t: Tid, u: Tid)
    requires Gone(s, t)
    ensures Gone(Step(s, u), t)
  {
  }

  lemma BothFinishingStep(s: State, u: Tid)
    requires BothFinishing(s)
    ensures BothFinishing(Step(s, u)) || Gone(Step(s, u), u)
  {
  }

  lemma AvertedStep(s: State, u: Tid)
    requires Averted(s)
    ensures Averted(Step(s, u))
  {
    if Gone(s, One) {
      GoneStep(s, One, u);
    } else if Gone(s, Two) {
      GoneStep(s, Two, u);
    } else {
      BothFinishingStep(s, u);
    }
  }

  lemma {:induction false} AvertedForGood(s: State, schedule: seq<Tid>)
    requires Averted(s)
    ensures Averted(Run(s, schedule))
    decreases schedule
  {
    if schedule != [] {
      AvertedStep(s, schedule[0]);
      AvertedForGood(Step(s, schedule[0]), schedule[1..]);
    }
  }

  lemma AvertedNeverDeadlocks(s: State)
    requires Averted(s)
    ensures !CanDeadlock(s)
  {
    forall schedule ensures !Deadlocked(Run(s, schedule)) {
      AvertedForGood(s, schedule);
    }
  }

  // ----- Within reach -----

  /** `t` is between two calls, or about to end one with a value other than LIMIT. */
  predicate CallsAgain(s: State, t: Tid) {
    !HoldsFirst(s.W(t).pc) && !Gone(s, t) && (s.W(t).pc == ReadBack ==> s.Counter(t) != LIMIT)
  }

  /** `s'` is `s` with `t` in front of its next call. */
  predicate BackAtTheLock(s: State, t: Tid, s': State) {
    && Inv(s') && s'.W(t).pc == LockFirst && s'.W(Other(t)) == s.W(Other(t))
    && s'.sequence1 == s.sequence1 && s'.sequence2 == s.sequence2
  }

  lemma CheckBack(s: State, t: Tid)
    requires Inv(s) && s.W(t).pc == Check && s.W(t).ret != LIMIT
    ensures BackAtTheLock(s, t, Step(s, t))
  {
    StepKeepsInv(s, t);
  }

  /** A worker that calls again goes back to its first lock without any help. */
  lemma Rejoin(s: State, t: Tid) returns (schedule: seq<Tid>)
    requires Inv(s) && CallsAgain(s, t)
    ensures BackAtTheLock(s, t, Run(s, schedule))
  {
    if s.W(t).pc == LockFirst {
      schedule := [];
    } else if s.W(t).pc == Check {
      schedule := [t];
      RunOne(s, t);
      CheckBack(s, t);
    } else {
      StepKeepsInv(s, t);
      ReadBackOnly(s, t);
      CheckBack(Step(s, t), t);
      schedule := [t] + [t];
      RunCons(s, t, [t]);
      RunOne(Step(s, t), t);
    }
  }

  lemma BothCallAgain(s: State) returns (schedule: seq<Tid>)
    requires Inv(s) && CallsAgain(s, One) && CallsAgain(s, Two)
    ensures Deadlocked(Run(s, schedule))
  {
    var a := Rejoin(s, One);
    var s1 := Run(s, a);
    assert CallsAgain(s1, Two);
    var b := Rejoin(s1, Two);
    var c := LockBoth(Run(s1, b));
    RunAppend(s1, b, c);
    RunAppend(s, a, b + c);
    schedule := a + (b + c);
  }

  /** Nobody is in a call. */
  predicate Outside(s: State) {
    !HoldsFirst(s.w1.pc) && !HoldsFirst(s.w2.pc)
  }

  /** One more call takes both counters past LIMIT. */
  lemma PastLimit(s: State, u: Tid, s': State)
    requires Inv(s) && Outside(s) && !Averted(s) && s.Counter(u) == LIMIT && s.W(u).pc != ReadBack
    requires CompletedOne(s, u, s')
    ensures CallsAgain(s', One) && CallsAgain(s', Two)
  {
  }

  lemma OutsideDeadlocks(s: State) returns (schedule: seq<Tid>)
    requires Inv(s) && Outside(s) && !Averted(s)
    ensures Deadlocked(Run(s, schedule))
  {
    if s.sequence1 != LIMIT {
      schedule := BothCallAgain(s);
    } else {
      var u := if s.w1.pc == ReadBack then Two else One;
      var first := CompleteAlone(s, u);
      PastLimit(s, u, Run(s, first));
      var rest := BothCallAgain(Run(s, first));
      RunAppend(s, first, rest);
      schedule := first + rest;
    }
  }

  /** If both read back after the call of `u`, the counters are not both LIMIT. */
  lemma CallPassesLimit(s: State, u: Tid, s': State)
    requires NoLostUpdates(s) && NoLostUpdates(s') && !BothFinishing(s)
    requires HoldsFirst(s.W(u).pc) && !HoldsFirst(s.W(Other(u)).pc)
    requires s.W(Other(u)).pc == ReadBack ==> s.Counter(Other(u)) == LIMIT
    requires s'.W(u).pc == ReadBack && s'.W(u).calls == s.W(u).calls + 1 && s'.W(Other(u)) == s.W(Other(u))
    ensures !BothFinishing(s')
  {
  }

  /** Once the call of `u` is complete, nobody is in a call and the deadlock is still ahead. */
  lemma AfterLoneCall(s: State, u: Tid, s': State)
    requires Inv(s) && !Averted(s) && HoldsFirst(s.W(u).pc) && !HoldsFirst(s.W(Other(u)).pc)
    requires s.W(Other(u)).pc == ReadBack ==> s.Counter(Other(u)) == LIMIT
    requires CompletedOne(s, u, s')
    ensures Outside(s') && !Averted(s')
  {
    CallPassesLimit(s, u, s');
  }

  lemma BlockedReaderDeadlocks(s: State, u: Tid) returns (schedule: seq<Tid>)
    requires Inv(s) && !Averted(s) && HoldsFirst(s.W(u).pc) && !HoldsFirst(s.W(Other(u)).pc)
    requires s.W(Other(u)).pc == ReadBack ==> s.Counter(Other(u)) == LIMIT
    ensures Deadlocked(Run(s, schedule))
  {
    var call := CompleteAlone(s, u);
    AfterLoneCall(s, u, Run(s, call));
    var rest := OutsideDeadlocks(Run(s, call));
    RunAppend(s, call, rest);
    schedule := call + rest;
  }

  lemma RejoiningAvertsNothing(s: State, t: Tid, s': State)
    requires !Averted(s) && BackAtTheLock(s, t, s')
    ensures !Averted(s')
  {
  }

  /** Only `u` is in a call. The other worker, if it is about to read something other than
      LIMIT, reads it first; then `u` completes its call. */
  lemma LoneCallDeadlocks(s: State, u: Tid) returns (schedule: seq<Tid>)
    requires Inv(s) && !Averted(s) && HoldsFirst(s.W(u).pc) && !HoldsFirst(s.W(Other(u)).pc)
    ensures Deadlocked(Run(s, schedule))
  {
    var t := Other(u);
    if s.W(t).pc == ReadBack && s.Counter(t) != LIMIT {
      var first := Rejoin(s, t);
      RejoiningAvertsNothing(s, t, Run(s, first));
      var rest := BlockedReaderDeadlocks(Run(s, first), u);
      RunAppend(s, first, rest);
      schedule := first + rest;
    } else {
      schedule := BlockedReaderDeadlocks(s, u);
    }
  }

  /** With both workers in a call but no doom, one of them is at its last unlock. */
  lemma LastUnlockFirst(s: State) returns (t: Tid)
    requires Inv(s) && !Doomed(s) && !Averted(s) && HoldsFirst(s.w1.pc) && HoldsFirst(s.w2.pc)
    ensures s.W(t).pc == UnlockFirst && Inv(Step(s, t)) && !Averted(Step(s, t))
    ensures !HoldsFirst(Step(s, t).W(t).pc) && HoldsFirst(Step(s, t).W(Other(t)).pc)
  {
    t := if s.w1.pc == UnlockFirst then One else Two;
    StepKeepsInv(s, t);
    LastUnlock(s, t);
  }

  lemma NotAvertedDeadlocks(s: State) returns (schedule: seq<Tid>)
    requires Inv(s) && !Averted(s)
    ensures Deadlocked(Run(s, schedule))
  {
    if Doomed(s) {
      schedule := DoomedDeadlocks(s);
    } else if Outside(s) {
      schedule := OutsideDeadlocks(s);
    } else if HoldsFirst(s.w1.pc) && HoldsFirst(s.w2.pc) {
      var t := LastUnlockFirst(s);
      var rest := LoneCallDeadlocks(Step(s, t), Other(t));
      RunCons(s, t, rest);
      schedule := [t] + rest;
    } else {
      schedule := LoneCallDeadlocks(s, if HoldsFirst(s.w1.pc) then One else Two);
    }
  }

  lemma DeadlocksExactly(s: State)
    requires Inv(s)
    ensures CanDeadlock(s) <==> !Averted(s)
  {
    if Averted(s) {
      AvertedNeverDeadlocks(s);
    } else {
      var schedule := NotAvertedDeadlocks(s);
    }
  }

  /** Some continuation deadlocks if and only if no worker has read 100000 and not both are
      bound to read it next. Nothing short of reading 100000 averts the deadlock. */
  lemma ExactDeadlock(s: State)
    requires Reachable(s)
    ensures CanDeadlock(s) <==>
              !HasRead(s, One, 100000) && !HasRead(s, Two, 100000) && !BothFinishOn(s, 100000)
  {
    ReachableInv(s);
    DeadlocksExactly(s);
  }
}
