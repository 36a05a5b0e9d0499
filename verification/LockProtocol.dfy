/** The two worker threads of app/lock.cpp as an interleaving system.

    thread1 calls func1 and thread2 calls func2 for ever. The two functions have the same
    shape over opposite locks: lock the first mutex, bump the first counter, sleep, lock the
    second mutex, bump the second counter, unlock both, and read the first counter back
    without a lock. For thread1 "first" is mutex1/sequence1, for thread2 it is
    mutex2/sequence2.

    Every statement that touches shared state is one atomic step, and each `++` is two: a load
    into a register and a store. The unlocked read-back is one atomic load. Integers are
    unbounded. Mutexes are those of pthread_mutex_lock in POSIX.1-2017: blocking, not
    recursive. */
module LockProtocol {

  /** The value that makes a worker leave its loop. */
  const LIMIT: int := 100000

  datatype Tid = One | Two

  function Other(t: Tid): Tid {
    if t == One then Two else One
  }

  datatype Owner = Free | HeldBy(tid: Tid)

  /** Where a worker stands: the statement it executes next. */
  datatype PC =
    | LockFirst | LoadFirst | StoreFirst | Nap
    | LockSecond | LoadSecond | StoreSecond
    | UnlockSecond | UnlockFirst
    | ReadBack | Check | Exited

  /** One value returned by func1 or func2, with the number of calls that both workers had
      completed when it was read. */
  datatype Read = Read(value: int, total: nat)

  /** A worker's private state. `reg` is the register of a `++` in progress, `ret` is
      iRetValue; `calls` (calls that released both locks) and `returned` are history. */
  datatype Worker = Worker(pc: PC, reg: int, ret: int, calls: nat, returned: seq<Read>)

  datatype State = State(
    sequence1: int, sequence2: int,
    mutex1: Owner, mutex2: Owner,
    w1: Worker, w2: Worker)
  {
    function W(t: Tid): Worker {
      if t == One then w1 else w2
    }

    /** The counter that `t` bumps first and returns. */
    function Counter(t: Tid): int {
      if t == One then sequence1 else sequence2
    }

    /** Calls completed by both workers together. */
    function Total(): nat {
      w1.calls + w2.calls
    }
  }

  const NEW_WORKER := Worker(LockFirst, 0, 0, 0, [])

  const INIT := State(0, 0, Free, Free, NEW_WORKER, NEW_WORKER)

  /** A worker can step unless it has exited or waits for a mutex that is held. */
  predicate Enabled(s: State, t: Tid) {
    match s.W(t).pc
    case LockFirst => if t == One then s.mutex1.Free? else s.mutex2.Free?
    case LockSecond => if t == One then s.mutex2.Free? else s.mutex1.Free?
    case Exited => false
    case _ => true
  }

  /** The statement that `w` executes after its next one. */
  function Following(w: Worker): PC {
    match w.pc
    case LockFirst => LoadFirst
    case LoadFirst => StoreFirst
    case StoreFirst => Nap
    case Nap => LockSecond
    case LockSecond => LoadSecond
    case LoadSecond => StoreSecond
    case StoreSecond => UnlockSecond
    case UnlockSecond => UnlockFirst
    case UnlockFirst => ReadBack
    case ReadBack => Check
    case Check => if w.ret == LIMIT then Exited else LockFirst
    case Exited => Exited
  }

  /** The next step of thread1. */
  function Step1(s: State): State
    requires Enabled(s, One)
  {
    var w := s.w1.(pc := Following(s.w1));
    match s.w1.pc
    case LockFirst => s.(mutex1 := HeldBy(One), w1 := w)
    case LoadFirst => s.(w1 := w.(reg := s.sequence1))
    case StoreFirst => s.(sequence1 := w.reg + 1, w1 := w)
    case Nap => s.(w1 := w)
    case LockSecond => s.(mutex2 := HeldBy(One), w1 := w)
    case LoadSecond => s.(w1 := w.(reg := s.sequence2))
    case StoreSecond => s.(sequence2 := w.reg + 1, w1 := w)
    case UnlockSecond => s.(mutex2 := Free, w1 := w)
    case UnlockFirst => s.(mutex1 := Free, w1 := w.(calls := w.calls + 1))
    case ReadBack =>
      s.(w1 := w.(ret := s.sequence1, returned := w.returned + [Read(s.sequence1, s.Total())]))
    case Check => s.(w1 := w)
  }

  /** The next step of thread2: the same with mutexes and counters exchanged. */
  function Step2(s: State): State
    requires Enabled(s, Two)
  {
    var w := s.w2.(pc := Following(s.w2));
    match s.w2.pc
    case LockFirst => s.(mutex2 := HeldBy(Two), w2 := w)
    case LoadFirst => s.(w2 := w.(reg := s.sequence2))
    case StoreFirst => s.(sequence2 := w.reg + 1, w2 := w)
    case Nap => s.(w2 := w)
    case LockSecond => s.(mutex1 := HeldBy(Two), w2 := w)
    case LoadSecond => s.(w2 := w.(reg := s.sequence1))
    case StoreSecond => s.(sequence1 := w.reg + 1, w2 := w)
    case UnlockSecond => s.(mutex1 := Free, w2 := w)
    case UnlockFirst => s.(mutex2 := Free, w2 := w.(calls := w.calls + 1))
    case ReadBack =>
      s.(w2 := w.(ret := s.sequence2, returned := w.returned + [Read(s.sequence2, s.Total())]))
    case Check => s.(w2 := w)
  }

  /** The scheduler picks `t`; a worker that cannot step leaves the state alone. */
  function Step(s: State, t: Tid): State {
    if !Enabled(s, t) then s else if t == One then Step1(s) else Step2(s)
  }

  /** The state after the scheduler has made all the choices in `schedule`. */
  function Run(s: State, schedule: seq<Tid>): State
    decreases schedule
  {
    if schedule == [] then s else Run(Step(s, schedule[0]), schedule[1..])
  }

  ghost predicate Reachable(s: State) {
    exists schedule :: s == Run(INIT, schedule)
  }

  lemma {:induction false} RunAppend(s: State, a: seq<Tid>, b: seq<Tid>)
    ensures Run(s, a + b) == Run(Run(s, a), b)
    decreases a
  {
    if a == [] {
      assert a + b == b;
    } else {
      assert (a + b)[1..] == a[1..] + b;
      RunAppend(Step(s, a[0]), a[1..], b);
    }
  }

  lemma RunOne(s: State, t: Tid)
    ensures Run(s, [t]) == Step(s, t)
  {
    assert Run(Step(s, t), []) == Step(s, t);
  }

  lemma RunCons(s: State, t: Tid, rest: seq<Tid>)
    ensures Run(s, [t] + rest) == Run(Step(s, t), rest)
  {
    assert ([t] + rest)[1..] == rest;
  }

  lemma ReachableRun(s: State, schedule: seq<Tid>)
    requires Reachable(s)
    ensures Reachable(Run(s, schedule))
  {
    var before :| s == Run(INIT, before);
    RunAppend(INIT, before, schedule);
  }

  // ----- Program-counter regions -----

  /** Has the first mutex. */
  predicate HoldsFirst(pc: PC) {
    WantsSecond(pc) || HoldsSecond(pc) || pc.UnlockFirst?
  }

  /** Has the second mutex. */
  predicate HoldsSecond(pc: PC) {
    pc.LoadSecond? || pc.StoreSecond? || pc.UnlockSecond?
  }

  /** Has the first mutex and still has to take the second. */
  predicate WantsSecond(pc: PC) {
    pc.LoadFirst? || pc.StoreFirst? || pc.Nap? || pc.LockSecond?
  }

  /** In a call, with the first counter already bumped. */
  predicate PastFirst(pc: PC) {
    pc.Nap? || pc.LockSecond? || HoldsSecond(pc) || pc.UnlockFirst?
  }

  /** In a call, with the second counter already bumped. */
  predicate PastSecond(pc: PC) {
    pc.UnlockSecond? || pc.UnlockFirst?
  }

  /** Between the two increments. */
  predicate Between(pc: PC) {
    PastFirst(pc) && !PastSecond(pc)
  }

  function Bit(b: bool): nat {
    if b then 1 else 0
  }

  // ----- Invariants -----

  /** Each owner is what the two program counters say, and they never say two things. */
  predicate Ownership(s: State) {
    && !(HoldsFirst(s.w1.pc) && HoldsSecond(s.w2.pc))
    && !(HoldsFirst(s.w2.pc) && HoldsSecond(s.w1.pc))
    && s.mutex1 == (if HoldsFirst(s.w1.pc) then HeldBy(One)
                    else if HoldsSecond(s.w2.pc) then HeldBy(Two) else Free)
    && s.mutex2 == (if HoldsFirst(s.w2.pc) then HeldBy(Two)
                    else if HoldsSecond(s.w1.pc) then HeldBy(One) else Free)
  }

  /** No increment is lost: each counter is the number of completed calls plus the calls in
      flight that are past their increment of it. */
  predicate NoLostUpdates(s: State) {
    && s.sequence1 == s.Total() + Bit(PastFirst(s.w1.pc)) + Bit(PastSecond(s.w2.pc))
    && s.sequence2 == s.Total() + Bit(PastFirst(s.w2.pc)) + Bit(PastSecond(s.w1.pc))
  }

  /** A loaded register still equals the counter when it is about to be stored. */
  predicate Registers(s: State) {
    && (s.w1.pc == StoreFirst ==> s.w1.reg == s.sequence1)
    && (s.w1.pc == StoreSecond ==> s.w1.reg == s.sequence2)
    && (s.w2.pc == StoreFirst ==> s.w2.reg == s.sequence2)
    && (s.w2.pc == StoreSecond ==> s.w2.reg == s.sequence1)
  }

  /** The values a worker has returned: strictly increasing, each between the completed-call
      total at its read and that total plus one. */
  predicate IncreasingReads(rs: seq<Read>) {
    && (forall i, j :: 0 <= i < j < |rs| ==> rs[i].value < rs[j].value && rs[i].total < rs[j].total)
    && (forall i :: 0 <= i < |rs| ==> rs[i].total <= rs[i].value <= rs[i].total + 1)
  }

  /** Only the newest value can be LIMIT, and then the worker is leaving or gone; a worker
      that has exited did read LIMIT. */
  predicate LimitEndsReads(w: Worker) {
    && (forall i :: 0 <= i < |w.returned| && w.returned[i].value == LIMIT ==>
          i == |w.returned| - 1 && (w.pc.Check? || w.pc.Exited?))
    && (w.pc == Exited ==> w.ret == LIMIT)
    && ((w.pc.Check? || w.pc.Exited?) ==> w.returned != [] && w.returned[|w.returned| - 1].value == w.ret)
    && |w.returned| + Bit(w.pc == ReadBack) == w.calls
  }

  /** What links the newest value to the present, so that the next one is larger. */
  predicate NewestRead(s: State, t: Tid) {
    var w := s.W(t);
    w.returned != [] ==>
      var r := w.returned[|w.returned| - 1];
      && r.total + Bit(w.pc == ReadBack) <= s.Total()
      && r.value + Bit(PastFirst(w.pc) || w.pc == ReadBack) <= s.Counter(t)
  }

  predicate GoodReads(s: State, t: Tid) {
    IncreasingReads(s.W(t).returned) && LimitEndsReads(s.W(t)) && NewestRead(s, t)
  }

  predicate Inv(s: State) {
    && Ownership(s) && NoLostUpdates(s) && Registers(s)
    && GoodReads(s, One) && GoodReads(s, Two)
  }

  lemma FreshReadsAreGood(s: State)
    requires s.w1 == s.w2 == NEW_WORKER
    ensures GoodReads(s, One) && GoodReads(s, Two)
  {
  }

  lemma FreshIsShared(s: State)
    requires s.w1 == s.w2 == NEW_WORKER
    requires s.mutex1 == s.mutex2 == Free && s.sequence1 == s.sequence2 == 0
    ensures Ownership(s) && NoLostUpdates(s) && Registers(s)
  {
  }

  lemma InvOfFresh(s: State)
    requires s.w1 == s.w2 == NEW_WORKER
    requires s.mutex1 == s.mutex2 == Free && s.sequence1 == s.sequence2 == 0
    ensures Inv(s)
  {
    FreshIsShared(s);
    FreshReadsAreGood(s);
  }

  lemma InvInit()
    ensures Inv(INIT)
  {
    InvOfFresh(INIT);
  }

  lemma StepKeepsOwnership(s: State, t: Tid)
    requires Ownership(s)
    ensures Ownership(Step(s, t))
  {
  }

  lemma Step1KeepsCounts(s: State)
    requires Ownership(s) && NoLostUpdates(s) && Registers(s)
    ensures NoLostUpdates(Step(s, One)) && Registers(Step(s, One))
  {
  }

  lemma Step2KeepsCounts(s: State)
    requires Ownership(s) && NoLostUpdates(s) && Registers(s)
    ensures NoLostUpdates(Step(s, Two)) && Registers(Step(s, Two))
  {
  }

  lemma OtherStepLeaves(s: State, t: Tid)
    requires Registers(s)
    ensures var s' := Step(s, Other(t));
            s'.W(t) == s.W(t) && s'.Total() >= s.Total() && s'.Counter(t) >= s.Counter(t)
  {
  }

  lemma UndisturbedReads(s: State, t: Tid, s': State)
    requires GoodReads(s, t)
    requires s'.W(t) == s.W(t) && s'.Total() >= s.Total() && s'.Counter(t) >= s.Counter(t)
    ensures GoodReads(s', t)
  {
  }

  lemma OtherStepKeepsReads(s: State, t: Tid)
    requires Registers(s) && GoodReads(s, t)
    ensures GoodReads(Step(s, Other(t)), t)
  {
    OtherStepLeaves(s, t);
    UndisturbedReads(s, t, Step(s, Other(t)));
  }

  lemma AppendRead(rs: seq<Read>, r: Read)
    requires IncreasingReads(rs) && r.total <= r.value <= r.total + 1
    requires rs != [] ==> rs[|rs| - 1].value < r.value && rs[|rs| - 1].total < r.total
    ensures IncreasingReads(rs + [r])
  {
  }

  /** A read that is newer than the others keeps everything said about them. */
  lemma NewReadIsGood(s: State, t: Tid, s': State, r: Read)
    requires GoodReads(s, t) && s.W(t).pc == ReadBack
    requires r == Read(s.Counter(t), s.Total()) && r.total <= r.value <= r.total + 1
    requires s'.W(t) == s.W(t).(pc := Check, ret := r.value, returned := s.W(t).returned + [r])
    requires s'.Counter(t) == r.value && s'.Total() == r.total
    ensures GoodReads(s', t)
  {
    AppendRead(s.W(t).returned, r);
    assert LimitEndsReads(s'.W(t));
  }

  lemma ReadBackKeepsReads(s: State, t: Tid)
    requires Ownership(s) && NoLostUpdates(s) && GoodReads(s, t) && s.W(t).pc == ReadBack
    ensures GoodReads(Step(s, t), t)
  {
    NewReadIsGood(s, t, Step(s, t), Read(s.Counter(t), s.Total()));
  }

  /** Every step but the read-back leaves the returned values alone. */
  lemma QuietStep(s: State, t: Tid)
    requires Registers(s) && s.W(t).pc != ReadBack && Enabled(s, t)
    ensures var w, s' := s.W(t), Step(s, t);
            && s'.W(t).returned == w.returned && s'.W(t).ret == w.ret
            && s'.W(t).pc == Following(w)
            && s'.W(t).calls == w.calls + Bit(w.pc.UnlockFirst?)
            && s'.Total() == s.Total() + Bit(w.pc.UnlockFirst?)
            && s'.Counter(t) == s.Counter(t) + Bit(w.pc.StoreFirst?)
  {
  }

  lemma QuietStepKeepsReads(s: State, t: Tid)
    requires Registers(s) && GoodReads(s, t) && s.W(t).pc != ReadBack && Enabled(s, t)
    ensures GoodReads(Step(s, t), t)
  {
    QuietStep(s, t);
    var w, w' := s.W(t), Step(s, t).W(t);
    assert LimitEndsReads(w') by {
      if w.pc == Check && w.ret != LIMIT {
        assert w.returned[|w.returned| - 1].value != LIMIT;
      }
    }
  }

  lemma OwnStepKeepsReads(s: State, t: Tid)
    requires Inv(s)
    ensures GoodReads(Step(s, t), t)
  {
    if s.W(t).pc == ReadBack {
      ReadBackKeepsReads(s, t);
    } else if Enabled(s, t) {
      QuietStepKeepsReads(s, t);
    }
  }

  lemma StepKeepsInv(s: State, u: Tid)
    requires Inv(s)
    ensures Inv(Step(s, u))
  {
    StepKeepsOwnership(s, u);
    if u == One {
      Step1KeepsCounts(s);
    } else {
      Step2KeepsCounts(s);
    }
    OwnStepKeepsReads(s, u);
    OtherStepKeepsReads(s, Other(u));
  }

  lemma {:induction false} RunKeepsInv(s: State, schedule: seq<Tid>)
    requires Inv(s)
    ensures Inv(Run(s, schedule))
    decreases schedule
  {
    if schedule != [] {
      StepKeepsInv(s, schedule[0]);
      RunKeepsInv(Step(s, schedule[0]), schedule[1..]);
    }
  }

  lemma ReachableInv(s: State)
    requires Reachable(s)
    ensures Inv(s)
  {
    var schedule :| s == Run(INIT, schedule);
    InvInit();
    RunKeepsInv(INIT, schedule);
  }

  // ----- What every reachable state satisfies -----

  /** At most one worker is past a lock of either mutex, the owner is exactly that worker,
      and a worker outside its function or exited owns nothing. */
  lemma OwnershipInvariant(s: State, t: Tid)
    requires Reachable(s)
    ensures Ownership(s)
    ensures s.W(t).pc in {LockFirst, ReadBack, Check, Exited} ==> s.mutex1 != HeldBy(t) && s.mutex2 != HeldBy(t)
  {
    ReachableInv(s);
  }

  /** Every unlock is made by the owner, as POSIX demands of a caller of
      pthread_mutex_unlock. */
  lemma OwnerUnlocks(s: State)
    requires Reachable(s)
    ensures s.w1.pc == UnlockSecond ==> s.mutex2 == HeldBy(One)
    ensures s.w1.pc == UnlockFirst ==> s.mutex1 == HeldBy(One)
    ensures s.w2.pc == UnlockSecond ==> s.mutex1 == HeldBy(Two)
    ensures s.w2.pc == UnlockFirst ==> s.mutex2 == HeldBy(Two)
  {
    ReachableInv(s);
  }

  lemma NoLostUpdatesInvariant(s: State)
    requires Reachable(s)
    ensures NoLostUpdates(s)
  {
    ReachableInv(s);
  }

  /** The counters differ exactly by who is between the two increments, so by at most one,
      and agree whenever both mutexes are free. */
  lemma CounterAgreement(s: State)
    requires Reachable(s)
    ensures s.sequence1 - s.sequence2 == Bit(Between(s.w1.pc)) - Bit(Between(s.w2.pc))
    ensures -1 <= s.sequence1 - s.sequence2 <= 1
    ensures s.mutex1.Free? && s.mutex2.Free? ==> s.sequence1 == s.sequence2 == s.Total()
  {
    ReachableInv(s);
  }

  /** What a worker is about to return is the completed-call total, plus one exactly when the
      other worker is past its increment of this counter but still holds a lock. */
  lemma NextReturnedValue(s: State, t: Tid)
    requires Reachable(s) && s.W(t).pc == ReadBack
    ensures var value := s.Total() + Bit(PastSecond(s.W(Other(t)).pc));
            Step(s, t).W(t).returned == s.W(t).returned + [Read(value, s.Total())]
  {
    ReachableInv(s);
  }

  /** Exactly when a worker's turn leaves it where it is: it has exited, or it waits for a lock
      and the other worker holds that mutex. A free mutex is always taken, and a worker never
      waits for itself. */
  lemma WaitsExactly(s: State, t: Tid)
    requires Reachable(s)
    ensures var w, w' := s.W(t), Step(s, t).W(t);
            w'.pc == w.pc <==>
              || w.pc == Exited
              || (w.pc == LockFirst && (if t == One then s.mutex1 else s.mutex2) == HeldBy(Other(t)))
              || (w.pc == LockSecond && (if t == One then s.mutex2 else s.mutex1) == HeldBy(Other(t)))
  {
    ReachableInv(s);
  }

  lemma ReachableReads(s: State, t: Tid)
    requires Reachable(s)
    ensures IncreasingReads(s.W(t).returned) && LimitEndsReads(s.W(t))
  {
    ReachableInv(s);
  }

  /** Over any run every completed call returns one value, the values of one worker strictly
      increase and stay within one of the completed-call total, and 100000 can only be the last
      of them. A worker exits if and only if that is the value it tests: one that is about to
      test holds its newest value, and one that has exited did return 100000. */
  lemma ReturnedValues(s: State, t: Tid)
    requires Reachable(s)
    ensures var w := s.W(t);
            && |w.returned| == w.calls - Bit(w.pc == ReadBack)
            && IncreasingReads(w.returned)
            && (forall i :: 0 <= i < |w.returned| && w.returned[i].value == 100000 ==>
                  i == |w.returned| - 1 && w.pc in {Check, Exited})
            && (w.pc in {Check, Exited} ==> w.returned != [] && w.returned[|w.returned| - 1].value == w.ret)
            && (w.pc == Exited ==> w.ret == 100000)
            && (w.pc == Check ==> Step(s, t).W(t).pc == if w.ret == 100000 then Exited else LockFirst)
  {
    ReachableReads(s, t);
  }

  // ----- A call by itself -----

  /** The mutex that `t` locks first. */
  function FirstMutex(s: State, t: Tid): Owner {
    if t == One then s.mutex1 else s.mutex2
  }

  /** `n` turns of `t`. */
  function Turns(t: Tid, n: nat): seq<Tid> {
    if n == 0 then [] else [t] + Turns(t, n - 1)
  }

  lemma ThreeTurns(s: State, t: Tid)
    ensures Run(s, Turns(t, 3)) == Step(Step(Step(s, t), t), t)
  {
    RunCons(s, t, Turns(t, 2));
    RunCons(Step(s, t), t, Turns(t, 1));
    RunCons(Step(Step(s, t), t), t, []);
  }

  lemma FourTurns(s: State, t: Tid)
    ensures Run(s, Turns(t, 4)) == Step(Step(Step(Step(s, t), t), t), t)
  {
    RunCons(s, t, Turns(t, 3));
    ThreeTurns(Step(s, t), t);
  }

  lemma {:induction false} TurnsAdd(t: Tid, m: nat, n: nat)
    ensures Turns(t, m) + Turns(t, n) == Turns(t, m + n)
  {
    if m > 0 {
      TurnsAdd(t, m - 1, n);
      assert Turns(t, m) + Turns(t, n) == [t] + (Turns(t, m - 1) + Turns(t, n));
    }
  }

  lemma CallTurns(s: State, t: Tid, four: seq<Tid>, three: seq<Tid>)
    requires four == Turns(t, 4) && three == Turns(t, 3)
    ensures Run(s, Turns(t, 11)) == Run(Run(Run(s, four), four), three)
  {
    TurnsAdd(t, 4, 4);
    TurnsAdd(t, 8, 3);
    RunAppend(s, four, four);
    RunAppend(s, four + four, three);
  }

  /** `s'` is `s` with `w` as `t`, what is added to its two counters, and the two mutexes. */
  predicate Changed(s: State, t: Tid, s': State, w: Worker, first: nat, second: nat, m1: Owner, m2: Owner) {
    && s'.W(t) == w && s'.W(Other(t)) == s.W(Other(t))
    && s'.Counter(t) == s.Counter(t) + first && s'.Counter(Other(t)) == s.Counter(Other(t)) + second
    && FirstMutex(s', t) == m1 && FirstMutex(s', Other(t)) == m2
  }

  predicate FirstHalfDone(s: State, t: Tid, s': State) {
    Changed(s, t, s', s.W(t).(pc := LockSecond, reg := s.Counter(t)), 1, 0, HeldBy(t), Free)
  }

  lemma FirstHalf(s: State, t: Tid)
    requires s.W(t).pc == LockFirst && s.mutex1 == s.mutex2 == Free
    ensures FirstHalfDone(s, t, Step(Step(Step(Step(s, t), t), t), t))
  {
  }

  predicate SecondHalfDone(s: State, t: Tid, s': State) {
    Changed(s, t, s', s.W(t).(pc := UnlockFirst, reg := s.Counter(Other(t))), 0, 1, HeldBy(t), Free)
  }

  lemma SecondHalf(s: State, t: Tid)
    requires s.W(t).pc == LockSecond && FirstMutex(s, t) == HeldBy(t) && FirstMutex(s, Other(t)) == Free
    ensures SecondHalfDone(s, t, Step(Step(Step(Step(s, t), t), t), t))
  {
  }

  predicate EndingDone(s: State, t: Tid, s': State) {
    var w, value := s.W(t), s.Counter(t);
    Changed(s, t, s',
            Worker(if value == 100000 then Exited else LockFirst, w.reg, value, w.calls + 1,
                   w.returned + [Read(value, s.Total() + 1)]), 0, 0, Free, Free)
  }

  lemma Ending(s: State, t: Tid)
    requires s.W(t).pc == UnlockFirst && FirstMutex(s, Other(t)) == Free
    ensures EndingDone(s, t, Step(Step(Step(s, t), t), t))
  {
  }

  /** `s'` is `s` after one call of `t`: both counters are one up, both mutexes free, and the call
      has returned `value`. */
  predicate Called(s: State, t: Tid, s': State, value: int) {
    && s'.sequence1 == s.sequence1 + 1 && s'.sequence2 == s.sequence2 + 1
    && s'.mutex1 == s'.mutex2 == Free && s'.W(Other(t)) == s.W(Other(t))
    && s'.W(t).pc == (if value == 100000 then Exited else LockFirst)
    && s'.W(t).ret == value && s'.W(t).calls == s.W(t).calls + 1
    && s'.W(t).returned == s.W(t).returned + [Read(value, s.Total() + 1)]
  }

  lemma CallOfParts(s: State, t: Tid, s4: State, s8: State, s': State)
    requires FirstHalfDone(s, t, s4) && SecondHalfDone(s4, t, s8) && EndingDone(s8, t, s')
    ensures Called(s, t, s', s.Counter(t) + 1)
  {
    assert s8.Total() == s.Total();
  }

  lemma CallInThreeParts(s: State, t: Tid, four: seq<Tid>, three: seq<Tid>)
    requires s.W(t).pc == LockFirst && s.mutex1 == s.mutex2 == Free
    requires four == Turns(t, 4) && three == Turns(t, 3)
    ensures Called(s, t, Run(Run(Run(s, four), four), three), s.Counter(t) + 1)
  {
    var s4 := Run(s, four);
    var s8 := Run(s4, four);
    FourTurns(s, t);
    FirstHalf(s, t);
    FourTurns(s4, t);
    SecondHalf(s4, t);
    ThreeTurns(s8, t);
    Ending(s8, t);
    CallOfParts(s, t, s4, s8, Run(s8, three));
  }

  lemma CallOfTurns(s: State, t: Tid, turns: seq<Tid>)
    requires s.W(t).pc == LockFirst && s.mutex1 == s.mutex2 == Free && turns == Turns(t, 11)
    ensures Called(s, t, Run(s, turns), s.Counter(t) + 1)
  {
    var four, three := Turns(t, 4), Turns(t, 3);
    CallTurns(s, t, four, three);
    CallInThreeParts(s, t, four, three);
  }

  lemma FreeCounter(s: State, t: Tid)
    requires Reachable(s) && s.mutex1 == s.mutex2 == Free
    ensures s.Counter(t) == s.Total()
  {
    CounterAgreement(s);
  }

  /** A call that nobody interrupts is the sequential function: eleven turns of `t` from a
      reachable state with both mutexes free add one to both counters, release both mutexes,
      return the new number of completed calls, and leave the other worker alone. */
  lemma CallAlone(s: State, t: Tid, turns: seq<Tid>)
    requires Reachable(s) && s.W(t).pc == LockFirst && s.mutex1 == s.mutex2 == Free
    requires turns == Turns(t, 11)
    ensures Called(s, t, Run(s, turns), s.Total() + 1)
  {
    FreeCounter(s, t);
    CallOfTurns(s, t, turns);
  }
}
