/** The whole process of app/lock.cpp: main creates the two workers and the two idle threads,
    joins all four in order, and destroys the mutexes.

    A failed pthread_create ends the process through _exit(1). pthread_join returns once its
    thread has terminated. thread3 and thread4 sleep and fill a buffer of their own for ever;
    the buffer is left out. */
module LockProcess {
  import opened LockProtocol
  import opened LockProgress
  import opened LockExit

  datatype MainPC = Create(k: nat) | SleepFive | Join(k: nat) | Destroy(k: nat) | Returned | Aborted

  /** thread3 and thread4. Their loop has no exit; Ended stands for having left it. */
  datatype LoopPC = Sleeping | Filling | Ended

  datatype Process = Process(main: MainPC, workers: State, loop3: LoopPC, loop4: LoopPC)

  /** Whose turn it is. The turn of main carries the result of a pthread_create. */
  datatype Turn = OfMain(created: bool) | OfWorker(t: Tid) | OfThread3 | OfThread4

  const START := Process(Create(0), INIT, Sleeping, Sleeping)

  predicate Alive(p: Process) {
    p.main != Returned && p.main != Aborted
  }

  /** pthread_create has succeeded for tid[k]. */
  predicate Created(p: Process, k: nat) {
    p.main.Create? ==> k < p.main.k
  }

  predicate Terminated(p: Process, k: nat) {
    match k
    case 0 => p.workers.w1.pc == Exited
    case 1 => p.workers.w2.pc == Exited
    case 2 => p.loop3 == Ended
    case _ => p.loop4 == Ended
  }

  function MainStep(p: Process, created: bool): MainPC {
    match p.main
    case Create(k) => if !created then Aborted else if k < 3 then Create(k + 1) else SleepFive
    case SleepFive => Join(0)
    case Join(k) => if !Terminated(p, k) then p.main else if k < 3 then Join(k + 1) else Destroy(0)
    case Destroy(k) => if k < 3 then Destroy(k + 1) else Returned
    case Returned => Returned
    case Aborted => Aborted
  }

  function LoopStep(pc: LoopPC): LoopPC {
    match pc
    case Sleeping => Filling
    case Filling => Sleeping
    case Ended => Ended
  }

  function Next(p: Process, turn: Turn): Process {
    if !Alive(p) then p
    else
      match turn
      case OfMain(created) => p.(main := MainStep(p, created))
      case OfWorker(t) => if Created(p, if t == One then 0 else 1) then p.(workers := Step(p.workers, t)) else p
      case OfThread3 => if Created(p, 2) then p.(loop3 := LoopStep(p.loop3)) else p
      case OfThread4 => if Created(p, 3) then p.(loop4 := LoopStep(p.loop4)) else p
  }

  function After(p: Process, turns: seq<Turn>): Process
    decreases turns
  {
    if turns == [] then p else After(Next(p, turns[0]), turns[1..])
  }

  ghost predicate Occurs(p: Process) {
    exists turns :: p == After(START, turns)
  }

  lemma {:induction false} AfterAppend(p: Process, a: seq<Turn>, b: seq<Turn>)
    ensures After(p, a + b) == After(After(p, a), b)
    decreases a
  {
    if a == [] {
      assert a + b == b;
    } else {
      assert (a + b)[1..] == a[1..] + b;
      AfterAppend(Next(p, a[0]), a[1..], b);
    }
  }

  lemma AfterOne(p: Process, turn: Turn)
    ensures After(p, [turn]) == Next(p, turn)
  {
    assert After(Next(p, turn), []) == Next(p, turn);
  }

  // ----- The process runs the worker protocol and nothing else -----

  /** Every run of the process is, for the workers, a run of the protocol. */
  lemma {:induction false} ProcessRunsProtocol(p: Process, turns: seq<Turn>) returns (schedule: seq<Tid>)
    ensures After(p, turns).workers == Run(p.workers, schedule)
    decreases turns
  {
    if turns == [] {
      schedule := [];
    } else {
      var p1 := Next(p, turns[0]);
      var rest := ProcessRunsProtocol(p1, turns[1..]);
      if p1.workers == p.workers {
        schedule := rest;
      } else {
        var t := turns[0].t;
        schedule := [t] + rest;
        RunCons(p.workers, t, rest);
      }
    }
  }

  /** And every run of the protocol is one of the process, once both workers exist. */
  lemma {:induction false} ProtocolRunsInProcess(p: Process, schedule: seq<Tid>) returns (turns: seq<Turn>)
    requires Alive(p) && !p.main.Create?
    ensures After(p, turns) == p.(workers := Run(p.workers, schedule))
    decreases schedule
  {
    if schedule == [] {
      turns := [];
    } else {
      var turn := OfWorker(schedule[0]);
      var rest := ProtocolRunsInProcess(Next(p, turn), schedule[1..]);
      turns := [turn] + rest;
      AfterAppend(p, [turn], rest);
      AfterOne(p, turn);
    }
  }

  /** So the workers' states inside the process are exactly the reachable states of the
      protocol, and everything proved of those holds here. */
  lemma SameReachableStates(s: State)
    ensures (exists p :: Occurs(p) && p.workers == s) <==> Reachable(s)
  {
    forall p | Occurs(p) && p.workers == s ensures Reachable(s) {
      var turns :| p == After(START, turns);
      var schedule := ProcessRunsProtocol(START, turns);
    }
    if Reachable(s) {
      var schedule :| s == Run(INIT, schedule);
      var creation := AllCreated();
      var turns := ProtocolRunsInProcess(After(START, creation), schedule);
      AfterAppend(START, creation, turns);
      var p := After(START, creation + turns);
      assert Occurs(p) && p.workers == s;
    }
  }

  lemma AllCreated() returns (turns: seq<Turn>)
    ensures After(START, turns) == START.(main := SleepFive)
  {
    var ok := OfMain(true);
    turns := [ok] + [ok] + [ok] + [ok];
    var p1, p2, p3 := Next(START, ok), START.(main := Create(2)), START.(main := Create(3));
    AfterAppend(START, [ok] + [ok] + [ok], [ok]);
    AfterAppend(START, [ok] + [ok], [ok]);
    AfterAppend(START, [ok], [ok]);
    AfterOne(START, ok);
    AfterOne(p1, ok);
    AfterOne(p2, ok);
    AfterOne(p3, ok);
  }

  // ----- How far main gets -----

  /** main waits for thread3 at the latest, and each join it has passed has seen its worker
      exit. */
  predicate MainStopsAtThread3(p: Process) {
    && p.loop3 != Ended && p.loop4 != Ended
    && (p.main.Create? || p.main == SleepFive || p.main.Join? || p.main == Aborted)
    && (p.main.Create? ==> p.main.k < 4)
    && (p.main.Join? ==>
          && p.main.k <= 2
          && (p.main.k >= 1 ==> p.workers.w1.pc == Exited)
          && (p.main.k >= 2 ==> p.workers.w2.pc == Exited))
  }

  lemma {:induction false} MainStopsAtThread3Always(p: Process, turns: seq<Turn>)
    requires MainStopsAtThread3(p)
    ensures MainStopsAtThread3(After(p, turns))
    decreases turns
  {
    if turns != [] {
      MainStopsAtThread3Always(Next(p, turns[0]), turns[1..]);
    }
  }

  /** In no run, whether the workers deadlock, exit or keep running, does main reach a
      pthread_mutex_destroy or return. */
  lemma MainNeverDestroys(p: Process)
    requires Occurs(p)
    ensures !p.main.Destroy? && p.main != Returned && MainStopsAtThread3(p)
  {
    var turns :| p == After(START, turns);
    MainStopsAtThread3Always(START, turns);
  }

  // ----- What main does, statement by statement -----

  /** main from its first pthread_create to its return. */
  const STATEMENTS: seq<MainPC> :=
    [Create(0), Create(1), Create(2), Create(3), SleepFive, Join(0), Join(1), Join(2), Join(3),
     Destroy(0), Destroy(1), Destroy(2), Destroy(3), Returned]

  /** main goes through its statements in order and skips none. It stays only at a join, while
      the thread it joins has not ended. */
  lemma MainInOrder(p: Process, i: nat, created: bool)
    requires i + 1 < |STATEMENTS| && p.main == STATEMENTS[i]
    requires p.main.Create? ==> created
    ensures var waits :=
              || (p.main == Join(0) && p.workers.w1.pc != Exited)
              || (p.main == Join(1) && p.workers.w2.pc != Exited)
              || (p.main == Join(2) && p.loop3 != Ended)
              || (p.main == Join(3) && p.loop4 != Ended);
            Next(p, OfMain(created)) == if waits then p else p.(main := STATEMENTS[i + 1])
  {
    assert i < 13 && |STATEMENTS| == 14;
  }

  lemma {:induction false} EndedForGood(p: Process, turns: seq<Turn>)
    requires !Alive(p)
    ensures After(p, turns) == p
    decreases turns
  {
    if turns != [] {
      EndedForGood(p, turns[1..]);
    }
  }

  /** The first pthread_create that fails ends the process: whatever is scheduled afterwards, no
      thread does anything more. */
  lemma FailedCreateAborts(p: Process, more: seq<Turn>)
    requires p.main.Create?
    ensures After(p, [OfMain(false)] + more) == p.(main := Aborted)
  {
    AfterAppend(p, [OfMain(false)], more);
    AfterOne(p, OfMain(false));
    EndedForGood(p.(main := Aborted), more);
  }

  // ----- No thread runs before it is created -----

  /** What the turns of main say about its creations: how many succeeded, and whether one
      failed. */
  datatype Creations = Creations(made: nat, failed: bool)

  function Creating(turns: seq<Turn>): Creations {
    if turns == [] then Creations(0, false)
    else
      var before, last := Creating(turns[..|turns| - 1]), turns[|turns| - 1];
      if before.failed || before.made >= 4 || !last.OfMain? then before
      else if last.created then before.(made := before.made + 1)
      else before.(failed := true)
  }

  /** main stands where its creations have brought it, and the threads it has not created are as
      new. */
  predicate Reflects(p: Process, c: Creations) {
    && c.made <= 4
    && (c.failed <==> p.main == Aborted)
    && (p.main.Create? <==> !c.failed && c.made < 4) && (p.main.Create? ==> p.main.k == c.made)
    && (c.made <= 0 ==> p.workers.w1 == NEW_WORKER)
    && (c.made <= 1 ==> p.workers.w2 == NEW_WORKER)
    && (c.made <= 2 ==> p.loop3 == Sleeping)
    && (c.made <= 3 ==> p.loop4 == Sleeping)
  }

  lemma StepLeavesOther(s: State, t: Tid)
    ensures Step(s, t).W(Other(t)) == s.W(Other(t))
  {
  }

  lemma StillReflects(p: Process, turns: seq<Turn>, turn: Turn)
    requires Reflects(p, Creating(turns))
    ensures Reflects(Next(p, turn), Creating(turns + [turn]))
  {
    assert (turns + [turn])[..|turns|] == turns;
    if turn.OfWorker? {
      StepLeavesOther(p.workers, turn.t);
    }
  }

  /** In every run the creations that have succeeded decide how far main is, and no thread has
      taken a step before its own creation. */
  lemma {:induction false} NoStepBeforeCreation(turns: seq<Turn>)
    ensures Reflects(After(START, turns), Creating(turns))
    decreases |turns|
  {
    if turns != [] {
      var before, last := turns[..|turns| - 1], turns[|turns| - 1];
      assert turns == before + [last];
      NoStepBeforeCreation(before);
      StillReflects(After(START, before), before, last);
      AfterAppend(START, before, [last]);
      AfterOne(After(START, before), last);
    }
  }

  /** The place in tid[] of the thread whose turn it is. */
  function Index(turn: Turn): nat
    requires !turn.OfMain?
  {
    match turn
    case OfWorker(One) => 0
    case OfWorker(Two) => 1
    case OfThread3 => 2
    case OfThread4 => 3
  }

  /** What a statement of the given thread does to the process. */
  function Moved(p: Process, turn: Turn): Process
    requires !turn.OfMain?
  {
    match turn
    case OfWorker(t) => p.(workers := Step(p.workers, t))
    case OfThread3 => p.(loop3 := if p.loop3 == Sleeping then Filling else Sleeping)
    case OfThread4 => p.(loop4 := if p.loop4 == Sleeping then Filling else Sleeping)
  }

  /** A thread's turn after any run moves that thread alone if its pthread_create has succeeded
      and none has failed, and does nothing otherwise. */
  lemma TurnOfThread(turns: seq<Turn>, turn: Turn)
    requires !turn.OfMain?
    ensures var p, c := After(START, turns), Creating(turns);
            After(START, turns + [turn]) == if Index(turn) < c.made && !c.failed then Moved(p, turn) else p
  {
    NoStepBeforeCreation(turns);
    MainStopsAtThread3Always(START, turns);
    AfterAppend(START, turns, [turn]);
    AfterOne(After(START, turns), turn);
  }

  // ----- The first join, and how far main can get -----

  ghost predicate CanPassFirstJoin(p: Process) {
    exists turns :: After(p, turns).main == Join(1)
  }

  /** main can get past its first join exactly when thread1 can still exit. */
  lemma FirstJoinPasses(p: Process)
    requires Occurs(p) && (p.main == SleepFive || p.main == Join(0))
    ensures CanPassFirstJoin(p) <==>
              HasRead(p.workers, One, 100000) || (!Doomed(p.workers) && EarliestRead(p.workers, One) <= 100000)
  {
    SameReachableStates(p.workers);
    ExactExit(p.workers, One);
    if CanPassFirstJoin(p) {
      var turns :| After(p, turns).main == Join(1);
      MainNeverDestroys(p);
      MainStopsAtThread3Always(p, turns);
      var schedule := ProcessRunsProtocol(p, turns);
      assert Run(p.workers, schedule).W(One).pc == Exited;
    }
    if CanExit(p.workers, One) {
      var schedule :| Run(p.workers, schedule).W(One).pc == Exited;
      var turns := ProtocolRunsInProcess(p, schedule);
      JoinAfterExit(p, turns);
    }
  }

  lemma JoinAfterExit(p: Process, turns: seq<Turn>)
    requires p.main == SleepFive || p.main == Join(0)
    requires var q := After(p, turns); q.main == p.main && q.workers.w1.pc == Exited
    ensures CanPassFirstJoin(p)
  {
    var q, m := After(p, turns), OfMain(true);
    AfterOne(q, m);
    AfterAppend(p, turns, [m]);
    if p.main == SleepFive {
      AfterOne(Next(q, m), m);
      AfterAppend(p, turns + [m], [m]);
      assert After(p, turns + [m] + [m]).main == Join(1);
    } else {
      assert After(p, turns + [m]).main == Join(1);
    }
  }

  /** The bound is reached: some run has both workers exit and main wait for thread3, where it
      then stays in every continuation. */
  lemma MainCanReachThread3() returns (turns: seq<Turn>)
    ensures After(START, turns).main == Join(2)
    ensures forall more :: After(After(START, turns), more).main == Join(2)
  {
    var creation := AllCreated();
    var schedule := BothExitIsReachable();
    var work := ProtocolRunsInProcess(After(START, creation), schedule);
    var p := After(START, creation + work);
    AfterAppend(START, creation, work);
    assert p == START.(main := SleepFive, workers := Run(INIT, schedule));
    var joins := JoinBoth(p);
    turns := creation + work + joins;
    AfterAppend(START, creation + work, joins);
    forall more ensures After(After(START, turns), more).main == Join(2) {
      StaysAtThread3(After(START, turns), more);
    }
  }

  lemma JoinBoth(p: Process) returns (turns: seq<Turn>)
    requires p.main == SleepFive && p.workers.w1.pc == Exited && p.workers.w2.pc == Exited
    ensures After(p, turns) == p.(main := Join(2))
  {
    var m := OfMain(true);
    turns := [m] + [m] + [m];
    AfterAppend(p, [m] + [m], [m]);
    AfterAppend(p, [m], [m]);
    AfterOne(p, m);
    AfterOne(p.(main := Join(0)), m);
    AfterOne(p.(main := Join(1)), m);
  }

  lemma {:induction false} StaysAtThread3(p: Process, turns: seq<Turn>)
    requires p.main == Join(2) && p.loop3 != Ended
    ensures After(p, turns).main == Join(2)
    decreases turns
  {
    if turns != [] {
      StaysAtThread3(Next(p, turns[0]), turns[1..]);
    }
  }

  /** Once the workers are doomed, main never gets past its first join. */
  lemma DoomedMainWaits(p: Process, turns: seq<Turn>)
    requires Occurs(p) && Doomed(p.workers)
    ensures var q := After(p, turns);
            q.main.Create? || q.main == SleepFive || q.main == Join(0) || q.main == Aborted
  {
    SameReachableStates(p.workers);
    ReachableInv(p.workers);
    MainNeverDestroys(p);
    MainStopsAtThread3Always(p, turns);
    var schedule := ProcessRunsProtocol(p, turns);
    DoomIsInevitable(p.workers, schedule, One);
  }
}
