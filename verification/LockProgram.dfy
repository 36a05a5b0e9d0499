/** app/lock.cpp in its own form: global variables that the threads update one statement at a
    time. Each method is one turn of one thread, proved to do what the transition system of
    LockProcess says, and Execute runs the whole program under any scheduler. */
module LockProgram {
  import opened LockProtocol
  import opened LockProcess

  class Program {
    var sequence1: int
    var sequence2: int
    var mutex1: Owner
    var mutex2: Owner
    var worker1: Worker
    var worker2: Worker
    var main: MainPC
    var loop3: LoopPC
    var loop4: LoopPC

    function Workers(): State
      reads this
    {
      State(sequence1, sequence2, mutex1, mutex2, worker1, worker2)
    }

    function View(): Process
      reads this
    {
      Process(main, Workers(), loop3, loop4)
    }

    constructor ()
      ensures View() == START
    {
      sequence1, sequence2 := 0, 0;
      mutex1, mutex2 := Free, Free;
      worker1, worker2 := NEW_WORKER, NEW_WORKER;
      main, loop3, loop4 := Create(0), Sleeping, Sleeping;
    }

    /** One statement of thread1 and func1. */
    method Thread1()
      modifies this
      ensures Workers() == Step(old(Workers()), One)
      ensures main == old(main) && loop3 == old(loop3) && loop4 == old(loop4)
    {
      match worker1.pc {
        case LockFirst =>
          if mutex1.Free? {
            mutex1 := HeldBy(One);
            worker1 := worker1.(pc := LoadFirst);
          }
        case LoadFirst =>
          worker1 := worker1.(pc := StoreFirst, reg := sequence1);
        case StoreFirst =>
          sequence1 := worker1.reg + 1;
          worker1 := worker1.(pc := Nap);
        case Nap =>
          worker1 := worker1.(pc := LockSecond);
        case LockSecond =>
          if mutex2.Free? {
            mutex2 := HeldBy(One);
            worker1 := worker1.(pc := LoadSecond);
          }
        case LoadSecond =>
          worker1 := worker1.(pc := StoreSecond, reg := sequence2);
        case StoreSecond =>
          sequence2 := worker1.reg + 1;
          worker1 := worker1.(pc := UnlockSecond);
        case UnlockSecond =>
          mutex2 := Free;
          worker1 := worker1.(pc := UnlockFirst);
        case UnlockFirst =>
          mutex1 := Free;
          worker1 := worker1.(pc := ReadBack, calls := worker1.calls + 1);
        case ReadBack =>
          var read := Read(sequence1, worker1.calls + worker2.calls);
          worker1 := worker1.(pc := Check, ret := sequence1, returned := worker1.returned + [read]);
        case Check =>
          if worker1.ret == LIMIT {
            worker1 := worker1.(pc := Exited);
          } else {
            worker1 := worker1.(pc := LockFirst);
          }
        case Exited =>
      }
    }

    /** One statement of thread2 and func2. */
    method Thread2()
      modifies this
      ensures Workers() == Step(old(Workers()), Two)
      ensures main == old(main) && loop3 == old(loop3) && loop4 == old(loop4)
    {
      match worker2.pc {
        case LockFirst =>
          if mutex2.Free? {
            mutex2 := HeldBy(Two);
            worker2 := worker2.(pc := LoadFirst);
          }
        case LoadFirst =>
          worker2 := worker2.(pc := StoreFirst, reg := sequence2);
        case StoreFirst =>
          sequence2 := worker2.reg + 1;
          worker2 := worker2.(pc := Nap);
        case Nap =>
          worker2 := worker2.(pc := LockSecond);
        case LockSecond =>
          if mutex1.Free? {
            mutex1 := HeldBy(Two);
            worker2 := worker2.(pc := LoadSecond);
          }
        case LoadSecond =>
          worker2 := worker2.(pc := StoreSecond, reg := sequence1);
        case StoreSecond =>
          sequence1 := worker2.reg + 1;
          worker2 := worker2.(pc := UnlockSecond);
        case UnlockSecond =>
          mutex1 := Free;
          worker2 := worker2.(pc := UnlockFirst);
        case UnlockFirst =>
          mutex2 := Free;
          worker2 := worker2.(pc := ReadBack, calls := worker2.calls + 1);
        case ReadBack =>
          var read := Read(sequence2, worker1.calls + worker2.calls);
          worker2 := worker2.(pc := Check, ret := sequence2, returned := worker2.returned + [read]);
        case Check =>
          if worker2.ret == LIMIT {
            worker2 := worker2.(pc := Exited);
          } else {
            worker2 := worker2.(pc := LockFirst);
          }
        case Exited =>
      }
    }

    /** One statement of main. `created` is what a pthread_create made in this turn reports. */
    method MainThread(created: bool)
      modifies this`main
      ensures main == MainStep(old(View()), created)
    {
      match main {
        case Create(k) =>
          if !created {
            main := Aborted;
          } else if k < 3 {
            main := Create(k + 1);
          } else {
            main := SleepFive;
          }
        case SleepFive =>
          main := Join(0);
        case Join(k) =>
          var terminated := false;
          if k == 0 {
            terminated := worker1.pc == Exited;
          } else if k == 1 {
            terminated := worker2.pc == Exited;
          } else if k == 2 {
            terminated := loop3 == Ended;
          } else {
            terminated := loop4 == Ended;
          }
          if terminated {
            if k < 3 {
              main := Join(k + 1);
            } else {
              main := Destroy(0);
            }
          }
        case Destroy(k) =>
          if k < 3 {
            main := Destroy(k + 1);
          } else {
            main := Returned;
          }
        case Returned =>
        case Aborted =>
      }
    }

    /** One statement of thread3: sleep, fill the buffer, and round again. */
    method Thread3()
      modifies this`loop3
      ensures loop3 == LoopStep(old(loop3))
    {
      if loop3 == Sleeping {
        loop3 := Filling;
      } else if loop3 == Filling {
        loop3 := Sleeping;
      }
    }

    /** One statement of thread4. */
    method Thread4()
      modifies this`loop4
      ensures loop4 == LoopStep(old(loop4))
    {
      if loop4 == Sleeping {
        loop4 := Filling;
      } else if loop4 == Filling {
        loop4 := Sleeping;
      }
    }

    /** One statement of whichever thread the scheduler picks, while the process lives and if
        that thread exists yet. */
    method TakeTurn(turn: Turn)
      modifies this
      ensures View() == Next(old(View()), turn)
    {
      if main == Returned || main == Aborted {
        return;
      }
      match turn {
        case OfMain(created) =>
          MainThread(created);
        case OfWorker(One) =>
          if Created(View(), 0) {
            Thread1();
          }
        case OfWorker(Two) =>
          if Created(View(), 1) {
            Thread2();
          }
        case OfThread3 =>
          if Created(View(), 2) {
            Thread3();
          }
        case OfThread4 =>
          if Created(View(), 3) {
            Thread4();
          }
      }
    }

    /** Any number of turns. Whatever the scheduler does, no update is lost, the owners follow
        the program counters, and main has not destroyed a mutex. */
    method Execute(turns: seq<Turn>)
      requires Occurs(View())
      modifies this
      ensures View() == After(old(View()), turns) && Occurs(View())
      ensures NoLostUpdates(Workers()) && Ownership(Workers())
      ensures !main.Destroy? && main != Returned
    {
      ghost var start :| View() == After(START, start);
      for i := 0 to |turns|
        invariant View() == After(old(View()), turns[..i])
      {
        AfterAppend(old(View()), turns[..i], [turns[i]]);
        AfterOne(View(), turns[i]);
        assert turns[..i + 1] == turns[..i] + [turns[i]];
        TakeTurn(turns[i]);
      }
      assert turns[..|turns|] == turns;
      AfterAppend(START, start, turns);
      assert View() == After(START, start + turns);
      MainNeverDestroys(View());
      SameReachableStates(Workers());
      ReachableInv(Workers());
    }
  }
}
