/** workqueue_proc_store in its own form: a do-while loop over a pointer and a heap that
    kmalloc and kfree change. */
module LeakProgram {
  import opened LeakLoop

  class Slab {
    var live: set<nat>
    var log: seq<Event>
    const allocator: Allocator

    function View(): Heap
      reads this
    {
      Heap(live, log)
    }

    constructor (allocator: Allocator)
      ensures View() == Heap({}, []) && this.allocator == allocator
    {
      live, log, this.allocator := {}, [], allocator;
    }

    method Malloc() returns (p: nat)
      modifies this
      ensures (View(), p) == Kmalloc(old(View()), allocator)
    {
      p := Answer(allocator, View());
      if p == 0 {
        log := log + [AllocationFailed];
      } else {
        live, log := live + {p}, log + [Allocated(p)];
      }
    }

    method Free(p: nat)
      modifies this
      ensures View() == Kfree(old(View()), p)
    {
      if p == 0 {
        log := log + [FreedNull];
      } else {
        live, log := live - {p}, log + [Freed(p)];
      }
    }

    /** The loop leaks exactly the blocks of its successful first allocations and returns the
        count it was given. */
    method WorkqueueProcStore(count: int) returns (ret: int)
      modifies this
      ensures ret == count
      ensures View() == Store(old(View()), allocator)
      ensures OneCallLater(old(View()), allocator, View())
    {
      ghost var start := View();
      var i: nat := 0;
      var again := true;
      while again
        invariant i <= ITERATIONS && (again <==> i < ITERATIONS)
        invariant View() == Loop(start, allocator, i)
        decreases ITERATIONS - i
      {
        LoopNext(start, allocator, i);
        var mm := Malloc();
        if mm != 0 {
          mm := Malloc();
          Free(mm);
        }
        i := i + 1;
        again := i < 1024 / 8;
      }
      assert View() == Store(start, allocator);
      StoreLeaks(start, allocator);
      return count;
    }
  }
}
