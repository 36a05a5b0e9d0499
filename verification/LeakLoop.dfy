/** The MM_LEAK_DEBUG loop of mm_spinlock/mm_spinlock.c: 128 times, allocate 8 KiB, and if that
    works allocate 8 KiB more into the same pointer and free only those.

    The heap is the set of live blocks and a log of what was done to it. The allocator is an
    arbitrary function of all that: it may fail whenever it likes and may hand out an address
    again once it is free, but never one that is live. */
module LeakLoop {
  import opened Wrappers

  const ITERATIONS: nat := 1024 / 8
  const BLOCK_BYTES: nat := 8 * 1024

  datatype Event = Allocated(p: nat) | AllocationFailed | Freed(p: nat) | FreedNull

  /** Block addresses are positive; 0 is NULL. */
  datatype Heap = Heap(live: set<nat>, log: seq<Event>)

  type Allocator = Heap -> nat

  /** What kmalloc returns: the allocator's choice, or NULL. */
  function Answer(a: Allocator, h: Heap): nat {
    if a(h) in h.live then 0 else a(h)
  }

  function Kmalloc(h: Heap, a: Allocator): (Heap, nat) {
    var p := Answer(a, h);
    if p == 0 then (h.(log := h.log + [AllocationFailed]), 0)
    else (Heap(h.live + {p}, h.log + [Allocated(p)]), p)
  }

  function Kfree(h: Heap, p: nat): Heap {
    if p == 0 then h.(log := h.log + [FreedNull])
    else Heap(h.live - {p}, h.log + [Freed(p)])
  }

  function Iteration(h: Heap, a: Allocator): Heap {
    var (h1, first) := Kmalloc(h, a);
    if first == 0 then h1
    else
      var (h2, second) := Kmalloc(h1, a);
      Kfree(h2, second)
  }

  function IterationOf(a: Allocator): Heap -> Heap {
    h => Iteration(h, a)
  }

  /** `step` done `n` times. */
  function Iterate(step: Heap -> Heap, h: Heap, n: nat): Heap {
    if n == 0 then h else step(Iterate(step, h, n - 1))
  }

  function Loop(h: Heap, a: Allocator, n: nat): Heap {
    Iterate(IterationOf(a), h, n)
  }

  /** One write to the proc file. */
  function Store(h: Heap, a: Allocator): Heap {
    Loop(h, a, ITERATIONS)
  }

  lemma LoopNext(h: Heap, a: Allocator, n: nat)
    ensures Loop(h, a, n + 1) == Iteration(Loop(h, a, n), a)
  {
  }

  function StoreOf(a: Allocator): Heap -> Heap {
    h => Store(h, a)
  }

  /** `n` writes to the proc file. */
  function Calls(h: Heap, a: Allocator, n: nat): Heap {
    Iterate(StoreOf(a), h, n)
  }

  // ----- Conservation under an arbitrary allocator -----

  /** What one iteration amounts to. */
  datatype Outcome = Nothing | Kept(first: nat) | KeptAndFreed(first: nat, second: nat)

  function Events(o: Outcome): seq<Event> {
    match o
    case Nothing => [AllocationFailed]
    case Kept(p) => [Allocated(p), AllocationFailed, FreedNull]
    case KeptAndFreed(p, q) => [Allocated(p), Allocated(q), Freed(q)]
  }

  function Log(os: seq<Outcome>): seq<Event> {
    if os == [] then [] else Log(os[..|os| - 1]) + Events(os[|os| - 1])
  }

  /** The block that the iteration leaks. */
  function New(o: Outcome): set<nat> {
    if o.Nothing? then {} else {o.first}
  }

  /** The blocks of the successful first allocations. */
  function Firsts(os: seq<Outcome>): set<nat> {
    if os == [] then {}
    else Firsts(os[..|os| - 1]) + New(os[|os| - 1])
  }

  function Successes(os: seq<Outcome>): nat {
    if os == [] then 0 else Successes(os[..|os| - 1]) + |New(os[|os| - 1])|
  }

  /** No second block was live before the first iteration or kept by an earlier one. */
  predicate SecondsAreFresh(live: set<nat>, os: seq<Outcome>) {
    os == [] ||
    (SecondsAreFresh(live, os[..|os| - 1]) &&
     (os[|os| - 1].KeptAndFreed? ==> os[|os| - 1].second !in live + Firsts(os)))
  }

  /** `h'` is `h` after the outcomes `os`: the live set has gained exactly the first blocks, all
      of them new and different, and nothing was freed but second blocks, each once, in the
      iteration that allocated it. */
  predicate Accounts(h: Heap, os: seq<Outcome>, h': Heap) {
    && h'.log == h.log + Log(os)
    && SecondsAreFresh(h.live, os)
    && GainsFirsts(h, os, h')
  }

  /** The live set has gained exactly the first blocks, all of them new and different. */
  predicate GainsFirsts(h: Heap, os: seq<Outcome>, h': Heap) {
    && h'.live == h.live + Firsts(os)
    && Firsts(os) !! h.live
    && |Firsts(os)| == Successes(os) <= |os|
  }

  /** The heap once `p` has been allocated. */
  function With(h: Heap, p: nat): Heap {
    Heap(h.live + {p}, h.log + [Allocated(p)])
  }

  /** The outcome that the allocator's answers dictate: nothing if it refuses the first block,
      and otherwise what it says when it is asked again with that block live. */
  function Expected(h: Heap, a: Allocator): Outcome {
    var p := Answer(a, h);
    if p == 0 then Nothing
    else
      var q := Answer(a, With(h, p));
      if q == 0 then Kept(p) else KeptAndFreed(p, q)
  }

  /** One iteration asks the allocator twice, the second time only if the first block was
      granted, leaks that block, and frees the second. */
  lemma IterationExact(h: Heap, a: Allocator)
    ensures var p, h' := Answer(a, h), Iteration(h, a);
            if p == 0 then h' == Heap(h.live, h.log + [AllocationFailed])
            else
              var q := Answer(a, Heap(h.live + {p}, h.log + [Allocated(p)]));
              && h'.live == h.live + {p} && (q != 0 ==> q !in h'.live)
              && h'.log == h.log + if q == 0 then [Allocated(p), AllocationFailed, FreedNull]
                                   else [Allocated(p), Allocated(q), Freed(q)]
  {
    var (h1, p) := Kmalloc(h, a);
    if p != 0 {
      var q := Kmalloc(h1, a).1;
      if q == 0 {
        assert Iteration(h, a).log == h.log + [Allocated(p)] + [AllocationFailed] + [FreedNull];
      } else {
        assert Iteration(h, a).log == h.log + [Allocated(p)] + [Allocated(q)] + [Freed(q)];
      }
    }
  }

  lemma IterationOutcome(h: Heap, a: Allocator)
    ensures var h', o := Iteration(h, a), Expected(h, a);
            && h'.log == h.log + Events(o)
            && h'.live == h.live + New(o) && New(o) !! h.live
            && (o.KeptAndFreed? ==> o.second !in h.live + New(o))
  {
    IterationExact(h, a);
  }

  /** The heap that the outcomes lead to. */
  function HeapAfter(h: Heap, os: seq<Outcome>): Heap {
    Heap(h.live + Firsts(os), h.log + Log(os))
  }

  /** Outcome `k` is the one that the allocator dictates in the heap that the outcomes before it
      lead to. */
  predicate DictatedAt(h: Heap, a: Allocator, os: seq<Outcome>, k: nat)
    requires k < |os|
  {
    os[k] == Expected(HeapAfter(h, os[..k]), a)
  }

  predicate Dictated(h: Heap, a: Allocator, os: seq<Outcome>) {
    forall k: nat :: k < |os| ==> DictatedAt(h, a, os, k)
  }

  lemma OneMoreDictated(h: Heap, a: Allocator, os: seq<Outcome>, o: Outcome, all: seq<Outcome>)
    requires Dictated(h, a, os) && o == Expected(HeapAfter(h, os), a) && all == os + [o]
    ensures Dictated(h, a, all)
  {
    forall k: nat | k < |all| ensures DictatedAt(h, a, all, k) {
      if k < |os| {
        assert DictatedAt(h, a, os, k) && all[..k] == os[..k];
      } else {
        assert all[..k] == os;
      }
    }
  }

  /** How the sums over the outcomes grow. */
  lemma OneMore(live: set<nat>, os: seq<Outcome>, o: Outcome)
    ensures Log(os + [o]) == Log(os) + Events(o)
    ensures Firsts(os + [o]) == Firsts(os) + New(o)
    ensures Successes(os + [o]) == Successes(os) + |New(o)|
    ensures SecondsAreFresh(live, os + [o]) <==>
              SecondsAreFresh(live, os) && (o.KeptAndFreed? ==> o.second !in live + Firsts(os) + New(o))
  {
    var all := os + [o];
    assert all[..|all| - 1] == os && all[|all| - 1] == o;
  }

  lemma GrowDisjoint(live: set<nat>, some: set<nat>, more: set<nat>)
    requires some !! live && more !! live + some
    ensures some + more !! live && |some + more| == |some| + |more|
    ensures live + (some + more) == live + some + more
  {
    assert |some + more| == |some| + |more| by {
      assert some * more == {};
    }
  }

  lemma OneMoreGain(h: Heap, os: seq<Outcome>, h1: Heap, o: Outcome, h2: Heap, all: seq<Outcome>)
    requires GainsFirsts(h, os, h1) && all == os + [o]
    requires h2.live == h1.live + New(o) && New(o) !! h1.live
    ensures GainsFirsts(h, all, h2)
  {
    OneMore(h.live, os, o);
    GrowDisjoint(h.live, Firsts(os), New(o));
    assert |New(o)| <= 1;
  }

  lemma OneMoreLog(h: Heap, os: seq<Outcome>, h1: Heap, o: Outcome, h2: Heap, all: seq<Outcome>)
    requires h1.log == h.log + Log(os) && h2.log == h1.log + Events(o) && all == os + [o]
    ensures h2.log == h.log + Log(all)
  {
    OneMore(h.live, os, o);
  }

  lemma OneMoreSecond(h: Heap, os: seq<Outcome>, h1: Heap, o: Outcome, all: seq<Outcome>)
    requires SecondsAreFresh(h.live, os) && h1.live == h.live + Firsts(os) && all == os + [o]
    requires o.KeptAndFreed? ==> o.second !in h1.live + New(o)
    ensures SecondsAreFresh(h.live, all)
  {
    OneMore(h.live, os, o);
  }

  lemma OneMoreOutcome(h: Heap, os: seq<Outcome>, h1: Heap, o: Outcome, h2: Heap, all: seq<Outcome>)
    requires Accounts(h, os, h1) && all == os + [o]
    requires h2.log == h1.log + Events(o) && h2.live == h1.live + New(o) && New(o) !! h1.live
    requires o.KeptAndFreed? ==> o.second !in h1.live + New(o)
    ensures Accounts(h, all, h2)
  {
    OneMoreLog(h, os, h1, o, h2, all);
    OneMoreSecond(h, os, h1, o, all);
    OneMoreGain(h, os, h1, o, h2, all);
  }

  lemma {:induction false} LoopAccounts(h: Heap, a: Allocator, n: nat) returns (os: seq<Outcome>)
    ensures |os| == n && Accounts(h, os, Loop(h, a, n)) && Dictated(h, a, os)
    ensures |h.live| <= |Loop(h, a, n).live| == |h.live| + Successes(os) <= |h.live| + n
    decreases n
  {
    if n == 0 {
      os := [];
    } else {
      os := LoopAccounts(h, a, n - 1);
      var o := Expected(Loop(h, a, n - 1), a);
      IterationOutcome(Loop(h, a, n - 1), a);
      OneMoreDictated(h, a, os, o, os + [o]);
      OneMoreOutcome(h, os, Loop(h, a, n - 1), o, Loop(h, a, n), os + [o]);
      os := os + [o];
    }
  }

  /** The bytes that the heap has grown by. */
  function Growth(h: Heap, h': Heap): int {
    BLOCK_BYTES * (|h'.live| - |h.live|)
  }

  lemma GrowthOfBlocks(h: Heap, h': Heap, blocks: nat)
    requires |h'.live| == |h.live| + blocks
    ensures Growth(h, h') == 8192 * blocks
  {
  }

  /** One call, whatever the allocator does: 128 iterations, each what the allocator's answers
      dictate and fully accounted for, and 8 KiB of growth for each successful first
      allocation, so at most 1 MiB. */
  lemma LeakConservation(h: Heap, a: Allocator) returns (os: seq<Outcome>)
    ensures |os| == 128 && Accounts(h, os, Store(h, a)) && Dictated(h, a, os)
    ensures |Store(h, a).live| == |h.live| + Successes(os)
    ensures Growth(h, Store(h, a)) == 8192 * Successes(os) <= 1024 * 1024
  {
    os := LoopAccounts(h, a, ITERATIONS);
    GrowthOfBlocks(h, Store(h, a), Successes(os));
  }

  /** `h'` is `h` after one call with the allocator `a`. */
  ghost predicate OneCallLater(h: Heap, a: Allocator, h': Heap) {
    exists os :: |os| == 128 && Accounts(h, os, h') && Dictated(h, a, os)
  }

  lemma StoreLeaks(h: Heap, a: Allocator)
    ensures OneCallLater(h, a, Store(h, a))
  {
    var os := LeakConservation(h, a);
  }

  lemma {:induction false} IterateOnlyLeaks(step: Heap -> Heap, h: Heap, k: nat, n: nat)
    requires forall x: Heap :: x.live <= step(x).live && |step(x).live| <= |x.live| + k
    ensures h.live <= Iterate(step, h, n).live
    ensures |Iterate(step, h, n).live| <= |h.live| + k * n
    decreases n
  {
    if n > 0 {
      IterateOnlyLeaks(step, h, k, n - 1);
      assert k * n == k * (n - 1) + k;
    }
  }

  lemma StoreOnlyLeaks(h: Heap, a: Allocator)
    ensures h.live <= Store(h, a).live && |Store(h, a).live| <= |h.live| + 128
  {
    var os := LeakConservation(h, a);
  }

  lemma BlocksOfCalls(blocks: int, n: nat)
    requires blocks <= 128 * n
    ensures 8192 * blocks <= 1024 * 1024 * n
  {
  }

  /** Over any number of calls nothing that was live is ever lost, and the heap grows by at most
      1 MiB a call. */
  lemma CallsOnlyLeak(h: Heap, a: Allocator, n: nat)
    ensures h.live <= Calls(h, a, n).live
    ensures Growth(h, Calls(h, a, n)) <= 1024 * 1024 * n
  {
    forall x: Heap ensures x.live <= StoreOf(a)(x).live && |StoreOf(a)(x).live| <= |x.live| + 128 {
      StoreOnlyLeaks(x, a);
    }
    IterateOnlyLeaks(StoreOf(a), h, 128, n);
    BlocksOfCalls(|Calls(h, a, n).live| - |h.live|, n);
  }

  // ----- The log as a judge of its own -----

  /** Replays a log against a live set. None as soon as it allocates a live block or NULL, or
      frees a block that is not live. */
  function Replay(live: set<nat>, log: seq<Event>): Option<set<nat>> {
    if log == [] then Some(live)
    else
      match Replay(live, log[..|log| - 1])
      case None => None
      case Some(before) =>
        match log[|log| - 1]
        case Allocated(p) => if p == 0 || p in before then None else Some(before + {p})
        case Freed(p) => if p in before then Some(before - {p}) else None
        case AllocationFailed => Some(before)
        case FreedNull => Some(before)
  }

  /** A heap whose log replays to its live set from nothing. */
  predicate Consistent(h: Heap) {
    Replay({}, h.log) == Some(h.live)
  }

  lemma KmallocConsistent(h: Heap, a: Allocator)
    requires Consistent(h)
    ensures Consistent(Kmalloc(h, a).0)
  {
    var log := Kmalloc(h, a).0.log;
    assert log[..|log| - 1] == h.log;
  }

  lemma KfreeConsistent(h: Heap, p: nat)
    requires Consistent(h) && (p == 0 || p in h.live)
    ensures Consistent(Kfree(h, p))
  {
    var log := Kfree(h, p).log;
    assert log[..|log| - 1] == h.log;
  }

  lemma IterationConsistent(h: Heap, a: Allocator)
    requires Consistent(h)
    ensures Consistent(Iteration(h, a))
  {
    KmallocConsistent(h, a);
    var (h1, first) := Kmalloc(h, a);
    if first != 0 {
      KmallocConsistent(h1, a);
      var (h2, second) := Kmalloc(h1, a);
      KfreeConsistent(h2, second);
    }
  }

  lemma {:induction false} IterateConsistent(step: Heap -> Heap, h: Heap, n: nat)
    requires forall x: Heap :: Consistent(x) ==> Consistent(step(x))
    requires Consistent(h)
    ensures Consistent(Iterate(step, h, n))
    decreases n
  {
    if n > 0 {
      IterateConsistent(step, h, n - 1);
    }
  }

  lemma StoreConsistent(h: Heap, a: Allocator)
    requires Consistent(h)
    ensures Consistent(Store(h, a))
  {
    forall x: Heap | Consistent(x) ensures Consistent(IterationOf(a)(x)) {
      IterationConsistent(x, a);
    }
    IterateConsistent(IterationOf(a), h, ITERATIONS);
  }

  /** In any number of calls nothing is freed twice or while it is not live, and nothing is
      allocated that is. */
  lemma CallsConsistent(h: Heap, a: Allocator, n: nat)
    requires Consistent(h)
    ensures Consistent(Calls(h, a, n))
  {
    forall x: Heap | Consistent(x) ensures Consistent(StoreOf(a)(x)) {
      StoreConsistent(x, a);
    }
    IterateConsistent(StoreOf(a), h, n);
  }

  // ----- A heap of fixed capacity -----

  /** Allocation succeeds exactly while fewer than `capacity` blocks are live. */
  ghost predicate HasCapacity(a: Allocator, capacity: nat) {
    forall h: Heap :: Answer(a, h) != 0 <==> |h.live| < capacity
  }

  function Min(x: int, y: int): int {
    if x < y then x else y
  }

  lemma IterationFills(h: Heap, a: Allocator, capacity: nat)
    requires HasCapacity(a, capacity) && |h.live| <= capacity
    ensures |Iteration(h, a).live| == Min(capacity, |h.live| + 1)
  {
    IterationOutcome(h, a);
  }

  /** A step that fills up `k` blocks fills up `k * n` when it is done `n` times. */
  lemma {:induction false} IterateFills(step: Heap -> Heap, h: Heap, capacity: nat, k: nat, n: nat)
    requires forall x: Heap :: |x.live| <= capacity ==> |step(x).live| == Min(capacity, |x.live| + k)
    requires |h.live| <= capacity
    ensures |Iterate(step, h, n).live| == Min(capacity, |h.live| + k * n)
    decreases n
  {
    if n > 0 {
      IterateFills(step, h, capacity, k, n - 1);
      assert k * n == k * (n - 1) + k;
    }
  }

  lemma LoopFills(h: Heap, a: Allocator, capacity: nat, n: nat)
    requires HasCapacity(a, capacity) && |h.live| <= capacity
    ensures |Loop(h, a, n).live| == Min(capacity, |h.live| + n)
  {
    forall x: Heap | |x.live| <= capacity ensures |IterationOf(a)(x).live| == Min(capacity, |x.live| + 1) {
      IterationFills(x, a, capacity);
    }
    IterateFills(IterationOf(a), h, capacity, 1, n);
  }

  lemma StoreFills(h: Heap, a: Allocator, capacity: nat)
    requires HasCapacity(a, capacity) && |h.live| <= capacity
    ensures |Store(h, a).live| == Min(capacity, |h.live| + 128)
  {
    LoopFills(h, a, capacity, ITERATIONS);
  }

  /** Closed form: from L0 live blocks, n calls leave min(C, L0 + 128 n) of C blocks live. */
  lemma LeakClosedForm(h: Heap, a: Allocator, capacity: nat, n: nat)
    requires HasCapacity(a, capacity) && |h.live| <= capacity
    ensures |Calls(h, a, n).live| == Min(capacity, |h.live| + 128 * n)
  {
    forall x: Heap | |x.live| <= capacity ensures |StoreOf(a)(x).live| == Min(capacity, |x.live| + 128) {
      StoreFills(x, a, capacity);
    }
    IterateFills(StoreOf(a), h, capacity, 128, n);
  }

  /** The heap is full, so that every further allocation fails, after exactly as many calls as
      it takes 128 blocks a call to use up what was free. */
  lemma ExhaustedAfter(h: Heap, a: Allocator, capacity: nat, n: nat)
    requires HasCapacity(a, capacity) && |h.live| <= capacity
    ensures Answer(a, Calls(h, a, n)) == 0 <==> 128 * n >= capacity - |h.live|
  {
    LeakClosedForm(h, a, capacity, n);
  }

  lemma NextHeap(h: Heap, os: seq<Outcome>, o: Outcome, h1: Heap, h2: Heap, all: seq<Outcome>)
    requires h1 == HeapAfter(h, os) && all == os + [o]
    requires h2.log == h1.log + Events(o) && h2.live == h1.live + New(o)
    ensures HeapAfter(h, all) == h2
  {
    OneMoreLog(h, os, h1, o, h2, all);
    OneMoreFirst(h.live, os, o, all);
  }

  lemma OneMoreFirst(live: set<nat>, os: seq<Outcome>, o: Outcome, all: seq<Outcome>)
    requires all == os + [o]
    ensures live + Firsts(all) == live + Firsts(os) + New(o)
  {
    OneMore(live, os, o);
  }

  /** The outcomes that the allocator dictates are those of the loop, from the first on. */
  lemma {:induction false} DictatedIsLoop(h: Heap, a: Allocator, os: seq<Outcome>, k: nat)
    requires Dictated(h, a, os) && k <= |os|
    ensures HeapAfter(h, os[..k]) == Loop(h, a, k)
    decreases k
  {
    if k == 0 {
      assert HeapAfter(h, []) == h;
    } else {
      var before := Loop(h, a, k - 1);
      DictatedIsLoop(h, a, os, k - 1);
      assert DictatedAt(h, a, os, k - 1);
      IterationOutcome(before, a);
      NextHeap(h, os[..k - 1], os[k - 1], before, Loop(h, a, k), os[..k]);
    }
  }

  /** Iteration `k` of a call that starts with `used` of `capacity` blocks. */
  predicate OutcomeByRoom(o: Outcome, used: nat, k: nat, capacity: nat) {
    && (o.KeptAndFreed? <==> used + k + 1 < capacity)
    && (o.Kept? <==> used + k + 1 == capacity)
    && (o.Nothing? <==> used + k >= capacity)
  }

  lemma ExpectedByRoom(h: Heap, a: Allocator, used: nat, k: nat, capacity: nat)
    requires HasCapacity(a, capacity) && used <= capacity && |h.live| == Min(capacity, used + k)
    ensures OutcomeByRoom(Expected(h, a), used, k, capacity)
  {
    var p := Answer(a, h);
    assert p != 0 <==> |h.live| < capacity;
    if p != 0 {
      assert Answer(a, With(h, p)) != 0 <==> |With(h, p).live| < capacity;
      assert p !in h.live && |With(h, p).live| == |h.live| + 1;
    }
  }

  /** In a heap of fixed capacity the room alone decides every iteration of a call: second
      blocks are allocated and freed while two blocks are left, one is refused when only one is
      left, and from then on nothing is allocated at all. */
  lemma CallByRoom(h: Heap, a: Allocator, capacity: nat) returns (os: seq<Outcome>)
    requires HasCapacity(a, capacity) && |h.live| <= capacity
    ensures |os| == 128 && Accounts(h, os, Store(h, a)) && Dictated(h, a, os)
    ensures forall k :: 0 <= k < 128 ==> OutcomeByRoom(os[k], |h.live|, k, capacity)
  {
    os := LeakConservation(h, a);
    forall k | 0 <= k < 128 ensures OutcomeByRoom(os[k], |h.live|, k, capacity) {
      DictatedIsLoop(h, a, os, k);
      assert DictatedAt(h, a, os, k);
      LoopFills(h, a, capacity, k);
      ExpectedByRoom(Loop(h, a, k), a, |h.live|, k, capacity);
    }
  }

  /** The three events of an iteration that keeps one block and frees another, at `i`. */
  predicate KeepAndFreeAt(log: seq<Event>, i: nat) {
    && i + 2 < |log| && log[i].Allocated? && log[i + 1].Allocated?
    && log[i + 2] == Freed(log[i + 1].p)
  }

  lemma {:induction false} LogOfKeptAndFreed(os: seq<Outcome>)
    requires forall k :: 0 <= k < |os| ==> os[k].KeptAndFreed?
    ensures |Log(os)| == 3 * |os|
    ensures forall k :: 0 <= k < |os| ==> KeepAndFreeAt(Log(os), 3 * k)
    decreases |os|
  {
    if os != [] {
      var before, last := os[..|os| - 1], os[|os| - 1];
      LogOfKeptAndFreed(before);
      assert Log(os) == Log(before) + Events(last);
      forall k | 0 <= k < |os| ensures KeepAndFreeAt(Log(os), 3 * k) {
        assert k < |before| ==> KeepAndFreeAt(Log(before), 3 * k);
      }
    }
  }

  lemma KeepAndFreeLater(before: seq<Event>, log: seq<Event>, i: nat)
    requires KeepAndFreeAt(log, i)
    ensures KeepAndFreeAt(before + log, |before| + i)
  {
  }

  lemma LaterLog(before: seq<Event>, os: seq<Outcome>)
    requires forall k :: 0 <= k < |os| ==> os[k].KeptAndFreed?
    ensures |Log(os)| == 3 * |os|
    ensures forall k :: 0 <= k < |os| ==> KeepAndFreeAt(before + Log(os), |before| + 3 * k)
  {
    LogOfKeptAndFreed(os);
    forall k | 0 <= k < |os| ensures KeepAndFreeAt(before + Log(os), |before| + 3 * k) {
      KeepAndFreeLater(before, Log(os), 3 * k);
    }
  }

  lemma AllKeptAndFreed(os: seq<Outcome>, used: nat, capacity: nat)
    requires used + |os| < capacity
    requires forall k :: 0 <= k < |os| ==> OutcomeByRoom(os[k], used, k, capacity)
    ensures forall k :: 0 <= k < |os| ==> os[k].KeptAndFreed?
  {
  }

  /** With more than 128 blocks to spare a call makes 256 allocations and 128 frees: no
      allocation fails, and every second block is freed right after it was allocated. */
  lemma RoomyCall(h: Heap, a: Allocator, capacity: nat)
    requires HasCapacity(a, capacity) && |h.live| + 128 < capacity
    ensures var log := Store(h, a).log;
            && |log| == |h.log| + 384 && log[..|h.log|] == h.log
            && forall k :: 0 <= k < 128 ==> KeepAndFreeAt(log, |h.log| + 3 * k)
  {
    var os := CallByRoom(h, a, capacity);
    AllKeptAndFreed(os, |h.live|, capacity);
    LaterLog(h.log, os);
  }

  ghost function FreshAddress(s: set<nat>): (p: nat)
    ensures p > 0 && forall x :: x in s ==> x < p
    decreases |s|
  {
    if s == {} then 1
    else
      var x :| x in s;
      var p := FreshAddress(s - {x});
      assert forall y :: y in s ==> y == x || y in s - {x};
      if p > x then p else x + 1
  }

  /** Such allocators exist for every capacity. */
  lemma CapacityIsPossible(capacity: nat) returns (a: Allocator)
    ensures HasCapacity(a, capacity)
  {
    a := (h: Heap) => if |h.live| < capacity then FreshAddress(h.live) else 0;
  }
}
