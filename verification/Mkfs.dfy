/** simplefs/mkfs-simplefs.c: five writes and two relative seeks that lay out a file system.

    The block size and the sizes of the three on-disk structures are parameters. A structure is
    whatever bytes the C object has in memory, so nothing is assumed about padding or about
    members that the program leaves unassigned. */
module Mkfs {
  import opened Image
  import opened Painting

  const WELCOMEFILE_DATABLOCK_NUMBER: nat := 3
  const ROOTDIR_DATABLOCK_NUMBER: nat := 2

  /** The block size and the bytes of the five objects that mkfs writes. */
  datatype Source = Source(
    blockSize: nat, superBlock: seq<byte>, rootInode: seq<byte>, welcomeInode: seq<byte>,
    record: seq<byte>, body: seq<byte>)

  /** Both inodes are objects of one type, and the super block fills its block. */
  predicate Sizes(src: Source) {
    |src.superBlock| == src.blockSize && |src.rootInode| == |src.welcomeInode|
  }

  /** Two inodes fit in the inode store and the record fits in a block. */
  predicate Fits(src: Source) {
    Sizes(src) && 2 * |src.welcomeInode| <= src.blockSize && |src.record| <= src.blockSize
  }

  // ----- The program -----

  function WriteSuperblock(f: File, plan: Plan, src: Source): (File, int) {
    var (f1, ret) := SysWrite(f, plan, src.superBlock);
    (f1, if ret != src.blockSize then -1 else 0)
  }

  function WriteInodeStore(f: File, plan: Plan, src: Source): (File, int) {
    var (f1, ret) := SysWrite(f, plan, src.rootInode);
    (f1, if ret != |src.rootInode| then -1 else 0)
  }

  function WriteInode(f: File, plan: Plan, src: Source): (File, int) {
    var (f1, ret) := SysWrite(f, plan, src.welcomeInode);
    if ret != |src.welcomeInode| then (f1, -1)
    else
      var (f2, ret2) := SysSeek(f1, plan, src.blockSize - |src.welcomeInode| - |src.welcomeInode|);
      (f2, if ret2 == -1 then -1 else 0)
  }

  function WriteDirent(f: File, plan: Plan, src: Source): (File, int) {
    var (f1, ret) := SysWrite(f, plan, src.record);
    if ret != |src.record| then (f1, -1)
    else
      var (f2, ret2) := SysSeek(f1, plan, src.blockSize - |src.record|);
      (f2, if ret2 == -1 then -1 else 0)
  }

  function WriteBlock(f: File, plan: Plan, src: Source): (File, int) {
    var (f1, ret) := SysWrite(f, plan, src.body);
    (f1, if ret != |src.body| then -1 else 0)
  }

  /** The steps of the do-break sequence, in order. */
  function DoStep(f: File, plan: Plan, src: Source, k: nat): (File, int) {
    match k
    case 0 => WriteSuperblock(f, plan, src)
    case 1 => WriteInodeStore(f, plan, src)
    case 2 => WriteInode(f, plan, src)
    case 3 => WriteDirent(f, plan, src)
    case _ => WriteBlock(f, plan, src)
  }

  /** The sequence from step `k` on: stop at the first step that fails, and return 0 if none
      does, 1 otherwise. */
  function Steps(f: File, plan: Plan, src: Source, k: nat): (File, int)
    requires k <= 5
    decreases 5 - k
  {
    if k == 5 then (f, 0)
    else
      var (f1, err) := DoStep(f, plan, src, k);
      if err != 0 then (f1, 1) else Steps(f1, plan, src, k + 1)
  }

  function Format(image: seq<byte>, plan: Plan, src: Source): (seq<byte>, int) {
    var (f, ret) := Steps(File(image, 0, 0), plan, src, 0);
    (f.image, ret)
  }

  // ----- The layout that the metadata promises -----

  /** The five objects in the order in which they are written, each at the absolute place that
      the block numbers in the metadata give it. */
  function Objects(src: Source): (ps: seq<Placed>)
    ensures |ps| == 5
  {
    [ Placed(0, src.superBlock),
      Placed(src.blockSize, src.rootInode),
      Placed(src.blockSize + |src.rootInode|, src.welcomeInode),
      Placed(ROOTDIR_DATABLOCK_NUMBER * src.blockSize, src.record),
      Placed(WELCOMEFILE_DATABLOCK_NUMBER * src.blockSize, src.body) ]
  }

  // ----- The program agrees with the layout -----

  /** The system call that writes object `k`; the seeks are calls 3 and 5. */
  function WriteCall(k: nat): nat {
    match k
    case 0 => 0
    case 1 => 1
    case 2 => 2
    case 3 => 4
    case _ => 6
  }

  /** The kernel takes all of object `k`, and lets the padding after it be skipped. */
  predicate Granted(plan: Plan, src: Source, k: nat)
    requires k < 5
  {
    && plan(WriteCall(k)) >= |Objects(src)[k].data|
    && (k == 2 || k == 3 ==> plan(WriteCall(k) + 1) >= 0)
  }

  /** How much of object `k` the kernel takes. */
  function Taken(plan: Plan, src: Source, k: nat): nat
    requires k < 5
  {
    var answer, len := plan(WriteCall(k)), |Objects(src)[k].data|;
    if answer < 0 then 0 else if answer < len then answer else len
  }

  /** A step that starts where its object belongs stores what the kernel takes of the object
      there. It succeeds exactly when it is granted, and then leaves the offset where the next
      object belongs. */
  lemma StepPaints(f: File, plan: Plan, src: Source, k: nat)
    requires Sizes(src) && k < 5 && f.offset == Objects(src)[k].pos && f.calls == WriteCall(k)
    ensures var (f1, err) := DoStep(f, plan, src, k);
            && f1.image == Overlay(f.image, Objects(src)[k].pos, Objects(src)[k].data[..Taken(plan, src, k)])
            && (err == if Granted(plan, src, k) then 0 else -1)
            && (err == 0 && k < 4 ==> f1.offset == Objects(src)[k + 1].pos && f1.calls == WriteCall(k + 1))
  {
  }

  lemma {:induction false} StepsPaint(image: seq<byte>, f: File, plan: Plan, src: Source, k: nat) returns (done: nat)
    requires Sizes(src) && k <= 5
    requires f.image == Paint(image, Objects(src)[..k])
    requires k < 5 ==> f.offset == Objects(src)[k].pos && f.calls == WriteCall(k)
    ensures k <= done <= 5 && FirstRefused(plan, src, k, done)
    ensures Steps(f, plan, src, k).0.image == ImageAfter(image, plan, src, done)
    ensures Steps(f, plan, src, k).1 == (if done == 5 then 0 else 1)
    decreases 5 - k
  {
    var ps := Objects(src);
    if k == 5 {
      done := 5;
      assert ps[..5] == ps;
    } else {
      StepPaints(f, plan, src, k);
      var (f1, err) := DoStep(f, plan, src, k);
      if err != 0 {
        done := k;
      } else {
        assert ps[..k + 1][..k] == ps[..k] && ps[k].data[..Taken(plan, src, k)] == ps[k].data;
        done := StepsPaint(image, f1, plan, src, k + 1);
      }
    }
  }

  /** From step `from` on, `done` is the first that is not granted; 5 if all are. */
  predicate FirstRefused(plan: Plan, src: Source, from: nat, done: nat)
    requires from <= done <= 5
  {
    && (forall k :: from <= k < done ==> Granted(plan, src, k))
    && (done < 5 ==> !Granted(plan, src, done))
  }

  /** The old image with `done` complete objects in their absolute places and what the kernel
      takes of the next one. */
  function ImageAfter(image: seq<byte>, plan: Plan, src: Source, done: nat): seq<byte>
    requires done <= 5
  {
    Partial(image, Objects(src), done, if done < 5 then Taken(plan, src, done) else 0)
  }

  /** For every pattern of short writes and failed calls: the steps before the first refused
      one are complete, the image is the old one with their objects in their absolute places
      and a prefix of the refused object, and 0 is returned exactly when none is refused. */
  lemma PartialFailure(image: seq<byte>, plan: Plan, src: Source) returns (done: nat)
    requires Sizes(src)
    ensures done <= 5 && FirstRefused(plan, src, 0, done)
    ensures Format(image, plan, src) == (ImageAfter(image, plan, src, done), if done == 5 then 0 else 1)
  {
    assert Objects(src)[..0] == [];
    done := StepsPaint(image, File(image, 0, 0), plan, src, 0);
  }

  /** A successful run gives exactly the laid-out image. */
  lemma SuccessPaints(image: seq<byte>, plan: Plan, src: Source)
    requires Sizes(src) && Format(image, plan, src).1 == 0
    ensures Format(image, plan, src).0 == Paint(image, Objects(src))
  {
    var done := PartialFailure(image, plan, src);
  }

  /** mkfs can succeed at all exactly when the super block is at least a block long: its write
      is compared with the block size and not with its own length. */
  lemma CanSucceed(image: seq<byte>, src: Source)
    requires |src.rootInode| == |src.welcomeInode|
    ensures (exists plan: Plan :: Format(image, plan, src).1 == 0) <==> |src.superBlock| >= src.blockSize
  {
    if |src.superBlock| >= src.blockSize {
      var most := src.blockSize + |src.rootInode| + |src.record| + |src.body|;
      var plan: Plan := call => if call == 0 then src.blockSize else most;
      Unhindered(File(image, 0, 0), plan, src);
      assert Format(image, plan, src).1 == 0;
    }
  }

  /** A super block longer than a block is reported as a failure even when all of it is written:
      mkfs stops there unless the kernel cuts the write off at exactly the block size. */
  lemma LongSuperBlock(image: seq<byte>, plan: Plan, src: Source)
    requires |src.superBlock| > src.blockSize && plan(0) != src.blockSize
    ensures Format(image, plan, src) == (Overlay(image, 0, src.superBlock[..Taken(plan, src, 0)]), 1)
  {
    var (f1, err) := DoStep(File(image, 0, 0), plan, src, 0);
    assert err == -1;
  }

  /** With enough room in every call the five steps all succeed. */
  lemma Unhindered(f0: File, plan: Plan, src: Source)
    requires |src.rootInode| == |src.welcomeInode| && |src.superBlock| >= src.blockSize
    requires f0.offset == 0 && f0.calls == 0 && plan(0) == src.blockSize
    requires forall call: nat :: call > 0 ==> plan(call) >= |src.rootInode| + |src.record| + |src.body|
    ensures Steps(f0, plan, src, 0).1 == 0
  {
    var f1 := DoStep(f0, plan, src, 0).0;
    var f2 := DoStep(f1, plan, src, 1).0;
    var f3 := DoStep(f2, plan, src, 2).0;
    var f4 := DoStep(f3, plan, src, 3).0;
    assert Steps(f4, plan, src, 4).1 == 0;
    assert Steps(f3, plan, src, 3).1 == 0;
    assert Steps(f2, plan, src, 2).1 == 0;
    assert Steps(f1, plan, src, 1).1 == 0;
  }
}
