/** simplefs/mkfs-simplefs.c in its own form: functions that move one descriptor's offset and
    overwrite the bytes of the image behind it. */
module MkfsProgram {
  import opened Image
  import opened Mkfs

  class Descriptor {
    var image: seq<byte>
    var offset: nat
    var calls: nat
    const plan: Plan

    function View(): File
      reads this
    {
      File(image, offset, calls)
    }

    /** open with O_RDWR: the offset is at the start and the bytes are those of the device. */
    constructor (image: seq<byte>, plan: Plan)
      ensures View() == File(image, 0, 0) && this.plan == plan
    {
      this.image, this.offset, this.calls, this.plan := image, 0, 0, plan;
    }

    method Write(data: seq<byte>) returns (ret: int)
      modifies this
      ensures (View(), ret) == SysWrite(old(View()), plan, data)
    {
      ret := plan(calls);
      calls := calls + 1;
      if ret < 0 {
        ret := -1;
      } else {
        if ret > |data| {
          ret := |data|;
        }
        image := Overlay(image, offset, data[..ret]);
        offset := offset + ret;
      }
    }

    method Lseek(delta: int) returns (ret: int)
      modifies this`offset, this`calls
      ensures (View(), ret) == SysSeek(old(View()), plan, delta)
    {
      var answer := plan(calls);
      calls := calls + 1;
      ret := -1;
      if answer >= 0 && offset + delta >= 0 {
        offset := offset + delta;
        ret := offset;
      }
    }

    method WriteSuperblock(src: Source) returns (err: int)
      modifies this
      ensures (View(), err) == DoStep(old(View()), plan, src, 0)
    {
      var ret := Write(src.superBlock);
      if ret != src.blockSize { return -1; }
      return 0;
    }

    method WriteInodeStore(src: Source) returns (err: int)
      modifies this
      ensures (View(), err) == DoStep(old(View()), plan, src, 1)
    {
      var ret := Write(src.rootInode);
      if ret != |src.rootInode| { return -1; }
      return 0;
    }

    method WriteInode(src: Source) returns (err: int)
      modifies this
      ensures (View(), err) == DoStep(old(View()), plan, src, 2)
    {
      var ret := Write(src.welcomeInode);
      if ret != |src.welcomeInode| { return -1; }
      ret := Lseek(src.blockSize - |src.welcomeInode| - |src.welcomeInode|);
      if ret == -1 { return -1; }
      return 0;
    }

    method WriteDirent(src: Source) returns (err: int)
      modifies this
      ensures (View(), err) == DoStep(old(View()), plan, src, 3)
    {
      var ret := Write(src.record);
      if ret != |src.record| { return -1; }
      ret := Lseek(src.blockSize - |src.record|);
      if ret == -1 { return -1; }
      return 0;
    }

    method WriteBlock(src: Source) returns (err: int)
      modifies this
      ensures (View(), err) == DoStep(old(View()), plan, src, 4)
    {
      var ret := Write(src.body);
      if ret != |src.body| { return -1; }
      return 0;
    }

    /** The do-break sequence of main on a freshly opened descriptor: the image becomes what
        Format says, so it holds the completed objects and a prefix of the next one, and 0 is
        returned exactly when all five are complete. */
    method MakeFilesystem(src: Source) returns (ret: int)
      requires offset == 0 && calls == 0
      modifies this
      ensures (image, ret) == Format(old(image), plan, src)
      ensures Sizes(src) ==> exists done: nat ::
                && done <= 5 && FirstRefused(plan, src, 0, done)
                && image == ImageAfter(old(image), plan, src, done)
                && ret == (if done == 5 then 0 else 1)
    {
      ghost var before := image;
      ret := 1;
      label once: {
        var err := WriteSuperblock(src);
        if err != 0 { break once; }
        err := WriteInodeStore(src);
        if err != 0 { break once; }
        err := WriteInode(src);
        if err != 0 { break once; }
        err := WriteDirent(src);
        if err != 0 { break once; }
        err := WriteBlock(src);
        if err != 0 { break once; }
        ret := 0;
      }
      if Sizes(src) {
        ghost var done := PartialFailure(before, plan, src);
      }
    }
  }

  /** main: the usage and open errors return -1 before anything is written, and the device is
      as it was. */
  method MkfsSimplefs(argc: int, opens: bool, device: seq<byte>, plan: Plan, src: Source)
    returns (after: seq<byte>, ret: int)
    ensures argc != 2 || !opens ==> after == device && ret == -1
    ensures argc == 2 && opens ==> (after, ret) == Format(device, plan, src)
  {
    if argc != 2 || !opens {
      return device, -1;
    }
    var fd := new Descriptor(device, plan);
    ret := fd.MakeFilesystem(src);
    after := fd.image;
  }
}
