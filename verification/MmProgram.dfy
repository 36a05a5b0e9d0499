/** mm/mm_debug.c in its own form: a 16-byte buffer that is overwritten in place and a global
    that the parser updates. */
module MmProgram {
  import opened Image
  import opened MmDebug
  import opened Wrappers

  class MmEntry {
    const info: array<byte>
    var mmPid: int
    const parse: Parser

    ghost predicate Valid()
      reads this
    {
      info.Length == INFO_LEN
    }

    function View(): Proc
      reads this, info
    {
      Proc(info[..], mmPid)
    }

    /** mmproc_init: a zeroed buffer. */
    constructor (parse: Parser)
      ensures Valid() && fresh(info) && View() == Initial() && this.parse == parse
    {
      info := new byte[INFO_LEN](_ => 0);
      mmPid, this.parse := 0, parse;
    }

    /** copy_from_user: stores the bytes that it gets and returns how many it could not copy. */
    method CopyFromUser(q: Request) returns (left: nat)
      requires Valid() && !Rejected(q)
      modifies info
      ensures info[..] == Laid(old(info[..]), Stored(q))
      ensures left == 0 <==> Complete(q)
    {
      var bytes := Stored(q);
      for i := 0 to |bytes|
        invariant forall k :: 0 <= k < i ==> info[k] == bytes[k]
        invariant forall k :: i <= k < info.Length ==> info[k] == old(info[k])
      {
        info[i] := bytes[i];
      }
      assert info[..] == Laid(old(info[..]), bytes);
      left := if q.copyable >= |q.buffer| then 0 else |q.buffer| - q.copyable;
    }

    method Write(q: Request) returns (ret: int)
      requires Valid()
      modifies this`mmPid, info
      ensures (View(), ret) == ProcMmWrite(old(View()), q, parse)
    {
      if |q.buffer| > INFO_LEN {
        return -EFAULT;
      }
      var left := CopyFromUser(q);
      if left != 0 {
        return -EFAULT;
      }
      match Parsed(parse, info[..], q) {
        case Some(value) => mmPid := value;
        case None =>
      }
      return |q.buffer|;
    }

    /** Any sequence of writes to a freshly loaded module. */
    method WriteAll(h: seq<Request>)
      requires Valid() && View() == Initial()
      modifies this`mmPid, info
      ensures View() == Replay(h, parse)
    {
      assert h[..0] == [];
      for k := 0 to |h|
        invariant View() == Replay(h[..k], parse)
      {
        assert h[..k + 1][..k] == h[..k];
        var ret := Write(h[k]);
      }
      assert h[..|h|] == h;
    }
  }
}
