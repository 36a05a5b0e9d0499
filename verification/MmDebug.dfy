/** proc_mm_write of mm/mm_debug.c: every write is laid over a 16-byte buffer that keeps what
    earlier writes left, and the whole buffer is parsed again as a decimal number.

    copy_from_user stores a prefix of what it is asked to copy, and may fill the rest of the
    request with zeros when it cannot read it. kstrtoint is an arbitrary partial function of
    the text before the terminator. If the buffer holds no terminator it reads on behind the
    buffer, and what it makes of that is part of the request. */
module MmDebug {
  import opened Image
  import opened Wrappers

  const INFO_LEN: nat := 16
  const EFAULT: int := 14

  type Parser = seq<byte> -> Option<int>

  /** A write of `buffer`: how many of its bytes copy_from_user can copy, whether it zeroes the
      rest, and what kstrtoint would find if it ran over the end of the buffer. */
  datatype Request = Request(buffer: seq<byte>, copyable: nat, padded: bool, overrun: Option<int>)

  predicate Rejected(q: Request) {
    |q.buffer| > INFO_LEN
  }

  predicate Complete(q: Request) {
    !Rejected(q) && q.copyable >= |q.buffer|
  }

  /** What copy_from_user leaves at the start of the buffer. */
  function Stored(q: Request): (bytes: seq<byte>)
    ensures |bytes| <= INFO_LEN
  {
    if Rejected(q) then []
    else if Complete(q) then q.buffer
    else q.buffer[..q.copyable] + (if q.padded then Zeros(|q.buffer| - q.copyable) else [])
  }

  /** The retained buffer and mm_pid. */
  datatype Proc = Proc(info: seq<byte>, pid: int)

  predicate Valid(p: Proc) {
    |p.info| == INFO_LEN
  }

  /** After mmproc_init. */
  function Initial(): (p: Proc)
    ensures Valid(p)
  {
    Proc(Zeros(INFO_LEN), 0)
  }

  function Laid(info: seq<byte>, bytes: seq<byte>): seq<byte>
    requires |bytes| <= |info|
  {
    bytes + info[|bytes|..]
  }

  /** The text before the first NUL, or None if there is none. */
  function Text(info: seq<byte>): Option<seq<byte>> {
    if info == [] then None
    else if info[0] == 0 then Some([])
    else
      match Text(info[1..])
      case None => None
      case Some(rest) => Some([info[0]] + rest)
  }

  /** What kstrtoint finds in the buffer. */
  function Parsed(parse: Parser, info: seq<byte>, q: Request): Option<int> {
    match Text(info)
    case Some(text) => parse(text)
    case None => q.overrun
  }

  function ProcMmWrite(p: Proc, q: Request, parse: Parser): (result: (Proc, int))
    requires Valid(p)
    ensures Valid(result.0)
  {
    if Rejected(q) then (p, -EFAULT)
    else
      var info := Laid(p.info, Stored(q));
      if !Complete(q) then (p.(info := info), -EFAULT)
      else
        var pid := match Parsed(parse, info, q) case Some(v) => v case None => p.pid;
        (Proc(info, pid), |q.buffer|)
  }

  /** The state after a history of writes since the module was loaded. */
  function Replay(h: seq<Request>, parse: Parser): (p: Proc)
    ensures Valid(p)
  {
    if h == [] then Initial()
    else ProcMmWrite(Replay(h[..|h| - 1], parse), h[|h| - 1], parse).0
  }

  // ----- The buffer is determined by the whole history -----

  predicate Stores(q: Request, i: nat) {
    i < |Stored(q)|
  }

  /** Write `j` is the most recent one that stored byte `i`. */
  ghost predicate LastStore(h: seq<Request>, j: nat, i: nat) {
    j < |h| && Stores(h[j], i) && forall m :: j < m < |h| ==> !Stores(h[m], i)
  }

  ghost predicate NeverStored(h: seq<Request>, i: nat) {
    forall m :: 0 <= m < |h| ==> !Stores(h[m], i)
  }

  lemma WriteLays(p: Proc, q: Request, parse: Parser)
    requires Valid(p)
    ensures ProcMmWrite(p, q, parse).0.info == Laid(p.info, Stored(q))
  {
  }

  /** What a single write does to the buffer, byte by byte. A write of more than 16 bytes is
      refused and changes nothing. Of any other every byte that can be copied is stored, the
      rest of its length is zeroed or left alone, and every byte behind it keeps its value. */
  lemma WriteByByte(p: Proc, q: Request, parse: Parser, i: nat)
    requires Valid(p) && i < 16
    ensures var (p', ret) := ProcMmWrite(p, q, parse);
            && |p.info| == |p'.info| == 16
            && (|q.buffer| > 16 ==> p' == p && ret == -14)
            && (|q.buffer| <= 16 ==>
                  && ret == (if q.copyable >= |q.buffer| then |q.buffer| else -14)
                  && p'.info[i] == if i >= |q.buffer| then p.info[i]
                                   else if i < q.copyable then q.buffer[i]
                                   else if q.padded then 0 else p.info[i])
  {
    WriteLays(p, q, parse);
  }

  /** The bytes that a write stored are a prefix of its own, followed by zeros at most up to its
      length, and every byte behind the stored ones keeps its value; all of its bytes are stored
      when its length is reported, and mm_pid can change only then. */
  lemma WriteResult(p: Proc, q: Request, parse: Parser)
    requires Valid(p)
    ensures var (p', ret) := ProcMmWrite(p, q, parse);
            && (forall i :: 0 <= i < |Stored(q)| ==>
                  p'.info[i] == if i < q.copyable then q.buffer[i] else 0)
            && (forall i :: |Stored(q)| <= i < INFO_LEN ==> p'.info[i] == p.info[i])
            && |Stored(q)| <= |q.buffer|
            && (ret == |q.buffer| <==> Complete(q)) && (ret != |q.buffer| ==> ret == -EFAULT && p'.pid == p.pid)
            && (ret == |q.buffer| ==> q.buffer <= p'.info)
            && (Rejected(q) ==> p' == p)
  {
    WriteLays(p, q, parse);
  }

  /** Byte `i` of the buffer is byte `i` of the most recent write that stored it. */
  lemma {:induction false} OverlayHistory(h: seq<Request>, parse: Parser, j: nat, i: nat)
    requires LastStore(h, j, i)
    ensures Replay(h, parse).info[i] == Stored(h[j])[i]
    decreases |h|
  {
    var before, q := h[..|h| - 1], h[|h| - 1];
    WriteLays(Replay(before, parse), q, parse);
    if j < |before| {
      assert LastStore(before, j, i);
      OverlayHistory(before, parse, j, i);
    }
  }

  /** A byte that no write stored is still 0. */
  lemma {:induction false} UntouchedHistory(h: seq<Request>, parse: Parser, i: nat)
    requires NeverStored(h, i) && i < INFO_LEN
    ensures Replay(h, parse).info[i] == 0
    decreases |h|
  {
    if h != [] {
      var before := h[..|h| - 1];
      WriteLays(Replay(before, parse), h[|h| - 1], parse);
      UntouchedHistory(before, parse, i);
    }
  }

  lemma SomeLastStore(h: seq<Request>, i: nat) returns (j: nat)
    requires !NeverStored(h, i)
    ensures LastStore(h, j, i)
  {
    var k := |h|;
    while k > 0 && !Stores(h[k - 1], i)
      invariant 0 <= k <= |h| && forall m :: k <= m < |h| ==> !Stores(h[m], i)
    {
      k := k - 1;
    }
    j := k - 1;
  }

  // ----- mm_pid is determined by the whole history -----

  /** The number that write `j` left in the buffer: its text before the first NUL, parsed; what
      kstrtoint made of the bytes behind the buffer if there is no NUL. */
  function Found(h: seq<Request>, parse: Parser, j: nat): Option<int>
    requires j < |h|
  {
    match Text(Replay(h[..j + 1], parse).info)
    case Some(text) => parse(text)
    case None => h[j].overrun
  }

  /** mm_pid after a complete write: the parse of the text that is then in the buffer, or what an
      overrun found if that has no end; its old value if there is no number in it. */
  lemma PidIsParsed(p: Proc, q: Request, parse: Parser)
    requires Valid(p) && Complete(q)
    ensures var p' := ProcMmWrite(p, q, parse).0;
            match Text(p'.info)
            case Some(text) => p'.pid == (match parse(text) case Some(v) => v case None => p.pid)
            case None => p'.pid == (match q.overrun case Some(v) => v case None => p.pid)
  {
  }

  /** Write `j` was copied completely and the buffer it left parsed. */
  predicate SetsPid(h: seq<Request>, parse: Parser, j: nat) {
    j < |h| && Complete(h[j]) && Found(h, parse, j).Some?
  }

  ghost predicate LastSetsPid(h: seq<Request>, parse: Parser, j: nat) {
    SetsPid(h, parse, j) && forall m: nat :: j < m < |h| ==> !SetsPid(h, parse, m)
  }

  lemma FoundInPrefix(h: seq<Request>, parse: Parser, j: nat)
    requires j < |h| - 1
    ensures var before := h[..|h| - 1];
            Found(before, parse, j) == Found(h, parse, j) && SetsPid(before, parse, j) == SetsPid(h, parse, j)
  {
    assert h[..|h| - 1][..j + 1] == h[..j + 1];
  }

  lemma PidAfterWrite(h: seq<Request>, parse: Parser)
    requires h != []
    ensures var last: nat := |h| - 1;
            Replay(h, parse).pid ==
              if SetsPid(h, parse, last) then Found(h, parse, last).value else Replay(h[..last], parse).pid
  {
    assert h[..|h| - 1 + 1] == h;
    if Complete(h[|h| - 1]) {
      PidIsParsed(Replay(h[..|h| - 1], parse), h[|h| - 1], parse);
    }
  }

  /** mm_pid is what the most recent complete write whose buffer parsed left there: the parse of
      its text, or the result of the overrun. Writes that were rejected, cut short or did not
      parse leave it alone. */
  lemma PidHistory(h: seq<Request>, parse: Parser, j: nat)
    requires LastSetsPid(h, parse, j)
    ensures Some(Replay(h, parse).pid) ==
            match Text(Replay(h[..j + 1], parse).info)
            case Some(text) => parse(text)
            case None => h[j].overrun
  {
    LastFound(h, parse, j);
  }

  lemma {:induction false} LastFound(h: seq<Request>, parse: Parser, j: nat)
    requires LastSetsPid(h, parse, j)
    ensures Found(h, parse, j) == Some(Replay(h, parse).pid)
    decreases |h|
  {
    PidAfterWrite(h, parse);
    if j < |h| - 1 {
      var before := h[..|h| - 1];
      forall m: nat | j < m < |before| ensures !SetsPid(before, parse, m) {
        FoundInPrefix(h, parse, m);
      }
      FoundInPrefix(h, parse, j);
      LastFound(before, parse, j);
    }
  }

  /** And 0 if no write ever set it. */
  lemma {:induction false} PidNeverSet(h: seq<Request>, parse: Parser)
    requires forall m: nat :: m < |h| ==> !SetsPid(h, parse, m)
    ensures Replay(h, parse).pid == 0
    decreases |h|
  {
    if h != [] {
      PidAfterWrite(h, parse);
      var before := h[..|h| - 1];
      forall m: nat | m < |before| ensures !SetsPid(before, parse, m) {
        FoundInPrefix(h, parse, m);
      }
      PidNeverSet(before, parse);
    }
  }

  // ----- When the text that is parsed is the text that was written -----

  /** The written bytes as C text: up to the first NUL, or all of them. */
  function WrittenText(bytes: seq<byte>): seq<byte> {
    match Text(bytes)
    case Some(text) => text
    case None => bytes
  }

  /** The text is exactly what stands before the first NUL. */
  lemma {:induction false} TextExact(info: seq<byte>, t: seq<byte>)
    ensures Text(info) == Some(t) <==> |t| < |info| && info[..|t|] == t && info[|t|] == 0 && 0 !in t
    ensures Text(info).None? <==> 0 !in info
    decreases info
  {
    if info != [] {
      if t == [] {
        TextExact(info[1..], []);
      } else {
        TextExact(info[1..], t[1..]);
        assert t == [t[0]] + t[1..];
        assert |t| <= |info| ==> info[..|t|] == [info[0]] + info[1..][..|t| - 1];
      }
    }
  }

  /** The text of `bytes` followed by `rest`: a NUL in `bytes` ends it, otherwise the text runs
      on into `rest`. */
  lemma {:induction false} TextOfConcat(bytes: seq<byte>, rest: seq<byte>)
    ensures Text(bytes).Some? <==> 0 in bytes
    ensures Text(bytes).Some? ==> Text(bytes + rest) == Text(bytes)
    ensures Text(bytes).None? ==>
              Text(bytes + rest) == match Text(rest) case None => None case Some(t) => Some(bytes + t)
    decreases bytes
  {
    if bytes == [] {
      assert bytes + rest == rest;
      assert Text(rest).Some? ==> [] + Text(rest).value == Text(rest).value;
    } else {
      var whole := bytes + rest;
      assert whole[0] == bytes[0] && whole[1..] == bytes[1..] + rest;
      TextOfConcat(bytes[1..], rest);
      assert Text(rest).Some? ==> [bytes[0]] + (bytes[1..] + Text(rest).value) == bytes + Text(rest).value;
    }
  }

  /** A complete write is parsed as exactly the text that was written if and only if it brings
      its own terminator or the byte behind it is already 0. Otherwise what an earlier, longer
      write left behind is read as part of the number. */
  lemma ParsesWhatWasWritten(p: Proc, q: Request, parse: Parser)
    requires Valid(p) && Complete(q)
    ensures Text(ProcMmWrite(p, q, parse).0.info) == Some(WrittenText(q.buffer)) <==>
              0 in q.buffer || (|q.buffer| < INFO_LEN && p.info[|q.buffer|] == 0)
  {
    var rest := p.info[|q.buffer|..];
    TextOfConcat(q.buffer, rest);
    WriteLays(p, q, parse);
    if 0 !in q.buffer && Text(rest).Some? {
      var tail := Text(rest).value;
      assert Text(q.buffer + rest) == Some(q.buffer + tail);
      assert q.buffer + tail == q.buffer <==> |q.buffer + tail| == |q.buffer|;
      assert tail == [] <==> rest[0] == 0;
    }
  }

  /** The smallest surprise: "345" and then "12", without terminators, is parsed as "125". */
  lemma LeftoverIsParsed(parse: Parser)
    ensures var h := [Request([51, 52, 53], 3, false, None), Request([49, 50], 2, false, None)];
            Text(Replay(h, parse).info) == Some([49, 50, 53])
  {
    var q1, q2 := Request([51, 52, 53], 3, false, None), Request([49, 50], 2, false, None);
    var h := [q1, q2];
    assert h[..1] == [q1] && [q1][..0] == [];
    WriteLays(Initial(), q1, parse);
    WriteLays(Replay([q1], parse), q2, parse);
    var info := Replay(h, parse).info;
    assert Replay([q1], parse).info == [51, 52, 53] + Zeros(13);
    assert info == [49, 50, 53] + Zeros(13);
    TextOfConcat([49, 50, 53], Zeros(13));
    assert Text(Zeros(13)) == Some([]);
    assert [49, 50, 53] + [] == [49, 50, 53];
  }

  /** Byte `i` was last stored as something other than NUL. */
  ghost predicate LastStoredNonzero(h: seq<Request>, i: nat) {
    exists j: nat :: LastStore(h, j, i) && Stored(h[j])[i] != 0
  }

  lemma NonzeroByte(h: seq<Request>, parse: Parser, i: nat)
    requires i < INFO_LEN
    ensures Replay(h, parse).info[i] != 0 <==> LastStoredNonzero(h, i)
  {
    if NeverStored(h, i) {
      UntouchedHistory(h, parse, i);
    } else {
      var j := SomeLastStore(h, i);
      OverlayHistory(h, parse, j, i);
      if LastStoredNonzero(h, i) {
        var k: nat :| LastStore(h, k, i) && Stored(h[k])[i] != 0;
        OverlayHistory(h, parse, k, i);
      }
    }
  }

  /** kstrtoint stays inside the buffer unless every one of the 16 bytes was last stored as
      something other than NUL; in particular always if no write stores the last byte. */
  lemma OverrunExactly(h: seq<Request>, parse: Parser)
    ensures Text(Replay(h, parse).info).None? <==> forall i: nat :: i < INFO_LEN ==> LastStoredNonzero(h, i)
    ensures NeverStored(h, INFO_LEN - 1) ==> Text(Replay(h, parse).info).Some?
  {
    var info := Replay(h, parse).info;
    TextOfConcat(info, []);
    forall i: nat | i < INFO_LEN ensures info[i] != 0 <==> LastStoredNonzero(h, i) {
      NonzeroByte(h, parse, i);
    }
    if NeverStored(h, INFO_LEN - 1) {
      UntouchedHistory(h, parse, INFO_LEN - 1);
      assert 0 in info;
    }
  }
}
