/** Bytes of a file and what write(2) and lseek(2) do to them. */
module Image {
  type byte = x: int | 0 <= x < 256

  function Max(a: nat, b: nat): nat {
    if a < b then b else a
  }

  function Zeros(n: nat): seq<byte> {
    seq(n, _ => 0)
  }

  /** Byte `i` of a file, zero beyond its end. */
  function ByteAt(image: seq<byte>, i: nat): byte {
    if i < |image| then image[i] else 0
  }

  /** `data` stored at `pos`. A gap behind the old end reads as zeros; storing nothing does not
      make a file longer. */
  function Overlay(image: seq<byte>, pos: nat, data: seq<byte>): seq<byte> {
    if data == [] then image
    else
      var base := if |image| < pos then image + Zeros(pos - |image|) else image;
      base[..pos] + data + (if pos + |data| < |base| then base[pos + |data|..] else [])
  }

  predicate Within(pos: nat, len: nat, i: nat) {
    pos <= i < pos + len
  }

  lemma OverlayAt(image: seq<byte>, pos: nat, data: seq<byte>, i: nat)
    ensures ByteAt(Overlay(image, pos, data), i) ==
            if Within(pos, |data|, i) then data[i - pos] else ByteAt(image, i)
    ensures |Overlay(image, pos, data)| == if data == [] then |image| else Max(|image|, pos + |data|)
  {
  }

  /** Two files are equal when they have the same length and the same bytes. */
  lemma SameBytes(a: seq<byte>, b: seq<byte>)
    requires |a| == |b| && forall i: nat :: ByteAt(a, i) == ByteAt(b, i)
    ensures a == b
  {
    forall i | 0 <= i < |a| ensures a[i] == b[i] {
      assert ByteAt(a, i) == ByteAt(b, i);
    }
  }

  /** An open file: its bytes, the descriptor's offset, and how many system calls were made. */
  datatype File = File(image: seq<byte>, offset: nat, calls: nat)

  /** What the kernel answers to each system call: a negative number means failure, any other
      one the most bytes that a write transfers. Every pattern of failures and short writes is
      some plan. */
  type Plan = nat -> int

  function SysWrite(f: File, plan: Plan, data: seq<byte>): (File, int) {
    var answer := plan(f.calls);
    if answer < 0 then (f.(calls := f.calls + 1), -1)
    else
      var n := if answer < |data| then answer else |data|;
      (File(Overlay(f.image, f.offset, data[..n]), f.offset + n, f.calls + 1), n)
  }

  /** lseek with SEEK_CUR. */
  function SysSeek(f: File, plan: Plan, delta: int): (File, int) {
    if plan(f.calls) < 0 || f.offset + delta < 0 then (f.(calls := f.calls + 1), -1)
    else (File(f.image, f.offset + delta, f.calls + 1), f.offset + delta)
  }
}
