/** A list of objects stored one after the other at absolute places, byte by byte: which object
    a byte comes from, what is left alone, and what painting over an earlier attempt gives. */
module Painting {
  import opened Image

  /** `data` belongs at `pos`. */
  datatype Placed = Placed(pos: nat, data: seq<byte>) {
    predicate Covers(i: nat) {
      Within(pos, |data|, i)
    }

    function Byte(i: nat): byte
      requires Covers(i)
    {
      data[i - pos]
    }
  }

  /** The image with all objects in their places, later ones over earlier ones. */
  function Paint(image: seq<byte>, ps: seq<Placed>): seq<byte>
    decreases |ps|
  {
    if ps == [] then image
    else
      var last := ps[|ps| - 1];
      Overlay(Paint(image, ps[..|ps| - 1]), last.pos, last.data)
  }

  /** The image after some complete objects and the first `n` bytes of the next one. */
  function Partial(image: seq<byte>, ps: seq<Placed>, done: nat, n: nat): seq<byte>
    requires done <= |ps| && (done < |ps| ==> n <= |ps[done].data|)
  {
    if done == |ps| then Paint(image, ps)
    else Overlay(Paint(image, ps[..done]), ps[done].pos, ps[done].data[..n])
  }

  /** Object `k` covers byte `i` and no later object does. */
  ghost predicate LastToCover(ps: seq<Placed>, k: nat, i: nat) {
    k < |ps| && ps[k].Covers(i) && forall m :: k < m < |ps| ==> !ps[m].Covers(i)
  }

  ghost predicate Uncovered(ps: seq<Placed>, i: nat) {
    forall k :: 0 <= k < |ps| ==> !ps[k].Covers(i)
  }

  /** Where the objects end. */
  function End(ps: seq<Placed>): nat
    decreases |ps|
  {
    if ps == [] then 0
    else
      var last, front := ps[|ps| - 1], ps[..|ps| - 1];
      if last.data == [] then End(front) else Max(End(front), last.pos + |last.data|)
  }

  lemma PaintLast(image: seq<byte>, ps: seq<Placed>, i: nat)
    requires ps != []
    ensures var last, before := ps[|ps| - 1], Paint(image, ps[..|ps| - 1]);
            && (last.Covers(i) ==> ByteAt(Paint(image, ps), i) == last.Byte(i))
            && (!last.Covers(i) ==> ByteAt(Paint(image, ps), i) == ByteAt(before, i))
            && |Paint(image, ps)| == if last.data == [] then |before| else Max(|before|, last.pos + |last.data|)
  {
    var last := ps[|ps| - 1];
    OverlayAt(Paint(image, ps[..|ps| - 1]), last.pos, last.data, i);
  }

  lemma {:induction false} PaintLength(image: seq<byte>, ps: seq<Placed>)
    ensures |Paint(image, ps)| == Max(|image|, End(ps))
    decreases |ps|
  {
    if ps != [] {
      PaintLength(image, ps[..|ps| - 1]);
      PaintLast(image, ps, 0);
    }
  }

  /** A byte that no object covers keeps its value. */
  lemma {:induction false} PaintOutside(image: seq<byte>, ps: seq<Placed>, i: nat)
    requires Uncovered(ps, i)
    ensures ByteAt(Paint(image, ps), i) == ByteAt(image, i)
    decreases |ps|
  {
    if ps != [] {
      PaintOutside(image, ps[..|ps| - 1], i);
      PaintLast(image, ps, i);
    }
  }

  /** A covered byte comes from the last object that covers it. */
  lemma {:induction false} PaintInside(image: seq<byte>, ps: seq<Placed>, k: nat, i: nat)
    requires LastToCover(ps, k, i)
    ensures ByteAt(Paint(image, ps), i) == ps[k].Byte(i)
    decreases |ps|
  {
    PaintLast(image, ps, i);
    if k < |ps| - 1 {
      PaintInside(image, ps[..|ps| - 1], k, i);
    }
  }

  lemma {:induction false} SomeLastCover(ps: seq<Placed>, i: nat) returns (k: nat)
    requires !Uncovered(ps, i)
    ensures LastToCover(ps, k, i)
    decreases |ps|
  {
    if ps[|ps| - 1].Covers(i) {
      k := |ps| - 1;
    } else {
      k := SomeLastCover(ps[..|ps| - 1], i);
    }
  }

  lemma {:induction false} EndReaches(ps: seq<Placed>, k: nat)
    requires k < |ps| && ps[k].data != []
    ensures ps[k].pos + |ps[k].data| <= End(ps)
    decreases |ps|
  {
    if k < |ps| - 1 {
      EndReaches(ps[..|ps| - 1], k);
    }
  }

  lemma {:induction false} EndGrows(ps: seq<Placed>, done: nat)
    requires done <= |ps|
    ensures End(ps[..done]) <= End(ps)
    decreases |ps|
  {
    if done < |ps| {
      assert ps[..|ps| - 1][..done] == ps[..done];
      EndGrows(ps[..|ps| - 1], done);
    } else {
      assert ps[..done] == ps;
    }
  }

  /** An object that no later one overlaps can be read back from its place. */
  lemma ReadBack(image: seq<byte>, ps: seq<Placed>, k: nat)
    requires k < |ps| && ps[k].data != []
    requires forall m, i: nat :: k < m < |ps| && ps[k].Covers(i) ==> !ps[m].Covers(i)
    ensures ps[k].pos + |ps[k].data| <= |Paint(image, ps)|
    ensures Paint(image, ps)[ps[k].pos..ps[k].pos + |ps[k].data|] == ps[k].data
  {
    PaintLength(image, ps);
    EndReaches(ps, k);
    var painted, p := Paint(image, ps), ps[k];
    forall j | 0 <= j < |p.data| ensures painted[p.pos + j] == p.data[j] {
      assert p.Covers(p.pos + j);
      assert LastToCover(ps, k, p.pos + j);
      PaintInside(image, ps, k, p.pos + j);
      assert p.Byte(p.pos + j) == p.data[j] && ByteAt(painted, p.pos + j) == painted[p.pos + j];
    }
  }

  /** A partial attempt changes only bytes that a complete one writes, and makes the image no
      longer than a complete one does. */
  lemma PartialStaysInside(image: seq<byte>, ps: seq<Placed>, done: nat, n: nat)
    requires done <= |ps| && (done < |ps| ==> n <= |ps[done].data|)
    ensures forall i: nat :: Uncovered(ps, i) ==> ByteAt(Partial(image, ps, done, n), i) == ByteAt(image, i)
    ensures |image| <= |Partial(image, ps, done, n)| <= Max(|image|, End(ps))
  {
    forall i: nat | Uncovered(ps, i) ensures ByteAt(Partial(image, ps, done, n), i) == ByteAt(image, i) {
      PaintOutside(image, ps[..done], i);
      assert ps[..|ps|] == ps;
      if done < |ps| {
        assert !ps[done].Covers(i);
        OverlayAt(Paint(image, ps[..done]), ps[done].pos, ps[done].data[..n], i);
      }
    }
    PartialLength(image, ps, done, n);
  }

  lemma PartialLength(image: seq<byte>, ps: seq<Placed>, done: nat, n: nat)
    requires done <= |ps| && (done < |ps| ==> n <= |ps[done].data|)
    ensures |image| <= |Partial(image, ps, done, n)| <= Max(|image|, End(ps))
  {
    PaintLength(image, ps[..done]);
    EndGrows(ps, done);
    if done == |ps| {
      PaintLength(image, ps);
    } else {
      OverlayAt(Paint(image, ps[..done]), ps[done].pos, ps[done].data[..n], 0);
      if n > 0 {
        EndReaches(ps, done);
      }
    }
  }

  predicate SameShape(ps: seq<Placed>, qs: seq<Placed>) {
    |ps| == |qs| && forall k :: 0 <= k < |ps| ==> ps[k].pos == qs[k].pos && |ps[k].data| == |qs[k].data|
  }

  lemma {:induction false} SameShapeSameEnd(ps: seq<Placed>, qs: seq<Placed>)
    requires SameShape(ps, qs)
    ensures End(ps) == End(qs)
    decreases |ps|
  {
    if ps != [] {
      SameShapeSameEnd(ps[..|ps| - 1], qs[..|qs| - 1]);
    }
  }

  /** Two images that agree outside the objects and on their length, as far as it reaches past
      them, are equal once painted. */
  lemma PaintForgets(a: seq<byte>, b: seq<byte>, ps: seq<Placed>)
    requires forall i: nat :: Uncovered(ps, i) ==> ByteAt(a, i) == ByteAt(b, i)
    requires Max(|a|, End(ps)) == Max(|b|, End(ps))
    ensures Paint(a, ps) == Paint(b, ps)
  {
    PaintLength(a, ps);
    PaintLength(b, ps);
    forall i: nat ensures ByteAt(Paint(a, ps), i) == ByteAt(Paint(b, ps), i) {
      if Uncovered(ps, i) {
        PaintOutside(a, ps, i);
        PaintOutside(b, ps, i);
      } else {
        var k := SomeLastCover(ps, i);
        PaintInside(a, ps, k, i);
        PaintInside(b, ps, k, i);
      }
    }
    SameBytes(Paint(a, ps), Paint(b, ps));
  }

  /** Painting over a partial attempt at objects of the same shape gives what painting the
      untouched image gives. */
  lemma PaintOverPartial(image: seq<byte>, ps: seq<Placed>, done: nat, n: nat, qs: seq<Placed>)
    requires done <= |ps| && (done < |ps| ==> n <= |ps[done].data|)
    requires SameShape(ps, qs)
    ensures Paint(Partial(image, ps, done, n), qs) == Paint(image, qs)
  {
    PartialStaysInside(image, ps, done, n);
    SameShapeSameEnd(ps, qs);
    forall i: nat | Uncovered(qs, i) ensures ByteAt(Partial(image, ps, done, n), i) == ByteAt(image, i) {
      forall k | 0 <= k < |ps| ensures !ps[k].Covers(i) {
        assert !qs[k].Covers(i);
      }
    }
    PaintForgets(Partial(image, ps, done, n), image, qs);
  }
}
