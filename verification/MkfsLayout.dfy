/** What an image holds after mkfs: what stays untouched, what a repeated run gives, and that a
    reader who follows the numbers stored in the image finds the file. */
module MkfsLayout {
  import opened Image
  import opened Painting
  import opened Mkfs
  import opened Wrappers

  // ----- Frame -----

  ghost predicate Disjoint(ps: seq<Placed>) {
    forall k, m, i: nat :: 0 <= k < m < |ps| && ps[k].Covers(i) ==> !ps[m].Covers(i)
  }

  lemma FitsIsDisjoint(src: Source)
    requires Fits(src)
    ensures Disjoint(Objects(src))
  {
  }

  /** The objects keep out of each other's way exactly when two inodes fit in the inode store
      and the record fits in its block. The length of the body does not matter: it comes last. */
  lemma DisjointExactlyWhenFits(src: Source)
    requires Sizes(src) && src.welcomeInode != [] && src.record != [] && src.body != []
    ensures Disjoint(Objects(src)) <==> Fits(src)
  {
    var ps := Objects(src);
    if Fits(src) {
      FitsIsDisjoint(src);
    } else if 2 * |src.welcomeInode| > src.blockSize {
      var first := if |src.welcomeInode| <= src.blockSize then 2 else 1;
      assert ps[first].Covers(2 * src.blockSize) && ps[3].Covers(2 * src.blockSize);
    } else {
      assert ps[3].Covers(3 * src.blockSize) && ps[4].Covers(3 * src.blockSize);
    }
  }

  /** Byte `i` belongs to one of the completed objects or to the written part of the next. */
  ghost predicate Touched(ps: seq<Placed>, done: nat, n: nat, i: nat) {
    || (exists k :: 0 <= k < done && k < |ps| && ps[k].Covers(i))
    || (done < |ps| && Within(ps[done].pos, n, i))
  }

  /** Whatever the kernel answers, a byte outside the completed objects and the written prefix
      of the next one keeps its value, because padding is skipped and not written; and when the
      sizes fit, no byte that belongs to a later object is touched. */
  lemma Frame(image: seq<byte>, plan: Plan, src: Source, i: nat) returns (done: nat, n: nat)
    requires Sizes(src)
    ensures done <= 5 && FirstRefused(plan, src, 0, done) && (done < 5 ==> n == Taken(plan, src, done))
    ensures !Touched(Objects(src), done, n, i) ==> ByteAt(Format(image, plan, src).0, i) == ByteAt(image, i)
    ensures Fits(src) ==> forall k :: done < k < 5 && Objects(src)[k].Covers(i) ==> !Touched(Objects(src), done, n, i)
  {
    var ps := Objects(src);
    done := PartialFailure(image, plan, src);
    n := if done < 5 then Taken(plan, src, done) else 0;
    if !Touched(ps, done, n, i) {
      assert ps[..5] == ps;
      PaintOutside(image, ps[..done], i);
      if done < 5 {
        OverlayAt(Paint(image, ps[..done]), ps[done].pos, ps[done].data[..n], i);
      }
    }
    if Fits(src) {
      FitsIsDisjoint(src);
      assert done < 5 && Within(ps[done].pos, n, i) ==> ps[done].Covers(i);
    }
  }

  /** "Retry your mkfs": after any earlier run, however it ended, a run that succeeds gives the
      very image that a successful run on the untouched image gives. The two runs may write
      different bytes, for instance in members of the root inode that are never assigned. */
  lemma RetryRecovers(image: seq<byte>, plan1: Plan, src1: Source, plan2: Plan, plan3: Plan, src2: Source)
    requires Sizes(src1) && Sizes(src2) && SameShape(Objects(src1), Objects(src2))
    ensures var left := Format(image, plan1, src1).0;
            Format(left, plan2, src2).1 == 0 && Format(image, plan3, src2).1 == 0 ==>
              Format(left, plan2, src2).0 == Format(image, plan3, src2).0
  {
    var left := Format(image, plan1, src1).0;
    if Format(left, plan2, src2).1 == 0 && Format(image, plan3, src2).1 == 0 {
      var done := PartialFailure(image, plan1, src1);
      SuccessPaints(left, plan2, src2);
      SuccessPaints(image, plan3, src2);
      PaintOverPartial(image, Objects(src1), done, if done < 5 then Taken(plan1, src1, done) else 0, Objects(src2));
    }
  }

  // ----- Reading the image back -----

  /** `len` bytes from `pos` on; None if the image ends before. */
  function ReadAt(image: seq<byte>, pos: nat, len: nat): Option<seq<byte>> {
    if len == 0 then Some([])
    else if pos + len <= |image| then Some(image[pos..pos + len])
    else None
  }

  /** `bytes` are those of the image from `pos` on. */
  ghost predicate BytesFrom(image: seq<byte>, pos: nat, bytes: seq<byte>) {
    forall i :: 0 <= i < |bytes| ==> pos + i < |image| && bytes[i] == image[pos + i]
  }

  /** A read gives exactly the bytes that are there, and all of them or nothing. */
  lemma ReadAtExact(image: seq<byte>, pos: nat, len: nat, bytes: seq<byte>)
    ensures ReadAt(image, pos, len) == Some(bytes) <==> |bytes| == len && BytesFrom(image, pos, bytes)
  {
    if |bytes| == len && BytesFrom(image, pos, bytes) {
      if len > 0 {
        assert bytes[len - 1] in bytes && pos + (len - 1) < |image|;
        assert image[pos..pos + len] == bytes;
      }
    }
  }

  lemma InPlace(image: seq<byte>, ps: seq<Placed>, k: nat)
    requires Disjoint(ps) && k < |ps|
    ensures ReadAt(Paint(image, ps), ps[k].pos, |ps[k].data|) == Some(ps[k].data)
  {
    if ps[k].data != [] {
      ReadBack(image, ps, k);
    }
  }

  /** After a successful run every object can be read back from its absolute place: the super
      block at 0, the inodes at the start of block 1, the record at block 2, the body at block
      3, although the program only writes on and seeks relatively. */
  lemma LayoutAgreement(image: seq<byte>, plan: Plan, src: Source, k: nat)
    requires Fits(src) && k < 5 && Format(image, plan, src).1 == 0
    ensures var p := Objects(src)[k];
            ReadAt(Format(image, plan, src).0, p.pos, |p.data|) == Some(p.data)
  {
    SuccessPaints(image, plan, src);
    FitsIsDisjoint(src);
    InPlace(image, Objects(src), k);
  }

  datatype Mode = Directory | Regular

  /** `size` is file_size for a file and dir_children_count for a directory. */
  datatype Inode = Inode(mode: Mode, number: nat, dataBlock: nat, size: nat)

  datatype DirRecord = DirRecord(name: string, number: nat)

  /** How a reader takes structures out of bytes: the block size, the structure sizes and two
      decoders. The decoders are arbitrary, so the results hold for every encoding. */
  datatype Reader = Reader(
    blockSize: nat, inodeSize: nat, recordSize: nat, rootNumber: nat,
    inode: seq<byte> -> Inode, record: seq<byte> -> DirRecord)

  function Inodes(r: Reader, image: seq<byte>): nat -> Option<Inode> {
    (slot: nat) =>
      match ReadAt(image, r.blockSize + slot * r.inodeSize, r.inodeSize)
      case None => None
      case Some(bytes) => Some(r.inode(bytes))
  }

  function Records(r: Reader, image: seq<byte>, block: nat): nat -> Option<DirRecord> {
    (slot: nat) =>
      match ReadAt(image, block * r.blockSize + slot * r.recordSize, r.recordSize)
      case None => None
      case Some(bytes) => Some(r.record(bytes))
  }

  function Numbered(number: nat): Inode -> bool {
    (inode: Inode) => inode.number == number
  }

  function Named(name: string): DirRecord -> bool {
    (rec: DirRecord) => rec.name == name
  }

  /** Reads one slot after the other until one holds what is wanted; None if there is none before
      the last slot or the end of the image. */
  function Search<T>(read: nat -> Option<T>, wanted: T -> bool, slot: nat, slots: nat): Option<T>
    decreases slots - slot
  {
    if slot >= slots then None
    else
      match read(slot)
      case None => None
      case Some(x) => if wanted(x) then Some(x) else Search(read, wanted, slot + 1, slots)
  }

  /** The first inode in the inode store that has the given number. */
  function FindInode(r: Reader, image: seq<byte>, number: nat): Option<Inode>
    requires r.inodeSize > 0
  {
    Search(Inodes(r, image), Numbered(number), 0, r.blockSize / r.inodeSize)
  }

  /** The first record in a directory's data block that has the given name. */
  function FindRecord(r: Reader, image: seq<byte>, block: nat, name: string): Option<DirRecord>
    requires r.recordSize > 0
  {
    Search(Records(r, image, block), Named(name), 0, r.blockSize / r.recordSize)
  }

  /** What the inode says its file holds. */
  function FileOf(r: Reader, image: seq<byte>, inode: Inode): Option<seq<byte>> {
    ReadAt(image, inode.dataBlock * r.blockSize, inode.size)
  }

  /** The contents of the file `name` in the root directory: root inode, its data block, the
      record there, the inode it names, that inode's data block. */
  function Lookup(r: Reader, image: seq<byte>, name: string): Option<seq<byte>>
    requires r.inodeSize > 0 && r.recordSize > 0
  {
    match FindInode(r, image, r.rootNumber)
    case None => None
    case Some(root) =>
      match FindRecord(r, image, root.dataBlock, name)
      case None => None
      case Some(rec) =>
        match FindInode(r, image, rec.number)
        case None => None
        case Some(inode) =>
          if inode.mode == Regular then FileOf(r, image, inode) else None
  }

  /** Slot `k` holds what is wanted, and every slot from `slot` to there something else. */
  ghost predicate FirstMatch<T>(read: nat -> Option<T>, wanted: T -> bool, slot: nat, slots: nat, k: nat) {
    && slot <= k < slots && read(k).Some? && wanted(read(k).value)
    && forall m :: slot <= m < k ==> read(m).Some? && !wanted(read(m).value)
  }

  lemma {:induction false} SearchExact<T>(read: nat -> Option<T>, wanted: T -> bool, slot: nat, slots: nat, x: T)
    ensures Search(read, wanted, slot, slots) == Some(x) <==>
              exists k :: FirstMatch(read, wanted, slot, slots, k) && read(k) == Some(x)
    decreases slots - slot
  {
    if slot < slots && read(slot).Some? {
      if wanted(read(slot).value) {
        assert FirstMatch(read, wanted, slot, slots, slot);
      } else {
        SearchExact(read, wanted, slot + 1, slots, x);
        forall k: nat
          ensures FirstMatch(read, wanted, slot, slots, k) <==> FirstMatch(read, wanted, slot + 1, slots, k)
        {
        }
      }
    }
  }

  /** Hence the slot is unique. */
  lemma SearchFinds<T>(read: nat -> Option<T>, wanted: T -> bool, slots: nat, k: nat)
    requires FirstMatch(read, wanted, 0, slots, k)
    ensures Search(read, wanted, 0, slots) == read(k)
  {
    SearchExact(read, wanted, 0, slots, read(k).value);
  }

  lemma FoundSlot<T>(read: nat -> Option<T>, wanted: T -> bool, slots: nat) returns (k: nat)
    requires Search(read, wanted, 0, slots).Some?
    ensures FirstMatch(read, wanted, 0, slots, k) && Search(read, wanted, 0, slots) == read(k)
  {
    var x := Search(read, wanted, 0, slots).value;
    SearchExact(read, wanted, 0, slots, x);
    k :| FirstMatch(read, wanted, 0, slots, k) && read(k) == Some(x);
  }

  /** Slot `i` of the inode store is the first that holds an inode with the given number. */
  ghost predicate FirstInode(r: Reader, image: seq<byte>, number: nat, i: nat)
    requires r.inodeSize > 0
  {
    var inodes := Inodes(r, image);
    && i < r.blockSize / r.inodeSize && inodes(i).Some? && inodes(i).value.number == number
    && forall m: nat :: m < i ==> inodes(m).Some? && inodes(m).value.number != number
  }

  /** Slot `j` of the data block is the first that holds a record with the given name. */
  ghost predicate FirstRecord(r: Reader, image: seq<byte>, block: nat, name: string, j: nat)
    requires r.recordSize > 0
  {
    var records := Records(r, image, block);
    && j < r.blockSize / r.recordSize && records(j).Some? && records(j).value.name == name
    && forall m: nat :: m < j ==> records(m).Some? && records(m).value.name != name
  }

  /** The stored numbers lead from slot `i` of the inode store, the root, through slot `j` of its
      directory block to slot `k` of the inode store, a file. */
  ghost predicate Leads(r: Reader, image: seq<byte>, name: string, i: nat, j: nat, k: nat)
    requires r.inodeSize > 0 && r.recordSize > 0
  {
    && FirstInode(r, image, r.rootNumber, i)
    && var root := Inodes(r, image)(i).value;
    && FirstRecord(r, image, root.dataBlock, name, j)
    && var rec := Records(r, image, root.dataBlock)(j).value;
    && FirstInode(r, image, rec.number, k)
    && Inodes(r, image)(k).value.mode == Regular
  }

  lemma LeadsToFile(r: Reader, image: seq<byte>, name: string, i: nat, j: nat, k: nat)
    requires r.inodeSize > 0 && r.recordSize > 0 && Leads(r, image, name, i, j, k)
    ensures Lookup(r, image, name) == FileOf(r, image, Inodes(r, image)(k).value)
  {
    var inodes, slots := Inodes(r, image), r.blockSize / r.inodeSize;
    var records := Records(r, image, inodes(i).value.dataBlock);
    SearchFinds(inodes, Numbered(r.rootNumber), slots, i);
    SearchFinds(records, Named(name), r.blockSize / r.recordSize, j);
    SearchFinds(inodes, Numbered(records(j).value.number), slots, k);
  }

  lemma LookupLeads(r: Reader, image: seq<byte>, name: string) returns (i: nat, j: nat, k: nat)
    requires r.inodeSize > 0 && r.recordSize > 0 && Lookup(r, image, name).Some?
    ensures Leads(r, image, name, i, j, k)
  {
    var inodes, slots := Inodes(r, image), r.blockSize / r.inodeSize;
    i := FoundSlot(inodes, Numbered(r.rootNumber), slots);
    var records := Records(r, image, inodes(i).value.dataBlock);
    j := FoundSlot(records, Named(name), r.blockSize / r.recordSize);
    k := FoundSlot(inodes, Numbered(records(j).value.number), slots);
  }

  /** A lookup yields a body exactly when the numbers stored in the image lead to it. */
  lemma LookupExact(r: Reader, image: seq<byte>, name: string, body: seq<byte>)
    requires r.inodeSize > 0 && r.recordSize > 0
    ensures Lookup(r, image, name) == Some(body) <==>
              exists i, j, k ::
                Leads(r, image, name, i, j, k) && FileOf(r, image, Inodes(r, image)(k).value) == Some(body)
  {
    if Lookup(r, image, name).Some? {
      var i, j, k := LookupLeads(r, image, name);
      LeadsToFile(r, image, name, i, j, k);
    }
    forall i, j, k | Leads(r, image, name, i, j, k)
      ensures Lookup(r, image, name) == FileOf(r, image, Inodes(r, image)(k).value)
    {
      LeadsToFile(r, image, name, i, j, k);
    }
  }

  /** The reader and the source agree on the sizes. */
  predicate SameSizes(r: Reader, src: Source) {
    r.blockSize == src.blockSize && r.inodeSize == |src.rootInode| > 0 && r.recordSize == |src.record| > 0
  }

  /** The objects say what main and write_inode_store put into them: a root directory in block
      2, and one regular file in block 3 with the size of the body, under a number of its own
      that the record repeats. */
  predicate Describes(r: Reader, src: Source, name: string) {
    var root, welcome, rec := r.inode(src.rootInode), r.inode(src.welcomeInode), r.record(src.record);
    && root.number == r.rootNumber && root.dataBlock == ROOTDIR_DATABLOCK_NUMBER
    && rec.name == name && rec.number == welcome.number != r.rootNumber
    && welcome.mode == Regular && welcome.size == |src.body|
    && welcome.dataBlock == WELCOMEFILE_DATABLOCK_NUMBER
  }

  /** The two inodes are found under their numbers. */
  lemma InodesAreFound(r: Reader, image: seq<byte>, src: Source, name: string)
    requires Fits(src) && SameSizes(r, src) && Describes(r, src, name)
    requires ReadAt(image, src.blockSize, r.inodeSize) == Some(src.rootInode)
    requires ReadAt(image, src.blockSize + r.inodeSize, r.inodeSize) == Some(src.welcomeInode)
    ensures FindInode(r, image, r.rootNumber) == Some(r.inode(src.rootInode))
    ensures FindInode(r, image, r.inode(src.welcomeInode).number) == Some(r.inode(src.welcomeInode))
  {
    var read, wanted := Inodes(r, image), Numbered(r.inode(src.welcomeInode).number);
    var slots := r.blockSize / r.inodeSize;
    SlotsWithin(r.blockSize, r.inodeSize);
    assert read(0) == Some(r.inode(src.rootInode)) by {
      assert 0 * r.inodeSize == 0;
    }
    assert read(1) == Some(r.inode(src.welcomeInode)) by {
      assert 1 * r.inodeSize == r.inodeSize;
    }
    assert Search(read, wanted, 1, slots) == Some(r.inode(src.welcomeInode));
  }

  /** A structure that fits in a block has a slot there, and two if two fit. */
  lemma SlotsWithin(blockSize: nat, size: nat)
    requires 0 < size <= blockSize
    ensures blockSize / size >= if 2 * size <= blockSize then 2 else 1
  {
    var slots := blockSize / size;
    assert blockSize < slots * size + size;
    assert slots == 0 ==> slots * size == 0;
    assert slots == 1 ==> slots * size == size;
  }

  lemma RecordIsFound(r: Reader, image: seq<byte>, src: Source, name: string)
    requires Fits(src) && SameSizes(r, src) && Describes(r, src, name)
    requires ReadAt(image, ROOTDIR_DATABLOCK_NUMBER * src.blockSize, r.recordSize) == Some(src.record)
    ensures FindRecord(r, image, ROOTDIR_DATABLOCK_NUMBER, name) == Some(r.record(src.record))
  {
    SlotsWithin(r.blockSize, r.recordSize);
    assert 0 * r.recordSize == 0;
    assert Records(r, image, ROOTDIR_DATABLOCK_NUMBER)(0) == Some(r.record(src.record));
  }

  lemma LookupInLaidOutImage(r: Reader, image: seq<byte>, src: Source, name: string)
    requires Fits(src) && SameSizes(r, src) && Describes(r, src, name)
    requires forall k :: 0 <= k < 5 ==>
               ReadAt(image, Objects(src)[k].pos, |Objects(src)[k].data|) == Some(Objects(src)[k].data)
    ensures Lookup(r, image, name) == Some(src.body)
  {
    var ps := Objects(src);
    assert ReadAt(image, ps[1].pos, |ps[1].data|) == Some(src.rootInode);
    assert ReadAt(image, ps[2].pos, |ps[2].data|) == Some(src.welcomeInode);
    assert ReadAt(image, ps[3].pos, |ps[3].data|) == Some(src.record);
    assert ReadAt(image, ps[4].pos, |ps[4].data|) == Some(src.body);
    InodesAreFound(r, image, src, name);
    RecordIsFound(r, image, src, name);
  }

  /** The round trip: after a successful run on any old image, whose left-over bytes may look
      like further inodes or records, looking the file up by name and following the stored
      numbers gives the body. */
  lemma LookupRoundTrip(r: Reader, image: seq<byte>, plan: Plan, src: Source, name: string)
    requires Fits(src) && SameSizes(r, src) && Describes(r, src, name)
    requires Format(image, plan, src).1 == 0
    ensures Lookup(r, Format(image, plan, src).0, name) == Some(src.body)
  {
    forall k | 0 <= k < 5
      ensures var p := Objects(src)[k];
              ReadAt(Format(image, plan, src).0, p.pos, |p.data|) == Some(p.data)
    {
      LayoutAgreement(image, plan, src, k);
    }
    LookupInLaidOutImage(r, Format(image, plan, src).0, src, name);
  }
}
