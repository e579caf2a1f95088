/**
 * The effect of each kind of write the container performs - growing the file,
 * filling a block, rewriting a header slot - on what the file means, and the
 * accounting that bounds how far the data area can spread.
 */
module ContainerSteps {
  import opened Bytes
  import opened Aead
  import opened FilePointerCodec
  import opened ContainerImage
  import PowerOfTwo

  // ------------------------------------------------------------------
  // Writes, by the region they touch
  // ------------------------------------------------------------------

  ghost predicate Extends(c: seq<Cell>, d: seq<Cell>) {
    |c| <= |d| && d[..|c|] == c
  }

  ghost predicate SameOutside(c: seq<Cell>, d: seq<Cell>, off: nat, n: nat) {
    |c| == |d| && off + n <= |c| && d[..off] == c[..off] && d[off + n..] == c[off + n..]
  }

  lemma OverwriteOutside(c: seq<Cell>, off: nat, data: seq<Cell>)
    requires off + |data| <= |c|
    ensures SameOutside(c, Overwrite(c, off, data), off, |data|)
  {
    OverwriteFrame(c, off, data, 0, off);
    OverwriteFrame(c, off, data, off + |data|, |c|);
    var d := Overwrite(c, off, data);
    assert d[0..off] == d[..off] && c[0..off] == c[..off];
    assert d[off + |data|..|c|] == d[off + |data|..] && c[off + |data|..|c|] == c[off + |data|..];
  }

  lemma OutsideSlice(c: seq<Cell>, d: seq<Cell>, off: nat, n: nat, a: nat, b: nat)
    requires SameOutside(c, d, off, n) && a <= b <= |c| && (b <= off || off + n <= a)
    ensures d[a..b] == c[a..b]
  {
    if b <= off {
      assert d[0..off] == c[0..off];
      SubSlice(d, c, 0, off, a, b);
    } else {
      assert d[off + n..|c|] == c[off + n..|c|];
      SubSlice(d, c, off + n, |c|, a, b);
    }
  }

  lemma ExtendsSize(c: seq<Cell>, d: seq<Cell>)
    requires Extends(c, d)
    ensures |c| <= |d|
  {
  }

  lemma ExtendsSelf(c: seq<Cell>)
    ensures Extends(c, c)
  {
  }

  lemma OutsideSize(c: seq<Cell>, d: seq<Cell>, off: nat, n: nat)
    requires SameOutside(c, d, off, n)
    ensures |c| == |d| && off + n <= |c| && (SizeOk(c) ==> SizeOk(d))
  {
  }

  lemma ExtendsSlice(c: seq<Cell>, d: seq<Cell>, a: nat, b: nat)
    requires Extends(c, d) && a <= b <= |c|
    ensures d[a..b] == c[a..b]
  {
    assert c[0..|c|] == d[0..|c|];
    SubSlice(c, d, 0, |c|, a, b);
  }

  /** Outside slot `slot` the whole header region, public part included, holds the same cells. */
  ghost predicate SameHeaderBut(c: seq<Cell>, d: seq<Cell>, slot: int)
    requires TOTAL_HEADER <= |c| && TOTAL_HEADER <= |d|
  {
    && d[..HEADER_OFFSET] == c[..HEADER_OFFSET]
    && (forall i :: 0 <= i < SLOT_COUNT && i != slot ==> SameSlotCells(c, d, i))
  }

  ghost predicate SameSlotCells(c: seq<Cell>, d: seq<Cell>, i: nat)
    requires i < SLOT_COUNT && TOTAL_HEADER <= |c| && TOTAL_HEADER <= |d|
  {
    d[SlotOffset(i)..SlotOffset(i) + SLOT_SIZE] == c[SlotOffset(i)..SlotOffset(i) + SLOT_SIZE]
  }

  lemma SameCellsSameSlots(c: seq<Cell>, d: seq<Cell>, key: Key, slot: int)
    requires TOTAL_HEADER <= |c| && TOTAL_HEADER <= |d| && SameHeaderBut(c, d, slot)
    ensures SameSlotsBut(c, d, key, slot)
  {
    hide DecodeSlot;
    forall i | 0 <= i < SLOT_COUNT && i != slot ensures DecodeSlot(c, key, i) == DecodeSlot(d, key, i) {
      assert SameSlotCells(c, d, i);
      SlotFrame(c, d, key, i);
    }
  }

  lemma GrowthKeepsHeader(c: seq<Cell>, d: seq<Cell>)
    requires TOTAL_HEADER <= |c| && Extends(c, d)
    ensures SameHeaderBut(c, d, -1)
  {
    ExtendsSlice(c, d, 0, HEADER_OFFSET);
    forall i | 0 <= i < SLOT_COUNT ensures SameSlotCells(c, d, i) {
      ExtendsSlice(c, d, SlotOffset(i), SlotOffset(i) + SLOT_SIZE);
    }
  }

  lemma BlockWriteKeepsHeader(c: seq<Cell>, d: seq<Cell>, off: nat, n: nat)
    requires TOTAL_HEADER <= off && SameOutside(c, d, off, n)
    ensures SameHeaderBut(c, d, -1)
  {
    OutsideSlice(c, d, off, n, 0, HEADER_OFFSET);
    forall i | 0 <= i < SLOT_COUNT ensures SameSlotCells(c, d, i) {
      OutsideSlice(c, d, off, n, SlotOffset(i), SlotOffset(i) + SLOT_SIZE);
    }
  }

  lemma SlotWriteKeepsHeader(c: seq<Cell>, d: seq<Cell>, slot: nat)
    requires slot < SLOT_COUNT && TOTAL_HEADER <= |c| && SameOutside(c, d, SlotOffset(slot), SLOT_SIZE)
    ensures SameHeaderBut(c, d, slot)
  {
    OutsideSlice(c, d, SlotOffset(slot), SLOT_SIZE, 0, HEADER_OFFSET);
    forall i | 0 <= i < SLOT_COUNT && i != slot ensures SameSlotCells(c, d, i) {
      OutsideSlice(c, d, SlotOffset(slot), SLOT_SIZE, SlotOffset(i), SlotOffset(i) + SLOT_SIZE);
    }
  }

  lemma HeaderChain(c: seq<Cell>, d: seq<Cell>, e: seq<Cell>, slot: int)
    requires TOTAL_HEADER <= |c| && TOTAL_HEADER <= |d| && TOTAL_HEADER <= |e|
    requires SameHeaderBut(c, d, -1) && SameHeaderBut(d, e, slot)
    ensures SameHeaderBut(c, e, slot)
  {
    forall i | 0 <= i < SLOT_COUNT && i != slot ensures SameSlotCells(c, e, i) {
      assert SameSlotCells(c, d, i) && SameSlotCells(d, e, i);
    }
  }

  /** Blocks in the data area survive a slot write. */
  lemma SlotWriteKeepsBlock(c: seq<Cell>, d: seq<Cell>, slot: nat, fp: FilePointer)
    requires slot < SLOT_COUNT && SameOutside(c, d, SlotOffset(slot), SLOT_SIZE) && Placed(c, fp)
    ensures Placed(d, fp) && SameBlock(c, d, fp)
  {
    OutsideSlice(c, d, SlotOffset(slot), SLOT_SIZE, fp.dataOffset, fp.dataOffset + fp.allocatedSize);
  }

  lemma BlockWriteKeepsBlock(c: seq<Cell>, d: seq<Cell>, at: FilePointer, fp: FilePointer)
    requires SameOutside(c, d, at.dataOffset, at.allocatedSize) && Placed(c, fp) && Disjoint(at, fp)
    ensures Placed(d, fp) && SameBlock(c, d, fp)
  {
    OutsideSlice(c, d, at.dataOffset, at.allocatedSize, fp.dataOffset, fp.dataOffset + fp.allocatedSize);
  }

  lemma GrowthKeepsBlock(c: seq<Cell>, d: seq<Cell>, fp: FilePointer)
    requires Extends(c, d) && Placed(c, fp)
    ensures Placed(d, fp) && SameBlock(c, d, fp)
  {
    ExtendsSlice(c, d, fp.dataOffset, fp.dataOffset + fp.allocatedSize);
  }

  // ------------------------------------------------------------------
  // The three stages of storing a file's contents
  // ------------------------------------------------------------------

  /** Growing the file changes nothing a fresh open can see. */
  lemma GrowthInvisible(c: seq<Cell>, d: seq<Cell>, key: Key, files: seq<FilePointer>)
    requires Consistent(c, key, files) && Extends(c, d) && SizeOk(d)
    ensures Consistent(d, key, files) && DiskView(d, key) == DiskView(c, key)
    ensures SameHeaderBut(c, d, -1)
  {
    hide *;
    ConsistentParts(c, key, files);
    ExtendsSize(c, d);
    GrowthKeepsHeader(c, d);
    SameCellsSameSlots(c, d, key, -1);
    forall k | 0 <= k < |files| ensures SameBlock(c, d, files[k]) {
      GrowthKeepsBlock(c, d, files[k]);
    }
    UnchangedImage(c, d, key, files);
  }

  /** Filling a block no record points to changes nothing a fresh open can see. */
  lemma UnusedBlockInvisible(c: seq<Cell>, d: seq<Cell>, key: Key, files: seq<FilePointer>, at: FilePointer)
    requires Consistent(c, key, files) && SameOutside(c, d, at.dataOffset, at.allocatedSize)
    requires TOTAL_HEADER <= at.dataOffset && forall k :: 0 <= k < |files| ==> Disjoint(at, files[k])
    ensures Consistent(d, key, files) && DiskView(d, key) == DiskView(c, key)
    ensures SameHeaderBut(c, d, -1)
  {
    hide *;
    ConsistentParts(c, key, files);
    OutsideSize(c, d, at.dataOffset, at.allocatedSize);
    BlockWriteKeepsHeader(c, d, at.dataOffset, at.allocatedSize);
    SameCellsSameSlots(c, d, key, -1);
    forall k | 0 <= k < |files| ensures SameBlock(c, d, files[k]) {
      BlockWriteKeepsBlock(c, d, at, files[k]);
    }
    UnchangedImage(c, d, key, files);
  }

  /**
   * Overwriting a file's block while the header still has its old record
   * leaves every other file alone; that file reads as whatever now opens there.
   */
  lemma BlockRewriteVisible(c: seq<Cell>, d: seq<Cell>, key: Key, files: seq<FilePointer>, k: nat)
    requires Consistent(c, key, files) && k < |files|
    requires SameOutside(c, d, files[k].dataOffset, files[k].allocatedSize)
    ensures SameHeaderBut(c, d, -1)
    ensures DiskView(d, key)
            == Drop(DiskView(c, key), files[k].filename)[files[k].filename := ReadBlob(d, key, files[k])]
  {
    var l := Loaded(c, key);
    hide *;
    ReloadAgrees(c, key, files);
    ConsistentParts(c, key, files);
    ConsistentParts(c, key, l);
    OutsideSize(c, d, files[k].dataOffset, files[k].allocatedSize);
    BlockWriteKeepsHeader(c, d, files[k].dataOffset, files[k].allocatedSize);
    SameCellsSameSlots(c, d, key, -1);
    SameSlotsLoadSame(c, d, key);
    DiskViewIsView(c, key);
    DiskViewIsView(d, key);
    var m := IndexInReload(files, l, k);
    forall j | 0 <= j < |l| && j != m ensures OpenBlob(d, key, l[j]) == OpenBlob(c, key, l[j]) {
      BlocksApart(l, m, j);
      BlockWriteKeepsBlock(c, d, l[m], l[j]);
      BlobFrame(c, d, key, l[j]);
    }
    SameReads(c, d, key, l, m);
    assert l[m := l[m]] == l;
    ViewOfReplaced(c, d, key, l, m, l[m]);
  }

  lemma SameSlotsLoadSame(c: seq<Cell>, d: seq<Cell>, key: Key)
    requires SameSlotsBut(c, d, key, -1)
    ensures Loaded(d, key) == Loaded(c, key)
  {
    hide DecodeSlot, LoadedUpTo;
    LoadedDependsOnSlots(c, d, key, SLOT_COUNT);
  }

  lemma BlocksApart(files: seq<FilePointer>, k: nat, j: nat)
    requires AllCompatible(files) && k < |files| && j < |files| && j != k
    ensures Disjoint(files[k], files[j])
  {
    if j < k { assert Compatible(files[j], files[k]); } else { assert Compatible(files[k], files[j]); }
  }

  lemma IndexInReload(files: seq<FilePointer>, l: seq<FilePointer>, k: nat) returns (m: nat)
    requires k < |files| && multiset(l) == multiset(files)
    ensures m < |l| && l[m] == files[k]
  {
    assert files[k] in multiset(files);
    assert files[k] in multiset(l);
    m :| m < |l| && l[m] == files[k];
  }

  lemma BlockChain(c: seq<Cell>, d: seq<Cell>, e: seq<Cell>, fp: FilePointer)
    requires Placed(c, fp) && Placed(d, fp) && Placed(e, fp) && SameBlock(c, d, fp) && SameBlock(d, e, fp)
    ensures SameBlock(c, e, fp)
  {
    hide Placed;
  }

  lemma OpenReads(c: seq<Cell>, d: seq<Cell>, key: Key, fp: FilePointer)
    requires OpenBlob(c, key, fp) == OpenBlob(d, key, fp)
    ensures ReadBlob(c, key, fp) == ReadBlob(d, key, fp)
    ensures OpenBlob(c, key, fp).Some? ==> ReadBlob(c, key, fp) == OpenBlob(c, key, fp).value
  {
    hide OpenBlob;
  }

  /** The header slot rewritten last: the new record, its block already in place, becomes visible. */
  lemma SlotRewriteVisible(c: seq<Cell>, d: seq<Cell>, e: seq<Cell>, key: Key, files: seq<FilePointer>, k: nat,
                           fp: FilePointer)
    requires Consistent(c, key, files) && k < |files| && |c| <= |d| && SizeOk(d)
    requires SameHeaderBut(c, d, -1)
    requires forall j :: 0 <= j < |files| && j != k ==>
               SameBlock(c, d, files[j]) && Placed(d, files[j]) && Compatible(fp, files[j])
    requires fp.slotIndex == files[k].slotIndex && Placed(d, fp) && OpenBlob(d, key, fp).Some?
    requires SameOutside(d, e, SlotOffset(fp.slotIndex), SLOT_SIZE) && DecodeSlot(e, key, fp.slotIndex) == Some(fp)
    ensures Consistent(e, key, files[k := fp]) && SameHeaderBut(c, e, fp.slotIndex)
    ensures DiskView(e, key) == Drop(DiskView(c, key), files[k].filename)[fp.filename := ReadBlob(d, key, fp)]
  {
    hide *;
    ConsistentParts(c, key, files);
    OutsideSize(d, e, SlotOffset(fp.slotIndex), SLOT_SIZE);
    SlotWriteKeepsHeader(d, e, fp.slotIndex);
    HeaderChain(c, d, e, fp.slotIndex);
    SameCellsSameSlots(c, e, key, fp.slotIndex);
    SlotWriteKeepsBlock(d, e, fp.slotIndex, fp);
    BlobFrame(d, e, key, fp);
    forall j | 0 <= j < |files| && j != k ensures SameBlock(c, e, files[j]) {
      SlotWriteKeepsBlock(d, e, fp.slotIndex, files[j]);
      BlockChain(c, d, e, files[j]);
    }
    ReplaceFile(c, e, key, files, k, fp);
    OpenReads(d, e, key, fp);
  }

  // ------------------------------------------------------------------
  // Where the data area ends, and what bounds it
  // ------------------------------------------------------------------

  function BlockEnd(fp: FilePointer): (e: nat)
    ensures e == fp.dataOffset + fp.allocatedSize
  {
    fp.dataOffset + fp.allocatedSize
  }

  /** The end of the used data area, as the allocator computes it over the first n records. */
  function EndOfDataUpTo(files: seq<FilePointer>, n: nat): (e: nat)
    requires n <= |files|
    ensures DATA_START <= e
    ensures forall k :: 0 <= k < n ==> BlockEnd(files[k]) <= e
    ensures e == DATA_START || exists k :: 0 <= k < n && BlockEnd(files[k]) == e
  {
    if n == 0 then DATA_START
    else
      var e := EndOfDataUpTo(files, n - 1);
      if BlockEnd(files[n - 1]) > e then BlockEnd(files[n - 1]) else e
  }

  function EndOfData(files: seq<FilePointer>): (e: nat)
    ensures DATA_START <= e
    ensures forall k :: 0 <= k < |files| ==> BlockEnd(files[k]) <= e
    ensures e == DATA_START || exists k :: 0 <= k < |files| && BlockEnd(files[k]) == e
  {
    EndOfDataUpTo(files, |files|)
  }

  /** Blocks are aligned, so the end of the data area is, and the allocator's rounding adds nothing. */
  lemma EndOfDataAligned(cells: seq<Cell>, key: Key, files: seq<FilePointer>)
    requires Consistent(cells, key, files)
    ensures EndOfData(files) % DATA_ALIGNMENT == 0 && EndOfData(files) <= |cells|
    ensures ((EndOfData(files) + DATA_ALIGNMENT - 1) / DATA_ALIGNMENT) * DATA_ALIGNMENT == EndOfData(files)
  {
    var e := EndOfData(files);
    hide *;
    ConsistentParts(cells, key, files);
    SizeFits(cells);
    if e != DATA_START {
      var k :| 0 <= k < |files| && BlockEnd(files[k]) == e;
      AlignedEnd(cells, files[k]);
    }
    RoundingAligned(e);
  }

  lemma SizeFits(cells: seq<Cell>)
    requires SizeOk(cells)
    ensures DATA_START <= |cells| < TWO_63
  {
  }

  lemma AlignedEnd(cells: seq<Cell>, fp: FilePointer)
    requires Placed(cells, fp)
    ensures BlockEnd(fp) % DATA_ALIGNMENT == 0 && BlockEnd(fp) <= |cells|
  {
    hide PowerOfTwo.IsPow2;
    PowerOfTwo.LargePow2Aligned(fp.allocatedSize);
    SumAligned(fp.dataOffset, fp.allocatedSize);
  }

  lemma SumAligned(a: nat, b: nat)
    requires a % DATA_ALIGNMENT == 0 && b % DATA_ALIGNMENT == 0
    ensures (a + b) % DATA_ALIGNMENT == 0
  {
  }

  lemma RoundingAligned(e: nat)
    requires e == DATA_START || e % DATA_ALIGNMENT == 0
    ensures e % DATA_ALIGNMENT == 0 && ((e + DATA_ALIGNMENT - 1) / DATA_ALIGNMENT) * DATA_ALIGNMENT == e
  {
  }

  /** What one file's blocks, past and present, can have cost in data area. */
  function SlotCost(o: Option<FilePointer>): int {
    match o
    case None => 0
    case Some(fp) => 2 * fp.allocatedSize - DATA_ALIGNMENT
  }

  function Cost(cells: seq<Cell>, key: Key, n: nat): int {
    if n == 0 then 0 else Cost(cells, key, n - 1) + SlotCost(DecodeSlot(cells, key, n - 1))
  }

  lemma {:induction false} CostMoves(c: seq<Cell>, d: seq<Cell>, key: Key, slot: int, n: nat)
    requires SameSlotsBut(c, d, key, slot) && n <= SLOT_COUNT
    ensures Cost(d, key, n) - Cost(c, key, n)
         == if 0 <= slot < n then SlotCost(DecodeSlot(d, key, slot)) - SlotCost(DecodeSlot(c, key, slot)) else 0
  {
    hide DecodeSlot, SlotCost;
    if n > 0 { CostMoves(c, d, key, slot, n - 1); }
  }

  /** Random padding added when the file grows is below 4 MiB. */
  const MAX_PADDING: nat := 4 * 1024 * 1024

  /** What a list of blocks, each the last its file had, can have cost in data area. */
  function Charge(blocks: seq<nat>): int {
    if blocks == [] then 0
    else Charge(blocks[..|blocks| - 1]) + 2 * blocks[|blocks| - 1] - DATA_ALIGNMENT
  }

  function BlockSizes(files: seq<FilePointer>): (r: seq<nat>)
    ensures |r| == |files| && forall k :: 0 <= k < |files| ==> r[k] == files[k].allocatedSize
  {
    seq(|files|, k requires 0 <= k < |files| => files[k].allocatedSize as nat)
  }

  /**
   * The amortised space bound.  `retired` are the blocks of deleted files, so
   * the sum runs over every file ever created: the data area ends within it,
   * and growth padding does not add up in the physical size.
   */
  ghost predicate SpaceBound(cells: seq<Cell>, files: seq<FilePointer>, retired: seq<nat>, initial: nat) {
    var bound := DATA_START + Charge(BlockSizes(files) + retired);
    EndOfData(files) <= bound && (|cells| <= initial || |cells| < bound + MAX_PADDING + DATA_ALIGNMENT)
  }

  lemma {:induction false} ChargeConcat(a: seq<nat>, b: seq<nat>)
    ensures Charge(a + b) == Charge(a) + Charge(b)
  {
    if b == [] {
      assert a + b == a;
    } else {
      var n := |b| - 1;
      ChargeConcat(a, b[..n]);
      assert (a + b)[..|a + b| - 1] == a + b[..n];
    }
  }

  lemma ChargeOne(x: nat)
    ensures Charge([x]) == 2 * x - DATA_ALIGNMENT
  {
    assert [x][..0] == [];
  }

  lemma ChargeAppend(a: seq<nat>, x: nat)
    ensures Charge(a + [x]) == Charge(a) + 2 * x - DATA_ALIGNMENT
  {
    ChargeConcat(a, [x]);
    ChargeOne(x);
  }

  lemma ChargeWithout(a: seq<nat>, k: nat)
    requires k < |a|
    ensures Charge(a) == Charge(a[..k] + a[k + 1..]) + 2 * a[k] - DATA_ALIGNMENT
  {
    assert a == a[..k] + [a[k]] + a[k + 1..];
    ChargeConcat(a[..k] + [a[k]], a[k + 1..]);
    ChargeAppend(a[..k], a[k]);
    ChargeConcat(a[..k], a[k + 1..]);
  }

  lemma ChargeReplace(a: seq<nat>, k: nat, x: nat)
    requires k < |a|
    ensures Charge(a[k := x]) == Charge(a) + 2 * x - 2 * a[k]
  {
    var b := a[k := x];
    ChargeWithout(a, k);
    ChargeWithout(b, k);
    assert a[..k] == b[..k] && a[k + 1..] == b[k + 1..];
  }

  lemma TakenOut<T>(s: seq<T>, k: nat)
    requires k < |s|
    ensures multiset(s) == multiset(s[..k] + s[k + 1..]) + multiset{s[k]}
  {
    assert s == s[..k] + [s[k]] + s[k + 1..];
  }

  /** Where a reordering has the last element, and that the rest is a reordering of the rest. */
  lemma LastMatched<T>(a: seq<T>, b: seq<T>) returns (k: nat)
    requires multiset(a) == multiset(b) && a != []
    ensures k < |b| && b[k] == a[|a| - 1] && multiset(a[..|a| - 1]) == multiset(b[..k] + b[k + 1..])
  {
    var n := |a| - 1;
    assert a[n] in multiset(b);
    k :| 0 <= k < |b| && b[k] == a[n];
    TakenOut(a, n);
    TakenOut(b, k);
    assert a[..n] + a[n + 1..] == a[..n];
    assert multiset(a[..n]) == multiset(a) - multiset{a[n]};
    assert multiset(b[..k] + b[k + 1..]) == multiset(b) - multiset{b[k]};
  }

  lemma NoneLeft<T>(b: seq<T>)
    requires multiset(b) == multiset([])
    ensures b == []
  {
    assert |multiset(b)| == |b|;
  }

  lemma BlocksAppended(files: seq<FilePointer>, fp: FilePointer)
    ensures BlockSizes(files + [fp]) == BlockSizes(files) + [fp.allocatedSize as nat]
  {
  }

  lemma BlocksWithout(files: seq<FilePointer>, k: nat)
    requires k < |files|
    ensures var all := BlockSizes(files);
            BlockSizes(files[..k] + files[k + 1..]) == all[..k] + all[k + 1..] && all[k] == files[k].allocatedSize
  {
  }

  /** Reordered files cost the same. */
  lemma {:induction false} ChargeOfReordered(files: seq<FilePointer>, l: seq<FilePointer>)
    requires multiset(files) == multiset(l)
    ensures Charge(BlockSizes(files)) == Charge(BlockSizes(l))
    decreases |files|
  {
    hide BlockSizes, Charge;
    if files == [] {
      NoneLeft(l);
    } else {
      var n := |files| - 1;
      var k := LastMatched(files, l);
      ChargeOfReordered(files[..n], l[..k] + l[k + 1..]);
      BlocksWithout(files, n);
      BlocksWithout(l, k);
      assert files[..n] + files[n + 1..] == files[..n];
      ChargeWithout(BlockSizes(files), n);
      ChargeWithout(BlockSizes(l), k);
    }
  }

  lemma {:induction false} CostOfLoaded(cells: seq<Cell>, key: Key, n: nat)
    ensures Cost(cells, key, n) == Charge(BlockSizes(LoadedUpTo(cells, key, n)))
  {
    hide DecodeSlot, BlockSizes;
    if n > 0 {
      CostOfLoaded(cells, key, n - 1);
      var before := LoadedUpTo(cells, key, n - 1);
      match DecodeSlot(cells, key, n - 1)
      case None =>
      case Some(fp) =>
        BlocksAppended(before, fp);
        ChargeAppend(BlockSizes(before), fp.allocatedSize);
    }
  }

  /** What the header charges is what the records in memory do. */
  lemma CostIsCharge(cells: seq<Cell>, key: Key, files: seq<FilePointer>)
    requires Consistent(cells, key, files)
    ensures Cost(cells, key, SLOT_COUNT) == Charge(BlockSizes(files))
  {
    hide *;
    ReloadAgrees(cells, key, files);
    CostOfLoaded(cells, key, SLOT_COUNT);
    LoadedIs(cells, key);
    ChargeOfReordered(Loaded(cells, key), files);
  }

  lemma LoadedIs(cells: seq<Cell>, key: Key)
    ensures Loaded(cells, key) == LoadedUpTo(cells, key, SLOT_COUNT)
  {
  }

  /** The bound as the steps keep it, in terms of the header: deleted files have cost `retired`. */
  ghost predicate Budget(cells: seq<Cell>, key: Key, files: seq<FilePointer>, retired: int, initial: nat)
  {
    var bound := DATA_START + Cost(cells, key, SLOT_COUNT) + retired;
    EndOfData(files) <= bound && (|cells| <= initial || |cells| < bound + MAX_PADDING + DATA_ALIGNMENT)
  }

  /** The budget of a consistent container is the bound over every file ever created. */
  lemma BudgetIsBound(cells: seq<Cell>, key: Key, files: seq<FilePointer>, retired: seq<nat>, initial: nat)
    requires Consistent(cells, key, files)
    ensures Budget(cells, key, files, Charge(retired), initial) <==> SpaceBound(cells, files, retired, initial)
  {
    hide Consistent, Cost, BlockSizes, EndOfData, Charge;
    CostIsCharge(cells, key, files);
    ChargeConcat(BlockSizes(files), retired);
  }

  lemma BudgetReloads(cells: seq<Cell>, key: Key, files: seq<FilePointer>, retired: int, initial: nat)
    requires Consistent(cells, key, files) && Budget(cells, key, files, retired, initial)
    ensures Budget(cells, key, Loaded(cells, key), retired, initial)
  {
    hide DecodeSlot, Consistent;
    ReloadAgrees(cells, key, files);
    var l := Loaded(cells, key);
    if EndOfData(l) != DATA_START {
      var k :| 0 <= k < |l| && BlockEnd(l[k]) == EndOfData(l);
      var m := IndexInReload(l, files, k);
    }
  }

  lemma EndAfterReload(c: seq<Cell>, key: Key, files: seq<FilePointer>)
    requires Consistent(c, key, files)
    ensures EndOfData(Loaded(c, key)) <= EndOfData(files)
  {
    hide DecodeSlot, Consistent, Loaded, EndOfData;
    ReloadAgrees(c, key, files);
    var l := Loaded(c, key);
    if EndOfData(l) != DATA_START {
      var k :| 0 <= k < |l| && BlockEnd(l[k]) == EndOfData(l);
      var m := IndexInReload(l, files, k);
    }
  }

  /** A step that rewrites one slot pays for the block it claims. */
  lemma BudgetMoves(c: seq<Cell>, d: seq<Cell>, key: Key, files: seq<FilePointer>, after: seq<FilePointer>,
                    slot: nat, retired: int, initial: nat, paid: nat)
    requires Budget(c, key, files, retired, initial) && slot < SLOT_COUNT && SameSlotsBut(c, d, key, slot)
    requires SlotCost(DecodeSlot(d, key, slot)) + paid >= SlotCost(DecodeSlot(c, key, slot))
    requires
      || (EndOfData(after) <= EndOfData(files) && |d| == |c|)
      || (&& EndOfData(after)
             <= EndOfData(files) + (SlotCost(DecodeSlot(d, key, slot)) - SlotCost(DecodeSlot(c, key, slot)))
          && (|d| == |c| || |d| < EndOfData(after) + MAX_PADDING + DATA_ALIGNMENT))
    ensures Budget(d, key, after, retired + paid, initial)
  {
    hide DecodeSlot;
    CostMoves(c, d, key, slot, SLOT_COUNT);
  }

  /** A larger block is at least twice the old one, so its cost covers it. */
  lemma GrowthPays(before: FilePointer, after: FilePointer)
    requires PowerOfTwo.IsPow2(before.allocatedSize) && PowerOfTwo.IsPow2(after.allocatedSize)
    requires before.allocatedSize < after.allocatedSize
    ensures SlotCost(Some(after)) - SlotCost(Some(before)) >= after.allocatedSize
  {
    PowerOfTwo.Pow2Gap(before.allocatedSize, after.allocatedSize);
  }
}
