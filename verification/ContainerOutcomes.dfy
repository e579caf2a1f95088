/** What a completed operation, and every crash image on the way to it, shows. */
module ContainerOutcomes {
  import opened Sequences
  import opened Bytes
  import opened Aead
  import opened FilePointerCodec
  import opened ContainerImage
  import opened ContainerSteps
  import PowerOfTwo

  /** Storing `pt` keeps the host file within signed 64-bit sizes, whatever the growth padding. */
  ghost predicate Room(files: seq<FilePointer>, pt: Bytes) {
    && BLOB_OVERHEAD + |pt| <= TWO_63
    && EndOfData(files) + PowerOfTwo.NextPowerOf2(BLOB_OVERHEAD + |pt|) + MAX_PADDING + DATA_ALIGNMENT < TWO_63
  }

  lemma SmallBlock()
    ensures PowerOfTwo.NextPowerOf2(BLOB_OVERHEAD) == DATA_ALIGNMENT
  {
  }

  lemma RoomFits(files: seq<FilePointer>, pt: Bytes)
    requires Room(files, pt)
    ensures BLOB_OVERHEAD + |pt| <= TWO_63
    ensures BLOB_OVERHEAD + |pt| <= PowerOfTwo.NextPowerOf2(BLOB_OVERHEAD + |pt|) < TWO_64
    ensures EndOfData(files) < TWO_64 && |pt| < TWO_64
  {
    hide EndOfData, PowerOfTwo.SmearAll;
    PowerOfTwo.NextPowerOf2IsLeast(BLOB_OVERHEAD + |pt|);
  }

  /** The block that holds `pt`. */
  function BlockOf(pt: Bytes): nat { PowerOfTwo.NextPowerOf2(BLOB_OVERHEAD + |pt|) }

  lemma BlockOfIs(pt: Bytes)
    ensures BlockOf(pt) == PowerOfTwo.NextPowerOf2(BLOB_OVERHEAD + |pt|)
  {
  }

  /** Room for `pt` once the data area has grown by `grown`. */
  ghost predicate RoomAfter(files: seq<FilePointer>, grown: nat, pt: Bytes) {
    && BLOB_OVERHEAD + |pt| <= TWO_63
    && EndOfData(files) + grown + BlockOf(pt) + MAX_PADDING + DATA_ALIGNMENT < TWO_63
  }

  lemma RoomThen(f: seq<FilePointer>, g: seq<FilePointer>, grown: nat, pt: Bytes)
    requires RoomAfter(f, grown, pt) && EndOfData(g) <= EndOfData(f) + grown
    ensures Room(g, pt)
  {
    hide EndOfData, PowerOfTwo.NextPowerOf2;
  }

  /** Storing `pt` over this record never shows a fresh open anything but the old or the new contents. */
  predicate Atomic(fp: FilePointer, pt: Bytes) {
    |pt| == 0 || BLOB_OVERHEAD + |pt| > fp.allocatedSize || fp.usedSize == 0 || fp.usedSize == |pt|
  }

  lemma DropPut<K(!new), V>(m: map<K, V>, k: K, v: V)
    ensures Drop(m, k)[k := v] == m[k := v]
  {
  }

  lemma NameAppended(files: seq<FilePointer>, fp: FilePointer)
    ensures NameList(files + [fp]) == NameList(files) + [fp.filename]
  {
  }

  lemma {:induction false} SameLoadedNames(c: seq<Cell>, d: seq<Cell>, key: Key, slot: nat, n: nat)
    requires SameSlotsBut(c, d, key, slot) && n <= SLOT_COUNT
    requires DecodeSlot(c, key, slot).Some? && DecodeSlot(d, key, slot).Some?
    requires DecodeSlot(c, key, slot).value.filename == DecodeSlot(d, key, slot).value.filename
    ensures NameList(LoadedUpTo(c, key, n)) == NameList(LoadedUpTo(d, key, n))
  {
    hide DecodeSlot;
    if n > 0 {
      SameLoadedNames(c, d, key, slot, n - 1);
      if DecodeSlot(c, key, n - 1).Some? {
        NameAppended(LoadedUpTo(c, key, n - 1), DecodeSlot(c, key, n - 1).value);
        NameAppended(LoadedUpTo(d, key, n - 1), DecodeSlot(d, key, n - 1).value);
      }
    }
  }

  lemma EndAfterReplace(files: seq<FilePointer>, k: nat, fp: FilePointer)
    requires k < |files|
    ensures EndOfData(files[k := fp]) <= if BlockEnd(fp) > EndOfData(files) then BlockEnd(fp) else EndOfData(files)
    ensures EndOfData(files[k := fp]) >= BlockEnd(fp)
  {
    hide EndOfData;
    var after := files[k := fp];
    assert after[k] == fp;
    if EndOfData(after) != DATA_START {
      var j :| 0 <= j < |after| && BlockEnd(after[j]) == EndOfData(after);
      assert j == k || after[j] == files[j];
    }
  }

  lemma EndAfterAdd(files: seq<FilePointer>, fp: FilePointer)
    requires BlockEnd(fp) >= EndOfData(files)
    ensures EndOfData(files + [fp]) == BlockEnd(fp)
  {
    hide EndOfData;
    var after := files + [fp];
    assert after[|files|] == fp;
    if EndOfData(after) != DATA_START {
      var j :| 0 <= j < |after| && BlockEnd(after[j]) == EndOfData(after);
    }
  }

  lemma EndAfterRemove(files: seq<FilePointer>, k: nat)
    requires k < |files|
    ensures EndOfData(Without(files, k)) <= EndOfData(files)
  {
    hide EndOfData;
    var after := Without(files, k);
    if EndOfData(after) != DATA_START {
      var j :| 0 <= j < |after| && BlockEnd(after[j]) == EndOfData(after);
      assert after[j] == files[if j < k then j else j + 1];
    }
  }

  /** The block past the used data area meets no other block. */
  lemma PastTheEnd(files: seq<FilePointer>, fp: FilePointer)
    requires fp.dataOffset == EndOfData(files)
    ensures forall k :: 0 <= k < |files| ==> Disjoint(fp, files[k]) && Disjoint(files[k], fp)
  {
    hide EndOfData;
    assert forall k :: 0 <= k < |files| ==> BlockEnd(files[k]) <= EndOfData(files);
  }

  /** The block a file ends up with: the one it has if that holds the contents, else the least that does. */
  function BlockFor(block: nat, pt: Bytes): nat {
    if |pt| == 0 || BLOB_OVERHEAD + |pt| <= block then block else PowerOfTwo.NextPowerOf2(BLOB_OVERHEAD + |pt|)
  }

  lemma BlockForIs(block: nat, pt: Bytes)
    ensures BlockFor(block, pt)
         == if |pt| == 0 || BLOB_OVERHEAD + |pt| <= block then block else PowerOfTwo.NextPowerOf2(BLOB_OVERHEAD + |pt|)
  {
  }

  /**
   * The file at index `k` of the old records now holds `pt`: in memory, on
   * disk after a fresh open, and with every other file, name and header cell
   * as it was.
   */
  ghost predicate Stored(c: seq<Cell>, e: seq<Cell>, key: Key, files: seq<FilePointer>, after: seq<FilePointer>,
                         k: nat, pt: Bytes)
    requires k < |files|
  {
    && Consistent(e, key, after)
    && |after| == |files| && after == files[k := after[k]]
    && after[k].slotIndex == files[k].slotIndex && after[k].filename == files[k].filename
    && after[k].allocatedSize == BlockFor(files[k].allocatedSize, pt)
    && DiskView(e, key) == DiskView(c, key)[files[k].filename := pt]
    && TOTAL_HEADER <= |c| <= |e| && SameHeaderBut(c, e, files[k].slotIndex)
    && NameList(Loaded(e, key)) == NameList(Loaded(c, key))
    && EndOfData(after) <= EndOfData(files) + PowerOfTwo.NextPowerOf2(BLOB_OVERHEAD + |pt|)
  }

  lemma StoredConsistent(c: seq<Cell>, e: seq<Cell>, key: Key, files: seq<FilePointer>, after: seq<FilePointer>,
                         k: nat, pt: Bytes)
    requires k < |files| && Stored(c, e, key, files, after, k, pt)
    ensures Consistent(e, key, after)
  {
  }

  /** What is known of a record before it is stored over. */
  lemma RecordFacts(c: seq<Cell>, key: Key, files: seq<FilePointer>, k: nat)
    requires Consistent(c, key, files) && k < |files|
    ensures Placed(c, files[k]) && SizeOk(c) && TOTAL_HEADER <= |c|
    ensures |files[k].filename| <= MAX_FILENAME_BYTES
    ensures 0 < files[k].allocatedSize && files[k].dataOffset + files[k].allocatedSize <= |c|
    ensures files[k].usedSize > 0 ==> BLOB_OVERHEAD + files[k].usedSize <= files[k].allocatedSize
  {
  }

  /** `Stored`, with the crash images the store appended to the ones `before`. */
  ghost predicate StoredSafely(c: seq<Cell>, e: seq<Cell>, key: Key, files: seq<FilePointer>, after: seq<FilePointer>,
                               before: seq<seq<Cell>>, images: seq<seq<Cell>>, k: int, pt: Bytes)
  {
    && 0 <= k < |files|
    && Stored(c, e, key, files, after, k, pt)
    && |before| <= |images| && images[..|before|] == before
    && CrashImages(images[|before|..], key, DiskView(c, key), files[k], pt)
  }

  lemma IsStored(c: seq<Cell>, e: seq<Cell>, key: Key, files: seq<FilePointer>, k: nat, fp: FilePointer, pt: Bytes)
    requires k < |files| && Consistent(e, key, files[k := fp])
    requires fp.slotIndex == files[k].slotIndex && fp.filename == files[k].filename
    requires fp.allocatedSize == BlockFor(files[k].allocatedSize, pt)
    requires DiskView(e, key) == DiskView(c, key)[fp.filename := pt]
    requires TOTAL_HEADER <= |c| <= |e| && SameHeaderBut(c, e, fp.slotIndex)
    requires NameList(Loaded(e, key)) == NameList(Loaded(c, key))
    requires EndOfData(files[k := fp]) <= EndOfData(files) + PowerOfTwo.NextPowerOf2(BLOB_OVERHEAD + |pt|)
    ensures Stored(c, e, key, files, files[k := fp], k, pt)
  {
    hide Consistent, DiskView, SameHeaderBut, NameList, Loaded, EndOfData, PowerOfTwo.NextPowerOf2, BlockFor;
  }

  lemma StoredShows(c: seq<Cell>, e: seq<Cell>, key: Key, files: seq<FilePointer>, after: seq<FilePointer>, k: nat,
                    pt: Bytes)
    requires k < |files| && Stored(c, e, key, files, after, k, pt)
    ensures DiskView(e, key) == DiskView(c, key)[files[k].filename := pt]
  {
    hide Consistent, DiskView, SameHeaderBut, NameList, Loaded, EndOfData, PowerOfTwo.NextPowerOf2;
  }

  lemma SameLoaded(c: seq<Cell>, d: seq<Cell>, key: Key, slot: nat)
    requires slot < SLOT_COUNT && SameSlotsBut(c, d, key, slot)
    requires DecodeSlot(c, key, slot).Some? && DecodeSlot(d, key, slot).Some?
    requires DecodeSlot(c, key, slot).value.filename == DecodeSlot(d, key, slot).value.filename
    ensures NameList(Loaded(d, key)) == NameList(Loaded(c, key))
  {
    hide DecodeSlot, LoadedUpTo, NameList, SameSlotsBut;
    SameLoadedNames(c, d, key, slot, SLOT_COUNT);
  }

  /** A record keeping its slot and name is still apart from the others once its block is. */
  lemma MovedCompatible(files: seq<FilePointer>, k: nat, fp: FilePointer, j: nat)
    requires AllCompatible(files) && k < |files| && j < |files| && j != k && Disjoint(fp, files[j])
    requires fp.slotIndex == files[k].slotIndex && fp.filename == files[k].filename
    ensures Compatible(fp, files[j])
  {
    if j < k { assert Compatible(files[j], files[k]); } else { assert Compatible(files[k], files[j]); }
  }

  /** The header rewrite that ends every store, once the new block is in place. */
  lemma FinishStore(c: seq<Cell>, d: seq<Cell>, e: seq<Cell>, key: Key, files: seq<FilePointer>, k: nat,
                    fp: FilePointer, pt: Bytes)
    requires Consistent(c, key, files) && k < |files| && |c| <= |d| && SizeOk(d) && SameHeaderBut(c, d, -1)
    requires forall j :: 0 <= j < |files| && j != k ==>
               SameBlock(c, d, files[j]) && Placed(d, files[j]) && Disjoint(fp, files[j])
    requires fp.slotIndex == files[k].slotIndex && fp.filename == files[k].filename
    requires Placed(d, fp) && OpenBlob(d, key, fp) == Some(pt)
    requires SameOutside(d, e, SlotOffset(fp.slotIndex), SLOT_SIZE) && DecodeSlot(e, key, fp.slotIndex) == Some(fp)
    requires BlockEnd(fp) <= EndOfData(files) + PowerOfTwo.NextPowerOf2(BLOB_OVERHEAD + |pt|)
    requires fp.allocatedSize == BlockFor(files[k].allocatedSize, pt)
    ensures Stored(c, e, key, files, files[k := fp], k, pt)
    ensures SameSlotsBut(c, e, key, fp.slotIndex) && DecodeSlot(c, key, fp.slotIndex) == Some(files[k])
  {
    hide *;
    ConsistentParts(c, key, files);
    OutsideSize(d, e, SlotOffset(fp.slotIndex), SLOT_SIZE);
    forall j | 0 <= j < |files| && j != k ensures Compatible(fp, files[j]) {
      MovedCompatible(files, k, fp, j);
    }
    SlotRewriteVisible(c, d, e, key, files, k, fp);
    OpenReads(d, d, key, fp);
    DropPut(DiskView(c, key), fp.filename, pt);
    SameCellsSameSlots(c, e, key, fp.slotIndex);
    SlotEntry(c, key, files, files[k]);
    RecordDecodes(c, key, files[k]);
    SameLoaded(c, e, key, fp.slotIndex);
    EndAfterReplace(files, k, fp);
    IsStored(c, e, key, files, k, fp, pt);
  }

  /** What a crash between the block write and the header write of an in-place store leaves visible. */
  function HalfwayView(v: map<Bytes, Bytes>, fp: FilePointer, pt: Bytes): map<Bytes, Bytes> {
    if fp.usedSize == 0 then v else v[fp.filename := if fp.usedSize == |pt| then pt else []]
  }

  /** Between the block write and the header write of an in-place store. */
  lemma HalfStored(c: seq<Cell>, d: seq<Cell>, key: Key, files: seq<FilePointer>, k: nat, pt: Bytes)
    requires Consistent(c, key, files) && k < |files| && |pt| > 0
    requires SameOutside(c, d, files[k].dataOffset, files[k].allocatedSize)
    requires BLOB_OVERHEAD + |pt| <= files[k].allocatedSize
    requires files[k].usedSize == |pt| ==> OpenBlob(d, key, files[k]) == Some(pt)
    requires 0 < files[k].usedSize && files[k].usedSize != |pt| ==> OpenBlob(d, key, files[k]) == None
    ensures DiskView(d, key) == HalfwayView(DiskView(c, key), files[k], pt)
    ensures DiskView(d, key) == DiskView(c, key) || DiskView(d, key) == DiskView(c, key)[files[k].filename := pt]
            <==> Atomic(files[k], pt)
    ensures SameHeaderBut(c, d, -1)
  {
    var name, v := files[k].filename, DiskView(c, key);
    hide DiskView, Consistent, SameOutside, SameHeaderBut, OpenBlob, ReadBlob;
    BlockRewriteVisible(c, d, key, files, k);
    DropPut(v, name, ReadBlob(d, key, files[k]));
    OldContents(c, key, files, k);
    var shown := ReadBlob(d, key, files[k]);
    HalfwayContents(d, key, files[k], pt);
    if files[k].usedSize == 0 { assert v[name] == []; assert v[name := []] == v; }
    assert DiskView(d, key)[name] == shown;
    assert v[name := pt][name] == pt;
  }

  lemma HalfwayContents(d: seq<Cell>, key: Key, fp: FilePointer, pt: Bytes)
    requires fp.usedSize == |pt| ==> OpenBlob(d, key, fp) == Some(pt)
    requires 0 < fp.usedSize && fp.usedSize != |pt| ==> OpenBlob(d, key, fp) == None
    ensures ReadBlob(d, key, fp) == if fp.usedSize == |pt| then pt else []
  {
  }

  lemma OldContents(c: seq<Cell>, key: Key, files: seq<FilePointer>, k: nat)
    requires Consistent(c, key, files) && k < |files|
    ensures var name, v := files[k].filename, DiskView(c, key);
            && name in v && v[name] == ReadBlob(c, key, files[k]) && |v[name]| == files[k].usedSize
  {
    hide *;
    ReloadAgrees(c, key, files);
    ConsistentParts(c, key, files);
    ViewAt(c, key, files, k);
    OpenReads(c, c, key, files[k]);
    BlobLength(c, key, files[k]);
  }

  lemma BlobLength(c: seq<Cell>, key: Key, fp: FilePointer)
    requires OpenBlob(c, key, fp).Some?
    ensures |OpenBlob(c, key, fp).value| == fp.usedSize
  {
  }

  ghost predicate OldOrNew(image: seq<Cell>, key: Key, v: map<Bytes, Bytes>, name: Bytes, pt: Bytes) {
    DiskView(image, key) == v || DiskView(image, key) == v[name := pt]
  }

  /**
   * The states a crash can leave while `pt` is stored over record `fp`: each
   * shows the old contents, the new ones, or the halfway view, and never the
   * halfway view exactly when the store is atomic.
   */
  ghost predicate CrashImages(images: seq<seq<Cell>>, key: Key, v: map<Bytes, Bytes>, fp: FilePointer, pt: Bytes) {
    && images != []
    && DiskView(images[|images| - 1], key) == v[fp.filename := pt]
    && (forall i :: 0 <= i < |images| ==>
          OldOrNew(images[i], key, v, fp.filename, pt) || DiskView(images[i], key) == HalfwayView(v, fp, pt))
    && ((forall i :: 0 <= i < |images| ==> OldOrNew(images[i], key, v, fp.filename, pt)) <==> Atomic(fp, pt))
  }

  lemma AtomicImages(images: seq<seq<Cell>>, key: Key, v: map<Bytes, Bytes>, fp: FilePointer, pt: Bytes)
    requires Atomic(fp, pt) && images != []
    requires DiskView(images[|images| - 1], key) == v[fp.filename := pt]
    requires forall i :: 0 <= i < |images| - 1 ==> DiskView(images[i], key) == v
    ensures CrashImages(images, key, v, fp, pt)
  {
    hide DiskView;
    forall i | 0 <= i < |images| ensures OldOrNew(images[i], key, v, fp.filename, pt) {
    }
  }

  lemma InPlaceImages(mid: seq<Cell>, last: seq<Cell>, key: Key, v: map<Bytes, Bytes>, fp: FilePointer, pt: Bytes)
    requires DiskView(last, key) == v[fp.filename := pt] && DiskView(mid, key) == HalfwayView(v, fp, pt)
    requires OldOrNew(mid, key, v, fp.filename, pt) <==> Atomic(fp, pt)
    ensures CrashImages([mid, last], key, v, fp, pt)
  {
    hide DiskView, HalfwayView, Atomic;
    var images := [mid, last];
    assert images[0] == mid && images[1] == last;
    assert OldOrNew(last, key, v, fp.filename, pt);
  }

  // ------------------------------------------------------------------
  // Storing, case by case
  // ------------------------------------------------------------------

  /** A record on the same block is apart from the others, which stay as they are. */
  lemma OthersApart(c: seq<Cell>, key: Key, files: seq<FilePointer>, k: nat, fp: FilePointer)
    requires Consistent(c, key, files) && k < |files|
    requires fp.dataOffset == files[k].dataOffset && fp.allocatedSize == files[k].allocatedSize
    ensures forall j :: 0 <= j < |files| && j != k ==>
              SameBlock(c, c, files[j]) && Placed(c, files[j]) && Disjoint(fp, files[j])
  {
    hide *;
    ConsistentParts(c, key, files);
    forall j | 0 <= j < |files| && j != k
      ensures SameBlock(c, c, files[j]) && Placed(c, files[j]) && Disjoint(fp, files[j]) {
      BlocksApart(files, k, j);
      SameExtentDisjoint(files[k], fp, files[j]);
      SameBlockSelf(c, files[j]);
    }
  }

  /** Nothing to store: only the header slot is rewritten. */
  lemma EmptiedOutcome(c: seq<Cell>, e: seq<Cell>, key: Key, files: seq<FilePointer>, k: nat, retired: int,
                       initial: nat)
    requires Consistent(c, key, files) && k < |files| && Budget(c, key, files, retired, initial)
    requires var slot := files[k].slotIndex;
             0 <= slot < SLOT_COUNT && SameOutside(c, e, SlotOffset(slot), SLOT_SIZE)
             && DecodeSlot(e, key, slot) == Some(files[k].(usedSize := 0))
    ensures var after := files[k := files[k].(usedSize := 0)];
            Stored(c, e, key, files, after, k, []) && Budget(e, key, after, retired, initial)
    ensures CrashImages([e], key, DiskView(c, key), files[k], [])
  {
    var fp := files[k].(usedSize := 0);
    hide *;
    RecordFacts(c, key, files, k);
    OutsideSize(c, e, SlotOffset(fp.slotIndex), SLOT_SIZE);
    SameExtentPlaced(c, files[k], fp);
    OthersApart(c, key, files, k, fp);
    SameHeaderSelf(c);
    EmptyRead(c, key, fp);
    EndAfterReplace(files, k, fp);
    BlockForIs(files[k].allocatedSize, []);
    FinishStore(c, c, e, key, files, k, fp, []);
    NewFileCost(fp);
    NewFileCost(files[k]);
    BudgetMoves(c, e, key, files, files[k := fp], fp.slotIndex, retired, initial, 0);
    StoredShows(c, e, key, files, files[k := fp], k, []);
    WhenAtomic(files[k], []);
    AtomicImages([e], key, DiskView(c, key), files[k], []);
  }

  lemma WhenAtomic(fp: FilePointer, pt: Bytes)
    requires |pt| == 0 || BLOB_OVERHEAD + |pt| > fp.allocatedSize
    ensures Atomic(fp, pt)
  {
  }

  lemma SameBlockSelf(c: seq<Cell>, fp: FilePointer)
    requires Placed(c, fp)
    ensures SameBlock(c, c, fp)
  {
  }

  /** Same block, and what it is to hold still fits. */
  lemma SameExtentPlaced(c: seq<Cell>, a: FilePointer, b: FilePointer)
    requires Placed(c, a) && a.(usedSize := b.usedSize) == b
    requires b.usedSize > 0 ==> BLOB_OVERHEAD + b.usedSize <= b.allocatedSize
    ensures Placed(c, b) && BlockEnd(b) == BlockEnd(a)
  {
  }

  lemma SameExtentDisjoint(a: FilePointer, b: FilePointer, x: FilePointer)
    requires Disjoint(a, x) && a.dataOffset == b.dataOffset && a.allocatedSize == b.allocatedSize
    ensures Disjoint(b, x)
  {
  }

  lemma SamePlaced(c: seq<Cell>, d: seq<Cell>, fp: FilePointer)
    requires Placed(c, fp) && |d| == |c|
    ensures Placed(d, fp)
  {
  }

  lemma IsOldOrNew(image: seq<Cell>, key: Key, v: map<Bytes, Bytes>, name: Bytes, pt: Bytes)
    ensures OldOrNew(image, key, v, name, pt) <==> DiskView(image, key) == v || DiskView(image, key) == v[name := pt]
  {
  }

  /** The blob fits where it is. */
  lemma InPlaceOutcome(c: seq<Cell>, d: seq<Cell>, e: seq<Cell>, key: Key, files: seq<FilePointer>, k: nat, pt: Bytes,
                       fp: FilePointer, retired: int, initial: nat)
    requires Consistent(c, key, files) && k < |files| && Budget(c, key, files, retired, initial)
    requires 0 < |pt| && BLOB_OVERHEAD + |pt| <= files[k].allocatedSize && fp == files[k].(usedSize := |pt|)
    requires SameOutside(c, d, fp.dataOffset, fp.allocatedSize) && OpenBlob(d, key, fp) == Some(pt)
    requires files[k].usedSize > 0 && files[k].usedSize != |pt| ==> OpenBlob(d, key, files[k]) == None
    requires 0 <= fp.slotIndex < SLOT_COUNT && SameOutside(d, e, SlotOffset(fp.slotIndex), SLOT_SIZE)
    requires DecodeSlot(e, key, fp.slotIndex) == Some(fp)
    ensures Stored(c, e, key, files, files[k := fp], k, pt) && Budget(e, key, files[k := fp], retired, initial)
    ensures CrashImages([d, e], key, DiskView(c, key), files[k], pt)
  {
    hide *;
    ConsistentParts(c, key, files);
    OutsideSize(c, d, fp.dataOffset, fp.allocatedSize);
    OutsideSize(d, e, SlotOffset(fp.slotIndex), SLOT_SIZE);
    HalfStored(c, d, key, files, k, pt);
    SameExtentPlaced(c, files[k], fp);
    SamePlaced(c, d, fp);
    forall j | 0 <= j < |files| && j != k
      ensures SameBlock(c, d, files[j]) && Placed(d, files[j]) && Disjoint(fp, files[j]) {
      BlocksApart(files, k, j);
      BlockWriteKeepsBlock(c, d, files[k], files[j]);
      SameExtentDisjoint(files[k], fp, files[j]);
    }
    EndAfterReplace(files, k, fp);
    BlockForIs(files[k].allocatedSize, pt);
    FinishStore(c, d, e, key, files, k, fp, pt);
    NewFileCost(fp);
    NewFileCost(files[k]);
    BudgetMoves(c, e, key, files, files[k := fp], fp.slotIndex, retired, initial, 0);
    StoredShows(c, e, key, files, files[k := fp], k, pt);
    IsOldOrNew(d, key, DiskView(c, key), fp.filename, pt);
    InPlaceImages(d, e, key, DiskView(c, key), files[k], pt);
  }

  /** The blob moves to a new block, which nothing points to until the header slot is rewritten. */
  lemma RelocatedOutcome(c: seq<Cell>, g: seq<Cell>, d: seq<Cell>, e: seq<Cell>, key: Key, files: seq<FilePointer>,
                         k: nat,
                         pt: Bytes, fp: FilePointer, retired: int, initial: nat)
    requires Consistent(c, key, files) && k < |files| && Budget(c, key, files, retired, initial)
    requires 0 < |pt| && BLOB_OVERHEAD + |pt| > files[k].allocatedSize && Room(files, pt)
    requires fp == files[k].(dataOffset := fp.dataOffset, allocatedSize := fp.allocatedSize, usedSize := |pt|)
    requires fp.dataOffset == EndOfData(files) && fp.allocatedSize == PowerOfTwo.NextPowerOf2(BLOB_OVERHEAD + |pt|)
    requires Extends(c, g) && BlockEnd(fp) <= |g| && (|g| == |c| || |g| < BlockEnd(fp) + MAX_PADDING + DATA_ALIGNMENT)
    requires SameOutside(g, d, fp.dataOffset, fp.allocatedSize) && OpenBlob(d, key, fp) == Some(pt)
    requires 0 <= fp.slotIndex < SLOT_COUNT && SameOutside(d, e, SlotOffset(fp.slotIndex), SLOT_SIZE)
    requires DecodeSlot(e, key, fp.slotIndex) == Some(fp)
    ensures Stored(c, e, key, files, files[k := fp], k, pt) && Budget(e, key, files[k := fp], retired, initial)
    ensures CrashImages([d, e], key, DiskView(c, key), files[k], pt)
    ensures CrashImages([g, d, e], key, DiskView(c, key), files[k], pt)
  {
    hide *;
    ConsistentParts(c, key, files);
    GrownSize(c, g, files, pt, fp);
    OutsideSize(g, d, fp.dataOffset, fp.allocatedSize);
    OutsideSize(d, e, SlotOffset(fp.slotIndex), SLOT_SIZE);
    GrowthInvisible(c, g, key, files);
    PastTheEnd(files, fp);
    assert DATA_START <= fp.dataOffset;
    LayoutOrder();
    UnusedBlockInvisible(g, d, key, files, fp);
    HeaderChain(c, g, d, -1);
    RelocatedPlaced(c, d, key, files, k, pt, fp);
    forall j | 0 <= j < |files| && j != k
      ensures SameBlock(c, d, files[j]) && Placed(d, files[j]) && Disjoint(fp, files[j]) {
      GrowthKeepsBlock(c, g, files[j]);
      BlockWriteKeepsBlock(g, d, fp, files[j]);
      BlockChain(c, g, d, files[j]);
    }
    EndAfterReplace(files, k, fp);
    BlockForIs(files[k].allocatedSize, pt);
    FinishStore(c, d, e, key, files, k, fp, pt);
    GrowthPays(files[k], fp);
    BudgetMoves(c, e, key, files, files[k := fp], fp.slotIndex, retired, initial, 0);
    StoredShows(c, e, key, files, files[k := fp], k, pt);
    WhenAtomic(files[k], pt);
    AtomicImages([d, e], key, DiskView(c, key), files[k], pt);
    AtomicImages([g, d, e], key, DiskView(c, key), files[k], pt);
  }

  /** Growth for a new block leaves the file within 64-bit sizes. */
  lemma GrownSize(c: seq<Cell>, g: seq<Cell>, files: seq<FilePointer>, pt: Bytes, fp: FilePointer)
    requires SizeOk(c) && Extends(c, g) && Room(files, pt)
    requires fp.dataOffset == EndOfData(files) && fp.allocatedSize == PowerOfTwo.NextPowerOf2(BLOB_OVERHEAD + |pt|)
    requires |g| == |c| || |g| < BlockEnd(fp) + MAX_PADDING + DATA_ALIGNMENT
    ensures SizeOk(g) && |c| <= |g|
  {
    hide EndOfData, PowerOfTwo.NextPowerOf2;
  }

  lemma LayoutOrder()
    ensures TOTAL_HEADER <= DATA_START
  {
  }

  lemma RelocatedPlaced(c: seq<Cell>, d: seq<Cell>, key: Key, files: seq<FilePointer>, k: nat, pt: Bytes,
                        fp: FilePointer)
    requires Consistent(c, key, files) && k < |files| && Room(files, pt)
             && BLOB_OVERHEAD + |pt| > files[k].allocatedSize
    requires fp.slotIndex == files[k].slotIndex && fp.filename == files[k].filename && fp.usedSize == |pt|
    requires fp.dataOffset == EndOfData(files) && fp.allocatedSize == PowerOfTwo.NextPowerOf2(BLOB_OVERHEAD + |pt|)
    requires BlockEnd(fp) <= |d|
    ensures Placed(d, fp) && fp.allocatedSize > files[k].allocatedSize
    ensures PowerOfTwo.IsPow2(fp.allocatedSize) && PowerOfTwo.IsPow2(files[k].allocatedSize)
  {
    hide *;
    ConsistentParts(c, key, files);
    EndOfDataAligned(c, key, files);
    RoomFits(files, pt);
    NewBlockSize(files[k], pt);
    NewBlockPlaced(c, d, files, files[k], fp);
  }

  lemma NewBlockSize(fp: FilePointer, pt: Bytes)
    requires BLOB_OVERHEAD + |pt| > fp.allocatedSize && BLOB_OVERHEAD + |pt| <= TWO_63
    ensures PowerOfTwo.IsPow2(PowerOfTwo.NextPowerOf2(BLOB_OVERHEAD + |pt|))
    ensures PowerOfTwo.NextPowerOf2(BLOB_OVERHEAD + |pt|) > fp.allocatedSize
  {
    hide PowerOfTwo.NextPowerOf2, PowerOfTwo.IsPow2;
    PowerOfTwo.NextPowerOf2IsLeast(BLOB_OVERHEAD + |pt|);
  }

  lemma NewBlockPlaced(c: seq<Cell>, d: seq<Cell>, files: seq<FilePointer>, was: FilePointer, fp: FilePointer)
    requires Placed(c, was) && fp.slotIndex == was.slotIndex && fp.filename == was.filename
    requires fp.dataOffset == EndOfData(files) && EndOfData(files) % DATA_ALIGNMENT == 0 && BlockEnd(fp) <= |d|
    requires PowerOfTwo.IsPow2(fp.allocatedSize) && fp.allocatedSize > was.allocatedSize
    requires BLOB_OVERHEAD + fp.usedSize <= fp.allocatedSize
    ensures Placed(d, fp) && PowerOfTwo.IsPow2(was.allocatedSize)
  {
    hide EndOfData, PowerOfTwo.IsPow2;
  }

  // ------------------------------------------------------------------
  // Creating, deleting, renaming
  // ------------------------------------------------------------------

  lemma UnusedSlot(c: seq<Cell>, key: Key, files: seq<FilePointer>, slot: nat)
    requires Consistent(c, key, files) && slot < SLOT_COUNT && IndexOfSlot(files, slot) < 0
    ensures DecodeSlot(c, key, slot) == None
    ensures forall k :: 0 <= k < |files| ==> files[k].slotIndex != slot
  {
    assert DecodeSlot(c, key, slot) == BySlot(files, slot);
  }

  lemma NewFilePlaced(c: seq<Cell>, g: seq<Cell>, key: Key, files: seq<FilePointer>, fp: FilePointer)
    requires Consistent(c, key, files) && Room(files, []) && Extends(c, g) && BlockEnd(fp) <= |g|
    requires 0 <= fp.slotIndex < SLOT_COUNT && |fp.filename| <= MAX_FILENAME_BYTES
    requires fp.dataOffset == EndOfData(files) && fp.allocatedSize == DATA_ALIGNMENT && fp.usedSize == 0
    requires |g| == |c| || |g| < BlockEnd(fp) + MAX_PADDING + DATA_ALIGNMENT
    ensures Placed(g, fp) && OpenBlob(g, key, fp) == Some([]) && SizeOk(g)
  {
    hide Consistent, EndOfData, DecodeSlot, PowerOfTwo.SmearAll;
    EndOfDataAligned(c, key, files);
    PowerOfTwo.AlignmentIsPow2();
    ConsistentParts(c, key, files);
  }

  /** A new, empty file: its block first, its header slot last. */
  lemma CreatedOutcome(c: seq<Cell>, g: seq<Cell>, e: seq<Cell>, key: Key, files: seq<FilePointer>, fp: FilePointer,
                       retired: int, initial: nat)
    requires Consistent(c, key, files) && Budget(c, key, files, retired, initial) && Room(files, [])
    requires 0 <= fp.slotIndex < SLOT_COUNT && IndexOfSlot(files, fp.slotIndex) < 0
    requires |fp.filename| <= MAX_FILENAME_BYTES && IndexOfName(files, fp.filename) < 0
    requires fp.dataOffset == EndOfData(files) && fp.allocatedSize == DATA_ALIGNMENT && fp.usedSize == 0
    requires Extends(c, g) && BlockEnd(fp) <= |g| && (|g| == |c| || |g| < BlockEnd(fp) + MAX_PADDING + DATA_ALIGNMENT)
    requires SameOutside(g, e, SlotOffset(fp.slotIndex), SLOT_SIZE) && DecodeSlot(e, key, fp.slotIndex) == Some(fp)
    ensures Consistent(e, key, files + [fp]) && Budget(e, key, files + [fp], retired, initial)
    ensures DiskView(e, key) == DiskView(c, key)[fp.filename := []] && DiskView(g, key) == DiskView(c, key)
    ensures TOTAL_HEADER <= |c| <= |e| && SameHeaderBut(c, e, fp.slotIndex)
    ensures EndOfData(files + [fp]) == EndOfData(files) + DATA_ALIGNMENT
  {
    hide *;
    ConsistentParts(c, key, files);
    NewFilePlaced(c, g, key, files, fp);
    OutsideSize(g, e, SlotOffset(fp.slotIndex), SLOT_SIZE);
    ExtendsSize(c, g);
    GrowthInvisible(c, g, key, files);
    SlotWriteKeepsHeader(g, e, fp.slotIndex);
    HeaderChain(c, g, e, fp.slotIndex);
    SameCellsSameSlots(c, e, key, fp.slotIndex);
    UnusedSlot(c, key, files, fp.slotIndex);
    PastTheEnd(files, fp);
    KeepsThroughSlotWrite(c, g, e, key, files, fp);
    SizeKept(g, e);
    EmptyRead(e, key, fp);
    AddFile(c, e, key, files, fp);
    EndAfterAdd(files, fp);
    NewFileCost(fp);
    BudgetMoves(c, e, key, files, files + [fp], fp.slotIndex, retired, initial, 0);
  }

  /** A file came into being, empty; the flushes before the last one still showed the old files. */
  ghost predicate Created(c: seq<Cell>, e: seq<Cell>, key: Key, files: seq<FilePointer>, after: seq<FilePointer>,
                          before: seq<seq<Cell>>, images: seq<seq<Cell>>, filename: Bytes)
  {
    && |after| == |files| + 1 && after[..|files|] == files && after[|files|].filename == filename
    && after[|files|].allocatedSize == DATA_ALIGNMENT
    && DiskView(e, key) == DiskView(c, key)[filename := []]
    && TOTAL_HEADER <= |c| <= |e| && SameHeaderBut(c, e, after[|files|].slotIndex)
    && 0 <= after[|files|].slotIndex < SLOT_COUNT
    && DecodeSlot(e, key, after[|files|].slotIndex) == Some(after[|files|])
    && EndOfData(after) == EndOfData(files) + DATA_ALIGNMENT
    && |before| < |images| && images[..|before|] == before && images[|images| - 1] == e
    && (forall i :: |before| <= i < |images| - 1 ==> DiskView(images[i], key) == DiskView(c, key))
  }

  lemma NewFileCost(fp: FilePointer)
    ensures SlotCost(Some(fp)) == 2 * fp.allocatedSize - DATA_ALIGNMENT && SlotCost(None) == 0
  {
  }

  lemma EmptyRead(e: seq<Cell>, key: Key, fp: FilePointer)
    requires fp.usedSize == 0
    ensures ReadBlob(e, key, fp) == [] && OpenBlob(e, key, fp) == Some([])
  {
  }

  lemma SizeKept(c: seq<Cell>, d: seq<Cell>)
    requires |c| == |d|
    ensures SizeOk(c) ==> SizeOk(d)
  {
  }

  lemma KeepsThroughSlotWrite(c: seq<Cell>, g: seq<Cell>, e: seq<Cell>, key: Key, files: seq<FilePointer>,
                              fp: FilePointer)
    requires forall k :: 0 <= k < |files| ==>
               Placed(c, files[k]) && files[k].slotIndex != fp.slotIndex && Disjoint(files[k], fp)
    requires forall k :: 0 <= k < |files| ==> files[k].filename != fp.filename
    requires 0 <= fp.slotIndex < SLOT_COUNT && Extends(c, g) && SameOutside(g, e, SlotOffset(fp.slotIndex), SLOT_SIZE)
    requires Placed(g, fp)
    ensures |c| <= |e|
    ensures forall k :: 0 <= k < |files| ==>
              Placed(c, files[k]) && SameBlock(c, e, files[k]) && Compatible(files[k], fp)
    ensures Placed(e, fp)
  {
    hide Placed, SameBlock, Disjoint, Extends, SameOutside;
    OutsideSize(g, e, SlotOffset(fp.slotIndex), SLOT_SIZE);
    ExtendsSize(c, g);
    SlotWriteKeepsBlock(g, e, fp.slotIndex, fp);
    forall k | 0 <= k < |files| ensures SameBlock(c, e, files[k]) && Compatible(files[k], fp) {
      GrowthKeepsBlock(c, g, files[k]);
      SlotWriteKeepsBlock(g, e, fp.slotIndex, files[k]);
      BlockChain(c, g, e, files[k]);
    }
  }

  /** A file's slot no longer opens: the file is gone, its allocation retired. */
  lemma DeletedOutcome(c: seq<Cell>, e: seq<Cell>, key: Key, files: seq<FilePointer>, k: nat, retired: int,
                       initial: nat)
    requires Consistent(c, key, files) && Budget(c, key, files, retired, initial) && k < |files|
    requires 0 <= files[k].slotIndex < SLOT_COUNT
    requires SameOutside(c, e, SlotOffset(files[k].slotIndex), SLOT_SIZE)
    requires DecodeSlot(e, key, files[k].slotIndex) == None && files[k].allocatedSize >= DATA_ALIGNMENT
    ensures Consistent(e, key, Without(files, k))
    ensures Budget(e, key, Without(files, k), retired + 2 * files[k].allocatedSize - DATA_ALIGNMENT, initial)
    ensures DiskView(e, key) == Drop(DiskView(c, key), files[k].filename)
    ensures TOTAL_HEADER <= |c| == |e| && SameHeaderBut(c, e, files[k].slotIndex)
  {
    hide *;
    ConsistentParts(c, key, files);
    OutsideSize(c, e, SlotOffset(files[k].slotIndex), SLOT_SIZE);
    SizeKept(c, e);
    SlotWriteKeepsHeader(c, e, files[k].slotIndex);
    SameCellsSameSlots(c, e, key, files[k].slotIndex);
    forall j | 0 <= j < |files| ensures SameBlock(c, e, files[j]) {
      SlotWriteKeepsBlock(c, e, files[k].slotIndex, files[j]);
    }
    RemoveFile(c, e, key, files, k);
    EndAfterRemove(files, k);
    SlotEntry(c, key, files, files[k]);
    RecordDecodes(c, key, files[k]);
    NewFileCost(files[k]);
    BudgetMoves(c, e, key, files, Without(files, k), files[k].slotIndex, retired, initial,
                2 * files[k].allocatedSize - DATA_ALIGNMENT);
  }

  lemma RecordDecodes(c: seq<Cell>, key: Key, fp: FilePointer)
    requires RecordOf(c, key, SLOT_COUNT, fp)
    ensures fp.slotIndex >= 0 && DecodeSlot(c, key, fp.slotIndex) == Some(fp)
  {
  }

  /** A header slot rewritten with a new name. */
  lemma RenamedOutcome(c: seq<Cell>, e: seq<Cell>, key: Key, files: seq<FilePointer>, k: nat, fp: FilePointer,
                       retired: int, initial: nat)
    requires Consistent(c, key, files) && Budget(c, key, files, retired, initial) && k < |files|
    requires fp == files[k].(filename := fp.filename) && |fp.filename| <= MAX_FILENAME_BYTES
    requires forall j :: 0 <= j < |files| && j != k ==> files[j].filename != fp.filename
    requires 0 <= fp.slotIndex < SLOT_COUNT && SameOutside(c, e, SlotOffset(fp.slotIndex), SLOT_SIZE)
    requires DecodeSlot(e, key, fp.slotIndex) == Some(fp)
    ensures Consistent(e, key, files[k := fp]) && Budget(e, key, files[k := fp], retired, initial)
    ensures var v := DiskView(c, key);
            files[k].filename in v
            && DiskView(e, key) == Drop(v, files[k].filename)[fp.filename := v[files[k].filename]]
    ensures TOTAL_HEADER <= |c| == |e| && SameHeaderBut(c, e, fp.slotIndex)
  {
    hide *;
    ConsistentParts(c, key, files);
    OutsideSize(c, e, SlotOffset(fp.slotIndex), SLOT_SIZE);
    SameHeaderSelf(c);
    RenamedRecord(c, key, files, k, fp);
    SlotRewriteVisible(c, c, e, key, files, k, fp);
    OldContents(c, key, files, k);
    SlotEntry(c, key, files, files[k]);
    RecordDecodes(c, key, files[k]);
    NewFileCost(files[k]);
    NewFileCost(fp);
    EndAfterReplace(files, k, fp);
    SameCellsSameSlots(c, e, key, fp.slotIndex);
    BudgetMoves(c, e, key, files, files[k := fp], fp.slotIndex, retired, initial, 0);
  }

  lemma SameHeaderSelf(c: seq<Cell>)
    requires TOTAL_HEADER <= |c|
    ensures SameHeaderBut(c, c, -1)
  {
  }

  lemma RenamedRecord(c: seq<Cell>, key: Key, files: seq<FilePointer>, k: nat, fp: FilePointer)
    requires Consistent(c, key, files) && k < |files|
    requires fp == files[k].(filename := fp.filename) && |fp.filename| <= MAX_FILENAME_BYTES
    requires forall j :: 0 <= j < |files| && j != k ==> files[j].filename != fp.filename
    ensures Placed(c, fp) && OpenBlob(c, key, fp) == OpenBlob(c, key, files[k]) && OpenBlob(c, key, fp).Some?
    ensures ReadBlob(c, key, fp) == ReadBlob(c, key, files[k])
    ensures forall j :: 0 <= j < |files| && j != k ==>
              SameBlock(c, c, files[j]) && Placed(c, files[j]) && Compatible(fp, files[j])
  {
    hide DecodeSlot, IndexOfSlot;
    forall j | 0 <= j < |files| && j != k ensures Compatible(fp, files[j]) {
      if j < k { assert Compatible(files[j], files[k]); } else { assert Compatible(files[k], files[j]); }
    }
  }

  /** A file that never held anything but random bytes behind its public header has no files under any key. */
  lemma FreshImageSound(cells: seq<Cell>, key: Key)
    requires SizeOk(cells) && AllPlain(cells)
    ensures Loaded(cells, key) == [] && Consistent(cells, key, []) && DiskView(cells, key) == map[]
    ensures Budget(cells, key, [], 0, |cells|)
  {
    hide DecodeSlot;
    forall i | 0 <= i < SLOT_COUNT ensures DecodeSlot(cells, key, i) == None {
      PlainSlotEmpty(cells, key, i);
    }
    NothingLoaded(cells, key, SLOT_COUNT);
  }

  lemma {:induction false} NothingLoaded(cells: seq<Cell>, key: Key, n: nat)
    requires n <= SLOT_COUNT && forall i :: 0 <= i < SLOT_COUNT ==> DecodeSlot(cells, key, i) == None
    ensures LoadedUpTo(cells, key, n) == [] && Cost(cells, key, n) == 0
  {
    hide DecodeSlot;
    if n > 0 { NothingLoaded(cells, key, n - 1); }
  }
}
