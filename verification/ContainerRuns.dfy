/** Whole runs: whatever is done to a container, a fresh open shows what a plain map would hold. */
module ContainerRuns {
  import opened Sequences
  import opened Bytes
  import opened Aead
  import opened FilePointerCodec
  import opened ContainerImage
  import opened ContainerSteps
  import opened KeySeparation
  import opened ContainerOutcomes
  import opened FreeSlots
  import opened SpaceLedger
  import opened Vfs
  import PowerOfTwo

  /** What a client does: store a file's contents, delete, rename, or close the container and open it again. */
  datatype Op = Store(name: Bytes, data: Bytes) | Delete(name: Bytes) | Rename(oldName: Bytes, newName: Bytes) | Reopen

  const TRUNCATE := OpenMode(true, true, true)

  type FileMap = map<Bytes, Bytes>

  /** A new name needs to fit in 46 bytes, and a file a free slot among 4096; a rename never takes a name in use. */
  function Apply(m: FileMap, op: Op): FileMap {
    match op
    case Store(name, data) =>
      if name in m || (|name| <= MAX_FILENAME_BYTES && |m| < SLOT_COUNT) then m[name := data] else m
    case Delete(name) => Drop(m, name)
    case Rename(a, b) =>
      if a in m && |b| <= MAX_FILENAME_BYTES && (b == a || b !in m) then Drop(m, a)[b := m[a]] else m
    case Reopen => m
  }

  function ApplyAll(m: FileMap, ops: seq<Op>): FileMap
    decreases |ops|
  {
    if ops == [] then m else ApplyAll(Apply(m, ops[0]), ops[1..])
  }

  lemma {:induction false} ApplyLast(m: FileMap, ops: seq<Op>, i: nat)
    requires i < |ops|
    ensures ApplyAll(m, ops[..i + 1]) == Apply(ApplyAll(m, ops[..i]), ops[i])
    decreases |ops|
  {
    hide Apply;
    if i > 0 {
      ApplyLast(Apply(m, ops[0]), ops[1..], i - 1);
      assert ops[..i + 1][1..] == ops[1..][..i] && ops[..i][1..] == ops[1..][..i - 1];
    } else {
      assert ops[..1][1..] == [] && ops[..0] == [];
    }
  }

  /**
   * What the operation makes of the blocks; a new file starts with the smallest block, and a
   * deleted one still counts.
   */
  function Spend(l: Ledger, op: Op): Ledger {
    match op
    case Store(name, data) =>
      if name in l.blocks then Held(l, name, data)
      else if |name| <= MAX_FILENAME_BYTES && |l.blocks| < SLOT_COUNT then
        var block := BlockFor(DATA_ALIGNMENT, data);
        Ledger(l.blocks[name := block], l.spent + 2 * block - DATA_ALIGNMENT)
      else l
    case Delete(name) => Ledger(Drop(l.blocks, name), l.spent)
    case Rename(a, b) =>
      if a in l.blocks && |b| <= MAX_FILENAME_BYTES && (b == a || b !in l.blocks)
      then Renamed(l, a, b) else l
    case Reopen => l
  }

  function SpendAll(l: Ledger, ops: seq<Op>): Ledger
    decreases |ops|
  {
    if ops == [] then l else SpendAll(Spend(l, ops[0]), ops[1..])
  }

  lemma {:induction false} SpendLast(l: Ledger, ops: seq<Op>, i: nat)
    requires i < |ops|
    ensures SpendAll(l, ops[..i + 1]) == Spend(SpendAll(l, ops[..i]), ops[i])
    decreases |ops|
  {
    hide Spend;
    if i > 0 {
      SpendLast(Spend(l, ops[0]), ops[1..], i - 1);
      assert ops[..i + 1][1..] == ops[1..][..i] && ops[..i][1..] == ops[1..][..i - 1];
    } else {
      assert ops[..1][1..] == [] && ops[..0] == [];
    }
  }

  /** A crash image shows the files before the operation or after it; amid a store, the file may be empty. */
  ghost predicate CrashShows(key: Key, image: seq<Cell>, m: FileMap, op: Op) {
    || DiskView(image, key) == m
    || DiskView(image, key) == Apply(m, op)
    || (op.Store? && DiskView(image, key) == m[op.name := []])
  }

  /** The flushes since `before` each show one of these. */
  ghost predicate CrashSafe(key: Key, before: seq<seq<Cell>>, images: seq<seq<Cell>>, m: FileMap, op: Op) {
    && |before| <= |images| && images[..|before|] == before
    && forall j :: |before| <= j < |images| ==> CrashShows(key, images[j], m, op)
  }

  /** How far an operation can move the end of the data area. */
  function Growth(op: Op): nat {
    if op.Store? then DATA_ALIGNMENT + PowerOfTwo.NextPowerOf2(BLOB_OVERHEAD + |op.data|) else 0
  }

  function TotalGrowth(ops: seq<Op>): nat {
    if ops == [] then 0 else Growth(ops[0]) + TotalGrowth(ops[1..])
  }

  /** The run keeps the host file within signed 64-bit sizes. */
  ghost predicate Fits(files: seq<FilePointer>, ops: seq<Op>) {
    && EndOfData(files) + TotalGrowth(ops) + MAX_PADDING + DATA_ALIGNMENT < TWO_63
    && forall i :: 0 <= i < |ops| && ops[i].Store? ==> BLOB_OVERHEAD + |ops[i].data| <= TWO_63
  }

  ghost function Spent(c: EncryptedVFSContainer): Ledger
    reads c`files, c.file`retired
  {
    LedgerOf(c.files, c.file.retired)
  }

  lemma SpentIs(c: EncryptedVFSContainer)
    ensures Spent(c) == LedgerOf(c.files, c.file.retired)
  {
  }

  /** An open container with no open files, on the key of this passphrase. */
  ghost predicate Idle(c: EncryptedVFSContainer, passphrase: Bytes)
    reads c, c.file
  {
    && c.Valid() && c.isOpen && c.openFiles == {} && HasMagic(c.file.cells)
       && c.key == DeriveKey(passphrase, c.file.cells)
  }

  // ------------------------------------------------------------------
  // One operation
  // ------------------------------------------------------------------

  /** Open for writing, truncated; write; close. */
  method StoreFile(c: EncryptedVFSContainer, passphrase: Bytes, name: Bytes, data: Bytes)
    requires Idle(c, passphrase) && Fits(c.files, [Store(name, data)])
    modifies c`files, c`openFiles, c.file`cells, c.file`images, c.file`handles
    ensures Idle(c, passphrase) && c.Shown() == Apply(old(c.Shown()), Store(name, data))
    ensures Spent(c) == Spend(old(Spent(c)), Store(name, data))
    ensures CrashSafe(c.key, old(c.file.images), c.file.images, old(c.Shown()), Store(name, data))
    ensures EndOfData(c.files) <= EndOfData(old(c.files)) + Growth(Store(name, data))
    ensures NothingForeign(old(c.file.cells), c.file.cells, c.key)
  {
    hide *;
    IdleParts(c, passphrase);
    StoreRoom(c.files, name, data);
    GrowthOfStore(name, data);
    CreatesIff(c, name, TRUNCATE);
    c.ShownIs();
    ghost var cells, f, shown, spent := c.file.cells, c.files, c.Shown(), Spent(c);
    SpentIs(c);
    c.OpenFacts();
    ReadWriteTruncate();
    var vf := c.OpenFile(name, TRUNCATE);
    Opened(cells, c.file.cells, c.key, f, c.files, old(c.file.images), c.file.images, name, data);
    OpenedCrash(cells, c.file.cells, c.key, f, c.files, old(c.file.images), c.file.images, name, data);
    ApplyStore(shown, name, data);
    c.OpenFacts();
    ConsistentParts(c.file.cells, c.key, c.files);
    StoreSpends(cells, c.file.cells, c.key, f, c.files, old(c.file.images), c.file.images, name, data, c.file.retired);
    if vf != null {
      HandedOut(c.file.cells, c.key, c.files, name, vf.slotIndex, vf.data);
      ghost var mid, g, images := c.file.cells, c.files, c.file.images;
      FreshParts(vf, c);
      WriteAll(vf, data);
      DirtyParts(vf, c);
      vf.Close();
      vf.Delete();
      StoreEnds(mid, c.file.cells, c.key, g, c.files, old(c.file.images), images, c.file.images,
                IndexOfSlot(g, vf.slotIndex), name, data, shown, c.file.retired);
      NothingForeignTrans(cells, mid, c.file.cells, c.key);
    }
    SpentIs(c);
    PublicPartCarries(cells, c.file.cells, c.key, passphrase);
    c.ShownIs();
    IdleAgain(c, passphrase);
  }

  /** The flush that ends a store. */
  lemma StoreEnds(c: seq<Cell>, e: seq<Cell>, key: Key, files: seq<FilePointer>, after: seq<FilePointer>,
                  start: seq<seq<Cell>>, before: seq<seq<Cell>>, images: seq<seq<Cell>>, k: int, name: Bytes, pt: Bytes,
                  m: FileMap, retired: seq<nat>)
    requires StoredSafely(c, e, key, files, after, before, images, k, pt) && files[k].filename == name
    requires DiskView(c, key) in {m, m[name := []]} && Apply(m, Store(name, pt)) == m[name := pt]
    requires CrashSafe(key, start, before, m, Store(name, pt)) && AllCompatible(files)
    ensures DiskView(e, key) == DiskView(c, key)[name := pt]
    ensures CrashSafe(key, start, images, m, Store(name, pt))
    ensures EndOfData(after) <= EndOfData(files) + PowerOfTwo.NextPowerOf2(BLOB_OVERHEAD + |pt|)
    ensures NothingForeign(c, e, key)
    ensures name in LedgerOf(files, retired).blocks
    ensures LedgerOf(after, retired) == Held(LedgerOf(files, retired), name, pt)
  {
    hide *;
    StoredShape(c, e, key, files, after, before, images, k, pt);
    StoredCrash(c, e, key, files, after, before, images, k, pt, m);
    CrashTogether(key, start, before, images, m, Store(name, pt));
    StoredOwn(c, e, key, files, after, before, images, k, pt);
    StoredLedger(c, e, key, files, after, before, images, k, pt, retired);
  }

  lemma ReadWriteTruncate()
    ensures TRUNCATE.read && TRUNCATE.write && TRUNCATE.truncate
  {
  }

  /** The blocks after opening and after storing are those the whole operation spends. */
  lemma OpenedAndStored(l: Ledger, mid: Ledger, name: Bytes, data: Bytes)
    requires name in l.blocks || (|name| <= MAX_FILENAME_BYTES && |l.blocks| < SLOT_COUNT)
    requires mid == if name in l.blocks then l else Ledger(l.blocks[name := DATA_ALIGNMENT], l.spent + DATA_ALIGNMENT)
    ensures Held(mid, name, data) == Spend(l, Store(name, data))
  {
    hide BlockFor;
    var block := BlockFor(DATA_ALIGNMENT, data);
    if name !in l.blocks { assert l.blocks[name := DATA_ALIGNMENT][name := block] == l.blocks[name := block]; }
  }

  lemma NothingStored(l: Ledger, name: Bytes, data: Bytes)
    requires name !in l.blocks && !(|name| <= MAX_FILENAME_BYTES && |l.blocks| < SLOT_COUNT)
    ensures Spend(l, Store(name, data)) == l
  {
  }

  /** The ledger lists the files a fresh open shows. */
  lemma LedgerNames(c: seq<Cell>, key: Key, files: seq<FilePointer>, retired: seq<nat>)
    requires Consistent(c, key, files)
    ensures LedgerOf(files, retired).blocks.Keys == DiskView(c, key).Keys
    ensures |LedgerOf(files, retired).blocks| == |DiskView(c, key)|
  {
    hide *;
    LedgerParts(files, retired);
    BlockNames(files);
    ReloadAgrees(c, key, files);
    ViewNames(c, key, files);
    MapSize(BlockMap(files));
    MapSize(DiskView(c, key));
  }

  /** Opening takes the smallest block when it creates the file, and none otherwise. */
  lemma OpenedLedger(c: seq<Cell>, e: seq<Cell>, key: Key, files: seq<FilePointer>, after: seq<FilePointer>,
                     before: seq<seq<Cell>>, images: seq<seq<Cell>>, name: Bytes, retired: seq<nat>)
    requires Resolved(c, e, key, files, after, before, images, name, TRUNCATE)
    requires AllCompatible(files) && AllCompatible(after)
    ensures var l := LedgerOf(files, retired);
            LedgerOf(after, retired)
            == if name !in DiskView(c, key) && CanCreate(files, name, TRUNCATE)
               then Ledger(l.blocks[name := DATA_ALIGNMENT], l.spent + DATA_ALIGNMENT) else l
  {
    hide DiskView, EndOfData, CanCreate, AllCompatible, LedgerOf, SameHeaderBut;
    if name !in DiskView(c, key) && CanCreate(files, name, TRUNCATE) {
      assert after == files + [after[|files|]];
      LedgerAdded(files, after[|files|], retired);
    }
  }

  /** What opening and storing together spend. */
  lemma StoreSpends(c: seq<Cell>, e: seq<Cell>, key: Key, files: seq<FilePointer>, after: seq<FilePointer>,
                    before: seq<seq<Cell>>, images: seq<seq<Cell>>, name: Bytes, data: Bytes, retired: seq<nat>)
    requires Consistent(c, key, files) && AllCompatible(after)
    requires Resolved(c, e, key, files, after, before, images, name, TRUNCATE)
    ensures Available(DiskView(c, key), files, name, TRUNCATE) ==>
              Held(LedgerOf(after, retired), name, data) == Spend(LedgerOf(files, retired), Store(name, data))
    ensures !Available(DiskView(c, key), files, name, TRUNCATE) ==>
              LedgerOf(after, retired) == Spend(LedgerOf(files, retired), Store(name, data))
  {
    hide *;
    ReadWriteTruncate();
    ConsistentParts(c, key, files);
    CreatableIff(c, key, files, name, TRUNCATE);
    LedgerNames(c, key, files, retired);
    AvailableIs(DiskView(c, key), files, name, TRUNCATE);
    var l := LedgerOf(files, retired);
    assert name in l.blocks <==> name in DiskView(c, key);
    if Available(DiskView(c, key), files, name, TRUNCATE) {
      OpenedLedger(c, e, key, files, after, before, images, name, retired);
      OpenedAndStored(l, LedgerOf(after, retired), name, data);
    } else {
      NothingOpened(c, e, key, files, after, before, images, name);
      NothingStored(l, name, data);
    }
  }

  lemma NothingOpened(c: seq<Cell>, e: seq<Cell>, key: Key, files: seq<FilePointer>, after: seq<FilePointer>,
                      before: seq<seq<Cell>>, images: seq<seq<Cell>>, name: Bytes)
    requires Resolved(c, e, key, files, after, before, images, name, TRUNCATE)
    requires !Available(DiskView(c, key), files, name, TRUNCATE)
    ensures after == files
  {
    hide DiskView, EndOfData, CanCreate;
  }

  lemma IdleParts(c: EncryptedVFSContainer, passphrase: Bytes)
    requires Idle(c, passphrase)
    ensures c.Valid() && c.isOpen && c.openFiles == {} && HasMagic(c.file.cells)
            && c.key == DeriveKey(passphrase, c.file.cells)
    ensures !c.freed
  {
  }

  lemma IdleAgain(c: EncryptedVFSContainer, passphrase: Bytes)
    requires c.Valid() && c.isOpen && c.openFiles == {} && HasMagic(c.file.cells)
             && c.key == DeriveKey(passphrase, c.file.cells)
    ensures Idle(c, passphrase)
  {
  }

  lemma StoreRoom(files: seq<FilePointer>, name: Bytes, data: Bytes)
    requires Fits(files, [Store(name, data)])
    ensures Room(files, []) && BLOB_OVERHEAD + |data| <= TWO_63
    ensures forall g: seq<FilePointer> :: EndOfData(g) <= EndOfData(files) + DATA_ALIGNMENT ==> Room(g, data)
  {
    hide *;
    FitsOne(files, name, data);
    forall g: seq<FilePointer> | EndOfData(g) <= EndOfData(files) + DATA_ALIGNMENT ensures Room(g, data) {
      RoomLater(files, g, data);
    }
  }

  lemma FitsOne(files: seq<FilePointer>, name: Bytes, data: Bytes)
    requires Fits(files, [Store(name, data)])
    ensures EndOfData(files) + DATA_ALIGNMENT + PowerOfTwo.NextPowerOf2(BLOB_OVERHEAD + |data|) + MAX_PADDING
            + DATA_ALIGNMENT < TWO_63
    ensures BLOB_OVERHEAD + |data| <= TWO_63 && Room(files, [])
  {
    hide EndOfData;
    var op := Store(name, data);
    assert [op][0] == op && [op][1..] == [];
    assert TotalGrowth([op]) == Growth(op);
    SmallBlock();
    hide PowerOfTwo.NextPowerOf2;
  }

  lemma RoomLater(files: seq<FilePointer>, g: seq<FilePointer>, data: Bytes)
    requires EndOfData(files) + DATA_ALIGNMENT + PowerOfTwo.NextPowerOf2(BLOB_OVERHEAD + |data|) + MAX_PADDING
             + DATA_ALIGNMENT < TWO_63
    requires BLOB_OVERHEAD + |data| <= TWO_63 && EndOfData(g) <= EndOfData(files) + DATA_ALIGNMENT
    ensures Room(g, data)
  {
    hide EndOfData, PowerOfTwo.NextPowerOf2;
  }

  lemma GrowthOfStore(name: Bytes, data: Bytes)
    ensures Growth(Store(name, data)) == DATA_ALIGNMENT + PowerOfTwo.NextPowerOf2(BLOB_OVERHEAD + |data|)
  {
  }

  lemma Opened(c: seq<Cell>, e: seq<Cell>, key: Key, files: seq<FilePointer>, after: seq<FilePointer>,
               before: seq<seq<Cell>>, images: seq<seq<Cell>>, name: Bytes, data: Bytes)
    requires Resolved(c, e, key, files, after, before, images, name, TRUNCATE) && HEADER_OFFSET <= |c|
    ensures NothingForeign(c, e, key)
    ensures EndOfData(after) <= EndOfData(files) + DATA_ALIGNMENT
    ensures Available(DiskView(c, key), files, name, TRUNCATE) ==>
              DiskView(e, key)[name := data] == DiskView(c, key)[name := data]
    ensures !Available(DiskView(c, key), files, name, TRUNCATE) ==> DiskView(e, key) == DiskView(c, key)
    ensures Available(DiskView(c, key), files, name, TRUNCATE)
            <==> name in DiskView(c, key) || CanCreate(files, name, TRUNCATE)
  {
    ResolvedOwn(c, e, key, files, after, before, images, name, TRUNCATE);
    hide DiskView, EndOfData, CanCreate, NothingForeign, DecodeSlot;
  }

  /** Up to here a crash shows the files as they were, or with the new one empty. */
  lemma OpenedCrash(c: seq<Cell>, e: seq<Cell>, key: Key, files: seq<FilePointer>, after: seq<FilePointer>,
                    before: seq<seq<Cell>>, images: seq<seq<Cell>>, name: Bytes, data: Bytes)
    requires Resolved(c, e, key, files, after, before, images, name, TRUNCATE)
    ensures CrashSafe(key, before, images, DiskView(c, key), Store(name, data))
    ensures DiskView(e, key) in {DiskView(c, key), DiskView(c, key)[name := []]}
  {
    hide DiskView, EndOfData, CanCreate, Apply;
    forall j | |before| <= j < |images| ensures CrashShows(key, images[j], DiskView(c, key), Store(name, data)) {
    }
  }

  /** From there on it shows one of these, or the new contents. */
  lemma StoredCrash(c: seq<Cell>, e: seq<Cell>, key: Key, files: seq<FilePointer>, after: seq<FilePointer>,
                    before: seq<seq<Cell>>, images: seq<seq<Cell>>, k: int, pt: Bytes, m: FileMap)
    requires StoredSafely(c, e, key, files, after, before, images, k, pt)
    requires var name := files[k].filename;
             DiskView(c, key) in {m, m[name := []]} && Apply(m, Store(name, pt)) == m[name := pt]
    ensures CrashSafe(key, before, images, m, Store(files[k].filename, pt))
  {
    hide DiskView, EndOfData, Stored, Apply, Atomic;
    var name := files[k].filename;
    forall j | |before| <= j < |images| ensures CrashShows(key, images[j], m, Store(name, pt)) {
      assert images[j] == images[|before|..][j - |before|];
      ImageShows(images[j], key, DiskView(c, key), files[k], pt, m);
    }
  }

  lemma ImageShows(image: seq<Cell>, key: Key, v: FileMap, fp: FilePointer, pt: Bytes, m: FileMap)
    requires OldOrNew(image, key, v, fp.filename, pt) || DiskView(image, key) == HalfwayView(v, fp, pt)
    requires v in {m, m[fp.filename := []]} && Apply(m, Store(fp.filename, pt)) == m[fp.filename := pt]
    ensures CrashShows(key, image, m, Store(fp.filename, pt))
  {
    hide DiskView, Apply;
    var name := fp.filename;
    assert m[name := []][name := pt] == m[name := pt] && m[name := []][name := []] == m[name := []];
  }

  lemma CrashTogether(key: Key, a: seq<seq<Cell>>, b: seq<seq<Cell>>, d: seq<seq<Cell>>, m: FileMap, op: Op)
    requires CrashSafe(key, a, b, m, op) && CrashSafe(key, b, d, m, op)
    ensures CrashSafe(key, a, d, m, op)
  {
    hide CrashShows;
    forall j | |a| <= j < |d| ensures CrashShows(key, d[j], m, op) {
      if j < |b| { assert d[j] == d[..|b|][j] == b[j]; }
    }
    assert d[..|a|] == d[..|b|][..|a|] == b[..|a|];
  }

  /** One more flush, of the final state, or none. */
  lemma LastImage(key: Key, before: seq<seq<Cell>>, images: seq<seq<Cell>>, cells: seq<Cell>, m: FileMap, op: Op)
    requires images == before || images == before + [cells]
    requires DiskView(cells, key) == Apply(m, op)
    ensures CrashSafe(key, before, images, m, op)
  {
    hide DiskView, Apply;
  }

  lemma ApplyStore(m: FileMap, name: Bytes, data: Bytes)
    ensures Apply(m, Store(name, data))
         == if name in m || (|name| <= MAX_FILENAME_BYTES && |m| < SLOT_COUNT) then m[name := data] else m
  {
  }

  lemma HandedOut(e: seq<Cell>, key: Key, files: seq<FilePointer>, name: Bytes, slot: int, data: Bytes)
    requires HandsOut(e, key, files, name, TRUNCATE, slot, data)
    ensures IndexOfSlot(files, slot) >= 0 && files[IndexOfSlot(files, slot)].filename == name && data == []
  {
    hide DiskView, IndexOfSlot;
  }

  lemma FreshParts(vf: VirtualFile, c: EncryptedVFSContainer)
    requires vf.Fresh(c, TRUNCATE)
    ensures !vf.freed && vf.isOpen && vf.mode.write && vf.pos == 0 && vf.container == c && vf.mode == TRUNCATE
  {
  }

  /** All of the contents, from the start of an empty buffer. */
  method WriteAll(vf: VirtualFile, data: Bytes)
    requires !vf.freed && vf.isOpen && vf.mode.write && vf.pos == 0 && vf.data == []
    modifies vf`data, vf`pos, vf`dirty
    ensures vf.data == data && vf.dirty
  {
    var written := vf.Write(data);
    assert [][..0] + data + [] == data;
  }

  lemma DirtyParts(vf: VirtualFile, c: EncryptedVFSContainer)
    requires vf.container == c && !vf.freed && vf.dirty && c.Valid() && c.isOpen
    ensures vf.Flushes() && vf.Containers() == {c} && vf.HostFiles() == {c.file}
    ensures Room(c.files, vf.data) ==> vf.Writable()
  {
    hide Room;
  }

  method DeleteByName(c: EncryptedVFSContainer, passphrase: Bytes, name: Bytes)
    requires Idle(c, passphrase)
    modifies c`files, c.file`cells, c.file`images, c.file`retired
    ensures Idle(c, passphrase) && c.Shown() == Apply(old(c.Shown()), Delete(name))
    ensures Spent(c) == Spend(old(Spent(c)), Delete(name))
    ensures CrashSafe(c.key, old(c.file.images), c.file.images, old(c.Shown()), Delete(name))
    ensures EndOfData(c.files) <= EndOfData(old(c.files))
    ensures NothingForeign(old(c.file.cells), c.file.cells, c.key)
  {
    hide *;
    IdleParts(c, passphrase);
    PublicPartFirst();
    ghost var cells, f := c.file.cells, c.files;
    SpentIs(c);
    c.OpenFacts();
    ConsistentParts(cells, c.key, f);
    LedgerNames(cells, c.key, f, c.file.retired);
    SpendDelete(Spent(c), name);
    ghost var k := IndexOfName(f, name);
    if k >= 0 {
      EndAfterRemove(f, k);
      WithoutCompatible(f, k);
      LedgerRemoved(f, k, c.file.retired);
    } else {
      c.ShownAt(name);
      c.ShownIs();
      DropMissing(Spent(c).blocks, name);
    }
    var ok := c.DeleteFile(name);
    PublicPartCarries(cells, c.file.cells, c.key, passphrase);
    SpentIs(c);
    if k >= 0 { NameFoundAt(f, name); } else { assert c.file.retired == old(c.file.retired); }
    ApplyDelete(old(c.Shown()), name);
    c.ShownIs();
    LastImage(c.key, old(c.file.images), c.file.images, c.file.cells, old(c.Shown()), Delete(name));
    IdleAgain(c, passphrase);
  }

  lemma NameFoundAt(files: seq<FilePointer>, name: Bytes)
    requires IndexOfName(files, name) >= 0
    ensures files[IndexOfName(files, name)].filename == name
  {
    hide IndexOfName;
  }

  lemma SpendDelete(l: Ledger, name: Bytes)
    ensures Spend(l, Delete(name)) == Ledger(Drop(l.blocks, name), l.spent)
  {
  }

  lemma ApplyDelete(m: FileMap, name: Bytes)
    ensures Apply(m, Delete(name)) == Drop(m, name)
  {
  }

  /** Renames unless the new name is another file's. */
  method RenameByName(c: EncryptedVFSContainer, passphrase: Bytes, oldName: Bytes, newName: Bytes)
    requires Idle(c, passphrase)
    modifies c`files, c.file`cells, c.file`images
    ensures Idle(c, passphrase) && c.Shown() == Apply(old(c.Shown()), Rename(oldName, newName))
    ensures Spent(c) == Spend(old(Spent(c)), Rename(oldName, newName))
    ensures CrashSafe(c.key, old(c.file.images), c.file.images, old(c.Shown()), Rename(oldName, newName))
    ensures EndOfData(c.files) <= EndOfData(old(c.files))
    ensures NothingForeign(old(c.file.cells), c.file.cells, c.key)
  {
    hide *;
    IdleParts(c, passphrase);
    PublicPartFirst();
    ghost var cells, f := c.file.cells, c.files;
    c.ShownAt(newName);
    c.ShownAt(oldName);
    ApplyRename(c.Shown(), oldName, newName);
    c.ShownIs();
    SpentIs(c);
    c.OpenFacts();
    ConsistentParts(cells, c.key, f);
    LedgerNames(cells, c.key, f, c.file.retired);
    SpendRename(Spent(c), oldName, newName);
    var taken := c.FindFileSlot(newName);
    if taken >= 0 && newName != oldName {
      LastImage(c.key, c.file.images, c.file.images, cells, c.Shown(), Rename(oldName, newName));
      NothingForeignSelf(cells, c.key);
      return;
    }
    var ok := c.RenameFile(oldName, newName);
    PublicPartCarries(cells, c.file.cells, c.key, passphrase);
    ghost var k := IndexOfName(f, oldName);
    if ok && k >= 0 {
      EndAfterRename(f, k, newName);
      NameFoundAt(f, oldName);
      c.OpenFacts();
      ConsistentParts(c.file.cells, c.key, c.files);
      RenamedLedger(f, k, newName, c.file.retired);
    }
    SpentIs(c);
    c.ShownIs();
    LastImage(c.key, old(c.file.images), c.file.images, c.file.cells, old(c.Shown()), Rename(oldName, newName));
    IdleAgain(c, passphrase);
  }

  lemma RenamedLedger(files: seq<FilePointer>, k: nat, name: Bytes, retired: seq<nat>)
    requires k < |files| && AllCompatible(files) && AllCompatible(files[k := files[k].(filename := name)])
    ensures LedgerOf(files[k := files[k].(filename := name)], retired)
         == Renamed(LedgerOf(files, retired), files[k].filename, name)
  {
    hide LedgerOf, AllCompatible;
    LedgerReplaced(files, k, files[k].(filename := name), retired);
  }

  lemma SpendRename(l: Ledger, a: Bytes, b: Bytes)
    ensures Spend(l, Rename(a, b))
         == if a in l.blocks && |b| <= MAX_FILENAME_BYTES && (b == a || b !in l.blocks) then Renamed(l, a, b) else l
  {
  }

  lemma ApplyRename(m: FileMap, a: Bytes, b: Bytes)
    ensures Apply(m, Rename(a, b))
         == if a in m && |b| <= MAX_FILENAME_BYTES && (b == a || b !in m) then Drop(m, a)[b := m[a]] else m
  {
  }

  lemma EndAfterRename(files: seq<FilePointer>, k: nat, name: Bytes)
    requires k < |files|
    ensures EndOfData(files[k := files[k].(filename := name)]) <= EndOfData(files)
  {
    hide EndOfData;
    EndAfterReplace(files, k, files[k].(filename := name));
  }

  /** Close, then open with the same passphrase. */
  method CloseAndOpen(c: EncryptedVFSContainer, passphrase: Bytes)
    requires Idle(c, passphrase)
    modifies c`files, c`openFiles, c`key, c`isOpen, c.file`cells, c.file`images
    ensures Idle(c, passphrase) && c.Shown() == old(c.Shown()) && EndOfData(c.files) <= EndOfData(old(c.files))
    ensures c.file.cells == old(c.file.cells) && c.file.images == old(c.file.images) && c.key == old(c.key)
    ensures Spent(c) == old(Spent(c))
  {
    hide *;
    IdleParts(c, passphrase);
    c.OpenFacts();
    c.ShownIs();
    ghost var cells, key, f := c.file.cells, c.key, c.files;
    SpentIs(c);
    ReloadedLedger(cells, key, f, c.file.retired);
    NoOpenFiles(c);
    NothingDirty(c);
    ghost var done := c.Close(0, {});
    SoundIsPresent(c.file, c.key);
    var ok := c.OpenExisting(passphrase, HostFaults(false, false, 0));
    EndAfterReload(cells, key, f);
    SpentIs(c);
    c.ShownIs();
    IdleAgain(c, passphrase);
  }

  lemma NoOpenFiles(c: EncryptedVFSContainer)
    requires c.openFiles == {}
    ensures c.Flushable(c.files, c.openFiles, 0) && 0 < TWO_63
  {
  }

  lemma SoundIsPresent(file: HostFile, key: Key)
    requires file.Sound(key)
    ensures file.present
  {
  }

  // ------------------------------------------------------------------
  // Any run
  // ------------------------------------------------------------------

  method Perform(c: EncryptedVFSContainer, passphrase: Bytes, op: Op)
    requires Idle(c, passphrase) && Fits(c.files, [op])
    modifies c`files, c`openFiles, c`key, c`isOpen
    modifies c.file`cells, c.file`images, c.file`retired, c.file`handles
    ensures Idle(c, passphrase) && c.key == old(c.key) && c.Shown() == Apply(old(c.Shown()), op)
    ensures Spent(c) == Spend(old(Spent(c)), op)
    ensures CrashSafe(c.key, old(c.file.images), c.file.images, old(c.Shown()), op)
    ensures EndOfData(c.files) <= EndOfData(old(c.files)) + Growth(op)
    ensures NothingForeign(old(c.file.cells), c.file.cells, c.key)
  {
    hide *;
    match op
    case Store(name, data) => StoreFile(c, passphrase, name, data);
    case Delete(name) => DeleteByName(c, passphrase, name);
    case Rename(a, b) => RenameByName(c, passphrase, a, b);
    case Reopen =>
      ApplyReopen(c.Shown(), Spent(c));
      IdleHeader(c, passphrase);
      NothingForeignSelf(c.file.cells, c.key);
      CloseAndOpen(c, passphrase);
      c.ShownIs();
      LastImage(c.key, c.file.images, c.file.images, c.file.cells, c.Shown(), Reopen);
  }

  lemma IdleHeader(c: EncryptedVFSContainer, passphrase: Bytes)
    requires Idle(c, passphrase)
    ensures HEADER_OFFSET <= |c.file.cells|
  {
  }

  lemma ApplyReopen(m: FileMap, l: Ledger)
    ensures Apply(m, Reopen) == m && Spend(l, Reopen) == l
  {
  }

  lemma FitsSplit(files: seq<FilePointer>, ops: seq<Op>, i: nat)
    requires i < |ops| && Fits(files, ops[i..])
    ensures Fits(files, [ops[i]])
    ensures forall g: seq<FilePointer> :: EndOfData(g) <= EndOfData(files) + Growth(ops[i]) ==> Fits(g, ops[i + 1..])
  {
    hide EndOfData, Growth;
    assert ops[i..][0] == ops[i] && ops[i..][1..] == ops[i + 1..];
    assert [ops[i]][0] == ops[i] && [ops[i]][1..] == [];
    assert TotalGrowth([ops[i]]) == Growth(ops[i]);
    var rest := ops[i + 1..];
    forall j | 0 <= j < |rest| && rest[j].Store? ensures BLOB_OVERHEAD + |rest[j].data| <= TWO_63 {
      assert rest[j] == ops[i..][j + 1];
    }
  }

  /** A crash image is explained by one of the first n operations of the run. */
  ghost predicate Explained(key: Key, image: seq<Cell>, m: FileMap, ops: seq<Op>, n: nat)
    requires n <= |ops|
  {
    exists i :: 0 <= i < n && CrashShows(key, image, ApplyAll(m, ops[..i]), ops[i])
  }

  ghost predicate AllExplained(key: Key, before: seq<seq<Cell>>, images: seq<seq<Cell>>, m: FileMap, ops: seq<Op>,
                               n: nat)
    requires n <= |ops|
  {
    && |before| <= |images| && images[..|before|] == before
    && forall j :: |before| <= j < |images| ==> Explained(key, images[j], m, ops, n)
  }

  lemma NothingToExplain(key: Key, before: seq<seq<Cell>>, m: FileMap, ops: seq<Op>)
    ensures AllExplained(key, before, before, m, ops, 0) && ApplyAll(m, ops[..0]) == m
  {
  }

  lemma OneMoreExplained(key: Key, before: seq<seq<Cell>>, mid: seq<seq<Cell>>, images: seq<seq<Cell>>, m: FileMap,
                         ops: seq<Op>, i: nat)
    requires i < |ops| && AllExplained(key, before, mid, m, ops, i)
    requires CrashSafe(key, mid, images, ApplyAll(m, ops[..i]), ops[i])
    ensures AllExplained(key, before, images, m, ops, i + 1)
  {
    hide CrashShows, ApplyAll;
    forall j | |before| <= j < |images| ensures Explained(key, images[j], m, ops, i + 1) {
      if j < |mid| {
        assert images[j] == images[..|mid|][j] == mid[j];
        assert Explained(key, mid[j], m, ops, i);
      }
    }
    assert images[..|before|] == images[..|mid|][..|before|] == mid[..|before|];
  }

  /** Where the data area and the file end, with `spent` on all files ever created. */
  ghost predicate Bounded(cells: seq<Cell>, files: seq<FilePointer>, initial: nat, spent: int) {
    && EndOfData(files) <= DATA_START + spent
    && (|cells| <= initial || |cells| < DATA_START + spent + MAX_PADDING + DATA_ALIGNMENT)
  }

  lemma BoundedNow(c: EncryptedVFSContainer)
    requires c.Valid() && c.isOpen
    ensures SpaceBound(c.file.cells, c.files, c.file.retired, c.file.initialSize)
    ensures Bounded(c.file.cells, c.files, c.file.initialSize, Spent(c).spent)
  {
    hide *;
    c.OpenFacts();
    BudgetIsBound(c.file.cells, c.key, c.files, c.file.retired, c.file.initialSize);
    SpentIs(c);
    LedgerParts(c.files, c.file.retired);
    BoundMeans(c.file.cells, c.files, c.file.retired, c.file.initialSize);
  }

  lemma BoundMeans(cells: seq<Cell>, files: seq<FilePointer>, retired: seq<nat>, initial: nat)
    ensures SpaceBound(cells, files, retired, initial)
            <==> Bounded(cells, files, initial, Charge(BlockSizes(files) + retired))
  {
    hide Charge, BlockSizes, EndOfData;
  }

  /**
   * Any run of operations on an open container, closing and opening included,
   * leaves what the same run leaves in a map; a crash at any flush of the run
   * leaves what some prefix of it does, but for the file being stored, which
   * may be empty; and the space it takes is bounded by what the run spends on
   * the files it ever created and those there were.
   */
  method Run(c: EncryptedVFSContainer, passphrase: Bytes, ops: seq<Op>)
    requires Idle(c, passphrase) && Fits(c.files, ops)
    modifies c`files, c`openFiles, c`key, c`isOpen
    modifies c.file`cells, c.file`images, c.file`retired, c.file`handles
    ensures Idle(c, passphrase) && c.key == old(c.key) && c.Shown() == ApplyAll(old(c.Shown()), ops)
    ensures AllExplained(c.key, old(c.file.images), c.file.images, old(c.Shown()), ops, |ops|)
    ensures Spent(c) == SpendAll(old(Spent(c)), ops)
    ensures Bounded(c.file.cells, c.files, c.file.initialSize, SpendAll(old(Spent(c)), ops).spent)
    ensures NothingForeign(old(c.file.cells), c.file.cells, c.key)
  {
    hide *;
    ghost var m, l, before := c.Shown(), Spent(c), c.file.images;
    NothingToExplain(c.key, before, m, ops);
    NothingSpent(l, ops);
    IdleHeader(c, passphrase);
    NothingForeignSelf(c.file.cells, c.key);
    assert ops[0..] == ops;
    for i := 0 to |ops|
      invariant Idle(c, passphrase) && c.key == old(c.key) && Fits(c.files, ops[i..])
      invariant c.Shown() == ApplyAll(m, ops[..i])
      invariant AllExplained(c.key, before, c.file.images, m, ops, i)
      invariant Spent(c) == SpendAll(l, ops[..i])
      invariant NothingForeign(old(c.file.cells), c.file.cells, c.key)
    {
      ghost var mid, cells := c.file.images, c.file.cells;
      FitsSplit(c.files, ops, i);
      ApplyLast(m, ops, i);
      SpendLast(l, ops, i);
      Perform(c, passphrase, ops[i]);
      NothingForeignTrans(old(c.file.cells), cells, c.file.cells, c.key);
      OneMoreExplained(c.key, before, mid, c.file.images, m, ops, i);
    }
    assert ops[..|ops|] == ops;
    IdleParts(c, passphrase);
    BoundedNow(c);
  }

  lemma NothingSpent(l: Ledger, ops: seq<Op>)
    ensures SpendAll(l, ops[..0]) == l
  {
  }

  lemma NothingDirty(c: EncryptedVFSContainer)
    requires c.openFiles == {}
    ensures EncryptedVFSContainer.Dirty(c.openFiles, {})
  {
  }

  lemma NothingShownYet(cells: seq<Cell>, key: Key)
    requires Loaded(cells, key) == []
    ensures DiskView(cells, key) == map[] && LedgerOf(Loaded(cells, key), []) == Ledger(map[], 0)
  {
    hide Loaded, DecodeSlot;
    assert BlockSizes([]) + [] == [];
  }

  /** Under this passphrase the container has no files. */
  ghost predicate ShowsNothing(cells: seq<Cell>, passphrase: Bytes) {
    HEADER_OFFSET <= |cells| && Loaded(cells, DeriveKey(passphrase, cells)) == []
  }

  lemma OtherPassphrase(c: seq<Cell>, e: seq<Cell>, p: Bytes, q: Bytes)
    requires p != q && HEADER_OFFSET <= |e| && NothingForeign(c, e, DeriveKey(p, e))
    requires forall k: Key :: Loaded(c, k) == []
    ensures ShowsNothing(e, q)
  {
    hide DeriveKey, Loaded, NothingForeign;
    DeriveKeyIff(p, e, q, e);
    LoadsNothingStill(c, e, DeriveKey(p, e), DeriveKey(q, e));
  }

  /** The states a crash can leave behind from the creation of the container on. */
  ghost predicate CrashesExplained(key: Key, before: seq<seq<Cell>>, images: seq<seq<Cell>>, ops: seq<Op>) {
    && |before| < |images| && images[..|before|] == before && DiskView(images[|before|], key) == map[]
    && AllExplained(key, images[..|before| + 1], images, map[], ops, |ops|)
  }

  lemma CrashesAre(key: Key, before: seq<seq<Cell>>, image: seq<Cell>, images: seq<seq<Cell>>, ops: seq<Op>)
    requires DiskView(image, key) == map[] && AllExplained(key, before + [image], images, map[], ops, |ops|)
    ensures CrashesExplained(key, before, images, ops) && |before| < |images| && images[|before|] == image
  {
    hide DiskView, Explained;
    var start := before + [image];
    assert images[..|before| + 1] == start && images[..|before|] == start[..|before|] == before;
    assert images[|before|] == start[|before|];
  }

  /**
   * A container made from nothing, which succeeds exactly when its smallest
   * size is within bounds and nothing outside it fails, and put through a run:
   * it shows what the run makes of the empty map, the crash states are those
   * of the run, and the space taken is bounded by the run alone.
   */
  method FromScratch(file: HostFile, passphrase: Bytes, maxSize: nat, faults: HostFaults, ops: seq<Op>)
    returns (ok: bool, c: EncryptedVFSContainer)
    requires !file.present && faults.freeSpace < TWO_63 && Fits([], ops)
    modifies file
    ensures fresh(c) && c.file == file
    ensures ok <==> Ceiling(maxSize, faults.freeSpace) >= MIN_CONTAINER && !faults.openFails && !faults.kdfFails
    ensures ok ==> Idle(c, passphrase) && c.Shown() == ApplyAll(map[], ops)
    ensures ok ==> CrashesExplained(c.key, old(file.images), file.images, ops)
    ensures ok ==> Spent(c) == SpendAll(Ledger(map[], 0), ops)
    ensures ok ==> Bounded(file.cells, c.files, file.initialSize, SpendAll(Ledger(map[], 0), ops).spent)
    ensures ok ==> |old(file.images)| < |file.images| && file.initialSize == |file.images[|old(file.images)|]|
    ensures ok ==> file.initialSize < Ceiling(maxSize, faults.freeSpace) + DATA_ALIGNMENT
    ensures ok ==> forall q :: q != passphrase ==> ShowsNothing(file.cells, q)
  {
    hide *;
    c := new EncryptedVFSContainer(file, Key([], []));
    NothingDirty(c);
    ghost var done;
    ok, done := c.Open(passphrase, maxSize, faults, 0, {});
    if ok {
      NothingShownYet(file.cells, c.key);
      c.ShownIs();
      SpentIs(c);
      IdleAgain(c, passphrase);
      ghost var image := file.cells;
      Run(c, passphrase, ops);
      CrashesAre(c.key, old(file.images), image, file.images, ops);
      IdleParts(c, passphrase);
      forall q | q != passphrase ensures ShowsNothing(file.cells, q) {
        OtherPassphrase(image, file.cells, passphrase, q);
      }
    }
  }
}
