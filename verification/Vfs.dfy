/** The container object, its open in-memory files, and the host file they share. */
module Vfs {
  import opened Sequences
  import opened Bytes
  import opened Aead
  import opened FilePointerCodec
  import opened ContainerImage
  import opened ContainerSteps
  import opened KeySeparation
  import opened ContainerOutcomes
  import opened SpaceLedger
  import PowerOfTwo

  /** Bytes from the system's random source. */
  method RandomBytes(n: nat) returns (r: Bytes)
    ensures |r| == n
  {
    assert |Zeros(n)| == n;
    r :| |r| == n;
  }

  /**
   * A *.vfs file on the host.  `images` records its contents at every flush:
   * the states a crash can leave behind.  `retired`, the blocks of deleted
   * files, and `initialSize` are the bookkeeping of the space bound;
   * `containers` and `handles` are the objects ever made on the file.
   */
  class HostFile {
    var present: bool
    var cells: seq<Cell>
    ghost var images: seq<seq<Cell>>
    ghost var retired: seq<nat>
    ghost var initialSize: nat
    ghost var containers: set<EncryptedVFSContainer>
    ghost var handles: set<VirtualFile>

    constructor Absent()
      ensures !present && cells == [] && containers == {} && handles == {}
    {
      present := false;
      cells := [];
      images := [];
      retired := [];
      initialSize := 0;
      containers := {};
      handles := {};
    }

    method Write(off: nat, data: seq<Cell>)
      modifies this`cells
      ensures cells == Overwrite(old(cells), off, data)
    {
      cells := Overwrite(cells, off, data);
    }

    method Resize(size: nat)
      requires |cells| <= size
      modifies this`cells
      ensures cells == Extend(old(cells), size)
    {
      cells := Extend(cells, size);
    }

    method Flush()
      modifies this`images
      ensures images == old(images) + [cells]
    {
      images := images + [cells];
    }

    /** What the key's files need of the host file to be read back. */
    ghost predicate Sound(key: Key)
      reads this`present, this`cells, this`retired, this`initialSize
    {
      && present
      && Consistent(cells, key, Loaded(cells, key))
      && Budget(cells, key, Loaded(cells, key), Charge(retired), initialSize)
    }
  }

  /** Open mode flags; QIODevice::ReadWrite sets the first two. */
  datatype OpenMode = OpenMode(read: bool, write: bool, truncate: bool)
  const READ_WRITE := OpenMode(true, true, false)

  function FirstFreeSlotFrom(files: seq<FilePointer>, from: nat): (r: int)
    requires from <= SLOT_COUNT
    ensures r == -1 || (from <= r < SLOT_COUNT && IndexOfSlot(files, r) < 0)
    ensures r == -1 ==> forall i :: from <= i < SLOT_COUNT ==> IndexOfSlot(files, i) >= 0
    decreases SLOT_COUNT - from
  {
    if from == SLOT_COUNT then -1
    else if IndexOfSlot(files, from) < 0 then from
    else FirstFreeSlotFrom(files, from + 1)
  }

  class EncryptedVFSContainer {
    const file: HostFile
    var key: Key
    var files: seq<FilePointer>
    var openFiles: set<VirtualFile>
    var isOpen: bool
    ghost var freed: bool

    ghost predicate Valid()
      reads this`freed, this`isOpen, this`key, this`files
      reads file`present, file`cells, file`retired, file`initialSize
    {
      && !freed
      && (isOpen ==> file.present && Consistent(file.cells, key, files)
                     && Budget(file.cells, key, files, Charge(file.retired), file.initialSize))
      && (!isOpen ==> files == [])
    }

    /** File names and contents a fresh open with this key would show. */
    ghost function Shown(): map<Bytes, Bytes>
      reads this`key, file`cells
    {
      DiskView(file.cells, key)
    }

    constructor (file: HostFile, anyKey: Key)
      modifies file`containers
      ensures this.file == file && Valid() && !isOpen && openFiles == {}
      ensures file.containers == old(file.containers) + {this}
    {
      this.file := file;
      key := anyKey;
      files := [];
      openFiles := {};
      isOpen := false;
      freed := false;
      new;
      file.containers := file.containers + {this};
    }

    // ----------------------------------------------------------------
    // Disk primitives
    // ----------------------------------------------------------------

    method EncryptSlot(slotIndex: nat, fp: FilePointer) returns (ok: bool)
      requires slotIndex == fp.slotIndex < SLOT_COUNT && |fp.filename| <= MAX_FILENAME_BYTES
      requires TOTAL_HEADER <= |file.cells|
      modifies file`cells, file`images
      ensures ok
      ensures SameOutside(old(file.cells), file.cells, SlotOffset(slotIndex), SLOT_SIZE)
      ensures DecodeSlot(file.cells, key, slotIndex) == Some(fp)
      ensures file.images == old(file.images) + [file.cells]
    {
      var nonce := RandomBytes(NONCE_SIZE);
      var slot := SlotImage(key, nonce, fp);
      file.Write(SlotOffset(slotIndex), slot);
      file.Flush();
      OverwriteOutside(old(file.cells), SlotOffset(slotIndex), slot);
      SlotImageDecodes(file.cells, key, nonce, fp);
      ok := true;
    }

    method ClearSlot(slotIndex: nat) returns (ok: bool)
      requires slotIndex < SLOT_COUNT && TOTAL_HEADER <= |file.cells|
      modifies file`cells, file`images
      ensures ok
      ensures SameOutside(old(file.cells), file.cells, SlotOffset(slotIndex), SLOT_SIZE)
      ensures forall k: Key :: DecodeSlot(file.cells, k, slotIndex) == None
      ensures file.images == old(file.images) + [file.cells]
    {
      var rnd := RandomBytes(SLOT_SIZE);
      file.Write(SlotOffset(slotIndex), PlainCells(rnd));
      file.Flush();
      OverwriteOutside(old(file.cells), SlotOffset(slotIndex), PlainCells(rnd));
      forall k: Key ensures DecodeSlot(file.cells, k, slotIndex) == None {
        PlainSlotEmpty(file.cells, k, slotIndex);
      }
      ok := true;
    }

    method WriteBlobToDisk(fp: FilePointer, pt: Bytes) returns (ok: bool)
      requires |pt| > 0 && BLOB_OVERHEAD + |pt| <= fp.allocatedSize
      requires fp.dataOffset + fp.allocatedSize <= |file.cells|
      modifies file`cells, file`images
      ensures ok
      ensures SameOutside(old(file.cells), file.cells, fp.dataOffset, fp.allocatedSize)
      ensures forall used: uint64 :: BLOB_OVERHEAD + used <= fp.allocatedSize && used > 0 ==>
                OpenBlob(file.cells, key, fp.(usedSize := used)) == if used == |pt| then Some(pt) else None
      ensures file.images == old(file.images) + [file.cells]
    {
      var nonce := RandomBytes(NONCE_SIZE);
      var pad := RandomBytes(fp.allocatedSize - (BLOB_OVERHEAD + |pt|));
      var blob := BlobImage(key, nonce, fp, pt, pad);
      file.Write(fp.dataOffset, blob);
      file.Flush();
      OverwriteOutside(old(file.cells), fp.dataOffset, blob);
      forall used: uint64 | BLOB_OVERHEAD + used <= fp.allocatedSize && used > 0
        ensures OpenBlob(file.cells, key, fp.(usedSize := used)) == if used == |pt| then Some(pt) else None {
        hide OpenBlob, BlobImage;
        SameBlobImage(key, nonce, fp, used, pt, pad);
        BlobImageOpens(file.cells, key, nonce, fp.(usedSize := used), pt, pad);
      }
      ok := true;
    }

    /** The blob does not depend on the size the record gives it. */
    static lemma SameBlobImage(key: Key, nonce: Bytes, fp: FilePointer, used: uint64, pt: Bytes, pad: Bytes)
      requires |nonce| == NONCE_SIZE
      ensures BlobImage(key, nonce, fp.(usedSize := used), pt, pad) == BlobImage(key, nonce, fp, pt, pad)
    {
    }

    /** Fills the new end of the file in 1 MiB chunks. */
    method GrowContainer(requiredEnd: nat)
      requires |file.cells| < requiredEnd
      modifies file`cells, file`images
      ensures Extends(old(file.cells), file.cells)
      ensures requiredEnd <= |file.cells| < requiredEnd + MAX_PADDING + DATA_ALIGNMENT
      ensures file.images == old(file.images) + [file.cells]
    {
      var padRaw := RandomBytes(4);
      var padding := FromLittleEndian(padRaw) % MAX_PADDING;
      var newSize := ((requiredEnd + padding + DATA_ALIGNMENT - 1) / DATA_ALIGNMENT) * DATA_ALIGNMENT;
      var oldSize := |file.cells|;
      file.Resize(newSize);
      var at, remaining := oldSize, newSize - oldSize;
      while remaining > 0
        invariant at + remaining == newSize == |file.cells| && oldSize <= at
        invariant file.cells[..oldSize] == old(file.cells)
        invariant file.images == old(file.images)
      {
        var n := if remaining < CHUNK then remaining else CHUNK;
        var rnd := RandomBytes(n);
        ghost var before := file.cells;
        file.Write(at, PlainCells(rnd));
        OverwriteFrame(before, at, PlainCells(rnd), 0, oldSize);
        assert before[0..oldSize] == before[..oldSize] && file.cells[0..oldSize] == file.cells[..oldSize];
        at, remaining := at + n, remaining - n;
      }
      file.Flush();
    }

    method FindEndOfData() returns (endOfData: nat)
      ensures endOfData == EndOfData(files)
    {
      endOfData := DATA_START;
      for i := 0 to |files|
        invariant endOfData == EndOfDataUpTo(files, i)
      {
        var end := files[i].dataOffset + files[i].allocatedSize;
        if end > endOfData { endOfData := end; }
      }
    }

    /** A block at the end of the used data area; the file grows when it must. */
    method AllocateBlock(requiredSize: nat) returns (newOffset: nat)
      requires Consistent(file.cells, key, files) && requiredSize > 0
      modifies file`cells, file`images
      ensures newOffset == EndOfData(files)
      ensures Extends(old(file.cells), file.cells) && newOffset + requiredSize <= |file.cells|
      ensures |file.cells| == |old(file.cells)|
              || |file.cells| < newOffset + requiredSize + MAX_PADDING + DATA_ALIGNMENT
      ensures file.images == old(file.images) || file.images == old(file.images) + [file.cells]
    {
      hide *;
      var endOfData := FindEndOfData();
      AlignmentFits();
      EndOfDataAligned(file.cells, key, files);
      newOffset := ((endOfData + DATA_ALIGNMENT - 1) / DATA_ALIGNMENT) * DATA_ALIGNMENT;
      var requiredEnd := newOffset + requiredSize;
      ExtendsSelf(file.cells);
      if requiredEnd > |file.cells| {
        GrowContainer(requiredEnd);
      }
    }

    // ----------------------------------------------------------------
    // Searching
    // ----------------------------------------------------------------

    method FindFileSlot(filename: Bytes) returns (r: int)
      ensures r == IndexOfName(files, filename)
    {
      for i := 0 to |files|
        invariant IndexOfName(files, filename) == IndexOfNameFrom(files, filename, i)
      {
        if files[i].filename == filename { return i; }
      }
      return -1;
    }

    method FindFreeSlot() returns (r: int)
      ensures r == FirstFreeSlotFrom(files, 0)
    {
      var used: set<int> := {};
      for i := 0 to |files|
        invariant used == set k | 0 <= k < i :: files[k].slotIndex
      {
        used := used + {files[i].slotIndex};
      }
      for i := 0 to SLOT_COUNT
        invariant FirstFreeSlotFrom(files, 0) == FirstFreeSlotFrom(files, i)
      {
        if i !in used { return i; }
      }
      return -1;
    }

    // ----------------------------------------------------------------
    // Writing a file back
    // ----------------------------------------------------------------

    lemma OpenFacts()
      requires Valid() && (isOpen || files != [])
      ensures isOpen && Consistent(file.cells, key, files)
      ensures Budget(file.cells, key, files, Charge(file.retired), file.initialSize)
    {
    }

    lemma ValidAgain()
      requires !freed && isOpen && file.present && Consistent(file.cells, key, files)
      requires Budget(file.cells, key, files, Charge(file.retired), file.initialSize)
      ensures Valid()
    {
    }

    lemma StillThere()
      requires Valid() && isOpen
      ensures !freed && file.present
    {
    }

    /** Contents of length zero take no blob. */
    method StoreEmpty(k: nat)
      requires Valid() && k < |files|
      modifies this`files, file`cells, file`images
      ensures Valid()
      ensures StoredSafely(old(file.cells), file.cells, key, old(files), files, old(file.images), file.images, k, [])
    {
      hide *;
      ghost var c, images := file.cells, file.images;
      OpenFacts();
      StillThere();
      RecordFacts(c, key, files, k);
      var fp := files[k].(usedSize := 0);
      files := files[k := fp];
      var ok := EncryptSlot(fp.slotIndex, fp);
      EmptiedOutcome(c, file.cells, key, old(files), k, Charge(file.retired), file.initialSize);
      StoredConsistent(c, file.cells, key, old(files), files, k, []);
      ValidAgain();
      SafelyStored(c, file.cells, key, old(files), files, images, [file.cells], k, []);
    }

    /** The blob fits the block the file has. */
    method StoreInPlace(k: nat, pt: Bytes)
      requires Valid() && k < |files|
      requires 0 < |pt| && BLOB_OVERHEAD + |pt| <= files[k].allocatedSize
      modifies this`files, file`cells, file`images
      ensures Valid()
      ensures StoredSafely(old(file.cells), file.cells, key, old(files), files, old(file.images), file.images, k, pt)
    {
      hide *;
      ghost var c, images := file.cells, file.images;
      OpenFacts();
      StillThere();
      RecordFacts(c, key, files, k);
      var fp := files[k].(usedSize := |pt|);
      files := files[k := fp];
      var ok := WriteBlobToDisk(fp, pt);
      ghost var d := file.cells;
      OutsideSize(c, d, fp.dataOffset, fp.allocatedSize);
      assert old(files)[k] == fp.(usedSize := old(files)[k].usedSize) && fp == fp.(usedSize := |pt|);
      ok := EncryptSlot(fp.slotIndex, fp);
      InPlaceOutcome(c, d, file.cells, key, old(files), k, pt, fp, Charge(file.retired), file.initialSize);
      StoredConsistent(c, file.cells, key, old(files), files, k, pt);
      ValidAgain();
      assert file.images == images + [d, file.cells];
      SafelyStored(c, file.cells, key, old(files), files, images, [d, file.cells], k, pt);
    }

    /** The blob outgrew its block: a new one is allocated past the used data area. */
    method StoreRelocated(k: nat, pt: Bytes)
      requires Valid() && k < |files| && Room(files, pt)
      requires 0 < |pt| && BLOB_OVERHEAD + |pt| > files[k].allocatedSize
      modifies this`files, file`cells, file`images
      ensures Valid()
      ensures StoredSafely(old(file.cells), file.cells, key, old(files), files, old(file.images), file.images, k, pt)
    {
      hide *;
      ghost var c, images := file.cells, file.images;
      OpenFacts();
      StillThere();
      RecordFacts(c, key, files, k);
      RoomFits(files, pt);
      var newAlloc := PowerOfTwo.NextPowerOf2(BLOB_OVERHEAD + |pt|);
      var newOffset := AllocateBlock(newAlloc);
      var fp := files[k].(dataOffset := newOffset, allocatedSize := newAlloc, usedSize := |pt|);
      files := files[k := fp];
      ghost var g, grown := file.cells, file.images[|images|..];
      ExtendsSize(c, g);
      var ok := WriteBlobToDisk(fp, pt);
      ghost var d := file.cells;
      OutsideSize(g, d, fp.dataOffset, fp.allocatedSize);
      assert fp == fp.(usedSize := |pt|);
      ok := EncryptSlot(fp.slotIndex, fp);
      RelocatedOutcome(c, g, d, file.cells, key, old(files), k, pt, fp, Charge(file.retired), file.initialSize);
      StoredConsistent(c, file.cells, key, old(files), files, k, pt);
      ValidAgain();
      ghost var added := if grown == [] then [d, file.cells] else [g, d, file.cells];
      assert file.images == images + added;
      SafelyStored(c, file.cells, key, old(files), files, images, added, k, pt);
    }

    method WriteFileData(slotIndex: int, plaintext: Bytes) returns (ok: bool)
      requires Valid() && Room(files, plaintext)
      modifies this`files, file`cells, file`images
      ensures Valid()
      ensures ok <==> IndexOfSlot(old(files), slotIndex) >= 0
      ensures !ok ==> files == old(files) && file.cells == old(file.cells) && file.images == old(file.images)
      ensures ok ==> StoredSafely(old(file.cells), file.cells, key, old(files), files, old(file.images), file.images,
                                  IndexOfSlot(old(files), slotIndex), plaintext)
    {
      var fileIdx := -1;
      for i := 0 to |files|
        invariant fileIdx == -1 && IndexOfSlot(files, slotIndex) == IndexOfSlotFrom(files, slotIndex, i)
      {
        if files[i].slotIndex == slotIndex { fileIdx := i; break; }
      }
      if fileIdx < 0 { return false; }
      hide *;
      if |plaintext| == 0 {
        StoreEmpty(fileIdx);
      } else if BLOB_OVERHEAD + |plaintext| > files[fileIdx].allocatedSize {
        StoreRelocated(fileIdx, plaintext);
      } else {
        StoreInPlace(fileIdx, plaintext);
      }
      ok := true;
    }

    // ----------------------------------------------------------------
    // Opening and creating
    // ----------------------------------------------------------------

    /** The public part of the file: magic, then a random salt. */
    method WriteHeader()
      requires HEADER_OFFSET <= |file.cells| && AllPlain(file.cells)
      modifies file`cells, file`images
      ensures |file.cells| == |old(file.cells)| && HasMagic(file.cells) && AllPlain(file.cells)
      ensures file.images == old(file.images) + [file.cells]
    {
      OverwritePlain(file.cells, 0, MAGIC);
      file.Write(0, PlainCells(MAGIC));
      ghost var c := file.cells;
      assert c[..MAGIC_SIZE] == c[0..0 + MAGIC_SIZE] == PlainCells(MAGIC);
      var salt := RandomBytes(SALT_SIZE);
      OverwritePlain(file.cells, MAGIC_SIZE, salt);
      file.Write(MAGIC_SIZE, PlainCells(salt));
      OverwriteFrame(c, MAGIC_SIZE, PlainCells(salt), 0, MAGIC_SIZE);
      assert file.cells[..MAGIC_SIZE] == file.cells[0..MAGIC_SIZE] == c[0..MAGIC_SIZE];
      file.Flush();
    }

    /** A new container file: random throughout, then the public magic and salt. */
    method CreateContainer(maxSize: nat, freeSpace: nat) returns (ok: bool)
      requires !file.present && freeSpace < TWO_63
      modifies file`present, file`cells, file`images, file`retired, file`initialSize
      ensures ok <==> Ceiling(maxSize, freeSpace) >= MIN_CONTAINER
      ensures ok ==> file.present && HasMagic(file.cells) && AllPlain(file.cells) && SizeOk(file.cells)
      ensures ok ==>
                && MIN_CONTAINER <= |file.cells| < Ceiling(maxSize, freeSpace) + DATA_ALIGNMENT
                && |file.cells| % DATA_ALIGNMENT == 0
      ensures ok ==> file.retired == [] && file.initialSize == |file.cells|
      ensures ok ==> file.images == old(file.images) + [file.cells]
      ensures !ok ==> !file.present && file.cells == old(file.cells) && file.images == old(file.images)
    {
      var ceiling := if maxSize > 0 then (if maxSize < freeSpace / 2 then maxSize else freeSpace / 2)
                     else (if freeSpace / 2 < FOUR_GIB then freeSpace / 2 else FOUR_GIB);
      if ceiling < MIN_CONTAINER { return false; }
      var containerSize := RandomSize(ceiling);
      file.present := true;
      FillRandom(containerSize);
      WriteHeader();
      file.retired, file.initialSize := [], containerSize;
      ok := true;
    }

    /** Somewhere between the minimum and the ceiling, rounded up to whole blocks. */
    method RandomSize(ceiling: nat) returns (containerSize: nat)
      requires MIN_CONTAINER <= ceiling
      ensures MIN_CONTAINER <= containerSize < ceiling + DATA_ALIGNMENT && containerSize % DATA_ALIGNMENT == 0
    {
      var offset := 0;
      var range := ceiling - MIN_CONTAINER;
      if range > 0 {
        var raw := RandomBytes(8);
        offset := FromLittleEndian(raw) % range;
      }
      containerSize := ((MIN_CONTAINER + offset + DATA_ALIGNMENT - 1) / DATA_ALIGNMENT) * DATA_ALIGNMENT;
    }

    /** The whole file, in 1 MiB chunks. */
    method FillRandom(containerSize: nat)
      modifies file`cells
      ensures |file.cells| == containerSize && AllPlain(file.cells)
    {
      file.cells := [];
      file.Resize(containerSize);
      var at, remaining := 0, containerSize;
      while remaining > 0
        invariant at + remaining == containerSize == |file.cells|
        invariant AllPlain(file.cells)
      {
        var n := if remaining < CHUNK then remaining else CHUNK;
        var rnd := RandomBytes(n);
        OverwritePlain(file.cells, at, rnd);
        file.Write(at, PlainCells(rnd));
        at, remaining := at + n, remaining - n;
      }
    }

    /** Every header slot tried under the current key, in slot order. */
    method LoadSlots()
      modifies this`files
      ensures files == Loaded(file.cells, key)
    {
      hide DecodeSlot;
      files := [];
      for i := 0 to SLOT_COUNT
        invariant files == LoadedUpTo(file.cells, key, i)
      {
        match DecodeSlot(file.cells, key, i)
        case None =>
        case Some(fp) => files := files + [fp];
      }
    }

    /** The part of open that comes once the host file is there; it changes nothing on the host. */
    method OpenExisting(passphrase: Bytes, faults: HostFaults) returns (ok: bool)
      requires Valid() && !isOpen && file.present
      modifies this`key, this`files, this`isOpen
      ensures ok <==> !faults.openFails && !faults.kdfFails && HasMagic(file.cells)
      ensures !ok ==> Valid() && !isOpen
      ensures ok ==> isOpen && !freed && key == DeriveKey(passphrase, file.cells) && files == Loaded(file.cells, key)
      ensures ok ==> forall other :: other != passphrase ==> key != DeriveKey(other, file.cells)
      ensures ok && file.Sound(key) ==> Valid()
    {
      if faults.openFails { return false; }
      if !HasMagic(file.cells) { return false; }
      if faults.kdfFails { return false; }
      key := DeriveKey(passphrase, file.cells);
      isOpen := true;
      LoadSlots();
      ok := true;
    }

    /**
     * Opening a container object that is not open; `faults` are failures
     * outside its own logic.  A new file stays, without files under any key,
     * when opening it then fails.
     */
    method OpenAnew(passphrase: Bytes, maxSize: nat, faults: HostFaults) returns (ok: bool)
      requires Valid() && !isOpen && faults.freeSpace < TWO_63
      modifies this`key, this`files, this`isOpen
      modifies file`present, file`cells, file`images, file`retired, file`initialSize
      ensures old(file.present) ==>
                && file.cells == old(file.cells) && file.present && file.images == old(file.images)
                && file.retired == old(file.retired) && file.initialSize == old(file.initialSize)
      ensures old(file.present) ==> (ok <==> !faults.openFails && !faults.kdfFails && HasMagic(file.cells))
      ensures !old(file.present) ==>
                && (file.present <==> Ceiling(maxSize, faults.freeSpace) >= MIN_CONTAINER)
                && (ok <==> file.present && !faults.openFails && !faults.kdfFails)
      ensures !old(file.present) && file.present ==>
                && HasMagic(file.cells) && SizeOk(file.cells)
                && |file.cells| < Ceiling(maxSize, faults.freeSpace) + DATA_ALIGNMENT
                && file.retired == [] && file.initialSize == |file.cells|
                && file.images == old(file.images) + [file.cells]
                && forall k: Key :: file.Sound(k) && Loaded(file.cells, k) == []
      ensures !ok ==> Valid() && !isOpen
      ensures ok ==> isOpen && !freed && key == DeriveKey(passphrase, file.cells)
      ensures ok ==> files == Loaded(file.cells, key)
      ensures ok && file.Sound(key) ==> Valid()
    {
      if !file.present {
        var created := CreateContainer(maxSize, faults.freeSpace);
        if !created { return false; }
        assert Charge([]) == 0;
        forall k: Key ensures Consistent(file.cells, k, Loaded(file.cells, k))
            && Budget(file.cells, k, Loaded(file.cells, k), 0, |file.cells|) && Loaded(file.cells, k) == [] {
          FreshImageSound(file.cells, k);
        }
      }
      ok := OpenExisting(passphrase, faults);
    }

    // ----------------------------------------------------------------
    // Files
    // ----------------------------------------------------------------

    method ListFiles() returns (names: seq<Bytes>)
      ensures names == NameList(files)
    {
      names := [];
      for i := 0 to |files|
        invariant |names| == i && forall k :: 0 <= k < i ==> names[k] == files[k].filename
      {
        names := names + [files[i].filename];
      }
    }

    lemma ShownAt(filename: Bytes)
      requires Valid() && isOpen
      ensures var k := IndexOfName(files, filename);
              (filename in Shown() <==> k >= 0)
              && (k >= 0 ==> Shown()[filename] == ReadBlob(file.cells, key, files[k]))
    {
      hide Consistent, ReadBlob, IndexOfName, Loaded;
      ReloadAgrees(file.cells, key, files);
      NameFound(files, filename);
    }

    method ReadFile(filename: Bytes) returns (r: Bytes)
      requires Valid()
      ensures r == if isOpen && filename in Shown() then Shown()[filename] else []
    {
      hide IndexOfName, Consistent, Loaded, Budget;
      if !isOpen { return []; }
      ShownAt(filename);
      var idx := FindFileSlot(filename);
      if idx < 0 || files[idx].usedSize == 0 { return []; }
      return ReadBlob(file.cells, key, files[idx]);
    }

    /** The slot and contents openFile hands out: of an existing file, or of one created for the purpose. */
    method ResolveFile(filename: Bytes, mode: OpenMode) returns (slotIndex: int, data: Bytes)
      requires Valid() && isOpen && (filename !in Shown() && CanCreate(files, filename, mode) ==> Room(files, []))
      modifies this`files, file`cells, file`images
      ensures Valid()
      ensures Resolved(old(file.cells), file.cells, key, old(files), files, old(file.images), file.images,
                       filename, mode)
      ensures slotIndex >= 0 <==> Available(old(Shown()), old(files), filename, mode)
      ensures slotIndex >= 0 ==> HandsOut(file.cells, key, files, filename, mode, slotIndex, data)
    {
      hide Valid, DiskView, FirstFreeSlotFrom, IndexOfName, IndexOfSlot, Created, ReadBlob, Room;
      data := [];
      ShownAt(filename);
      var idx := FindFileSlot(filename);
      if idx >= 0 {
        slotIndex := files[idx].slotIndex;
        RecordAt(idx);
        if !mode.truncate && files[idx].usedSize > 0 { data := ReadBlob(file.cells, key, files[idx]); }
        return;
      }
      if !mode.write { return -1, []; }
      if |filename| > MAX_FILENAME_BYTES { return -1, []; }
      slotIndex := FindFreeSlot();
      if slotIndex >= 0 {
        CreateRecord(filename, slotIndex);
        ShownAt(filename);
        RecordAt(|old(files)|);
      }
    }

    /**
     * The file's contents in memory; a missing file is created when writing is
     * intended, its name fits and a header slot is free.
     */
    method OpenFile(filename: Bytes, mode: OpenMode) returns (vf: VirtualFile?)
      requires Valid() && (isOpen && filename !in Shown() && CanCreate(files, filename, mode) ==> Room(files, []))
      modifies this`files, this`openFiles, file`cells, file`images, file`handles
      ensures Valid()
      ensures !isOpen ==> files == old(files) && file.cells == old(file.cells) && file.images == old(file.images)
      ensures isOpen ==>
                Resolved(old(file.cells), file.cells, key, old(files), files, old(file.images), file.images,
                         filename, mode)
      ensures vf != null <==> isOpen && (mode.read || mode.write) && Available(old(Shown()), old(files), filename, mode)
      ensures vf != null ==> fresh(vf) && vf.Fresh(this, mode) && openFiles == old(openFiles) + {vf}
      ensures vf != null ==> HandsOut(file.cells, key, files, filename, mode, vf.slotIndex, vf.data)
      ensures vf == null ==> openFiles == old(openFiles)
      ensures file.handles == old(file.handles) + if vf == null then {} else {vf}
    {
      vf := null;
      if isOpen { vf := OpenFileHere(filename, mode); }
    }

    method OpenFileHere(filename: Bytes, mode: OpenMode) returns (vf: VirtualFile?)
      requires Valid() && isOpen && (filename !in Shown() && CanCreate(files, filename, mode) ==> Room(files, []))
      modifies this`files, this`openFiles, file`cells, file`images, file`handles
      ensures Valid()
      ensures Resolved(old(file.cells), file.cells, key, old(files), files, old(file.images), file.images,
                       filename, mode)
      ensures vf != null <==> (mode.read || mode.write) && Available(old(Shown()), old(files), filename, mode)
      ensures vf != null ==> fresh(vf) && vf.Fresh(this, mode) && openFiles == old(openFiles) + {vf}
      ensures vf != null ==> HandsOut(file.cells, key, files, filename, mode, vf.slotIndex, vf.data)
      ensures vf == null ==> openFiles == old(openFiles)
      ensures file.handles == old(file.handles) + if vf == null then {} else {vf}
    {
      hide *;
      vf := null;
      var slotIndex, data := ResolveFile(filename, mode);
      if slotIndex >= 0 && (mode.read || mode.write) {
        vf := RegisterOpenFile(slotIndex, data, mode);
      }
    }

    /** A new in-memory file, tracked for the flush at close. */
    method RegisterOpenFile(slotIndex: int, data: Bytes, mode: OpenMode) returns (vf: VirtualFile)
      modifies this`openFiles, file`handles
      ensures fresh(vf) && vf.Fresh(this, mode) && vf.slotIndex == slotIndex && vf.data == data
      ensures openFiles == old(openFiles) + {vf} && file.handles == old(file.handles) + {vf}
    {
      vf := new VirtualFile(this, slotIndex, data, mode);
      openFiles := openFiles + {vf};
    }

    /** The part of openFile that makes a new, empty file. */
    method CreateRecord(filename: Bytes, slotIndex: nat)
      requires Valid() && isOpen && Room(files, [])
      requires IndexOfName(files, filename) < 0 && |filename| <= MAX_FILENAME_BYTES
      requires slotIndex < SLOT_COUNT && IndexOfSlot(files, slotIndex) < 0
      modifies this`files, file`cells, file`images
      ensures Valid()
      ensures Created(old(file.cells), file.cells, key, old(files), files, old(file.images), file.images, filename)
      ensures IndexOfSlot(files, slotIndex) == |old(files)| == IndexOfName(files, filename)
      ensures files[|old(files)|].usedSize == 0 && files[|old(files)|].slotIndex == slotIndex
    {
      hide *;
      OpenFacts();
      StillThere();
      RoomFits(files, []);
      ghost var c, f := file.cells, files;
      ConsistentParts(c, key, f);
      var id := RandomBytes(UUID_SIZE);
      AlignmentFits();
      var offset := AllocateBlock(DATA_ALIGNMENT);
      ghost var g := file.cells;
      ExtendsSize(c, g);
      var fp := FilePointer(id, filename, offset, DATA_ALIGNMENT, 0, 0, slotIndex);
      var ok := EncryptSlot(slotIndex, fp);
      CreatedOutcome(c, g, file.cells, key, f, fp, Charge(file.retired), file.initialSize);
      files := files + [fp];
      ValidAgain();
      CreatedIs(c, g, file.cells, key, f, fp, old(file.images), file.images);
      AppendedIndex(f, fp);
    }

    lemma ShownIs()
      ensures Shown() == DiskView(file.cells, key)
    {
    }

    lemma RecordAt(idx: nat)
      requires Valid() && isOpen && idx < |files|
      ensures IndexOfSlot(files, files[idx].slotIndex) == idx && files[idx].slotIndex >= 0
      ensures files[idx].usedSize == 0 ==> ReadBlob(file.cells, key, files[idx]) == []
    {
      hide IndexOfSlot, IndexOfName;
      assert AllCompatible(files);
      ViewAt(file.cells, key, files, idx);
    }

    /** Whoever has the file open keeps a handle on its slot, which the next new file may take. */
    method DeleteFile(filename: Bytes) returns (ok: bool)
      requires Valid() && isOpen
      modifies this`files, file`cells, file`images, file`retired
      ensures Valid()
      ensures ok <==> filename in old(Shown())
      ensures Shown() == Drop(old(Shown()), filename)
      ensures file.images == old(file.images) + if ok then [file.cells] else []
      ensures var k := IndexOfName(old(files), filename);
              && files == (if k >= 0 then Without(old(files), k) else old(files))
              && file.retired == old(file.retired) + (if k >= 0 then [old(files)[k].allocatedSize as nat] else [])
              && (ok <==> k >= 0)
      ensures TOTAL_HEADER <= |old(file.cells)| && TOTAL_HEADER <= |file.cells|
      ensures NothingForeign(old(file.cells), file.cells, key)
    {
      hide *;
      OpenFacts();
      StillThere();
      ShownAt(filename);
      ShownIs();
      ghost var c, f := file.cells, files;
      ConsistentParts(c, key, f);
      var idx := FindFileSlot(filename);
      if idx < 0 {
        PublicPartFirst();
        DropMissing(DiskView(c, key), filename);
        NothingForeignSelf(c, key);
        return false;
      }
      RecordFacts(c, key, f, idx);
      AllocatedAtLeast(c, f[idx]);
      ok := ClearSlot(files[idx].slotIndex);
      DeletedOutcome(c, file.cells, key, f, idx, Charge(file.retired), file.initialSize);
      ChargeAppend(file.retired, files[idx].allocatedSize);
      file.retired := file.retired + [files[idx].allocatedSize];
      files := Without(files, idx);
      ValidAgain();
      ShownIs();
      ClearedOwn(c, file.cells, key, f[idx].slotIndex);
    }

    // ----------------------------------------------------------------
    // Closing
    // ----------------------------------------------------------------

    /**
     * The open files belong to this container, and the host file can take them
     * all, `block` being enough for any of them.
     */
    ghost predicate Flushable(files: seq<FilePointer>, todo: set<VirtualFile>, block: nat)
      reads todo`freed, todo`container, todo`data
    {
      && (forall vf :: vf in todo ==> !vf.freed && vf.container == this
                                      && BLOB_OVERHEAD + |vf.data| <= TWO_63
                                      && PowerOfTwo.NextPowerOf2(BLOB_OVERHEAD + |vf.data|) <= block)
      && (todo != {} ==> EndOfData(files) + |todo| * block + MAX_PADDING + DATA_ALIGNMENT < TWO_63)
    }

    lemma FlushableRoom(todo: set<VirtualFile>, vf: VirtualFile, block: nat)
      requires Valid() && Flushable(files, todo, block) && vf in todo
      ensures !vf.freed && vf.container == this && Room(files, vf.data) && vf.Writable()
    {
      hide EndOfData, PowerOfTwo.NextPowerOf2, IndexOfSlot, Consistent, Budget;
      assert |todo| >= 1 by { assert todo == (todo - {vf}) + {vf}; }
      MulAtLeast(|todo|, block);
    }

    lemma StillFlushable(f: seq<FilePointer>, g: seq<FilePointer>, todo: set<VirtualFile>, vf: VirtualFile, block: nat)
      requires Flushable(f, todo, block) && vf in todo
      requires EndOfData(g) <= EndOfData(f) + PowerOfTwo.NextPowerOf2(BLOB_OVERHEAD + |vf.data|)
      ensures Flushable(g, todo - {vf}, block)
    {
      hide EndOfData, PowerOfTwo.NextPowerOf2;
      assert |todo - {vf}| == |todo| - 1;
      MulStep(|todo|, block);
    }

    /** The file is still there to take the buffer. */
    ghost predicate Stores(f: seq<FilePointer>, vf: VirtualFile)
      reads vf`dirty
    {
      vf.dirty && IndexOfSlot(f, vf.slotIndex) >= 0
    }

    lemma StoresIs(f: seq<FilePointer>, vf: VirtualFile)
      ensures Stores(f, vf) <==> vf.dirty && IndexOfSlot(f, vf.slotIndex) >= 0
    {
    }

    method FlushOne(vf: VirtualFile, ghost todo: set<VirtualFile>, ghost block: nat)
      requires Valid() && isOpen && vf in todo && Flushable(files, todo, block)
      modifies this`files, file`cells, file`images, vf`dirty
      ensures Valid() && SameShape(old(files), files) && Flushable(files, todo - {vf}, block)
      ensures var x := FileData(SlotName(old(files), vf.slotIndex), vf.data);
              && FlushImages(key, old(file.images), file.images, old(Shown()), x.name, x.data)
              && (if old(Stores(files, vf))
                  then && !vf.dirty && Shown() == old(Shown())[x.name := x.data]
                       && LedgerOf(files, file.retired) == Held(LedgerOf(old(files), file.retired), x.name, x.data)
                  else && vf.dirty == old(vf.dirty) && files == old(files) && file.cells == old(file.cells)
                       && file.images == old(file.images) && Shown() == old(Shown()))
      ensures EndOfData(files) <= EndOfData(old(files)) + block
      ensures NothingForeign(old(file.cells), file.cells, key)
    {
      hide *;
      ShownIs();
      OpenFacts();
      ConsistentParts(file.cells, key, files);
      PublicPartFirst();
      NothingForeignSelf(file.cells, key);
      SlotNameIs(files, vf.slotIndex);
      FlushableRoom(todo, vf, block);
      FlushesIff(vf);
      FlushableData(todo, block);
      StoresIs(files, vf);
      var ok := vf.Flush();
      if old(vf.dirty) && IndexOfSlot(old(files), vf.slotIndex) >= 0 {
        ghost var k := IndexOfSlot(old(files), vf.slotIndex);
        StoredShape(old(file.cells), file.cells, key, old(files), files, old(file.images), file.images, k, vf.data);
        StoredImages(old(file.cells), file.cells, key, old(files), files, old(file.images), file.images, k, vf.data);
        StoredOwn(old(file.cells), file.cells, key, old(files), files, old(file.images), file.images, k,
                           vf.data);
        StoredLedger(old(file.cells), file.cells, key, old(files), files, old(file.images), file.images, k, vf.data,
                     file.retired);
      } else {
        SameShapeSelf(files);
        NoImages(key, file.images, old(Shown()), SlotName(old(files), vf.slotIndex), vf.data);
      }
      ShownIs();
      StillFlushable(old(files), files, todo, vf, block);
    }

    lemma FlushesIff(vf: VirtualFile)
      requires isOpen && vf.container == this
      ensures vf.Flushes() <==> vf.dirty
      ensures vf.Containers() == {this} && vf.HostFiles() == {file}
    {
    }

    lemma FlushableData(todo: set<VirtualFile>, block: nat)
      requires Flushable(files, todo, block)
      ensures forall w :: w in todo ==>
                !w.freed && w.container == this && PowerOfTwo.NextPowerOf2(BLOB_OVERHEAD + |w.data|) <= block
    {
    }

    lemma SoundWhenOpen()
      requires Valid() && isOpen
      ensures file.Sound(key)
    {
      hide Consistent, Budget, Loaded;
      ReloadAgrees(file.cells, key, files);
      BudgetReloads(file.cells, key, files, Charge(file.retired), file.initialSize);
    }

    /** What the flushes so far have made of the container; `v`, `l` and `before` are how it was. */
    ghost predicate Stored(v: map<Bytes, Bytes>, l: Ledger, before: seq<seq<Cell>>, stores: seq<FileData>)
      reads this`freed, this`isOpen, this`key, this`files
      reads file`present, file`cells, file`images, file`retired, file`initialSize
    {
      && Valid() && Shown() == StoreAll(v, stores) && LedgerOf(files, file.retired) == HeldAll(l, stores)
      && CloseImages(key, before, file.images, v, stores)
    }

    lemma StoredParts(v: map<Bytes, Bytes>, l: Ledger, before: seq<seq<Cell>>, stores: seq<FileData>)
      ensures Stored(v, l, before, stores) <==>
                && Valid() && Shown() == StoreAll(v, stores) && LedgerOf(files, file.retired) == HeldAll(l, stores)
                && CloseImages(key, before, file.images, v, stores)
    {
    }

    /** Of the open files exactly these are dirty. */
    static ghost predicate Dirty(all: set<VirtualFile>, left: set<VirtualFile>)
      reads all`dirty
    {
      forall vf :: vf in all ==> (vf.dirty <==> vf in left)
    }

    static lemma DirtyIs(all: set<VirtualFile>, left: set<VirtualFile>)
      ensures Dirty(all, left) <==> forall vf :: vf in all ==> (vf.dirty <==> vf in left)
    {
    }

    /** One step of the loop of close. */
    method FlushNext(vf: VirtualFile, ghost todo: set<VirtualFile>, ghost block: nat, ghost f: seq<FilePointer>,
                     ghost v: map<Bytes, Bytes>, ghost l: Ledger, ghost before: seq<seq<Cell>>,
                     ghost all: set<VirtualFile>, ghost left: set<VirtualFile>, ghost stored: set<VirtualFile>,
                     ghost done: Flushes)
      returns (ghost more: Flushes)
      requires isOpen && vf in todo && Flushable(files, todo, block) && SameShape(f, files) && vf in all
      requires Stored(v, l, before, done.stores) && done.Of(f, stored) && vf !in stored && Dirty(all, left)
      modifies this`files, file`cells, file`images, vf`dirty
      ensures Flushable(files, todo - {vf}, block) && SameShape(f, files) && Stored(v, l, before, more.stores)
      ensures var stores := vf in left && IndexOfSlot(f, vf.slotIndex) >= 0;
              && more.Of(f, if stores then stored + {vf} else stored)
              && Dirty(all, if stores then left - {vf} else left)
      ensures vf !in left ==> file.cells == old(file.cells) && file.images == old(file.images)
      ensures EndOfData(files) <= EndOfData(old(files)) + block && NothingForeign(old(file.cells), file.cells, key)
    {
      hide *;
      ghost var was, mid := files, file.images;
      StoredParts(v, l, before, done.stores);
      SameShapeIndex(f, was, vf.slotIndex);
      StoresIs(was, vf);
      DirtyIs(all, left);
      FlushOne(vf, todo, block);
      SameShapeTrans(f, was, files);
      more := done;
      if vf in left && IndexOfSlot(f, vf.slotIndex) >= 0 {
        ghost var x := FileData(SlotName(f, vf.slotIndex), vf.data);
        OneMoreStored(key, before, mid, file.images, v, l, done.stores, x);
        OneMoreFlushed(f, stored, done, vf, files);
        more := Flushes(done.order + [vf], done.stores + [x], files);
        DirtyIs(all, left - {vf});
      } else {
        DirtyIs(all, left);
      }
      StoredParts(v, l, before, more.stores);
    }

    /** The loop of close, in whatever order; a dirty file is stored when its slot is still in use. */
    method FlushAll(ghost block: nat, ghost dirtyFiles: set<VirtualFile>) returns (ghost done: Flushes)
      requires Valid() && isOpen && Flushable(files, openFiles, block) && Dirty(openFiles, dirtyFiles)
      requires dirtyFiles <= openFiles
      modifies this`files, file`cells, file`images, openFiles`dirty
      ensures Valid() && done.kept == files && SameShape(old(files), files)
      ensures done.Of(old(files), InUse(old(files), dirtyFiles))
      ensures Stored(old(Shown()), LedgerOf(old(files), file.retired), old(file.images), done.stores)
      ensures Dirty(openFiles, dirtyFiles - InUse(old(files), dirtyFiles))
      ensures openFiles == {} ==> file.cells == old(file.cells) && file.images == old(file.images)
      ensures EndOfData(files) <= EndOfData(old(files)) + Total(|openFiles|, block)
      ensures NothingForeign(old(file.cells), file.cells, key)
    {
      hide *;
      ghost var v, f, before, l := Shown(), files, file.images, LedgerOf(files, file.retired);
      OpenFacts();
      ConsistentParts(file.cells, key, files);
      PublicPartFirst();
      NothingForeignSelf(file.cells, key);
      ghost var storing := InUse(f, dirtyFiles);
      InUseIs(f, dirtyFiles);
      var todo := openFiles;
      done := Flushes([], [], files);
      SameShapeSelf(f);
      NothingStoredYet(key, before, v, l);
      StoredParts(v, l, before, []);
      NothingFlushed(f, files);
      assert storing - todo == {} && dirtyFiles - {} == dirtyFiles;
      while todo != {}
        invariant todo <= openFiles && SameShape(f, files) && Flushable(files, todo, block)
        invariant Dirty(openFiles, dirtyFiles - (storing - todo))
        invariant done.Of(f, storing - todo) && Stored(v, l, before, done.stores)
        invariant openFiles == {} ==> file.cells == old(file.cells) && file.images == old(file.images)
        invariant EndOfData(files) + Total(|todo|, block) <= EndOfData(f) + Total(|openFiles|, block)
        invariant NothingForeign(old(file.cells), file.cells, key)
      {
        var vf :| vf in todo;
        ghost var cells, stored := file.cells, storing - todo;
        OneOutOf(storing, dirtyFiles, todo, vf);
        done := FlushNext(vf, todo, block, f, v, l, before, openFiles, dirtyFiles - stored, stored, done);
        NothingForeignTrans(old(file.cells), cells, file.cells, key);
        OneLess(todo, vf, block);
        todo := todo - {vf};
      }
      assert storing - todo == storing;
      StoredParts(v, l, before, done.stores);
      SameFlushes(f, storing, done, files);
      done := done.(kept := files);
    }

    /** Flushes every open file, then lets go of the host file; `done.kept` are the records it held last. */
    method Close(ghost block: nat, ghost dirtyFiles: set<VirtualFile>) returns (ghost done: Flushes)
      requires Valid() && (isOpen ==> Flushable(files, openFiles, block))
      requires dirtyFiles <= openFiles && Dirty(openFiles, dirtyFiles)
      modifies this`files, this`isOpen, this`openFiles, file`cells, file`images, openFiles`dirty
      ensures Valid() && !isOpen && files == []
      ensures !old(isOpen) ==> file.cells == old(file.cells) && file.images == old(file.images)
                               && openFiles == old(openFiles) && Dirty(openFiles, dirtyFiles)
      ensures old(isOpen) ==> file.Sound(key) && openFiles == {} && done.Of(old(files), InUse(old(files), dirtyFiles))
                              && Shown() == StoreAll(old(Shown()), done.stores)
      ensures old(isOpen) ==> Consistent(file.cells, key, done.kept) && SameShape(old(files), done.kept)
      ensures old(isOpen) ==>
                LedgerOf(done.kept, file.retired) == HeldAll(LedgerOf(old(files), file.retired), done.stores)
      ensures old(isOpen) ==> CloseImages(key, old(file.images), file.images, old(Shown()), done.stores)
      ensures old(isOpen) ==> Dirty(old(openFiles), dirtyFiles - InUse(old(files), dirtyFiles))
      ensures old(isOpen) ==> EndOfData(done.kept) <= EndOfData(old(files)) + Total(|old(openFiles)|, block)
      ensures old(isOpen) ==> NothingForeign(old(file.cells), file.cells, key)
      ensures old(isOpen) && old(openFiles) == {} ==> file.cells == old(file.cells) && file.images == old(file.images)
    {
      done := Flushes([], [], []);
      if isOpen { done := CloseOpen(block, dirtyFiles); }
    }

    method CloseOpen(ghost block: nat, ghost dirtyFiles: set<VirtualFile>) returns (ghost done: Flushes)
      requires Valid() && isOpen && Flushable(files, openFiles, block)
      requires dirtyFiles <= openFiles && Dirty(openFiles, dirtyFiles)
      modifies this`files, this`isOpen, this`openFiles, file`cells, file`images, openFiles`dirty
      ensures Valid() && !isOpen && files == [] && openFiles == {}
      ensures file.Sound(key) && done.Of(old(files), InUse(old(files), dirtyFiles))
      ensures Shown() == StoreAll(old(Shown()), done.stores)
      ensures Consistent(file.cells, key, done.kept) && SameShape(old(files), done.kept)
      ensures LedgerOf(done.kept, file.retired) == HeldAll(LedgerOf(old(files), file.retired), done.stores)
      ensures CloseImages(key, old(file.images), file.images, old(Shown()), done.stores)
      ensures Dirty(old(openFiles), dirtyFiles - InUse(old(files), dirtyFiles))
      ensures EndOfData(done.kept) <= EndOfData(old(files)) + Total(|old(openFiles)|, block)
      ensures NothingForeign(old(file.cells), file.cells, key)
      ensures old(openFiles) == {} ==> file.cells == old(file.cells) && file.images == old(file.images)
    {
      hide *;
      ghost var v, l, before := Shown(), LedgerOf(files, file.retired), file.images;
      done := FlushAll(block, dirtyFiles);
      StoredParts(v, l, before, done.stores);
      OpenFacts();
      SoundWhenOpen();
      ghost var f, storing := old(files), InUse(old(files), dirtyFiles);
      OfParts(f, storing, done);
      Release();
      OfParts(f, storing, done);
    }

    /** Opening: an object that is open is closed first, with all that means for its open files. */
    method Open(passphrase: Bytes, maxSize: nat, faults: HostFaults, ghost block: nat,
                ghost dirtyFiles: set<VirtualFile>)
      returns (ok: bool, ghost done: Flushes)
      requires Valid() && faults.freeSpace < TWO_63 && (isOpen ==> Flushable(files, openFiles, block))
      requires dirtyFiles <= openFiles && Dirty(openFiles, dirtyFiles)
      modifies this`key, this`files, this`isOpen, this`openFiles, openFiles`dirty
      modifies file`present, file`cells, file`images, file`retired, file`initialSize
      ensures old(isOpen) ==> file.present && openFiles == {} && file.Sound(old(key))
      ensures !old(isOpen) ==> openFiles == old(openFiles) && Dirty(openFiles, dirtyFiles)
      ensures old(isOpen) ==> file.retired == old(file.retired) && file.initialSize == old(file.initialSize)
      ensures old(isOpen) ==> done.Of(old(files), InUse(old(files), dirtyFiles))
      ensures old(isOpen) ==> DiskView(file.cells, old(key)) == StoreAll(old(Shown()), done.stores)
      ensures old(isOpen) ==> CloseImages(old(key), old(file.images), file.images, old(Shown()), done.stores)
      ensures old(isOpen) ==> NothingForeign(old(file.cells), file.cells, old(key))
      ensures old(isOpen || file.present) ==> (ok <==> !faults.openFails && !faults.kdfFails && HasMagic(file.cells))
      ensures old(!isOpen && file.present) ==>
                && file.cells == old(file.cells) && file.present && file.images == old(file.images)
                && file.retired == old(file.retired) && file.initialSize == old(file.initialSize)
      ensures old(!isOpen && !file.present) ==>
                && (file.present <==> Ceiling(maxSize, faults.freeSpace) >= MIN_CONTAINER)
                && (ok <==> file.present && !faults.openFails && !faults.kdfFails)
      ensures old(!isOpen && !file.present) && file.present ==>
                && HasMagic(file.cells) && SizeOk(file.cells)
                && |file.cells| < Ceiling(maxSize, faults.freeSpace) + DATA_ALIGNMENT
                && file.retired == [] && file.initialSize == |file.cells|
                && file.images == old(file.images) + [file.cells]
                && forall k: Key :: file.Sound(k) && Loaded(file.cells, k) == []
      ensures !ok ==> Valid() && !isOpen
      ensures ok ==> isOpen && !freed && key == DeriveKey(passphrase, file.cells)
      ensures ok ==> files == Loaded(file.cells, key)
      ensures ok && file.Sound(key) ==> Valid()
    {
      hide *;
      done := Flushes([], [], []);
      if isOpen {
        done := CloseOpen(block, dirtyFiles);
        ShownIs();
        SoundIsPresent(key);
        ghost var f, storing := old(files), InUse(old(files), dirtyFiles);
        OfParts(f, storing, done);
        ok := OpenExisting(passphrase, faults);
        OfParts(f, storing, done);
      } else {
        ok := OpenAnew(passphrase, maxSize, faults);
      }
    }

    lemma SoundIsPresent(k: Key)
      requires file.Sound(k)
      ensures file.present
    {
    }

    /** No open files, no records, no host file in use. */
    method Release()
      requires Valid()
      modifies this`files, this`isOpen, this`openFiles
      ensures Valid() && !isOpen && files == [] && openFiles == {}
    {
      openFiles := {};
      isOpen := false;
      files := [];
    }

    /** The last step of the destructor, once the container is closed. */
    method Delete()
      requires Valid() && !isOpen
      modifies this`freed
      ensures freed
    {
      freed := true;
    }

    /**
     * The new name is not looked up.  When another file has it, the rename
     * goes through and leaves two records of one name, in memory and on disk.
     */
    method RenameFile(oldName: Bytes, newName: Bytes) returns (ok: bool)
      requires Valid() && isOpen
      modifies this`files, file`cells, file`images
      ensures ok <==> oldName in old(Shown()) && |newName| <= MAX_FILENAME_BYTES
      ensures Valid() <==> !(ok && newName != oldName && newName in old(Shown()))
      ensures Valid() ==>
                Shown() == if ok then Drop(old(Shown()), oldName)[newName := old(Shown())[oldName]] else old(Shown())
      ensures var k := IndexOfName(old(files), oldName);
              files == if ok && k >= 0 then old(files)[k := old(files)[k].(filename := newName)] else old(files)
      ensures forall i :: 0 <= i < SLOT_COUNT ==> DecodeSlot(file.cells, key, i) == BySlot(files, i)
      ensures TOTAL_HEADER <= |old(file.cells)| && TOTAL_HEADER <= |file.cells|
      ensures NothingForeign(old(file.cells), file.cells, key)
      ensures file.images == old(file.images) + if ok then [file.cells] else []
    {
      hide *;
      OpenFacts();
      StillThere();
      ShownIs();
      ShownAt(oldName);
      ShownAt(newName);
      ghost var c, f := file.cells, files;
      ConsistentParts(c, key, f);
      PublicPartFirst();
      var idx := FindFileSlot(oldName);
      NothingForeignSelf(c, key);
      if idx < 0 { return false; }
      if |newName| > MAX_FILENAME_BYTES { return false; }
      RecordFacts(c, key, f, idx);
      NameTakenBy(f, idx, newName);
      var fp := files[idx].(filename := newName);
      files := files[idx := fp];
      ok := EncryptSlot(fp.slotIndex, fp);
      RenamedHeader(c, file.cells, key, f, idx, fp);
      SlotNotForeign(c, file.cells, key, fp.slotIndex);
      if newName != oldName && IndexOfName(f, newName) >= 0 {
        NameTwice(f, idx, IndexOfName(f, newName), fp);
        NotValid();
      } else {
        NameElsewhere(f, idx, newName);
        RenamedOutcome(c, file.cells, key, f, idx, fp, Charge(file.retired), file.initialSize);
        ValidAgain();
        ShownIs();
      }
    }

    lemma NotValid()
      requires isOpen && !AllCompatible(files)
      ensures !Valid()
    {
      hide DecodeSlot, Budget;
    }
  }

  const CHUNK: nat := 1024 * 1024
  const FOUR_GIB: nat := 4 * 1024 * 1024 * 1024
  const MIN_CONTAINER: nat := DATA_START + 1024 * 1024
  /** VFSCAKE1 */
  const MAGIC: Bytes := [86, 70, 83, 67, 65, 75, 69, 49]

  /** The largest size a new container may take. */
  function Ceiling(maxSize: nat, freeSpace: nat): nat {
    if maxSize > 0 && maxSize < freeSpace / 2 then maxSize
    else if maxSize == 0 && FOUR_GIB < freeSpace / 2 then FOUR_GIB
    else freeSpace / 2
  }

  /** Host-side failures of opening a container, and the space the host offers a new one. */
  datatype HostFaults = HostFaults(openFails: bool, kdfFails: bool, freeSpace: nat)

  predicate HasMagic(cells: seq<Cell>)
    ensures HasMagic(cells) ==> HEADER_OFFSET <= |cells|
  {
    HEADER_OFFSET <= |cells| && cells[..MAGIC_SIZE] == PlainCells(MAGIC)
  }

  function DeriveKey(passphrase: Bytes, cells: seq<Cell>): Key
    requires HEADER_OFFSET <= |cells|
  {
    Key(passphrase, cells[MAGIC_SIZE..HEADER_OFFSET])
  }

  /** Only a file that starts with VFSCAKE1 and has room for the salt is opened. */
  lemma MagicIs(cells: seq<Cell>)
    ensures HasMagic(cells) <==>
            |cells| >= 24 && forall i :: 0 <= i < 8 ==> cells[i] == Plain(OfText("VFSCAKE1")[i])
  {
    assert |MAGIC| == 8 && MAGIC == OfText("VFSCAKE1");
    if |cells| >= 24 {
      assert forall i :: 0 <= i < 8 ==> cells[..8][i] == cells[i] && PlainCells(MAGIC)[i] == Plain(MAGIC[i]);
      if HasMagic(cells) { assert forall i :: 0 <= i < 8 ==> cells[i] == PlainCells(MAGIC)[i]; }
    }
  }

  /** The sizes a new file may take: within half the free space, and what the caller allows or else 4 GiB. */
  lemma CeilingIs(maxSize: nat, freeSpace: nat, size: nat)
    ensures size <= Ceiling(maxSize, freeSpace) <==>
            2 * size <= freeSpace && size <= if maxSize > 0 then maxSize else 0x1_0000_0000
  {
  }

  /** Passphrase and salt determine the key, and the key them. */
  lemma DeriveKeyIff(p: Bytes, c: seq<Cell>, q: Bytes, d: seq<Cell>)
    requires HEADER_OFFSET <= |c| && HEADER_OFFSET <= |d|
    ensures DeriveKey(p, c) == DeriveKey(q, d)
            <==> p == q && c[MAGIC_SIZE..HEADER_OFFSET] == d[MAGIC_SIZE..HEADER_OFFSET]
  {
  }

  /** A file sealed under one passphrase alone has no files under another. */
  lemma OtherPassphraseLoadsNothing(cells: seq<Cell>, p: Bytes, q: Bytes)
    requires HEADER_OFFSET <= |cells| && p != q && OnlyUnder(cells, DeriveKey(p, cells))
    ensures Loaded(cells, DeriveKey(q, cells)) == []
  {
    hide DeriveKey, Loaded, OnlyUnder;
    DeriveKeyIff(p, cells, q, cells);
    OtherKeyLoadsNothing(cells, DeriveKey(p, cells), DeriveKey(q, cells));
  }

  predicate CanCreate(files: seq<FilePointer>, filename: Bytes, mode: OpenMode) {
    mode.write && |filename| <= MAX_FILENAME_BYTES && FirstFreeSlotFrom(files, 0) >= 0
  }

  /** openFile has something to hand out. */
  predicate Available(shown: map<Bytes, Bytes>, files: seq<FilePointer>, filename: Bytes, mode: OpenMode) {
    filename in shown || CanCreate(files, filename, mode)
  }

  lemma AvailableIs(shown: map<Bytes, Bytes>, files: seq<FilePointer>, name: Bytes, mode: OpenMode)
    ensures Available(shown, files, name, mode) <==> name in shown || CanCreate(files, name, mode)
  {
    hide CanCreate;
  }

  /** openFile changes the container only when it creates the file. */
  ghost predicate Resolved(c: seq<Cell>, e: seq<Cell>, key: Key, files: seq<FilePointer>, after: seq<FilePointer>,
                           before: seq<seq<Cell>>, images: seq<seq<Cell>>, filename: Bytes, mode: OpenMode)
  {
    if filename !in DiskView(c, key) && CanCreate(files, filename, mode)
    then Created(c, e, key, files, after, before, images, filename)
         && after[|files|].slotIndex == FirstFreeSlotFrom(files, 0)
    else after == files && e == c && images == before
  }

  /** The contents handed out are the file's, or nothing when truncation is asked for. */
  ghost predicate HandsOut(e: seq<Cell>, key: Key, files: seq<FilePointer>, filename: Bytes, mode: OpenMode,
                           slotIndex: int, data: Bytes)
  {
    var k := IndexOfSlot(files, slotIndex);
    && k >= 0 && files[k].filename == filename
    && filename in DiskView(e, key) && data == if mode.truncate then [] else DiskView(e, key)[filename]
  }

  /** The name of the file in a slot. */
  function SlotName(files: seq<FilePointer>, slot: int): Bytes {
    var k := IndexOfSlot(files, slot);
    if k < 0 then [] else files[k].filename
  }

  lemma SlotNameIs(files: seq<FilePointer>, slot: int)
    ensures var k := IndexOfSlot(files, slot); k >= 0 ==> SlotName(files, slot) == files[k].filename
  {
    hide IndexOfSlot;
  }

  lemma SafelyStored(c: seq<Cell>, e: seq<Cell>, key: Key, files: seq<FilePointer>, after: seq<FilePointer>,
                     before: seq<seq<Cell>>, added: seq<seq<Cell>>, k: nat, pt: Bytes)
    requires k < |files| && Stored(c, e, key, files, after, k, pt)
    requires CrashImages(added, key, DiskView(c, key), files[k], pt)
    ensures StoredSafely(c, e, key, files, after, before, before + added, k, pt)
  {
    hide Stored, CrashImages, DiskView;
    assert (before + added)[|before|..] == added;
  }

  /** The outcome of creating `fp`, whose header slot went last. */
  lemma CreatedIs(c: seq<Cell>, g: seq<Cell>, e: seq<Cell>, key: Key, files: seq<FilePointer>, fp: FilePointer,
                  before: seq<seq<Cell>>, images: seq<seq<Cell>>)
    requires DiskView(e, key) == DiskView(c, key)[fp.filename := []] && DiskView(g, key) == DiskView(c, key)
    requires TOTAL_HEADER <= |c| <= |e| && SameHeaderBut(c, e, fp.slotIndex)
    requires EndOfData(files + [fp]) == EndOfData(files) + DATA_ALIGNMENT
    requires images == before + [e] || images == before + [g] + [e]
    requires fp.allocatedSize == DATA_ALIGNMENT
    requires 0 <= fp.slotIndex < SLOT_COUNT && DecodeSlot(e, key, fp.slotIndex) == Some(fp)
    ensures Created(c, e, key, files, files + [fp], before, images, fp.filename)
  {
    hide DiskView, SameHeaderBut, EndOfData, DecodeSlot;
    assert (files + [fp])[..|files|] == files;
  }

  /** The same files, by position, slot and name. */
  ghost predicate SameShape(f: seq<FilePointer>, g: seq<FilePointer>) {
    |f| == |g| && forall k :: 0 <= k < |f| ==> f[k].slotIndex == g[k].slotIndex && f[k].filename == g[k].filename
  }

  lemma SameShapeSelf(f: seq<FilePointer>)
    ensures SameShape(f, f)
  {
  }

  lemma SameShapeTrans(f: seq<FilePointer>, g: seq<FilePointer>, h: seq<FilePointer>)
    requires SameShape(f, g) && SameShape(g, h)
    ensures SameShape(f, h)
  {
  }

  lemma SameShapeIndex(f: seq<FilePointer>, g: seq<FilePointer>, slot: int)
    requires SameShape(f, g)
    ensures IndexOfSlot(f, slot) == IndexOfSlot(g, slot) && SlotName(f, slot) == SlotName(g, slot)
  {
    hide IndexOfSlot;
    var i, j := IndexOfSlot(f, slot), IndexOfSlot(g, slot);
  }

  lemma StoredShape(c: seq<Cell>, e: seq<Cell>, key: Key, files: seq<FilePointer>, after: seq<FilePointer>,
                    before: seq<seq<Cell>>, images: seq<seq<Cell>>, k: int, pt: Bytes)
    requires StoredSafely(c, e, key, files, after, before, images, k, pt)
    ensures 0 <= k < |files| && SameShape(files, after)
    ensures DiskView(e, key) == DiskView(c, key)[files[k].filename := pt]
    ensures EndOfData(after) <= EndOfData(files) + PowerOfTwo.NextPowerOf2(BLOB_OVERHEAD + |pt|)
  {
    hide DiskView, EndOfData, CrashImages, Consistent, SameHeaderBut;
    assert forall j :: 0 <= j < |files| && j != k ==> after[j] == files[j];
  }

  /** Contents stored under a name. */
  datatype FileData = FileData(name: Bytes, data: Bytes)

  /** What a list of stores, one after the other, makes of the files. */
  function StoreAll(v: map<Bytes, Bytes>, stores: seq<FileData>): map<Bytes, Bytes> {
    if stores == [] then v
    else
      var x := stores[|stores| - 1];
      StoreAll(v, stores[..|stores| - 1])[x.name := x.data]
  }

  /** ... and of what they cost. */
  function HeldAll(l: Ledger, stores: seq<FileData>): Ledger {
    if stores == [] then l
    else
      var x := stores[|stores| - 1];
      Held(HeldAll(l, stores[..|stores| - 1]), x.name, x.data)
  }

  /** A crash while files are stored: some of them have been, in order, and the next may be empty. */
  ghost predicate MidStores(key: Key, image: seq<Cell>, v: map<Bytes, Bytes>, stores: seq<FileData>) {
    exists k :: 0 <= k <= |stores|
                && (|| DiskView(image, key) == StoreAll(v, stores[..k])
                    || (k < |stores| && DiskView(image, key) == StoreAll(v, stores[..k])[stores[k].name := []]))
  }

  ghost predicate CloseImages(key: Key, before: seq<seq<Cell>>, images: seq<seq<Cell>>, v: map<Bytes, Bytes>,
                              stores: seq<FileData>)
  {
    && |before| <= |images| && images[..|before|] == before
    && forall j :: |before| <= j < |images| ==> MidStores(key, images[j], v, stores)
  }

  lemma NothingStoredYet(key: Key, before: seq<seq<Cell>>, v: map<Bytes, Bytes>, l: Ledger)
    ensures CloseImages(key, before, before, v, []) && StoreAll(v, []) == v && HeldAll(l, []) == l
  {
  }

  lemma StoreLast(v: map<Bytes, Bytes>, l: Ledger, stores: seq<FileData>, x: FileData)
    ensures StoreAll(v, stores + [x]) == StoreAll(v, stores)[x.name := x.data]
    ensures HeldAll(l, stores + [x]) == Held(HeldAll(l, stores), x.name, x.data)
  {
    hide Held;
    assert (stores + [x])[..|stores|] == stores;
  }

  /** One more file stored, with what a crash meanwhile can leave. */
  lemma OneMoreStored(key: Key, before: seq<seq<Cell>>, mid: seq<seq<Cell>>, images: seq<seq<Cell>>,
                      v: map<Bytes, Bytes>, l: Ledger, stores: seq<FileData>, x: FileData)
    requires CloseImages(key, before, mid, v, stores)
    requires FlushImages(key, mid, images, StoreAll(v, stores), x.name, x.data)
    ensures CloseImages(key, before, images, v, stores + [x])
    ensures StoreAll(v, stores + [x]) == StoreAll(v, stores)[x.name := x.data]
    ensures HeldAll(l, stores + [x]) == Held(HeldAll(l, stores), x.name, x.data)
  {
    hide DiskView, StoreAll, HeldAll, Held, MidStores;
    StoreLast(v, l, stores, x);
    forall j | |before| <= j < |images| ensures MidStores(key, images[j], v, stores + [x]) {
      if j < |mid| {
        assert images[j] == images[..|mid|][j] == mid[j];
        MidStoresGrow(key, images[j], v, stores, x);
      } else {
        MidStoresLast(key, images[j], v, stores, x);
      }
    }
    assert images[..|before|] == images[..|mid|][..|before|] == mid[..|before|];
  }

  lemma MidStoresGrow(key: Key, image: seq<Cell>, v: map<Bytes, Bytes>, stores: seq<FileData>, x: FileData)
    requires MidStores(key, image, v, stores)
    ensures MidStores(key, image, v, stores + [x])
  {
    hide DiskView, StoreAll;
    var k :| 0 <= k <= |stores|
             && (|| DiskView(image, key) == StoreAll(v, stores[..k])
                 || (k < |stores| && DiskView(image, key) == StoreAll(v, stores[..k])[stores[k].name := []]));
    assert (stores + [x])[..k] == stores[..k];
    assert k < |stores| ==> (stores + [x])[k] == stores[k];
  }

  lemma MidStoresLast(key: Key, image: seq<Cell>, v: map<Bytes, Bytes>, stores: seq<FileData>, x: FileData)
    requires DiskView(image, key)
             in {StoreAll(v, stores), StoreAll(v, stores)[x.name := x.data], StoreAll(v, stores)[x.name := []]}
    ensures MidStores(key, image, v, stores + [x])
  {
    hide DiskView, StoreAll;
    var all, n := stores + [x], |stores|;
    assert all[..n] == stores && all[n] == x && all[..n + 1] == all;
    StoreLast(v, Ledger(map[], 0), stores, x);
    if DiskView(image, key) == StoreAll(v, stores)[x.name := x.data] {
      assert DiskView(image, key) == StoreAll(v, all[..n + 1]);
    } else {
      assert DiskView(image, key) == StoreAll(v, all[..n])
             || DiskView(image, key) == StoreAll(v, all[..n])[all[n].name := []];
    }
  }

  /** The open files stored at a close, in the order it took, what was stored, and the records after it. */
  datatype Flushes = Flushes(order: seq<VirtualFile>, stores: seq<FileData>, kept: seq<FilePointer>) {
    /** The files of `s`, each once, under the names their slots had in `f`. */
    ghost predicate Of(f: seq<FilePointer>, s: set<VirtualFile>)
      reads s`data
    {
      && (forall vf :: vf in s ==> vf in order)
      && (forall i, j :: 0 <= i < j < |order| ==> order[i] != order[j])
      && |stores| == |order|
      && forall i :: 0 <= i < |order| ==>
           order[i] in s && stores[i] == FileData(SlotName(f, order[i].slotIndex), order[i].data)
    }
  }

  lemma NothingFlushed(f: seq<FilePointer>, kept: seq<FilePointer>)
    ensures Flushes([], [], kept).Of(f, {})
  {
  }

  lemma OneMoreFlushed(f: seq<FilePointer>, s: set<VirtualFile>, done: Flushes, vf: VirtualFile, kept: seq<FilePointer>)
    requires done.Of(f, s) && vf !in s
    ensures var x := FileData(SlotName(f, vf.slotIndex), vf.data);
            Flushes(done.order + [vf], done.stores + [x], kept).Of(f, s + {vf})
  {
    hide SlotName;
    var order := done.order + [vf];
    assert order[|done.order|] == vf;
    forall u | u in s + {vf} ensures u in order {
      if u in s { assert u in done.order; }
    }
  }

  lemma OfParts(f: seq<FilePointer>, s: set<VirtualFile>, done: Flushes)
    ensures done.Of(f, s) <==>
              && (forall vf :: vf in s ==> vf in done.order)
              && (forall i, j :: 0 <= i < j < |done.order| ==> done.order[i] != done.order[j])
              && |done.stores| == |done.order|
              && forall i :: 0 <= i < |done.order| ==>
                   && done.order[i] in s
                   && done.stores[i] == FileData(SlotName(f, done.order[i].slotIndex), done.order[i].data)
  {
    hide SlotName;
  }

  lemma SameFlushes(f: seq<FilePointer>, s: set<VirtualFile>, done: Flushes, kept: seq<FilePointer>)
    ensures done.Of(f, s) <==> done.(kept := kept).Of(f, s)
  {
    hide SlotName;
  }

  /** A crash while a file is flushed shows the old contents, the new ones, or the file empty. */
  ghost predicate FlushImages(key: Key, before: seq<seq<Cell>>, images: seq<seq<Cell>>, v: map<Bytes, Bytes>,
                              name: Bytes, pt: Bytes)
  {
    && |before| <= |images| && images[..|before|] == before
    && forall j :: |before| <= j < |images| ==> DiskView(images[j], key) in {v, v[name := pt], v[name := []]}
  }

  lemma NoImages(key: Key, images: seq<seq<Cell>>, v: map<Bytes, Bytes>, name: Bytes, pt: Bytes)
    ensures FlushImages(key, images, images, v, name, pt)
  {
  }

  lemma StoredImages(c: seq<Cell>, e: seq<Cell>, key: Key, files: seq<FilePointer>, after: seq<FilePointer>,
                     before: seq<seq<Cell>>, images: seq<seq<Cell>>, k: int, pt: Bytes)
    requires StoredSafely(c, e, key, files, after, before, images, k, pt)
    ensures FlushImages(key, before, images, DiskView(c, key), files[k].filename, pt)
  {
    hide DiskView, EndOfData, Stored, Atomic;
    forall j | |before| <= j < |images|
      ensures DiskView(images[j], key)
              in {DiskView(c, key), DiskView(c, key)[files[k].filename := pt],
                  DiskView(c, key)[files[k].filename := []]} {
      assert images[j] == images[|before|..][j - |before|];
    }
  }

  lemma StoredOwn(c: seq<Cell>, e: seq<Cell>, key: Key, files: seq<FilePointer>, after: seq<FilePointer>,
                         before: seq<seq<Cell>>, images: seq<seq<Cell>>, k: int, pt: Bytes)
    requires StoredSafely(c, e, key, files, after, before, images, k, pt)
    ensures NothingForeign(c, e, key)
  {
    hide DiskView, EndOfData, CrashImages, NameList, Placed, AllCompatible, OpenBlob, DecodeSlot;
    SlotNotForeign(c, e, key, files[k].slotIndex);
  }

  lemma MulAtLeast(n: nat, m: nat)
    requires n >= 1
    ensures n * m >= m
  {
  }

  lemma OneOutOf(storing: set<VirtualFile>, dirty: set<VirtualFile>, todo: set<VirtualFile>, vf: VirtualFile)
    requires vf in todo && storing <= dirty
    ensures vf in dirty - (storing - todo) <==> vf in dirty
    ensures storing - (todo - {vf}) == if vf in storing then (storing - todo) + {vf} else storing - todo
    ensures dirty - (storing - (todo - {vf}))
         == if vf in storing then dirty - (storing - todo) - {vf} else dirty - (storing - todo)
  {
  }

  /** Those whose file is still there. */
  ghost function InUse(f: seq<FilePointer>, s: set<VirtualFile>): set<VirtualFile> {
    set vf | vf in s && IndexOfSlot(f, vf.slotIndex) >= 0
  }

  lemma InUseIs(f: seq<FilePointer>, s: set<VirtualFile>)
    ensures forall vf :: vf in s ==> (vf in InUse(f, s) <==> IndexOfSlot(f, vf.slotIndex) >= 0)
    ensures InUse(f, s) <= s
  {
    hide IndexOfSlot;
  }

  /** n blocks of a size. */
  function Total(n: nat, block: nat): nat { n * block }

  lemma OneLess(s: set<VirtualFile>, vf: VirtualFile, block: nat)
    requires vf in s
    ensures Total(|s - {vf}|, block) + block == Total(|s|, block)
  {
    assert |s - {vf}| == |s| - 1;
    MulStep(|s|, block);
  }

  lemma MulStep(n: nat, m: nat)
    requires n >= 1
    ensures (n - 1) * m + m == n * m
  {
  }

  lemma OverwritePlain(cells: seq<Cell>, off: nat, data: Bytes)
    requires AllPlain(cells) && off + |data| <= |cells|
    ensures AllPlain(Overwrite(cells, off, PlainCells(data)))
  {
  }

  lemma AlignmentFits()
    ensures 0 < DATA_ALIGNMENT < TWO_64
  {
  }

  lemma AppendedIndex(files: seq<FilePointer>, fp: FilePointer)
    requires IndexOfSlot(files, fp.slotIndex) < 0 && IndexOfName(files, fp.filename) < 0
    ensures IndexOfSlot(files + [fp], fp.slotIndex) == |files| == IndexOfName(files + [fp], fp.filename)
  {
    hide IndexOfSlot, IndexOfName;
    var after := files + [fp];
    assert after[|files|] == fp && after[..|files|] == files;
    assert forall k :: 0 <= k < |files| ==> after[k] == files[k];
  }

  lemma AllocatedAtLeast(c: seq<Cell>, fp: FilePointer)
    requires Placed(c, fp)
    ensures fp.allocatedSize >= DATA_ALIGNMENT
  {
  }

  lemma DropMissing<K(!new), V>(m: map<K, V>, k: K)
    requires k !in m
    ensures Drop(m, k) == m
  {
  }

  lemma HeaderPrefix(c: seq<Cell>, d: seq<Cell>, slot: int)
    requires TOTAL_HEADER <= |c| && TOTAL_HEADER <= |d| && SameHeaderBut(c, d, slot)
    ensures HEADER_OFFSET <= |c| && HEADER_OFFSET <= |d| && d[..HEADER_OFFSET] == c[..HEADER_OFFSET]
  {
  }

  /** Opening a file shows nothing new under other keys. */
  lemma ResolvedOwn(c: seq<Cell>, e: seq<Cell>, key: Key, files: seq<FilePointer>, after: seq<FilePointer>,
                    before: seq<seq<Cell>>, images: seq<seq<Cell>>, filename: Bytes, mode: OpenMode)
    requires Resolved(c, e, key, files, after, before, images, filename, mode) && HEADER_OFFSET <= |c|
    ensures NothingForeign(c, e, key)
  {
    hide DiskView, CanCreate, EndOfData, DecodeSlot, SameHeaderBut, NothingForeign;
    if filename !in DiskView(c, key) && CanCreate(files, filename, mode) {
      SlotNotForeign(c, e, key, after[|files|].slotIndex);
    } else {
      NothingForeignSelf(c, key);
    }
  }

  lemma ClearedOwn(c: seq<Cell>, e: seq<Cell>, key: Key, slot: nat)
    requires slot < SLOT_COUNT && TOTAL_HEADER <= |c| && TOTAL_HEADER <= |e| && SameHeaderBut(c, e, slot)
    requires forall q: Key :: DecodeSlot(e, q, slot) == None
    ensures NothingForeign(c, e, key)
  {
    hide *;
    SlotNotForeign(c, e, key, slot);
  }

  /** Magic and salt stay where they are. */
  lemma HeaderSame(c: seq<Cell>, e: seq<Cell>, passphrase: Bytes)
    requires HEADER_OFFSET <= |c| && HEADER_OFFSET <= |e| && e[..HEADER_OFFSET] == c[..HEADER_OFFSET]
    ensures (HasMagic(e) <==> HasMagic(c)) && DeriveKey(passphrase, e) == DeriveKey(passphrase, c)
  {
    assert e[MAGIC_SIZE..HEADER_OFFSET] == e[..HEADER_OFFSET][MAGIC_SIZE..HEADER_OFFSET];
    assert c[MAGIC_SIZE..HEADER_OFFSET] == c[..HEADER_OFFSET][MAGIC_SIZE..HEADER_OFFSET];
    assert e[..MAGIC_SIZE] == e[..HEADER_OFFSET][..MAGIC_SIZE];
    assert c[..MAGIC_SIZE] == c[..HEADER_OFFSET][..MAGIC_SIZE];
  }

  lemma PublicPartCarries(c: seq<Cell>, e: seq<Cell>, key: Key, password: Bytes)
    requires NothingForeign(c, e, key)
    ensures HEADER_OFFSET <= |c| && HEADER_OFFSET <= |e|
    ensures DeriveKey(password, e) == DeriveKey(password, c) && (HasMagic(e) <==> HasMagic(c))
  {
    hide DeriveKey, HasMagic;
    HeaderSame(c, e, password);
  }

  lemma PublicPartFirst()
    ensures HEADER_OFFSET <= TOTAL_HEADER
  {
  }

  /** The header still agrees with the records after a rename, whatever the name. */
  lemma RenamedHeader(c: seq<Cell>, e: seq<Cell>, key: Key, files: seq<FilePointer>, k: nat, fp: FilePointer)
    requires Consistent(c, key, files) && k < |files| && fp == files[k].(filename := fp.filename)
    requires 0 <= fp.slotIndex < SLOT_COUNT && SameOutside(c, e, SlotOffset(fp.slotIndex), SLOT_SIZE)
    requires DecodeSlot(e, key, fp.slotIndex) == Some(fp)
    ensures forall i :: 0 <= i < SLOT_COUNT ==> DecodeSlot(e, key, i) == BySlot(files[k := fp], i)
    ensures TOTAL_HEADER <= |c| == |e| && SameHeaderBut(c, e, fp.slotIndex)
  {
    hide *;
    ConsistentParts(c, key, files);
    OutsideSize(c, e, SlotOffset(fp.slotIndex), SLOT_SIZE);
    SlotWriteKeepsHeader(c, e, fp.slotIndex);
    SameCellsSameSlots(c, e, key, fp.slotIndex);
    forall i | 0 <= i < SLOT_COUNT ensures DecodeSlot(e, key, i) == BySlot(files[k := fp], i) {
      SameSlot(c, e, key, fp.slotIndex, i);
      ReplacedSlot(files, k, fp, i);
    }
  }

  lemma NameTwice(files: seq<FilePointer>, k: nat, j: nat, fp: FilePointer)
    requires k < |files| && j < |files| && j != k && files[j].filename == fp.filename
    ensures !AllCompatible(files[k := fp])
  {
    var after := files[k := fp];
    if j < k { assert !Compatible(after[j], after[k]); } else { assert !Compatible(after[k], after[j]); }
  }

  lemma NameTakenBy(files: seq<FilePointer>, k: nat, newName: Bytes)
    requires k < |files|
    ensures newName != files[k].filename ==> IndexOfName(files, newName) != k
  {
    hide IndexOfName;
  }

  lemma NameElsewhere(files: seq<FilePointer>, k: nat, newName: Bytes)
    requires k < |files| && (newName != files[k].filename ==> IndexOfName(files, newName) < 0) && AllCompatible(files)
    ensures forall j :: 0 <= j < |files| && j != k ==> files[j].filename != newName
  {
    hide IndexOfName;
    forall j | 0 <= j < |files| && j != k ensures files[j].filename != newName {
      if j < k { assert Compatible(files[j], files[k]); } else { assert Compatible(files[k], files[j]); }
    }
  }

  /**
   * A decrypted file held in memory, written back to its container when it is
   * flushed or closed.
   */
  class VirtualFile {
    var container: EncryptedVFSContainer?
    const slotIndex: int
    const mode: OpenMode
    var data: Bytes
    var pos: nat
    var dirty: bool
    var isOpen: bool
    ghost var freed: bool

    constructor (container: EncryptedVFSContainer, slotIndex: int, data: Bytes, mode: OpenMode)
      modifies container.file`handles
      ensures container.file.handles == old(container.file.handles) + {this}
      ensures Fresh(container, mode) && this.slotIndex == slotIndex && this.data == data
    {
      this.container := container;
      this.slotIndex := slotIndex;
      this.mode := mode;
      this.data := data;
      pos := 0;
      dirty := false;
      isOpen := true;
      freed := false;
      new;
      container.file.handles := container.file.handles + {this};
    }

    ghost predicate Fresh(c: EncryptedVFSContainer, m: OpenMode)
      reads this`container, this`pos, this`dirty, this`isOpen, this`freed
    {
      container == c && mode == m && pos == 0 && !dirty && isOpen && !freed
    }

    ghost function Containers(): set<EncryptedVFSContainer>
      reads this`container
    {
      if container == null then {} else {container}
    }

    ghost function HostFiles(): set<HostFile>
      reads this`container
    {
      if container == null then {} else {container.file}
    }

    /** Flushing writes the container only when there is something to write and somewhere to write it. */
    ghost predicate Flushes()
      reads this`dirty, this`container, Containers()`isOpen
    {
      dirty && container != null && container.isOpen
    }

    ghost predicate Writable()
      reads this`container, this`data, this`freed, this`dirty, Containers(), HostFiles()
    {
      !freed && (container != null ==> container.Valid() && (dirty && container.isOpen ==> Room(container.files, data)))
    }

    /** Past the end, a writable buffer is filled up with zeros, which does not count as a write. */
    method Seek(p: nat) returns (ok: bool)
      requires !freed
      modifies this`pos, (if p > |data| then {this} else {})`data
      ensures ok <==> isOpen && (p <= |old(data)| || mode.write)
      ensures pos == if ok then p else old(pos)
      ensures data == if ok && p > |old(data)| then old(data) + Zeros(p - |old(data)|) else old(data)
    {
      if !isOpen { return false; }
      if p > |data| {
        if !mode.write { return false; }
        data := data + Zeros(p - |data|);
      }
      pos := p;
      ok := true;
    }

    method ReadAll() returns (r: Bytes)
      requires !freed && pos <= |data|
      modifies this`pos
      ensures r == if isOpen && mode.read then old(data[pos..]) else []
      ensures pos <= |data|
    {
      if !isOpen || !mode.read { return []; }
      r := data[pos..];
      pos := |data|;
    }

    /** Overwrites from the current position, extending the buffer where needed; -1 when not writable. */
    method Write(buf: Bytes) returns (written: int)
      requires !freed && (isOpen && mode.write ==> pos <= |data|)
      modifies this`data, this`pos, this`dirty
      ensures !isOpen || !mode.write ==> written == -1 && data == old(data) && pos == old(pos) && dirty == old(dirty)
      ensures isOpen && mode.write ==>
                && written == |buf| && dirty && pos == old(pos) + |buf| <= |data|
                && data == old(data)[..old(pos)] + buf
                           + (if old(pos) + |buf| <= |old(data)| then old(data)[old(pos) + |buf|..] else [])
    {
      if !isOpen || !mode.write { return -1; }
      dirty := true;
      data := data[..pos] + buf + (if pos + |buf| <= |data| then data[pos + |buf|..] else []);
      pos := pos + |buf|;
      written := |buf|;
    }

    lemma FlushesWhen()
      requires Writable()
      ensures Flushes() <==> dirty && container != null && container.isOpen
      ensures container != null ==> container.Valid() && Containers() == {container} && HostFiles() == {container.file}
      ensures Flushes() && container != null ==> Room(container.files, data)
    {
    }

    /** The buffer is cut without going through `Write`. */
    method ResizeBuffer(size: nat)
      requires !freed && size <= |data| && pos <= size
      modifies this`data
      ensures data == old(data)[..size]
    {
      data := data[..size];
    }

    method Flush() returns (ok: bool)
      requires Writable()
      modifies this`dirty, Containers()`files, HostFiles()`cells, HostFiles()`images
      ensures container != null ==> container.Valid()
      ensures !old(Flushes()) ==> ok == !dirty && dirty == old(dirty) && (container != null ==>
                && container.files == old(container.files) && container.file.cells == old(container.file.cells)
                && container.file.images == old(container.file.images))
      ensures old(Flushes()) ==> dirty == !ok && (ok <==> IndexOfSlot(old(container.files), slotIndex) >= 0)
      ensures old(Flushes()) && !ok ==>
                && container.files == old(container.files) && container.file.cells == old(container.file.cells)
                && container.file.images == old(container.file.images)
      ensures old(Flushes()) && ok ==>
                StoredSafely(old(container.file.cells), container.file.cells, container.key, old(container.files),
                             container.files, old(container.file.images), container.file.images,
                             IndexOfSlot(old(container.files), slotIndex), data)
    {
      hide *;
      FlushesWhen();
      if !dirty || container == null || !container.isOpen { return !dirty; }
      ok := container.WriteFileData(slotIndex, data);
      if ok { dirty := false; }
    }

    /** Written back, untracked, detached from the container. */
    method Close()
      requires Writable()
      modifies this`dirty, this`container, this`isOpen
      modifies Containers()`files, Containers()`openFiles, HostFiles()`cells, HostFiles()`images
      ensures container == null && !isOpen
      ensures old(container) != null ==>
                old(container).Valid() && old(container).openFiles == old(container.openFiles) - {this}
      ensures !old(Flushes()) && old(container) != null ==>
                && old(container).files == old(container.files)
                   && old(container).file.cells == old(container.file.cells)
                && old(container).file.images == old(container.file.images)
      ensures old(Flushes()) && IndexOfSlot(old(container.files), slotIndex) >= 0 ==>
                StoredSafely(old(container.file.cells), old(container).file.cells, old(container).key,
                             old(container.files), old(container).files, old(container.file.images),
                             old(container).file.images,
                             IndexOfSlot(old(container.files), slotIndex), data)
      ensures old(Flushes()) && IndexOfSlot(old(container.files), slotIndex) < 0 ==>
                && old(container).files == old(container.files)
                   && old(container).file.cells == old(container.file.cells)
                && old(container).file.images == old(container.file.images)
    {
      hide StoredSafely, EncryptedVFSContainer.Valid, Room, IndexOfSlot;
      var flushed := Flush();
      if container != null {
        container.openFiles := container.openFiles - {this};
        container := null;
      }
      isOpen := false;
    }

    /** The last step of the destructor, once the file is closed. */
    method Delete()
      requires !freed && !isOpen
      modifies this`freed
      ensures freed
    {
      freed := true;
    }
  }
}
