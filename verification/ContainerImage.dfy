/**
 * What a container file means: the header a given key decodes, the blobs it
 * points to, and the invariant tying both to the decoded records in memory.
 * Everything here is a function of the file's cells.
 */
module ContainerImage {
  import opened Sequences
  import opened Bytes
  import opened Aead
  import opened FilePointerCodec
  import PowerOfTwo

  const DATA_ALIGNMENT: nat := PowerOfTwo.DATA_ALIGNMENT
  const DATA_START: nat := ((TOTAL_HEADER + DATA_ALIGNMENT - 1) / DATA_ALIGNMENT) * DATA_ALIGNMENT
  /** Host file sizes are signed 64-bit. */
  const TWO_63: nat := 0x8000_0000_0000_0000
  const BLOB_OVERHEAD: nat := NONCE_SIZE + MAC_SIZE

  // ------------------------------------------------------------------
  // Raw file contents
  // ------------------------------------------------------------------

  function Extend(cells: seq<Cell>, size: nat): (r: seq<Cell>)
    ensures |r| == if size <= |cells| then |cells| else size
    ensures r[..|cells|] == cells
  {
    if size <= |cells| then cells else cells + seq(size - |cells|, _ => Plain(0))
  }

  /** Seek to `off` and write `data`. */
  function Overwrite(cells: seq<Cell>, off: nat, data: seq<Cell>): (r: seq<Cell>)
    ensures |r| == if off + |data| <= |cells| then |cells| else off + |data|
    ensures r[off..off + |data|] == data
  {
    var c := Extend(cells, off + |data|);
    c[..off] + data + c[off + |data|..]
  }

  /** Cells outside the written range stay. */
  lemma OverwriteFrame(cells: seq<Cell>, off: nat, data: seq<Cell>, a: nat, b: nat)
    requires a <= b <= |cells| && (b <= off || off + |data| <= a)
    ensures Overwrite(cells, off, data)[a..b] == cells[a..b]
  {
    hide Overwrite;
    var r := Overwrite(cells, off, data);
    forall i | 0 <= i < b - a ensures r[a..b][i] == cells[a..b][i] {
      OverwriteElsewhere(cells, off, data, a + i);
    }
  }

  lemma OverwriteElsewhere(cells: seq<Cell>, off: nat, data: seq<Cell>, i: nat)
    requires i < |cells| && (i < off || off + |data| <= i)
    ensures Overwrite(cells, off, data)[i] == cells[i]
  {
  }

  lemma SubSlice<T>(s: seq<T>, t: seq<T>, lo: nat, hi: nat, a: nat, b: nat)
    requires lo <= a <= b <= hi <= |s| && hi <= |t| && s[lo..hi] == t[lo..hi]
    ensures s[a..b] == t[a..b]
  {
    forall i | 0 <= i < b - a ensures s[a..b][i] == t[a..b][i] {
      assert s[a + i] == s[lo..hi][a + i - lo];
      assert t[a + i] == t[lo..hi][a + i - lo];
    }
  }

  lemma SliceOfSlice<T>(s: seq<T>, lo: nat, hi: nat, a: nat, b: nat)
    requires lo <= hi <= |s| && a <= b <= hi - lo
    ensures s[lo..hi][a..b] == s[lo + a..lo + b]
  {
    forall i | 0 <= i < b - a ensures s[lo..hi][a..b][i] == s[lo + a..lo + b][i] {
      assert s[lo..hi][a + i] == s[lo + a + i];
    }
  }

  // ------------------------------------------------------------------
  // Header slots
  // ------------------------------------------------------------------

  function SlotOffset(i: nat): nat { HEADER_OFFSET + i * SLOT_SIZE }

  function SlotAd(i: nat): Bytes { LittleEndian(i, 4) }

  /** Where things are: 8 bytes of magic and 16 of salt, 4096 slots of 128 bytes, then blocks from 516 KiB on. */
  lemma LayoutIs(i: nat)
    requires i < SLOT_COUNT
    ensures SlotOffset(i) == 24 + 128 * i && SLOT_SIZE == 24 + 88 + 16
    ensures SlotOffset(i) + SLOT_SIZE <= TOTAL_HEADER == 24 + 128 * 4096 <= DATA_START == 129 * 4096
    ensures SlotAd(i) == [i % 256, i / 256, 0, 0]
  {
    ByteAt(i, 4, 0);
    ByteAt(i, 4, 1);
    ByteAt(i, 4, 2);
    ByteAt(i, 4, 3);
    assert Pow256(1) == 0x100 && Pow256(2) == 0x1_0000 && Pow256(3) == 0x100_0000;
    assert i / Pow256(0) == i;
  }

  /** The record in slot `i`, if that slot opens under `key`. */
  function DecodeSlot(cells: seq<Cell>, key: Key, i: nat): (r: Option<FilePointer>)
    ensures r.Some? ==> r.value.slotIndex == i
  {
    var off := SlotOffset(i);
    if |cells| < off + SLOT_SIZE then None
    else
      match Open(key, cells[off..off + NONCE_SIZE], SlotAd(i), cells[off + NONCE_SIZE..off + SLOT_SIZE])
      case None => None
      case Some(pt) =>
        match Deserialize(pt)
        case None => None
        case Some(fp) => Some(fp.(slotIndex := i))
  }

  function SlotImage(key: Key, nonce: Bytes, fp: FilePointer): (r: seq<Cell>)
    requires |nonce| == NONCE_SIZE && 0 <= fp.slotIndex
    ensures |r| == SLOT_SIZE
  {
    PlainCells(nonce) + Seal(key, nonce, SlotAd(fp.slotIndex), Serialize(fp))
  }

  lemma SlotImageDecodes(cells: seq<Cell>, key: Key, nonce: Bytes, fp: FilePointer)
    requires |nonce| == NONCE_SIZE && 0 <= fp.slotIndex && |fp.filename| <= MAX_FILENAME_BYTES
    requires SlotOffset(fp.slotIndex) + SLOT_SIZE <= |cells|
    requires cells[SlotOffset(fp.slotIndex)..SlotOffset(fp.slotIndex) + SLOT_SIZE] == SlotImage(key, nonce, fp)
    ensures DecodeSlot(cells, key, fp.slotIndex) == Some(fp)
  {
    var off := SlotOffset(fp.slotIndex);
    var image := SlotImage(key, nonce, fp);
    SliceOfSlice(cells, off, off + SLOT_SIZE, 0, NONCE_SIZE);
    SliceOfSlice(cells, off, off + SLOT_SIZE, NONCE_SIZE, SLOT_SIZE);
    assert image[0..NONCE_SIZE] == PlainCells(nonce);
    assert image[NONCE_SIZE..SLOT_SIZE] == Seal(key, nonce, SlotAd(fp.slotIndex), Serialize(fp));
    OpenSeal(key, nonce, SlotAd(fp.slotIndex), Serialize(fp));
    RoundTripIffNameFits(fp);
  }

  lemma PlainSlotEmpty(cells: seq<Cell>, key: Key, i: nat)
    requires SlotOffset(i) + SLOT_SIZE <= |cells| ==> AllPlain(cells[SlotOffset(i)..SlotOffset(i) + SLOT_SIZE])
    ensures DecodeSlot(cells, key, i) == None
  {
    var off := SlotOffset(i);
    if off + SLOT_SIZE <= |cells| {
      var slot := cells[off..off + SLOT_SIZE];
      assert cells[off + NONCE_SIZE] == slot[NONCE_SIZE];
      assert cells[off + NONCE_SIZE..off + SLOT_SIZE][0] == cells[off + NONCE_SIZE];
    }
  }

  lemma SlotFrame(c: seq<Cell>, d: seq<Cell>, key: Key, i: nat)
    requires SlotOffset(i) + SLOT_SIZE <= |c| && SlotOffset(i) + SLOT_SIZE <= |d|
    requires c[SlotOffset(i)..SlotOffset(i) + SLOT_SIZE] == d[SlotOffset(i)..SlotOffset(i) + SLOT_SIZE]
    ensures DecodeSlot(c, key, i) == DecodeSlot(d, key, i)
  {
    var off := SlotOffset(i);
    SubSlice(c, d, off, off + SLOT_SIZE, off, off + NONCE_SIZE);
    SubSlice(c, d, off, off + SLOT_SIZE, off + NONCE_SIZE, off + SLOT_SIZE);
  }

  /** The records a trial decryption of slots 0 to n-1 finds, in slot order. */
  function LoadedUpTo(cells: seq<Cell>, key: Key, n: nat): seq<FilePointer>
  {
    if n == 0 then []
    else
      var before := LoadedUpTo(cells, key, n - 1);
      match DecodeSlot(cells, key, n - 1)
      case None => before
      case Some(fp) => before + [fp]
  }

  function Loaded(cells: seq<Cell>, key: Key): seq<FilePointer> {
    LoadedUpTo(cells, key, SLOT_COUNT)
  }

  ghost predicate RecordOf(cells: seq<Cell>, key: Key, n: nat, fp: FilePointer) {
    0 <= fp.slotIndex < n && DecodeSlot(cells, key, fp.slotIndex) == Some(fp)
  }

  ghost predicate Increasing(l: seq<FilePointer>) {
    forall j, k :: 0 <= j < k < |l| ==> l[j].slotIndex < l[k].slotIndex
  }

  ghost predicate Lists(cells: seq<Cell>, key: Key, n: nat, l: seq<FilePointer>) {
    && (forall k :: 0 <= k < |l| ==> RecordOf(cells, key, n, l[k]))
    && (forall fp :: RecordOf(cells, key, n, fp) ==> fp in l)
  }

  lemma ListedBelow(cells: seq<Cell>, key: Key, n: nat, l: seq<FilePointer>, k: nat)
    requires Lists(cells, key, n, l) && k < |l|
    ensures l[k].slotIndex < n
  {
    assert RecordOf(cells, key, n, l[k]);
  }

  lemma ListsStep(cells: seq<Cell>, key: Key, n: nat, l: seq<FilePointer>)
    requires n > 0 && Lists(cells, key, n - 1, l)
    ensures DecodeSlot(cells, key, n - 1) == None ==> Lists(cells, key, n, l)
    ensures DecodeSlot(cells, key, n - 1).Some? ==> Lists(cells, key, n, l + [DecodeSlot(cells, key, n - 1).value])
  {
    hide DecodeSlot;
    forall fp | RecordOf(cells, key, n, fp) && fp.slotIndex < n - 1 ensures fp in l {
      assert RecordOf(cells, key, n - 1, fp);
    }
    forall k | 0 <= k < |l| ensures RecordOf(cells, key, n, l[k]) {
      assert RecordOf(cells, key, n - 1, l[k]);
    }
  }

  lemma IncreasingStep(l: seq<FilePointer>, fp: FilePointer)
    requires Increasing(l) && forall k :: 0 <= k < |l| ==> l[k].slotIndex < fp.slotIndex
    ensures Increasing(l + [fp])
  {
  }

  lemma NoneListed(cells: seq<Cell>, key: Key)
    ensures Lists(cells, key, 0, []) && Increasing([])
  {
    hide DecodeSlot;
  }

  /** The trial decryption lists, in slot order, exactly what slots 0 to n-1 decode to. */
  lemma {:induction false} LoadedRecords(cells: seq<Cell>, key: Key, n: nat)
    ensures Increasing(LoadedUpTo(cells, key, n))
    ensures Lists(cells, key, n, LoadedUpTo(cells, key, n))
  {
    hide DecodeSlot, Lists, Increasing;
    if n == 0 {
      NoneListed(cells, key);
    } else {
      var before := LoadedUpTo(cells, key, n - 1);
      LoadedRecords(cells, key, n - 1);
      ListsStep(cells, key, n, before);
      forall k | 0 <= k < |before| ensures before[k].slotIndex < n - 1 {
        ListedBelow(cells, key, n - 1, before, k);
      }
      if DecodeSlot(cells, key, n - 1).Some? { IncreasingStep(before, DecodeSlot(cells, key, n - 1).value); }
    }
  }

  lemma {:induction false} LoadedDependsOnSlots(c: seq<Cell>, d: seq<Cell>, key: Key, n: nat)
    requires forall i :: 0 <= i < n ==> DecodeSlot(c, key, i) == DecodeSlot(d, key, i)
    ensures LoadedUpTo(c, key, n) == LoadedUpTo(d, key, n)
  {
    hide DecodeSlot;
    if n > 0 { LoadedDependsOnSlots(c, d, key, n - 1); }
  }

  // ------------------------------------------------------------------
  // Searching the decoded records
  // ------------------------------------------------------------------

  function IndexOfSlotFrom(files: seq<FilePointer>, slot: int, from: nat): (r: int)
    requires from <= |files|
    ensures r == -1 || from <= r < |files|
    ensures r >= 0 ==> files[r].slotIndex == slot
    ensures forall k :: from <= k < (if r >= 0 then r else |files|) ==> files[k].slotIndex != slot
    decreases |files| - from
  {
    if from == |files| then -1
    else if files[from].slotIndex == slot then from
    else IndexOfSlotFrom(files, slot, from + 1)
  }

  function IndexOfSlot(files: seq<FilePointer>, slot: int): (r: int)
    ensures r == -1 || 0 <= r < |files|
    ensures r >= 0 ==> files[r].slotIndex == slot
    ensures forall k :: 0 <= k < (if r >= 0 then r else |files|) ==> files[k].slotIndex != slot
  {
    IndexOfSlotFrom(files, slot, 0)
  }

  function BySlot(files: seq<FilePointer>, slot: int): Option<FilePointer> {
    var k := IndexOfSlot(files, slot);
    if k < 0 then None else Some(files[k])
  }

  function IndexOfNameFrom(files: seq<FilePointer>, name: Bytes, from: nat): (r: int)
    requires from <= |files|
    ensures r == -1 || from <= r < |files|
    ensures r >= 0 ==> files[r].filename == name
    ensures forall k :: from <= k < (if r >= 0 then r else |files|) ==> files[k].filename != name
    decreases |files| - from
  {
    if from == |files| then -1
    else if files[from].filename == name then from
    else IndexOfNameFrom(files, name, from + 1)
  }

  function IndexOfName(files: seq<FilePointer>, name: Bytes): (r: int)
    ensures r == -1 || 0 <= r < |files|
    ensures r >= 0 ==> files[r].filename == name
    ensures forall k :: 0 <= k < (if r >= 0 then r else |files|) ==> files[k].filename != name
  {
    IndexOfNameFrom(files, name, 0)
  }

  function NameList(files: seq<FilePointer>): (r: seq<Bytes>)
    ensures |r| == |files|
  {
    seq(|files|, k requires 0 <= k < |files| => files[k].filename)
  }

  function Names(files: seq<FilePointer>): set<Bytes> {
    set k | 0 <= k < |files| :: files[k].filename
  }

  lemma NameFound(files: seq<FilePointer>, name: Bytes)
    ensures name in Names(files) <==> IndexOfName(files, name) >= 0
  {
  }

  // ------------------------------------------------------------------
  // Blobs
  // ------------------------------------------------------------------

  function OpenBlob(cells: seq<Cell>, key: Key, fp: FilePointer): Option<Bytes>
  {
    if fp.usedSize == 0 then Some([])
    else if fp.dataOffset + BLOB_OVERHEAD + fp.usedSize > |cells| then None
    else
      Open(key, cells[fp.dataOffset..fp.dataOffset + NONCE_SIZE], fp.id,
           cells[fp.dataOffset + NONCE_SIZE..fp.dataOffset + BLOB_OVERHEAD + fp.usedSize])
  }

  /** The file's contents; empty when the blob does not open. */
  function ReadBlob(cells: seq<Cell>, key: Key, fp: FilePointer): Bytes {
    match OpenBlob(cells, key, fp)
    case None => []
    case Some(pt) => pt
  }

  function BlobImage(key: Key, nonce: Bytes, fp: FilePointer, pt: Bytes, pad: Bytes): (r: seq<Cell>)
    requires |nonce| == NONCE_SIZE
    ensures |r| == BLOB_OVERHEAD + |pt| + |pad|
  {
    PlainCells(nonce) + Seal(key, nonce, fp.id, pt) + PlainCells(pad)
  }

  lemma BlobImageOpens(cells: seq<Cell>, key: Key, nonce: Bytes, fp: FilePointer, pt: Bytes, pad: Bytes)
    requires |nonce| == NONCE_SIZE && |pt| > 0
    requires fp.dataOffset + BLOB_OVERHEAD + |pt| + |pad| <= |cells|
    requires cells[fp.dataOffset..fp.dataOffset + BLOB_OVERHEAD + |pt| + |pad|] == BlobImage(key, nonce, fp, pt, pad)
    ensures fp.usedSize == |pt| ==> OpenBlob(cells, key, fp) == Some(pt)
    ensures fp.usedSize != |pt| && 0 < fp.usedSize && BLOB_OVERHEAD + fp.usedSize <= BLOB_OVERHEAD + |pt| + |pad|
            ==> OpenBlob(cells, key, fp) == None
  {
    var off, size := fp.dataOffset, BLOB_OVERHEAD + |pt| + |pad|;
    var block, ct := BlobImage(key, nonce, fp, pt, pad), Seal(key, nonce, fp.id, pt);
    SliceOfSlice(cells, off, off + size, 0, NONCE_SIZE);
    assert block[0..NONCE_SIZE] == PlainCells(nonce);
    assert block[NONCE_SIZE..BLOB_OVERHEAD + |pt|] == ct;
    if 0 < fp.usedSize <= |pt| + |pad| {
      SliceOfSlice(cells, off, off + size, NONCE_SIZE, BLOB_OVERHEAD + fp.usedSize);
      var window := block[NONCE_SIZE..BLOB_OVERHEAD + fp.usedSize];
      assert window[0] == block[NONCE_SIZE] == ct[0];
      assert |window| != |ct| || window == ct;
      OpenSeal(key, nonce, fp.id, pt);
    }
  }

  lemma BlobFrame(c: seq<Cell>, d: seq<Cell>, key: Key, fp: FilePointer)
    requires Placed(c, fp) && Placed(d, fp) && SameBlock(c, d, fp)
    ensures OpenBlob(c, key, fp) == OpenBlob(d, key, fp)
  {
    if fp.usedSize > 0 {
      var off := fp.dataOffset;
      SubSlice(c, d, off, off + fp.allocatedSize, off, off + NONCE_SIZE);
      SubSlice(c, d, off, off + fp.allocatedSize, off + NONCE_SIZE, off + BLOB_OVERHEAD + fp.usedSize);
    }
  }

  // ------------------------------------------------------------------
  // The container invariant
  // ------------------------------------------------------------------

  ghost predicate Placed(cells: seq<Cell>, fp: FilePointer)
    ensures Placed(cells, fp) ==> 0 <= fp.slotIndex < SLOT_COUNT
    ensures Placed(cells, fp) ==> TOTAL_HEADER <= fp.dataOffset && fp.dataOffset + fp.allocatedSize <= |cells|
  {
    && 0 <= fp.slotIndex < SLOT_COUNT
    && |fp.filename| <= MAX_FILENAME_BYTES
    && fp.dataOffset % DATA_ALIGNMENT == 0
    && DATA_START <= fp.dataOffset
    && PowerOfTwo.IsPow2(fp.allocatedSize) && DATA_ALIGNMENT <= fp.allocatedSize
    && fp.dataOffset + fp.allocatedSize <= |cells|
    && (fp.usedSize > 0 ==> BLOB_OVERHEAD + fp.usedSize <= fp.allocatedSize)
  }

  ghost predicate SameBlock(c: seq<Cell>, d: seq<Cell>, fp: FilePointer)
    requires fp.dataOffset + fp.allocatedSize <= |c| && fp.dataOffset + fp.allocatedSize <= |d|
  {
    c[fp.dataOffset..fp.dataOffset + fp.allocatedSize] == d[fp.dataOffset..fp.dataOffset + fp.allocatedSize]
  }

  predicate Disjoint(a: FilePointer, b: FilePointer) {
    a.dataOffset + a.allocatedSize <= b.dataOffset || b.dataOffset + b.allocatedSize <= a.dataOffset
  }

  ghost predicate Compatible(a: FilePointer, b: FilePointer) {
    a.slotIndex != b.slotIndex && a.filename != b.filename && Disjoint(a, b)
  }

  ghost predicate SizeOk(cells: seq<Cell>)
    ensures SizeOk(cells) ==> TOTAL_HEADER <= |cells|
  {
    DATA_START <= |cells| < TWO_63
  }

  /** The records in memory are, slot by slot, what the header decodes to; their blocks are sound, apart, and open. */
  ghost predicate Consistent(cells: seq<Cell>, key: Key, files: seq<FilePointer>)
  {
    && SizeOk(cells)
    && (forall k :: 0 <= k < |files| ==> Placed(cells, files[k]))
    && (forall k :: 0 <= k < |files| ==> OpenBlob(cells, key, files[k]).Some?)
    && AllCompatible(files)
    && (forall i :: 0 <= i < SLOT_COUNT ==> DecodeSlot(cells, key, i) == BySlot(files, i))
  }

  lemma ConsistentParts(cells: seq<Cell>, key: Key, files: seq<FilePointer>)
    requires Consistent(cells, key, files)
    ensures SizeOk(cells) && AllCompatible(files) && TOTAL_HEADER <= |cells|
    ensures forall k :: 0 <= k < |files| ==> Placed(cells, files[k])
    ensures forall k :: 0 <= k < |files| ==> OpenBlob(cells, key, files[k]).Some?
    ensures forall i :: 0 <= i < SLOT_COUNT ==> DecodeSlot(cells, key, i) == BySlot(files, i)
  {
  }

  lemma IsConsistent(cells: seq<Cell>, key: Key, files: seq<FilePointer>)
    requires SizeOk(cells) && AllCompatible(files)
    requires forall k :: 0 <= k < |files| ==> Placed(cells, files[k]) && OpenBlob(cells, key, files[k]).Some?
    requires forall i :: 0 <= i < SLOT_COUNT ==> DecodeSlot(cells, key, i) == BySlot(files, i)
    ensures Consistent(cells, key, files)
  {
  }

  /** File names and contents as the records in memory show them. */
  function View(cells: seq<Cell>, key: Key, files: seq<FilePointer>): map<Bytes, Bytes>
  {
    map name | name in Names(files) ::
      var k := IndexOfName(files, name);
      if k < 0 then [] else ReadBlob(cells, key, files[k])
  }

  /** File names and contents as a fresh open of the container shows them. */
  function DiskView(cells: seq<Cell>, key: Key): map<Bytes, Bytes> {
    View(cells, key, Loaded(cells, key))
  }

  /** `m` without the entry for `k`. */
  function Drop<K(!new), V>(m: map<K, V>, k: K): (r: map<K, V>)
    ensures k !in r
    ensures forall x :: x in r <==> x in m && x != k
    ensures forall x :: x in r ==> r[x] == m[x]
  {
    map x | x in m && x != k :: m[x]
  }

  lemma SameMap<K(!new), V>(a: map<K, V>, b: map<K, V>)
    requires forall k :: (k in a <==> k in b) && (k in a ==> a[k] == b[k])
    ensures a == b
  {
  }

  ghost predicate AllCompatible(files: seq<FilePointer>) {
    forall i, j :: 0 <= i < j < |files| ==> Compatible(files[i], files[j])
  }

  lemma ViewAt(cells: seq<Cell>, key: Key, files: seq<FilePointer>, k: nat)
    requires k < |files| && AllCompatible(files)
    ensures files[k].filename in View(cells, key, files)
    ensures View(cells, key, files)[files[k].filename] == ReadBlob(cells, key, files[k])
    ensures IndexOfName(files, files[k].filename) == k && IndexOfSlot(files, files[k].slotIndex) == k
  {
    hide ReadBlob, IndexOfName, IndexOfSlot;
    var i := IndexOfName(files, files[k].filename);
    assert i == k;
    var j := IndexOfSlot(files, files[k].slotIndex);
    assert j == k;
  }

  lemma ViewEntry(cells: seq<Cell>, key: Key, files: seq<FilePointer>, name: Bytes) returns (k: nat)
    requires name in View(cells, key, files)
    ensures k < |files| && files[k].filename == name && IndexOfName(files, name) == k
    ensures View(cells, key, files)[name] == ReadBlob(cells, key, files[k])
  {
    hide ReadBlob, IndexOfName;
    k := IndexOfName(files, name);
  }

  lemma SlotEntry(cells: seq<Cell>, key: Key, files: seq<FilePointer>, fp: FilePointer)
    requires Consistent(cells, key, files)
    ensures RecordOf(cells, key, SLOT_COUNT, fp) <==> fp in files
  {
    ConsistentParts(cells, key, files);
    hide Consistent, DecodeSlot, Placed, OpenBlob, View, ReadBlob, IndexOfName, IndexOfSlot, AllCompatible, SizeOk;
    if RecordOf(cells, key, SLOT_COUNT, fp) {
      assert DecodeSlot(cells, key, fp.slotIndex) == BySlot(files, fp.slotIndex);
    }
    if fp in files {
      var k: nat :| k < |files| && files[k] == fp;
      assert Placed(cells, files[k]);
      ViewAt(cells, key, files, k);
      assert DecodeSlot(cells, key, fp.slotIndex) == BySlot(files, fp.slotIndex);
    }
  }

  /** Records with increasing slots that are, as a set, the consistent ones are consistent too. */
  lemma ReorderedCompatible(files: seq<FilePointer>, l: seq<FilePointer>)
    requires AllCompatible(files) && Increasing(l) && forall fp :: fp in l ==> fp in files
    ensures AllCompatible(l)
  {
    forall i, j | 0 <= i < j < |l| ensures Compatible(l[i], l[j]) {
      assert l[i] in l && l[j] in l;
      var m: nat :| m < |files| && files[m] == l[i];
      var n: nat :| n < |files| && files[n] == l[j];
      if m < n { assert Compatible(files[m], files[n]); } else { assert Compatible(files[n], files[m]); }
    }
  }

  lemma ReorderedView(cells: seq<Cell>, key: Key, files: seq<FilePointer>, l: seq<FilePointer>)
    requires AllCompatible(files) && AllCompatible(l) && forall fp :: fp in l <==> fp in files
    ensures View(cells, key, l) == View(cells, key, files)
  {
    hide *;
    forall name | name in View(cells, key, files)
      ensures name in View(cells, key, l) && View(cells, key, l)[name] == View(cells, key, files)[name] {
      var k := ViewEntry(cells, key, files, name);
      assert files[k] in files;
      var m: nat :| m < |l| && l[m] == files[k];
      ViewAt(cells, key, l, m);
    }
    forall name | name in View(cells, key, l) ensures name in View(cells, key, files) {
      var k := ViewEntry(cells, key, l, name);
      assert l[k] in l;
      var m: nat :| m < |files| && files[m] == l[k];
      ViewAt(cells, key, files, m);
    }
  }

  lemma LoadedHeader(cells: seq<Cell>, key: Key, i: nat)
    requires i < SLOT_COUNT && AllCompatible(Loaded(cells, key))
    ensures DecodeSlot(cells, key, i) == BySlot(Loaded(cells, key), i)
  {
    LoadedRecords(cells, key, SLOT_COUNT);
    var l := Loaded(cells, key);
    hide DecodeSlot, View, ReadBlob, IndexOfName, IndexOfSlot, AllCompatible, LoadedUpTo, Increasing;
    match DecodeSlot(cells, key, i)
    case None =>
      var k := IndexOfSlot(l, i);
      if k >= 0 { assert RecordOf(cells, key, SLOT_COUNT, l[k]); }
    case Some(fp) =>
      assert RecordOf(cells, key, SLOT_COUNT, fp);
      var k: nat :| k < |l| && l[k] == fp;
      ViewAt(cells, key, l, k);
  }

  /** Reading the header again gives the same files, as a set, and the same contents. */
  lemma ReloadAgrees(cells: seq<Cell>, key: Key, files: seq<FilePointer>)
    requires Consistent(cells, key, files)
    ensures Consistent(cells, key, Loaded(cells, key))
    ensures multiset(Loaded(cells, key)) == multiset(files)
    ensures DiskView(cells, key) == View(cells, key, files)
  {
    var l := Loaded(cells, key);
    hide *;
    ReloadSameFiles(cells, key, files);
    ConsistentParts(cells, key, files);
    ReorderedCompatible(files, l);
    ReorderedView(cells, key, files, l);
    DiskViewIsView(cells, key);
    forall i | 0 <= i < SLOT_COUNT ensures DecodeSlot(cells, key, i) == BySlot(l, i) {
      LoadedHeader(cells, key, i);
    }
    forall k | 0 <= k < |l| ensures Placed(cells, l[k]) && OpenBlob(cells, key, l[k]).Some? {
      assert l[k] in l;
    }
    IsConsistent(cells, key, l);
    CompatibleDiffer(l);
    CompatibleDiffer(files);
    SameElements(l, files);
  }

  lemma ReloadSameFiles(cells: seq<Cell>, key: Key, files: seq<FilePointer>)
    requires Consistent(cells, key, files)
    ensures Increasing(Loaded(cells, key))
    ensures forall fp :: fp in Loaded(cells, key) <==> fp in files
  {
    LoadedRecords(cells, key, SLOT_COUNT);
    hide Consistent, RecordOf, LoadedUpTo, Increasing;
    forall fp ensures fp in Loaded(cells, key) <==> fp in files {
      SlotEntry(cells, key, files, fp);
    }
  }

  lemma DiskViewIsView(cells: seq<Cell>, key: Key)
    ensures DiskView(cells, key) == View(cells, key, Loaded(cells, key))
  {
  }

  lemma CompatibleDiffer(files: seq<FilePointer>)
    requires AllCompatible(files)
    ensures forall i, j :: 0 <= i < j < |files| ==> files[i] != files[j]
  {
  }

  lemma {:induction false} DistinctMultiset(s: seq<FilePointer>, x: FilePointer)
    requires forall i, j :: 0 <= i < j < |s| ==> s[i] != s[j]
    ensures multiset(s)[x] == if x in s then 1 else 0
  {
    if s != [] {
      var t := s[..|s| - 1];
      assert s == t + [s[|s| - 1]];
      DistinctMultiset(t, x);
    }
  }

  lemma SameElements(s: seq<FilePointer>, t: seq<FilePointer>)
    requires forall i, j :: 0 <= i < j < |s| ==> s[i] != s[j]
    requires forall i, j :: 0 <= i < j < |t| ==> t[i] != t[j]
    requires forall x :: x in s <==> x in t
    ensures multiset(s) == multiset(t)
  {
    forall x ensures multiset(s)[x] == multiset(t)[x] {
      DistinctMultiset(s, x);
      DistinctMultiset(t, x);
    }
  }

  // ------------------------------------------------------------------
  // How the invariant moves when the file is written
  // ------------------------------------------------------------------

  ghost predicate SameSlotsBut(c: seq<Cell>, d: seq<Cell>, key: Key, slot: int) {
    forall i :: 0 <= i < SLOT_COUNT && i != slot ==> DecodeSlot(c, key, i) == DecodeSlot(d, key, i)
  }

  lemma SameSlot(c: seq<Cell>, d: seq<Cell>, key: Key, slot: int, i: nat)
    requires SameSlotsBut(c, d, key, slot) && i < SLOT_COUNT
    ensures i == slot || DecodeSlot(c, key, i) == DecodeSlot(d, key, i)
  {
    hide DecodeSlot;
  }

  /** Records whose blocks did not change keep their place and their contents. */
  lemma KeepsBlobs(c: seq<Cell>, d: seq<Cell>, key: Key, files: seq<FilePointer>, but: int)
    requires |c| <= |d|
    requires forall k :: 0 <= k < |files| && k != but ==> Placed(c, files[k]) && SameBlock(c, d, files[k])
    ensures forall k :: 0 <= k < |files| && k != but ==>
              Placed(d, files[k]) && OpenBlob(d, key, files[k]) == OpenBlob(c, key, files[k])
  {
    forall k | 0 <= k < |files| && k != but
      ensures Placed(d, files[k]) && OpenBlob(d, key, files[k]) == OpenBlob(c, key, files[k]) {
      hide OpenBlob;
      BlobFrame(c, d, key, files[k]);
    }
  }

  lemma SameSlotsSame(c: seq<Cell>, d: seq<Cell>, key: Key)
    requires SameSlotsBut(c, d, key, -1)
    ensures forall i :: 0 <= i < SLOT_COUNT ==> DecodeSlot(d, key, i) == DecodeSlot(c, key, i)
  {
    hide DecodeSlot;
  }

  lemma SameBlobsSameView(c: seq<Cell>, d: seq<Cell>, key: Key, files: seq<FilePointer>)
    requires forall k :: 0 <= k < |files| ==> OpenBlob(d, key, files[k]) == OpenBlob(c, key, files[k])
    ensures View(d, key, files) == View(c, key, files)
  {
    hide OpenBlob;
  }

  lemma SameReads(c: seq<Cell>, d: seq<Cell>, key: Key, files: seq<FilePointer>, but: int)
    requires forall k :: 0 <= k < |files| && k != but ==> OpenBlob(d, key, files[k]) == OpenBlob(c, key, files[k])
    ensures forall k :: 0 <= k < |files| && k != but ==> ReadBlob(d, key, files[k]) == ReadBlob(c, key, files[k])
  {
    hide OpenBlob;
  }

  /** Nothing the records point to has changed: the same files with the same contents, also after a fresh open. */
  lemma UnchangedImage(c: seq<Cell>, d: seq<Cell>, key: Key, files: seq<FilePointer>)
    requires Consistent(c, key, files) && |c| <= |d| && SizeOk(d)
    requires SameSlotsBut(c, d, key, -1)
    requires forall k :: 0 <= k < |files| ==> SameBlock(c, d, files[k])
    ensures Consistent(d, key, files)
    ensures View(d, key, files) == View(c, key, files)
    ensures DiskView(d, key) == DiskView(c, key)
  {
    hide *;
    ConsistentParts(c, key, files);
    KeepsBlobs(c, d, key, files, -1);
    SameSlotsSame(c, d, key);
    IsConsistent(d, key, files);
    SameBlobsSameView(c, d, key, files);
    ReloadAgrees(c, key, files);
    ReloadAgrees(d, key, files);
  }

  /** One record replaced, its slot rewritten: only that file's entry moves. */
  lemma ReplaceFile(c: seq<Cell>, d: seq<Cell>, key: Key, files: seq<FilePointer>, k: nat, fp: FilePointer)
    requires Consistent(c, key, files) && |c| <= |d| && SizeOk(d) && k < |files|
    requires fp.slotIndex == files[k].slotIndex && Placed(d, fp) && OpenBlob(d, key, fp).Some?
    requires forall j :: 0 <= j < |files| && j != k ==> SameBlock(c, d, files[j]) && Compatible(fp, files[j])
    requires SameSlotsBut(c, d, key, fp.slotIndex) && DecodeSlot(d, key, fp.slotIndex) == Some(fp)
    ensures Consistent(d, key, files[k := fp])
    ensures DiskView(d, key)
         == Drop(DiskView(c, key), files[k].filename)[fp.filename := ReadBlob(d, key, fp)]
  {
    var after := files[k := fp];
    hide *;
    ConsistentParts(c, key, files);
    ReplacedCompatible(files, k, fp);
    KeepsBlobs(c, d, key, files, k);
    forall i | 0 <= i < SLOT_COUNT ensures DecodeSlot(d, key, i) == BySlot(after, i) {
      SameSlot(c, d, key, fp.slotIndex, i);
      ReplacedSlot(files, k, fp, i);
    }
    IsConsistent(d, key, after);
    SameReads(c, d, key, files, k);
    ViewOfReplaced(c, d, key, files, k, fp);
    ReloadAgrees(c, key, files);
    ReloadAgrees(d, key, after);
  }

  lemma ReplacedCompatible(files: seq<FilePointer>, k: nat, fp: FilePointer)
    requires k < |files| && AllCompatible(files)
    requires forall j :: 0 <= j < |files| && j != k ==> Compatible(fp, files[j])
    ensures AllCompatible(files[k := fp])
  {
  }

  lemma ReplacedSlot(files: seq<FilePointer>, k: nat, fp: FilePointer, i: int)
    requires k < |files| && AllCompatible(files) && fp.slotIndex == files[k].slotIndex
    ensures BySlot(files[k := fp], i) == if i == fp.slotIndex then Some(fp) else BySlot(files, i)
  {
    hide IndexOfSlot, Disjoint;
    var after := files[k := fp];
    var was, now := IndexOfSlot(files, i), IndexOfSlot(after, i);
    if was >= 0 { assert after[was].slotIndex == i; }
    if now >= 0 { assert files[now].slotIndex == i; }
  }

  lemma ReplacedEntry(c: seq<Cell>, d: seq<Cell>, key: Key, files: seq<FilePointer>, k: nat, fp: FilePointer,
                      name: Bytes)
    requires k < |files| && AllCompatible(files) && AllCompatible(files[k := fp])
    requires forall j :: 0 <= j < |files| && j != k ==> ReadBlob(d, key, files[j]) == ReadBlob(c, key, files[j])
    requires name != fp.filename
    ensures name in View(d, key, files[k := fp]) <==> name in View(c, key, files) && name != files[k].filename
    ensures name in View(d, key, files[k := fp]) ==> View(d, key, files[k := fp])[name] == View(c, key, files)[name]
  {
    var after := files[k := fp];
    hide *;
    ViewAt(c, key, files, k);
    if name in View(d, key, after) {
      var j := ViewEntry(d, key, after, name);
      assert j != k;
      ViewAt(c, key, files, j);
    } else if name in View(c, key, files) {
      var j := ViewEntry(c, key, files, name);
      if j != k { ViewAt(d, key, after, j); }
    }
  }

  lemma ViewOfReplaced(c: seq<Cell>, d: seq<Cell>, key: Key, files: seq<FilePointer>, k: nat, fp: FilePointer)
    requires k < |files| && AllCompatible(files) && AllCompatible(files[k := fp])
    requires forall j :: 0 <= j < |files| && j != k ==> ReadBlob(d, key, files[j]) == ReadBlob(c, key, files[j])
    ensures View(d, key, files[k := fp])
         == Drop(View(c, key, files), files[k].filename)[fp.filename := ReadBlob(d, key, fp)]
  {
    var left := View(d, key, files[k := fp]);
    var right := Drop(View(c, key, files), files[k].filename)[fp.filename := ReadBlob(d, key, fp)];
    hide *;
    ViewAt(d, key, files[k := fp], k);
    forall name | name != fp.filename
      ensures (name in left <==> name in right) && (name in left ==> left[name] == right[name]) {
      ReplacedEntry(c, d, key, files, k, fp, name);
    }
    SameMap(left, right);
  }

  /** A new record in an unused slot. */
  lemma AddFile(c: seq<Cell>, d: seq<Cell>, key: Key, files: seq<FilePointer>, fp: FilePointer)
    requires Consistent(c, key, files) && |c| <= |d| && SizeOk(d)
    requires Placed(d, fp) && OpenBlob(d, key, fp).Some?
    requires forall j :: 0 <= j < |files| ==> SameBlock(c, d, files[j]) && Compatible(files[j], fp)
    requires SameSlotsBut(c, d, key, fp.slotIndex) && DecodeSlot(d, key, fp.slotIndex) == Some(fp)
    ensures Consistent(d, key, files + [fp])
    ensures DiskView(d, key) == DiskView(c, key)[fp.filename := ReadBlob(d, key, fp)]
  {
    var after := files + [fp];
    hide *;
    ConsistentParts(c, key, files);
    AddedCompatible(files, fp);
    KeepsBlobs(c, d, key, files, -1);
    forall i | 0 <= i < SLOT_COUNT ensures DecodeSlot(d, key, i) == BySlot(after, i) {
      SameSlot(c, d, key, fp.slotIndex, i);
      AddedSlot(files, fp, i);
    }
    IsConsistent(d, key, after);
    SameReads(c, d, key, files, -1);
    ViewOfAdded(c, d, key, files, fp);
    ReloadAgrees(c, key, files);
    ReloadAgrees(d, key, after);
  }

  lemma AddedCompatible(files: seq<FilePointer>, fp: FilePointer)
    requires AllCompatible(files) && forall j :: 0 <= j < |files| ==> Compatible(files[j], fp)
    ensures AllCompatible(files + [fp])
  {
    hide Compatible;
  }

  lemma AddedSlot(files: seq<FilePointer>, fp: FilePointer, i: int)
    requires AllCompatible(files + [fp])
    ensures BySlot(files + [fp], i) == if i == fp.slotIndex then Some(fp) else BySlot(files, i)
  {
    hide IndexOfSlot, Disjoint;
    var after := files + [fp];
    assert after[|files|] == fp;
    var was, now := IndexOfSlot(files, i), IndexOfSlot(after, i);
    if was >= 0 { assert after[was] == files[was] && Compatible(after[was], after[|files|]); }
    if 0 <= now < |files| { assert files[now] == after[now]; }
  }

  lemma ViewOfAdded(c: seq<Cell>, d: seq<Cell>, key: Key, files: seq<FilePointer>, fp: FilePointer)
    requires AllCompatible(files) && AllCompatible(files + [fp])
    requires forall j :: 0 <= j < |files| ==> ReadBlob(d, key, files[j]) == ReadBlob(c, key, files[j])
    ensures View(d, key, files + [fp]) == View(c, key, files)[fp.filename := ReadBlob(d, key, fp)]
  {
    var after := files + [fp];
    var left, right := View(d, key, after), View(c, key, files)[fp.filename := ReadBlob(d, key, fp)];
    hide *;
    ViewAt(d, key, after, |files|);
    forall name | name in left ensures name in right && left[name] == right[name] {
      var j := ViewEntry(d, key, after, name);
      if j < |files| { ViewAt(c, key, files, j); }
    }
    forall name | name in right ensures name in left {
      if name != fp.filename {
        var j := ViewEntry(c, key, files, name);
        ViewAt(d, key, after, j);
      }
    }
  }

  /** A record dropped, its slot no longer opening. */
  lemma RemoveFile(c: seq<Cell>, d: seq<Cell>, key: Key, files: seq<FilePointer>, k: nat)
    requires Consistent(c, key, files) && |c| <= |d| && SizeOk(d) && k < |files|
    requires forall j :: 0 <= j < |files| ==> SameBlock(c, d, files[j])
    requires SameSlotsBut(c, d, key, files[k].slotIndex)
    requires 0 <= files[k].slotIndex && DecodeSlot(d, key, files[k].slotIndex) == None
    ensures Consistent(d, key, Without(files, k))
    ensures DiskView(d, key) == Drop(DiskView(c, key), files[k].filename)
  {
    var after := Without(files, k);
    hide *;
    ConsistentParts(c, key, files);
    WithoutCompatible(files, k);
    KeepsBlobs(c, d, key, files, -1);
    forall i | 0 <= i < SLOT_COUNT ensures DecodeSlot(d, key, i) == BySlot(after, i) {
      SameSlot(c, d, key, files[k].slotIndex, i);
      RemovedSlot(files, k, i);
    }
    IsConsistent(d, key, after);
    SameReads(c, d, key, files, -1);
    ViewOfRemoved(c, d, key, files, k);
    ReloadAgrees(c, key, files);
    ReloadAgrees(d, key, after);
  }

  lemma RemovedSlot(files: seq<FilePointer>, k: nat, i: int)
    requires k < |files| && AllCompatible(files)
    ensures BySlot(Without(files, k), i) == if i == files[k].slotIndex then None else BySlot(files, i)
  {
    hide IndexOfSlot, Disjoint, Without;
    var after := Without(files, k);
    var was, now := IndexOfSlot(files, i), IndexOfSlot(after, i);
    if now >= 0 {
      assert after[now] == files[if now < k then now else now + 1];
    }
    if was >= 0 && was != k {
      assert after[if was < k then was else was - 1] == files[was];
    }
  }

  lemma WithoutCompatible(files: seq<FilePointer>, k: nat)
    requires k < |files| && AllCompatible(files)
    ensures AllCompatible(Without(files, k))
  {
    hide Compatible;
  }

  lemma RemovedEntry(c: seq<Cell>, d: seq<Cell>, key: Key, files: seq<FilePointer>, k: nat, name: Bytes)
    requires k < |files| && AllCompatible(files)
    requires forall j :: 0 <= j < |files| ==> ReadBlob(d, key, files[j]) == ReadBlob(c, key, files[j])
    requires name in View(d, key, Without(files, k))
    ensures name in View(c, key, files) && name != files[k].filename
    ensures View(d, key, Without(files, k))[name] == View(c, key, files)[name]
  {
    hide *;
    ViewAt(c, key, files, k);
    var j := ViewEntry(d, key, Without(files, k), name);
    ViewAt(c, key, files, if j < k then j else j + 1);
  }

  lemma KeptEntry(c: seq<Cell>, d: seq<Cell>, key: Key, files: seq<FilePointer>, k: nat, name: Bytes)
    requires k < |files| && AllCompatible(Without(files, k))
    requires name in View(c, key, files) && name != files[k].filename
    ensures name in View(d, key, Without(files, k))
  {
    hide *;
    var j := ViewEntry(c, key, files, name);
    ViewAt(d, key, Without(files, k), if j < k then j else j - 1);
  }

  lemma ViewOfRemoved(c: seq<Cell>, d: seq<Cell>, key: Key, files: seq<FilePointer>, k: nat)
    requires k < |files| && AllCompatible(files) && AllCompatible(Without(files, k))
    requires forall j :: 0 <= j < |files| ==> ReadBlob(d, key, files[j]) == ReadBlob(c, key, files[j])
    ensures View(d, key, Without(files, k)) == Drop(View(c, key, files), files[k].filename)
  {
    var left, right := View(d, key, Without(files, k)), Drop(View(c, key, files), files[k].filename);
    hide *;
    forall name ensures (name in left <==> name in right) && (name in left ==> left[name] == right[name]) {
      if name in left { RemovedEntry(c, d, key, files, k, name); }
      if name in right { KeptEntry(c, d, key, files, k, name); }
    }
    SameMap(left, right);
  }
}
