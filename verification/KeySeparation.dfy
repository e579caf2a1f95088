/** What one key's work shows under other keys: a slot opens under one key at most. */
module KeySeparation {
  import opened Bytes
  import opened Aead
  import opened FilePointerCodec
  import opened ContainerImage
  import opened ContainerSteps

  /** Magic and salt are the same, and no other key opens a slot that it did not open to the same record. */
  ghost predicate NothingForeign(c: seq<Cell>, e: seq<Cell>, key: Key) {
    && HEADER_OFFSET <= |c| && HEADER_OFFSET <= |e| && e[..HEADER_OFFSET] == c[..HEADER_OFFSET]
    && forall q: Key, i: nat :: q != key && i < SLOT_COUNT ==>
         DecodeSlot(e, q, i) == None || DecodeSlot(e, q, i) == DecodeSlot(c, q, i)
  }

  lemma NothingForeignSelf(c: seq<Cell>, key: Key)
    requires HEADER_OFFSET <= |c|
    ensures NothingForeign(c, c, key)
  {
  }

  lemma NothingForeignTrans(c: seq<Cell>, d: seq<Cell>, e: seq<Cell>, key: Key)
    requires NothingForeign(c, d, key) && NothingForeign(d, e, key)
    ensures NothingForeign(c, e, key)
  {
    hide DecodeSlot;
  }

  lemma PublicPartOf(c: seq<Cell>, e: seq<Cell>, key: Key)
    requires NothingForeign(c, e, key)
    ensures HEADER_OFFSET <= |c| && HEADER_OFFSET <= |e| && e[..HEADER_OFFSET] == c[..HEADER_OFFSET]
  {
  }

  /** What opens under one key opens under no other. */
  lemma OneKeyOpens(cells: seq<Cell>, p: Key, q: Key, i: nat)
    requires p != q && DecodeSlot(cells, p, i).Some?
    ensures DecodeSlot(cells, q, i) == None
  {
    hide DecodeSlot;
    OpenedCell(cells, p, i);
    if DecodeSlot(cells, q, i).Some? { OpenedCell(cells, q, i); }
  }

  /** A slot that opens is sealed under the key. */
  lemma OpenedCell(cells: seq<Cell>, key: Key, i: nat)
    requires DecodeSlot(cells, key, i).Some?
    ensures SlotOffset(i) + NONCE_SIZE < |cells|
    ensures cells[SlotOffset(i) + NONCE_SIZE].Sealed? && cells[SlotOffset(i) + NONCE_SIZE].key == key
  {
    hide Deserialize;
    var off := SlotOffset(i);
    var nonce, ct := cells[off..off + NONCE_SIZE], cells[off + NONCE_SIZE..off + SLOT_SIZE];
    SealedUnder(key, nonce, SlotAd(i), ct);
    assert ct[0] == cells[off + NONCE_SIZE];
  }

  lemma SealedUnder(key: Key, nonce: seq<Cell>, ad: Bytes, ct: seq<Cell>)
    requires Open(key, nonce, ad, ct).Some?
    ensures ct != [] && ct[0].Sealed? && ct[0].key == key
  {
    assert Seal(key, ct[0].nonce, ad, ct[0].pt)[0] == Sealed(key, ct[0].nonce, ad, ct[0].pt, 0);
  }

  /** A slot written by one key shows nothing under the others; so does a slot cleared. */
  lemma SlotNotForeign(c: seq<Cell>, e: seq<Cell>, key: Key, slot: int)
    requires TOTAL_HEADER <= |c| && TOTAL_HEADER <= |e| && SameHeaderBut(c, e, slot)
    requires 0 <= slot < SLOT_COUNT ==>
               DecodeSlot(e, key, slot).Some? || forall q: Key :: DecodeSlot(e, q, slot) == None
    ensures NothingForeign(c, e, key)
  {
    hide DecodeSlot, SameSlotCells;
    forall q: Key, i: nat | q != key && i < SLOT_COUNT
      ensures DecodeSlot(e, q, i) == None || DecodeSlot(e, q, i) == DecodeSlot(c, q, i)
    {
      if i == slot {
        if DecodeSlot(e, key, i).Some? { OneKeyOpens(e, key, q, i); }
      } else {
        SameCellsSameSlots(c, e, q, slot);
      }
    }
  }

  /** A key loads nothing exactly when it opens no slot. */
  lemma {:induction false} LoadedNone(cells: seq<Cell>, key: Key, n: nat)
    ensures LoadedUpTo(cells, key, n) == [] <==> forall i :: 0 <= i < n ==> DecodeSlot(cells, key, i) == None
  {
    hide DecodeSlot;
    if n > 0 { LoadedNone(cells, key, n - 1); }
  }

  /** Another key that loaded nothing loads nothing. */
  lemma LoadsNothingStill(c: seq<Cell>, e: seq<Cell>, key: Key, q: Key)
    requires NothingForeign(c, e, key) && q != key && Loaded(c, q) == []
    ensures Loaded(e, q) == []
  {
    hide DecodeSlot;
    LoadedNone(c, q, SLOT_COUNT);
    LoadedNone(e, q, SLOT_COUNT);
  }

  /** A key that loads nothing finds the file sound, and no larger than it is. */
  lemma NothingIsSound(cells: seq<Cell>, key: Key, initial: nat)
    requires Loaded(cells, key) == [] && SizeOk(cells) && |cells| <= initial
    ensures Consistent(cells, key, []) && Budget(cells, key, [], 0, initial)
  {
    hide DecodeSlot;
    LoadedNone(cells, key, SLOT_COUNT);
    NothingCosts(cells, key, SLOT_COUNT);
  }

  lemma {:induction false} NothingCosts(cells: seq<Cell>, key: Key, n: nat)
    requires forall i :: 0 <= i < n ==> DecodeSlot(cells, key, i) == None
    ensures Cost(cells, key, n) == 0
  {
    hide DecodeSlot;
    if n > 0 { NothingCosts(cells, key, n - 1); }
  }

  /** Every sealed cell is sealed under the key. */
  predicate OnlyUnder(cells: seq<Cell>, key: Key) {
    forall i :: 0 <= i < |cells| && cells[i].Sealed? ==> cells[i].key == key
  }

  /** A file sealed under one key alone shows nothing under any other. */
  lemma OtherKeyLoadsNothing(cells: seq<Cell>, key: Key, q: Key)
    requires OnlyUnder(cells, key) && q != key
    ensures Loaded(cells, q) == []
  {
    forall i | 0 <= i < SLOT_COUNT ensures DecodeSlot(cells, q, i) == None {
      hide DecodeSlot;
      if DecodeSlot(cells, q, i).Some? { OpenedCell(cells, q, i); }
    }
    LoadedNone(cells, q, SLOT_COUNT);
  }

  /**
   * Writing a slot under one key keeps what another key loads exactly when
   * that key did not open the slot: free slots are looked for among the
   * writer's own records.
   */
  lemma OtherKeyKeptIff(c: seq<Cell>, e: seq<Cell>, key: Key, q: Key, slot: nat)
    requires slot < SLOT_COUNT && q != key && TOTAL_HEADER <= |c| && TOTAL_HEADER <= |e|
    requires SameHeaderBut(c, e, slot) && DecodeSlot(e, key, slot).Some?
    ensures Loaded(e, q) == Loaded(c, q) <==> DecodeSlot(c, q, slot) == None
  {
    hide DecodeSlot, SameSlotCells;
    OneKeyOpens(e, key, q, slot);
    SameCellsSameSlots(c, e, q, slot);
    if DecodeSlot(c, q, slot) == None {
      LoadedDependsOnSlots(c, e, q, SLOT_COUNT);
    } else {
      LoadedRecords(c, q, SLOT_COUNT);
      LoadedRecords(e, q, SLOT_COUNT);
      RecordLost(c, e, q, slot);
    }
  }

  lemma RecordLost(c: seq<Cell>, e: seq<Cell>, q: Key, slot: nat)
    requires slot < SLOT_COUNT && DecodeSlot(c, q, slot).Some? && DecodeSlot(e, q, slot) == None
    requires Lists(c, q, SLOT_COUNT, Loaded(c, q)) && Lists(e, q, SLOT_COUNT, Loaded(e, q))
    ensures DecodeSlot(c, q, slot).value in Loaded(c, q) && DecodeSlot(c, q, slot).value !in Loaded(e, q)
  {
    hide Loaded;
    var fp := DecodeSlot(c, q, slot).value;
    assert fp.slotIndex == slot;
    hide DecodeSlot;
    assert RecordOf(c, q, SLOT_COUNT, fp);
  }

  // ------------------------------------------------------------------
  // What a sealing is bound to
  // ------------------------------------------------------------------

  lemma SealedFor(key: Key, nonce: seq<Cell>, ad: Bytes, ct: seq<Cell>, pt: Bytes)
    requires Open(key, nonce, ad, ct) == Some(pt)
    ensures ct != [] && ct[0] == Sealed(key, if ct[0].Sealed? then ct[0].nonce else [], ad, pt, 0)
    ensures |ct| == |pt| + MAC_SIZE
  {
    assert Seal(key, ct[0].nonce, ad, ct[0].pt)[0] == Sealed(key, ct[0].nonce, ad, ct[0].pt, 0);
  }

  /** A slot is sealed for its place: what was written for one does not open in another, under any key. */
  lemma SlotBound(cells: seq<Cell>, key: Key, nonce: Bytes, fp: FilePointer, i: nat, any: Key)
    requires |nonce| == NONCE_SIZE && 0 <= fp.slotIndex < SLOT_COUNT && i < SLOT_COUNT && i != fp.slotIndex
    requires SlotOffset(i) + SLOT_SIZE <= |cells|
    requires cells[SlotOffset(i)..SlotOffset(i) + SLOT_SIZE] == SlotImage(key, nonce, fp)
    ensures DecodeSlot(cells, any, i) == None
  {
    hide Deserialize, Serialize, SlotAd;
    var off := SlotOffset(i);
    var image := SlotImage(key, nonce, fp);
    SliceOfSlice(cells, off, off + SLOT_SIZE, NONCE_SIZE, SLOT_SIZE);
    var at, ct := cells[off..off + NONCE_SIZE], cells[off + NONCE_SIZE..off + SLOT_SIZE];
    assert ct == image[NONCE_SIZE..SLOT_SIZE] == Seal(key, nonce, SlotAd(fp.slotIndex), Serialize(fp));
    assert ct[0] == Sealed(key, nonce, SlotAd(fp.slotIndex), Serialize(fp), 0);
    LayoutIs(i);
    LayoutIs(fp.slotIndex);
    PlaceIs(i, fp.slotIndex);
    if Open(any, at, SlotAd(i), ct).Some? { SealedFor(any, at, SlotAd(i), ct, Open(any, at, SlotAd(i), ct).value); }
  }

  lemma PlaceIs(i: nat, j: nat)
    requires SlotAd(i) == [i % 256, i / 256, 0, 0] && SlotAd(j) == [j % 256, j / 256, 0, 0]
    ensures SlotAd(i) == SlotAd(j) ==> i == j
  {
    hide SlotAd;
    assert SlotAd(i)[0] == i % 256 && SlotAd(i)[1] == i / 256 && SlotAd(j)[0] == j % 256 && SlotAd(j)[1] == j / 256;
  }

  /** A block is sealed for its file: records that both open it, under any keys, have one key, identity and size. */
  lemma BlobBound(cells: seq<Cell>, key: Key, fp: FilePointer, other: Key, gp: FilePointer)
    requires fp.dataOffset == gp.dataOffset && fp.usedSize > 0 && gp.usedSize > 0
    requires OpenBlob(cells, key, fp).Some? && OpenBlob(cells, other, gp).Some?
    ensures key == other && fp.id == gp.id && fp.usedSize == gp.usedSize
    ensures OpenBlob(cells, key, fp) == OpenBlob(cells, other, gp)
  {
    var off := fp.dataOffset;
    var nonce := cells[off..off + NONCE_SIZE];
    var ct := cells[off + NONCE_SIZE..off + NONCE_SIZE + fp.usedSize + MAC_SIZE];
    var du := cells[off + NONCE_SIZE..off + NONCE_SIZE + gp.usedSize + MAC_SIZE];
    hide Open;
    SealedFor(key, nonce, fp.id, ct, OpenBlob(cells, key, fp).value);
    SealedFor(other, nonce, gp.id, du, OpenBlob(cells, other, gp).value);
    assert ct[0] == cells[off + NONCE_SIZE] == du[0];
  }
}
