/**
 * Interleaved work on one container: several files open at once, each written
 * and flushed in its own time, while files are created, deleted and renamed.
 */
module ContainerSessions {
  import opened Bytes
  import opened Aead
  import opened FilePointerCodec
  import opened ContainerImage
  import opened ContainerSteps
  import opened KeySeparation
  import opened ContainerOutcomes
  import opened FreeSlots
  import opened Sequences
  import opened SpaceLedger
  import opened Vfs
  import opened ContainerRuns
  import PowerOfTwo

  /**
   * An open file as its holder sees it: it keeps its header slot, whatever
   * becomes of the file there; the container tracks it until either is closed.
   */
  datatype Handle =
    Handle(slot: int, mode: OpenMode, data: Bytes, pos: nat, dirty: bool, open: bool, tracked: bool)

  /** The names in the header slots, the files by name, what they cost, and the handles in the order of opening. */
  datatype Session = Session(names: map<int, Bytes>, files: FileMap, ledger: Ledger, handles: seq<Handle>)

  datatype Step =
    | OpenFile(name: Bytes, mode: OpenMode)
    | SeekTo(h: nat, p: nat)
    | WriteTo(h: nat, buf: Bytes)
    | FlushFile(h: nat)
    | CloseFile(h: nat)
    | DeleteFile(name: Bytes)
    | RenameFile(oldName: Bytes, newName: Bytes)
    // the container closed and opened again; `order` is how it flushed the files it tracked
    | Restart(order: seq<nat>)

  // ------------------------------------------------------------------
  // What each step means
  // ------------------------------------------------------------------

  ghost function SlotOf(names: map<int, Bytes>, name: Bytes): int {
    if slot :| slot in names && names[slot] == name then slot else -1
  }

  function FirstFree(used: set<int>, from: nat): int
    requires from <= SLOT_COUNT
    decreases SLOT_COUNT - from
  {
    if from == SLOT_COUNT then -1 else if from !in used then from else FirstFree(used, from + 1)
  }

  predicate Live(s: Session, h: nat) { h < |s.handles| && s.handles[h].open }

  /** Writing at the position, extending the buffer where needed. */
  function Written(x: Handle, buf: Bytes): Handle
    requires x.pos <= |x.data|
  {
    x.(data := x.data[..x.pos] + buf + (if x.pos + |buf| <= |x.data| then x.data[x.pos + |buf|..] else []),
       pos := x.pos + |buf|, dirty := true)
  }

  /** Past the end, a writable buffer is filled up with zeros and stays clean. */
  function Sought(x: Handle, p: nat): Handle {
    if p <= |x.data| then x.(pos := p)
    else if x.mode.write then x.(data := x.data + Zeros(p - |x.data|), pos := p)
    else x
  }

  /** A dirty buffer goes to the file that is in the handle's slot now; with none there it stays dirty. */
  function Flushed(s: Session, h: nat): Session
    requires Live(s, h)
  {
    var x := s.handles[h];
    if x.dirty && x.slot in s.names then
      var name := s.names[x.slot];
      Session(s.names, s.files[name := x.data], Held(s.ledger, name, x.data), s.handles[h := x.(dirty := false)])
    else s
  }

  /** Handles flushed one after the other. */
  function FlushEach(s: Session, order: seq<nat>): Session {
    if order == [] then s
    else
      var t, h := FlushEach(s, order[..|order| - 1]), order[|order| - 1];
      if Live(t, h) then Flushed(t, h) else t
  }

  /** Closing the container stores this handle. */
  predicate Storing(s: Session, h: nat) {
    Live(s, h) && s.handles[h].tracked && s.handles[h].dirty && s.handles[h].slot in s.names
  }

  /** Every handle there is to store, once; the container keeps its open files in a set. */
  predicate ValidOrder(s: Session, order: seq<nat>) {
    && (forall i, j :: 0 <= i < j < |order| ==> order[i] != order[j])
    && (forall i :: 0 <= i < |order| ==> Storing(s, order[i]))
    && forall h :: 0 <= h < |s.handles| && Storing(s, h) ==> h in order
  }

  function Untracked(handles: seq<Handle>): (r: seq<Handle>)
    ensures |r| == |handles| && forall h :: 0 <= h < |r| ==> r[h] == handles[h].(tracked := false)
  {
    seq(|handles|, h requires 0 <= h < |handles| => handles[h].(tracked := false))
  }

  ghost function Opening(s: Session, name: Bytes, mode: OpenMode): Session {
    if name in s.files then
      if mode.read || mode.write then
        var data := if mode.truncate then [] else s.files[name];
        s.(handles := s.handles + [Handle(SlotOf(s.names, name), mode, data, 0, false, true, true)])
      else s
    else if mode.write && |name| <= MAX_FILENAME_BYTES && |s.files| < SLOT_COUNT then
      var slot := FirstFree(s.names.Keys, 0);
      Session(s.names[slot := name], s.files[name := []],
              Ledger(s.ledger.blocks[name := DATA_ALIGNMENT], s.ledger.spent + DATA_ALIGNMENT),
              s.handles + [Handle(slot, mode, [], 0, false, true, true)])
    else s
  }

  /** Renames go to names not in use, which the client checks; handles that are closed are left alone. */
  ghost function Next(s: Session, step: Step): Session {
    match step
    case OpenFile(name, mode) => Opening(s, name, mode)
    case SeekTo(h, p) =>
      if Live(s, h) then s.(handles := s.handles[h := Sought(s.handles[h], p)]) else s
    case WriteTo(h, buf) =>
      if Live(s, h) && s.handles[h].mode.write && s.handles[h].pos <= |s.handles[h].data|
      then s.(handles := s.handles[h := Written(s.handles[h], buf)]) else s
    case FlushFile(h) => if Live(s, h) then Flushed(s, h) else s
    case CloseFile(h) =>
      if Live(s, h) then
        var t := Flushed(s, h);
        t.(handles := t.handles[h := t.handles[h].(open := false)])
      else s
    case DeleteFile(name) =>
      if name in s.files
      then s.(names := s.names - {SlotOf(s.names, name)}, files := Drop(s.files, name),
              ledger := Ledger(Drop(s.ledger.blocks, name), s.ledger.spent))
      else s
    case RenameFile(a, b) =>
      if a in s.files && |b| <= MAX_FILENAME_BYTES && (b == a || b !in s.files)
      then s.(names := s.names[SlotOf(s.names, a) := b], files := Drop(s.files, a)[b := s.files[a]],
              ledger := Renamed(s.ledger, a, b))
      else s
    case Restart(order) =>
      if ValidOrder(s, order) then
        var t := FlushEach(s, order);
        t.(handles := Untracked(t.handles))
      else s
  }

  ghost function NextAll(s: Session, steps: seq<Step>): Session
    decreases |steps|
  {
    if steps == [] then s else NextAll(Next(s, steps[0]), steps[1..])
  }

  lemma {:induction false} NextLast(s: Session, steps: seq<Step>, step: Step)
    ensures NextAll(s, steps + [step]) == Next(NextAll(s, steps), step)
    decreases |steps|
  {
    hide Next;
    if steps == [] {
      assert ([] + [step])[1..] == [];
    } else {
      NextLast(Next(s, steps[0]), steps[1..], step);
      assert (steps + [step])[1..] == steps[1..] + [step];
    }
  }

  /** The file a flush in this step empties for the time of a crash. */
  function Target(s: Session, step: Step): Option<Bytes> {
    if (step.FlushFile? || step.CloseFile?) && Live(s, step.h) && s.handles[step.h].slot in s.names
    then Some(s.names[s.handles[step.h].slot]) else None
  }

  /** A crash while the handles are flushed one after the other. */
  ghost predicate CrashAmid(key: Key, image: seq<Cell>, s: Session, order: seq<nat>) {
    exists k :: 0 <= k <= |order|
                && (|| DiskView(image, key) == FlushEach(s, order[..k]).files
                    || (k < |order| && order[k] < |s.handles| && s.handles[order[k]].slot in s.names
                        && DiskView(image, key)
                           == FlushEach(s, order[..k]).files[s.names[s.handles[order[k]].slot] := []]))
  }

  /**
   * A crash during the step shows the files before it or after it; amid a
   * flush, the one file may be empty; amid the closing of the container, some
   * of its flushes have been done.
   */
  ghost predicate CrashMid(key: Key, image: seq<Cell>, s: Session, step: Step) {
    || DiskView(image, key) == s.files
    || DiskView(image, key) == Next(s, step).files
    || (Target(s, step).Some? && DiskView(image, key) == s.files[Target(s, step).value := []])
    || (step.Restart? && CrashAmid(key, image, s, step.order))
  }

  ghost predicate StepCrashes(key: Key, before: seq<seq<Cell>>, images: seq<seq<Cell>>, s: Session, step: Step) {
    && |before| <= |images| && images[..|before|] == before
    && forall j :: |before| <= j < |images| ==> CrashMid(key, images[j], s, step)
  }

  /** How far a step can move the end of the data area. */
  function Takes(s: Session, step: Step): nat {
    match step
    case OpenFile(_, _) => DATA_ALIGNMENT
    case FlushFile(h) => if Live(s, h) && s.handles[h].dirty then BlockOf(s.handles[h].data) else 0
    case CloseFile(h) => if Live(s, h) && s.handles[h].dirty then BlockOf(s.handles[h].data) else 0
    case Restart(_) => Total(|s.handles|, LargestBlock(s.handles))
    case _ => 0
  }

  function LargestBlock(handles: seq<Handle>): (b: nat)
    ensures forall h :: 0 <= h < |handles| ==> BlockOf(handles[h].data) <= b
  {
    hide BlockOf;
    if handles == [] then 0
    else
      var n := |handles| - 1;
      var b, x := LargestBlock(handles[..n]), BlockOf(handles[n].data);
      if x > b then x else b
  }

  predicate SizeFits(s: Session, step: Step) {
    && ((step.FlushFile? || step.CloseFile?) && Live(s, step.h) ==> BLOB_OVERHEAD + |s.handles[step.h].data| <= TWO_63)
    && (step.Restart? ==> forall h :: 0 <= h < |s.handles| ==> BLOB_OVERHEAD + |s.handles[h].data| <= TWO_63)
  }

  /** What a step asked for can turn out to be: the order of the flushes at a close is the container's. */
  ghost predicate CanBe(s: Session, step: Step, taken: Step) {
    if step.Restart? then taken.Restart? && ValidOrder(s, taken.order) else taken == step
  }

  /**
   * The run keeps the host file within signed 64-bit sizes, `end` being where
   * its data area ends at most.
   */
  ghost predicate RunFits(end: nat, s: Session, steps: seq<Step>)
    decreases |steps|
  {
    steps == [] ||
    (&& SizeFits(s, steps[0]) && end + Takes(s, steps[0]) + MAX_PADDING + DATA_ALIGNMENT < TWO_63
     && forall taken :: CanBe(s, steps[0], taken) ==>
          RunFits(end + Takes(s, steps[0]), Next(s, taken), steps[1..]))
  }

  // ------------------------------------------------------------------
  // The objects behind a session
  // ------------------------------------------------------------------

  function SlotNames(files: seq<FilePointer>): map<int, Bytes> {
    map slot | slot in Slots(files) :: SlotName(files, slot)
  }

  /** A container with these cells and records holds what the session says. */
  ghost predicate Holds(cells: seq<Cell>, key: Key, files: seq<FilePointer>, retired: seq<nat>, s: Session) {
    s.names == SlotNames(files) && s.files == DiskView(cells, key) && s.ledger == LedgerOf(files, retired)
  }

  ghost predicate Backs(c: EncryptedVFSContainer, s: Session)
    reads c`freed, c`isOpen, c`key, c`files, c.file`present, c.file`cells, c.file`retired, c.file`initialSize
  {
    c.Valid() && c.isOpen && Holds(c.file.cells, c.key, c.files, c.file.retired, s)
  }

  ghost predicate Tracks(c: EncryptedVFSContainer, vf: VirtualFile, x: Handle)
    reads vf
  {
    vf.isOpen == x.open &&
    (x.open ==>
      && !vf.freed && vf.container == c && vf.slotIndex == x.slot && vf.mode == x.mode
      && vf.data == x.data && vf.pos == x.pos <= |x.data| && vf.dirty == x.dirty)
  }

  ghost predicate AllTracked(c: EncryptedVFSContainer, vfs: seq<VirtualFile>, handles: seq<Handle>)
    reads c`openFiles, vfs
  {
    && |vfs| == |handles|
    && (forall i, j :: 0 <= i < j < |vfs| ==> vfs[i] != vfs[j])
    && (forall i :: 0 <= i < |vfs| ==> Tracks(c, vfs[i], handles[i]))
    && c.openFiles == TrackedFiles(vfs, handles)
  }

  /** The files the container will flush when it is closed. */
  ghost function TrackedFiles(vfs: seq<VirtualFile>, handles: seq<Handle>): set<VirtualFile>
    requires |vfs| == |handles|
  {
    set i | 0 <= i < |vfs| && handles[i].open && handles[i].tracked :: vfs[i]
  }

  // ------------------------------------------------------------------
  // Names by slot
  // ------------------------------------------------------------------

  lemma SlotNamesAt(files: seq<FilePointer>, slot: int)
    ensures slot in SlotNames(files) <==> IndexOfSlot(files, slot) >= 0
    ensures IndexOfSlot(files, slot) >= 0 ==> SlotNames(files)[slot] == files[IndexOfSlot(files, slot)].filename
  {
    hide IndexOfSlot;
  }

  /** Where a record is, its slot says so, and no other slot has its name. */
  lemma SlotNamesOf(files: seq<FilePointer>, k: nat)
    requires AllCompatible(files) && k < |files|
    ensures IndexOfSlot(files, files[k].slotIndex) == k
    ensures SlotOf(SlotNames(files), files[k].filename) == files[k].slotIndex
    ensures files[k].slotIndex in SlotNames(files) && SlotNames(files)[files[k].slotIndex] == files[k].filename
  {
    hide IndexOfSlot, SlotNames;
    IndexOfOwnSlot(files, k);
    SlotNamesAt(files, files[k].slotIndex);
    var slot := SlotOf(SlotNames(files), files[k].filename);
    SlotNamesAt(files, slot);
    var j := IndexOfSlot(files, slot);
    if j != k { DifferentFiles(files, j, k); }
  }

  lemma IndexOfOwnSlot(files: seq<FilePointer>, k: nat)
    requires AllCompatible(files) && k < |files|
    ensures IndexOfSlot(files, files[k].slotIndex) == k
  {
    hide IndexOfSlot;
    var j := IndexOfSlot(files, files[k].slotIndex);
    assert j == k;
  }

  lemma DifferentFiles(files: seq<FilePointer>, i: nat, j: nat)
    requires AllCompatible(files) && i < |files| && j < |files| && i != j
    ensures files[i].filename != files[j].filename && files[i].slotIndex != files[j].slotIndex
  {
    if i < j { assert Compatible(files[i], files[j]); } else { assert Compatible(files[j], files[i]); }
  }

  lemma SlotNamesSame(f: seq<FilePointer>, g: seq<FilePointer>)
    requires SameShape(f, g)
    ensures SlotNames(f) == SlotNames(g)
  {
    hide SlotNames, SameShape;
    forall slot ensures (slot in SlotNames(f) <==> slot in SlotNames(g))
                        && (slot in SlotNames(f) ==> SlotNames(f)[slot] == SlotNames(g)[slot]) {
      SlotNamesAt(f, slot);
      SlotNamesAt(g, slot);
      SameShapeIndex(f, g, slot);
      SlotNameIs(f, slot);
      SlotNameIs(g, slot);
    }
    SameMap(SlotNames(f), SlotNames(g));
  }

  lemma SlotNamesAdded(files: seq<FilePointer>, fp: FilePointer)
    requires AllCompatible(files + [fp])
    ensures SlotNames(files + [fp]) == SlotNames(files)[fp.slotIndex := fp.filename]
  {
    var after := files + [fp];
    var left, right := SlotNames(after), SlotNames(files)[fp.slotIndex := fp.filename];
    hide *;
    forall slot ensures (slot in left <==> slot in right) && (slot in left ==> left[slot] == right[slot]) {
      SlotNamesAt(files, slot);
      SlotNamesAt(after, slot);
      AddedSlot(files, fp, slot);
      BySlotIs(files, slot);
      BySlotIs(after, slot);
    }
    SameMap(left, right);
  }

  lemma BySlotIs(files: seq<FilePointer>, slot: int)
    ensures BySlot(files, slot)
         == if IndexOfSlot(files, slot) < 0 then None else Some(files[IndexOfSlot(files, slot)])
  {
    hide IndexOfSlot;
  }

  lemma SlotNamesRemoved(files: seq<FilePointer>, k: nat)
    requires k < |files| && AllCompatible(files)
    ensures SlotNames(Without(files, k)) == SlotNames(files) - {files[k].slotIndex}
  {
    var after := Without(files, k);
    var left, right := SlotNames(after), SlotNames(files) - {files[k].slotIndex};
    hide *;
    forall slot ensures (slot in left <==> slot in right) && (slot in left ==> left[slot] == right[slot]) {
      SlotNamesAt(files, slot);
      SlotNamesAt(after, slot);
      RemovedSlot(files, k, slot);
      BySlotIs(files, slot);
      BySlotIs(after, slot);
    }
    SameMap(left, right);
  }

  lemma SlotNamesRenamed(files: seq<FilePointer>, k: nat, name: Bytes)
    requires k < |files| && AllCompatible(files)
    ensures SlotNames(files[k := files[k].(filename := name)]) == SlotNames(files)[files[k].slotIndex := name]
  {
    var fp := files[k].(filename := name);
    var after := files[k := fp];
    var left, right := SlotNames(after), SlotNames(files)[files[k].slotIndex := name];
    hide *;
    forall slot ensures (slot in left <==> slot in right) && (slot in left ==> left[slot] == right[slot]) {
      SlotNamesAt(files, slot);
      SlotNamesAt(after, slot);
      ReplacedSlot(files, k, fp, slot);
      BySlotIs(files, slot);
      BySlotIs(after, slot);
    }
    SameMap(left, right);
  }

  lemma {:induction false} FirstFreeSame(files: seq<FilePointer>, start: nat)
    requires start <= SLOT_COUNT
    ensures FirstFree(SlotNames(files).Keys, start) == FirstFreeSlotFrom(files, start)
    decreases SLOT_COUNT - start
  {
    hide IndexOfSlot, SlotNames;
    if start < SLOT_COUNT {
      SlotNamesAt(files, start);
      FirstFreeSame(files, start + 1);
    }
  }

  // ------------------------------------------------------------------
  // What the container's own steps make of a session
  // ------------------------------------------------------------------

  /** A flush that stored the buffer. */
  lemma StoredHolds(c: seq<Cell>, e: seq<Cell>, key: Key, files: seq<FilePointer>, after: seq<FilePointer>,
                    before: seq<seq<Cell>>, images: seq<seq<Cell>>, retired: seq<nat>, s: Session, h: nat, k: int)
    requires Holds(c, key, files, retired, s) && Live(s, h) && s.handles[h].dirty && AllCompatible(files)
    requires k == IndexOfSlot(files, s.handles[h].slot)
    requires StoredSafely(c, e, key, files, after, before, images, k, s.handles[h].data)
    ensures Holds(e, key, after, retired, Flushed(s, h))
    ensures StepCrashes(key, before, images, s, FlushFile(h)) && StepCrashes(key, before, images, s, CloseFile(h))
    ensures EndOfData(after) <= EndOfData(files) + BlockOf(s.handles[h].data)
    ensures s.handles[h].slot in s.names
  {
    var x := s.handles[h];
    hide *;
    StoredShape(c, e, key, files, after, before, images, k, x.data);
    StoredImages(c, e, key, files, after, before, images, k, x.data);
    StoredLedger(c, e, key, files, after, before, images, k, x.data, retired);
    BlockOfIs(x.data);
    HoldsParts(c, key, files, retired, s);
    SlotNamesAt(files, x.slot);
    SlotNamesSame(files, after);
    FlushedIs(s, h);
    HoldsNow(e, key, after, retired, Flushed(s, h));
    FlushCrashes(key, before, images, s, h);
  }

  lemma HoldsParts(cells: seq<Cell>, key: Key, files: seq<FilePointer>, retired: seq<nat>, s: Session)
    requires Holds(cells, key, files, retired, s)
    ensures s.names == SlotNames(files) && s.files == DiskView(cells, key) && s.ledger == LedgerOf(files, retired)
  {
  }

  lemma HoldsNow(cells: seq<Cell>, key: Key, files: seq<FilePointer>, retired: seq<nat>, s: Session)
    requires s.names == SlotNames(files) && s.files == DiskView(cells, key) && s.ledger == LedgerOf(files, retired)
    ensures Holds(cells, key, files, retired, s)
  {
  }

  lemma FlushedIs(s: Session, h: nat)
    requires Live(s, h) && s.handles[h].dirty && s.handles[h].slot in s.names
    ensures var x, name := s.handles[h], s.names[s.handles[h].slot];
            Flushed(s, h) == Session(s.names, s.files[name := x.data], Held(s.ledger, name, x.data),
                                     s.handles[h := x.(dirty := false)])
    ensures Flushed(s, h) == Next(s, FlushFile(h)) && Flushed(s, h).files == Next(s, CloseFile(h)).files
    ensures Target(s, FlushFile(h)) == Target(s, CloseFile(h)) == Some(s.names[s.handles[h].slot])
  {
    hide Held;
  }

  lemma FlushCrashes(key: Key, before: seq<seq<Cell>>, images: seq<seq<Cell>>, s: Session, h: nat)
    requires Live(s, h) && s.handles[h].dirty && s.handles[h].slot in s.names
    requires FlushImages(key, before, images, s.files, s.names[s.handles[h].slot], s.handles[h].data)
    ensures StepCrashes(key, before, images, s, FlushFile(h)) && StepCrashes(key, before, images, s, CloseFile(h))
  {
    FlushedIs(s, h);
    hide DiskView, Next, Target, Flushed, Live, CrashAmid;
    forall j | |before| <= j < |images|
      ensures CrashMid(key, images[j], s, FlushFile(h)) && CrashMid(key, images[j], s, CloseFile(h)) {
    }
  }

  /** Opening, up to the handle. */
  lemma OpenedHolds(c: seq<Cell>, e: seq<Cell>, key: Key, files: seq<FilePointer>, after: seq<FilePointer>,
                    before: seq<seq<Cell>>, images: seq<seq<Cell>>, retired: seq<nat>, s: Session, name: Bytes,
                    mode: OpenMode)
    requires Holds(c, key, files, retired, s) && Consistent(c, key, files) && AllCompatible(after)
    requires Resolved(c, e, key, files, after, before, images, name, mode)
    ensures Holds(e, key, after, retired, Next(s, OpenFile(name, mode)))
    ensures StepCrashes(key, before, images, s, OpenFile(name, mode))
    ensures EndOfData(after) <= EndOfData(files) + DATA_ALIGNMENT && NothingForeign(c, e, key)
    ensures Available(s.files, files, name, mode)
            <==> name in s.files || (mode.write && |name| <= MAX_FILENAME_BYTES && |s.files| < SLOT_COUNT)
  {
    hide *;
    HoldsParts(c, key, files, retired, s);
    CreatableIff(c, key, files, name, mode);
    ConsistentParts(c, key, files);
    PublicPartFirst();
    AvailableIs(s.files, files, name, mode);
    OpeningIs(s, name, mode);
    FirstFreeSame(files, 0);
    ResolvedParts(c, e, key, files, after, before, images, name, mode);
    ResolvedOwn(c, e, key, files, after, before, images, name, mode);
    if name !in s.files && CanCreate(files, name, mode) {
      var fp := after[|files|];
      LedgerAdded(files, fp, retired);
      SlotNamesAdded(files, fp);
    }
    HoldsNow(e, key, after, retired, Next(s, OpenFile(name, mode)));
    OpenCrashes(key, before, images, s, name, mode);
  }

  lemma OpeningIs(s: Session, name: Bytes, mode: OpenMode)
    ensures var t := Next(s, OpenFile(name, mode));
            if name !in s.files && mode.write && |name| <= MAX_FILENAME_BYTES && |s.files| < SLOT_COUNT
            then t == Session(s.names[FirstFree(s.names.Keys, 0) := name], s.files[name := []],
                              Ledger(s.ledger.blocks[name := DATA_ALIGNMENT], s.ledger.spent + DATA_ALIGNMENT),
                              s.handles + [Handle(FirstFree(s.names.Keys, 0), mode, [], 0, false, true, true)])
            else t.names == s.names && t.files == s.files && t.ledger == s.ledger
  {
    hide FirstFree, SlotOf;
  }

  lemma ResolvedParts(c: seq<Cell>, e: seq<Cell>, key: Key, files: seq<FilePointer>, after: seq<FilePointer>,
                      before: seq<seq<Cell>>, images: seq<seq<Cell>>, name: Bytes, mode: OpenMode)
    requires Resolved(c, e, key, files, after, before, images, name, mode) && HEADER_OFFSET <= |c|
    ensures EndOfData(after) <= EndOfData(files) + DATA_ALIGNMENT
    ensures FlushImages(key, before, images, DiskView(c, key), name, [])
    ensures if name !in DiskView(c, key) && CanCreate(files, name, mode)
            then && |after| == |files| + 1 && after == files + [after[|files|]]
                 && after[|files|].filename == name && after[|files|].allocatedSize == DATA_ALIGNMENT
                 && after[|files|].slotIndex == FirstFreeSlotFrom(files, 0)
                 && DiskView(e, key) == DiskView(c, key)[name := []]
            else after == files && e == c && images == before
  {
    hide DiskView, EndOfData, CanCreate, FirstFreeSlotFrom, DecodeSlot;
    if name !in DiskView(c, key) && CanCreate(files, name, mode) {
      assert after == files + [after[|files|]];
      forall j | |before| <= j < |images| ensures DiskView(images[j], key) in {DiskView(c, key), DiskView(e, key)} {
      }
    }
  }

  lemma OpenCrashes(key: Key, before: seq<seq<Cell>>, images: seq<seq<Cell>>, s: Session, name: Bytes, mode: OpenMode)
    requires FlushImages(key, before, images, s.files, name, [])
    requires images == before || Next(s, OpenFile(name, mode)).files == s.files[name := []]
    ensures StepCrashes(key, before, images, s, OpenFile(name, mode))
  {
    hide DiskView, Next, Target;
    forall j | |before| <= j < |images| ensures CrashMid(key, images[j], s, OpenFile(name, mode)) {
    }
  }

  /** The handle a session gets is the object handed out. */
  lemma NewHandle(e: seq<Cell>, key: Key, files: seq<FilePointer>, retired: seq<nat>, s: Session, name: Bytes,
                  mode: OpenMode, slot: int, data: Bytes)
    requires Holds(e, key, files, retired, Next(s, OpenFile(name, mode))) && AllCompatible(files)
    requires HandsOut(e, key, files, name, mode, slot, data) && (mode.read || mode.write)
    requires name in s.files || (mode.write && |name| <= MAX_FILENAME_BYTES && |s.files| < SLOT_COUNT)
    ensures Next(s, OpenFile(name, mode)).handles == s.handles + [Handle(slot, mode, data, 0, false, true, true)]
  {
    var t := Next(s, OpenFile(name, mode));
    var k := IndexOfSlot(files, slot);
    hide *;
    HandsOutParts(e, key, files, name, mode, slot, data);
    HoldsParts(e, key, files, retired, t);
    OpeningIs(s, name, mode);
    SlotNamesOf(files, k);
    if name in s.files {
      OpeningExisting(s, name, mode);
    } else {
      assert t.names[FirstFree(s.names.Keys, 0)] == name;
      SlotNamesAt(files, FirstFree(s.names.Keys, 0));
      SlotNamesOf(files, IndexOfSlot(files, FirstFree(s.names.Keys, 0)));
      IndexHolds(files, FirstFree(s.names.Keys, 0));
    }
  }

  lemma IndexHolds(files: seq<FilePointer>, slot: int)
    requires IndexOfSlot(files, slot) >= 0
    ensures files[IndexOfSlot(files, slot)].slotIndex == slot
  {
    hide IndexOfSlot;
  }

  lemma OpeningExisting(s: Session, name: Bytes, mode: OpenMode)
    requires name in s.files && (mode.read || mode.write)
    ensures var data := if mode.truncate then [] else s.files[name];
            Next(s, OpenFile(name, mode))
            == s.(handles := s.handles + [Handle(SlotOf(s.names, name), mode, data, 0, false, true, true)])
  {
    hide SlotOf;
  }

  lemma HandsOutParts(e: seq<Cell>, key: Key, files: seq<FilePointer>, name: Bytes, mode: OpenMode, slot: int,
                      data: Bytes)
    requires HandsOut(e, key, files, name, mode, slot, data)
    ensures IndexOfSlot(files, slot) >= 0 && files[IndexOfSlot(files, slot)].filename == name
    ensures files[IndexOfSlot(files, slot)].slotIndex == slot
    ensures name in DiskView(e, key) && data == if mode.truncate then [] else DiskView(e, key)[name]
  {
    hide DiskView, IndexOfSlot;
  }

  /** No handle where there is nothing to hand out. */
  lemma NoHandle(s: Session, name: Bytes, mode: OpenMode)
    requires !((mode.read || mode.write)
               && (name in s.files || (mode.write && |name| <= MAX_FILENAME_BYTES && |s.files| < SLOT_COUNT)))
    ensures Next(s, OpenFile(name, mode)) == s
  {
  }

  /** Deleting. */
  lemma DeletedHolds(c: seq<Cell>, e: seq<Cell>, key: Key, files: seq<FilePointer>, after: seq<FilePointer>,
                     retired: seq<nat>, retiredAfter: seq<nat>, s: Session, name: Bytes)
    requires Holds(c, key, files, retired, s) && Consistent(c, key, files)
    requires DiskView(e, key) == Drop(DiskView(c, key), name)
    requires var k := IndexOfName(files, name);
             && (k >= 0 <==> name in DiskView(c, key))
             && after == (if k >= 0 then Without(files, k) else files)
             && retiredAfter == retired + (if k >= 0 then [files[k].allocatedSize as nat] else [])
    ensures Holds(e, key, after, retiredAfter, Next(s, DeleteFile(name)))
    ensures Next(s, DeleteFile(name)).handles == s.handles && EndOfData(after) <= EndOfData(files)
    ensures DiskView(e, key) == Next(s, DeleteFile(name)).files
  {
    var k := IndexOfName(files, name);
    hide *;
    HoldsParts(c, key, files, retired, s);
    ConsistentParts(c, key, files);
    DeletingIs(s, name);
    if k >= 0 {
      NameFoundAt(files, name);
      WithoutCompatible(files, k);
      LedgerRemoved(files, k, retired);
      SlotNamesRemoved(files, k);
      SlotNamesOf(files, k);
      EndAfterRemove(files, k);
    } else {
      DropMissing(DiskView(c, key), name);
      assert retired + [] == retired;
    }
    HoldsNow(e, key, after, retiredAfter, Next(s, DeleteFile(name)));
  }

  lemma DeletingIs(s: Session, name: Bytes)
    ensures Next(s, DeleteFile(name))
         == if name in s.files
            then s.(names := s.names - {SlotOf(s.names, name)}, files := Drop(s.files, name),
                    ledger := Ledger(Drop(s.ledger.blocks, name), s.ledger.spent))
            else s
  {
    hide SlotOf;
  }

  /** Renaming to a name not in use. */
  lemma RenamedHolds(c: seq<Cell>, e: seq<Cell>, key: Key, files: seq<FilePointer>, after: seq<FilePointer>,
                     retired: seq<nat>, s: Session, a: Bytes, b: Bytes)
    requires Holds(c, key, files, retired, s) && Consistent(c, key, files) && AllCompatible(after)
    requires a in DiskView(c, key) && |b| <= MAX_FILENAME_BYTES && (b == a || b !in DiskView(c, key))
    requires DiskView(e, key) == Drop(DiskView(c, key), a)[b := DiskView(c, key)[a]]
    requires var k := IndexOfName(files, a);
             k >= 0 && after == files[k := files[k].(filename := b)]
    ensures Holds(e, key, after, retired, Next(s, RenameFile(a, b)))
    ensures Next(s, RenameFile(a, b)).handles == s.handles && EndOfData(after) <= EndOfData(files)
  {
    var k := IndexOfName(files, a);
    hide *;
    HoldsParts(c, key, files, retired, s);
    ConsistentParts(c, key, files);
    RenamingIs(s, a, b);
    NameFoundAt(files, a);
    RenamedLedger(files, k, b, retired);
    SlotNamesRenamed(files, k, b);
    SlotNamesOf(files, k);
    EndAfterRename(files, k, b);
    HoldsNow(e, key, after, retired, Next(s, RenameFile(a, b)));
  }

  lemma RenamingIs(s: Session, a: Bytes, b: Bytes)
    ensures Next(s, RenameFile(a, b))
         == if a in s.files && |b| <= MAX_FILENAME_BYTES && (b == a || b !in s.files)
            then s.(names := s.names[SlotOf(s.names, a) := b], files := Drop(s.files, a)[b := s.files[a]],
                    ledger := Renamed(s.ledger, a, b))
            else s
  {
    hide SlotOf, Renamed;
  }

  /** One more flush, of the final state, or none. */
  lemma EndCrash(key: Key, before: seq<seq<Cell>>, images: seq<seq<Cell>>, cells: seq<Cell>, s: Session, step: Step)
    requires images == before || images == before + [cells]
    requires DiskView(cells, key) == Next(s, step).files
    ensures StepCrashes(key, before, images, s, step)
  {
    hide DiskView, Next, Target;
  }

  lemma QuietStep(key: Key, images: seq<seq<Cell>>, s: Session, step: Step)
    ensures StepCrashes(key, images, images, s, step)
  {
  }

  // ------------------------------------------------------------------
  // The steps on the objects
  // ------------------------------------------------------------------

  lemma BacksParts(c: EncryptedVFSContainer, s: Session)
    requires Backs(c, s)
    ensures c.Valid() && c.isOpen && Holds(c.file.cells, c.key, c.files, c.file.retired, s)
    ensures Consistent(c.file.cells, c.key, c.files) && AllCompatible(c.files) && TOTAL_HEADER <= |c.file.cells|
    ensures s.files == c.Shown() == DiskView(c.file.cells, c.key)
  {
    c.OpenFacts();
    ConsistentParts(c.file.cells, c.key, c.files);
    hide Holds, Consistent, AllCompatible, Budget, DiskView;
    HoldsParts(c.file.cells, c.key, c.files, c.file.retired, s);
  }

  lemma BacksNow(c: EncryptedVFSContainer, s: Session)
    requires c.Valid() && c.isOpen && Holds(c.file.cells, c.key, c.files, c.file.retired, s)
    ensures Backs(c, s)
  {
    hide EncryptedVFSContainer.Valid, Holds;
  }

  lemma TrackedParts(c: EncryptedVFSContainer, vfs: seq<VirtualFile>, handles: seq<Handle>)
    requires AllTracked(c, vfs, handles)
    ensures |vfs| == |handles| && forall i, j :: 0 <= i < j < |vfs| ==> vfs[i] != vfs[j]
    ensures forall i :: 0 <= i < |vfs| ==> Tracks(c, vfs[i], handles[i])
    ensures c.openFiles == TrackedFiles(vfs, handles) && forall vf :: vf in c.openFiles ==> vf in vfs
  {
  }

  /** What a live handle says about its object. */
  lemma LiveParts(c: EncryptedVFSContainer, vfs: seq<VirtualFile>, s: Session, h: nat)
    requires AllTracked(c, vfs, s.handles) && Live(s, h)
    ensures h < |vfs| == |s.handles| && s.handles[h].open
    ensures var vf, x := vfs[h], s.handles[h];
            && !vf.freed && vf.isOpen && vf.container == c && vf.slotIndex == x.slot && vf.mode == x.mode
            && vf.data == x.data && vf.pos == x.pos <= |x.data| && vf.dirty == x.dirty
  {
    assert Tracks(c, vfs[h], s.handles[h]);
  }

  /** The other objects are still tracked when one has changed. */
  lemma TrackedAgain(c: EncryptedVFSContainer, vfs: seq<VirtualFile>, before: seq<Handle>, after: seq<Handle>, h: nat)
    requires |vfs| == |before| == |after| && h < |vfs| && (forall i, j :: 0 <= i < j < |vfs| ==> vfs[i] != vfs[j])
    requires forall i :: 0 <= i < |vfs| && i != h ==> Tracks(c, vfs[i], before[i]) && after[i] == before[i]
    requires Tracks(c, vfs[h], after[h]) && (before[h].tracked == after[h].tracked)
    requires c.openFiles == if after[h].open == before[h].open then TrackedFiles(vfs, before)
                            else TrackedFiles(vfs, before) - {vfs[h]}
    requires after[h].open ==> before[h].open
    ensures AllTracked(c, vfs, after)
  {
    hide Tracks;
    var all, was := TrackedFiles(vfs, after), TrackedFiles(vfs, before);
    forall vf ensures vf in c.openFiles <==> vf in all {
      if vf in all {
        var i :| 0 <= i < |vfs| && after[i].open && after[i].tracked && vfs[i] == vf;
        assert before[i].open && before[i].tracked;
      }
      if vf in was {
        var i :| 0 <= i < |vfs| && before[i].open && before[i].tracked && vfs[i] == vf;
        if i != h { assert after[i].open && after[i].tracked; }
      }
    }
  }

  lemma TracksNow(c: EncryptedVFSContainer, vf: VirtualFile, x: Handle)
    requires vf.isOpen == x.open
    requires x.open ==>
               && !vf.freed && vf.container == c && vf.slotIndex == x.slot && vf.mode == x.mode
               && vf.data == x.data && vf.pos == x.pos <= |x.data| && vf.dirty == x.dirty
    ensures Tracks(c, vf, x)
  {
  }

  /** openFile. */
  method DoOpen(c: EncryptedVFSContainer, vfs: seq<VirtualFile>, name: Bytes, mode: OpenMode, ghost s: Session)
    returns (out: seq<VirtualFile>)
    requires Backs(c, s) && AllTracked(c, vfs, s.handles) && Room(c.files, [])
    modifies c`files, c`openFiles, c.file`cells, c.file`images, c.file`handles
    ensures var t := Next(s, OpenFile(name, mode)); Backs(c, t) && AllTracked(c, out, t.handles)
    ensures StepCrashes(c.key, old(c.file.images), c.file.images, s, OpenFile(name, mode))
    ensures EndOfData(c.files) <= EndOfData(old(c.files)) + DATA_ALIGNMENT
    ensures NothingForeign(old(c.file.cells), c.file.cells, c.key)
    ensures forall vf :: vf in out ==> vf in vfs || fresh(vf)
  {
    hide *;
    BacksParts(c, s);
    TrackedParts(c, vfs, s.handles);
    ghost var cells, f := c.file.cells, c.files;
    var vf := c.OpenFile(name, mode);
    c.OpenFacts();
    ConsistentParts(c.file.cells, c.key, c.files);
    OpenedHolds(cells, c.file.cells, c.key, f, c.files, old(c.file.images), c.file.images, c.file.retired, s, name,
                mode);
    ghost var t := Next(s, OpenFile(name, mode));
    BacksNow(c, t);
    out := vfs;
    if vf != null {
      NewHandle(c.file.cells, c.key, c.files, c.file.retired, s, name, mode, vf.slotIndex, vf.data);
      out := vfs + [vf];
      NewTracked(c, vfs, s.handles, vf, mode);
    } else {
      NoHandle(s, name, mode);
    }
  }

  lemma NewTracked(c: EncryptedVFSContainer, vfs: seq<VirtualFile>, handles: seq<Handle>, vf: VirtualFile,
                   mode: OpenMode)
    requires |vfs| == |handles| && (forall i, j :: 0 <= i < j < |vfs| ==> vfs[i] != vfs[j])
    requires forall i :: 0 <= i < |vfs| ==> Tracks(c, vfs[i], handles[i])
    requires c.openFiles == TrackedFiles(vfs, handles) + {vf} && vf !in vfs && vf.Fresh(c, mode)
    ensures AllTracked(c, vfs + [vf], handles + [Handle(vf.slotIndex, mode, vf.data, 0, false, true, true)])
  {
    var xs := handles + [Handle(vf.slotIndex, mode, vf.data, 0, false, true, true)];
    var all := vfs + [vf];
    assert Tracks(c, vf, xs[|handles|]);
    hide Tracks;
    forall i | 0 <= i < |all| ensures Tracks(c, all[i], xs[i]) {
      if i < |vfs| { assert all[i] == vfs[i] && xs[i] == handles[i]; }
    }
    var was, now := TrackedFiles(vfs, handles), TrackedFiles(all, xs);
    forall u ensures u in now <==> u in was + {vf} {
      if u in now {
        var i :| 0 <= i < |all| && xs[i].open && xs[i].tracked && all[i] == u;
        if i < |vfs| { assert handles[i].open && handles[i].tracked && vfs[i] == u; }
      }
      if u in was {
        var i :| 0 <= i < |vfs| && handles[i].open && handles[i].tracked && vfs[i] == u;
        assert xs[i].open && xs[i].tracked && all[i] == u;
      }
      if u == vf { assert xs[|vfs|].open && xs[|vfs|].tracked && all[|vfs|] == vf; }
    }
  }

  /** flush. */
  method DoFlush(c: EncryptedVFSContainer, vfs: seq<VirtualFile>, h: nat, ghost s: Session)
    requires Backs(c, s) && AllTracked(c, vfs, s.handles) && Live(s, h)
    requires s.handles[h].dirty ==> Room(c.files, s.handles[h].data)
    modifies c`files, c.file`cells, c.file`images, vfs[h]
    ensures Backs(c, Flushed(s, h)) && AllTracked(c, vfs, Flushed(s, h).handles)
    ensures StepCrashes(c.key, old(c.file.images), c.file.images, s, FlushFile(h))
    ensures EndOfData(c.files) <= EndOfData(old(c.files)) + Takes(s, FlushFile(h))
    ensures NothingForeign(old(c.file.cells), c.file.cells, c.key)
  {
    hide *;
    BacksParts(c, s);
    TrackedParts(c, vfs, s.handles);
    LiveParts(c, vfs, s, h);
    PublicPartFirst();
    NothingForeignSelf(c.file.cells, c.key);
    ghost var cells, f, k := c.file.cells, c.files, IndexOfSlot(c.files, s.handles[h].slot);
    FlushParts(c, vfs[h]);
    FlushCases(s, h);
    TakesFlush(s, h);
    HoldsParts(cells, c.key, f, c.file.retired, s);
    SlotNamesAt(f, s.handles[h].slot);
    var ok := vfs[h].Flush();
    if s.handles[h].dirty && k >= 0 {
      StoredHolds(cells, c.file.cells, c.key, f, c.files, old(c.file.images), c.file.images, c.file.retired, s, h, k);
      StoredOwn(cells, c.file.cells, c.key, f, c.files, old(c.file.images), c.file.images, k, s.handles[h].data);
    } else {
      HoldsNow(c.file.cells, c.key, c.files, c.file.retired, Flushed(s, h));
      QuietStep(c.key, c.file.images, s, FlushFile(h));
    }
    BacksNow(c, Flushed(s, h));
    TracksNow(c, vfs[h], Flushed(s, h).handles[h]);
    TrackedAgain(c, vfs, s.handles, Flushed(s, h).handles, h);
  }

  lemma FlushParts(c: EncryptedVFSContainer, vf: VirtualFile)
    requires vf.container == c && !vf.freed && c.Valid() && c.isOpen
    ensures vf.Flushes() <==> vf.dirty
    ensures vf.Containers() == {c} && vf.HostFiles() == {c.file}
    ensures (vf.dirty ==> Room(c.files, vf.data)) ==> vf.Writable()
  {
    hide Room, EncryptedVFSContainer.Valid;
  }

  lemma FlushCases(s: Session, h: nat)
    requires Live(s, h)
    ensures h < |s.handles| && s.handles[h].open
    ensures Flushed(s, h).handles
         == if s.handles[h].dirty && s.handles[h].slot in s.names
            then s.handles[h := s.handles[h].(dirty := false)] else s.handles
    ensures !(s.handles[h].dirty && s.handles[h].slot in s.names) ==> Flushed(s, h) == s
  {
    hide Held;
  }

  lemma TakesFlush(s: Session, h: nat)
    requires Live(s, h)
    ensures Takes(s, FlushFile(h)) == Takes(s, CloseFile(h))
         == if s.handles[h].dirty then BlockOf(s.handles[h].data) else 0
  {
    hide BlockOf;
  }

  /** close, and the end of the object. */
  method DoClose(c: EncryptedVFSContainer, vfs: seq<VirtualFile>, h: nat, ghost s: Session)
    requires Backs(c, s) && AllTracked(c, vfs, s.handles) && Live(s, h)
    requires s.handles[h].dirty ==> Room(c.files, s.handles[h].data)
    modifies c`files, c`openFiles, c.file`cells, c.file`images, vfs[h]
    ensures var t := Next(s, CloseFile(h)); Backs(c, t) && AllTracked(c, vfs, t.handles) && vfs[h].freed
    ensures StepCrashes(c.key, old(c.file.images), c.file.images, s, CloseFile(h))
    ensures EndOfData(c.files) <= EndOfData(old(c.files)) + Takes(s, CloseFile(h))
    ensures NothingForeign(old(c.file.cells), c.file.cells, c.key)
  {
    hide *;
    BacksParts(c, s);
    TrackedParts(c, vfs, s.handles);
    LiveParts(c, vfs, s, h);
    PublicPartFirst();
    NothingForeignSelf(c.file.cells, c.key);
    ghost var cells, f, k := c.file.cells, c.files, IndexOfSlot(c.files, s.handles[h].slot);
    FlushParts(c, vfs[h]);
    FlushCases(s, h);
    TakesFlush(s, h);
    HoldsParts(cells, c.key, f, c.file.retired, s);
    SlotNamesAt(f, s.handles[h].slot);
    vfs[h].Close();
    vfs[h].Delete();
    if s.handles[h].dirty && k >= 0 {
      StoredHolds(cells, c.file.cells, c.key, f, c.files, old(c.file.images), c.file.images, c.file.retired, s, h, k);
      StoredOwn(cells, c.file.cells, c.key, f, c.files, old(c.file.images), c.file.images, k, s.handles[h].data);
    } else {
      HoldsNow(c.file.cells, c.key, c.files, c.file.retired, Flushed(s, h));
      QuietStep(c.key, c.file.images, s, CloseFile(h));
    }
    ghost var t := Next(s, CloseFile(h));
    ClosedIs(s, h);
    HoldsParts(c.file.cells, c.key, c.files, c.file.retired, Flushed(s, h));
    HoldsNow(c.file.cells, c.key, c.files, c.file.retired, t);
    BacksNow(c, t);
    TracksNow(c, vfs[h], t.handles[h]);
    TrackedAgain(c, vfs, s.handles, t.handles, h);
  }

  lemma ClosedIs(s: Session, h: nat)
    requires Live(s, h)
    ensures var t, u := Next(s, CloseFile(h)), Flushed(s, h);
            && t.names == u.names && t.files == u.files && t.ledger == u.ledger && h < |u.handles| == |s.handles|
            && t.handles == u.handles[h := u.handles[h].(open := false)]
            && forall i :: 0 <= i < |s.handles| && i != h ==> t.handles[i] == s.handles[i]
  {
    hide Held;
  }

  /** Seeking and writing stay in memory. */
  method DoEdit(c: EncryptedVFSContainer, vfs: seq<VirtualFile>, step: Step, ghost s: Session)
    requires Backs(c, s) && AllTracked(c, vfs, s.handles) && (step.SeekTo? || step.WriteTo?) && Live(s, step.h)
    requires step.h < |vfs|
    modifies vfs[step.h]
    ensures Backs(c, Next(s, step)) && AllTracked(c, vfs, Next(s, step).handles)
    ensures Next(s, step).files == s.files
  {
    hide *;
    BacksParts(c, s);
    TrackedParts(c, vfs, s.handles);
    LiveParts(c, vfs, s, step.h);
    ghost var t := Next(s, step);
    EditIs(s, step);
    var vf := vfs[step.h];
    match step {
      case SeekTo(h, p) =>
        var sought := vf.Seek(p);
      case WriteTo(h, buf) =>
        var written := vf.Write(buf);
    }
    HoldsParts(c.file.cells, c.key, c.files, c.file.retired, s);
    HoldsNow(c.file.cells, c.key, c.files, c.file.retired, t);
    BacksNow(c, t);
    TracksNow(c, vf, t.handles[step.h]);
    TrackedAgain(c, vfs, s.handles, t.handles, step.h);
  }

  lemma EditIs(s: Session, step: Step)
    requires (step.SeekTo? || step.WriteTo?) && Live(s, step.h) && s.handles[step.h].pos <= |s.handles[step.h].data|
    ensures var t, x := Next(s, step), s.handles[step.h];
            && t.names == s.names && t.files == s.files && t.ledger == s.ledger
            && t.handles == s.handles[step.h := if step.SeekTo? then Sought(x, step.p)
                                                else if x.mode.write then Written(x, step.buf) else x]
    ensures step.SeekTo? ==>
              var x := s.handles[step.h];
              Sought(x, step.p) == if step.p <= |x.data| then x.(pos := step.p)
                                   else if x.mode.write
                                   then x.(data := x.data + Zeros(step.p - |x.data|), pos := step.p)
                                   else x
    ensures step.WriteTo? ==>
              var x := s.handles[step.h];
              Written(x, step.buf)
              == x.(data := x.data[..x.pos] + step.buf
                            + (if x.pos + |step.buf| <= |x.data| then x.data[x.pos + |step.buf|..] else []),
                    pos := x.pos + |step.buf|, dirty := true)
  {
    hide Written;
    var x := s.handles[step.h];
    assert s.handles[step.h := x] == s.handles;
    if step.WriteTo? { WrittenIs(x, step.buf); }
  }

  lemma WrittenIs(x: Handle, buf: Bytes)
    requires x.pos <= |x.data|
    ensures Written(x, buf)
         == x.(data := x.data[..x.pos] + buf + (if x.pos + |buf| <= |x.data| then x.data[x.pos + |buf|..] else []),
               pos := x.pos + |buf|, dirty := true)
  {
  }

  /** deleteFile. */
  method DoDelete(c: EncryptedVFSContainer, vfs: seq<VirtualFile>, name: Bytes, ghost s: Session)
    requires Backs(c, s) && AllTracked(c, vfs, s.handles)
    modifies c`files, c.file`cells, c.file`images, c.file`retired
    ensures var t := Next(s, DeleteFile(name)); Backs(c, t) && AllTracked(c, vfs, t.handles)
    ensures StepCrashes(c.key, old(c.file.images), c.file.images, s, DeleteFile(name))
    ensures EndOfData(c.files) <= EndOfData(old(c.files)) && NothingForeign(old(c.file.cells), c.file.cells, c.key)
  {
    hide *;
    BacksParts(c, s);
    PublicPartFirst();
    ghost var cells, f := c.file.cells, c.files;
    var ok := c.DeleteFile(name);
    c.ShownIs();
    DeletedHolds(cells, c.file.cells, c.key, f, c.files, old(c.file.retired), c.file.retired, s, name);
    BacksNow(c, Next(s, DeleteFile(name)));
    if !ok { assert c.file.images == old(c.file.images); }
    EndCrash(c.key, old(c.file.images), c.file.images, c.file.cells, s, DeleteFile(name));
  }

  /** renameFile, to a name not in use. */
  method DoRename(c: EncryptedVFSContainer, vfs: seq<VirtualFile>, a: Bytes, b: Bytes, ghost s: Session)
    requires Backs(c, s) && AllTracked(c, vfs, s.handles)
    modifies c`files, c.file`cells, c.file`images
    ensures var t := Next(s, RenameFile(a, b)); Backs(c, t) && AllTracked(c, vfs, t.handles)
    ensures StepCrashes(c.key, old(c.file.images), c.file.images, s, RenameFile(a, b))
    ensures EndOfData(c.files) <= EndOfData(old(c.files)) && NothingForeign(old(c.file.cells), c.file.cells, c.key)
  {
    hide *;
    BacksParts(c, s);
    PublicPartFirst();
    NothingForeignSelf(c.file.cells, c.key);
    ghost var cells, f, before := c.file.cells, c.files, c.file.images;
    c.ShownAt(a);
    c.ShownAt(b);
    RenamingIs(s, a, b);
    var taken := c.FindFileSlot(b);
    if taken >= 0 && b != a {
      QuietStep(c.key, c.file.images, s, RenameFile(a, b));
      return;
    }
    var ok := c.RenameFile(a, b);
    if ok {
      c.ShownIs();
      c.OpenFacts();
      ConsistentParts(c.file.cells, c.key, c.files);
      RenamedHolds(cells, c.file.cells, c.key, f, c.files, c.file.retired, s, a, b);
      BacksNow(c, Next(s, RenameFile(a, b)));
      EndCrash(c.key, before, c.file.images, c.file.cells, s, RenameFile(a, b));
    } else {
      c.ShownIs();
      assert before + [] == before;
      HoldsParts(cells, c.key, f, c.file.retired, s);
      HoldsNow(c.file.cells, c.key, c.files, c.file.retired, s);
      BacksNow(c, s);
      QuietStep(c.key, c.file.images, s, RenameFile(a, b));
    }
  }

  lemma IsLive(c: EncryptedVFSContainer, vfs: seq<VirtualFile>, s: Session, h: nat)
    requires AllTracked(c, vfs, s.handles)
    ensures Live(s, h) <==> h < |vfs| && vfs[h].isOpen
  {
    if h < |vfs| { assert Tracks(c, vfs[h], s.handles[h]); }
  }

  lemma DeadHandle(s: Session, step: Step)
    requires (step.SeekTo? || step.WriteTo? || step.FlushFile? || step.CloseFile?) && !Live(s, step.h)
    ensures Next(s, step) == s
  {
  }

  // ------------------------------------------------------------------
  // Closing the container with files open, and opening it again
  // ------------------------------------------------------------------

  /** What the container stores for a list of handles. */
  ghost predicate StoresOf(s: Session, order: seq<nat>, stores: seq<FileData>) {
    && |order| == |stores|
    && forall i :: 0 <= i < |order| ==>
         && Storing(s, order[i])
         && stores[i] == FileData(s.names[s.handles[order[i]].slot], s.handles[order[i]].data)
  }

  /** Flushing handles one after the other stores their buffers one after the other. */
  lemma {:induction false} FlushEachStores(s: Session, order: seq<nat>, stores: seq<FileData>)
    requires StoresOf(s, order, stores) && forall i, j :: 0 <= i < j < |order| ==> order[i] != order[j]
    ensures var t := FlushEach(s, order);
            && t.names == s.names && t.files == StoreAll(s.files, stores) && t.ledger == HeldAll(s.ledger, stores)
            && |t.handles| == |s.handles|
            && forall h :: 0 <= h < |s.handles| ==>
                 t.handles[h] == if h in order then s.handles[h].(dirty := false) else s.handles[h]
  {
    hide Held, Storing, Flushed, StoresOf;
    StoresSize(s, order, stores);
    if order != [] {
      var n := |order| - 1;
      var h, t := order[n], FlushEach(s, order[..n]);
      StoresOfPrefix(s, order, stores, n);
      FlushEachStores(s, order[..n], stores[..n]);
      assert order == order[..n] + [h] && h !in order[..n];
      StoresAt(s, order, stores, n);
      FlushOneMore(s, t, h);
    }
  }

  lemma StoresSize(s: Session, order: seq<nat>, stores: seq<FileData>)
    requires StoresOf(s, order, stores)
    ensures |order| == |stores|
  {
    hide Storing;
  }

  lemma StoresAt(s: Session, order: seq<nat>, stores: seq<FileData>, i: nat)
    requires StoresOf(s, order, stores) && i < |order|
    ensures |order| == |stores| && Storing(s, order[i]) && Live(s, order[i]) && s.handles[order[i]].slot in s.names
    ensures stores[i] == FileData(s.names[s.handles[order[i]].slot], s.handles[order[i]].data)
  {
  }

  lemma FlushOneMore(s: Session, t: Session, h: nat)
    requires Storing(s, h) && t.names == s.names && |t.handles| == |s.handles| && t.handles[h] == s.handles[h]
    ensures s.handles[h].slot in s.names
    ensures var x, name := s.handles[h], s.names[s.handles[h].slot];
            && Live(t, h)
            && Flushed(t, h) == Session(t.names, t.files[name := x.data], Held(t.ledger, name, x.data),
                                        t.handles[h := x.(dirty := false)])
  {
    hide Held;
  }

  lemma StoresOfPrefix(s: Session, order: seq<nat>, stores: seq<FileData>, k: nat)
    requires StoresOf(s, order, stores) && k <= |order|
    ensures StoresOf(s, order[..k], stores[..k])
  {
    hide Storing;
  }

  /** So what a crash leaves amid the stores it leaves amid the flushes. */
  lemma AmidStores(key: Key, image: seq<Cell>, s: Session, order: seq<nat>, stores: seq<FileData>)
    requires StoresOf(s, order, stores) && MidStores(key, image, s.files, stores)
    requires forall i, j :: 0 <= i < j < |order| ==> order[i] != order[j]
    ensures CrashAmid(key, image, s, order)
  {
    hide DiskView, FlushEach, StoreAll;
    var k :| 0 <= k <= |stores|
             && (|| DiskView(image, key) == StoreAll(s.files, stores[..k])
                 || (k < |stores| && DiskView(image, key) == StoreAll(s.files, stores[..k])[stores[k].name := []]));
    StoresOfPrefix(s, order, stores, k);
    FlushEachStores(s, order[..k], stores[..k]);
    if k < |order| { assert Storing(s, order[k]); }
  }

  lemma ReopenIs(s: Session, order: seq<nat>, stores: seq<FileData>)
    requires ValidOrder(s, order) && StoresOf(s, order, stores)
    ensures var t := Next(s, Restart(order));
            && t.names == s.names && t.files == StoreAll(s.files, stores) && t.ledger == HeldAll(s.ledger, stores)
            && |t.handles| == |s.handles|
            && forall h :: 0 <= h < |s.handles| ==>
                 t.handles[h] == s.handles[h].(dirty := s.handles[h].dirty && !Storing(s, h), tracked := false)
  {
    hide Held, StoreAll, HeldAll;
    FlushEachStores(s, order, stores);
  }

  lemma ReopenCrashes(key: Key, before: seq<seq<Cell>>, images: seq<seq<Cell>>, s: Session, order: seq<nat>,
                      stores: seq<FileData>)
    requires ValidOrder(s, order) && StoresOf(s, order, stores)
    requires CloseImages(key, before, images, s.files, stores)
    ensures StepCrashes(key, before, images, s, Restart(order))
  {
    hide DiskView, Next, StoresOf, MidStores, CrashAmid, Storing;
    forall j | |before| <= j < |images| ensures CrashMid(key, images[j], s, Restart(order)) {
      AmidStores(key, images[j], s, order, stores);
    }
  }

  lemma SlotNamesReordered(files: seq<FilePointer>, l: seq<FilePointer>)
    requires AllCompatible(files) && AllCompatible(l) && multiset(l) == multiset(files)
    ensures SlotNames(l) == SlotNames(files)
  {
    var left, right := SlotNames(l), SlotNames(files);
    hide *;
    forall slot ensures (slot in left <==> slot in right) && (slot in left ==> left[slot] == right[slot]) {
      SlotNamesAt(files, slot);
      SlotNamesAt(l, slot);
      if slot in left {
        var m := IndexInReload(l, files, IndexOfSlot(l, slot));
        IndexHolds(l, slot);
        SlotNamesOf(files, m);
      }
      if slot in right {
        var m := IndexInReload(files, l, IndexOfSlot(files, slot));
        IndexHolds(files, slot);
        SlotNamesOf(l, m);
      }
    }
    SameMap(left, right);
  }

  /** The container closed on these stores and opened again holds the session after them. */
  lemma ReopenedHolds(e: seq<Cell>, key: Key, files: seq<FilePointer>, kept: seq<FilePointer>, retired: seq<nat>,
                      s: Session, order: seq<nat>, stores: seq<FileData>)
    requires ValidOrder(s, order) && StoresOf(s, order, stores)
    requires s.names == SlotNames(files) && SameShape(files, kept) && Consistent(e, key, kept)
    requires DiskView(e, key) == StoreAll(s.files, stores)
    requires LedgerOf(kept, retired) == HeldAll(s.ledger, stores)
    ensures Holds(e, key, Loaded(e, key), retired, Next(s, Restart(order)))
    ensures EndOfData(Loaded(e, key)) <= EndOfData(kept)
  {
    hide *;
    ReopenIs(s, order, stores);
    ConsistentParts(e, key, kept);
    ReloadAgrees(e, key, kept);
    ConsistentParts(e, key, Loaded(e, key));
    SlotNamesSame(files, kept);
    SlotNamesReordered(kept, Loaded(e, key));
    ReloadedLedger(e, key, kept, retired);
    EndAfterReload(e, key, kept);
    HoldsNow(e, key, Loaded(e, key), retired, Next(s, Restart(order)));
  }

  ghost function IndexIn(vfs: seq<VirtualFile>, vf: VirtualFile): (i: nat)
    requires vf in vfs
    ensures i < |vfs| && vfs[i] == vf
  {
    var i :| 0 <= i < |vfs| && vfs[i] == vf;
    i
  }

  /** The handles behind the files a close stored. */
  lemma OrderOf(f: seq<FilePointer>, vfs: seq<VirtualFile>, s: Session, storing: set<VirtualFile>, done: Flushes)
    returns (order: seq<nat>)
    requires s.names == SlotNames(f) && |vfs| == |s.handles| && done.Of(f, storing)
    requires forall i, j :: 0 <= i < j < |vfs| ==> vfs[i] != vfs[j]
    requires forall vf :: vf in storing ==> vf in vfs
    requires forall h :: 0 <= h < |vfs| ==> (vfs[h] in storing <==> Storing(s, h))
    requires forall h :: 0 <= h < |vfs| && Storing(s, h) ==>
               vfs[h].slotIndex == s.handles[h].slot && vfs[h].data == s.handles[h].data
    ensures ValidOrder(s, order) && StoresOf(s, order, done.stores)
  {
    hide Storing, SlotNames, SlotName;
    OfParts(f, storing, done);
    order := seq(|done.order|, k requires 0 <= k < |done.order| => IndexIn(vfs, done.order[k]));
    forall k | 0 <= k < |order|
      ensures Storing(s, order[k]) && s.handles[order[k]].slot in s.names
              && done.stores[k] == FileData(s.names[s.handles[order[k]].slot], s.handles[order[k]].data) {
      assert vfs[order[k]] == done.order[k] && done.order[k] in storing;
      StoringNamed(s, order[k]);
      SlotNamesAt(f, s.handles[order[k]].slot);
      SlotNameIs(f, s.handles[order[k]].slot);
    }
    forall h | 0 <= h < |s.handles| && Storing(s, h) ensures h in order {
      var k :| 0 <= k < |done.order| && done.order[k] == vfs[h];
      assert vfs[order[k]] == vfs[h];
      assert order[k] == h;
    }
    forall i, j | 0 <= i < j < |order| ensures order[i] != order[j] {
      assert vfs[order[i]] == done.order[i] && vfs[order[j]] == done.order[j];
    }
  }

  lemma StoringNamed(s: Session, h: nat)
    requires Storing(s, h)
    ensures h < |s.handles| && s.handles[h].slot in s.names
  {
  }

  /** Which objects closing the container will store. */
  lemma StoringFiles(c: EncryptedVFSContainer, vfs: seq<VirtualFile>, s: Session, dirty: set<VirtualFile>)
    requires AllTracked(c, vfs, s.handles) && s.names == SlotNames(c.files)
    requires dirty == set vf | vf in c.openFiles && vf.dirty
    ensures EncryptedVFSContainer.Dirty(c.openFiles, dirty) && forall vf :: vf in InUse(c.files, dirty) ==> vf in vfs
    ensures forall h :: 0 <= h < |vfs| ==> (vfs[h] in InUse(c.files, dirty) <==> Storing(s, h))
    ensures forall h :: 0 <= h < |vfs| ==> (vfs[h] in dirty <==> Live(s, h) && s.handles[h].tracked && vfs[h].dirty)
    ensures forall h :: 0 <= h < |vfs| && Storing(s, h) ==>
              vfs[h].slotIndex == s.handles[h].slot && vfs[h].data == s.handles[h].data
  {
    hide SlotNames, IndexOfSlot;
    InUseIs(c.files, dirty);
    forall h | 0 <= h < |vfs|
      ensures vfs[h] in dirty <==> Live(s, h) && s.handles[h].tracked && vfs[h].dirty
      ensures vfs[h] in InUse(c.files, dirty) <==> Storing(s, h) {
      assert Tracks(c, vfs[h], s.handles[h]);
      SlotNamesAt(c.files, vfs[h].slotIndex);
      if vfs[h] in c.openFiles {
        var i :| 0 <= i < |vfs| && s.handles[i].open && s.handles[i].tracked && vfs[i] == vfs[h];
        assert i == h;
      }
    }
  }

  /** There is room for whatever closing stores. */
  lemma ReopenFlushable(c: EncryptedVFSContainer, vfs: seq<VirtualFile>, s: Session, step: Step)
    requires AllTracked(c, vfs, s.handles) && step.Restart? && SizeFits(s, step)
    requires EndOfData(c.files) + Takes(s, step) + MAX_PADDING + DATA_ALIGNMENT < TWO_63
    ensures c.Flushable(c.files, c.openFiles, LargestBlock(s.handles))
    ensures Total(|c.openFiles|, LargestBlock(s.handles)) <= Takes(s, step)
  {
    hide EndOfData, PowerOfTwo.NextPowerOf2, Total;
    FewerTracked(vfs, s.handles);
    TotalGrows(|c.openFiles|, |s.handles|, LargestBlock(s.handles));
    TotalIs(|c.openFiles|, LargestBlock(s.handles));
    forall vf | vf in c.openFiles
      ensures !vf.freed && vf.container == c && BLOB_OVERHEAD + |vf.data| <= TWO_63
              && PowerOfTwo.NextPowerOf2(BLOB_OVERHEAD + |vf.data|) <= LargestBlock(s.handles) {
      var i :| 0 <= i < |vfs| && s.handles[i].open && s.handles[i].tracked && vfs[i] == vf;
      assert Tracks(c, vfs[i], s.handles[i]);
    }
  }

  lemma TotalIs(n: nat, block: nat)
    ensures Total(n, block) == n * block
  {
  }

  lemma TotalGrows(n: nat, m: nat, block: nat)
    requires n <= m
    ensures Total(n, block) <= Total(m, block)
  {
    assert (m - n) * block >= 0;
    assert m * block == n * block + (m - n) * block;
  }

  lemma {:induction false} FewerTracked(vfs: seq<VirtualFile>, handles: seq<Handle>)
    requires |vfs| == |handles|
    ensures |TrackedFiles(vfs, handles)| <= |handles|
  {
    if handles != [] {
      var n := |handles| - 1;
      FewerTracked(vfs[..n], handles[..n]);
      var all, rest := TrackedFiles(vfs, handles), TrackedFiles(vfs[..n], handles[..n]);
      forall vf | vf in all ensures vf in rest + {vfs[n]} {
        var i :| 0 <= i < |vfs| && handles[i].open && handles[i].tracked && vfs[i] == vf;
        if i < n { assert vfs[..n][i] == vf && handles[..n][i] == handles[i]; }
      }
      SubsetSize(all, rest + {vfs[n]});
    }
  }

  /** Nothing is tracked any more, and what could be stored is clean. */
  lemma ReopenTracked(c: EncryptedVFSContainer, vfs: seq<VirtualFile>, s: Session, t: Session)
    requires |vfs| == |s.handles| == |t.handles| && c.openFiles == {}
    requires forall i, j :: 0 <= i < j < |vfs| ==> vfs[i] != vfs[j]
    requires forall h :: 0 <= h < |vfs| ==> Tracks(c, vfs[h], s.handles[h].(dirty := t.handles[h].dirty))
    requires forall h :: 0 <= h < |vfs| ==>
               t.handles[h] == s.handles[h].(dirty := t.handles[h].dirty, tracked := false)
    ensures AllTracked(c, vfs, t.handles)
  {
    forall h | 0 <= h < |vfs| ensures Tracks(c, vfs[h], t.handles[h]) {
      assert Tracks(c, vfs[h], s.handles[h].(dirty := t.handles[h].dirty));
    }
    assert TrackedFiles(vfs, t.handles) == {};
  }

  /** The container is on the key of this passphrase. */
  ghost predicate Keyed(c: EncryptedVFSContainer, passphrase: Bytes)
    reads c`key, c.file`cells
  {
    HasMagic(c.file.cells) && c.key == DeriveKey(passphrase, c.file.cells)
  }

  lemma StillKeyed(c: EncryptedVFSContainer, cells: seq<Cell>, passphrase: Bytes)
    requires HasMagic(cells) && c.key == DeriveKey(passphrase, cells) && NothingForeign(cells, c.file.cells, c.key)
    ensures Keyed(c, passphrase)
  {
    hide DeriveKey, HasMagic;
    HeaderSame(cells, c.file.cells, passphrase);
  }

  lemma KeyedParts(c: EncryptedVFSContainer, passphrase: Bytes)
    requires Keyed(c, passphrase)
    ensures HasMagic(c.file.cells) && HEADER_OFFSET <= |c.file.cells| && c.key == DeriveKey(passphrase, c.file.cells)
  {
  }

  /** Close, with whatever is open, and open again. */
  method DoReopen(c: EncryptedVFSContainer, vfs: seq<VirtualFile>, passphrase: Bytes, ghost s: Session,
                  ghost step: Step)
    returns (ghost taken: Step)
    requires Backs(c, s) && AllTracked(c, vfs, s.handles) && Keyed(c, passphrase) && step.Restart? && SizeFits(s, step)
    requires EndOfData(c.files) + Takes(s, step) + MAX_PADDING + DATA_ALIGNMENT < TWO_63
    modifies c`files, c`openFiles, c`key, c`isOpen, c.file`cells, c.file`images, vfs
    ensures CanBe(s, step, taken) && Backs(c, Next(s, taken)) && AllTracked(c, vfs, Next(s, taken).handles)
    ensures StepCrashes(c.key, old(c.file.images), c.file.images, s, taken) && c.key == old(c.key)
    ensures EndOfData(c.files) <= EndOfData(old(c.files)) + Takes(s, step)
    ensures NothingForeign(old(c.file.cells), c.file.cells, c.key)
  {
    hide *;
    ghost var cells, key, f := c.file.cells, c.key, c.files;
    BacksParts(c, s);
    TrackedParts(c, vfs, s.handles);
    KeyedParts(c, passphrase);
    HoldsParts(cells, key, f, c.file.retired, s);
    ReopenFlushable(c, vfs, s, step);
    ghost var dirty := set vf | vf in c.openFiles && vf.dirty;
    StoringFiles(c, vfs, s, dirty);
    TracksAll(c, vfs, s);
    ghost var done := c.Close(LargestBlock(s.handles), dirty);
    c.ShownIs();
    ghost var order := OrderOf(f, vfs, s, InUse(f, dirty), done);
    taken := Restart(order);
    PublicPartCarries(cells, c.file.cells, c.key, passphrase);
    SoundIsPresent(c.file, key);
    var ok := c.OpenExisting(passphrase, HostFaults(false, false, 0));
    ReopenedHolds(c.file.cells, key, f, done.kept, c.file.retired, s, order, done.stores);
    BacksNow(c, Next(s, taken));
    ReopenCrashes(key, old(c.file.images), c.file.images, s, order, done.stores);
    StillTracked(c, vfs, s, order, done.stores, old(c.openFiles), dirty, InUse(f, dirty));
    CanBeReopen(s, step, order);
  }

  /** What the close did to the objects is what the session says. */
  lemma StillTracked(c: EncryptedVFSContainer, vfs: seq<VirtualFile>, s: Session, order: seq<nat>,
                     stores: seq<FileData>, were: set<VirtualFile>, dirty: set<VirtualFile>, stored: set<VirtualFile>)
    requires ValidOrder(s, order) && StoresOf(s, order, stores) && c.openFiles == {}
    requires |vfs| == |s.handles| && EncryptedVFSContainer.Dirty(were, dirty - stored)
    requires forall i, j :: 0 <= i < j < |vfs| ==> vfs[i] != vfs[j]
    requires forall h :: 0 <= h < |vfs| ==> (vfs[h] in stored <==> Storing(s, h))
    requires forall h :: 0 <= h < |vfs| ==> (vfs[h] in were <==> s.handles[h].open && s.handles[h].tracked)
    requires forall h :: 0 <= h < |vfs| && vfs[h] in were ==> (vfs[h] in dirty <==> s.handles[h].dirty)
    requires forall h :: 0 <= h < |vfs| && vfs[h] !in were && s.handles[h].open ==> vfs[h].dirty == s.handles[h].dirty
    requires forall h :: 0 <= h < |vfs| ==>
               && vfs[h].isOpen == s.handles[h].open
               && (s.handles[h].open ==>
                     && !vfs[h].freed && vfs[h].container == c && vfs[h].slotIndex == s.handles[h].slot
                     && vfs[h].mode == s.handles[h].mode && vfs[h].data == s.handles[h].data
                     && vfs[h].pos == s.handles[h].pos <= |s.handles[h].data|)
    ensures AllTracked(c, vfs, Next(s, Restart(order)).handles)
  {
    var t := Next(s, Restart(order));
    hide *;
    ReopenIs(s, order, stores);
    StillDirty(c, vfs, s, t, were, dirty, stored);
    ReopenTracked(c, vfs, s, t);
  }

  lemma CanBeReopen(s: Session, step: Step, order: seq<nat>)
    requires step.Restart? && ValidOrder(s, order)
    ensures CanBe(s, step, Restart(order))
  {
    hide ValidOrder;
  }

  /** What is tracked of each handle, but for its dirty flag. */
  lemma TracksAll(c: EncryptedVFSContainer, vfs: seq<VirtualFile>, s: Session)
    requires AllTracked(c, vfs, s.handles)
    ensures forall h :: 0 <= h < |vfs| ==>
              && vfs[h].isOpen == s.handles[h].open
              && (s.handles[h].open ==>
                    && !vfs[h].freed && vfs[h].container == c && vfs[h].slotIndex == s.handles[h].slot
                    && vfs[h].mode == s.handles[h].mode && vfs[h].data == s.handles[h].data
                    && vfs[h].pos == s.handles[h].pos <= |s.handles[h].data| && vfs[h].dirty == s.handles[h].dirty)
    ensures forall h :: 0 <= h < |vfs| ==>
              (vfs[h] in c.openFiles <==> s.handles[h].open && s.handles[h].tracked)
  {
    forall h | 0 <= h < |vfs| ensures vfs[h] in c.openFiles <==> s.handles[h].open && s.handles[h].tracked {
      if vfs[h] in c.openFiles {
        var i :| 0 <= i < |vfs| && s.handles[i].open && s.handles[i].tracked && vfs[i] == vfs[h];
        assert i == h;
      }
    }
    assert forall h :: 0 <= h < |vfs| ==> Tracks(c, vfs[h], s.handles[h]);
  }

  lemma StillDirty(c: EncryptedVFSContainer, vfs: seq<VirtualFile>, s: Session, t: Session, were: set<VirtualFile>,
                   dirty: set<VirtualFile>, stored: set<VirtualFile>)
    requires |vfs| == |s.handles| == |t.handles| && EncryptedVFSContainer.Dirty(were, dirty - stored)
    requires forall h :: 0 <= h < |vfs| ==> (vfs[h] in stored <==> Storing(s, h))
    requires forall h :: 0 <= h < |vfs| ==> (vfs[h] in were <==> s.handles[h].open && s.handles[h].tracked)
    requires forall h :: 0 <= h < |vfs| && vfs[h] in were ==> (vfs[h] in dirty <==> s.handles[h].dirty)
    requires forall h :: 0 <= h < |vfs| && vfs[h] !in were && s.handles[h].open ==> vfs[h].dirty == s.handles[h].dirty
    requires forall h :: 0 <= h < |vfs| ==>
               && vfs[h].isOpen == s.handles[h].open
               && (s.handles[h].open ==>
                     && !vfs[h].freed && vfs[h].container == c && vfs[h].slotIndex == s.handles[h].slot
                     && vfs[h].mode == s.handles[h].mode && vfs[h].data == s.handles[h].data
                     && vfs[h].pos == s.handles[h].pos <= |s.handles[h].data|)
    requires forall h :: 0 <= h < |vfs| ==>
               t.handles[h] == s.handles[h].(dirty := s.handles[h].dirty && !Storing(s, h), tracked := false)
    ensures forall h :: 0 <= h < |vfs| ==> Tracks(c, vfs[h], s.handles[h].(dirty := t.handles[h].dirty))
  {
    forall h | 0 <= h < |vfs| ensures Tracks(c, vfs[h], s.handles[h].(dirty := t.handles[h].dirty)) {
      if s.handles[h].open && vfs[h] in were {
        assert vfs[h].dirty <==> vfs[h] in dirty - stored;
      }
    }
  }

  // ------------------------------------------------------------------
  // Any step
  // ------------------------------------------------------------------

  /** Enough room for what the step takes. */
  lemma StepRoom(files: seq<FilePointer>, s: Session, step: Step)
    requires EndOfData(files) + Takes(s, step) + MAX_PADDING + DATA_ALIGNMENT < TWO_63 && SizeFits(s, step)
    ensures step.OpenFile? ==> Room(files, [])
    ensures (step.FlushFile? || step.CloseFile?) && Live(s, step.h) && s.handles[step.h].dirty ==>
              Room(files, s.handles[step.h].data)
  {
    SmallBlock();
    hide EndOfData, PowerOfTwo.NextPowerOf2, Total, LargestBlock;
  }

  lemma CanBeItself(s: Session, step: Step)
    requires !step.Restart?
    ensures CanBe(s, step, step)
  {
  }

  /** Any step; a handle that is closed is left alone. */
  method Perform(c: EncryptedVFSContainer, vfs: seq<VirtualFile>, passphrase: Bytes, step: Step, ghost s: Session)
    returns (out: seq<VirtualFile>, ghost taken: Step)
    requires Backs(c, s) && AllTracked(c, vfs, s.handles) && SizeFits(s, step) && Keyed(c, passphrase)
    requires EndOfData(c.files) + Takes(s, step) + MAX_PADDING + DATA_ALIGNMENT < TWO_63
    modifies c`files, c`openFiles, c`key, c`isOpen
    modifies c.file`cells, c.file`images, c.file`retired, c.file`handles, vfs
    ensures CanBe(s, step, taken) && Backs(c, Next(s, taken)) && AllTracked(c, out, Next(s, taken).handles)
    ensures StepCrashes(c.key, old(c.file.images), c.file.images, s, taken)
    ensures EndOfData(c.files) <= EndOfData(old(c.files)) + Takes(s, step)
    ensures NothingForeign(old(c.file.cells), c.file.cells, c.key) && Keyed(c, passphrase) && c.key == old(c.key)
    ensures forall vf :: vf in out ==> vf in vfs || fresh(vf)
  {
    hide *;
    ghost var cells := c.file.cells;
    BacksParts(c, s);
    KeyedParts(c, passphrase);
    PublicPartFirst();
    NothingForeignSelf(c.file.cells, c.key);
    StepRoom(c.files, s, step);
    out := vfs;
    taken := step;
    if !step.Restart? { CanBeItself(s, step); }
    match step {
      case OpenFile(name, mode) =>
        TakesOpen(s, name, mode);
        out := DoOpen(c, vfs, name, mode, s);
      case DeleteFile(name) =>
        DoDelete(c, vfs, name, s);
      case RenameFile(a, b) =>
        DoRename(c, vfs, a, b, s);
      case Restart(_) =>
        taken := DoReopen(c, vfs, passphrase, s, step);
      case _ =>
        OnHandle(c, vfs, step, s);
    }
    StillKeyed(c, cells, passphrase);
  }

  lemma TakesOpen(s: Session, name: Bytes, mode: OpenMode)
    ensures Takes(s, OpenFile(name, mode)) == DATA_ALIGNMENT
  {
  }

  method OnHandle(c: EncryptedVFSContainer, vfs: seq<VirtualFile>, step: Step, ghost s: Session)
    requires Backs(c, s) && AllTracked(c, vfs, s.handles)
    requires step.SeekTo? || step.WriteTo? || step.FlushFile? || step.CloseFile?
    requires (step.FlushFile? || step.CloseFile?) && Live(s, step.h) && s.handles[step.h].dirty ==>
               Room(c.files, s.handles[step.h].data)
    modifies c`files, c`openFiles, c.file`cells, c.file`images, vfs
    ensures Backs(c, Next(s, step)) && AllTracked(c, vfs, Next(s, step).handles)
    ensures StepCrashes(c.key, old(c.file.images), c.file.images, s, step)
    ensures EndOfData(c.files) <= EndOfData(old(c.files)) + Takes(s, step)
    ensures NothingForeign(old(c.file.cells), c.file.cells, c.key)
  {
    hide *;
    BacksParts(c, s);
    PublicPartFirst();
    NothingForeignSelf(c.file.cells, c.key);
    IsLive(c, vfs, s, step.h);
    if step.h < |vfs| && vfs[step.h].isOpen {
      if step.FlushFile? {
        FlushIsNext(s, step.h);
        DoFlush(c, vfs, step.h, s);
      } else if step.CloseFile? {
        DoClose(c, vfs, step.h, s);
      } else {
        DoEdit(c, vfs, step, s);
        QuietStep(c.key, c.file.images, s, step);
      }
    } else {
      DeadHandle(s, step);
      QuietStep(c.key, c.file.images, s, step);
    }
  }

  lemma FlushIsNext(s: Session, h: nat)
    requires Live(s, h)
    ensures Next(s, FlushFile(h)) == Flushed(s, h)
  {
    hide Flushed;
  }

  // ------------------------------------------------------------------
  // Any run
  // ------------------------------------------------------------------

  /** A crash image is explained by one of the steps taken. */
  ghost predicate StepExplains(key: Key, image: seq<Cell>, s: Session, taken: seq<Step>) {
    exists i :: 0 <= i < |taken| && CrashMid(key, image, NextAll(s, taken[..i]), taken[i])
  }

  ghost predicate RunCrashes(key: Key, before: seq<seq<Cell>>, images: seq<seq<Cell>>, s: Session, taken: seq<Step>) {
    && |before| <= |images| && images[..|before|] == before
    && forall j :: |before| <= j < |images| ==> StepExplains(key, images[j], s, taken)
  }

  /** The steps taken are those asked for, the closings of the container in some order of its flushes. */
  ghost predicate Took(s: Session, steps: seq<Step>, taken: seq<Step>) {
    && |taken| == |steps|
    && forall i :: 0 <= i < |steps| ==> CanBe(NextAll(s, taken[..i]), steps[i], taken[i])
  }

  lemma RunStarts(key: Key, before: seq<seq<Cell>>, s: Session)
    ensures RunCrashes(key, before, before, s, []) && NextAll(s, []) == s && Took(s, [], [])
  {
  }

  lemma RunGoesOn(key: Key, before: seq<seq<Cell>>, mid: seq<seq<Cell>>, images: seq<seq<Cell>>, s: Session,
                  taken: seq<Step>, step: Step)
    requires RunCrashes(key, before, mid, s, taken)
    requires StepCrashes(key, mid, images, NextAll(s, taken), step)
    ensures RunCrashes(key, before, images, s, taken + [step])
  {
    hide CrashMid, NextAll;
    var all := taken + [step];
    assert all[..|taken|] == taken && all[|taken|] == step;
    forall j | |before| <= j < |images| ensures StepExplains(key, images[j], s, all) {
      if j < |mid| {
        assert images[j] == images[..|mid|][j] == mid[j];
        var i :| 0 <= i < |taken| && CrashMid(key, mid[j], NextAll(s, taken[..i]), taken[i]);
        assert all[..i] == taken[..i] && all[i] == taken[i];
      } else {
        assert CrashMid(key, images[j], NextAll(s, all[..|taken|]), all[|taken|]);
      }
    }
    assert images[..|before|] == images[..|mid|][..|before|] == mid[..|before|];
  }

  lemma TookOne(s: Session, steps: seq<Step>, taken: seq<Step>, step: Step, one: Step)
    requires Took(s, steps, taken) && CanBe(NextAll(s, taken), step, one)
    ensures Took(s, steps + [step], taken + [one])
  {
    hide CanBe, NextAll;
    var all, asked := taken + [one], steps + [step];
    forall i | 0 <= i < |asked| ensures CanBe(NextAll(s, all[..i]), asked[i], all[i]) {
      if i < |steps| {
        assert all[..i] == taken[..i] && all[i] == taken[i] && asked[i] == steps[i];
      } else {
        assert all[..i] == taken;
      }
    }
  }

  lemma FitsNow(end: nat, s: Session, steps: seq<Step>, i: nat)
    requires i < |steps| && RunFits(end, s, steps[i..])
    ensures SizeFits(s, steps[i]) && end + Takes(s, steps[i]) + MAX_PADDING + DATA_ALIGNMENT < TWO_63
  {
    hide Takes, SizeFits, Next, CanBe;
    assert steps[i..][0] == steps[i];
  }

  lemma FitsNext(end: nat, s: Session, steps: seq<Step>, i: nat, taken: Step)
    requires i < |steps| && RunFits(end, s, steps[i..]) && CanBe(s, steps[i], taken)
    ensures RunFits(end + Takes(s, steps[i]), Next(s, taken), steps[i + 1..])
  {
    hide Takes, SizeFits, Next, CanBe;
    assert steps[i..][0] == steps[i] && steps[i..][1..] == steps[i + 1..];
  }

  /**
   * Any interleaving of opens, writes, flushes, closes, deletions and renames,
   * on any number of handles, and of closing the container with files open and
   * opening it again, leaves the container as the session says; a crash at any
   * flush leaves the files as they were between two flushes, but for one that
   * was being stored, which may be empty; and the space taken is bounded by
   * what the session has spent on the files it ever created.
   */
  method RunSession(c: EncryptedVFSContainer, vfs: seq<VirtualFile>, passphrase: Bytes, steps: seq<Step>,
                    ghost s: Session, ghost end: nat)
    returns (out: seq<VirtualFile>, ghost taken: seq<Step>)
    requires Backs(c, s) && AllTracked(c, vfs, s.handles) && Keyed(c, passphrase)
    requires EndOfData(c.files) <= end && RunFits(end, s, steps)
    modifies c`files, c`openFiles, c`key, c`isOpen
    modifies c.file`cells, c.file`images, c.file`retired, c.file`handles, vfs
    ensures Took(s, steps, taken) && Keyed(c, passphrase) && c.key == old(c.key)
    ensures Backs(c, NextAll(s, taken)) && AllTracked(c, out, NextAll(s, taken).handles)
    ensures c.Shown() == NextAll(s, taken).files && NothingForeign(old(c.file.cells), c.file.cells, c.key)
    ensures RunCrashes(c.key, old(c.file.images), c.file.images, s, taken)
    ensures Bounded(c.file.cells, c.files, c.file.initialSize, NextAll(s, taken).ledger.spent)
  {
    hide *;
    ghost var before := c.file.images;
    ghost var end := end;
    out := vfs;
    taken := [];
    BacksParts(c, s);
    PublicPartFirst();
    NothingForeignSelf(c.file.cells, c.key);
    RunStarts(c.key, before, s);
    assert steps[0..] == steps && steps[..0] == [];
    for i := 0 to |steps|
      invariant Backs(c, NextAll(s, taken)) && AllTracked(c, out, NextAll(s, taken).handles)
      invariant forall vf :: vf in out ==> vf in vfs || fresh(vf)
      invariant EndOfData(c.files) <= end && RunFits(end, NextAll(s, taken), steps[i..])
      invariant RunCrashes(c.key, before, c.file.images, s, taken) && Took(s, steps[..i], taken)
      invariant NothingForeign(old(c.file.cells), c.file.cells, c.key) && Keyed(c, passphrase) && c.key == old(c.key)
    {
      ghost var t, mid, cells := NextAll(s, taken), c.file.images, c.file.cells;
      FitsNow(end, t, steps, i);
      assert forall k :: 0 <= k < |out| ==> out[k] in vfs || fresh(out[k]);
      ghost var one;
      out, one := Perform(c, out, passphrase, steps[i], t);
      FitsNext(end, t, steps, i, one);
      NextLast(s, taken, one);
      RunGoesOn(c.key, before, mid, c.file.images, s, taken, one);
      TookOne(s, steps[..i], taken, steps[i], one);
      assert steps[..i] + [steps[i]] == steps[..i + 1];
      NothingForeignTrans(old(c.file.cells), cells, c.file.cells, c.key);
      taken := taken + [one];
      end := end + Takes(t, steps[i]);
    }
    assert steps[..|steps|] == steps;
    BacksParts(c, NextAll(s, taken));
    HoldsParts(c.file.cells, c.key, c.files, c.file.retired, NextAll(s, taken));
    BoundedNow(c);
    SpentIs(c);
  }

  /** The session a container without open files starts with. */
  ghost function Start(c: EncryptedVFSContainer): Session
    reads c`key, c`files, c.file`cells, c.file`retired
  {
    Session(SlotNames(c.files), DiskView(c.file.cells, c.key), LedgerOf(c.files, c.file.retired), [])
  }

  lemma Starts(c: EncryptedVFSContainer)
    requires c.Valid() && c.isOpen && c.openFiles == {}
    ensures Backs(c, Start(c)) && AllTracked(c, [], Start(c).handles)
  {
    hide EncryptedVFSContainer.Valid, SlotNames, LedgerOf, DiskView;
  }
}
