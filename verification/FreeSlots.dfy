/** When a container has room for one more file: one of its 4096 header slots is free. */
module FreeSlots {
  import opened Bytes
  import opened Aead
  import opened FilePointerCodec
  import opened ContainerImage
  import opened Vfs
  import PowerOfTwo

  function Slots(files: seq<FilePointer>): set<int> { set k | 0 <= k < |files| :: files[k].slotIndex }

  function Below(n: nat): (s: set<int>)
    ensures |s| == n && forall i :: i in s <==> 0 <= i < n
  {
    if n == 0 then {} else Below(n - 1) + {n - 1}
  }

  lemma {:induction false} SlotsSize(files: seq<FilePointer>)
    requires forall i, j :: 0 <= i < j < |files| ==> files[i].slotIndex != files[j].slotIndex
    ensures |Slots(files)| == |files|
  {
    if files != [] {
      var n := |files| - 1;
      SlotsSize(files[..n]);
      assert Slots(files) == Slots(files[..n]) + {files[n].slotIndex};
      assert files[n].slotIndex !in Slots(files[..n]);
    }
  }

  lemma {:induction false} NamesSize(files: seq<FilePointer>)
    requires forall i, j :: 0 <= i < j < |files| ==> files[i].filename != files[j].filename
    ensures |Names(files)| == |files|
  {
    if files != [] {
      var n := |files| - 1;
      NamesSize(files[..n]);
      assert Names(files) == Names(files[..n]) + {files[n].filename};
      assert files[n].filename !in Names(files[..n]);
    }
  }

  /** A slot is free exactly when there are fewer than 4096 files. */
  lemma FreeSlotIff(files: seq<FilePointer>)
    requires AllCompatible(files) && forall k :: 0 <= k < |files| ==> 0 <= files[k].slotIndex < SLOT_COUNT
    ensures FirstFreeSlotFrom(files, 0) >= 0 <==> |files| < SLOT_COUNT
  {
    hide IndexOfSlot, FirstFreeSlotFrom, Below;
    assert forall i, j :: 0 <= i < j < |files| ==> Compatible(files[i], files[j]);
    SlotsSize(files);
    var all := Below(SLOT_COUNT);
    var used := Slots(files);
    assert used <= all;
    SubsetSize(used, all);
    var free := FirstFreeSlotFrom(files, 0);
    if free >= 0 {
      assert free in all && free !in used;
    } else {
      forall i | i in all ensures i in used {
        assert IndexOfSlot(files, i) >= 0;
        assert files[IndexOfSlot(files, i)].slotIndex == i;
      }
      assert used == all;
    }
  }

  lemma {:induction false} SubsetSize<T>(a: set<T>, b: set<T>)
    requires a <= b
    ensures |a| <= |b| && (|a| == |b| <==> a == b)
  {
    if a != {} {
      var x :| x in a;
      SubsetSize(a - {x}, b - {x});
      assert a == (a - {x}) + {x} && b == (b - {x}) + {x};
    }
  }

  /** As many names are shown as there are records. */
  lemma ShownSize(c: seq<Cell>, key: Key, files: seq<FilePointer>)
    requires Consistent(c, key, files)
    ensures |DiskView(c, key)| == |files|
  {
    hide IndexOfName, ReadBlob, DecodeSlot, Loaded, DiskView, View;
    ReloadAgrees(c, key, files);
    assert AllCompatible(files);
    assert forall i, j :: 0 <= i < j < |files| ==> Compatible(files[i], files[j]);
    NamesSize(files);
    ViewNames(c, key, files);
    MapSize(View(c, key, files));
  }

  lemma ViewNames(c: seq<Cell>, key: Key, files: seq<FilePointer>)
    ensures View(c, key, files).Keys == Names(files)
  {
    hide IndexOfName, ReadBlob;
  }

  lemma MapSize<K, V>(m: map<K, V>)
    ensures |m| == |m.Keys|
  {
  }

  /** openFile can create a file exactly when its name fits and fewer than 4096 files are shown. */
  lemma CreatesIff(c: EncryptedVFSContainer, name: Bytes, mode: OpenMode)
    requires c.Valid() && c.isOpen
    ensures CanCreate(c.files, name, mode)
            <==> mode.write && |name| <= MAX_FILENAME_BYTES && |c.Shown()| < SLOT_COUNT
  {
    c.OpenFacts();
    c.ShownIs();
    hide *;
    CreatableIff(c.file.cells, c.key, c.files, name, mode);
  }

  lemma CreatableIff(cells: seq<Cell>, key: Key, files: seq<FilePointer>, name: Bytes, mode: OpenMode)
    requires Consistent(cells, key, files)
    ensures CanCreate(files, name, mode)
            <==> mode.write && |name| <= MAX_FILENAME_BYTES && |DiskView(cells, key)| < SLOT_COUNT
  {
    hide *;
    ConsistentParts(cells, key, files);
    SlotsInRange(cells, files);
    FreeSlotIff(files);
    ShownSize(cells, key, files);
    CreateMeans(files, name, mode);
  }

  lemma SlotsInRange(cells: seq<Cell>, files: seq<FilePointer>)
    requires forall k :: 0 <= k < |files| ==> Placed(cells, files[k])
    ensures forall k :: 0 <= k < |files| ==> 0 <= files[k].slotIndex < SLOT_COUNT
  {
    hide PowerOfTwo.IsPow2;
  }

  lemma CreateMeans(files: seq<FilePointer>, name: Bytes, mode: OpenMode)
    ensures CanCreate(files, name, mode)
            <==> mode.write && |name| <= MAX_FILENAME_BYTES && FirstFreeSlotFrom(files, 0) >= 0
  {
    hide FirstFreeSlotFrom;
  }
}
