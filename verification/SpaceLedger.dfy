/** What the files of a container, past and present, have cost in data area, file by file. */
module SpaceLedger {
  import opened Sequences
  import opened Bytes
  import opened FilePointerCodec
  import opened ContainerImage
  import opened ContainerSteps
  import opened ContainerOutcomes
  import opened Aead
  import PowerOfTwo

  /** The block each file has, by name, and what all files ever created can have cost: 2 * block - 4096 each. */
  datatype Ledger = Ledger(blocks: map<Bytes, nat>, spent: int)

  function BlockMap(files: seq<FilePointer>): map<Bytes, nat> {
    map name | name in Names(files) ::
      var k := IndexOfName(files, name);
      if k < 0 then 0 else files[k].allocatedSize
  }

  function LedgerOf(files: seq<FilePointer>, retired: seq<nat>): Ledger {
    Ledger(BlockMap(files), Charge(BlockSizes(files) + retired))
  }

  function Sum(blocks: seq<nat>): nat { if blocks == [] then 0 else blocks[0] + Sum(blocks[1..]) }

  /** What files of these blocks have cost: twice the blocks, less 4096 each. */
  lemma {:induction false} ChargeIs(blocks: seq<nat>)
    ensures Charge(blocks) == 2 * Sum(blocks) - 4096 * |blocks|
  {
    if blocks != [] {
      var n := |blocks| - 1;
      ChargeIs(blocks[..n]);
      SumLast(blocks);
    }
  }

  lemma {:induction false} SumLast(blocks: seq<nat>)
    requires blocks != []
    ensures Sum(blocks) == Sum(blocks[..|blocks| - 1]) + blocks[|blocks| - 1]
  {
    var n := |blocks| - 1;
    if n > 0 {
      SumLast(blocks[1..]);
      assert blocks[1..][..n - 1] == blocks[..n][1..] && blocks[..n][0] == blocks[0];
    }
  }

  /** A file, if there is one of the name, stored over with `pt`. */
  function Held(l: Ledger, name: Bytes, pt: Bytes): Ledger {
    if name !in l.blocks then l
    else
      var block := BlockFor(l.blocks[name], pt);
      Ledger(l.blocks[name := block], l.spent + 2 * block - 2 * l.blocks[name])
  }

  /** A file, if there is one of the name, under another name. */
  function Renamed(l: Ledger, a: Bytes, b: Bytes): Ledger {
    if a in l.blocks then Ledger(Drop(l.blocks, a)[b := l.blocks[a]], l.spent) else l
  }

  lemma LedgerParts(files: seq<FilePointer>, retired: seq<nat>)
    ensures LedgerOf(files, retired).blocks == BlockMap(files)
    ensures LedgerOf(files, retired).spent == Charge(BlockSizes(files)) + Charge(retired)
    ensures LedgerOf(files, retired).spent == Charge(BlockSizes(files) + retired)
  {
    hide BlockMap, Charge, BlockSizes;
    ChargeConcat(BlockSizes(files), retired);
  }

  lemma BlockAt(files: seq<FilePointer>, k: nat)
    requires k < |files| && AllCompatible(files)
    ensures files[k].filename in BlockMap(files) && BlockMap(files)[files[k].filename] == files[k].allocatedSize
    ensures IndexOfName(files, files[k].filename) == k
  {
    hide IndexOfName;
    var i := IndexOfName(files, files[k].filename);
    assert i == k;
  }

  lemma BlockEntry(files: seq<FilePointer>, name: Bytes) returns (k: nat)
    requires name in BlockMap(files)
    ensures k < |files| && files[k].filename == name && BlockMap(files)[name] == files[k].allocatedSize
  {
    hide IndexOfName;
    k := IndexOfName(files, name);
  }

  lemma OtherBlock(files: seq<FilePointer>, k: nat, fp: FilePointer, name: Bytes)
    requires k < |files| && AllCompatible(files) && AllCompatible(files[k := fp]) && name != fp.filename
    ensures var after := BlockMap(files[k := fp]);
            && (name in after <==> name in BlockMap(files) && name != files[k].filename)
            && (name in after ==> after[name] == BlockMap(files)[name])
  {
    var after := files[k := fp];
    hide *;
    BlockAt(files, k);
    if name in BlockMap(after) {
      var j := BlockEntry(after, name);
      assert j != k;
      BlockAt(files, j);
    } else if name in BlockMap(files) {
      var j := BlockEntry(files, name);
      if j != k { BlockAt(after, j); }
    }
  }

  lemma MapReplaced(files: seq<FilePointer>, k: nat, fp: FilePointer)
    requires k < |files| && AllCompatible(files) && AllCompatible(files[k := fp])
    ensures BlockMap(files[k := fp]) == Drop(BlockMap(files), files[k].filename)[fp.filename := fp.allocatedSize]
  {
    var after := files[k := fp];
    var left, right := BlockMap(after), Drop(BlockMap(files), files[k].filename)[fp.filename := fp.allocatedSize];
    hide *;
    assert after[k] == fp;
    BlockAt(after, k);
    forall name | name != fp.filename
      ensures (name in left <==> name in right) && (name in left ==> left[name] == right[name]) {
      OtherBlock(files, k, fp, name);
    }
    SameMap(left, right);
  }

  lemma SpentReplaced(files: seq<FilePointer>, k: nat, fp: FilePointer)
    requires k < |files|
    ensures Charge(BlockSizes(files[k := fp]))
         == Charge(BlockSizes(files)) + 2 * fp.allocatedSize - 2 * files[k].allocatedSize
  {
    hide Charge;
    assert BlockSizes(files[k := fp]) == BlockSizes(files)[k := fp.allocatedSize as nat];
    ChargeReplace(BlockSizes(files), k, fp.allocatedSize);
  }

  /** A file got a new block or a new name. */
  lemma LedgerReplaced(files: seq<FilePointer>, k: nat, fp: FilePointer, retired: seq<nat>)
    requires k < |files| && AllCompatible(files) && AllCompatible(files[k := fp])
    ensures var l := LedgerOf(files, retired);
            && files[k].filename in l.blocks && l.blocks[files[k].filename] == files[k].allocatedSize
            && LedgerOf(files[k := fp], retired)
               == Ledger(Drop(l.blocks, files[k].filename)[fp.filename := fp.allocatedSize],
                         l.spent + 2 * fp.allocatedSize - 2 * files[k].allocatedSize)
  {
    hide *;
    LedgerParts(files, retired);
    LedgerParts(files[k := fp], retired);
    BlockAt(files, k);
    MapReplaced(files, k, fp);
    SpentReplaced(files, k, fp);
  }

  /** The same file in another block. */
  lemma LedgerMoved(files: seq<FilePointer>, k: nat, fp: FilePointer, retired: seq<nat>)
    requires k < |files| && AllCompatible(files) && AllCompatible(files[k := fp]) && fp.filename == files[k].filename
    ensures var l := LedgerOf(files, retired);
            && fp.filename in l.blocks && l.blocks[fp.filename] == files[k].allocatedSize
            && LedgerOf(files[k := fp], retired)
               == Ledger(l.blocks[fp.filename := fp.allocatedSize],
                         l.spent + 2 * fp.allocatedSize - 2 * files[k].allocatedSize)
  {
    var l := LedgerOf(files, retired);
    hide *;
    LedgerReplaced(files, k, fp, retired);
    assert Drop(l.blocks, fp.filename)[fp.filename := fp.allocatedSize] == l.blocks[fp.filename := fp.allocatedSize];
  }

  lemma MapAdded(files: seq<FilePointer>, fp: FilePointer)
    requires AllCompatible(files + [fp]) && AllCompatible(files)
    ensures fp.filename !in BlockMap(files)
    ensures BlockMap(files + [fp]) == BlockMap(files)[fp.filename := fp.allocatedSize]
  {
    var after := files + [fp];
    var left, right := BlockMap(after), BlockMap(files)[fp.filename := fp.allocatedSize];
    hide *;
    assert after[|files|] == fp;
    BlockAt(after, |files|);
    forall name | name in left ensures name in right && left[name] == right[name] {
      var j := BlockEntry(after, name);
      if j < |files| { BlockAt(files, j); }
    }
    forall name | name in BlockMap(files) ensures name in left && name != fp.filename {
      var j := BlockEntry(files, name);
      BlockAt(after, j);
    }
    SameMap(left, right);
  }

  /** A new file. */
  lemma LedgerAdded(files: seq<FilePointer>, fp: FilePointer, retired: seq<nat>)
    requires AllCompatible(files + [fp]) && AllCompatible(files)
    ensures var l := LedgerOf(files, retired);
            && fp.filename !in l.blocks
            && LedgerOf(files + [fp], retired)
               == Ledger(l.blocks[fp.filename := fp.allocatedSize], l.spent + 2 * fp.allocatedSize - DATA_ALIGNMENT)
  {
    hide *;
    LedgerParts(files, retired);
    LedgerParts(files + [fp], retired);
    MapAdded(files, fp);
    BlocksAppended(files, fp);
    ChargeAppend(BlockSizes(files), fp.allocatedSize);
  }

  lemma MapRemoved(files: seq<FilePointer>, k: nat)
    requires k < |files| && AllCompatible(files) && AllCompatible(Without(files, k))
    ensures BlockMap(Without(files, k)) == Drop(BlockMap(files), files[k].filename)
  {
    var after := Without(files, k);
    var left, right := BlockMap(after), Drop(BlockMap(files), files[k].filename);
    hide *;
    BlockAt(files, k);
    forall name | name in left ensures name in right && left[name] == right[name] {
      var j := BlockEntry(after, name);
      var i := if j < k then j else j + 1;
      BlockAt(files, i);
    }
    forall name | name in right ensures name in left {
      var j := BlockEntry(files, name);
      BlockAt(after, if j < k then j else j - 1);
    }
    SameMap(left, right);
  }

  lemma SpentRemoved(files: seq<FilePointer>, k: nat, retired: seq<nat>)
    requires k < |files|
    ensures Charge(BlockSizes(Without(files, k))) + Charge(retired + [files[k].allocatedSize as nat])
         == Charge(BlockSizes(files)) + Charge(retired)
  {
    hide *;
    WithoutIs(files, k);
    BlocksWithout(files, k);
    ChargeWithout(BlockSizes(files), k);
    ChargeAppend(retired, files[k].allocatedSize);
  }

  /** A deleted file still counts. */
  lemma LedgerRemoved(files: seq<FilePointer>, k: nat, retired: seq<nat>)
    requires k < |files| && AllCompatible(files) && AllCompatible(Without(files, k))
    ensures var l := LedgerOf(files, retired);
            && files[k].filename in l.blocks
            && LedgerOf(Without(files, k), retired + [files[k].allocatedSize as nat])
               == Ledger(Drop(l.blocks, files[k].filename), l.spent)
  {
    hide *;
    LedgerParts(files, retired);
    LedgerParts(Without(files, k), retired + [files[k].allocatedSize as nat]);
    BlockAt(files, k);
    MapRemoved(files, k);
    SpentRemoved(files, k, retired);
  }

  lemma WithoutIs(files: seq<FilePointer>, k: nat)
    requires k < |files|
    ensures Without(files, k) == files[..k] + files[k + 1..]
  {
  }

  /** The order of the records does not matter. */
  lemma LedgerReordered(files: seq<FilePointer>, l: seq<FilePointer>, retired: seq<nat>)
    requires AllCompatible(files) && AllCompatible(l) && multiset(l) == multiset(files)
    ensures LedgerOf(l, retired) == LedgerOf(files, retired)
  {
    var left, right := BlockMap(l), BlockMap(files);
    hide *;
    LedgerParts(files, retired);
    LedgerParts(l, retired);
    forall name ensures (name in left <==> name in right) && (name in left ==> left[name] == right[name]) {
      if name in left {
        var j := BlockEntry(l, name);
        var m := IndexInReload(l, files, j);
        BlockAt(files, m);
      }
      if name in right {
        var j := BlockEntry(files, name);
        var m := IndexInReload(files, l, j);
        BlockAt(l, m);
      }
    }
    SameMap(left, right);
    ChargeOfReordered(l, files);
  }

  /** There are as many blocks as files. */
  lemma BlockNames(files: seq<FilePointer>)
    ensures BlockMap(files).Keys == Names(files)
  {
    hide IndexOfName;
  }

  lemma StoredLedger(c: seq<Cell>, e: seq<Cell>, key: Key, files: seq<FilePointer>, after: seq<FilePointer>,
                     before: seq<seq<Cell>>, images: seq<seq<Cell>>, k: int, pt: Bytes, retired: seq<nat>)
    requires StoredSafely(c, e, key, files, after, before, images, k, pt) && AllCompatible(files)
    ensures files[k].filename in LedgerOf(files, retired).blocks
    ensures LedgerOf(after, retired) == Held(LedgerOf(files, retired), files[k].filename, pt)
  {
    hide DiskView, EndOfData, CrashImages, SameHeaderBut, LedgerOf, BlockFor, NameList, PowerOfTwo.NextPowerOf2;
    var fp := after[k];
    assert AllCompatible(after);
    hide Consistent;
    LedgerMoved(files, k, fp, retired);
  }

  lemma ReloadedLedger(c: seq<Cell>, key: Key, files: seq<FilePointer>, retired: seq<nat>)
    requires Consistent(c, key, files)
    ensures LedgerOf(Loaded(c, key), retired) == LedgerOf(files, retired)
  {
    hide *;
    ConsistentParts(c, key, files);
    ReloadAgrees(c, key, files);
    ConsistentParts(c, key, Loaded(c, key));
    LedgerReordered(files, Loaded(c, key), retired);
  }
}
