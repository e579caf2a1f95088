/** Which file a flush reaches: handles keep their header slots, and slots change hands. */
module HandleReach {
  import opened Bytes
  import opened FilePointerCodec
  import opened ContainerImage
  import opened ContainerSteps
  import opened ContainerOutcomes
  import opened FreeSlots
  import opened SpaceLedger
  import opened Vfs
  import opened ContainerRuns
  import opened ContainerSessions

  /** No two slots hold one name, and the names in the slots are those of the files. */
  ghost predicate Coherent(s: Session) {
    && (forall a, b :: a in s.names && b in s.names && s.names[a] == s.names[b] ==> a == b)
    && (forall slot :: slot in s.names ==> 0 <= slot < SLOT_COUNT && s.names[slot] in s.files)
    && (forall name :: name in s.files ==> exists slot :: slot in s.names && s.names[slot] == name)
  }

  /** Sessions of real containers are. */
  lemma BackedIsCoherent(c: EncryptedVFSContainer, s: Session)
    requires Backs(c, s)
    ensures Coherent(s)
  {
    hide *;
    BacksParts(c, s);
    HoldsParts(c.file.cells, c.key, c.files, c.file.retired, s);
    ReloadAgrees(c.file.cells, c.key, c.files);
    ViewNames(c.file.cells, c.key, c.files);
    ConsistentParts(c.file.cells, c.key, c.files);
    SlotsInRange(c.file.cells, c.files);
    CoherentRecords(c.files, s);
  }

  lemma CoherentRecords(files: seq<FilePointer>, s: Session)
    requires AllCompatible(files) && s.names == SlotNames(files) && s.files.Keys == Names(files)
    requires forall k :: 0 <= k < |files| ==> 0 <= files[k].slotIndex < SLOT_COUNT
    ensures Coherent(s)
  {
    hide AllCompatible, SlotNames, IndexOfSlot, SlotOf;
    forall slot | slot in s.names
      ensures 0 <= slot < SLOT_COUNT && s.names[slot] in s.files && SlotOf(s.names, s.names[slot]) == slot {
      SlotNamesAt(files, slot);
      IndexHolds(files, slot);
      SlotNamesOf(files, IndexOfSlot(files, slot));
      assert s.names[slot] in Names(files);
    }
    forall name | name in s.files ensures exists slot :: slot in s.names && s.names[slot] == name {
      assert name in Names(files);
      var k :| 0 <= k < |files| && files[k].filename == name;
      SlotNamesOf(files, k);
      assert files[k].slotIndex in s.names;
    }
    forall a, b | a in s.names && b in s.names && s.names[a] == s.names[b] ensures a == b {
      assert SlotOf(s.names, s.names[a]) == a && SlotOf(s.names, s.names[b]) == b;
    }
  }

  lemma {:induction false} FirstFreeIs(used: set<int>, start: nat)
    requires start <= SLOT_COUNT
    ensures var r := FirstFree(used, start);
            if r == -1 then forall i :: start <= i < SLOT_COUNT ==> i in used else start <= r < SLOT_COUNT && r !in used
    decreases SLOT_COUNT - start
  {
    if start < SLOT_COUNT { FirstFreeIs(used, start + 1); }
  }

  lemma {:induction false} InjectionSize<K(!new)>(m: map<K, Bytes>, keys: set<K>, names: set<Bytes>)
    requires forall a :: a in keys ==> a in m && m[a] in names
    requires forall a, b :: a in keys && b in keys && m[a] == m[b] ==> a == b
    ensures |keys| <= |names|
  {
    if keys != {} {
      var a :| a in keys;
      InjectionSize(m, keys - {a}, names - {m[a]});
    }
  }

  /** While there are fewer than 4096 files there is a slot for one more. */
  lemma SlotIsFree(s: Session)
    requires Coherent(s) && |s.files| < SLOT_COUNT
    ensures var slot := FirstFree(s.names.Keys, 0); 0 <= slot < SLOT_COUNT && slot !in s.names
  {
    hide Below;
    FirstFreeIs(s.names.Keys, 0);
    assert forall k: int :: k in s.names.Keys ==> k in s.names && s.names[k] in s.files.Keys;
    assert forall k: int, l: int :: k in s.names.Keys && l in s.names.Keys && s.names[k] == s.names[l] ==> k == l;
    InjectionSize(s.names, s.names.Keys, s.files.Keys);
    MapSize(s.files);
    if FirstFree(s.names.Keys, 0) == -1 { SubsetSize(Below(SLOT_COUNT), s.names.Keys); }
  }

  lemma NamedSlot(s: Session, slot: int)
    requires Coherent(s) && slot in s.names
    ensures SlotOf(s.names, s.names[slot]) == slot
  {
  }

  lemma FileSlot(s: Session, name: Bytes)
    requires Coherent(s) && name in s.files
    ensures SlotOf(s.names, name) in s.names && s.names[SlotOf(s.names, name)] == name
  {
  }

  lemma {:induction false} FlushEachKeeps(s: Session, order: seq<nat>)
    ensures var t := FlushEach(s, order);
            && t.names == s.names && |t.handles| == |s.handles|
            && (Coherent(s) ==> t.files.Keys == s.files.Keys)
            && forall h :: 0 <= h < |s.handles| ==> t.handles[h].slot == s.handles[h].slot
  {
    if order != [] { FlushEachKeeps(s, order[..|order| - 1]); }
  }

  /** The names in the slots change when a file is created, deleted or renamed. */
  lemma NamesAfter(s: Session, step: Step)
    requires Coherent(s)
    ensures var t := Next(s, step);
            match step
            case OpenFile(name, mode) =>
              if name !in s.files && mode.write && |name| <= MAX_FILENAME_BYTES && |s.files| < SLOT_COUNT
              then t.names == s.names[FirstFree(s.names.Keys, 0) := name] && t.files.Keys == s.files.Keys + {name}
              else t.names == s.names && t.files.Keys == s.files.Keys
            case DeleteFile(name) =>
              if name in s.files
              then t.names == s.names - {SlotOf(s.names, name)} && t.files.Keys == s.files.Keys - {name}
              else t == s
            case RenameFile(a, b) =>
              if a in s.files && |b| <= MAX_FILENAME_BYTES && (b == a || b !in s.files)
              then t.names == s.names[SlotOf(s.names, a) := b] && t.files.Keys == s.files.Keys - {a} + {b}
              else t == s
            case _ => t.names == s.names && t.files.Keys == s.files.Keys
  {
    hide SlotOf, FirstFree, Held, Renamed, Written, Sought, ValidOrder, FlushEach;
    match step
    case Restart(order) => FlushEachKeeps(s, order);
    case _ =>
  }

  lemma CoherentNext(s: Session, step: Step)
    requires Coherent(s)
    ensures Coherent(Next(s, step))
  {
    var t := Next(s, step);
    NamesAfter(s, step);
    hide *;
    if t.names == s.names && t.files.Keys == s.files.Keys {
      CoherentSame(s, t);
    } else {
      match step
      case OpenFile(name, mode) =>
        SlotIsFree(s);
        CoherentWith(s, t, FirstFree(s.names.Keys, 0), name);
      case DeleteFile(name) =>
        FileSlot(s, name);
        CoherentWithout(s, t, SlotOf(s.names, name), name);
      case RenameFile(a, b) =>
        FileSlot(s, a);
        CoherentRenamed(s, t, SlotOf(s.names, a), a, b);
      case _ =>
    }
  }

  lemma CoherentSame(s: Session, t: Session)
    requires Coherent(s) && t.names == s.names && t.files.Keys == s.files.Keys
    ensures Coherent(t)
  {
    forall name | name in t.files ensures exists slot :: slot in t.names && t.names[slot] == name {
      assert name in s.files;
    }
  }

  lemma CoherentWith(s: Session, t: Session, slot: int, name: Bytes)
    requires Coherent(s) && 0 <= slot < SLOT_COUNT && slot !in s.names && name !in s.files
    requires t.names == s.names[slot := name] && t.files.Keys == s.files.Keys + {name}
    ensures Coherent(t)
  {
    forall n | n in t.files ensures exists k :: k in t.names && t.names[k] == n {
      if n == name { assert t.names[slot] == n; }
      else {
        assert n in s.files;
        var k :| k in s.names && s.names[k] == n;
        assert t.names[k] == n;
      }
    }
  }

  lemma CoherentWithout(s: Session, t: Session, slot: int, name: Bytes)
    requires Coherent(s) && slot in s.names && s.names[slot] == name
    requires t.names == s.names - {slot} && t.files.Keys == s.files.Keys - {name}
    ensures Coherent(t)
  {
    forall n | n in t.files ensures exists k :: k in t.names && t.names[k] == n {
      assert n in s.files;
      var k :| k in s.names && s.names[k] == n;
      assert k in t.names && t.names[k] == n;
    }
  }

  lemma CoherentRenamed(s: Session, t: Session, slot: int, a: Bytes, b: Bytes)
    requires Coherent(s) && slot in s.names && s.names[slot] == a && (b == a || b !in s.files)
    requires t.names == s.names[slot := b] && t.files.Keys == s.files.Keys - {a} + {b}
    ensures Coherent(t)
  {
    forall n | n in t.files ensures exists k :: k in t.names && t.names[k] == n {
      if n == b { assert t.names[slot] == n; }
      else {
        assert n in s.files;
        var k :| k in s.names && s.names[k] == n;
        assert t.names[k] == n;
      }
    }
  }

  /** A file's name after a step; none when the step deletes it. */
  ghost function NameAfter(s: Session, name: Bytes, step: Step): Option<Bytes> {
    match step
    case DeleteFile(n) => if n == name then None else Some(name)
    case RenameFile(a, b) =>
      if a == name && |b| <= MAX_FILENAME_BYTES && (b == a || b !in s.files) then Some(b) else Some(name)
    case _ => Some(name)
  }

  /** A file followed by name through the steps; none once it is deleted, whatever takes its name then. */
  ghost function Follow(s: Session, name: Bytes, steps: seq<Step>): Option<Bytes>
    decreases |steps|
  {
    if steps == [] then Some(name)
    else
      match NameAfter(s, name, steps[0])
      case None => None
      case Some(n) => Follow(Next(s, steps[0]), n, steps[1..])
  }

  /** The i-th step deletes the file then in the slot. */
  ghost predicate Deletes(s: Session, steps: seq<Step>, slot: int, i: nat) {
    && i < |steps| && steps[i].DeleteFile?
    && var t := NextAll(s, steps[..i]); slot in t.names && t.names[slot] == steps[i].name
  }

  /** The j-th step makes a file in the empty slot, and that is the file in it at the end. */
  ghost predicate Makes(s: Session, steps: seq<Step>, slot: int, j: nat) {
    && j < |steps| && steps[j].OpenFile? && slot !in NextAll(s, steps[..j]).names
    && var u, t := NextAll(s, steps[..j + 1]), NextAll(s, steps);
       && slot in u.names && u.names[slot] == steps[j].name && slot in t.names
       && Follow(u, steps[j].name, steps[j + 1..]) == Some(t.names[slot])
  }

  /** A file stays in its slot under its current name until it is deleted. */
  lemma SlotAfter(s: Session, step: Step, slot: int)
    requires Coherent(s) && slot in s.names
    ensures var t, n := Next(s, step), NameAfter(s, s.names[slot], step);
            && (n.None? <==> step.DeleteFile? && step.name == s.names[slot])
            && (n.None? ==> slot !in t.names)
            && (n.Some? ==> slot in t.names && t.names[slot] == n.value)
  {
    NamesAfter(s, step);
    NamedSlot(s, slot);
    hide Next, SlotOf, FirstFree;
    match step
    case OpenFile(name, mode) =>
      if |s.files| < SLOT_COUNT { SlotIsFree(s); }
    case DeleteFile(name) =>
      if name in s.files { FileSlot(s, name); }
    case RenameFile(a, b) =>
      if a in s.files { FileSlot(s, a); }
    case _ =>
  }

  /** An empty slot is taken only by a file made. */
  lemma SlotTaken(s: Session, step: Step, slot: int)
    requires Coherent(s) && slot !in s.names && slot in Next(s, step).names
    ensures step.OpenFile? && Next(s, step).names[slot] == step.name
  {
    NamesAfter(s, step);
    hide Next, SlotOf, FirstFree;
    match step
    case RenameFile(a, b) =>
      if a in s.files { FileSlot(s, a); }
    case _ =>
  }

  lemma {:induction false} NextSplit(s: Session, steps: seq<Step>, k: nat)
    requires k <= |steps|
    ensures NextAll(s, steps) == NextAll(NextAll(s, steps[..k]), steps[k..])
    decreases k
  {
    hide Next;
    if k == 0 {
      assert steps[..0] == [] && steps[0..] == steps;
    } else {
      NextSplit(Next(s, steps[0]), steps[1..], k - 1);
      assert steps[..k][0] == steps[0] && steps[..k][1..] == steps[1..][..k - 1];
      assert steps[1..][k - 1..] == steps[k..];
    }
  }

  lemma {:induction false} CoherentAll(s: Session, steps: seq<Step>)
    requires Coherent(s)
    ensures Coherent(NextAll(s, steps))
    decreases |steps|
  {
    hide Next, Coherent;
    if steps != [] {
      CoherentNext(s, steps[0]);
      CoherentAll(Next(s, steps[0]), steps[1..]);
    }
  }

  /** What happens in the rest of the steps happens in all of them. */
  lemma DeletesLater(s: Session, steps: seq<Step>, slot: int, k: nat, i: nat)
    requires k <= |steps|
    ensures Deletes(NextAll(s, steps[..k]), steps[k..], slot, i) <==> Deletes(s, steps, slot, k + i)
  {
    hide NextAll;
    if k + i < |steps| {
      NextSplit(s, steps[..k + i], k);
      assert steps[..k + i][..k] == steps[..k] && steps[..k + i][k..] == steps[k..][..i];
      assert steps[k..][i] == steps[k + i];
    }
  }

  lemma MakesLater(s: Session, steps: seq<Step>, slot: int, k: nat, j: nat)
    requires k <= |steps| && Makes(NextAll(s, steps[..k]), steps[k..], slot, j)
    ensures Makes(s, steps, slot, k + j)
  {
    hide NextAll, Follow;
    NextSplit(s, steps, k);
    NextSplit(s, steps[..k + j], k);
    NextSplit(s, steps[..k + j + 1], k);
    assert steps[..k + j][..k] == steps[..k] && steps[..k + j][k..] == steps[k..][..j];
    assert steps[..k + j + 1][..k] == steps[..k] && steps[..k + j + 1][k..] == steps[k..][..j + 1];
    assert steps[k..][j] == steps[k + j] && steps[k..][j + 1..] == steps[k + j + 1..];
  }

  /** A file is still in its slot exactly when no step deleted the file then there. */
  lemma {:induction false} FollowSlot(s: Session, steps: seq<Step>, slot: int)
    requires Coherent(s) && slot in s.names
    ensures var own, t := Follow(s, s.names[slot], steps), NextAll(s, steps);
            && (own.Some? ==> slot in t.names && t.names[slot] == own.value)
            && (own.Some? ==> forall i: nat :: !Deletes(s, steps, slot, i))
            && (own.None? ==> exists i: nat :: Deletes(s, steps, slot, i))
    decreases |steps|
  {
    hide Next, Coherent, NameAfter, Deletes;
    if steps == [] {
      forall i: nat ensures !Deletes(s, steps, slot, i) { NoDeletes(s, slot, i); }
    } else {
      SlotAfter(s, steps[0], slot);
      CoherentNext(s, steps[0]);
      FirstDeletes(s, steps, slot);
      var rest, t := steps[1..], Next(s, steps[0]);
      assert steps[..1] == [steps[0]] && NextAll(s, steps[..1]) == t by { assert [steps[0]][1..] == []; }
      forall i: nat ensures Deletes(t, rest, slot, i) <==> Deletes(s, steps, slot, i + 1) {
        DeletesLater(s, steps, slot, 1, i);
      }
      if NameAfter(s, s.names[slot], steps[0]).Some? {
        FollowSlot(t, rest, slot);
        if Follow(t, t.names[slot], rest).Some? {
          forall i: nat ensures !Deletes(s, steps, slot, i) {
            if i > 0 { assert Deletes(t, rest, slot, i - 1) <==> Deletes(s, steps, slot, i - 1 + 1); }
          }
        } else {
          var i: nat :| Deletes(t, rest, slot, i);
          assert Deletes(s, steps, slot, i + 1);
        }
      }
    }
  }

  lemma NoDeletes(s: Session, slot: int, i: nat)
    ensures !Deletes(s, [], slot, i)
  {
  }

  lemma FirstDeletes(s: Session, steps: seq<Step>, slot: int)
    requires steps != [] && slot in s.names
    ensures Deletes(s, steps, slot, 0) <==> steps[0].DeleteFile? && steps[0].name == s.names[slot]
  {
    hide Next;
    assert steps[..0] == [];
  }

  /** What is in a slot that was empty is a file made since. */
  lemma {:induction false} LaterFile(s: Session, steps: seq<Step>, slot: int)
    requires Coherent(s) && slot !in s.names && slot in NextAll(s, steps).names
    ensures exists j: nat :: Makes(s, steps, slot, j)
    decreases |steps|
  {
    hide Next, Coherent, Deletes, Makes;
    var rest, t := steps[1..], Next(s, steps[0]);
    assert steps[..1] == [steps[0]] && NextAll(s, steps[..1]) == t by { assert [steps[0]][1..] == []; }
    CoherentNext(s, steps[0]);
    if slot !in t.names {
      LaterFile(t, rest, slot);
      var j: nat :| Makes(t, rest, slot, j);
      MakesLater(s, steps, slot, 1, j);
    } else {
      SlotTaken(s, steps[0], slot);
      FollowSlot(t, rest, slot);
      if Follow(t, t.names[slot], rest).Some? {
        MadeFirst(s, steps, slot);
      } else {
        var i: nat :| Deletes(t, rest, slot, i);
        EmptyAfter(t, rest, slot, i);
        DeletesLater(s, steps, slot, 1, i);
        var k := i + 2;
        NextSplit(s, steps[..k], 1);
        assert steps[..k][..1] == steps[..1] && steps[..k][1..] == rest[..i + 1];
        NextSplit(s, steps, k);
        CoherentAll(s, steps[..k]);
        LaterFile(NextAll(s, steps[..k]), steps[k..], slot);
        var j: nat :| Makes(NextAll(s, steps[..k]), steps[k..], slot, j);
        MakesLater(s, steps, slot, k, j);
      }
    }
  }

  lemma MadeFirst(s: Session, steps: seq<Step>, slot: int)
    requires steps != [] && slot !in s.names && steps[0].OpenFile?
    requires var t := Next(s, steps[0]);
             && slot in t.names && t.names[slot] == steps[0].name && slot in NextAll(s, steps).names
             && Follow(t, steps[0].name, steps[1..]) == Some(NextAll(s, steps).names[slot])
    ensures Makes(s, steps, slot, 0)
  {
    hide Next, Follow;
    assert steps[..0] == [] && steps[..1] == [steps[0]];
    assert NextAll(s, [steps[0]]) == Next(s, steps[0]) by { assert [steps[0]][1..] == []; }
  }

  /** A step that deletes the file in a slot leaves it empty. */
  lemma EmptyAfter(s: Session, steps: seq<Step>, slot: int, i: nat)
    requires Coherent(s) && Deletes(s, steps, slot, i)
    ensures i < |steps| && slot !in NextAll(s, steps[..i + 1]).names
  {
    hide Next, NextAll, Coherent, NameAfter;
    CoherentAll(s, steps[..i]);
    NextLast(s, steps[..i], steps[i]);
    assert steps[..i] + [steps[i]] == steps[..i + 1];
    SlotAfter(NextAll(s, steps[..i]), steps[i], slot);
  }

  lemma SlotStays(s: Session, step: Step, h: nat)
    requires h < |s.handles|
    ensures h < |Next(s, step).handles| && Next(s, step).handles[h].slot == s.handles[h].slot
  {
    hide SlotOf, FirstFree, Held, Renamed, ValidOrder, FlushEach;
    match step
    case Restart(order) => FlushEachKeeps(s, order);
    case _ =>
  }

  lemma {:induction false} SlotStaysAll(s: Session, steps: seq<Step>, h: nat)
    requires h < |s.handles|
    ensures h < |NextAll(s, steps).handles| && NextAll(s, steps).handles[h].slot == s.handles[h].slot
    decreases |steps|
  {
    hide Next;
    if steps != [] {
      SlotStays(s, steps[0], h);
      SlotStaysAll(Next(s, steps[0]), steps[1..], h);
    }
  }

  /**
   * A flush stores into the file its handle was opened on, under whatever name
   * it then has, exactly when no step in between deleted the file in the
   * handle's slot.  Otherwise it overwrites the file made in the slot since,
   * and without one stores nothing and leaves the buffer dirty.
   */
  lemma FlushReaches(s: Session, steps: seq<Step>, h: nat)
    requires Coherent(s) && h < |s.handles| && s.handles[h].slot in s.names
    requires Live(NextAll(s, steps), h) && NextAll(s, steps).handles[h].dirty
    ensures var slot, t := s.handles[h].slot, NextAll(s, steps);
            var own, x, u := Follow(s, s.names[slot], steps), t.handles[h], Next(t, FlushFile(h));
            && (own.Some? <==> forall i: nat :: !Deletes(s, steps, slot, i))
            && (own.Some? ==> own.value in t.files && u.files == t.files[own.value := x.data] && !u.handles[h].dirty)
            && (own.None? && slot in t.names ==>
                  && (exists j: nat :: Makes(s, steps, slot, j))
                  && u.files == t.files[t.names[slot] := x.data] && !u.handles[h].dirty)
            && (own.None? && slot !in t.names ==> u == t)
  {
    var slot, t := s.handles[h].slot, NextAll(s, steps);
    hide *;
    SlotStaysAll(s, steps, h);
    FollowSlot(s, steps, slot);
    CoherentAll(s, steps);
    NamesAreFiles(t);
    FlushIsNext(t, h);
    FlushCases(t, h);
    if slot in t.names { FlushedIs(t, h); }
    if Follow(s, s.names[slot], steps).None? && slot in t.names {
      var i: nat :| Deletes(s, steps, slot, i);
      EmptyAfter(s, steps, slot, i);
      CoherentAll(s, steps[..i + 1]);
      NextSplit(s, steps, i + 1);
      LaterFile(NextAll(s, steps[..i + 1]), steps[i + 1..], slot);
      var j: nat :| Makes(NextAll(s, steps[..i + 1]), steps[i + 1..], slot, j);
      MakesLater(s, steps, slot, i + 1, j);
    }
  }

  lemma NamesAreFiles(s: Session)
    requires Coherent(s)
    ensures forall slot :: slot in s.names ==> s.names[slot] in s.files
  {
  }

  /**
   * A handle outlives its file: after another file has been created in the slot
   * of a deleted one, a flush through the old handle overwrites the new file.
   */
  lemma StaleHandle(a: Bytes, b: Bytes, data: Bytes)
    requires a != b && |a| <= MAX_FILENAME_BYTES && |b| <= MAX_FILENAME_BYTES
    ensures var empty := Session(map[], map[], Ledger(map[], 0), []);
            NextAll(empty, [OpenFile(a, READ_WRITE), DeleteFile(a), OpenFile(b, READ_WRITE), WriteTo(0, data),
                            FlushFile(0)]).files == map[b := data]
  {
    var steps := [OpenFile(a, READ_WRITE), DeleteFile(a), OpenFile(b, READ_WRITE), WriteTo(0, data), FlushFile(0)];
    var empty := Session(map[], map[], Ledger(map[], 0), []);
    var x := Handle(0, READ_WRITE, [], 0, false, true, true);
    hide *;
    OpensFirst(empty, a);
    var s1 := Next(empty, steps[0]);
    DeletesOnly(s1, a);
    var s2 := Next(s1, steps[1]);
    OpensFirst(s2, b);
    var s3 := Next(s2, steps[2]);
    assert s3.handles[0] == x;
    WritesFirst(s3, data);
    var s4 := Next(s3, steps[3]);
    FlushesFirst(s4, b, data);
    FiveSteps(empty, steps, s1, s2, s3, s4, Next(s4, steps[4]));
  }

  lemma OpensFirst(s: Session, name: Bytes)
    requires s.names == map[] && s.files == map[] && |name| <= MAX_FILENAME_BYTES
    ensures var t := Next(s, OpenFile(name, READ_WRITE));
            && t.names == map[0 := name] && t.files == map[name := []]
            && t.handles == s.handles + [Handle(0, READ_WRITE, [], 0, false, true, true)]
  {
  }

  lemma DeletesOnly(s: Session, name: Bytes)
    requires s.names == map[0 := name] && s.files == map[name := []]
    ensures var t := Next(s, DeleteFile(name)); t.names == map[] && t.files == map[] && t.handles == s.handles
  {
    hide Drop;
    assert SlotOf(s.names, name) == 0 by { assert 0 in s.names && s.names[0] == name; }
  }

  lemma WritesFirst(s: Session, data: Bytes)
    requires |s.handles| > 0 && s.handles[0] == Handle(0, READ_WRITE, [], 0, false, true, true)
    ensures var t := Next(s, WriteTo(0, data));
            && t.names == s.names && t.files == s.files && |t.handles| > 0
            && t.handles[0] == Handle(0, READ_WRITE, data, |data|, true, true, true)
  {
    assert [][..0] + data + [] == data;
  }

  lemma FlushesFirst(s: Session, name: Bytes, data: Bytes)
    requires s.names == map[0 := name] && s.files == map[name := []] && |s.handles| > 0
    requires s.handles[0] == Handle(0, READ_WRITE, data, |data|, true, true, true)
    ensures Next(s, FlushFile(0)).files == map[name := data]
  {
    hide Held;
  }

  lemma FiveSteps(s: Session, steps: seq<Step>, s1: Session, s2: Session, s3: Session, s4: Session, s5: Session)
    requires |steps| == 5 && s1 == Next(s, steps[0]) && s2 == Next(s1, steps[1]) && s3 == Next(s2, steps[2])
    requires s4 == Next(s3, steps[3]) && s5 == Next(s4, steps[4])
    ensures NextAll(s, steps) == s5
  {
    hide Next;
    assert NextAll(s1, steps[1..]) == NextAll(s2, steps[2..]) by { assert steps[1..][1..] == steps[2..]; }
    assert NextAll(s2, steps[2..]) == NextAll(s3, steps[3..]) by { assert steps[2..][1..] == steps[3..]; }
    assert NextAll(s3, steps[3..]) == NextAll(s4, steps[4..]) by { assert steps[3..][1..] == steps[4..]; }
    assert NextAll(s4, steps[4..]) == s5 by { assert steps[4..][1..] == []; }
  }
}
