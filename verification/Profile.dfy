/** The profile lifecycle: which of container, device and store exist when, and what survives a close. */
module Profile {
  import opened Sequences
  import opened Bytes
  import opened Aead
  import opened ContainerImage
  import opened ContainerSteps
  import opened KeySeparation
  import opened ContainerOutcomes
  import opened FilePointerCodec
  import opened FreeSlots
  import opened SpaceLedger
  import opened Vfs
  import opened DeviceStream
  import PowerOfTwo
  import Rocks = RocksDBStore

  /** dbkv-rocksdb.dat */
  const DB_NAME: Bytes := [100, 98, 107, 118, 45, 114, 111, 99, 107, 115, 100, 98, 46, 100, 97, 116]
  /** .dat */
  const DAT_SUFFIX: Bytes := [46, 100, 97, 116]
  /** The profile record's key, p */
  const PROFILE_KEY: Bytes := [112]
  /** The prefix of persona records, a/ */
  const PERSONA_PREFIX: Bytes := [97, 47]

  datatype Persona = Persona(uid: Bytes, isDefault: bool)

  /** A message: its identifier and the second it was created. */
  datatype Message = Message(uid: Bytes, seconds: int)

  /** The wire format of the records the core looks into; nothing where the bytes do not parse. */
  datatype Schema = Schema(
    profileUid: Bytes -> Option<Bytes>,
    persona: Bytes -> Option<Persona>,
    groupUid: Bytes -> Option<Bytes>,
    message: Bytes -> Option<Message>)

  datatype Faults = Faults(host: HostFaults, engine: Rocks.EngineFaults)

  predicate NoFaults(f: Faults) {
    !f.host.openFails && !f.host.kdfFails && !f.engine.tempDirFails && !f.engine.dbOpenFails
  }

  function FirstDat(names: seq<Bytes>): (r: Option<Bytes>)
    ensures r.Some? ==> r.value in names
  {
    if names == [] then None
    else if EndsWith(names[0], DAT_SUFFIX) then Some(names[0])
    else FirstDat(names[1..])
  }

  /** The database file among a container's files: the engine's own name if present, else the first *.dat. */
  function TargetFile(names: seq<Bytes>): (r: Option<Bytes>)
    ensures r.Some? ==> r.value in names
  {
    if DB_NAME in names then Some(DB_NAME) else FirstDat(names)
  }

  /** The store a password opens: key, target file, its contents, the map they encode. */
  ghost function SavedStore(cells: seq<Cell>, key: Key): Option<Store> {
    match TargetFile(NameList(Loaded(cells, key)))
    case None => None
    case Some(name) => if name in DiskView(cells, key) then Load(DiskView(cells, key)[name]) else None
  }

  ghost predicate HasProfile(schema: Schema, db: Store) {
    PROFILE_KEY in db && schema.profileUid(db[PROFILE_KEY]).Some?
  }

  lemma HasProfileIs(schema: Schema, db: Store)
    ensures HasProfile(schema, db) <==> PROFILE_KEY in db && schema.profileUid(db[PROFILE_KEY]).Some?
  {
  }

  /** Saving the store keeps the host file within bounds. */
  ghost predicate CanSave(files: seq<FilePointer>, db: Store) {
    Encodable(db) && Room(files, Encode(db))
  }

  class Core {
    const file: HostFile
    const store: Rocks.RocksDBStore
    const schema: Schema
    var container: EncryptedVFSContainer?
    var dbDevice: VirtualFile?
    var currentProfileId: Bytes
    var activePersonaId: Bytes

    constructor (file: HostFile, store: Rocks.RocksDBStore, schema: Schema)
      requires store.Valid() && !store.isOpen
      ensures this.file == file && this.store == store && this.schema == schema
      ensures Valid() && Closed() && currentProfileId == [] && activePersonaId == []
      ensures (forall c :: c in file.containers ==> c.freed) && (forall d :: d in file.handles ==> d.freed)
              ==> NoLeaks()
    {
      this.file := file;
      this.store := store;
      this.schema := schema;
      container := null;
      dbDevice := null;
      currentProfileId := [];
      activePersonaId := [];
    }

    ghost predicate Closed()
      reads this`container, this`dbDevice, store`isOpen
    {
      container == null && dbDevice == null && !store.isOpen
    }

    ghost predicate Opened()
      reads this`container, this`dbDevice, store`isOpen
    {
      container != null && dbDevice != null && store.isOpen
    }

    /** Of all the containers and devices ever made on the host file, those not freed are the ones present. */
    ghost predicate NoLeaks()
      reads this`container, this`dbDevice, file`containers, file`handles, file.containers`freed, file.handles`freed
    {
      && (forall c :: c in file.containers ==> c.freed || c == container)
      && (forall d :: d in file.handles ==> d.freed || d == dbDevice)
      && (container != null ==> container in file.containers)
      && (dbDevice != null ==> dbDevice in file.handles)
    }

    lemma NoLeaksParts()
      requires NoLeaks()
      ensures forall c :: c in file.containers ==> c.freed || c == container
      ensures forall d :: d in file.handles ==> d.freed || d == dbDevice
      ensures container != null ==> container in file.containers
      ensures dbDevice != null ==> dbDevice in file.handles
    {
    }

    lemma NoLeaksNow()
      requires forall c :: c in file.containers ==> c.freed || c == container
      requires forall d :: d in file.handles ==> d.freed || d == dbDevice
      requires container != null ==> container in file.containers
      requires dbDevice != null ==> dbDevice in file.handles
      ensures NoLeaks()
    {
    }

    /** The container is open, and the device is the one open file in it: the file a reopen will choose. */
    ghost predicate Attached()
      reads this`container, this`dbDevice, file
      reads if container == null then {} else {container}
      reads (if dbDevice == null then {} else {dbDevice})`container,
            (if dbDevice == null then {} else {dbDevice})`isOpen
      reads (if dbDevice == null then {} else {dbDevice})`freed
    {
      && container != null && dbDevice != null
      && container.file == file && container.Valid() && container.isOpen && container.openFiles == {dbDevice}
      && dbDevice.container == container && dbDevice.isOpen && !dbDevice.freed && dbDevice.mode == READ_WRITE
      && IndexOfSlot(container.files, dbDevice.slotIndex) >= 0
      && DeviceFile() in container.Shown()
      && TargetFile(NameList(Loaded(file.cells, container.key))) == Some(DeviceFile())
      && HEADER_OFFSET <= |file.cells|
    }

    /** The handles that exist belong together, and a clean device agrees with its file. */
    ghost predicate Valid()
      reads this, store, store.device, container, dbDevice, file
    {
      && store.Valid()
      && (container == null ==> dbDevice == null && !store.isOpen)
      && (container != null ==>
            && Attached() && dbDevice.pos <= |dbDevice.data|
            && (store.isOpen ==> store.device == dbDevice)
            && (!dbDevice.dirty ==> dbDevice.data == container.Shown()[DeviceFile()]))
    }

    /** The name of the file the device stands for. */
    ghost function DeviceFile(): Bytes
      reads this`container, this`dbDevice, (if container == null then {} else {container})`files
    {
      if container == null || dbDevice == null then [] else SlotName(container.files, dbDevice.slotIndex)
    }

    // ----------------------------------------------------------------
    // Teardown: store, then device, then container
    // ----------------------------------------------------------------

    lemma DeviceFacts()
      requires Valid() && container != null
      ensures dbDevice != null && container.file == file && container.Valid() && container.isOpen && !container.freed
      ensures container.openFiles == {dbDevice} && dbDevice.container == container && !dbDevice.freed && dbDevice.isOpen
      ensures dbDevice.Containers() == {container} && dbDevice.HostFiles() == {file}
      ensures (dbDevice.dirty ==> Room(container.files, dbDevice.data)) ==> dbDevice.Writable()
      ensures dbDevice.Flushes() <==> dbDevice.dirty
      ensures IndexOfSlot(container.files, dbDevice.slotIndex) >= 0
      ensures DeviceFile() == container.files[IndexOfSlot(container.files, dbDevice.slotIndex)].filename
      ensures DeviceFile() in container.Shown() && Attached()
      ensures !dbDevice.dirty ==> dbDevice.data == container.Shown()[DeviceFile()]
      ensures TargetFile(NameList(Loaded(file.cells, container.key))) == Some(DeviceFile())
      ensures HEADER_OFFSET <= |file.cells|
    {
    }

    method CloseDevice()
      requires container != null && dbDevice != null && !store.isOpen && NoLeaks() && Valid()
      requires dbDevice.dirty ==> Room(container.files, dbDevice.data)
      modifies this`dbDevice, dbDevice, container`files, container`openFiles, file`cells, file`images
      ensures dbDevice == null && old(dbDevice).freed && NoLeaks() && Ready()
      ensures container.Shown() == old(ClosingView()) && LedgerOf(container.files, file.retired) == old(ClosingLedger())
      ensures KeepsNames(old(file.cells), file.cells, container.key)
      ensures EndOfData(container.files) <= EndOfData(old(container.files)) + old(Grows())
    {
      hide *;
      GrowsIs();
      ClosingViewIs();
      ClosingLedgerIs();
      PendingClosed();
      DeviceFacts();
      NoLeaksParts();
      container.ShownIs();
      BlockOfIs(dbDevice.data);
      container.OpenFacts();
      ConsistentParts(file.cells, container.key, container.files);
      ghost var c, name, data := file.cells, DeviceFile(), dbDevice.data;
      dbDevice.Close();
      dbDevice.Delete();
      ghost var k := IndexOfSlot(old(container.files), dbDevice.slotIndex);
      if old(dbDevice.dirty) {
        StoredNames(c, file.cells, container.key, old(container.files), container.files, old(file.images), file.images,
                    k, data);
        StoredLedger(c, file.cells, container.key, old(container.files), container.files, old(file.images), file.images,
                     k, data, file.retired);
      } else {
        SameNames(c, container.key);
      }
      container.ShownIs();
      dbDevice := null;
      NoLeaksNow();
      ReadyNow();
    }

    method CloseContainer()
      requires container != null && container.file == file && container.Valid() && container.isOpen
               && container.openFiles == {} && NoLeaks()
      modifies this`container, container, file`cells, file`images
      ensures container == null && old(container).freed && !old(container).isOpen && NoLeaks()
      ensures file.cells == old(file.cells) && file.Sound(old(container.key))
      ensures EndOfData(Loaded(file.cells, old(container.key))) <= EndOfData(old(container.files))
      ensures LedgerOf(Loaded(file.cells, old(container.key)), file.retired)
           == LedgerOf(old(container.files), file.retired)
    {
      hide *;
      NoLeaksParts();
      NothingFlushable(container.files);
      container.OpenFacts();
      EndAfterReload(file.cells, container.key, container.files);
      ReloadedLedger(file.cells, container.key, container.files, file.retired);
      ghost var done := container.Close(0, {});
      container.Delete();
      container := null;
      NoLeaksNow();
    }

    lemma NothingFlushable(f: seq<FilePointer>)
      requires container != null
      ensures container.Flushable(f, {}, 0) && EncryptedVFSContainer.Dirty({}, {})
    {
    }

    /** The host file can take what closing will write. */
    ghost predicate CanClose()
      requires Valid()
      reads this, store, store.device, container, dbDevice, file
    {
      container == null
      || (if store.isOpen then CanSave(container.files, store.db)
          else dbDevice.dirty ==> Room(container.files, dbDevice.data))
    }

    /** What closing can add to the data area. */
    ghost function Grows(): nat
      reads this`dbDevice, store, dbDevice
    {
      BlockOf(Pending())
    }

    /** Closing writes the device back. */
    ghost predicate Writes()
      reads this`dbDevice, store`isOpen, dbDevice
    {
      store.isOpen || (dbDevice != null && dbDevice.dirty)
    }

    /** The blocks and their cost once the profile is closed. */
    ghost function ClosingLedger(): Ledger
      reads this, store, container, dbDevice, file`retired
    {
      if container == null then Ledger(map[], 0)
      else if Writes() then Held(LedgerOf(container.files, file.retired), DeviceFile(), Pending())
      else LedgerOf(container.files, file.retired)
    }

    /** The files once the profile is closed. */
    ghost function ClosingView(): map<Bytes, Bytes>
      reads this, store, container, dbDevice
      reads (if container == null then {} else {container.file})`cells
    {
      if container == null then map[] else container.Shown()[DeviceFile() := Pending()]
    }

    lemma ClosingViewIs()
      requires container != null
      ensures ClosingView() == container.Shown()[DeviceFile() := Pending()]
    {
    }

    lemma ClosingLedgerIs()
      requires container != null
      ensures ClosingLedger() == if Writes() then Held(LedgerOf(container.files, file.retired), DeviceFile(), Pending())
                                 else LedgerOf(container.files, file.retired)
    {
      hide Held, LedgerOf;
    }

    /** What closing will leave in the database file. */
    ghost function Pending(): Bytes
      reads this`dbDevice, store, dbDevice
    {
      if store.isOpen then Encode(store.db) else if dbDevice == null then [] else dbDevice.data
    }

    method CloseStore()
      requires Valid() && CanClose() && container != null
      modifies store`isOpen, store`device, dbDevice`data, dbDevice`pos, dbDevice`dirty
      ensures Valid() && !store.isOpen && store.device == null && dbDevice.dirty == old(Writes())
      ensures dbDevice.dirty ==> Room(container.files, dbDevice.data)
      ensures dbDevice.data == old(Pending())
      ensures container.Shown() == old(container.Shown()) && DeviceFile() == old(DeviceFile())
    {
      hide *;
      CloseFacts();
      if store.isOpen {
        store.Flush();
        store.Close();
      }
      ClosedStoreValid();
    }

    lemma CloseFacts()
      requires Valid() && CanClose() && container != null
      ensures Attached() && store.Valid() && dbDevice.isOpen && dbDevice.mode.write && dbDevice.pos <= |dbDevice.data|
      ensures store.isOpen ==> store.device == dbDevice && store.Devices() == {dbDevice}
      ensures store.isOpen ==> Room(container.files, Encode(store.db)) && Pending() == Encode(store.db)
      ensures Writes() <==> store.isOpen || dbDevice.dirty
      ensures !store.isOpen ==> Pending() == dbDevice.data && store.device == null
      ensures !store.isOpen && dbDevice.dirty ==> Room(container.files, dbDevice.data)
      ensures !dbDevice.dirty ==> dbDevice.data == container.Shown()[DeviceFile()]
    {
    }

    lemma ClosedStoreValid()
      requires Attached() && store.Valid() && !store.isOpen && dbDevice.pos <= |dbDevice.data|
      requires DeviceFile() in container.Shown()
      requires !dbDevice.dirty ==> dbDevice.data == container.Shown()[DeviceFile()]
      ensures Valid()
    {
    }

    method CloseProfile()
      requires Valid() && CanClose() && NoLeaks()
      modifies this`dbDevice, this`container, this`currentProfileId, this`activePersonaId
      modifies store`isOpen, store`device
      modifies (if container == null then {} else {file})`cells, (if container == null then {} else {file})`images
      modifies (if container == null then {} else {container})
      modifies (if dbDevice == null then {} else {dbDevice})
      ensures Valid() && Closed() && NoLeaks() && currentProfileId == [] && activePersonaId == []
      ensures old(container) == null ==> file.cells == old(file.cells)
      ensures old(container) != null ==>
                && EndOfData(Loaded(file.cells, old(container.key))) <= EndOfData(old(container.files)) + old(Grows())
                && LedgerOf(Loaded(file.cells, old(container.key)), file.retired) == old(ClosingLedger())
      ensures old(container) != null ==> old(container).freed && old(dbDevice).freed
      ensures old(container) != null ==>
                file.Sound(old(container.key)) && KeepsNames(old(file.cells), file.cells, old(container.key))
      ensures old(container) != null ==>
                DiskView(file.cells, old(container.key)) == old(container.Shown())[old(DeviceFile()) := old(Pending())]
    {
      hide *;
      if container != null {
        TearDown();
        ClosedParts();
      } else {
        NothingOpen();
      }
      currentProfileId := [];
      activePersonaId := [];
      ClosedValid();
    }

    lemma NothingOpen()
      requires Valid() && container == null
      ensures dbDevice == null && !store.isOpen && store.device == null
    {
    }

    method TearDown()
      requires Valid() && CanClose() && container != null && NoLeaks()
      modifies this`dbDevice, this`container
      modifies store`isOpen, store`device, file`cells, file`images, container, dbDevice
      ensures Valid() && Closed() && NoLeaks() && old(container).freed && old(dbDevice).freed
      ensures file.Sound(old(container.key)) && KeepsNames(old(file.cells), file.cells, old(container.key))
      ensures DiskView(file.cells, old(container.key)) == old(container.Shown())[old(DeviceFile()) := old(Pending())]
      ensures EndOfData(Loaded(file.cells, old(container.key))) <= EndOfData(old(container.files)) + old(Grows())
      ensures LedgerOf(Loaded(file.cells, old(container.key)), file.retired) == old(ClosingLedger())
    {
      hide *;
      ghost var key := container.key;
      GrowsIs();
      ClosingLedgerIs();
      DeviceFacts();
      CloseStore();
      DeviceFacts();
      PendingClosed();
      GrowsIs();
      ClosingLedgerIs();
      ClosingViewIs();
      CloseDevice();
      ReadyParts();
      container.ShownIs();
      CloseContainer();
      ClosedValid();
    }

    lemma PendingClosed()
      requires !store.isOpen && dbDevice != null
      ensures Pending() == dbDevice.data && (Writes() <==> dbDevice.dirty)
    {
    }

    lemma GrowsIs()
      ensures Grows() == BlockOf(Pending())
    {
    }

    lemma ClosedValid()
      requires container == null && dbDevice == null && !store.isOpen && store.device == null
      ensures Valid() && Closed()
    {
    }

    // ----------------------------------------------------------------
    // Opening
    // ----------------------------------------------------------------

    /** The container for a password, or null on any failure. */
    method OpenContainer(password: Bytes, faults: HostFaults)
      requires container == null && file.present && NoLeaks()
      requires HasMagic(file.cells) ==> file.Sound(DeriveKey(password, file.cells))
      modifies this`container, file`containers
      ensures NoLeaks() && old(file.containers) <= file.containers
      ensures container != null <==> !faults.openFails && !faults.kdfFails && HasMagic(file.cells)
      ensures container != null ==> fresh(container) && Ready() && container.key == DeriveKey(password, file.cells)
      ensures container != null ==> container.files == Loaded(file.cells, container.key)
      ensures container != null ==> forall other :: other != password ==> container.key != DeriveKey(other, file.cells)
    {
      NoLeaksParts();
      var c := new EncryptedVFSContainer(file, Key([], []));
      var ok := c.OpenExisting(password, faults);
      if ok {
        container := c;
      } else {
        c.Delete();
      }
    }

    /** The container is open and nothing in it is. */
    ghost predicate Ready()
      reads this`container, file
      reads if container == null then {} else {container}
    {
      container != null && container.file == file && container.Valid() && container.isOpen && container.openFiles == {}
    }

    /** The first *.dat, unless the engine's own file is there. */
    method FindTarget(names: seq<Bytes>) returns (target: Option<Bytes>)
      ensures target == TargetFile(names)
    {
      if DB_NAME in names { return Some(DB_NAME); }
      for i := 0 to |names|
        invariant FirstDat(names) == FirstDat(names[i..])
      {
        if EndsWith(names[i], DAT_SUFFIX) { return Some(names[i]); }
        assert names[i..][1..] == names[i + 1..];
      }
      target := None;
    }

    lemma ReadyFacts()
      requires Ready()
      ensures SizeOk(file.cells) && HEADER_OFFSET <= |file.cells|
      ensures forall name :: name in NameList(Loaded(file.cells, container.key)) <==> name in container.Shown()
      ensures container.Shown() == DiskView(file.cells, container.key)
    {
      hide Consistent, Budget;
      container.OpenFacts();
      container.ShownIs();
      hide *;
      ConsistentParts(file.cells, container.key, container.files);
      HeaderFits(file.cells);
      NamesShown(file.cells, container.key);
    }

    /** Opens an existing file of the container as the store's device. */
    method AttachDevice(name: Bytes)
      requires Ready() && dbDevice == null && !store.isOpen && store.device == null
      requires TargetFile(NameList(Loaded(file.cells, container.key))) == Some(name) && NoLeaks()
      modifies this`dbDevice, container`files, container`openFiles, file`cells, file`images, file`handles
      ensures NoLeaks() && old(file.handles) <= file.handles
      ensures Valid() && Attached() && !store.isOpen && fresh(dbDevice) && container.isOpen
      ensures file.cells == old(file.cells) && container.key == old(container.key)
              && container.files == old(container.files)
      ensures DeviceFile() == name && name in container.Shown() && dbDevice.data == container.Shown()[name]
      ensures !dbDevice.dirty && store.device == null
    {
      hide *;
      ReadyParts();
      ReadyFacts();
      NoLeaksParts();
      NameIsShown(name, NameList(Loaded(file.cells, container.key)));
      ExistingResolves(container.Shown(), container.files, name);
      dbDevice := container.OpenFile(name, READ_WRITE);
      ResolvedSame(old(file.cells), file.cells, container.key, old(container.files), container.files,
                   old(file.images), file.images, name);
      AttachedNow(name);
      NoLeaksNow();
    }

    lemma AttachedNow(name: Bytes)
      requires container != null && dbDevice != null && container.file == file && container.Valid() && container.isOpen
      requires container.openFiles == {dbDevice} && dbDevice.Fresh(container, READ_WRITE)
               && HEADER_OFFSET <= |file.cells|
      requires HandsOut(file.cells, container.key, container.files, name, READ_WRITE, dbDevice.slotIndex, dbDevice.data)
      requires TargetFile(NameList(Loaded(file.cells, container.key))) == Some(name)
      requires !store.isOpen && store.device == null
      ensures Valid() && Attached() && DeviceFile() == name
      ensures name in container.Shown() && dbDevice.data == container.Shown()[name] && !dbDevice.dirty
    {
      hide Loaded, DiskView, EncryptedVFSContainer.Valid, IndexOfSlot;
    }

    /** Opens the store on the attached device. */
    method OpenStore(faults: Rocks.EngineFaults) returns (ok: bool)
      requires Valid() && Attached() && !store.isOpen && store.device == null
      modifies store, dbDevice`pos
      ensures Valid() && Attached()
      ensures ok <==> !faults.tempDirFails && !faults.dbOpenFails && Load(dbDevice.data).Some?
      ensures ok ==> store.isOpen && Load(dbDevice.data) == Some(store.db)
      ensures !ok ==> !store.isOpen && store.device == null
    {
      hide *;
      DeviceReads();
      NoStoreDevices();
      ok := store.Open(dbDevice, faults);
      ReassembleValid();
    }

    lemma NoStoreDevices()
      requires store.device == null
      ensures store.Devices() == {}
    {
    }

    lemma DeviceReads()
      requires Valid() && Attached()
      ensures dbDevice != null && !dbDevice.freed && dbDevice.mode.read && dbDevice.isOpen
              && dbDevice.pos <= |dbDevice.data|
      ensures container != null && store.Valid() && DeviceFile() in container.Shown()
      ensures !dbDevice.dirty ==> dbDevice.data == container.Shown()[DeviceFile()]
    {
    }

    lemma ReassembleValid()
      requires Attached() && store.Valid() && dbDevice.pos <= |dbDevice.data|
      requires store.isOpen ==> store.device == dbDevice
      requires DeviceFile() in container.Shown()
      requires !dbDevice.dirty ==> dbDevice.data == container.Shown()[DeviceFile()]
      ensures Valid()
    {
    }

    /** The active persona: the first default one in key order, else the first readable one. */
    method ChoosePersona()
      requires store.isOpen
      modifies this`activePersonaId
      ensures activePersonaId
              == ActivePersona(schema, store.db, Rocks.KeysWith(store.db, PERSONA_PREFIX), old(activePersonaId))
    {
      hide Rocks.KeysWith;
      var keys := store.ListKeys(PERSONA_PREFIX);
      ghost var whole := ActivePersona(schema, store.db, keys, activePersonaId);
      assert keys[0..] == keys;
      for i := 0 to |keys|
        invariant whole == ActivePersona(schema, store.db, keys[i..], activePersonaId)
      {
        assert keys[i..][1..] == keys[i + 1..];
        var record := store.Get(keys[i]);
        match record {
          case None =>
          case Some(bytes) =>
            match schema.persona(bytes) {
              case None =>
              case Some(p) =>
                if p.isDefault { activePersonaId := p.uid; return; }
                if activePersonaId == [] { activePersonaId := p.uid; }
            }
        }
      }
    }

    /** The state openProfile leaves on success: everything present, on the given key. */
    ghost predicate OpenedOn(cells: seq<Cell>, key: Key)
      reads this, store, store.device, container, dbDevice, file
    {
      && Valid() && Opened() && container.key == key && file.cells == cells
      && SavedStore(cells, key) == Some(store.db) && HasProfile(schema, store.db)
      && schema.profileUid(store.db[PROFILE_KEY]) == Some(currentProfileId)
      && activePersonaId == ActivePersona(schema, store.db, Rocks.KeysWith(store.db, PERSONA_PREFIX), [])
    }

    /**
     * ... and on failure: nothing present, every handle freed, the host file
     * as it was; but a store without a profile record, once it has been
     * opened, is written back.  `healthy` is that neither host nor engine failed.
     */
    ghost predicate ClosedOn(cells: seq<Cell>, key: Key, healthy: bool)
      reads this, store, store.device, container, dbDevice, file, file.containers`freed, file.handles`freed
    {
      && Valid() && Closed() && NoLeaks() && currentProfileId == [] && activePersonaId == []
      && file.Sound(key) && Kept(cells, file.cells, key, healthy)
    }

    /** The store is opened and has no profile record. */
    ghost predicate Rewrites(cells: seq<Cell>, key: Key, healthy: bool) {
      healthy && SavedStore(cells, key).Some? && !HasProfile(schema, SavedStore(cells, key).value)
    }

    /** No byte of the host file has changed; or the store was written back, and nothing else of what the key shows. */
    ghost predicate Kept(c: seq<Cell>, e: seq<Cell>, key: Key, healthy: bool) {
      if Rewrites(c, key, healthy) then
        var name, pt := TargetFile(NameList(Loaded(c, key))), Encode(SavedStore(c, key).value);
        && KeepsNames(c, e, key) && SavedStore(e, key) == SavedStore(c, key)
        && name.Some? && DiskView(e, key) == DiskView(c, key)[name.value := pt]
        && EndOfData(Loaded(e, key)) <= EndOfData(Loaded(c, key)) + BlockOf(pt)
      else e == c
    }

    /** A failed open leaves the files alone: what there is to open is not opened, or is as a flush would write it. */
    ghost predicate LeavesFiles(cells: seq<Cell>, key: Key, healthy: bool) {
      || !healthy
      || match TargetFile(NameList(Loaded(cells, key)))
         case None => true
         case Some(name) =>
           name in DiskView(cells, key) ==>
             var bytes := DiskView(cells, key)[name];
             Load(bytes).None? || bytes == Encode(Load(bytes).value)
    }

    /** ... and exactly then. */
    lemma KeptIff(c: seq<Cell>, e: seq<Cell>, key: Key, healthy: bool)
      requires Kept(c, e, key, healthy) && !(healthy && SavedProfile(c, key))
      ensures DiskView(e, key) == DiskView(c, key) <==> LeavesFiles(c, key, healthy)
    {
      hide DiskView, Loaded, EndOfData, HasProfile, Encode, Load, BlockOf, KeepsNames, TargetFile, NameList;
      if Rewrites(c, key, healthy) {
        var name := TargetFile(NameList(Loaded(c, key))).value;
        var v, pt := DiskView(c, key), Encode(SavedStore(c, key).value);
        if v[name] == pt { assert v[name := pt] == v; } else { assert v[name := pt][name] != v[name]; }
      }
    }

    /** An empty database file, or one cut after its version, becomes the eight bytes of an empty store. */
    lemma EmptyStoreWritten(c: seq<Cell>, e: seq<Cell>, key: Key, name: Bytes)
      requires Kept(c, e, key, true) && TargetFile(NameList(Loaded(c, key))) == Some(name)
      requires name in DiskView(c, key) && DiskView(c, key)[name] in {[], [0, 0, 0, 1]}
      ensures !SavedProfile(c, key) && DiskView(e, key) == DiskView(c, key)[name := [0, 0, 0, 1, 0, 0, 0, 0]]
      ensures DiskView(e, key) != DiskView(c, key)
    {
      EmptyStoreBytes();
      hide DiskView, Loaded, EndOfData, Encode, Load, BlockOf, KeepsNames, TargetFile, NameList;
      assert DiskView(e, key)[name] != DiskView(c, key)[name];
    }

    lemma KeptSame(cells: seq<Cell>, key: Key, healthy: bool)
      requires !Rewrites(cells, key, healthy)
      ensures Kept(cells, cells, key, healthy)
    {
      hide SavedStore, DiskView, Loaded, EndOfData, HasProfile, Encode, BlockOf;
    }

    /** The device was closed on the store it held. */
    lemma KeptRewritten(c: seq<Cell>, e: seq<Cell>, key: Key, name: Bytes, db: Store)
      requires KeepsNames(c, e, key) && TargetFile(NameList(Loaded(c, key))) == Some(name)
      requires SavedStore(c, key) == Some(db) && !HasProfile(schema, db) && Load(Encode(db)) == Some(db)
      requires DiskView(e, key) == DiskView(c, key)[name := Encode(db)]
      requires EndOfData(Loaded(e, key)) <= EndOfData(Loaded(c, key)) + BlockOf(Encode(db))
      ensures Kept(c, e, key, true)
    {
      hide *;
      SavedAfter(c, e, key, name, Encode(db));
      RewrittenIs(c, e, key, name, db);
    }

    lemma RewrittenIs(c: seq<Cell>, e: seq<Cell>, key: Key, name: Bytes, db: Store)
      requires KeepsNames(c, e, key) && SavedStore(e, key) == SavedStore(c, key)
      requires TargetFile(NameList(Loaded(c, key))) == Some(name)
      requires SavedStore(c, key) == Some(db) && !HasProfile(schema, db)
      requires DiskView(e, key) == DiskView(c, key)[name := Encode(db)]
      requires EndOfData(Loaded(e, key)) <= EndOfData(Loaded(c, key)) + BlockOf(Encode(db))
      ensures Kept(c, e, key, true)
    {
      hide SavedStore, DiskView, Loaded, EndOfData, HasProfile, Encode, BlockOf, KeepsNames, TargetFile, NameList;
    }

    lemma RewritesIs(cells: seq<Cell>, key: Key, healthy: bool)
      ensures Rewrites(cells, key, healthy)
              <==> healthy && SavedStore(cells, key).Some? && !HasProfile(schema, SavedStore(cells, key).value)
    {
      hide SavedStore, HasProfile;
    }

    lemma OpenedFacts()
      requires Valid() && Opened()
      ensures container != null && dbDevice != null && store.isOpen
      ensures Attached() && container.file == file && store.device == dbDevice && dbDevice.pos <= |dbDevice.data|
      ensures DeviceFile() in container.Shown() && container.Shown() == DiskView(file.cells, container.key)
      ensures TargetFile(NameList(Loaded(file.cells, container.key))) == Some(DeviceFile())
      ensures !dbDevice.dirty ==> dbDevice.data == container.Shown()[DeviceFile()]
      ensures CanSave(container.files, store.db) ==> CanClose() && Pending() == Encode(store.db)
    {
    }

    /** Reads the profile record and picks the persona; without a record everything is torn down. */
    method FinishOpen() returns (ok: bool)
      requires Valid() && Opened() && currentProfileId == [] && activePersonaId == [] && NoLeaks()
      requires SavedStore(file.cells, container.key) == Some(store.db)
      requires container.files == Loaded(file.cells, container.key)
      requires !HasProfile(schema, store.db) ==> CanSave(container.files, store.db)
      modifies this, store`isOpen, store`device, file`cells, file`images, container, dbDevice
      ensures ok <==> old(HasProfile(schema, store.db))
      ensures ok ==> OpenedOn(old(file.cells), old(container.key)) && NoLeaks()
      ensures !ok ==> ClosedOn(old(file.cells), old(container.key), true)
    {
      hide *;
      OpenedFacts();
      GrowsIs();
      ghost var cells, key, db := file.cells, container.key, store.db;
      HasProfileIs(schema, db);
      var record := store.Get(PROFILE_KEY);
      if record == None || schema.profileUid(record.value) == None {
        EncodableIfSaved(container.files, db);
        TearDown();
        KeptRewritten(cells, file.cells, key, old(DeviceFile()), db);
        ClosedNow(cells, key, true);
        return false;
      }
      currentProfileId := schema.profileUid(record.value).value;
      ChoosePersona();
      OpenedNow(cells, key);
      ok := true;
    }

    lemma ClosedNow(cells: seq<Cell>, key: Key, healthy: bool)
      requires Valid() && Closed() && NoLeaks() && currentProfileId == [] && activePersonaId == []
      requires file.Sound(key) && Kept(cells, file.cells, key, healthy)
      ensures ClosedOn(cells, key, healthy)
    {
    }

    lemma OpenedNow(cells: seq<Cell>, key: Key)
      requires Attached() && store.isOpen && store.device == dbDevice && container.key == key && file.cells == cells
      requires dbDevice.pos <= |dbDevice.data| && DeviceFile() in container.Shown()
      requires !dbDevice.dirty ==> dbDevice.data == container.Shown()[DeviceFile()]
      requires SavedStore(cells, key) == Some(store.db) && HasProfile(schema, store.db)
      requires schema.profileUid(store.db[PROFILE_KEY]) == Some(currentProfileId)
      requires activePersonaId == ActivePersona(schema, store.db, Rocks.KeysWith(store.db, PERSONA_PREFIX), [])
      ensures OpenedOn(cells, key)
    {
      hide SavedStore, ActivePersona, Rocks.KeysWith, Attached;
      AttachedAlive();
    }

    lemma AttachedAlive()
      requires Attached()
      ensures container != null && dbDevice != null && !dbDevice.freed
    {
    }

    /** Opens the store on a freshly attached device, and the profile in it. */
    method OpenDatabase(faults: Rocks.EngineFaults) returns (ok: bool)
      requires Valid() && Attached() && !store.isOpen && store.device == null && NoLeaks()
      requires currentProfileId == [] && activePersonaId == [] && !dbDevice.dirty
      requires SavedStore(file.cells, container.key) == Load(dbDevice.data)
      requires container.files == Loaded(file.cells, container.key)
      requires CanRewrite(container.files, file.cells, container.key)
      modifies this, store, file`cells, file`images, container, dbDevice
      ensures ok <==> old(SavedProfile(file.cells, container.key)) && !faults.tempDirFails && !faults.dbOpenFails
      ensures ok ==> OpenedOn(old(file.cells), old(container.key)) && NoLeaks()
      ensures !ok ==> ClosedOn(old(file.cells), old(container.key), !faults.tempDirFails && !faults.dbOpenFails)
    {
      hide *;
      HeaderKnown();
      ghost var cells, key, healthy := file.cells, container.key, !faults.tempDirFails && !faults.dbOpenFails;
      SavedProfileIs(container.files, cells, key);
      RewritesIs(cells, key, healthy);
      DeviceReads();
      ShownIs();
      ok := OpenStore(faults);
      if !ok {
        CloseUnread(cells, key, healthy);
        return;
      }
      OpenedIs();
      ok := FinishOpen();
    }

    /** The way back when the store does not open: device, then container. */
    method CloseUnread(ghost cells: seq<Cell>, ghost key: Key, ghost healthy: bool)
      requires Valid() && Attached() && !store.isOpen && store.device == null && NoLeaks() && !dbDevice.dirty
      requires currentProfileId == [] && activePersonaId == []
      requires file.cells == cells && container.key == key && !Rewrites(cells, key, healthy)
      modifies this, file`cells, file`images, container, dbDevice
      ensures ClosedOn(cells, key, healthy)
    {
      hide *;
      AttachedAlive();
      DeviceFacts();
      KeptSame(cells, key, healthy);
      CloseClean();
      CloseContainer();
      ClosedValid();
      ClosedNow(cells, key, healthy);
    }

    /** Closing a device nothing was written to stores nothing. */
    method CloseClean()
      requires Valid() && container != null && !store.isOpen && NoLeaks() && !dbDevice.dirty
      modifies this`dbDevice, dbDevice, container`files, container`openFiles, file`cells, file`images
      ensures dbDevice == null && old(dbDevice).freed && NoLeaks()
      ensures container.Valid() && container.isOpen && container.openFiles == {}
      ensures container.files == old(container.files) && file.cells == old(file.cells)
    {
      hide *;
      DeviceFacts();
      NoLeaksParts();
      dbDevice.Close();
      dbDevice.Delete();
      dbDevice := null;
      NoLeaksNow();
    }

    lemma OpenedIs()
      ensures Opened() <==> container != null && dbDevice != null && store.isOpen
    {
    }

    lemma SavedProfileIs(files: seq<FilePointer>, cells: seq<Cell>, key: Key)
      ensures SavedProfile(cells, key)
              <==> SavedStore(cells, key).Some? && HasProfile(schema, SavedStore(cells, key).value)
      ensures CanRewrite(files, cells, key) && SavedStore(cells, key).Some? && !SavedProfile(cells, key)
              ==> CanSave(files, SavedStore(cells, key).value)
    {
      hide SavedStore, HasProfile, CanSave;
    }

    lemma HeaderKnown()
      requires Attached()
      ensures container != null && dbDevice != null && container.file == file && HEADER_OFFSET <= |file.cells|
    {
    }

    /** A store without a profile record, which a failed open writes back, can be written back. */
    ghost predicate CanRewrite(files: seq<FilePointer>, cells: seq<Cell>, key: Key) {
      SavedStore(cells, key).Some? && !HasProfile(schema, SavedStore(cells, key).value) ==>
        CanSave(files, SavedStore(cells, key).value)
    }

    ghost predicate SavedProfile(cells: seq<Cell>, key: Key) {
      SavedStore(cells, key).Some? && HasProfile(schema, SavedStore(cells, key).value)
    }

    method OpenInContainer(faults: Rocks.EngineFaults) returns (ok: bool)
      requires Ready() && dbDevice == null && !store.isOpen && store.device == null && NoLeaks()
      requires currentProfileId == [] && activePersonaId == []
      requires container.files == Loaded(file.cells, container.key)
      requires CanRewrite(container.files, file.cells, container.key)
      modifies this, store, file`cells, file`images, file`handles, container
      ensures old(file.handles) <= file.handles
      ensures ok <==> old(SavedProfile(file.cells, container.key)) && !faults.tempDirFails && !faults.dbOpenFails
      ensures ok ==> OpenedOn(old(file.cells), old(container.key)) && NoLeaks()
      ensures !ok ==> ClosedOn(old(file.cells), old(container.key), !faults.tempDirFails && !faults.dbOpenFails)
    {
      hide *;
      ReadyParts();
      ghost var cells, key := file.cells, container.key;
      ReadyFacts();
      var names := container.ListFiles();
      var target := FindTarget(names);
      if target == None {
        ghost var healthy := !faults.tempDirFails && !faults.dbOpenFails;
        NoTarget(cells, key, healthy);
        KeptSame(cells, key, healthy);
        CloseContainer();
        ClosedValid();
        ClosedNow(cells, key, healthy);
        return false;
      }
      AttachDevice(target.value);
      ShownIs();
      SavedIs(cells, key, target.value);
      ok := OpenDatabase(faults);
    }

    lemma NoTarget(cells: seq<Cell>, key: Key, healthy: bool)
      requires TargetFile(NameList(Loaded(cells, key))) == None
      ensures !SavedProfile(cells, key) && !Rewrites(cells, key, healthy)
    {
    }

    lemma ShownIs()
      requires container != null && container.file == file
      ensures container.Shown() == DiskView(file.cells, container.key)
    {
    }

    /** The password's files are sound, and a store a failed open would write back can be. */
    ghost predicate CanOpen(password: Bytes)
      reads file
    {
      file.present && HasMagic(file.cells) ==>
        var key := DeriveKey(password, file.cells);
        file.Sound(key) && CanRewrite(Loaded(file.cells, key), file.cells, key)
    }

    /** What has to hold for a password to open a profile. */
    ghost predicate Opens(password: Bytes, faults: Faults)
      reads file
    {
      && file.present && NoFaults(faults) && HasMagic(file.cells)
      && SavedProfile(file.cells, DeriveKey(password, file.cells))
    }

    /** openProfile with nothing open. */
    method OpenClosed(password: Bytes, faults: Faults) returns (ok: bool)
      requires Valid() && Closed() && NoLeaks() && currentProfileId == [] && activePersonaId == []
      requires CanOpen(password)
      modifies this, store, file`cells, file`images, file`containers, file`handles
      ensures old(file.containers) <= file.containers && old(file.handles) <= file.handles
      ensures ok <==> old(Opens(password, faults))
      ensures ok ==> OpenedOn(old(file.cells), DeriveKey(password, old(file.cells))) && NoLeaks()
      ensures !ok && file.present && HasMagic(old(file.cells)) ==>
                var key := DeriveKey(password, old(file.cells));
                && ClosedOn(old(file.cells), key, NoFaults(faults))
                && (DiskView(file.cells, key) == DiskView(old(file.cells), key)
                    <==> LeavesFiles(old(file.cells), key, NoFaults(faults)))
      ensures !ok ==> Valid() && Closed() && NoLeaks() && currentProfileId == [] && activePersonaId == []
      ensures !(file.present && HasMagic(old(file.cells))) ==> file.cells == old(file.cells)
    {
      ok := false;
      hide Valid, Closed, NoLeaks, Ready, SavedProfile, CanRewrite, OpenedOn, ClosedOn, HostFile.Sound, HasMagic, Kept,
           Loaded, LeavesFiles, DiskView, Rewrites;
      ghost var cells, healthy := file.cells, NoFaults(faults);
      ClosedParts();
      if file.present {
        OpenContainer(password, faults.host);
        if container == null {
          ClosedValid();
          if HasMagic(cells) {
            RewritesIs(cells, DeriveKey(password, cells), healthy);
            KeptSame(cells, DeriveKey(password, cells), healthy);
            ClosedNow(cells, DeriveKey(password, cells), healthy);
            ClosedOnFacts(cells, DeriveKey(password, cells), healthy);
          }
        } else {
          ok := OpenInContainer(faults.engine);
          if !ok { ClosedOnFacts(cells, DeriveKey(password, cells), healthy); }
        }
      }
    }

    lemma ClosedParts()
      requires Valid() && Closed()
      ensures container == null && dbDevice == null && !store.isOpen && store.device == null
    {
    }

    lemma ClosedOnFacts(cells: seq<Cell>, key: Key, healthy: bool)
      requires ClosedOn(cells, key, healthy) && !(healthy && SavedProfile(cells, key))
      ensures DiskView(file.cells, key) == DiskView(cells, key) <==> LeavesFiles(cells, key, healthy)
      ensures Valid() && Closed() && NoLeaks() && currentProfileId == [] && activePersonaId == []
    {
      hide Kept, SavedProfile, LeavesFiles, DiskView;
      KeptIff(cells, file.cells, key, healthy);
    }

    /** The password's key opens no slot of the file. */
    ghost predicate Strange(password: Bytes)
      reads file
    {
      && file.present && HasMagic(file.cells) && SizeOk(file.cells)
      && Loaded(file.cells, DeriveKey(password, file.cells)) == []
    }

    /**
     * openProfile with nothing open, also for a password under which the file
     * holds nothing: that one fails and changes nothing.  For it the space
     * bound starts, meanwhile, at the size the file has.
     */
    method OpenAny(password: Bytes, faults: Faults) returns (ok: bool)
      requires Valid() && Closed() && NoLeaks() && currentProfileId == [] && activePersonaId == []
      requires CanOpen(password) || Strange(password)
      modifies this, store, file`cells, file`images, file`containers, file`handles, file`initialSize, file`retired
      ensures file.initialSize == old(file.initialSize) && file.retired == old(file.retired)
      ensures old(file.containers) <= file.containers && old(file.handles) <= file.handles
      ensures ok <==> old(Opens(password, faults))
      ensures ok ==> OpenedOn(old(file.cells), DeriveKey(password, old(file.cells))) && NoLeaks()
      ensures !ok && !old(Strange(password)) && file.present && HasMagic(old(file.cells)) ==>
                var key := DeriveKey(password, old(file.cells));
                && ClosedOn(old(file.cells), key, NoFaults(faults))
                && (DiskView(file.cells, key) == DiskView(old(file.cells), key)
                    <==> LeavesFiles(old(file.cells), key, NoFaults(faults)))
      ensures old(Strange(password)) ==> !ok && file.cells == old(file.cells) && Strange(password)
      ensures !ok ==> Valid() && Closed() && NoLeaks() && currentProfileId == [] && activePersonaId == []
      ensures !(file.present && HasMagic(old(file.cells))) ==> file.cells == old(file.cells)
    {
      hide *;
      ghost var cells, initial, retired, strange := file.cells, file.initialSize, file.retired, Strange(password);
      if strange {
        ClosedParts();
        StrangeParts(password);
        NothingOpens(password, faults);
        file.initialSize, file.retired := |cells|, [];
        StrangeSound(password);
        ClosedValid();
      }
      ok := OpenClosed(password, faults);
      if strange {
        NothingRewritten(cells, DeriveKey(password, cells), NoFaults(faults));
        ClosedParts();
        file.initialSize, file.retired := initial, retired;
        StrangeNow(password);
        ClosedValid();
      }
    }

    lemma NothingOpens(password: Bytes, faults: Faults)
      requires Strange(password)
      ensures !Opens(password, faults) && !SavedProfile(file.cells, DeriveKey(password, file.cells))
    {
      hide Loaded;
    }

    lemma StrangeParts(password: Bytes)
      requires Strange(password)
      ensures file.present && HasMagic(file.cells) && SizeOk(file.cells) && HEADER_OFFSET <= |file.cells|
      ensures Loaded(file.cells, DeriveKey(password, file.cells)) == []
    {
    }

    lemma StrangeNow(password: Bytes)
      requires file.present && HasMagic(file.cells) && SizeOk(file.cells) && HEADER_OFFSET <= |file.cells|
      requires Loaded(file.cells, DeriveKey(password, file.cells)) == []
      ensures Strange(password)
    {
    }

    lemma StrangeSound(password: Bytes)
      requires file.present && HasMagic(file.cells) && SizeOk(file.cells)
      requires |file.cells| <= file.initialSize && file.retired == []
      requires Loaded(file.cells, DeriveKey(password, file.cells)) == []
      ensures file.Sound(DeriveKey(password, file.cells)) && CanOpen(password)
      ensures forall f: Faults :: !Opens(password, f)
    {
      hide DeriveKey, HasMagic, Loaded, Opens, CanOpen, SavedProfile, Consistent, Budget;
      NothingIsSound(file.cells, DeriveKey(password, file.cells), file.initialSize);
      assert Charge([]) == 0;
      NothingToOpen(password);
    }

    lemma NothingRewritten(cells: seq<Cell>, key: Key, healthy: bool)
      requires ClosedOn(cells, key, healthy) && Loaded(cells, key) == []
      ensures file.cells == cells
    {
      hide Loaded;
    }

    /** One key per run: what is open was opened with this password. */
    ghost predicate OpenedWith(password: Bytes)
      reads this`container, file, container
    {
      container != null && HasMagic(file.cells) && container.key == DeriveKey(password, file.cells)
    }

    /** What closing will save can, if it has no profile record, be written back once more by the open that follows. */
    ghost predicate CanReopen()
      reads this, store, container, dbDevice
    {
      container != null && Load(Pending()).Some? && !HasProfile(schema, Load(Pending()).value) ==>
        var db := Load(Pending()).value;
        Encodable(db) && RoomAfter(container.files, Grows(), Encode(db))
    }

    /** closeProfile, and what the next open with the same key will find. */
    method CloseAndSave(password: Bytes)
      requires Valid() && CanClose() && container != null && NoLeaks()
      requires Strange(password) || (OpenedWith(password) && CanReopen())
      modifies this`dbDevice, this`container, this`currentProfileId, this`activePersonaId
      modifies store`isOpen, store`device, file`cells, file`images, container, dbDevice
      ensures Valid() && Closed() && NoLeaks() && currentProfileId == [] && activePersonaId == []
      ensures old(container).freed && old(dbDevice).freed && file.present && HasMagic(file.cells)
      ensures !old(Strange(password)) ==> CanOpen(password) && DeriveKey(password, file.cells) == old(container.key)
      ensures Strange(password) <==> old(Strange(password))
      ensures file.Sound(old(container.key))
      ensures SavedStore(file.cells, old(container.key)) == Load(old(Pending()))
      ensures KeepsNames(old(file.cells), file.cells, old(container.key))
      ensures DiskView(file.cells, old(container.key))
           == DiskView(old(file.cells), old(container.key))[old(DeviceFile()) := old(Pending())]
    {
      hide *;
      ghost var cells, key, pt, f, grown := file.cells, container.key, Pending(), container.files, Grows();
      ghost var strange := Strange(password);
      DeviceFacts();
      ShownIs();
      if strange {
        StrangeParts(password);
        StrangeKey(password);
      } else {
        OpenedWithFacts(password);
        RoomToReopen(pt, f, grown);
      }
      CloseProfile();
      SavedAfter(cells, file.cells, key, old(DeviceFile()), pt);
      HeaderCarries(cells, file.cells, key, password);
      SoundParts(key);
      if strange {
        NamesOwn(cells, file.cells, key);
        LoadsNothingStill(cells, file.cells, key, DeriveKey(password, cells));
        StrangeNow(password);
      } else {
        StillKnown(cells, password, old(DeviceFile()));
        ReadyAgain(password, pt, f, grown);
      }
    }

    /** What is open has a file, so a key without files is another one. */
    lemma StrangeKey(password: Bytes)
      requires HEADER_OFFSET <= |file.cells| && Loaded(file.cells, DeriveKey(password, file.cells)) == []
      requires container != null && TargetFile(NameList(Loaded(file.cells, container.key))) == Some(DeviceFile())
      ensures DeriveKey(password, file.cells) != container.key
    {
      hide Loaded;
    }

    lemma NotStrange(password: Bytes)
      requires Valid() && OpenedWith(password)
      ensures !Strange(password)
    {
      DeviceFacts();
      hide *;
      OpenedWithFacts(password);
      if Strange(password) {
        StrangeParts(password);
        StrangeKey(password);
      }
    }

    /** A key whose files have kept their names still has some. */
    lemma StillKnown(cells: seq<Cell>, password: Bytes, name: Bytes)
      requires HEADER_OFFSET <= |file.cells| && KeepsNames(cells, file.cells, DeriveKey(password, file.cells))
      requires TargetFile(NameList(Loaded(cells, DeriveKey(password, file.cells)))) == Some(name)
      ensures !Strange(password)
    {
      hide Loaded;
    }

    lemma SoundParts(key: Key)
      requires file.Sound(key)
      ensures file.present && SizeOk(file.cells)
    {
    }

    lemma OpenedWithFacts(password: Bytes)
      requires OpenedWith(password)
      ensures container != null
      ensures HEADER_OFFSET <= |file.cells| && container.key == DeriveKey(password, file.cells) && HasMagic(file.cells)
    {
    }

    lemma RoomToReopen(pt: Bytes, f: seq<FilePointer>, grown: nat)
      requires CanReopen() && container != null && f == container.files && grown == Grows() && pt == Pending()
      ensures Load(pt).Some? && !HasProfile(schema, Load(pt).value) ==>
                Encodable(Load(pt).value) && RoomAfter(f, grown, Encode(Load(pt).value))
    {
      hide Load, HasProfile, Encode, Encodable, RoomAfter, Grows, Pending;
    }

    lemma ReadyAgain(password: Bytes, pt: Bytes, f: seq<FilePointer>, grown: nat)
      requires HasMagic(file.cells) && file.Sound(DeriveKey(password, file.cells))
      requires SavedStore(file.cells, DeriveKey(password, file.cells)) == Load(pt)
      requires EndOfData(Loaded(file.cells, DeriveKey(password, file.cells))) <= EndOfData(f) + grown
      requires Load(pt).Some? && !HasProfile(schema, Load(pt).value) ==>
                 Encodable(Load(pt).value) && RoomAfter(f, grown, Encode(Load(pt).value))
      ensures file.present && CanOpen(password)
    {
      hide SavedStore, Load, HasProfile, Encode, Encodable, RoomAfter, EndOfData, Loaded, Consistent, Budget;
      if Load(pt).Some? && !HasProfile(schema, Load(pt).value) {
        RoomThen(f, Loaded(file.cells, DeriveKey(password, file.cells)), grown, Encode(Load(pt).value));
      }
    }

    /**
     * openProfile: whatever is open is closed first; `closed` is the host file
     * at that point.  The password is the one of what is open, or one under
     * which the file holds nothing.
     */
    method OpenProfile(password: Bytes, faults: Faults) returns (ok: bool, ghost closed: seq<Cell>)
      requires Valid() && CanClose() && NoLeaks()
      requires Strange(password) || if container == null then CanOpen(password) else OpenedWith(password) && CanReopen()
      modifies this, store, file`cells, file`images, file`containers, file`handles, file`initialSize, file`retired
      modifies (if container == null then {} else {container})
      modifies (if dbDevice == null then {} else {dbDevice})
      ensures file.initialSize == old(file.initialSize) && file.retired == old(file.retired)
      ensures old(file.containers) <= file.containers && old(file.handles) <= file.handles && NoLeaks()
      ensures old(container) != null ==> old(container).freed && old(dbDevice).freed
      ensures old(container) == null ==> closed == old(file.cells)
      ensures old(container) != null ==>
                && HasMagic(closed) && SavedStore(closed, old(container.key)) == Load(old(Pending()))
                && KeepsNames(old(file.cells), closed, old(container.key))
                && DiskView(closed, old(container.key))
                   == DiskView(old(file.cells), old(container.key))[old(DeviceFile()) := old(Pending())]
      ensures old(container) != null && !old(Strange(password)) ==> old(container.key) == DeriveKey(password, closed)
      ensures old(Strange(password)) ==> !ok && Strange(password) && file.cells == closed
      ensures old(Strange(password)) && old(container) != null ==> file.Sound(old(container.key))
      ensures ok <==> file.present && NoFaults(faults) && HasMagic(closed)
                      && SavedProfile(closed, DeriveKey(password, closed))
      ensures ok ==> OpenedOn(closed, DeriveKey(password, closed))
      ensures !ok ==> Valid() && Closed() && currentProfileId == [] && activePersonaId == []
      ensures !ok && !old(Strange(password)) && file.present && HasMagic(closed) ==>
                var key := DeriveKey(password, closed);
                && ClosedOn(closed, key, NoFaults(faults))
                && (DiskView(file.cells, key) == DiskView(closed, key) <==> LeavesFiles(closed, key, NoFaults(faults)))
      ensures !(file.present && HasMagic(closed)) ==> file.cells == closed
    {
      hide Valid, Closed, CanClose, OpenedWith, CanReopen, CanOpen, SavedProfile, SavedStore, OpenedOn, ClosedOn,
           HasMagic, Pending, NoLeaks, DiskView, Loaded, KeepsNames, LeavesFiles, Strange;
      ghost var strange := Strange(password);
      if container != null {
        OpenedHere();
        CloseAndSave(password);
      } else {
        NothingOpen();
        CloseProfile();
      }
      closed := file.cells;
      if strange { NothingOpens(password, faults); }
      ok := OpenAny(password, faults);
    }

    lemma OpenedHere()
      requires Valid() && container != null && NoLeaks()
      ensures dbDevice != null && container in file.containers && dbDevice in file.handles
    {
    }

    // ----------------------------------------------------------------
    // Creating
    // ----------------------------------------------------------------

    /** The engine's own file, existing or new, as the store's device; null when it cannot be had. */
    method AttachOwnFile()
      requires Ready() && dbDevice == null && !store.isOpen && store.device == null && NoLeaks()
      requires DB_NAME !in container.Shown() ==> Room(container.files, [])
      modifies this`dbDevice, container`files, container`openFiles, file`cells, file`images, file`handles
      ensures NoLeaks() && old(file.handles) <= file.handles
      ensures dbDevice != null <==> HasOwnFile(old(container.Shown()))
      ensures dbDevice == null ==> Ready() && file.cells == old(file.cells) && container.files == old(container.files)
      ensures dbDevice != null ==>
                Valid() && Attached() && fresh(dbDevice) && !dbDevice.dirty && DeviceFile() == DB_NAME
      ensures dbDevice != null ==> container.Shown() == OwnFileView(old(container.Shown()))
      ensures dbDevice != null ==> dbDevice.data == container.Shown()[DB_NAME] && DB_NAME in container.Shown()
      ensures store.device == null && HEADER_OFFSET <= |old(file.cells)| && HEADER_OFFSET <= |file.cells|
      ensures NothingForeign(old(file.cells), file.cells, container.key)
      ensures EndOfData(container.files) <= EndOfData(old(container.files)) + DATA_ALIGNMENT
      ensures dbDevice != null && old(container.files) == [] ==>
                TakesFirstSlot(old(file.cells), file.cells, container.key)
    {
      hide *;
      ReadyParts();
      ReadyFacts();
      NoLeaksParts();
      container.ShownIs();
      CanCreateRoom(container.Shown(), container.files);
      OwnFileIff();
      dbDevice := container.OpenFile(DB_NAME, READ_WRITE);
      ReadWriteFlags();
      ResolvedView(old(file.cells), file.cells, container.key, old(container.files), container.files,
                   old(file.images), file.images);
      NoLeaksNow();
      if dbDevice != null {
        PublicPartOf(old(file.cells), file.cells, container.key);
        OwnFileTarget(file.cells, container.key, container.files, dbDevice.slotIndex, dbDevice.data);
        AttachedNow(DB_NAME);
        ShownIs();
        if old(container.files) == [] {
          FirstSlotTaken(old(file.cells), file.cells, container.key, container.files, old(file.images), file.images,
                         dbDevice.slotIndex, dbDevice.data);
        }
      } else {
        NotResolved(old(file.cells), file.cells, container.key, old(container.files), container.files,
                    old(file.images), file.images);
        ReadyNow();
      }
    }

    /** The engine's file can be had when it is there or one of 4096 slots is free. */
    lemma OwnFileIff()
      requires Ready()
      ensures Available(container.Shown(), container.files, DB_NAME, READ_WRITE) <==> HasOwnFile(container.Shown())
    {
      hide EncryptedVFSContainer.Valid, EncryptedVFSContainer.Shown, CanCreate;
      CreatesIff(container, DB_NAME, READ_WRITE);
    }

    /** What createProfile leaves when it fails: nothing present, every handle freed, the key's files as they were. */
    ghost predicate NotCreated(cells: seq<Cell>, key: Key, view: map<Bytes, Bytes>)
      reads this, store, store.device, container, dbDevice, file, file.containers`freed, file.handles`freed
    {
      && Valid() && Closed() && NoLeaks() && currentProfileId == [] && activePersonaId == []
      && file.Sound(key) && NothingForeign(cells, file.cells, key) && DiskView(file.cells, key) == view
    }

    lemma NotCreatedNow(cells: seq<Cell>, key: Key, view: map<Bytes, Bytes>)
      requires Valid() && Closed() && NoLeaks() && currentProfileId == [] && activePersonaId == []
      requires file.Sound(key) && NothingForeign(cells, file.cells, key) && DiskView(file.cells, key) == view
      ensures NotCreated(cells, key, view)
    {
    }

    lemma NotCreatedFacts(cells: seq<Cell>, key: Key, view: map<Bytes, Bytes>)
      requires NotCreated(cells, key, view)
      ensures Valid() && Closed() && NoLeaks() && currentProfileId == [] && activePersonaId == []
    {
    }

    /** The state createProfile leaves: the two records on top of what the engine's file held, saved to the device. */
    ghost predicate CreatedOn(cells: seq<Cell>, key: Key, profile: NewRecord, persona: NewRecord)
      reads this, store, store.device, container, dbDevice, file
    {
      && Opened() && container.key == key && NothingForeign(cells, file.cells, key)
      && store.db == NewStore(DiskView(cells, key), profile, persona)
      && dbDevice.data == Encode(store.db) && DeviceFile() == DB_NAME
      && DiskView(file.cells, key) == OwnFileView(DiskView(cells, key))
      && EndOfData(container.files) <= EndOfData(Loaded(cells, key)) + DATA_ALIGNMENT
      && (Loaded(cells, key) == [] ==> TakesFirstSlot(cells, file.cells, key))
      && currentProfileId == profile.uid && activePersonaId == persona.uid && Valid()
    }

    lemma CreatedNow(cells: seq<Cell>, key: Key, profile: NewRecord, persona: NewRecord)
      requires Valid() && Opened() && container.key == key && NothingForeign(cells, file.cells, key)
      requires store.db == NewStore(DiskView(cells, key), profile, persona)
      requires dbDevice.data == Encode(store.db) && DeviceFile() == DB_NAME
      requires DiskView(file.cells, key) == OwnFileView(DiskView(cells, key))
      requires EndOfData(container.files) <= EndOfData(Loaded(cells, key)) + DATA_ALIGNMENT
      requires Loaded(cells, key) == [] ==> TakesFirstSlot(cells, file.cells, key)
      requires currentProfileId == profile.uid && activePersonaId == persona.uid
      ensures CreatedOn(cells, key, profile, persona)
    {
    }

    lemma CreatedFacts(cells: seq<Cell>, key: Key, profile: NewRecord, persona: NewRecord)
      requires CreatedOn(cells, key, profile, persona)
      ensures Valid() && Opened() && container != null && container.key == key && NothingForeign(cells, file.cells, key)
      ensures store.db == NewStore(DiskView(cells, key), profile, persona)
      ensures EndOfData(container.files) <= EndOfData(Loaded(cells, key)) + DATA_ALIGNMENT
      ensures Loaded(cells, key) == [] ==> TakesFirstSlot(cells, file.cells, key)
    {
    }

    /** createProfile with nothing open: profile and default persona are stored in the engine's own file. */
    method CreateClosed(password: Bytes, profile: NewRecord, persona: NewRecord, faults: Faults) returns (ok: bool)
      requires Valid() && Closed() && NoLeaks() && currentProfileId == [] && activePersonaId == []
      requires CanCreateIn(password)
      modifies this, store, file`cells, file`images, file`containers, file`handles
      ensures old(file.containers) <= file.containers && old(file.handles) <= file.handles && NoLeaks()
      ensures ok <==> NoFaults(faults) && old(Creates(password))
      ensures ok ==> HEADER_OFFSET <= |old(file.cells)|
                     && CreatedOn(old(file.cells), DeriveKey(password, old(file.cells)), profile, persona)
      ensures ok ==> container != null && fresh(container) && dbDevice != null && fresh(dbDevice)
      ensures !ok && file.present && HasMagic(old(file.cells)) ==>
                var key := DeriveKey(password, old(file.cells));
                NotCreated(old(file.cells), key, LeftBehind(DiskView(old(file.cells), key), faults.host))
      ensures !ok ==> Valid() && Closed() && currentProfileId == [] && activePersonaId == []
      ensures !(file.present && HasMagic(old(file.cells))) ==> file.cells == old(file.cells)
    {
      ok := false;
      hide Valid, Closed, NoLeaks, EncryptedVFSContainer.Valid, HostFile.Sound, HasMagic, Creatable, NewStore,
           OwnFileView, DiskView, Loaded, Room, Encode, CreatedOn, NotCreated, HasOwnFile, NothingForeign;
      ghost var cells := file.cells;
      ClosedParts();
      if file.present {
        OpenContainer(password, faults.host);
        if container == null {
          ClosedValid();
          if HasMagic(cells) {
            NothingForeignSelf(cells, DeriveKey(password, cells));
            NotCreatedNow(cells, DeriveKey(password, cells), DiskView(cells, DeriveKey(password, cells)));
          }
        } else {
          ShownIs();
          ok := CreateInContainer(profile, persona, faults.engine);
          if !ok {
            ghost var key := DeriveKey(password, cells);
            NotCreatedFacts(cells, key, LeftView(DiskView(cells, key)));
          }
        }
      }
    }

    method CreateInContainer(profile: NewRecord, persona: NewRecord, faults: Rocks.EngineFaults) returns (ok: bool)
      requires Ready() && dbDevice == null && !store.isOpen && store.device == null && NoLeaks()
      requires currentProfileId == [] && activePersonaId == []
      requires container.files == Loaded(file.cells, container.key)
      requires DB_NAME !in container.Shown() ==> Room(container.files, [])
      modifies this, store, file`cells, file`images, file`handles, container
      ensures old(file.handles) <= file.handles && NoLeaks()
      ensures ok <==> !faults.tempDirFails && !faults.dbOpenFails && old(Creatable(DiskView(file.cells, container.key)))
      ensures ok ==> CreatedOn(old(file.cells), old(container.key), profile, persona)
      ensures ok ==> container == old(container) && fresh(dbDevice)
      ensures !ok ==>
                NotCreated(old(file.cells), old(container.key), LeftView(DiskView(old(file.cells), old(container.key))))
    {
      hide *;
      ReadyParts();
      ReadyFacts();
      ghost var cells, key := file.cells, container.key;
      CreatableIs(DiskView(cells, key));
      AttachOwnFile();
      if dbDevice == null {
        ReadyParts();
        CloseContainer();
        ClosedValid();
        NotCreatedNow(cells, key, DiskView(cells, key));
        return false;
      }
      AttachedAlive();
      DeviceReads();
      ShownIs();
      ok := OpenStore(faults);
      if ok {
        CreateRecords(cells, key, profile, persona);
      } else {
        CloseUncreated(cells, key, OwnFileView(DiskView(cells, key)));
      }
    }

    /** The way back when the store does not open: device, then container. */
    method CloseUncreated(ghost cells: seq<Cell>, ghost key: Key, ghost view: map<Bytes, Bytes>)
      requires Valid() && Attached() && !store.isOpen && store.device == null && NoLeaks() && !dbDevice.dirty
      requires currentProfileId == [] && activePersonaId == [] && container.key == key
      requires NothingForeign(cells, file.cells, key) && DiskView(file.cells, key) == view
      modifies this, file`cells, file`images, container, dbDevice
      ensures NotCreated(cells, key, view) && NoLeaks()
    {
      hide *;
      AttachedAlive();
      DeviceFacts();
      CloseClean();
      CloseContainer();
      ClosedValid();
      NotCreatedNow(cells, key, view);
    }

    /** The records stored in an open store. */
    method CreateRecords(ghost cells: seq<Cell>, ghost key: Key, profile: NewRecord, persona: NewRecord)
      requires Valid() && Attached() && store.isOpen && container.key == key && NoLeaks()
      requires NothingForeign(cells, file.cells, key) && DeviceFile() == DB_NAME
      requires store.db == OwnStore(OwnFileView(DiskView(cells, key)))
      requires DiskView(file.cells, key) == OwnFileView(DiskView(cells, key))
      requires EndOfData(container.files) <= EndOfData(Loaded(cells, key)) + DATA_ALIGNMENT
      requires Loaded(cells, key) == [] ==> TakesFirstSlot(cells, file.cells, key)
      modifies this`currentProfileId, this`activePersonaId, store`db, dbDevice`data, dbDevice`pos, dbDevice`dirty
      ensures CreatedOn(cells, key, profile, persona) && NoLeaks()
    {
      hide *;
      AttachedAlive();
      StoreRecords(profile, persona);
      currentProfileId := profile.uid;
      activePersonaId := persona.uid;
      ReassembleOpened();
      OpenedIs();
      NewStoreIs(DiskView(cells, key), profile, persona);
      CreatedNow(cells, key, profile, persona);
    }

    /** The two records, then a flush to the device. */
    method StoreRecords(profile: NewRecord, persona: NewRecord)
      requires Valid() && Attached() && store.isOpen
      modifies store`db, dbDevice`data, dbDevice`pos, dbDevice`dirty
      ensures Attached() && store.isOpen && store.device == dbDevice && dbDevice.pos <= |dbDevice.data|
      ensures store.db == old(store.db)[PROFILE_KEY := profile.record][PERSONA_PREFIX + persona.uid := persona.record]
      ensures dbDevice.data == Encode(store.db) && dbDevice.dirty && DeviceFile() == old(DeviceFile())
    {
      hide *;
      DeviceReads();
      StoreOnDevice();
      var stored := store.Put(PROFILE_KEY, profile.record);
      stored := store.Put(PERSONA_PREFIX + persona.uid, persona.record);
      store.Flush();
    }

    lemma StoreOnDevice()
      requires Valid() && Attached() && store.isOpen
      ensures store.device == dbDevice && store.Devices() == {dbDevice} && dbDevice.mode.write
    {
    }

    lemma ReassembleOpened()
      requires Attached() && store.isOpen && store.device == dbDevice && dbDevice.pos <= |dbDevice.data|
               && dbDevice.dirty
      ensures Valid()
    {
    }

    /** The password's files are sound, and there is room for the engine's file if it must be created. */
    ghost predicate CanCreateIn(password: Bytes)
      reads file
    {
      file.present && HasMagic(file.cells) ==>
        var key := DeriveKey(password, file.cells);
        file.Sound(key) && (DB_NAME !in DiskView(file.cells, key) ==> Room(Loaded(file.cells, key), []))
    }

    /** What has to hold for a password to get a new profile. */
    ghost predicate Creates(password: Bytes)
      reads file
    {
      file.present && HasMagic(file.cells) && Creatable(DiskView(file.cells, DeriveKey(password, file.cells)))
    }

    /**
     * createProfile with nothing open, also under a password that has no files
     * in the container yet; for that one the space bound starts at the size the
     * file has.
     */
    method CreateAny(password: Bytes, profile: NewRecord, persona: NewRecord, faults: Faults) returns (ok: bool)
      requires Valid() && Closed() && NoLeaks() && currentProfileId == [] && activePersonaId == []
      requires CanCreateIn(password) || Strange(password)
      modifies this, store, file`cells, file`images, file`containers, file`handles, file`initialSize, file`retired
      ensures file.initialSize == if old(Strange(password)) then |old(file.cells)| else old(file.initialSize)
      ensures file.retired == if old(Strange(password)) then [] else old(file.retired)
      ensures old(file.containers) <= file.containers && old(file.handles) <= file.handles && NoLeaks()
      ensures ok <==> NoFaults(faults) && old(Creates(password))
      ensures ok ==> HEADER_OFFSET <= |old(file.cells)|
                     && CreatedOn(old(file.cells), DeriveKey(password, old(file.cells)), profile, persona)
      ensures ok ==> container != null && fresh(container) && dbDevice != null && fresh(dbDevice)
      ensures !ok && file.present && HasMagic(old(file.cells)) ==>
                var key := DeriveKey(password, old(file.cells));
                NotCreated(old(file.cells), key, LeftBehind(DiskView(old(file.cells), key), faults.host))
      ensures !ok ==> Valid() && Closed() && currentProfileId == [] && activePersonaId == []
      ensures !(file.present && HasMagic(old(file.cells))) ==> file.cells == old(file.cells)
    {
      hide *;
      if Strange(password) {
        ClosedParts();
        StrangeParts(password);
        CreatesIs(password);
        file.initialSize, file.retired := |file.cells|, [];
        CreatesIs(password);
        StrangeSound(password);
        RoomForFirst(password);
        ClosedValid();
      }
      ok := CreateClosed(password, profile, persona, faults);
    }

    lemma CreatesIs(password: Bytes)
      ensures Creates(password)
              <==> file.present && HasMagic(file.cells)
                   && Creatable(DiskView(file.cells, DeriveKey(password, file.cells)))
    {
    }

    lemma RoomForFirst(password: Bytes)
      requires file.present && HasMagic(file.cells) && file.Sound(DeriveKey(password, file.cells))
      requires Loaded(file.cells, DeriveKey(password, file.cells)) == []
      ensures CanCreateIn(password)
    {
      hide Loaded, DiskView, Consistent, Budget, HasMagic;
      SmallBlock();
      assert EndOfData([]) == DATA_START;
    }

    /** Once what is open is closed there is still room for the engine's file, if another one is open in its place. */
    ghost predicate CanCreateNext()
      reads this, store, container, dbDevice, file
    {
      container != null && DB_NAME !in DiskView(file.cells, container.key) ==> RoomAfter(container.files, Grows(), [])
    }

    /**
     * createProfile: whatever is open is closed first, also when it was opened
     * from another file than the engine's own; `closed` is the host file then.
     * The password is the one of what is open, or one without files so far.
     */
    method CreateProfile(password: Bytes, profile: NewRecord, persona: NewRecord, faults: Faults)
      returns (ok: bool, ghost closed: seq<Cell>)
      requires Valid() && CanClose() && NoLeaks()
      requires Strange(password)
               || if container == null then CanCreateIn(password) else OpenedWith(password) && CanCreateNext()
      modifies this, store, file`cells, file`images, file`containers, file`handles, file`initialSize, file`retired
      modifies (if container == null then {} else {container})
      modifies (if dbDevice == null then {} else {dbDevice})
      ensures old(file.containers) <= file.containers && old(file.handles) <= file.handles && NoLeaks()
      ensures old(container) != null ==> old(container).freed && old(dbDevice).freed
      ensures old(container) == null ==> closed == old(file.cells)
      ensures old(container) != null ==>
                && HasMagic(closed) && KeepsNames(old(file.cells), closed, old(container.key))
                && DiskView(closed, old(container.key))
                   == DiskView(old(file.cells), old(container.key))[old(DeviceFile()) := old(Pending())]
      ensures old(container) != null && !old(Strange(password)) ==> DeriveKey(password, closed) == old(container.key)
      ensures old(Strange(password)) ==>
                HEADER_OFFSET <= |closed| && Loaded(closed, DeriveKey(password, closed)) == []
      ensures file.initialSize == if old(Strange(password)) then |closed| else old(file.initialSize)
      ensures file.retired == if old(Strange(password)) then [] else old(file.retired)
      ensures ok <==> NoFaults(faults) && file.present && HasMagic(closed)
                      && Creatable(DiskView(closed, DeriveKey(password, closed)))
      ensures ok ==> HasMagic(closed) && CreatedOn(closed, DeriveKey(password, closed), profile, persona)
      ensures ok ==> OpenedWith(password) && fresh(container) && dbDevice != null && fresh(dbDevice)
      ensures ok ==>
                && PROFILE_KEY in store.db && store.db[PROFILE_KEY] == profile.record
                && PERSONA_PREFIX + persona.uid in store.db
                && store.db[PERSONA_PREFIX + persona.uid] == persona.record
      ensures ok && old(container) != null && !old(Strange(password)) && old(DeviceFile()) == DB_NAME ==>
                && Load(old(Pending())).Some?
                && store.db == WithRecords(Load(old(Pending())).value, profile, persona)
      ensures !ok ==> Valid() && Closed() && currentProfileId == [] && activePersonaId == []
      ensures !ok && file.present && HasMagic(closed) ==>
                var key := DeriveKey(password, closed);
                NotCreated(closed, key, LeftBehind(DiskView(closed, key), faults.host))
      ensures !(file.present && HasMagic(closed)) ==> file.cells == closed
    {
      hide Valid, Closed, CanClose, OpenedWith, CanCreateNext, CanCreateIn, Creatable, CreatedOn, NotCreated, HasMagic,
           Pending, NoLeaks, DiskView, Loaded, KeepsNames, LeftBehind, NewStore, WithRecords, DeviceFile, Load,
           Strange, OwnFileView;
      ghost var strange := Strange(password);
      if container != null {
        OpenedHere();
        CloseToCreate(password);
      } else {
        NothingOpen();
        CloseProfile();
      }
      closed := file.cells;
      if strange { StrangeParts(password); }
      ok := CreateAny(password, profile, persona, faults);
      if ok {
        CreatedFacts(closed, DeriveKey(password, closed), profile, persona);
        StillOpenedWith(closed, password);
        NewRecordsStored(DiskView(closed, DeriveKey(password, closed)), profile, persona);
        if old(container) != null && !strange && old(DeviceFile()) == DB_NAME {
          OwnFileKept(DiskView(old(file.cells), old(container.key)), old(Pending()), profile, persona);
        }
      }
    }

    lemma StillOpenedWith(cells: seq<Cell>, password: Bytes)
      requires HasMagic(cells) && NothingForeign(cells, file.cells, DeriveKey(password, cells))
      requires container != null && container.key == DeriveKey(password, cells)
      ensures OpenedWith(password)
    {
      hide HasMagic, DeriveKey;
      HeaderSame(cells, file.cells, password);
    }

    /** Closing what is open, ready for the next create with the same key. */
    method CloseToCreate(password: Bytes)
      requires Valid() && CanClose() && NoLeaks() && container != null
      requires Strange(password) || (OpenedWith(password) && CanCreateNext())
      modifies this`dbDevice, this`container, this`currentProfileId, this`activePersonaId
      modifies store`isOpen, store`device, file`cells, file`images, container, dbDevice
      ensures Valid() && Closed() && NoLeaks() && currentProfileId == [] && activePersonaId == []
      ensures old(container).freed && old(dbDevice).freed && file.present && HasMagic(file.cells)
      ensures !old(Strange(password)) ==> DeriveKey(password, file.cells) == old(container.key) && CanCreateIn(password)
      ensures Strange(password) <==> old(Strange(password))
      ensures KeepsNames(old(file.cells), file.cells, old(container.key))
      ensures DiskView(file.cells, old(container.key))
           == DiskView(old(file.cells), old(container.key))[old(DeviceFile()) := old(Pending())]
    {
      hide *;
      ghost var cells, key, f, grown, shown := file.cells, container.key, container.files, Grows(), container.Shown();
      ghost var strange := Strange(password);
      DeviceFacts();
      ShownIs();
      if strange {
        StrangeParts(password);
        StrangeKey(password);
      } else {
        OpenedWithFacts(password);
        RoomToCreate(f, grown, shown);
      }
      CloseProfile();
      HeaderCarries(cells, file.cells, key, password);
      SoundParts(key);
      if strange {
        NamesOwn(cells, file.cells, key);
        LoadsNothingStill(cells, file.cells, key, DeriveKey(password, cells));
        StrangeNow(password);
      } else {
        StillKnown(cells, password, old(DeviceFile()));
        ReadyToCreate(password, f, grown, shown, old(DeviceFile()), old(Pending()));
      }
    }

    lemma RoomToCreate(f: seq<FilePointer>, grown: nat, shown: map<Bytes, Bytes>)
      requires CanCreateNext() && container != null && f == container.files && grown == Grows()
      requires shown == DiskView(file.cells, container.key)
      ensures DB_NAME !in shown ==> RoomAfter(f, grown, [])
    {
      hide RoomAfter, Grows, DiskView;
    }

    lemma ReadyToCreate(password: Bytes, f: seq<FilePointer>, grown: nat, shown: map<Bytes, Bytes>, name: Bytes,
                        pt: Bytes)
      requires HasMagic(file.cells) && file.Sound(DeriveKey(password, file.cells))
      requires EndOfData(Loaded(file.cells, DeriveKey(password, file.cells))) <= EndOfData(f) + grown
      requires DiskView(file.cells, DeriveKey(password, file.cells)) == shown[name := pt]
      requires DB_NAME !in shown ==> RoomAfter(f, grown, [])
      ensures file.present && CanCreateIn(password)
    {
      hide DiskView, RoomAfter, EndOfData, Loaded, Consistent, Budget, Room;
      if DB_NAME !in shown { RoomThen(f, Loaded(file.cells, DeriveKey(password, file.cells)), grown, []); }
    }

    // ----------------------------------------------------------------
    // Deleting
    // ----------------------------------------------------------------

    /** Deletes every listed file. */
    method DeleteFiles(names: seq<Bytes>)
      requires Ready() && forall n :: n in container.Shown() ==> n in names
      modifies container`files, file`cells, file`images, file`retired
      ensures Ready() && container.Shown() == map[] && NothingForeign(old(file.cells), file.cells, container.key)
      ensures LedgerOf(container.files, file.retired).spent == LedgerOf(old(container.files), old(file.retired)).spent
    {
      hide EncryptedVFSContainer.Valid, EncryptedVFSContainer.Shown, IndexOfName, Without, LedgerOf;
      ReadyFacts();
      NothingForeignSelf(file.cells, container.key);
      for i := 0 to |names|
        invariant Ready() && container.openFiles == {}
        invariant NothingForeign(old(file.cells), file.cells, container.key)
        invariant LedgerOf(container.files, file.retired).spent
                  == LedgerOf(old(container.files), old(file.retired)).spent
        invariant forall n :: n in container.Shown() ==> n in names[i..]
      {
        DeletingLedger(names[i]);
        PublicPartFirst();
        assert file.retired + [] == file.retired;
        var deleted := container.DeleteFile(names[i]);
        forall n | n in container.Shown() ensures n in names[i + 1..] {
          assert n in names[i..] && n != names[i];
        }
      }
    }

    /** Deleting a file leaves what it cost in the sum. */
    lemma DeletingLedger(name: Bytes)
      requires Ready()
      ensures var k := IndexOfName(container.files, name);
              k >= 0 ==> LedgerOf(Without(container.files, k),
                                  file.retired + [container.files[k].allocatedSize as nat]).spent
                         == LedgerOf(container.files, file.retired).spent
    {
      ReadyParts();
      container.OpenFacts();
      hide *;
      ConsistentParts(file.cells, container.key, container.files);
      var k := IndexOfName(container.files, name);
      if k >= 0 {
        WithoutCompatible(container.files, k);
        LedgerRemoved(container.files, k, file.retired);
      }
    }

    /** The store is closed onto its device, the device onto the container; then every file of the key is deleted. */
    method DeleteCurrentProfile() returns (ok: bool)
      requires Valid() && CanClose() && NoLeaks()
      modifies this`dbDevice, this`container, this`currentProfileId, this`activePersonaId
      modifies store`isOpen, store`device, file`cells, file`images, file`retired
      modifies (if container == null then {} else {container})
      modifies (if dbDevice == null then {} else {dbDevice})
      ensures ok <==> old(Opened())
      ensures NoLeaks()
      ensures ok ==> Valid() && Closed() && old(container).freed && old(dbDevice).freed
      ensures ok ==> currentProfileId == [] && activePersonaId == []
      ensures ok ==> Loaded(file.cells, old(container.key)) == [] && file.Sound(old(container.key))
      ensures ok ==> NothingForeign(old(file.cells), file.cells, old(container.key))
      ensures ok ==> Charge(file.retired) == old(ClosingLedger()).spent
      ensures !ok ==> file.retired == old(file.retired) && file.images == old(file.images)
      ensures !ok ==> Valid() && file.cells == old(file.cells) && container == old(container)
    {
      hide *;
      OpenedIs();
      if container == null || dbDevice == null || !store.isOpen { return false; }
      DeleteOpened();
      ClosedParts();
      currentProfileId := [];
      activePersonaId := [];
      ClosedValid();
      ok := true;
    }

    method DeleteOpened()
      requires Valid() && CanClose() && container != null && NoLeaks()
      modifies this`dbDevice, this`container, store`isOpen, store`device, file`cells, file`images, file`retired
      modifies container, dbDevice
      ensures Valid() && Closed() && NoLeaks() && old(container).freed && old(dbDevice).freed
      ensures Loaded(file.cells, old(container.key)) == [] && file.Sound(old(container.key))
      ensures NothingForeign(old(file.cells), file.cells, old(container.key))
      ensures Charge(file.retired) == old(ClosingLedger()).spent
    {
      hide *;
      ghost var key, cells := container.key, file.cells;
      ClosingLedgerIs();
      DeviceFacts();
      ShownIs();
      FilesShown();
      var names := container.ListFiles();
      CloseStore();
      DeviceFacts();
      PendingClosed();
      ClosingLedgerIs();
      ClosingViewIs();
      CloseDevice();
      ReadyParts();
      ghost var mid := file.cells;
      NamesOwn(cells, mid, key);
      DeleteFiles(names);
      NothingForeignTrans(cells, mid, file.cells, key);
      ReadyParts();
      ShownIs();
      CloseContainer();
      ClosedValid();
      NothingShown(file.cells, key);
      NothingCharged(file.retired);
    }

    /** After a profile is deleted its password still opens the container, finds no file in it, and opens no profile. */
    method DeleteThenOpen(password: Bytes, faults: Faults) returns (deleted: bool, ok: bool)
      requires Valid() && Opened() && CanClose() && NoLeaks() && OpenedWith(password)
      modifies this, store, file`cells, file`images, file`retired, file`containers, file`handles, container, dbDevice
      ensures deleted && !ok && Valid() && Closed() && NoLeaks()
      ensures HasMagic(file.cells) && file.Sound(DeriveKey(password, file.cells))
      ensures Loaded(file.cells, DeriveKey(password, file.cells)) == []
    {
      hide *;
      OpenedWithFacts(password);
      ghost var cells, key := file.cells, container.key;
      deleted := DeleteCurrentProfile();
      PublicPartCarries(cells, file.cells, key, password);
      NothingToOpen(password);
      ghost var empty := file.cells;
      ok := OpenClosed(password, faults);
      if !ok { StillNothing(empty, DeriveKey(password, empty), password, NoFaults(faults)); }
    }

    lemma NothingToOpen(password: Bytes)
      requires HasMagic(file.cells) && file.Sound(DeriveKey(password, file.cells))
      requires Loaded(file.cells, DeriveKey(password, file.cells)) == []
      ensures file.present && CanOpen(password) && !SavedProfile(file.cells, DeriveKey(password, file.cells))
      ensures forall f: Faults :: !Opens(password, f)
    {
      hide Loaded, HasMagic, HasProfile, CanSave, Consistent, Budget;
      assert SavedStore(file.cells, DeriveKey(password, file.cells)) == None;
    }

    lemma StillNothing(cells: seq<Cell>, key: Key, password: Bytes, healthy: bool)
      requires ClosedOn(cells, key, healthy)
      requires HasMagic(cells) && Loaded(cells, key) == [] && key == DeriveKey(password, cells)
      ensures HasMagic(file.cells) && DeriveKey(password, file.cells) == key && file.Sound(key)
      ensures Loaded(file.cells, key) == [] && Valid() && Closed() && NoLeaks()
    {
      hide Loaded, HasMagic, Consistent, Budget, DiskView, Encode, EndOfData, HasProfile;
      assert SavedStore(cells, key) == None;
    }

    lemma FilesShown()
      requires Valid() && container != null
      ensures forall n :: n in container.Shown() <==> n in NameList(container.files)
    {
      hide Consistent, Budget, SavedStore, TargetFile;
      assert container.isOpen;
      container.OpenFacts();
      ReloadAgrees(file.cells, container.key, container.files);
      container.ShownIs();
      hide *;
      NamesOfView(file.cells, container.key, container.files);
      DeviceFacts();
    }

    lemma ReadyNow()
      requires container != null && container.file == file && container.Valid() && container.isOpen
               && container.openFiles == {}
      ensures Ready()
    {
    }

    lemma ReadyParts()
      requires Ready()
      ensures container != null && container.file == file && container.Valid() && container.isOpen
              && container.openFiles == {}
    {
    }

    // ----------------------------------------------------------------
    // What survives
    // ----------------------------------------------------------------

    /** Closing a profile and opening it again with the same password gives back the same records. */
    method CloseThenOpen(password: Bytes, faults: Faults) returns (ok: bool)
      requires Valid() && Opened() && NoLeaks() && OpenedWith(password)
      requires CanSave(container.files, store.db) && HasProfile(schema, store.db) && NoFaults(faults)
      modifies this, store, file`cells, file`images, file`containers, file`handles, container, dbDevice
      ensures ok && Valid() && Opened() && NoLeaks() && OpenedWith(password) && store.db == old(store.db)
    {
      hide *;
      ghost var db := store.db;
      NotStrange(password);
      SavesItself();
      CloseAndSave(password);
      OpensNow(password, faults, db);
      ghost var closed := file.cells;
      ok := OpenClosed(password, faults);
      OpenedOnFacts(closed, password, db);
    }

    /**
     * The same through the application's shutdown order: the store's plugin
     * closes the database first, the profile is closed after it.
     */
    method ShutdownThenOpen(password: Bytes, faults: Faults) returns (ok: bool)
      requires Valid() && Opened() && NoLeaks() && OpenedWith(password)
      requires CanSave(container.files, store.db) && HasProfile(schema, store.db) && NoFaults(faults)
      modifies this, store, file`cells, file`images, file`containers, file`handles, container, dbDevice
      ensures ok && Valid() && Opened() && NoLeaks() && OpenedWith(password) && store.db == old(store.db)
    {
      hide *;
      ghost var db := store.db;
      NotStrange(password);
      SavesItself();
      ghost var pt := Pending();
      CloseStore();
      SavesStill(pt);
      CloseAndSave(password);
      OpensNow(password, faults, db);
      ghost var closed := file.cells;
      ok := OpenClosed(password, faults);
      OpenedOnFacts(closed, password, db);
    }

    /** A profile just created, closed and opened again with its password is there, on top of what the file held. */
    method CreateThenOpen(password: Bytes, profile: NewRecord, persona: NewRecord, faults: Faults) returns (ok: bool)
      requires Valid() && Closed() && NoLeaks() && currentProfileId == [] && activePersonaId == []
      requires CanCreateIn(password) && Creates(password) && NoFaults(faults)
      requires var key := DeriveKey(password, file.cells);
               var db := NewStore(DiskView(file.cells, key), profile, persona);
               && HasProfile(schema, db) && Encodable(db)
               && RoomAfter(Loaded(file.cells, key), DATA_ALIGNMENT, Encode(db))
      modifies this, store, file`cells, file`images, file`containers, file`handles
      ensures ok && Valid() && Opened() && NoLeaks() && OpenedWith(password)
      ensures HEADER_OFFSET <= |old(file.cells)|
      ensures store.db == NewStore(DiskView(old(file.cells), DeriveKey(password, old(file.cells))), profile, persona)
    {
      hide *;
      CreatesParts(password);
      ghost var cells := file.cells;
      ghost var key := DeriveKey(password, cells);
      ghost var db := NewStore(DiskView(cells, key), profile, persona);
      ok := CreateClosed(password, profile, persona, faults);
      CreatedFacts(cells, key, profile, persona);
      StillOpenedWith(cells, password);
      RoomThen(Loaded(cells, key), container.files, DATA_ALIGNMENT, Encode(db));
      CanSaveIs(container.files, db);
      OpenedIs();
      ok := CloseThenOpen(password, faults);
    }

    /**
     * A profile just created does not open under another password, which closes
     * it and changes nothing else; its own password then opens it.
     */
    method CreateThenOpenOther(password: Bytes, other: Bytes, profile: NewRecord, persona: NewRecord, faults: Faults)
      returns (wrong: bool, ok: bool)
      requires Valid() && Closed() && NoLeaks() && currentProfileId == [] && activePersonaId == []
      requires CanCreateIn(password) && Creates(password) && NoFaults(faults)
      requires var key := DeriveKey(password, file.cells);
               var db := NewStore(DiskView(file.cells, key), profile, persona);
               && HasProfile(schema, db) && Encodable(db)
               && RoomAfter(Loaded(file.cells, key), DATA_ALIGNMENT, Encode(db))
      requires other != password && Loaded(file.cells, DeriveKey(other, file.cells)) == []
      modifies this, store, file`cells, file`images, file`containers, file`handles, file`initialSize, file`retired
      ensures !wrong && ok && Valid() && Opened() && NoLeaks() && OpenedWith(password) && Strange(other)
      ensures HEADER_OFFSET <= |old(file.cells)|
      ensures store.db == NewStore(DiskView(old(file.cells), DeriveKey(password, old(file.cells))), profile, persona)
      ensures file.initialSize == old(file.initialSize) && file.retired == old(file.retired)
    {
      hide *;
      CreatesParts(password);
      ghost var cells := file.cells;
      ghost var key := DeriveKey(password, cells);
      ghost var db := NewStore(DiskView(cells, key), profile, persona);
      ok := CreateClosed(password, profile, persona, faults);
      CreatedFacts(cells, key, profile, persona);
      StillOpenedWith(cells, password);
      RoomThen(Loaded(cells, key), container.files, DATA_ALIGNMENT, Encode(db));
      CanSaveIs(container.files, db);
      OpenedIs();
      SavesItself();
      NotStrange(password);
      OpenSize();
      StrangerAfter(cells, password, other);
      OpenedWithFacts(password);
      ghost var made, mid := file.cells, [];
      wrong, mid := OpenProfile(other, faults);
      HeaderCarries(made, file.cells, key, password);
      SavedOpens(password, db);
      StrangeParts(other);
      OpensNow(password, faults, db);
      ok := OpenClosed(password, faults);
      OpenedOnFacts(mid, password, db);
      StrangeNow(other);
    }

    lemma OpenSize()
      requires Valid() && container != null
      ensures file.present && SizeOk(file.cells)
    {
      DeviceFacts();
      hide DecodeSlot, Budget, SavedStore, TargetFile, AllCompatible, OpenBlob;
    }

    lemma SavedOpens(password: Bytes, db: Store)
      requires HasMagic(file.cells) && file.Sound(DeriveKey(password, file.cells))
      requires SavedStore(file.cells, DeriveKey(password, file.cells)) == Some(db) && HasProfile(schema, db)
      ensures file.present && CanOpen(password)
    {
    }

    /** What the writer's key did leaves the other password without files. */
    lemma StrangerAfter(cells: seq<Cell>, password: Bytes, other: Bytes)
      requires HasMagic(cells) && other != password && Loaded(cells, DeriveKey(other, cells)) == []
      requires NothingForeign(cells, file.cells, DeriveKey(password, cells))
      requires file.present && SizeOk(file.cells)
      ensures Strange(other)
    {
      hide HasMagic, Loaded, NothingForeign, DeriveKey;
      DeriveKeyIff(password, cells, other, cells);
      LoadsNothingStill(cells, file.cells, DeriveKey(password, cells), DeriveKey(other, cells));
      PublicPartCarries(cells, file.cells, DeriveKey(password, cells), other);
    }

    /**
     * Creating a profile under a second password leaves the files of a first
     * one as they were exactly when that has none in header slot 0.
     */
    lemma SecondPasswordKeepsIff(cells: seq<Cell>, first: Bytes, second: Bytes, profile: NewRecord, persona: NewRecord)
      requires HEADER_OFFSET <= |cells| && first != second && Loaded(cells, DeriveKey(second, cells)) == []
      requires CreatedOn(cells, DeriveKey(second, cells), profile, persona)
      ensures Loaded(file.cells, DeriveKey(first, cells)) == Loaded(cells, DeriveKey(first, cells))
              <==> DecodeSlot(cells, DeriveKey(first, cells), 0) == None
    {
      hide CreatedOn, DeriveKey, Loaded, DecodeSlot, SameHeaderBut, NothingForeign, TakesFirstSlot, Valid, Opened,
           NewStore, EndOfData, DiskView;
      CreatedFacts(cells, DeriveKey(second, cells), profile, persona);
      DeriveKeyIff(first, cells, second, cells);
      FirstSlotParts(cells, file.cells, DeriveKey(second, cells));
      OtherKeyKeptIff(cells, file.cells, DeriveKey(second, cells), DeriveKey(first, cells), 0);
    }

    /**
     * Two profiles under two passwords in a container that has none yet: both
     * are created, and then the container holds nothing under the first one.
     */
    method CreateTwo(first: Bytes, second: Bytes, profile: NewRecord, persona: NewRecord, other: NewRecord,
                     otherPersona: NewRecord, faults: Faults)
      returns (one: bool, two: bool)
      requires Valid() && Closed() && NoLeaks() && currentProfileId == [] && activePersonaId == []
      requires first != second && Strange(first) && Strange(second) && NoFaults(faults)
      requires var db := NewStore(map[], profile, persona);
               Encodable(db) && RoomAfter([], DATA_ALIGNMENT, Encode(db))
      modifies this, store, file`cells, file`images, file`containers, file`handles, file`initialSize, file`retired
      ensures one && two && Valid() && Opened() && OpenedWith(second) && Strange(first)
    {
      hide *;
      ghost var c, db := file.cells, NewStore(map[], profile, persona);
      StrangeParts(first);
      StrangeParts(second);
      ghost var p, q := DeriveKey(first, c), DeriveKey(second, c);
      NothingShownYet(c, p);
      CreatesNow(first);
      one := CreateAny(first, profile, persona, faults);
      CreatedFacts(c, p, profile, persona);
      RoomThen(Loaded(c, p), container.files, DATA_ALIGNMENT, Encode(db));
      CanSaveIs(container.files, db);
      OpenedIs();
      ReadyToClose();
      OpenSize();
      StrangerAfter(c, first, second);
      ghost var d, closed := file.cells, [];
      OnlyFirstSlot(c, d, p);
      PublicPartCarries(c, d, p, second);
      two, closed := CreateProfile(second, other, otherPersona, faults);
      HeaderCarries(d, closed, p, second);
      HeaderCarries(d, closed, p, first);
      PublicPartCarries(c, d, p, first);
      NothingShownYet(closed, q);
      OwnFileFromNothing();
      CreatedFacts(closed, q, other, otherPersona);
      DeriveKeyIff(first, c, second, c);
      FirstSlotLost(d, closed, file.cells, p, q);
      PublicPartCarries(closed, file.cells, q, first);
      OpenSize();
      StrangeNow(first);
    }

    lemma CreatesNow(password: Bytes)
      requires Strange(password)
      requires DiskView(file.cells, DeriveKey(password, file.cells)) == map[]
      ensures Creates(password)
    {
      hide DiskView, Loaded, Load;
      OwnFileFromNothing();
    }

    lemma ReadyToClose()
      requires Valid() && Opened() && CanSave(container.files, store.db)
      ensures CanClose() && container != null && dbDevice != null
    {
    }

    /** Opening a container whose database file is empty, or cut after its version, fails and writes an empty store. */
    method OpenEmptyStore(password: Bytes, faults: Faults, ghost name: Bytes) returns (ok: bool)
      requires Valid() && Closed() && NoLeaks() && currentProfileId == [] && activePersonaId == []
      requires file.present && HasMagic(file.cells) && CanOpen(password) && NoFaults(faults)
      requires var key := DeriveKey(password, file.cells);
               && TargetFile(NameList(Loaded(file.cells, key))) == Some(name)
               && name in DiskView(file.cells, key) && DiskView(file.cells, key)[name] in {[], [0, 0, 0, 1]}
      modifies this, store, file`cells, file`images, file`containers, file`handles
      ensures !ok && Valid() && Closed() && NoLeaks() && HasMagic(old(file.cells))
      ensures var key := DeriveKey(password, old(file.cells));
              DiskView(file.cells, key) == DiskView(old(file.cells), key)[name := [0, 0, 0, 1, 0, 0, 0, 0]]
    {
      hide *;
      ghost var cells := file.cells;
      ghost var key := DeriveKey(password, cells);
      NotOpened(password, faults, cells, key, name);
      ok := OpenClosed(password, faults);
      ClosedOnKept(cells, key);
      EmptyStoreWritten(cells, file.cells, key, name);
    }

    lemma NotOpened(password: Bytes, faults: Faults, cells: seq<Cell>, key: Key, name: Bytes)
      requires HasMagic(cells) && file.cells == cells && key == DeriveKey(password, cells)
      requires TargetFile(NameList(Loaded(cells, key))) == Some(name)
      requires name in DiskView(cells, key) && DiskView(cells, key)[name] in {[], [0, 0, 0, 1]}
      ensures !Opens(password, faults)
    {
      EmptyStoreBytes();
      hide DiskView, Loaded, Load, TargetFile, NameList, HasMagic;
    }

    lemma ClosedOnKept(cells: seq<Cell>, key: Key)
      requires ClosedOn(cells, key, true)
      ensures Kept(cells, file.cells, key, true)
    {
    }

    lemma CreatesParts(password: Bytes)
      requires Creates(password)
      ensures file.present && HasMagic(file.cells) && HEADER_OFFSET <= |file.cells|
    {
    }

    lemma CanSaveIs(files: seq<FilePointer>, db: Store)
      ensures CanSave(files, db) <==> Encodable(db) && Room(files, Encode(db))
    {
    }

    lemma SavesItself()
      requires Valid() && Opened()
      requires CanSave(container.files, store.db) && HasProfile(schema, store.db)
      ensures CanClose() && CanReopen() && container != null && dbDevice != null
      ensures Load(Pending()) == Some(store.db)
    {
      hide SavedStore, Attached, Encode, Load, Room, HasProfile;
      EncodableIfSaved(container.files, store.db);
    }

    lemma SavesStill(pt: Bytes)
      requires Valid() && container != null && dbDevice != null && !store.isOpen && dbDevice.data == pt
      requires dbDevice.dirty ==> Room(container.files, dbDevice.data)
      requires Load(pt).Some? && HasProfile(schema, Load(pt).value)
      ensures CanClose() && CanReopen() && Pending() == pt
    {
      hide SavedStore, Attached, Load, Room, HasProfile;
    }

    lemma OpensNow(password: Bytes, faults: Faults, db: Store)
      requires NoFaults(faults) && file.present && HasMagic(file.cells)
      requires SavedStore(file.cells, DeriveKey(password, file.cells)) == Some(db) && HasProfile(schema, db)
      ensures Opens(password, faults)
    {
    }

    lemma OpenedOnFacts(cells: seq<Cell>, password: Bytes, db: Store)
      requires HasMagic(cells) && OpenedOn(cells, DeriveKey(password, cells))
      requires SavedStore(cells, DeriveKey(password, cells)) == Some(db)
      ensures Valid() && Opened() && OpenedWith(password) && store.db == db && file.cells == cells
    {
    }
  }

  lemma HeaderCarries(c: seq<Cell>, e: seq<Cell>, key: Key, password: Bytes)
    requires KeepsNames(c, e, key)
    ensures HEADER_OFFSET <= |c| && HEADER_OFFSET <= |e|
    ensures DeriveKey(password, e) == DeriveKey(password, c) && (HasMagic(e) <==> HasMagic(c))
  {
    hide DeriveKey, HasMagic, Loaded, NameList;
    HeaderSame(c, e, password);
  }

  lemma NamesOwn(c: seq<Cell>, e: seq<Cell>, key: Key)
    requires KeepsNames(c, e, key)
    ensures NothingForeign(c, e, key)
  {
    hide Loaded, NameList;
  }

  /** A record about to be stored and its identifier. */
  datatype NewRecord = NewRecord(uid: Bytes, record: Bytes)

  /** The files once the engine's own file is there. */
  function OwnFileView(v: map<Bytes, Bytes>): (w: map<Bytes, Bytes>)
    ensures DB_NAME in w
  {
    if DB_NAME in v then v else v[DB_NAME := []]
  }

  function OwnStore(v: map<Bytes, Bytes>): Store
    requires DB_NAME in v
  {
    match Load(v[DB_NAME])
    case None => map[]
    case Some(db) => db
  }

  /** The engine's own file is there or can be created. */
  predicate HasOwnFile(v: map<Bytes, Bytes>) {
    DB_NAME in v || |v| < SLOT_COUNT
  }

  /** ... and what it holds loads. */
  ghost predicate Creatable(v: map<Bytes, Bytes>) {
    HasOwnFile(v) && Load(OwnFileView(v)[DB_NAME]).Some?
  }

  /** The store a new profile starts with: the records the engine's file held, and the two new ones. */
  ghost function NewStore(v: map<Bytes, Bytes>, profile: NewRecord, persona: NewRecord): Store {
    WithRecords(OwnStore(OwnFileView(v)), profile, persona)
  }

  function WithRecords(db: Store, profile: NewRecord, persona: NewRecord): Store {
    db[PROFILE_KEY := profile.record][PERSONA_PREFIX + persona.uid := persona.record]
  }

  /** Where the engine's own file was the open one, its pending records are those built on. */
  lemma OwnFileKept(v: map<Bytes, Bytes>, pt: Bytes, profile: NewRecord, persona: NewRecord)
    ensures Creatable(v[DB_NAME := pt]) <==> Load(pt).Some?
    ensures Load(pt).Some? ==>
              NewStore(v[DB_NAME := pt], profile, persona) == WithRecords(Load(pt).value, profile, persona)
  {
    hide Load, WithRecords;
    assert OwnFileView(v[DB_NAME := pt])[DB_NAME] == pt;
  }

  lemma NewStoreIs(v: map<Bytes, Bytes>, profile: NewRecord, persona: NewRecord)
    ensures NewStore(v, profile, persona)
         == OwnStore(OwnFileView(v))[PROFILE_KEY := profile.record][PERSONA_PREFIX + persona.uid := persona.record]
  {
  }

  /** Both records are there, each under its own key. */
  lemma NewRecordsStored(v: map<Bytes, Bytes>, profile: NewRecord, persona: NewRecord)
    ensures var db := NewStore(v, profile, persona);
            && PROFILE_KEY in db && db[PROFILE_KEY] == profile.record
            && PERSONA_PREFIX + persona.uid in db && db[PERSONA_PREFIX + persona.uid] == persona.record
  {
    hide OwnStore, OwnFileView;
    assert |PERSONA_PREFIX + persona.uid| >= 2;
  }

  /** The files a failed create leaves: the engine's file is there, empty if it was not before. */
  function LeftView(v: map<Bytes, Bytes>): map<Bytes, Bytes> {
    if HasOwnFile(v) then OwnFileView(v) else v
  }

  /** ... unless it did not get that far. */
  function LeftBehind(v: map<Bytes, Bytes>, faults: HostFaults): map<Bytes, Bytes> {
    if faults.openFails || faults.kdfFails then v else LeftView(v)
  }

  lemma CreatableIs(v: map<Bytes, Bytes>)
    ensures Creatable(v) <==> HasOwnFile(v) && Load(OwnFileView(v)[DB_NAME]).Some?
    ensures var w := OwnFileView(v); Load(w[DB_NAME]).Some? ==> OwnStore(w) == Load(w[DB_NAME]).value
    ensures LeftView(v) == if HasOwnFile(v) then OwnFileView(v) else v
  {
    hide Load;
  }

  lemma ReadWriteFlags()
    ensures READ_WRITE.read && READ_WRITE.write && !READ_WRITE.truncate
  {
  }

  lemma CanCreateRoom(v: map<Bytes, Bytes>, files: seq<FilePointer>)
    requires DB_NAME !in v ==> Room(files, [])
    ensures DB_NAME !in v && CanCreate(files, DB_NAME, READ_WRITE) ==> Room(files, [])
  {
  }

  lemma ResolvedView(c: seq<Cell>, e: seq<Cell>, key: Key, files: seq<FilePointer>, after: seq<FilePointer>,
                     before: seq<seq<Cell>>, images: seq<seq<Cell>>)
    requires Resolved(c, e, key, files, after, before, images, DB_NAME, READ_WRITE) && HEADER_OFFSET <= |c|
    ensures Available(DiskView(c, key), files, DB_NAME, READ_WRITE) ==>
              DiskView(e, key) == OwnFileView(DiskView(c, key))
    ensures NothingForeign(c, e, key)
    ensures EndOfData(after) <= EndOfData(files) + DATA_ALIGNMENT
  {
    ResolvedOwn(c, e, key, files, after, before, images, DB_NAME, READ_WRITE);
    hide DiskView, EndOfData, CanCreate, NothingForeign, DecodeSlot;
  }

  lemma NothingShownYet(cells: seq<Cell>, key: Key)
    requires Loaded(cells, key) == []
    ensures DiskView(cells, key) == map[]
  {
    hide Loaded;
  }

  lemma OwnFileFromNothing()
    ensures Creatable(map[])
  {
    hide Decode;
    assert OwnFileView(map[])[DB_NAME] == [];
  }

  /** A key that had nothing and has taken slot 0 opens that one alone. */
  lemma OnlyFirstSlot(c: seq<Cell>, d: seq<Cell>, key: Key)
    requires Loaded(c, key) == [] && TakesFirstSlot(c, d, key)
    ensures forall i :: 1 <= i < SLOT_COUNT ==> DecodeSlot(d, key, i) == None
  {
    hide DecodeSlot, SameSlotCells;
    LoadedNone(c, key, SLOT_COUNT);
    SameCellsSameSlots(c, d, key, 0);
  }

  /** When another key takes slot 0, that key has nothing left. */
  lemma FirstSlotLost(d: seq<Cell>, c: seq<Cell>, e: seq<Cell>, key: Key, other: Key)
    requires forall i :: 1 <= i < SLOT_COUNT ==> DecodeSlot(d, key, i) == None
    requires KeepsNames(d, c, key) && TakesFirstSlot(c, e, other) && key != other
    ensures Loaded(e, key) == []
  {
    hide DecodeSlot, SameSlotCells, NothingForeign, NameList, Loaded;
    OneKeyOpens(e, other, key, 0);
    SameCellsSameSlots(c, e, key, 0);
    LoadedNone(e, key, SLOT_COUNT);
    assert LoadedUpTo(e, key, SLOT_COUNT) == [];
    LoadedIsAll(e, key);
  }

  lemma LoadedIsAll(cells: seq<Cell>, key: Key)
    ensures Loaded(cells, key) == LoadedUpTo(cells, key, SLOT_COUNT)
  {
  }

  /** The first file of a key goes to slot 0, and no other slot changes. */
  ghost predicate TakesFirstSlot(c: seq<Cell>, e: seq<Cell>, key: Key) {
    TOTAL_HEADER <= |c| && TOTAL_HEADER <= |e| && SameHeaderBut(c, e, 0) && DecodeSlot(e, key, 0).Some?
  }

  lemma FirstSlotParts(c: seq<Cell>, e: seq<Cell>, key: Key)
    requires TakesFirstSlot(c, e, key)
    ensures TOTAL_HEADER <= |c| && TOTAL_HEADER <= |e| && SameHeaderBut(c, e, 0) && DecodeSlot(e, key, 0).Some?
  {
  }

  lemma FirstSlotTaken(c: seq<Cell>, e: seq<Cell>, key: Key, after: seq<FilePointer>, before: seq<seq<Cell>>,
                       images: seq<seq<Cell>>, slot: int, data: Bytes)
    requires Resolved(c, e, key, [], after, before, images, DB_NAME, READ_WRITE)
    requires HandsOut(e, key, after, DB_NAME, READ_WRITE, slot, data)
    ensures TakesFirstSlot(c, e, key)
  {
    hide DiskView, DecodeSlot, SameHeaderBut, EndOfData;
    assert IndexOfSlot([], 0) < 0;
    assert FirstFreeSlotFrom([], 0) == 0;
  }

  lemma NotResolved(c: seq<Cell>, e: seq<Cell>, key: Key, files: seq<FilePointer>, after: seq<FilePointer>,
                    before: seq<seq<Cell>>, images: seq<seq<Cell>>)
    requires Resolved(c, e, key, files, after, before, images, DB_NAME, READ_WRITE)
    requires !Available(DiskView(c, key), files, DB_NAME, READ_WRITE)
    ensures e == c && after == files
  {
  }

  lemma OwnFileTarget(e: seq<Cell>, key: Key, files: seq<FilePointer>, slot: int, data: Bytes)
    requires HandsOut(e, key, files, DB_NAME, READ_WRITE, slot, data)
    ensures TargetFile(NameList(Loaded(e, key))) == Some(DB_NAME) && DB_NAME in DiskView(e, key)
  {
    hide DiskView, Loaded, IndexOfSlot;
    NamesShown(e, key);
  }

  /** Nothing, and a version without a count, load as the empty store, which is written as eight bytes. */
  lemma EmptyStoreBytes()
    ensures Load([]) == Some(map[]) && Load([0, 0, 0, 1]) == Some(map[])
    ensures Encode(map[]) == [0, 0, 0, 1, 0, 0, 0, 0]
  {
    CutToVersion();
    EmptyEncoding();
  }

  lemma EncodableIfSaved(files: seq<FilePointer>, db: Store)
    ensures CanSave(files, db) ==> Encodable(db) && Load(Encode(db)) == Some(db)
  {
    hide Encode, Load, Room, Encodable;
    if Encodable(db) { RoundTrip(db, []); }
  }

  /** Rewriting the database file decides what a fresh open finds. */
  lemma SavedAfter(c: seq<Cell>, e: seq<Cell>, key: Key, name: Bytes, pt: Bytes)
    requires KeepsNames(c, e, key) && TargetFile(NameList(Loaded(c, key))) == Some(name)
    requires DiskView(e, key) == DiskView(c, key)[name := pt]
    ensures SavedStore(e, key) == Load(pt)
  {
    hide Loaded, DiskView, TargetFile, NameList;
  }

  lemma SavedIs(c: seq<Cell>, key: Key, name: Bytes)
    requires TargetFile(NameList(Loaded(c, key))) == Some(name) && name in DiskView(c, key)
    ensures SavedStore(c, key) == Load(DiskView(c, key)[name])
  {
  }

  function ActivePersona(schema: Schema, db: Store, keys: seq<Bytes>, current: Bytes): Bytes {
    if keys == [] then current
    else if keys[0] !in db || schema.persona(db[keys[0]]) == None then ActivePersona(schema, db, keys[1..], current)
    else
      var p := schema.persona(db[keys[0]]).value;
      if p.isDefault then p.uid
      else ActivePersona(schema, db, keys[1..], if current == [] then p.uid else current)
  }

  /** The persona record under a key, where there is one that parses. */
  function PersonaAt(schema: Schema, db: Store, key: Bytes): Option<Persona> {
    if key in db then schema.persona(db[key]) else None
  }

  /**
   * Starting from none, the active persona is that of the least key with a
   * default persona; without one, that of the least key with a readable persona
   * that has an identifier; without that, none.
   */
  lemma ActivePersonaIs(schema: Schema, db: Store, keys: seq<Bytes>)
    ensures Chosen(schema, db, keys, ActivePersona(schema, db, keys, []))
  {
    hide Chosen, ActivePersona, Fits;
    assert keys[0..] == keys;
    ActivePersonaFrom(schema, db, keys, 0, []);
  }

  predicate Chosen(schema: Schema, db: Store, keys: seq<Bytes>, r: Bytes) {
    || ChosenAs(schema, db, keys, r, true)
    || ((forall i :: 0 <= i < |keys| ==> !Fits(schema, db, keys[i], true)) && ChosenSoFar(schema, db, keys, |keys|, r))
  }

  predicate ChosenAs(schema: Schema, db: Store, keys: seq<Bytes>, r: Bytes, asDefault: bool) {
    exists i :: 0 <= i < |keys| && ChosenAt(schema, db, keys, i, asDefault)
                && r == PersonaAt(schema, db, keys[i]).value.uid
  }

  /** The first with an identifier, among the first n keys if need be, or none. */
  predicate ChosenSoFar(schema: Schema, db: Store, keys: seq<Bytes>, n: nat, r: Bytes)
    requires n <= |keys|
  {
    if r == [] then forall i :: 0 <= i < n ==> !Fits(schema, db, keys[i], false)
    else ChosenAs(schema, db, keys, r, false)
  }

  /** A persona that is the default one, or one with an identifier. */
  predicate Fits(schema: Schema, db: Store, key: Bytes, asDefault: bool) {
    var p := PersonaAt(schema, db, key);
    p.Some? && if asDefault then p.value.isDefault else p.value.uid != []
  }

  /** The i-th key is the first that fits. */
  predicate ChosenAt(schema: Schema, db: Store, keys: seq<Bytes>, i: int, asDefault: bool) {
    0 <= i < |keys| && Fits(schema, db, keys[i], asDefault)
    && forall j :: 0 <= j < i ==> !Fits(schema, db, keys[j], asDefault)
  }

  lemma {:induction false} ActivePersonaFrom(schema: Schema, db: Store, keys: seq<Bytes>, n: nat, current: Bytes)
    requires n <= |keys| && forall i :: 0 <= i < n ==> !Fits(schema, db, keys[i], true)
    requires ChosenSoFar(schema, db, keys, n, current)
    ensures Chosen(schema, db, keys, ActivePersona(schema, db, keys[n..], current))
    decreases |keys| - n
  {
    hide Fits, ChosenSoFar, ChosenAs, ChosenAt;
    if n < |keys| {
      assert keys[n..][0] == keys[n] && keys[n..][1..] == keys[n + 1..];
      PersonaFits(schema, db, keys[n]);
      var p := PersonaAt(schema, db, keys[n]);
      if p.Some? && p.value.isDefault {
        DefaultFound(schema, db, keys, n);
      } else {
        ChosenNext(schema, db, keys, n, current);
        ActivePersonaFrom(schema, db, keys, n + 1, if p.Some? && current == [] then p.value.uid else current);
      }
    }
  }

  lemma PersonaFits(schema: Schema, db: Store, key: Bytes)
    ensures var p := PersonaAt(schema, db, key);
            && (Fits(schema, db, key, true) <==> p.Some? && p.value.isDefault)
            && (Fits(schema, db, key, false) <==> p.Some? && p.value.uid != [])
  {
  }

  lemma DefaultFound(schema: Schema, db: Store, keys: seq<Bytes>, n: nat)
    requires n < |keys| && Fits(schema, db, keys[n], true)
    requires forall i :: 0 <= i < n ==> !Fits(schema, db, keys[i], true)
    ensures ChosenAs(schema, db, keys, PersonaAt(schema, db, keys[n]).value.uid, true)
  {
    assert ChosenAt(schema, db, keys, n, true);
  }

  lemma ChosenNext(schema: Schema, db: Store, keys: seq<Bytes>, n: nat, current: Bytes)
    requires n < |keys| && ChosenSoFar(schema, db, keys, n, current)
    ensures var p := PersonaAt(schema, db, keys[n]);
            ChosenSoFar(schema, db, keys, n + 1, if p.Some? && current == [] then p.value.uid else current)
  {
    var p := PersonaAt(schema, db, keys[n]);
    if p.Some? && current == [] && p.value.uid != [] {
      assert ChosenAt(schema, db, keys, n, false);
    }
  }

  /** The database file: the engine's own name where it is listed, else the first name that ends in .dat, else none. */
  lemma {:induction false} TargetFileIs(names: seq<Bytes>)
    ensures DB_NAME == OfText("dbkv-rocksdb.dat")
    ensures OfText("dbkv-rocksdb.dat") in names ==> TargetFile(names) == Some(OfText("dbkv-rocksdb.dat"))
    ensures OfText("dbkv-rocksdb.dat") !in names ==>
              match TargetFile(names)
              case None => forall i :: 0 <= i < |names| ==> !IsDat(names[i])
              case Some(name) =>
                exists i :: 0 <= i < |names| && names[i] == name && IsDat(name)
                          && forall j :: 0 <= j < i ==> !IsDat(names[j])
  {
    var own := OfText("dbkv-rocksdb.dat");
    assert DB_NAME[..8] == own[..8] && DB_NAME[8..] == own[8..] && DB_NAME == DB_NAME[..8] + DB_NAME[8..];
    assert own == own[..8] + own[8..];
    FirstDatIs(names);
  }

  /** Ends in .dat. */
  predicate IsDat(name: Bytes) { |name| >= 4 && name[|name| - 4..] == OfText(".dat") }

  lemma {:induction false} FirstDatIs(names: seq<Bytes>)
    ensures match FirstDat(names)
            case None => forall i :: 0 <= i < |names| ==> !IsDat(names[i])
            case Some(name) =>
              exists i :: 0 <= i < |names| && names[i] == name && IsDat(name)
                          && forall j :: 0 <= j < i ==> !IsDat(names[j])
  {
    hide IsDat, FirstDat;
    assert names[0..] == names;
    FirstDatFrom(names, 0);
  }

  lemma {:induction false} FirstDatFrom(names: seq<Bytes>, n: nat)
    requires n <= |names| && forall j :: 0 <= j < n ==> !IsDat(names[j])
    ensures match FirstDat(names[n..])
            case None => forall i :: 0 <= i < |names| ==> !IsDat(names[i])
            case Some(name) =>
              exists i :: 0 <= i < |names| && names[i] == name && IsDat(name)
                          && forall j :: 0 <= j < i ==> !IsDat(names[j])
    decreases |names| - n
  {
    hide IsDat;
    if n < |names| {
      assert names[n..][0] == names[n] && names[n..][1..] == names[n + 1..];
      IsDatIs(names[n]);
      if !IsDat(names[n]) { FirstDatFrom(names, n + 1); }
    }
  }

  lemma IsDatIs(name: Bytes)
    ensures IsDat(name) <==> EndsWith(name, DAT_SUFFIX)
  {
    assert DAT_SUFFIX == OfText(".dat");
  }

  lemma HeaderFits(cells: seq<Cell>)
    requires SizeOk(cells)
    ensures HEADER_OFFSET <= |cells|
  {
  }

  lemma NamesOfView(cells: seq<Cell>, key: Key, l: seq<FilePointer>)
    ensures forall name :: name in NameList(l) <==> name in View(cells, key, l)
  {
    hide IndexOfName, ReadBlob;
    forall name ensures name in NameList(l) <==> name in View(cells, key, l) {
      NameFound(l, name);
      if name in NameList(l) {
        var k :| 0 <= k < |l| && NameList(l)[k] == name;
        assert l[k].filename == name;
      }
      if name in View(cells, key, l) {
        var k := IndexOfName(l, name);
        assert NameList(l)[k] == name;
      }
    }
  }

  lemma NamesShown(cells: seq<Cell>, key: Key)
    ensures forall name :: name in NameList(Loaded(cells, key)) <==> name in DiskView(cells, key)
  {
    hide Loaded, View;
    NamesOfView(cells, key, Loaded(cells, key));
  }

  lemma NoMembers(s: seq<Bytes>)
    ensures s == [] || exists x :: x in s
  {
    if s != [] { assert s[0] in s; }
  }

  lemma NothingCharged(retired: seq<nat>)
    ensures LedgerOf([], retired).spent == Charge(retired)
  {
    hide Charge;
    assert BlockSizes([]) + retired == retired;
  }

  lemma NothingShown(cells: seq<Cell>, key: Key)
    requires DiskView(cells, key) == map[]
    ensures Loaded(cells, key) == []
  {
    NamesShown(cells, key);
    var l := Loaded(cells, key);
    hide Loaded, DiskView;
    NoMembers(NameList(l));
  }

  lemma NameIsShown(name: Bytes, names: seq<Bytes>)
    requires TargetFile(names) == Some(name)
    ensures name in names
  {
  }

  lemma ExistingResolves(shown: map<Bytes, Bytes>, files: seq<FilePointer>, name: Bytes)
    requires name in shown
    ensures Available(shown, files, name, READ_WRITE) && READ_WRITE.read && READ_WRITE.write && !READ_WRITE.truncate
  {
  }

  lemma ResolvedSame(c: seq<Cell>, e: seq<Cell>, key: Key, files: seq<FilePointer>, after: seq<FilePointer>,
                     before: seq<seq<Cell>>, images: seq<seq<Cell>>, name: Bytes)
    requires Resolved(c, e, key, files, after, before, images, name, READ_WRITE) && name in DiskView(c, key)
    ensures e == c && after == files
  {
  }

  /** The public header, the list of file names and the slots they are in are as before. */
  ghost predicate KeepsNames(c: seq<Cell>, e: seq<Cell>, key: Key) {
    && NothingForeign(c, e, key) && SameSlotsOpen(c, e, key)
    && NameList(Loaded(e, key)) == NameList(Loaded(c, key))
  }

  ghost predicate SameSlotsOpen(c: seq<Cell>, e: seq<Cell>, key: Key) {
    forall i :: 0 <= i < SLOT_COUNT ==> (DecodeSlot(e, key, i).Some? <==> DecodeSlot(c, key, i).Some?)
  }

  lemma SameNames(c: seq<Cell>, key: Key)
    requires HEADER_OFFSET <= |c|
    ensures KeepsNames(c, c, key)
  {
  }

  lemma StoredNames(c: seq<Cell>, e: seq<Cell>, key: Key, files: seq<FilePointer>, after: seq<FilePointer>,
                    before: seq<seq<Cell>>, images: seq<seq<Cell>>, k: int, pt: Bytes)
    requires StoredSafely(c, e, key, files, after, before, images, k, pt)
    requires DecodeSlot(c, key, files[k].slotIndex) == BySlot(files, files[k].slotIndex)
    ensures KeepsNames(c, e, key) && 0 <= k < |files|
    ensures DiskView(e, key) == DiskView(c, key)[files[k].filename := pt]
    ensures EndOfData(after) <= EndOfData(files) + PowerOfTwo.NextPowerOf2(BLOB_OVERHEAD + |pt|)
  {
    StoredOwn(c, e, key, files, after, before, images, k, pt);
    StoredSlots(c, e, key, files, after, k, pt);
    hide SameSlotsOpen, DecodeSlot;
    hide Loaded, DiskView, NameList, CrashImages, Consistent, EndOfData, NothingForeign, SameHeaderBut;
  }

  /** A store leaves the same slots open. */
  lemma StoredSlots(c: seq<Cell>, e: seq<Cell>, key: Key, files: seq<FilePointer>, after: seq<FilePointer>, k: nat,
                    pt: Bytes)
    requires k < |files| && Stored(c, e, key, files, after, k, pt)
    requires DecodeSlot(c, key, files[k].slotIndex) == BySlot(files, files[k].slotIndex)
    ensures SameSlotsOpen(c, e, key)
  {
    hide DecodeSlot, DiskView, EndOfData, NameList, Loaded, Placed, OpenBlob, AllCompatible, SameSlotCells;
    var slot := files[k].slotIndex;
    assert BySlot(files, slot).Some? && BySlot(after, slot).Some?;
    SameCellsSameSlots(c, e, key, slot);
  }
}
