/** Cascading deletes: which records go when a persona or a group does. */
module Cascade {
  import opened Bytes
  import opened DeviceStream
  import opened Keys
  import Rocks = RocksDBStore
  import P = Profile
  import Aead
  import FilePointerCodec
  import Vfs

  // ------------------------------------------------------------------
  // The records that go, by key prefix
  // ------------------------------------------------------------------

  function Under(db: Store, prefix: Bytes): set<Bytes> {
    set k | k in db && prefix <= k
  }

  /** The membership records of a stored group, if its record parses. */
  function Members(s: P.Schema, db: Store, groupKey: Bytes): set<Bytes> {
    if groupKey in db && s.groupUid(db[groupKey]).Some?
    then Under(db, EntityScan(GroupMember, [s.groupUid(db[groupKey]).value])) else {}
  }

  /** The first n groups of a listing with their memberships. */
  function GroupRecords(s: P.Schema, db: Store, keys: seq<Bytes>, n: nat): (r: set<Bytes>)
    requires n <= |keys|
  {
    if n == 0 then {} else GroupRecords(s, db, keys, n - 1) + Members(s, db, keys[n - 1]) + {keys[n - 1]}
  }

  function Owned(db: Store, p: Bytes): set<Bytes> {
    Under(db, EntityScan(Contact, [p])) + Under(db, EntityScan(Message, [p])) + Under(db, EntityScan(Event, [p]))
    + {FullKey(Persona, [p])}
  }

  function PersonaRecords(s: P.Schema, db: Store, p: Bytes): set<Bytes> {
    var groups := Rocks.KeysWith(db, EntityScan(Group, [p]));
    Owned(db, p) + GroupRecords(s, db, groups, |groups|)
  }

  // ------------------------------------------------------------------
  // The loops
  // ------------------------------------------------------------------

  /** Deletes every listed key. */
  method RemoveKeys(store: Rocks.RocksDBStore, keys: seq<Bytes>)
    requires store.isOpen
    modifies store`db
    ensures store.db == old(store.db) - (set k | k in keys)
  {
    for i := 0 to |keys|
      invariant store.db == old(store.db) - (set k | k in keys[..i])
    {
      var removed := store.Remove(keys[i]);
      assert keys[..i + 1] == keys[..i] + [keys[i]];
    }
    assert keys[..|keys|] == keys;
  }

  /** Lists the keys under a prefix and deletes them. */
  method RemoveUnder(store: Rocks.RocksDBStore, prefix: Bytes)
    requires store.isOpen
    modifies store`db
    ensures store.db == old(store.db) - Under(old(store.db), prefix)
  {
    hide Rocks.KeysWith;
    var keys := store.ListKeys(prefix);
    RemoveKeys(store, keys);
    assert (set k | k in keys) == Under(old(store.db), prefix);
  }

  /** Each group's memberships, then the group itself. */
  method RemoveGroups(store: Rocks.RocksDBStore, schema: P.Schema, p: Bytes, ghost db: Store, ghost gone: set<Bytes>)
    requires store.isOpen && store.db == db - gone
    requires forall k :: k in gone ==> !(EntityScan(Group, [p]) <= k)
    modifies store`db
    ensures var groups := Rocks.KeysWith(db, EntityScan(Group, [p]));
            store.db == db - (gone + GroupRecords(schema, db, groups, |groups|))
  {
    hide *;
    var groupKeys := store.ListKeys(EntityScan(Group, [p]));
    SameListing(db, gone, EntityScan(Group, [p]));
    SortedDistinct(groupKeys);
    ghost var removed := gone;
    NoGroupRecords(schema, db, groupKeys, gone);
    for i := 0 to |groupKeys|
      invariant store.db == db - removed && removed == gone + GroupRecords(schema, db, groupKeys, i)
    {
      StillListed(schema, db, p, gone, groupKeys, i);
      RemoveGroup(store, schema, groupKeys[i], db, removed);
      GroupRecordsStep(schema, db, groupKeys, i);
      removed := removed + Members(schema, db, groupKeys[i]) + {groupKeys[i]};
    }
  }

  /** A group's memberships, if its record parses, then its record. */
  method RemoveGroup(store: Rocks.RocksDBStore, schema: P.Schema, groupKey: Bytes, ghost db: Store,
                     ghost removed: set<Bytes>)
    requires store.isOpen && store.db == db - removed && groupKey in db && groupKey !in removed
    modifies store`db
    ensures store.db == db - (removed + Members(schema, db, groupKey) + {groupKey})
  {
    hide *;
    var record := store.Get(groupKey);
    MembersOf(schema, db, groupKey);
    ghost var gone := removed + Members(schema, db, groupKey);
    if record.Some? && schema.groupUid(record.value).Some? {
      var prefix := EntityScan(GroupMember, [schema.groupUid(record.value).value]);
      UnderRest(db, removed, prefix);
      RemoveUnder(store, prefix);
    }
    GoneTogether(db, gone, {groupKey});
    var deleted := store.Remove(groupKey);
  }

  lemma NoGroupRecords(s: P.Schema, db: Store, keys: seq<Bytes>, gone: set<Bytes>)
    ensures GroupRecords(s, db, keys, 0) == {} && gone + {} == gone
  {
  }

  lemma GroupRecordsStep(s: P.Schema, db: Store, keys: seq<Bytes>, i: nat)
    requires i < |keys|
    ensures GroupRecords(s, db, keys, i + 1) == GroupRecords(s, db, keys, i) + Members(s, db, keys[i]) + {keys[i]}
  {
  }

  lemma MembersOf(s: P.Schema, db: Store, k: Bytes)
    ensures Members(s, db, k) == if k in db && s.groupUid(db[k]).Some?
                                 then Under(db, EntityScan(GroupMember, [s.groupUid(db[k]).value])) else {}
  {
  }

  /** What is left of a prefix once some keys are gone makes, with them, all of it. */
  lemma UnderRest(db: Store, gone: set<Bytes>, prefix: Bytes)
    ensures gone + Under(db - gone, prefix) == gone + Under(db, prefix)
    ensures db - gone - Under(db - gone, prefix) == db - (gone + Under(db, prefix))
  {
  }

  /** Deleting keys outside a prefix does not change its listing. */
  lemma SameListing(db: Store, gone: set<Bytes>, prefix: Bytes)
    requires forall k :: k in gone ==> !(prefix <= k)
    ensures Rocks.KeysWith(db - gone, prefix) == Rocks.KeysWith(db, prefix)
  {
    hide Rocks.KeysWith, ByteOrder.Less;
    ByteOrder.SortedUnique(Rocks.KeysWith(db - gone, prefix), Rocks.KeysWith(db, prefix));
  }

  lemma SortedDistinct(keys: seq<Bytes>)
    requires ByteOrder.Sorted(keys)
    ensures forall i, j :: 0 <= i < j < |keys| ==> keys[i] != keys[j]
  {
    hide ByteOrder.Less;
    forall i, j | 0 <= i < j < |keys| ensures keys[i] != keys[j] {
      ByteOrder.LessIrreflexive(keys[i]);
    }
  }

  /** A group comes up in the loop with the record it had at the start. */
  lemma {:induction false} StillListed(s: P.Schema, db: Store, p: Bytes, gone: set<Bytes>, keys: seq<Bytes>, i: nat)
    requires i < |keys| && keys == Rocks.KeysWith(db, EntityScan(Group, [p]))
    requires forall a, b :: 0 <= a < b < |keys| ==> keys[a] != keys[b]
    requires forall k :: k in gone ==> !(EntityScan(Group, [p]) <= k)
    ensures keys[i] in db && keys[i] !in gone + GroupRecords(s, db, keys, i)
  {
    hide Rocks.KeysWith, EntityScan, Members, GroupRecords;
    assert keys[i] in keys;
    NotAmongEarlier(s, db, p, keys, i, i);
  }

  lemma {:induction false} NotAmongEarlier(s: P.Schema, db: Store, p: Bytes, keys: seq<Bytes>, i: nat, n: nat)
    requires n <= i < |keys| && EntityScan(Group, [p]) <= keys[i]
    requires forall a, b :: 0 <= a < b < |keys| ==> keys[a] != keys[b]
    ensures keys[i] !in GroupRecords(s, db, keys, n)
  {
    hide EntityScan, KeyPrefix;
    if n > 0 {
      NotAmongEarlier(s, db, p, keys, i, n - 1);
      var g := keys[n - 1];
      if g in db && s.groupUid(db[g]).Some? {
        ScansApart(Group, [p], GroupMember, [s.groupUid(db[g]).value], keys[i]);
      }
    }
  }

  /** The store part of deletePersona. */
  method RemovePersona(store: Rocks.RocksDBStore, schema: P.Schema, personaId: Bytes)
    requires store.isOpen
    modifies store`db
    ensures store.db == old(store.db) - PersonaRecords(schema, old(store.db), personaId)
  {
    hide *;
    ghost var db := store.db;
    ghost var groups := Rocks.KeysWith(db, EntityScan(Group, [personaId]));
    RemoveUnder(store, EntityScan(Contact, [personaId]));
    ghost var gone := Under(db, EntityScan(Contact, [personaId]));
    NoGroupsUnder(db, Contact, personaId);
    RemoveGroups(store, schema, personaId, db, gone);
    gone := gone + GroupRecords(schema, db, groups, |groups|);
    UnderRest(db, gone, EntityScan(Message, [personaId]));
    RemoveUnder(store, EntityScan(Message, [personaId]));
    gone := gone + Under(db, EntityScan(Message, [personaId]));
    UnderRest(db, gone, EntityScan(Event, [personaId]));
    RemoveUnder(store, EntityScan(Event, [personaId]));
    gone := gone + Under(db, EntityScan(Event, [personaId]));
    GoneTogether(db, gone, {FullKey(Persona, [personaId])});
    var ok := store.Remove(FullKey(Persona, [personaId]));
    gone := gone + {FullKey(Persona, [personaId])};
    PersonaRecordsAre(schema, db, personaId);
  }

  lemma GoneTogether(db: Store, a: set<Bytes>, b: set<Bytes>)
    ensures db - a - b == db - (a + b)
  {
  }

  lemma NoGroupsUnder(db: Store, e: Entity, p: Bytes)
    requires e != Group
    ensures forall k :: k in Under(db, EntityScan(e, [p])) ==> !(EntityScan(Group, [p]) <= k)
  {
    hide EntityScan, KeyPrefix;
    forall k | k in Under(db, EntityScan(e, [p])) ensures !(EntityScan(Group, [p]) <= k) {
      ScansApart(e, [p], Group, [p], k);
    }
  }

  lemma PersonaRecordsAre(s: P.Schema, db: Store, p: Bytes)
    ensures var groups := Rocks.KeysWith(db, EntityScan(Group, [p]));
            PersonaRecords(s, db, p)
            == Under(db, EntityScan(Contact, [p])) + GroupRecords(s, db, groups, |groups|)
               + Under(db, EntityScan(Message, [p]))
               + Under(db, EntityScan(Event, [p])) + {FullKey(Persona, [p])}
  {
    hide EntityScan, FullKey, GroupRecords, Rocks.KeysWith;
  }

  // ------------------------------------------------------------------
  // The operations of the core
  // ------------------------------------------------------------------

  /** The device of an open profile takes the store's stream. */
  method FlushProfile(core: P.Core)
    requires core.Attached() && core.store.Valid() && core.store.isOpen && core.store.device == core.dbDevice
    modifies core.dbDevice`data, core.dbDevice`pos, core.dbDevice`dirty
    ensures core.Valid() && core.Opened() && core.dbDevice.data == Encode(core.store.db)
  {
    hide *;
    DeviceWritable(core);
    core.store.Flush();
    core.ReassembleOpened();
    core.OpenedIs();
  }

  lemma DeviceWritable(core: P.Core)
    requires core.Attached() && core.store.device == core.dbDevice
    ensures core.container != null && core.dbDevice != null && core.store.Devices() == {core.dbDevice}
    ensures core.dbDevice.isOpen && core.dbDevice.mode.write
  {
  }

  /** An open profile is ready for records to be removed and flushed. */
  lemma OpenParts(core: P.Core)
    requires core.Valid() && core.Opened()
    ensures core.container != null && core.dbDevice != null && core.store.isOpen
    ensures core.Attached() && core.store.Valid() && core.store.device == core.dbDevice && !core.dbDevice.freed
  {
  }

  lemma StillValid(store: Rocks.RocksDBStore)
    requires store.isOpen && store.device != null && !store.device.freed
    ensures store.Valid()
  {
  }

  /** deletePersona: the persona, what it owns, and the memberships of its groups; nothing else. */
  method DeletePersona(core: P.Core, personaId: Bytes) returns (ok: bool)
    requires core.Valid()
    modifies core.store`db, (if core.dbDevice == null then {} else {core.dbDevice})`data
    modifies (if core.dbDevice == null then {} else {core.dbDevice})`pos
    modifies (if core.dbDevice == null then {} else {core.dbDevice})`dirty
    ensures core.Valid() && (ok <==> old(core.Opened()))
    ensures core.store.db == if ok then old(core.store.db) - PersonaRecords(core.schema, old(core.store.db), personaId)
                             else old(core.store.db)
    ensures ok ==> core.Opened() && core.dbDevice.data == Encode(core.store.db)
    ensures ok ==> P.PERSONA_PREFIX + personaId !in core.store.db
  {
    hide *;
    core.OpenedIs();
    if core.container == null || core.dbDevice == null || !core.store.isOpen { return false; }
    OpenParts(core);
    PersonaStoredAt(core.schema, core.store.db, personaId);
    RemovePersona(core.store, core.schema, personaId);
    StillValid(core.store);
    FlushProfile(core);
    ok := true;
  }

  /** What createProfile stores the default persona under is what deletePersona removes; the profile record stays. */
  lemma PersonaStoredAt(s: P.Schema, db: Store, uid: Bytes)
    ensures P.PERSONA_PREFIX + uid in PersonaRecords(s, db, uid)
    ensures P.PROFILE_KEY == OfText("p") == FullKey(Profile, []) && P.PROFILE_KEY !in PersonaRecords(s, db, uid)
  {
    hide EntityScan, FullKey, GroupRecords, Rocks.KeysWith, OfText;
    KeyTexts(uid, [], []);
    ProfileTexts();
    var groups := Rocks.KeysWith(db, EntityScan(Group, [uid]));
    NotUnder(db, Contact, uid);
    NotUnder(db, Message, uid);
    NotUnder(db, Event, uid);
    assert forall i :: 0 <= i < |groups| ==> groups[i] in groups;
    ProfileNoGroup(s, db, uid, groups, |groups|);
  }

  lemma ProfileTexts()
    ensures P.PROFILE_KEY == OfText("p") && P.PERSONA_PREFIX == OfText("a/")
  {
  }

  /** A scan meets only keys that have a slash. */
  lemma NotUnder(db: Store, e: Entity, x: Bytes)
    ensures P.PROFILE_KEY !in Under(db, EntityScan(e, [x]))
    ensures !(EntityScan(e, [x]) <= P.PROFILE_KEY)
  {
    hide EntityScan, KeyPrefix;
    ScanStarts(e, [x], P.PROFILE_KEY);
    assert Split(P.PROFILE_KEY[1..]) == [[]];
  }

  lemma {:induction false} ProfileNoGroup(s: P.Schema, db: Store, p: Bytes, keys: seq<Bytes>, n: nat)
    requires n <= |keys| && forall i :: 0 <= i < |keys| ==> EntityScan(Group, [p]) <= keys[i]
    ensures P.PROFILE_KEY !in GroupRecords(s, db, keys, n)
  {
    hide EntityScan;
    if n > 0 {
      ProfileNoGroup(s, db, p, keys, n - 1);
      NotUnder(db, Group, p);
      var g := keys[n - 1];
      if g in db && s.groupUid(db[g]).Some? { NotUnder(db, GroupMember, s.groupUid(db[g]).value); }
    }
  }

  /** The persona createProfile made can be deleted again: its record goes, the profile's stays. */
  method CreateThenDelete(core: P.Core, password: Bytes, profile: P.NewRecord, persona: P.NewRecord, faults: P.Faults)
    returns (created: bool, deleted: bool)
    requires core.Valid() && core.CanClose() && core.NoLeaks()
    requires core.Strange(password)
             || if core.container == null then core.CanCreateIn(password)
                else core.OpenedWith(password) && core.CanCreateNext()
    modifies core, core.store, core.file`cells, core.file`images, core.file`containers, core.file`handles
    modifies core.file`initialSize, core.file`retired
    modifies (if core.container == null then {} else {core.container})
    modifies (if core.dbDevice == null then {} else {core.dbDevice})
    ensures core.Valid() && deleted == created && (created ==> core.Opened())
    ensures created ==>
              && P.PERSONA_PREFIX + persona.uid !in core.store.db
              && P.PROFILE_KEY in core.store.db && core.store.db[P.PROFILE_KEY] == profile.record
  {
    hide *;
    ghost var closed;
    deleted := false;
    created, closed := core.CreateProfile(password, profile, persona, faults);
    if created {
      PersonaStoredAt(core.schema, core.store.db, persona.uid);
      OpenNow(core, closed, password, profile, persona);
      deleted := DeletePersona(core, persona.uid);
    }
  }

  lemma OpenNow(core: P.Core, cells: seq<Aead.Cell>, password: Bytes, profile: P.NewRecord, persona: P.NewRecord)
    requires FilePointerCodec.HEADER_OFFSET <= |cells|
    requires core.CreatedOn(cells, Vfs.DeriveKey(password, cells), profile, persona)
    ensures core.Valid() && core.Opened()
  {
    core.CreatedFacts(cells, Vfs.DeriveKey(password, cells), profile, persona);
  }

  function GroupAndMembers(db: Store, persona: Bytes, groupId: Bytes): set<Bytes> {
    Under(db, EntityScan(GroupMember, [groupId])) + {FullKey(Group, [persona, groupId])}
  }

  /** deleteGroup: the active persona's group of that id, and the memberships of any group of that id. */
  method DeleteGroup(core: P.Core, groupId: Bytes) returns (ok: bool)
    requires core.Valid()
    modifies core.store`db, (if core.dbDevice == null then {} else {core.dbDevice})`data
    modifies (if core.dbDevice == null then {} else {core.dbDevice})`pos
    modifies (if core.dbDevice == null then {} else {core.dbDevice})`dirty
    ensures core.Valid() && (ok <==> old(core.Opened()) && core.activePersonaId != [])
    ensures core.store.db
         == if ok then old(core.store.db) - GroupAndMembers(old(core.store.db), core.activePersonaId, groupId)
                             else old(core.store.db)
    ensures ok ==> core.Opened() && core.dbDevice.data == Encode(core.store.db)
  {
    hide *;
    core.OpenedIs();
    if core.container == null || core.dbDevice == null || !core.store.isOpen || core.activePersonaId == [] {
      return false;
    }
    OpenParts(core);
    RemoveUnder(core.store, EntityScan(GroupMember, [groupId]));
    ok := core.store.Remove(FullKey(Group, [core.activePersonaId, groupId]));
    GroupRecordsAre(old(core.store.db), core.activePersonaId, groupId);
    StillValid(core.store);
    FlushProfile(core);
  }

  lemma GroupRecordsAre(db: Store, persona: Bytes, groupId: Bytes)
    ensures db - GroupAndMembers(db, persona, groupId)
         == db - Under(db, EntityScan(GroupMember, [groupId])) - {FullKey(Group, [persona, groupId])}
  {
    hide EntityScan, FullKey;
  }

  /** Deleting by id takes a group exactly when it is the active persona's, and its memberships in any case. */
  lemma GroupGoesIffOwned(db: Store, persona: Bytes, owner: Bytes, groupId: Bytes)
    requires SlashFree(persona) && SlashFree(owner) && SlashFree(groupId)
    ensures var gone := GroupAndMembers(db, persona, groupId);
            && (FullKey(Group, [owner, groupId]) in gone <==> persona == owner)
            && Under(db - gone, EntityScan(GroupMember, [groupId])) == {}
  {
    hide EntityScan, FullKey;
    FullKeyInjective(Group, [owner, groupId], Group, [persona, groupId]);
    assert persona != owner ==> [owner, groupId][0] != [persona, groupId][0];
    ScanSelects(GroupMember, [groupId], Group, [owner, groupId]);
  }

  // ------------------------------------------------------------------
  // The same, by key segments
  // ------------------------------------------------------------------

  /** Every group record under a persona is where storing it puts it: its key ends in its own identifier. */
  ghost predicate GroupsFiled(s: P.Schema, db: Store, p: Bytes) {
    forall k :: k in db && EntityScan(Group, [p]) <= k ==>
      && s.groupUid(db[k]).Some? && SlashFree(s.groupUid(db[k]).value)
      && k == FullKey(Group, [p, s.groupUid(db[k]).value])
  }

  /** Storing a record of any entity under its own key keeps the groups of every persona filed. */
  lemma PutKeepsGroupsFiled(s: P.Schema, db: Store, p: Bytes, e: Entity, ids: seq<Bytes>, value: Bytes)
    requires GroupsFiled(s, db, p) && SlashFree(p) && AllSlashFree(ids)
    requires e == Group ==> |ids| == 2 && s.groupUid(value) == Some(ids[1])
    ensures GroupsFiled(s, db[FullKey(e, ids) := value], p)
  {
    hide FullKey, EntityScan;
    ScanSelects(Group, [p], e, ids);
    if EntityScan(Group, [p]) <= FullKey(e, ids) {
      assert ids[..1][0] == ids[0] && [p][0] == p;
      assert ids == [p, ids[1]];
    }
  }

  /** What the store lists for the first fields of an entity: its keys with those segments and more, in byte order. */
  lemma ScanListing(db: Store, e: Entity, ids: seq<Bytes>)
    requires AllSlashFree(ids)
    ensures var keys := Rocks.KeysWith(db, EntityScan(e, ids));
            && ByteOrder.Sorted(keys)
            && forall k :: k in keys <==> k in db && Extends(k, [KeyPrefix(e)] + ids)
  {
    hide Rocks.KeysWith, Extends, ByteOrder.Less, KeyPrefix;
    forall k ensures EntityScan(e, ids) <= k <==> Extends(k, [KeyPrefix(e)] + ids) {
      PrefixSelects([KeyPrefix(e)] + ids, k);
    }
  }

  /**
   * The keys deletePersona is to remove, by their segments: the persona, its
   * contacts, groups, messages and events, and the members of its groups.
   */
  predicate BelongsTo(db: Store, p: Bytes, k: Bytes) {
    var xs := Split(k);
    || xs == [OfText("a"), p]
    || (|xs| > 2 && xs[1] == p && xs[0] in {OfText("c"), OfText("g"), OfText("m"), OfText("e")})
    || (|xs| > 2 && xs[0] == OfText("gm") && OfText("g/") + p + OfText("/") + xs[1] in db)
  }

  lemma UnderSegments(db: Store, e: Entity, id: Bytes, k: Bytes)
    requires SlashFree(id)
    ensures k in Under(db, EntityScan(e, [id]))
            <==> k in db && |Split(k)| > 2 && Split(k)[0] == KeyPrefix(e) && Split(k)[1] == id
  {
    hide Split, KeyPrefix;
    PrefixSelects([KeyPrefix(e), id], k);
    assert [KeyPrefix(e)] + [id] == [KeyPrefix(e), id];
    assert |Split(k)| > 2 ==> Split(k)[..2] == [Split(k)[0], Split(k)[1]];
  }

  lemma PersonaKeySegments(p: Bytes, k: Bytes)
    requires SlashFree(p)
    ensures k == FullKey(Persona, [p]) <==> Split(k) == [KeyPrefix(Persona), p]
  {
    hide Split, KeyPrefix;
    var xs := [KeyPrefix(Persona), p];
    assert [KeyPrefix(Persona)] + [p] == xs;
    SplitJoin(xs);
    JoinSplit(k);
  }

  lemma {:induction false} GroupRecordsFrom(s: P.Schema, db: Store, keys: seq<Bytes>, n: nat, k: Bytes)
    requires n <= |keys|
    ensures k in GroupRecords(s, db, keys, n)
            <==> exists j :: 0 <= j < n && (k == keys[j] || k in Members(s, db, keys[j]))
  {
    hide Members;
    if n > 0 { GroupRecordsFrom(s, db, keys, n - 1, k); }
  }

  /** With groups filed by their own identifiers, the group part of the cascade by segments. */
  lemma GroupPart(s: P.Schema, db: Store, p: Bytes, k: Bytes)
    requires SlashFree(p) && GroupsFiled(s, db, p)
    ensures var groups := Rocks.KeysWith(db, EntityScan(Group, [p]));
            k in db ==>
            (k in GroupRecords(s, db, groups, |groups|) <==>
             || (|Split(k)| > 2 && Split(k)[0] == KeyPrefix(Group) && Split(k)[1] == p)
             || (|Split(k)| > 2 && Split(k)[0] == KeyPrefix(GroupMember) && FullKey(Group, [p, Split(k)[1]]) in db))
  {
    hide Split, KeyPrefix, FullKey, EntityScan, Rocks.KeysWith, GroupRecords;
    var groups := Rocks.KeysWith(db, EntityScan(Group, [p]));
    GroupRecordsFrom(s, db, groups, |groups|, k);
    UnderSegments(db, Group, p, k);
    if k in db {
      if exists j :: 0 <= j < |groups| && (k == groups[j] || k in Members(s, db, groups[j])) {
        var j :| 0 <= j < |groups| && (k == groups[j] || k in Members(s, db, groups[j]));
        assert groups[j] in groups;
        if k != groups[j] { UnderSegments(db, GroupMember, s.groupUid(db[groups[j]]).value, k); }
      }
      if |Split(k)| > 2 && Split(k)[0] == KeyPrefix(GroupMember) && FullKey(Group, [p, Split(k)[1]]) in db {
        MemberFound(s, db, p, k);
      }
    }
  }

  lemma MemberFound(s: P.Schema, db: Store, p: Bytes, k: Bytes)
    requires SlashFree(p) && GroupsFiled(s, db, p) && k in db
    requires |Split(k)| > 2 && Split(k)[0] == KeyPrefix(GroupMember) && FullKey(Group, [p, Split(k)[1]]) in db
    ensures var groups := Rocks.KeysWith(db, EntityScan(Group, [p]));
            exists j :: 0 <= j < |groups| && k in Members(s, db, groups[j])
  {
    hide Split, KeyPrefix, EntityScan, Rocks.KeysWith, FullKey;
    var x := Split(k)[1];
    var g := FullKey(Group, [p, x]);
    var groups := Rocks.KeysWith(db, EntityScan(Group, [p]));
    ScanSelects(Group, [p], Group, [p, x]);
    assert [p, x][..1] == [p];
    assert g in groups;
    var j :| 0 <= j < |groups| && groups[j] == g;
    FullKeyInjective(Group, [p, x], Group, [p, s.groupUid(db[g]).value]);
    assert [p, x][1] == [p, s.groupUid(db[g]).value][1];
    UnderSegments(db, GroupMember, x, k);
  }

  /** deletePersona removes exactly the records of the persona and the memberships of its groups. */
  lemma PersonaRecordsExact(s: P.Schema, db: Store, p: Bytes)
    requires SlashFree(p) && GroupsFiled(s, db, p)
    ensures forall k :: k in db ==> (k in PersonaRecords(s, db, p) <==> BelongsTo(db, p, k))
  {
    hide *;
    forall k | k in db ensures k in PersonaRecords(s, db, p) <==> BelongsTo(db, p, k) {
      GroupPart(s, db, p, k);
      UnderSegments(db, Contact, p, k);
      UnderSegments(db, Message, p, k);
      UnderSegments(db, Event, p, k);
      PersonaKeySegments(p, k);
      PersonaRecordsAre(s, db, p);
      BelongsIff(db, p, k);
    }
  }

  lemma BelongsIff(db: Store, p: Bytes, k: Bytes)
    ensures BelongsTo(db, p, k) <==>
            var xs := Split(k);
            || xs == [KeyPrefix(Persona), p]
            || (|xs| > 2 && xs[0] == KeyPrefix(Contact) && xs[1] == p)
            || (|xs| > 2 && xs[0] == KeyPrefix(Group) && xs[1] == p)
            || (|xs| > 2 && xs[0] == KeyPrefix(Message) && xs[1] == p)
            || (|xs| > 2 && xs[0] == KeyPrefix(Event) && xs[1] == p)
            || (|xs| > 2 && xs[0] == KeyPrefix(GroupMember) && FullKey(Group, [p, xs[1]]) in db)
  {
    hide Split, KeyPrefix, FullKey;
    PrefixTexts();
    KeyTexts(p, if |Split(k)| > 1 then Split(k)[1] else [], []);
  }

  /** deleteGroup removes exactly the group's record and the records of its members. */
  lemma GroupRecordsExact(db: Store, p: Bytes, g: Bytes)
    requires SlashFree(p) && SlashFree(g)
    ensures forall k :: k in db ==>
      (k in GroupAndMembers(db, p, g) <==>
       var xs := Split(k);
       || xs == [OfText("g"), p, g]
       || (|xs| > 2 && xs[0] == OfText("gm") && xs[1] == g))
  {
    hide Split, KeyPrefix, FullKey, EntityScan;
    PrefixTexts();
    forall k | k in db
      ensures k in GroupAndMembers(db, p, g) <==>
              Split(k) == [OfText("g"), p, g] || (|Split(k)| > 2 && Split(k)[0] == OfText("gm") && Split(k)[1] == g) {
      UnderSegments(db, GroupMember, g, k);
      GroupKeySegments(p, g, k);
    }
  }

  lemma GroupKeySegments(p: Bytes, g: Bytes, k: Bytes)
    requires SlashFree(p) && SlashFree(g)
    ensures k == FullKey(Group, [p, g]) <==> Split(k) == [KeyPrefix(Group), p, g]
  {
    hide Split, KeyPrefix;
    var xs := [KeyPrefix(Group), p, g];
    assert [KeyPrefix(Group)] + [p, g] == xs;
    SplitJoin(xs);
    JoinSplit(k);
  }
}
