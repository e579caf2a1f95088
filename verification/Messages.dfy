/** Messages: stored under time-ordered keys, listed newest first, found and deleted by identifier. */
module Messages {
  import opened Sequences
  import opened Bytes
  import opened ByteOrder
  import opened DeviceStream
  import opened Keys
  import opened IsoTime
  import Rocks = RocksDBStore
  import P = Profile
  import C = Cascade

  function Scan(persona: Bytes): Bytes { EntityScan(Message, [persona]) }

  /** Where storing puts a message. */
  function MessageKey(persona: Bytes, m: P.Message): Bytes
    requires InRange(m.seconds)
  {
    FullKey(Message, [persona, IsoKey(m.seconds), m.uid])
  }

  // ------------------------------------------------------------------
  // The operations
  // ------------------------------------------------------------------

  /**
   * storeMessage; `valid` is the outcome of validation, `value` the record's
   * bytes.  `time` is the text of the creation time: its ISO form for the years
   * 0001 to 9999, anything beyond them.
   */
  method StoreMessage(core: P.Core, persona: Bytes, m: P.Message, time: Bytes, value: Bytes, valid: bool)
    returns (ok: bool)
    requires core.Valid() && (InRange(m.seconds) ==> time == IsoKey(m.seconds))
    modifies core.store`db, (if core.dbDevice == null then {} else {core.dbDevice})`data
    modifies (if core.dbDevice == null then {} else {core.dbDevice})`pos
    modifies (if core.dbDevice == null then {} else {core.dbDevice})`dirty
    ensures core.Valid() && (ok <==> old(core.Opened()) && m.uid != [] && persona != [] && valid)
    ensures core.store.db == if ok then old(core.store.db)[FullKey(Message, [persona, time, m.uid]) := value]
                             else old(core.store.db)
    ensures InRange(m.seconds) ==> FullKey(Message, [persona, time, m.uid]) == MessageKey(persona, m)
    ensures ok ==> core.Opened() && core.dbDevice.data == Encode(core.store.db)
  {
    hide *;
    core.OpenedIs();
    if InRange(m.seconds) { KeyOf(persona, m); }
    if core.container == null || core.dbDevice == null || !core.store.isOpen { return false; }
    if m.uid == [] || persona == [] || !valid { return false; }
    C.OpenParts(core);
    ok := core.store.Put(FullKey(Message, [persona, time, m.uid]), value);
    C.StillValid(core.store);
    C.FlushProfile(core);
  }

  lemma KeyOf(persona: Bytes, m: P.Message)
    requires InRange(m.seconds)
    ensures MessageKey(persona, m) == FullKey(Message, [persona, IsoKey(m.seconds), m.uid])
  {
  }

  /** The records of listed keys that parse, in order. */
  function Decoded(s: P.Schema, db: Store, keys: seq<Bytes>): seq<P.Message> {
    if keys == [] then []
    else
      var rest := Decoded(s, db, keys[1..]);
      if keys[0] in db && s.message(db[keys[0]]).Some? then [s.message(db[keys[0]]).value] + rest else rest
  }

  /** The last `limit` of a list, last first; none when the limit is negative. */
  function Newest<T>(xs: seq<T>, limit: int): (r: seq<T>)
    ensures |r| == if limit < 0 then 0 else if limit < |xs| then limit else |xs|
    ensures forall i :: 0 <= i < |r| ==> r[i] == xs[|xs| - 1 - i]
  {
    Reverse(xs)[..if limit < 0 then 0 else if limit < |xs| then limit else |xs|]
  }

  predicate ProfileReady(core: P.Core)
    reads core`container, core`dbDevice, core`activePersonaId, core.store`isOpen
  {
    core.container != null && core.dbDevice != null && core.store.isOpen && core.activePersonaId != []
  }

  /** The records of the active persona that parse, in key order. */
  ghost function Listing(core: P.Core): seq<P.Message>
    reads core`activePersonaId, core.store`db
  {
    Decoded(core.schema, core.store.db, Rocks.KeysWith(core.store.db, Scan(core.activePersonaId)))
  }

  method ListMessages(core: P.Core, limit: int) returns (result: seq<P.Message>)
    ensures result == if ProfileReady(core) then Newest(Listing(core), limit) else []
    ensures core.activePersonaId == [] || !core.Opened() ==> result == []
  {
    hide Rocks.KeysWith, Scan, Newest, Decoded;
    result := [];
    if core.container == null || core.dbDevice == null || !core.store.isOpen || core.activePersonaId == [] { return; }
    var keys := core.store.ListKeys(Scan(core.activePersonaId));
    result := TakeBackwards(core.store, core.schema, keys, limit);
  }

  /** Walks the keys backwards until there are enough messages. */
  method TakeBackwards(store: Rocks.RocksDBStore, schema: P.Schema, keys: seq<Bytes>, limit: int)
    returns (result: seq<P.Message>)
    requires store.isOpen
    ensures result == Newest(Decoded(schema, store.db, keys), limit)
  {
    hide Newest, Decoded;
    ghost var db := store.db;
    result := [];
    var i := |keys| - 1;
    NoneDecoded(schema, db, keys, limit);
    while i >= 0 && |result| < limit
      invariant -1 <= i < |keys| && result == Newest(Decoded(schema, db, keys[i + 1..]), limit)
      invariant limit >= 0 ==> |result| == |Decoded(schema, db, keys[i + 1..])|
      decreases i
    {
      var record := store.Get(keys[i]);
      DecodedFrom(schema, db, keys, i);
      if record.Some? && schema.message(record.value).Some? {
        var m := schema.message(record.value).value;
        NewestMore(m, Decoded(schema, db, keys[i + 1..]), limit);
        result := result + [m];
      }
      i := i - 1;
    }
    DecodedSuffix(schema, db, keys, i + 1);
    NewestOfSuffix(Decoded(schema, db, keys[..i + 1]), Decoded(schema, db, keys[i + 1..]), limit);
  }

  lemma NoneDecoded(s: P.Schema, db: Store, keys: seq<Bytes>, limit: int)
    ensures Decoded(s, db, keys[|keys|..]) == [] && Newest<P.Message>([], limit) == []
  {
  }

  lemma DecodedFrom(s: P.Schema, db: Store, keys: seq<Bytes>, i: nat)
    requires i < |keys|
    ensures Decoded(s, db, keys[i..])
         == (if keys[i] in db && s.message(db[keys[i]]).Some? then [s.message(db[keys[i]]).value] else [])
            + Decoded(s, db, keys[i + 1..])
  {
    assert keys[i..][1..] == keys[i + 1..];
  }

  lemma NewestMore<T>(x: T, xs: seq<T>, limit: int)
    requires |xs| < limit
    ensures Newest([x] + xs, limit) == Newest(xs, limit) + [x]
  {
    assert ([x] + xs)[1..] == xs;
  }

  lemma NewestOfSuffix<T>(xs: seq<T>, ys: seq<T>, limit: int)
    requires limit <= |ys| || xs == []
    ensures Newest(xs + ys, limit) == Newest(ys, limit)
  {
    if xs == [] { assert xs + ys == ys; }
    var r, q := Newest(xs + ys, limit), Newest(ys, limit);
    assert |r| == |q|;
    forall i | 0 <= i < |r| ensures r[i] == q[i] {
      assert (xs + ys)[|xs + ys| - 1 - i] == ys[|ys| - 1 - i];
    }
  }

  lemma {:induction false} DecodedSuffix(s: P.Schema, db: Store, keys: seq<Bytes>, n: nat)
    requires n <= |keys|
    ensures Decoded(s, db, keys) == Decoded(s, db, keys[..n]) + Decoded(s, db, keys[n..])
  {
    if n > 0 {
      DecodedSuffix(s, db, keys[1..], n - 1);
      assert keys[..n][1..] == keys[1..][..n - 1] && keys[1..][n - 1..] == keys[n..];
    } else {
      assert keys[0..] == keys;
    }
  }

  function FirstWith(ms: seq<P.Message>, uid: Bytes): Option<P.Message> {
    if ms == [] then None else if ms[0].uid == uid then Some(ms[0]) else FirstWith(ms[1..], uid)
  }

  /** The first message of the active persona, in key order, with an identifier. */
  method GetMessage(core: P.Core, messageId: Bytes) returns (r: Option<P.Message>)
    ensures r == if ProfileReady(core) then FirstWith(Listing(core), messageId) else None
    ensures core.activePersonaId == [] || !core.Opened() ==> r == None
  {
    hide Rocks.KeysWith, Scan, Decoded, FirstWith;
    if core.container == null || core.dbDevice == null || !core.store.isOpen || core.activePersonaId == [] {
      return None;
    }
    var keys := core.store.ListKeys(Scan(core.activePersonaId));
    ghost var s, db := core.schema, core.store.db;
    assert keys[0..] == keys;
    for i := 0 to |keys|
      invariant FirstWith(Decoded(s, db, keys), messageId) == FirstWith(Decoded(s, db, keys[i..]), messageId)
    {
      FirstFrom(s, db, keys, i, messageId);
      var record := core.store.Get(keys[i]);
      if record.Some? && core.schema.message(record.value).Some? {
        var m := core.schema.message(record.value).value;
        if m.uid == messageId { return Some(m); }
      }
    }
    NoneAfter(s, db, keys, messageId);
    return None;
  }

  /** Searching from a key on is looking at its record and searching behind it. */
  lemma FirstFrom(s: P.Schema, db: Store, keys: seq<Bytes>, i: nat, id: Bytes)
    requires i < |keys|
    ensures FirstWith(Decoded(s, db, keys[i..]), id)
         == if keys[i] in db && s.message(db[keys[i]]).Some? && s.message(db[keys[i]]).value.uid == id
            then s.message(db[keys[i]]) else FirstWith(Decoded(s, db, keys[i + 1..]), id)
  {
    hide Decoded;
    DecodedFrom(s, db, keys, i);
    var rest := Decoded(s, db, keys[i + 1..]);
    assert [] + rest == rest;
    if keys[i] in db && s.message(db[keys[i]]).Some? {
      assert ([s.message(db[keys[i]]).value] + rest)[1..] == rest;
    }
  }

  lemma NoneAfter(s: P.Schema, db: Store, keys: seq<Bytes>, id: Bytes)
    ensures FirstWith(Decoded(s, db, keys[|keys|..]), id) == None
  {
  }

  function FirstEnding(keys: seq<Bytes>, tail: Bytes): (r: Option<Bytes>)
    ensures r.Some? ==> r.value in keys && EndsWith(r.value, tail)
    ensures r.None? ==> forall k :: k in keys ==> !EndsWith(k, tail)
  {
    if keys == [] then None else if EndsWith(keys[0], tail) then Some(keys[0]) else FirstEnding(keys[1..], tail)
  }

  /** The message under a key, where there is one that parses. */
  function MessageAt(s: P.Schema, db: Store, key: Bytes): Option<P.Message> {
    if key in db then s.message(db[key]) else None
  }

  /** What getMessage finds is under the least key whose record has the identifier. */
  lemma {:induction false} FoundIsFirst(s: P.Schema, db: Store, keys: seq<Bytes>, id: Bytes)
    ensures match FirstWith(Decoded(s, db, keys), id)
            case None => forall i :: 0 <= i < |keys| ==> !HasId(s, db, keys[i], id)
            case Some(m) =>
              exists i :: 0 <= i < |keys| && MessageAt(s, db, keys[i]) == Some(m) && m.uid == id
                          && forall j :: 0 <= j < i ==> !HasId(s, db, keys[j], id)
  {
    hide FirstWith, Decoded;
    assert keys[0..] == keys;
    FoundFrom(s, db, keys, 0, id);
  }

  predicate HasId(s: P.Schema, db: Store, key: Bytes, id: Bytes) {
    MessageAt(s, db, key).Some? && MessageAt(s, db, key).value.uid == id
  }

  lemma {:induction false} FoundFrom(s: P.Schema, db: Store, keys: seq<Bytes>, n: nat, id: Bytes)
    requires n <= |keys| && forall j :: 0 <= j < n ==> !HasId(s, db, keys[j], id)
    ensures match FirstWith(Decoded(s, db, keys[n..]), id)
            case None => forall i :: 0 <= i < |keys| ==> !HasId(s, db, keys[i], id)
            case Some(m) =>
              exists i :: 0 <= i < |keys| && MessageAt(s, db, keys[i]) == Some(m) && m.uid == id
                          && forall j :: 0 <= j < i ==> !HasId(s, db, keys[j], id)
    decreases |keys| - n
  {
    hide FirstWith, Decoded;
    if n == |keys| {
      NoneAfter(s, db, keys, id);
    } else {
      FirstFrom(s, db, keys, n, id);
      if !HasId(s, db, keys[n], id) { FoundFrom(s, db, keys, n + 1, id); }
    }
  }

  /** What deleteMessage deletes is the least key of the persona's messages that ends in a slash and the identifier. */
  lemma {:induction false} EndingIsFirst(keys: seq<Bytes>, tail: Bytes)
    ensures match FirstEnding(keys, tail)
            case None => forall i :: 0 <= i < |keys| ==> !EndsIn(keys[i], tail)
            case Some(k) =>
              exists i :: 0 <= i < |keys| && keys[i] == k && EndsIn(k, tail)
                          && forall j :: 0 <= j < i ==> !EndsIn(keys[j], tail)
  {
    hide EndsIn, FirstEnding;
    assert keys[0..] == keys;
    EndingFrom(keys, tail, 0);
  }

  lemma {:induction false} EndingFrom(keys: seq<Bytes>, tail: Bytes, n: nat)
    requires n <= |keys| && forall j :: 0 <= j < n ==> !EndsIn(keys[j], tail)
    ensures match FirstEnding(keys[n..], tail)
            case None => forall i :: 0 <= i < |keys| ==> !EndsIn(keys[i], tail)
            case Some(k) =>
              exists i :: 0 <= i < |keys| && keys[i] == k && EndsIn(k, tail)
                          && forall j :: 0 <= j < i ==> !EndsIn(keys[j], tail)
    decreases |keys| - n
  {
    hide EndsIn;
    if n < |keys| {
      assert keys[n..][0] == keys[n] && keys[n..][1..] == keys[n + 1..];
      EndsInIs(keys[n], tail);
      if !EndsIn(keys[n], tail) { EndingFrom(keys, tail, n + 1); }
    }
  }

  lemma EndsInIs(k: Bytes, tail: Bytes)
    ensures EndsIn(k, tail) <==> EndsWith(k, tail)
  {
  }

  predicate EndsIn(k: Bytes, tail: Bytes) { |tail| <= |k| && k[|k| - |tail|..] == tail }

  /** The key deleteMessage deletes: the first that ends with a slash and the identifier. */
  function Doomed(db: Store, persona: Bytes, id: Bytes): Option<Bytes> {
    FirstEnding(Rocks.KeysWith(db, Scan(persona)), [SLASH] + id)
  }

  method FindEnding(keys: seq<Bytes>, tail: Bytes) returns (r: Option<Bytes>)
    ensures r == FirstEnding(keys, tail)
  {
    assert keys[0..] == keys;
    for i := 0 to |keys|
      invariant FirstEnding(keys, tail) == FirstEnding(keys[i..], tail)
    {
      if EndsWith(keys[i], tail) { return Some(keys[i]); }
      assert keys[i..][1..] == keys[i + 1..];
    }
    return None;
  }

  method DeleteMessage(core: P.Core, messageId: Bytes) returns (ok: bool)
    requires core.Valid()
    modifies core.store`db, (if core.dbDevice == null then {} else {core.dbDevice})`data
    modifies (if core.dbDevice == null then {} else {core.dbDevice})`pos
    modifies (if core.dbDevice == null then {} else {core.dbDevice})`dirty
    ensures core.Valid()
    ensures ok <==> old(ProfileReady(core)) && Doomed(old(core.store.db), core.activePersonaId, messageId).Some?
    ensures old(core.activePersonaId == [] || !core.Opened()) ==> !ok
    ensures core.store.db
         == if ok then old(core.store.db) - {Doomed(old(core.store.db), core.activePersonaId, messageId).value}
                             else old(core.store.db)
    ensures ok ==> core.Opened() && core.dbDevice.data == Encode(core.store.db)
  {
    hide *;
    core.OpenedIs();
    ReadyIs(core);
    if core.container == null || core.dbDevice == null || !core.store.isOpen || core.activePersonaId == [] {
      return false;
    }
    C.OpenParts(core);
    var keys := core.store.ListKeys(Scan(core.activePersonaId));
    DoomedIs(core.store.db, core.activePersonaId, messageId);
    var doomed := FindEnding(keys, [SLASH] + messageId);
    if doomed == None { return false; }
    ok := core.store.Remove(doomed.value);
    C.StillValid(core.store);
    C.FlushProfile(core);
  }

  lemma ReadyIs(core: P.Core)
    ensures ProfileReady(core) <==>
            core.container != null && core.dbDevice != null && core.store.isOpen && core.activePersonaId != []
  {
  }

  lemma DoomedIs(db: Store, persona: Bytes, id: Bytes)
    ensures Doomed(db, persona, id) == FirstEnding(Rocks.KeysWith(db, Scan(persona)), [SLASH] + id)
  {
  }

  // ------------------------------------------------------------------
  // What storing keeps
  // ------------------------------------------------------------------

  /** Every record under the persona's messages that parses is where storing it puts it. */
  ghost predicate Filed(s: P.Schema, db: Store, p: Bytes) {
    forall k :: k in db && Scan(p) <= k && s.message(db[k]).Some? ==> FiledAt(p, k, s.message(db[k]).value)
  }

  ghost predicate FiledAt(p: Bytes, k: Bytes, m: P.Message) {
    InRange(m.seconds) && SlashFree(m.uid) && k == MessageKey(p, m)
  }

  /** Storing a record of any entity under its own key keeps the messages of every persona filed. */
  lemma PutKeepsFiled(s: P.Schema, db: Store, p: Bytes, e: Entity, ids: seq<Bytes>, value: Bytes)
    requires Filed(s, db, p) && SlashFree(p) && AllSlashFree(ids)
    requires e == Message ==> exists q, m :: StoredAs(s, value, q, m) && ids == [q, IsoKey(m.seconds), m.uid]
    ensures Filed(s, db[FullKey(e, ids) := value], p)
  {
    hide IsoKey, FullKey, EntityScan;
    var key := FullKey(e, ids);
    ScanSelects(Message, [p], e, ids);
    if Scan(p) <= key {
      var q, m :| StoredAs(s, value, q, m) && ids == [q, IsoKey(m.seconds), m.uid];
      assert ids[..1][0] == ids[0] && [p][0] == p;
      assert SlashFree(ids[2]);
      assert FiledAt(p, key, m);
    }
  }

  ghost predicate StoredAs(s: P.Schema, value: Bytes, q: Bytes, m: P.Message) {
    InRange(m.seconds) && s.message(value) == Some(m)
  }

  // ------------------------------------------------------------------
  // Listing order
  // ------------------------------------------------------------------

  lemma KeyShape(p: Bytes, m: P.Message)
    requires InRange(m.seconds)
    ensures MessageKey(p, m) == Scan(p) + (IsoKey(m.seconds) + ([SLASH] + m.uid))
  {
    hide IsoKey;
    var head, tail := [KeyPrefix(Message), p], [IsoKey(m.seconds), m.uid];
    assert [KeyPrefix(Message)] + [p, IsoKey(m.seconds), m.uid] == head + tail;
    assert [KeyPrefix(Message)] + [p] == head;
    JoinConcat(head, tail);
    assert tail == [tail[0]] + [tail[1]];
    JoinConcat([tail[0]], [tail[1]]);
    assert tail[0] + [SLASH] + tail[1] == tail[0] + ([SLASH] + tail[1]);
  }

  /** Of two messages filed under a persona, the one whose key comes first is not the newer. */
  lemma KeysInTime(p: Bytes, j: Bytes, k: Bytes, m: P.Message, n: P.Message)
    requires FiledAt(p, j, m) && FiledAt(p, k, n) && Less(j, k)
    ensures m.seconds <= n.seconds
  {
    hide IsoKey, MessageKey, Less, Scan;
    if n.seconds < m.seconds {
      KeyShape(p, m);
      KeyShape(p, n);
      IsoOrder(n.seconds, m.seconds);
      LessConcat(IsoKey(n.seconds), IsoKey(m.seconds), [SLASH] + n.uid, [SLASH] + m.uid);
      LessConcat(Scan(p), Scan(p), IsoKey(n.seconds) + ([SLASH] + n.uid), IsoKey(m.seconds) + ([SLASH] + m.uid));
      LessAsymmetric(j, k);
    }
  }

  ghost predicate InTimeOrder(ms: seq<P.Message>) {
    forall i, j :: 0 <= i < j < |ms| ==> ms[i].seconds <= ms[j].seconds
  }

  ghost predicate AllUnder(db: Store, p: Bytes, keys: seq<Bytes>) {
    Sorted(keys) && forall k :: k in keys ==> k in db && Scan(p) <= k
  }

  lemma AllUnderTail(db: Store, p: Bytes, keys: seq<Bytes>)
    requires AllUnder(db, p, keys) && keys != []
    ensures AllUnder(db, p, keys[1..]) && keys[0] in db && Scan(p) <= keys[0]
    ensures forall k :: k in keys[1..] ==> Less(keys[0], k)
  {
    hide Less, Scan;
    assert keys[0] in keys;
  }

  lemma {:induction false} DecodedSource(s: P.Schema, db: Store, keys: seq<Bytes>, i: nat) returns (k: Bytes)
    requires i < |Decoded(s, db, keys)|
    ensures k in keys && k in db && s.message(db[k]) == Some(Decoded(s, db, keys)[i])
  {
    if keys[0] in db && s.message(db[keys[0]]).Some? {
      if i == 0 { k := keys[0]; } else { k := DecodedSource(s, db, keys[1..], i - 1); }
    } else {
      k := DecodedSource(s, db, keys[1..], i);
    }
  }

  /** Messages come out of the store in the order of their creation seconds. */
  lemma {:induction false} DecodedInTime(s: P.Schema, db: Store, p: Bytes, keys: seq<Bytes>)
    requires Filed(s, db, p) && AllUnder(db, p, keys)
    ensures InTimeOrder(Decoded(s, db, keys))
  {
    hide Less, Scan, InTimeOrder, Filed, AllUnder;
    if keys == [] {
      NoneOutOfTime();
    } else {
      AllUnderTail(db, p, keys);
      DecodedInTime(s, db, p, keys[1..]);
      var rest := Decoded(s, db, keys[1..]);
      if s.message(db[keys[0]]).Some? {
        var m := s.message(db[keys[0]]).value;
        FirstNotNewer(s, db, p, keys, m);
        OlderInFront(m, rest);
      }
    }
  }

  lemma NoneOutOfTime()
    ensures InTimeOrder([])
  {
  }

  lemma OlderInFront(m: P.Message, rest: seq<P.Message>)
    requires InTimeOrder(rest) && forall j :: 0 <= j < |rest| ==> m.seconds <= rest[j].seconds
    ensures InTimeOrder([m] + rest)
  {
  }

  lemma FirstNotNewer(s: P.Schema, db: Store, p: Bytes, keys: seq<Bytes>, m: P.Message)
    requires Filed(s, db, p) && AllUnder(db, p, keys) && keys != []
    requires keys[0] in db && s.message(db[keys[0]]) == Some(m)
    ensures var rest := Decoded(s, db, keys[1..]); forall j :: 0 <= j < |rest| ==> m.seconds <= rest[j].seconds
  {
    hide Less, Scan, FiledAt, Decoded;
    AllUnderTail(db, p, keys);
    var rest := Decoded(s, db, keys[1..]);
    forall j | 0 <= j < |rest| ensures m.seconds <= rest[j].seconds {
      var k := DecodedSource(s, db, keys[1..], j);
      KeysInTime(p, keys[0], k, m, rest[j]);
    }
  }

  /** A listing shows the newest messages, newest first: as many as asked for, and none newer left out. */
  lemma ListedNewest(s: P.Schema, db: Store, p: Bytes, limit: int)
    requires Filed(s, db, p)
    ensures var all := Decoded(s, db, Rocks.KeysWith(db, Scan(p)));
            var shown := Newest(all, limit);
            && |shown| == (if limit < 0 then 0 else if limit < |all| then limit else |all|)
            && (forall i, j :: 0 <= i < j < |shown| ==> shown[i].seconds >= shown[j].seconds)
            && (forall i, j :: 0 <= i < |shown| && 0 <= j < |all| - |shown| ==> all[j].seconds <= shown[i].seconds)
            && multiset(all) == multiset(all[..|all| - |shown|]) + multiset(shown)
  {
    hide Rocks.KeysWith, Decoded, Newest, Filed, Less, InTimeOrder, Scan;
    var keys := Rocks.KeysWith(db, Scan(p));
    DecodedInTime(s, db, p, keys);
    var all := Decoded(s, db, keys);
    NewestOrdered(all, limit);
  }

  lemma NewestOrdered(all: seq<P.Message>, limit: int)
    requires InTimeOrder(all)
    ensures var shown := Newest(all, limit);
            && (forall i, j :: 0 <= i < j < |shown| ==> shown[i].seconds >= shown[j].seconds)
            && (forall i, j :: 0 <= i < |shown| && 0 <= j < |all| - |shown| ==> all[j].seconds <= shown[i].seconds)
            && multiset(all) == multiset(all[..|all| - |shown|]) + multiset(shown)
  {
    hide Newest;
    var shown := Newest(all, limit);
    var rest := all[|all| - |shown|..];
    assert all == all[..|all| - |shown|] + rest;
    ReversedMultiset(rest, shown);
  }

  lemma {:induction false} ReversedMultiset(xs: seq<P.Message>, ys: seq<P.Message>)
    requires |xs| == |ys| && forall i :: 0 <= i < |xs| ==> ys[i] == xs[|xs| - 1 - i]
    ensures multiset(xs) == multiset(ys)
  {
    if xs != [] {
      var n := |ys| - 1;
      ReversedMultiset(xs[1..], ys[..n]);
      assert xs == [xs[0]] + xs[1..] && ys == ys[..n] + [ys[n]];
    }
  }

  // ------------------------------------------------------------------
  // Finding and deleting by identifier
  // ------------------------------------------------------------------

  lemma FiledSegments(p: Bytes, k: Bytes, m: P.Message)
    requires SlashFree(p) && FiledAt(p, k, m)
    ensures Split(k) == [KeyPrefix(Message), p, IsoKey(m.seconds), m.uid]
  {
    hide Split, Join, IsoKey;
    var xs := [KeyPrefix(Message), p, IsoKey(m.seconds), m.uid];
    assert [KeyPrefix(Message)] + [p, IsoKey(m.seconds), m.uid] == xs;
    IsoSlashFree(m.seconds);
    SplitJoin(xs);
  }

  lemma PadSlashFree(x: nat, n: nat)
    ensures SlashFree(Pad(x, n))
  {
    hide Pad;
  }

  lemma IsoSlashFree(t: int)
    requires InRange(t)
    ensures SlashFree(IsoKey(t))
  {
    hide Pad, CivilOf;
    var c := CivilOf(t);
    PadSlashFree(c.year, 4);
    PadSlashFree(c.month, 2);
    PadSlashFree(c.day, 2);
    PadSlashFree(c.hour, 2);
    PadSlashFree(c.minute, 2);
    PadSlashFree(c.second, 2);
  }

  /** A filed key ends with a slash and an identifier when that is its own, or reaches back over earlier segments. */
  lemma FiledEnds(p: Bytes, k: Bytes, m: P.Message, id: Bytes)
    requires SlashFree(p) && FiledAt(p, k, m)
    ensures EndsWith(k, [SLASH] + id) <==>
            id == m.uid || Split(id) == [IsoKey(m.seconds), m.uid] || Split(id) == [p, IsoKey(m.seconds), m.uid]
    ensures SlashFree(id) ==> (EndsWith(k, [SLASH] + id) <==> id == m.uid)
  {
    hide Split, IsoKey, FiledAt, KeyPrefix;
    EndsIffSegments(k, id);
    FiledSegments(p, k, m);
    UidSlashFree(p, k, m);
    SplitSegment(m.uid);
    JoinSplit(id);
    if SlashFree(id) { SplitSegment(id); }
    var xs, ys := Split(k), Split(id);
    assert xs[3..] == [m.uid] && xs[2..] == [IsoKey(m.seconds), m.uid] && xs[1..] == [p, IsoKey(m.seconds), m.uid];
    assert ys == [m.uid] ==> id == m.uid;
  }

  lemma UidSlashFree(p: Bytes, k: Bytes, m: P.Message)
    requires FiledAt(p, k, m)
    ensures SlashFree(m.uid) && InRange(m.seconds)
  {
  }

  /** Retrieval and deletion mean the same: the same record, or none. */
  ghost predicate Agree(s: P.Schema, db: Store, got: Option<P.Message>, doomed: Option<Bytes>) {
    if doomed.None? then got.None?
    else got.Some? && doomed.value in db && s.message(db[doomed.value]) == got
  }

  /**
   * For a slash-free identifier, a key that retrieval finds ends in it; and
   * the first key that does, if its record parses, is what retrieval finds.
   */
  lemma {:induction false} GetAgrees(s: P.Schema, db: Store, p: Bytes, keys: seq<Bytes>, id: Bytes)
    requires Filed(s, db, p) && AllUnder(db, p, keys) && SlashFree(p) && SlashFree(id)
    ensures var got, doomed := FirstWith(Decoded(s, db, keys), id), FirstEnding(keys, [SLASH] + id);
            && (got.Some? ==> doomed.Some?)
            && (doomed.Some? ==> doomed.value in db)
            && (doomed.Some? && s.message(db[doomed.value]).Some? ==> got == s.message(db[doomed.value]))
  {
    if keys != [] {
      hide Less, Scan, FiledAt, EndsWith;
      AllUnderTail(db, p, keys);
      GetAgrees(s, db, p, keys[1..], id);
      if s.message(db[keys[0]]).Some? {
        var m := s.message(db[keys[0]]).value;
        FiledEnds(p, keys[0], m, id);
        assert ([m] + Decoded(s, db, keys[1..]))[1..] == Decoded(s, db, keys[1..]);
      }
    }
  }

  /**
   * For an identifier without a slash, deleting by it deletes exactly the
   * message that getting by it finds, exactly when no key ends in it or the
   * record under the first that does parses.
   */
  lemma GetIffDelete(s: P.Schema, db: Store, p: Bytes, id: Bytes)
    requires Filed(s, db, p) && SlashFree(p) && SlashFree(id)
    ensures var got, doomed := FirstWith(Decoded(s, db, Rocks.KeysWith(db, Scan(p))), id), Doomed(db, p, id);
            && (got.Some? ==> doomed.Some?)
            && (doomed.Some? ==> doomed.value in db)
            && (Agree(s, db, got, doomed) <==> doomed.None? || s.message(db[doomed.value]).Some?)
  {
    hide Rocks.KeysWith, Decoded, FirstWith, FirstEnding, Filed, Scan, Less;
    GetAgrees(s, db, p, Rocks.KeysWith(db, Scan(p)), id);
  }

  /** A record that does not parse can be deleted by its identifier, under which nothing can be found. */
  lemma UnparseableRecord(s: P.Schema, p: Bytes, time: Bytes, id: Bytes, value: Bytes)
    requires s.message(value) == None && SlashFree(p) && SlashFree(time) && SlashFree(id)
    ensures var key := FullKey(Message, [p, time, id]);
            var db := map[key := value];
            && Filed(s, db, p)
            && FirstWith(Decoded(s, db, Rocks.KeysWith(db, Scan(p))), id) == None
            && Doomed(db, p, id) == Some(key)
  {
    var key := FullKey(Message, [p, time, id]);
    var db := map[key := value];
    ScanSelects(Message, [p], Message, [p, time, id]);
    assert [p, time, id][..1] == [p];
    KeyEnds(p, time, id);
    hide Scan, FullKey, EndsWith;
    var keys := Rocks.KeysWith(db, Scan(p));
    assert key in keys;
    if Decoded(s, db, keys) != [] {
      var k := DecodedSource(s, db, keys, 0);
      assert false;
    }
    assert forall k :: k in keys ==> k == key;
  }

  lemma KeyEnds(p: Bytes, time: Bytes, id: Bytes)
    requires SlashFree(p) && SlashFree(time) && SlashFree(id)
    ensures EndsWith(FullKey(Message, [p, time, id]), [SLASH] + id)
  {
    var xs := [KeyPrefix(Message), p, time, id];
    assert [KeyPrefix(Message)] + [p, time, id] == xs;
    assert xs == xs[..3] + [id];
    JoinConcat(xs[..3], [id]);
  }

  /** The record `m/a/0/b` of a persona `a`, holding a byte no message starts with. */
  lemma UnparseableExample(s: P.Schema)
    requires s.message([255]) == None
    ensures var db: Store := map[[109, 47, 97, 47, 48, 47, 98] := [255]];
            && Filed(s, db, [97]) && FirstWith(Decoded(s, db, Rocks.KeysWith(db, Scan([97]))), [98]) == None
            && Doomed(db, [97], [98]) == Some([109, 47, 97, 47, 48, 47, 98])
  {
    UnparseableRecord(s, [97], [48], [98], [255]);
    ExampleKey();
  }

  lemma ExampleKey()
    ensures FullKey(Message, [[97], [48], [98]]) == [109, 47, 97, 47, 48, 47, 98]
  {
    var xs := [KeyPrefix(Message), [97], [48], [98]];
    assert [KeyPrefix(Message)] + [[97], [48], [98]] == xs;
    assert xs[1..][1..][1..] == [[98]] && xs[1..][1..][0] == [48] && xs[1..][0] == [97];
    assert Join([[98]]) == [98];
    assert Join(xs[1..][1..]) == [48, 47, 98];
    assert Join(xs[1..]) == [97, 47, 48, 47, 98];
  }

  lemma {:induction false} NoneWith(ms: seq<P.Message>, id: Bytes)
    requires forall i :: 0 <= i < |ms| ==> ms[i].uid != id
    ensures FirstWith(ms, id) == None
  {
    if ms != [] { NoneWith(ms[1..], id); }
  }

  /** An identifier with a slash is never found, but deletes a message when it is the tail of that message's key. */
  lemma SlashedIdentifier(s: P.Schema, db: Store, p: Bytes, id: Bytes)
    requires Filed(s, db, p) && SlashFree(p) && !SlashFree(id)
    ensures FirstWith(Decoded(s, db, Rocks.KeysWith(db, Scan(p))), id) == None
    ensures Doomed(db, p, id).Some? <==> exists k :: k in db && Scan(p) <= k && TailOf(s, db, p, k, id)
  {
    hide Rocks.KeysWith, Decoded, FirstWith, FirstEnding, Scan, Less, FiledAt, EndsWith, Split;
    var keys := Rocks.KeysWith(db, Scan(p));
    var ms := Decoded(s, db, keys);
    forall i | 0 <= i < |ms| ensures ms[i].uid != id {
      var k := DecodedSource(s, db, keys, i);
      UidSlashFree(p, k, ms[i]);
    }
    NoneWith(ms, id);
    forall k | k in keys ensures EndsWith(k, [SLASH] + id) <==> TailOf(s, db, p, k, id) {
      if s.message(db[k]).Some? {
        UidSlashFree(p, k, s.message(db[k]).value);
        FiledEnds(p, k, s.message(db[k]).value, id);
      }
    }
  }

  /** The identifier is the tail of a message's key; of one that does not parse, the end of whatever its key is. */
  ghost predicate TailOf(s: P.Schema, db: Store, p: Bytes, k: Bytes, id: Bytes)
    requires k in db
  {
    if s.message(db[k]).Some? then IsTail(p, s.message(db[k]).value, id) else EndsWith(k, [SLASH] + id)
  }

  /** The creation time and identifier of a message's key, or these and the persona. */
  ghost predicate IsTail(p: Bytes, m: P.Message, id: Bytes) {
    InRange(m.seconds) && (Split(id) == [IsoKey(m.seconds), m.uid] || Split(id) == [p, IsoKey(m.seconds), m.uid])
  }

  /** So every message that parses can be deleted by an identifier under which it cannot be found. */
  lemma DeletableUnfindable(s: P.Schema, db: Store, p: Bytes, k: Bytes)
    requires Filed(s, db, p) && SlashFree(p) && k in db && Scan(p) <= k && s.message(db[k]).Some?
    ensures var m := s.message(db[k]).value;
            var id := IsoKey(if InRange(m.seconds) then m.seconds else 0) + [SLASH] + m.uid;
            FirstWith(Decoded(s, db, Rocks.KeysWith(db, Scan(p))), id) == None && Doomed(db, p, id).Some?
  {
    hide Rocks.KeysWith, Decoded, FirstWith, FirstEnding, Doomed, Scan, Less, Split, IsoKey, CivilOf;
    var m := s.message(db[k]).value;
    assert FiledAt(p, k, m);
    var id := IsoKey(m.seconds) + [SLASH] + m.uid;
    IsoSlashFree(m.seconds);
    SplitAtSlash(IsoKey(m.seconds), m.uid);
    SplitSegment(m.uid);
    assert Split(id) == [IsoKey(m.seconds)] + [m.uid] == [IsoKey(m.seconds), m.uid];
    assert TailOf(s, db, p, k, id);
    assert id[|IsoKey(m.seconds)|] == SLASH;
    SlashedIdentifier(s, db, p, id);
  }
}
