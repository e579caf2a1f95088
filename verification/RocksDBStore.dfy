/** The key-value store kept in memory and saved to a device. */
module RocksDBStore {
  import opened Bytes
  import opened ByteOrder
  import opened DeviceStream
  import opened Vfs

  /** Failures of the temporary directory and of the engine itself. */
  datatype EngineFaults = EngineFaults(tempDirFails: bool, dbOpenFails: bool)

  function Filter(keys: seq<Bytes>, prefix: Bytes): (r: seq<Bytes>)
    ensures forall k :: k in r <==> k in keys && prefix <= k
  {
    if keys == [] then []
    else (if prefix <= keys[0] then [keys[0]] else []) + Filter(keys[1..], prefix)
  }

  lemma {:induction false} FilterSorted(keys: seq<Bytes>, prefix: Bytes)
    requires Sorted(keys)
    ensures Sorted(Filter(keys, prefix))
  {
    if keys != [] {
      FilterSorted(keys[1..], prefix);
      var rest := Filter(keys[1..], prefix);
      forall j | 0 <= j < |rest| ensures Less(keys[0], rest[j]) {
        assert rest[j] in rest && rest[j] in keys[1..];
        var i :| 0 <= i < |keys[1..]| && keys[1..][i] == rest[j];
        assert keys[i + 1] == rest[j];
      }
    }
  }

  /** The stored keys with a prefix, in key order. */
  function KeysWith(db: Store, prefix: Bytes): (r: seq<Bytes>)
    ensures forall k :: k in r <==> k in db && prefix <= k
    ensures Sorted(r)
  {
    FilterSorted(SortedKeys(db.Keys), prefix);
    Filter(SortedKeys(db.Keys), prefix)
  }

  class RocksDBStore {
    var db: Store
    var isOpen: bool
    var device: VirtualFile?

    constructor ()
      ensures !isOpen && device == null
    {
      db := map[];
      isOpen := false;
      device := null;
    }

    ghost predicate Valid()
      reads this`isOpen, this`device, Devices()`freed
    {
      (!isOpen ==> device == null) && (device != null ==> !device.freed)
    }

    ghost function Devices(): set<VirtualFile>
      reads this`device
    {
      if device == null then {} else {device}
    }

    // ----------------------------------------------------------------
    // Saving and loading
    // ----------------------------------------------------------------

    method SerialiseToDevice() returns (ok: bool)
      requires Valid() && isOpen && device != null
      modifies device`data, device`pos, device`dirty
      ensures ok <==> device.isOpen && device.mode.write
      ensures ok ==> device.data == Encode(db) && device.dirty && device.pos == |device.data|
      ensures !ok ==> device.data == old(device.data) && device.dirty == old(device.dirty)
      ensures device.isOpen || old(device.pos <= |device.data|) ==> device.pos <= |device.data|
    {
      hide Encode;
      var sought := device.Seek(0);
      var buffer := Serialise();
      var written := device.Write(buffer);
      ok := written == |buffer|;
      if ok && |device.data| > written {
        device.ResizeBuffer(written);
      }
    }

    /** Counts the entries, then writes each one, walking the keys in order. */
    method Serialise() returns (buffer: Bytes)
      ensures buffer == Encode(db)
    {
      var keys := SortedKeys(db.Keys);
      var count := 0;
      for i := 0 to |keys|
        invariant count == i
      {
        count := count + 1;
      }
      var entries := WriteEntries(keys);
      buffer := BigEndian(STREAM_VERSION, 4) + BigEndian(count, 4) + entries;
    }

    method WriteEntries(keys: seq<Bytes>) returns (buffer: Bytes)
      requires forall k :: k in keys ==> k in db
      ensures buffer == EncodeEntries(keys, db)
    {
      hide *;
      buffer := [];
      AllEntries(keys, db);
      for i := 0 to |keys|
        invariant buffer + EncodeEntries(keys[i..], db) == EncodeEntries(keys, db)
      {
        buffer := WriteEntry(buffer, keys, i);
      }
      NoEntries(keys, db);
      assert buffer + [] == buffer;
    }

    method WriteEntry(before: Bytes, keys: seq<Bytes>, i: nat) returns (buffer: Bytes)
      requires i < |keys| && forall k :: k in keys ==> k in db
      ensures buffer + EncodeEntries(keys[i + 1..], db) == before + EncodeEntries(keys[i..], db)
    {
      hide *;
      EntriesStep(keys, i, db);
      AppendEntry(before, EncodeBytes(keys[i]), EncodeBytes(db[keys[i]]), EncodeEntries(keys[i + 1..], db));
      buffer := before + EncodeBytes(keys[i]) + EncodeBytes(db[keys[i]]);
    }

    method DeserialiseFromDevice() returns (ok: bool)
      requires Valid() && isOpen && device != null && device.isOpen && device.mode.read && db == map[]
      modifies this`db, device`pos
      ensures ok <==> Load(device.data).Some?
      ensures ok ==> Load(device.data) == Some(db)
      ensures device.pos <= |device.data|
    {
      hide ReadBytes, FromBigEndian;
      var sought := device.Seek(0);
      var raw := device.ReadAll();
      assert raw == device.data;
      if raw == [] { return true; }
      if ReadU32(raw) != STREAM_VERSION { return false; }
      var rest := raw[4..];
      var count := ReadU32(rest);
      rest := if |rest| < 4 then [] else rest[4..];
      var batch: Store := map[];
      for i := 0 to count
        invariant Load(raw) == DecodeEntries(rest, count - i, batch)
      {
        var key := ReadBytes(rest);
        if key == None { return false; }
        var value := ReadBytes(key.value.1);
        if value == None { return false; }
        batch := batch[key.value.0 := value.value.0];
        rest := value.value.1;
      }
      db := batch;
      ok := true;
    }

    /** Opens the store on a device; a store that is open is flushed and closed first. */
    method Open(dev: VirtualFile?, faults: EngineFaults) returns (ok: bool)
      requires Valid() && (dev != null ==> !dev.freed && dev.mode.read)
      modifies this, Devices()`data, Devices()`pos, Devices()`dirty
      modifies (if dev == null then {} else {dev})`pos
      ensures Valid()
      ensures ok <==> dev != null && dev.isOpen && !faults.tempDirFails && !faults.dbOpenFails && Load(dev.data).Some?
      ensures ok ==> isOpen && device == dev && Load(dev.data) == Some(db)
      ensures dev != null && old(dev.pos <= |dev.data|) ==> dev.pos <= |dev.data|
      ensures dev == null || !dev.isOpen ==> isOpen == old(isOpen) && device == old(device) && db == old(db)
      ensures dev != null && dev.isOpen && !ok ==> !isOpen && device == null
      ensures dev != null && dev.isOpen && old(isOpen) && old(device) != null && old(device).isOpen
              && old(device).mode.write ==>
                old(device).data == Encode(old(db)) && old(device).dirty
    {
      if dev == null || !dev.isOpen { return false; }
      hide Encode, Load, Decode;
      if isOpen { Close(); }
      if faults.tempDirFails || faults.dbOpenFails { return false; }
      db := map[];
      isOpen := true;
      device := dev;
      if |dev.data| > 0 {
        var loaded := DeserialiseFromDevice();
        if !loaded {
          isOpen := false;
          device := null;
          return false;
        }
      }
      ok := true;
    }

    method Flush()
      requires Valid()
      modifies Devices()`data, Devices()`pos, Devices()`dirty
      ensures isOpen && device != null && device.isOpen && device.mode.write ==>
                device.data == Encode(db) && device.dirty
      ensures device != null && !(isOpen && device.isOpen && device.mode.write) ==>
                device.data == old(device.data) && device.dirty == old(device.dirty)
      ensures device != null && (device.isOpen || old(device.pos <= |device.data|)) ==> device.pos <= |device.data|
    {
      if !isOpen { return; }
      if device != null {
        var ok := SerialiseToDevice();
      }
    }

    method Close()
      requires Valid()
      modifies this`isOpen, this`device, Devices()`data, Devices()`pos, Devices()`dirty
      ensures Valid() && !isOpen && device == null
      ensures old(isOpen) && old(device) != null && old(device).isOpen && old(device).mode.write ==>
                old(device).data == Encode(db) && old(device).dirty
      ensures old(device) != null && !(old(isOpen) && old(device).isOpen && old(device).mode.write) ==>
                old(device).data == old(device.data) && old(device).dirty == old(device.dirty)
      ensures old(device) != null && old(device.isOpen || device.pos <= |device.data|) ==>
                old(device).pos <= |old(device).data|
    {
      if !isOpen { return; }
      Flush();
      isOpen := false;
      device := null;
    }

    // ----------------------------------------------------------------
    // Records
    // ----------------------------------------------------------------

    method Put(key: Bytes, value: Bytes) returns (ok: bool)
      modifies this`db
      ensures ok <==> isOpen
      ensures db == if ok then old(db)[key := value] else old(db)
    {
      if !isOpen { return false; }
      db := db[key := value];
      ok := true;
    }

    method Get(key: Bytes) returns (value: Option<Bytes>)
      ensures value == if isOpen && key in db then Some(db[key]) else None
    {
      if isOpen && key in db { return Some(db[key]); }
      return None;
    }

    /** Removing a missing key succeeds. */
    method Remove(key: Bytes) returns (ok: bool)
      modifies this`db
      ensures ok <==> isOpen
      ensures db == if ok then old(db) - {key} else old(db)
    {
      if !isOpen { return false; }
      db := db - {key};
      ok := true;
    }

    /** Seeks to the prefix and walks forward until a key lacks it. */
    method ListKeys(prefix: Bytes) returns (keys: seq<Bytes>)
      ensures keys == if isOpen then KeysWith(db, prefix) else []
    {
      if !isOpen { return []; }
      var all := SortedKeys(db.Keys);
      hide *;
      var start := SeekKey(all, prefix);
      var end;
      keys, end := Walk(all, prefix, start);
      ScanExact(all, prefix, start, end);
      ScanSorted(all, start, end);
      SortedUnique(keys, KeysWith(db, prefix));
    }
  }

  /** The keys from `start` on, up to the first that lacks the prefix. */
  method Walk(all: seq<Bytes>, prefix: Bytes, start: nat) returns (keys: seq<Bytes>, at: nat)
    requires start <= |all|
    ensures start <= at <= |all| && keys == all[start..at]
    ensures forall i :: start <= i < at ==> prefix <= all[i]
    ensures at < |all| ==> !(prefix <= all[at])
  {
    keys := [];
    at := start;
    while at < |all| && prefix <= all[at]
      invariant start <= at <= |all| && keys == all[start..at]
      invariant forall i :: start <= i < at ==> prefix <= all[i]
    {
      keys := keys + [all[at]];
      at := at + 1;
    }
  }

  lemma EntriesStep(keys: seq<Bytes>, i: nat, m: Store)
    requires i < |keys| && forall k :: k in keys ==> k in m
    ensures EncodeEntries(keys[i..], m)
         == EncodeBytes(keys[i]) + EncodeBytes(m[keys[i]]) + EncodeEntries(keys[i + 1..], m)
  {
    assert keys[i..][1..] == keys[i + 1..];
  }

  lemma AllEntries(keys: seq<Bytes>, m: Store)
    requires forall k :: k in keys ==> k in m
    ensures [] + EncodeEntries(keys[0..], m) == EncodeEntries(keys, m)
  {
    assert keys[0..] == keys;
  }

  lemma NoEntries(keys: seq<Bytes>, m: Store)
    ensures keys[|keys|..] == [] && EncodeEntries(keys[|keys|..], m) == []
  {
  }

  lemma AppendEntry(buffer: Bytes, key: Bytes, value: Bytes, rest: Bytes)
    ensures buffer + (key + value + rest) == buffer + key + value + rest
  {
  }

  /** The position of the first key not before `target`. */
  method SeekKey(all: seq<Bytes>, target: Bytes) returns (at: nat)
    ensures at <= |all|
    ensures forall i :: 0 <= i < at ==> Less(all[i], target)
    ensures at < |all| ==> !Less(all[at], target)
  {
    at := 0;
    while at < |all| && Less(all[at], target)
      invariant at <= |all| && forall i :: 0 <= i < at ==> Less(all[i], target)
    {
      at := at + 1;
    }
  }

  /** In an ordered listing, the run of keys with the prefix that starts at the seek position is all of them. */
  lemma ScanExact(all: seq<Bytes>, prefix: Bytes, start: nat, end: nat)
    requires Sorted(all) && start <= end <= |all|
    requires forall i :: 0 <= i < start ==> Less(all[i], prefix)
    requires start < |all| ==> !Less(all[start], prefix)
    requires forall i :: start <= i < end ==> prefix <= all[i]
    requires end < |all| ==> !(prefix <= all[end])
    ensures forall k :: k in all[start..end] <==> k in all && prefix <= k
  {
    hide Less;
    forall k | k in all && prefix <= k ensures k in all[start..end] {
      var i :| 0 <= i < |all| && all[i] == k;
      if i < start { PrefixNotGreater(prefix, k); }
      else if i >= end {
        if start < end && Less(all[end], prefix) { LessTrans(all[start], all[end], prefix); }
        PrefixContiguous(prefix, all[end], k);
      } else {
        assert all[start..end][i - start] == k;
      }
    }
  }

  lemma ScanSorted(all: seq<Bytes>, start: nat, end: nat)
    requires Sorted(all) && start <= end <= |all|
    ensures Sorted(all[start..end])
  {
    hide Less;
  }
}
