/**
 * The byte stream a key-value map is saved as: version, entry count, then length-prefixed keys and
 * values in key order.
 */
module DeviceStream {
  import opened Bytes
  import opened ByteOrder

  const STREAM_VERSION: nat := 1
  const U32: nat := 0x1_0000_0000
  /** The length field of a null byte array. */
  const NULL_LENGTH: nat := 0xFFFF_FFFF

  type Store = map<Bytes, Bytes>

  /** Counts and lengths fit their 32-bit fields. */
  predicate Encodable(m: Store) {
    |m| < U32 && forall k :: k in m ==> |k| < NULL_LENGTH && |m[k]| < NULL_LENGTH
  }

  function EncodeBytes(b: Bytes): (r: Bytes)
    ensures |r| == 4 + |b|
  {
    BigEndian(|b|, 4) + b
  }

  function EncodeEntries(keys: seq<Bytes>, m: Store): Bytes
    requires forall k :: k in keys ==> k in m
  {
    if keys == [] then []
    else EncodeBytes(keys[0]) + EncodeBytes(m[keys[0]]) + EncodeEntries(keys[1..], m)
  }

  function Encode(m: Store): (r: Bytes)
    ensures |r| >= 8
  {
    BigEndian(STREAM_VERSION, 4) + BigEndian(|m|, 4) + EncodeEntries(SortedKeys(m.Keys), m)
  }

  /** A length-prefixed byte array and what follows it; None when the stream ends early. */
  function ReadBytes(s: Bytes): (r: Option<(Bytes, Bytes)>)
    ensures r.Some? ==> |r.value.1| < |s|
  {
    if |s| < 4 then None
    else
      var length := FromBigEndian(s[..4]);
      if length == NULL_LENGTH then Some(([], s[4..]))
      else if |s| < 4 + length then None
      else Some((s[4..4 + length], s[4 + length..]))
  }

  function DecodeEntries(s: Bytes, count: nat, acc: Store): Option<Store>
  {
    if count == 0 then Some(acc)
    else
      match ReadBytes(s)
      case None => None
      case Some((key, rest)) =>
        match ReadBytes(rest)
        case None => None
        case Some((value, rest')) => DecodeEntries(rest', count - 1, acc[key := value])
  }

  /** An integer cut short by the end of the stream reads as zero. */
  function ReadU32(s: Bytes): nat {
    if |s| < 4 then 0 else FromBigEndian(s[..4])
  }

  function Decode(s: Bytes): Option<Store>
  {
    if ReadU32(s) != STREAM_VERSION then None
    else
      var rest := s[4..];
      DecodeEntries(if |rest| < 4 then [] else rest[4..], ReadU32(rest), map[])
  }

  /** What opening a store on a device holding `s` yields; an empty device is an empty store. */
  function Load(s: Bytes): Option<Store> {
    if s == [] then Some(map[]) else Decode(s)
  }

  // ------------------------------------------------------------------
  // Reading back what was written
  // ------------------------------------------------------------------

  lemma ReadBackU32(v: nat, tail: Bytes)
    requires v < U32
    ensures (BigEndian(v, 4) + tail)[..4] == BigEndian(v, 4) && FromBigEndian(BigEndian(v, 4)) == v
    ensures (BigEndian(v, 4) + tail)[4..] == tail
  {
    Pow256Values();
    BigEndianRoundTrip(v, 4);
  }

  lemma ReadBackBytes(b: Bytes, tail: Bytes)
    requires |b| < NULL_LENGTH
    ensures ReadBytes(EncodeBytes(b) + tail) == Some((b, tail))
  {
    ReadBackU32(|b|, b + tail);
    assert EncodeBytes(b) + tail == BigEndian(|b|, 4) + (b + tail);
  }

  lemma EntryStep(k: Bytes, v: Bytes, rest: Bytes, count: nat, acc: Store)
    requires |k| < NULL_LENGTH && |v| < NULL_LENGTH && count > 0
    ensures DecodeEntries(EncodeBytes(k) + (EncodeBytes(v) + rest), count, acc)
            == DecodeEntries(rest, count - 1, acc[k := v])
  {
    hide EncodeBytes, ReadBytes;
    ReadBackBytes(k, EncodeBytes(v) + rest);
    ReadBackBytes(v, rest);
  }

  function Restrict(m: Store, keys: seq<Bytes>): Store {
    map k | k in m && k in keys :: m[k]
  }

  lemma RestrictStep(keys: seq<Bytes>, m: Store, acc: Store)
    requires keys != [] && keys[0] in m
    ensures acc[keys[0] := m[keys[0]]] + Restrict(m, keys[1..]) == acc + Restrict(m, keys)
  {
    assert keys == [keys[0]] + keys[1..];
  }

  lemma {:induction false} EntriesRoundTrip(keys: seq<Bytes>, m: Store, tail: Bytes, acc: Store)
    requires Encodable(m) && forall k :: k in keys ==> k in m
    ensures DecodeEntries(EncodeEntries(keys, m) + tail, |keys|, acc) == Some(acc + Restrict(m, keys))
  {
    if keys == [] {
      assert EncodeEntries(keys, m) + tail == tail;
      assert acc + Restrict(m, keys) == acc;
    } else {
      var k := keys[0];
      var rest := EncodeEntries(keys[1..], m);
      assert EncodeEntries(keys, m) + tail == EncodeBytes(k) + (EncodeBytes(m[k]) + (rest + tail));
      hide EncodeBytes, DecodeEntries, EncodeEntries;
      EntryStep(k, m[k], rest + tail, |keys|, acc);
      EntriesRoundTrip(keys[1..], m, tail, acc[k := m[k]]);
      RestrictStep(keys, m, acc);
    }
  }

  /** The stream determines the map, whatever bytes of an older, longer stream follow it. */
  lemma RoundTrip(m: Store, junk: Bytes)
    requires Encodable(m)
    ensures Decode(Encode(m) + junk) == Some(m) && Load(Encode(m)) == Some(m)
  {
    DecodeWithTail(m, junk);
    DecodeWithTail(m, []);
    assert Encode(m) + [] == Encode(m);
  }

  /** Reading the two header fields. */
  lemma DecodeHeader(count: nat, body: Bytes)
    requires count < U32
    ensures Decode(BigEndian(STREAM_VERSION, 4) + BigEndian(count, 4) + body) == DecodeEntries(body, count, map[])
  {
    hide DecodeEntries;
    var s := BigEndian(STREAM_VERSION, 4) + BigEndian(count, 4) + body;
    assert s == BigEndian(STREAM_VERSION, 4) + (BigEndian(count, 4) + body);
    ReadBackU32(STREAM_VERSION, BigEndian(count, 4) + body);
    ReadBackU32(count, body);
  }

  lemma AllKeys(m: Store)
    ensures |SortedKeys(m.Keys)| == |m| && map[] + Restrict(m, SortedKeys(m.Keys)) == m
  {
  }

  lemma Regroup(a: Bytes, b: Bytes, c: Bytes, d: Bytes)
    ensures a + b + c + d == a + b + (c + d)
  {
  }

  lemma DecodeWithTail(m: Store, junk: Bytes)
    requires Encodable(m)
    ensures Decode(Encode(m) + junk) == Some(m)
  {
    var keys := SortedKeys(m.Keys);
    var entries := EncodeEntries(keys, m);
    assert Encode(m) == BigEndian(STREAM_VERSION, 4) + BigEndian(|m|, 4) + entries;
    hide *;
    Regroup(BigEndian(STREAM_VERSION, 4), BigEndian(|m|, 4), entries, junk);
    EncodableSize(m);
    DecodeHeader(|m|, entries + junk);
    EntriesRoundTrip(keys, m, junk, map[]);
    AllKeys(m);
  }

  lemma EncodableSize(m: Store)
    requires Encodable(m)
    ensures |m| < U32
  {
  }

  // ------------------------------------------------------------------
  // Streams cut short
  // ------------------------------------------------------------------

  /** A length-prefixed array cut anywhere does not read. */
  lemma CutBytes(b: Bytes, n: nat)
    requires |b| < NULL_LENGTH && n < 4 + |b|
    ensures ReadBytes(EncodeBytes(b)[..n]) == None
  {
    if n >= 4 {
      ReadBackU32(|b|, b);
      assert EncodeBytes(b)[..n][..4] == EncodeBytes(b)[..4];
    }
  }

  lemma CutEntry(k: Bytes, v: Bytes, n: nat, count: nat, acc: Store)
    requires |k| < NULL_LENGTH && |v| < NULL_LENGTH && count > 0 && n < |EncodeBytes(k)| + |EncodeBytes(v)|
    ensures DecodeEntries((EncodeBytes(k) + EncodeBytes(v))[..n], count, acc) == None
  {
    var key, value := EncodeBytes(k), EncodeBytes(v);
    hide EncodeBytes, ReadBytes;
    if n < |key| {
      CutBytes(k, n);
      assert (key + value)[..n] == key[..n];
    } else {
      assert (key + value)[..n] == key + value[..n - |key|];
      ReadBackBytes(k, value[..n - |key|]);
      CutBytes(v, n - |key|);
    }
  }

  lemma TakeConcat(a: Bytes, b: Bytes, c: Bytes, n: nat)
    requires n <= |a| + |b| + |c|
    ensures n < |a| + |b| ==> (a + b + c)[..n] == (a + b)[..n]
    ensures n >= |a| + |b| ==> (a + b + c)[..n] == a + (b + c[..n - |a| - |b|])
  {
  }

  lemma {:induction false} CutEntries(keys: seq<Bytes>, m: Store, n: nat, acc: Store)
    requires Encodable(m) && forall k :: k in keys ==> k in m
    requires n < |EncodeEntries(keys, m)|
    ensures DecodeEntries(EncodeEntries(keys, m)[..n], |keys|, acc) == None
  {
    hide *;
    FirstEntry(keys, m);
    var k := keys[0];
    var first, rest := EncodeBytes(k) + EncodeBytes(m[k]), EncodeEntries(keys[1..], m);
    TakeConcat(EncodeBytes(k), EncodeBytes(m[k]), rest, n);
    if n < |first| {
      CutEntry(k, m[k], n, |keys|, acc);
    } else {
      var cut := rest[..n - |first|];
      EntryStep(k, m[k], cut, |keys|, acc);
      CutEntries(keys[1..], m, n - |first|, acc[k := m[k]]);
    }
  }

  lemma FirstEntry(keys: seq<Bytes>, m: Store)
    requires Encodable(m) && (forall k :: k in keys ==> k in m) && EncodeEntries(keys, m) != []
    ensures keys != [] && forall k :: k in keys[1..] ==> k in m
    ensures |keys[0]| < NULL_LENGTH && |m[keys[0]]| < NULL_LENGTH
    ensures EncodeEntries(keys, m)
         == EncodeBytes(keys[0]) + EncodeBytes(m[keys[0]]) + EncodeEntries(keys[1..], m)
  {
    hide EncodeBytes;
    assert keys[0] in keys;
  }

  lemma ShortHeader(s: Bytes)
    requires |s| < 8
    ensures |s| < 4 ==> Decode(s) == None
    ensures |s| >= 4 && s[..4] == BigEndian(STREAM_VERSION, 4) ==> Decode(s) == Some(map[])
  {
    ReadBackU32(STREAM_VERSION, []);
    assert BigEndian(STREAM_VERSION, 4) + [] == BigEndian(STREAM_VERSION, 4);
  }

  /**
   * A proper prefix of a saved stream is rejected exactly when it is one to
   * three bytes long or at least eight; cut to nothing or to four to seven
   * bytes it loads as an empty store.
   */
  lemma CutStream(m: Store, n: nat)
    requires Encodable(m) && n < |Encode(m)|
    ensures Load(Encode(m)[..n]) == None <==> 1 <= n < 4 || n >= 8
    ensures n == 0 || 4 <= n < 8 ==> Load(Encode(m)[..n]) == Some(map[])
  {
    var keys := SortedKeys(m.Keys);
    var entries := EncodeEntries(keys, m);
    var s := Encode(m);
    assert s == BigEndian(STREAM_VERSION, 4) + BigEndian(|m|, 4) + entries;
    hide Encode, EncodeEntries, Decode, DecodeEntries, BigEndian, SortedKeys;
    if n < 8 {
      assert n >= 4 ==> s[..n][..4] == BigEndian(STREAM_VERSION, 4);
      ShortHeader(s[..n]);
    } else {
      assert s[..n] == BigEndian(STREAM_VERSION, 4) + BigEndian(|m|, 4) + entries[..n - 8];
      DecodeHeader(|m|, entries[..n - 8]);
      CutEntries(keys, m, n - 8, map[]);
    }
  }

  /** A version without a count loads as the empty store. */
  lemma CutToVersion()
    ensures Load([0, 0, 0, 1]) == Some(map[])
  {
    var s: Bytes := [0, 0, 0, 1];
    assert s[..4] == s && s[..3] == [0, 0, 0] && s[..3][..2] == [0, 0] && s[..3][..2][..1] == [0];
    assert FromBigEndian([0]) == 0 && FromBigEndian([0, 0]) == 0 && FromBigEndian([0, 0, 0]) == 0;
    assert FromBigEndian(s) == 1;
    assert s[4..] == [];
  }

  /** The fields of the stream are 32 bits wide, the most significant byte first. */
  lemma FieldBytes(v: nat)
    ensures BigEndian(v, 4) == [v / 0x100_0000 % 256, v / 0x1_0000 % 256, v / 0x100 % 256, v % 256]
  {
    ByteAt(v, 4, 0);
    ByteAt(v, 4, 1);
    ByteAt(v, 4, 2);
    ByteAt(v, 4, 3);
    assert Pow256(1) == 0x100 && Pow256(2) == 0x1_0000 && Pow256(3) == 0x100_0000;
    assert v / Pow256(0) == v;
  }

  /** The stream of one short record: version one, one entry, the key with its length, the value with its length. */
  lemma OneEntry(key: Bytes, value: Bytes)
    requires |key| < 256 && |value| < 256
    ensures Encode(map[key := value])
         == [0, 0, 0, 1] + [0, 0, 0, 1] + [0, 0, 0, |key|] + key + [0, 0, 0, |value|] + value
  {
    var m := map[key := value];
    assert m.Keys == {key} && |m| == |m.Keys|;
    OneKey(key);
    FieldBytes(STREAM_VERSION);
    FieldBytes(1);
    ShortBytes(key);
    ShortBytes(value);
    hide BigEndian, EncodeBytes;
    OnlyEntry(key, m);
    var k, v := [0, 0, 0, |key|] + key, [0, 0, 0, |value|] + value;
    assert [0, 0, 0, 1] + [0, 0, 0, 1] + (k + v) == [0, 0, 0, 1] + [0, 0, 0, 1] + [0, 0, 0, |key|] + key + v;
  }

  lemma ShortBytes(b: Bytes)
    requires |b| < 256
    ensures EncodeBytes(b) == [0, 0, 0, |b|] + b
  {
    FieldBytes(|b|);
    hide BigEndian;
  }

  lemma OnlyEntry(key: Bytes, m: Store)
    requires key in m
    ensures EncodeEntries([key], m) == EncodeBytes(key) + EncodeBytes(m[key])
  {
    hide EncodeBytes;
    assert [key][1..] == [] && EncodeEntries([], m) == [];
    assert EncodeBytes(key) + EncodeBytes(m[key]) + [] == EncodeBytes(key) + EncodeBytes(m[key]);
  }

  lemma OneKey(key: Bytes)
    ensures SortedKeys({key}) == [key]
  {
    hide Less;
    SortedUnique(SortedKeys({key}), [key]);
  }

  /** A null byte array, whose length field is all ones, reads as an empty one. */
  lemma NullReads(rest: Bytes)
    ensures ReadBytes([255, 255, 255, 255] + rest) == Some(([], rest))
  {
    FieldBytes(NULL_LENGTH);
    ReadBackU32(NULL_LENGTH, rest);
    hide BigEndian;
  }

  lemma EmptyEncoding()
    ensures Encode(map[]) == [0, 0, 0, 1, 0, 0, 0, 0]
  {
    hide SortedKeys, BigEndian;
    var m: Store := map[];
    NoKeys(m);
    CountBytes();
    assert EncodeEntries([], m) == [];
    assert BigEndian(STREAM_VERSION, 4) + BigEndian(|m|, 4) + [] == [0, 0, 0, 1, 0, 0, 0, 0];
  }

  lemma NoKeys(m: Store)
    requires m == map[]
    ensures |m| == 0 && SortedKeys(m.Keys) == []
  {
    hide SortedKeys;
    assert |m.Keys| == 0;
  }

  lemma CountBytes()
    ensures BigEndian(0, 4) == [0, 0, 0, 0] && BigEndian(STREAM_VERSION, 4) == [0, 0, 0, 1]
  {
    assert BigEndian(0, 1) == [0] && BigEndian(0, 2) == [0, 0] && BigEndian(0, 3) == [0, 0, 0];
    assert BigEndian(1, 4) == BigEndian(0, 3) + [1];
  }
}
