/** The container's layout constants and the 88-byte record a header slot seals. */
module FilePointerCodec {
  import opened Bytes

  const MAGIC_SIZE: nat := 8
  const SALT_SIZE: nat := 16
  const SLOT_COUNT: nat := 4096
  const SLOT_SIZE: nat := 128
  const HEADER_OFFSET: nat := MAGIC_SIZE + SALT_SIZE
  const HEADER_SIZE: nat := SLOT_COUNT * SLOT_SIZE
  const TOTAL_HEADER: nat := HEADER_OFFSET + HEADER_SIZE
  const SLOT_PLAINTEXT_SIZE: nat := 88
  const MAX_FILENAME_BYTES: nat := 46
  const UUID_SIZE: nat := 16
  const TWO_64: nat := 0x1_0000_0000_0000_0000

  type Uuid = b: Bytes | |b| == UUID_SIZE witness seq(UUID_SIZE, _ => 0)
  type uint64 = n: int | 0 <= n < TWO_64

  /** `filename` is the name's UTF-8 form; `slotIndex` exists only in memory. */
  datatype FilePointer = FilePointer(
    id: Uuid,
    filename: Bytes,
    dataOffset: uint64,
    allocatedSize: uint64,
    usedSize: uint64,
    flags: byte,
    slotIndex: int)

  function Zeros(n: nat): (z: Bytes)
    ensures |z| == n
  {
    seq(n, _ => 0)
  }

  function Serialize(fp: FilePointer): (buf: Bytes)
    ensures |buf| == SLOT_PLAINTEXT_SIZE
  {
    var name := if |fp.filename| <= MAX_FILENAME_BYTES then fp.filename else fp.filename[..MAX_FILENAME_BYTES];
    fp.id + [|name|] + name + Zeros(MAX_FILENAME_BYTES - |name|)
    + LittleEndian(fp.dataOffset, 8) + LittleEndian(fp.allocatedSize, 8) + LittleEndian(fp.usedSize, 8)
    + [fp.flags]
  }

  /** Reads back a record; the slot index is not part of it. */
  function Deserialize(buf: Bytes): Option<FilePointer>
  {
    if |buf| < SLOT_PLAINTEXT_SIZE || buf[16] > MAX_FILENAME_BYTES then None
    else Some(FilePointer(
      buf[..16],
      buf[17..17 + buf[16]],
      FromLittleEndian64(buf[63..71]),
      FromLittleEndian64(buf[71..79]),
      FromLittleEndian64(buf[79..87]),
      buf[87],
      -1))
  }

  function FromLittleEndian64(s: Bytes): uint64
    requires |s| == 8
  {
    LittleEndianBound(s);
    Pow256Values();
    FromLittleEndian(s)
  }

  lemma {:induction false} LittleEndianBound(s: Bytes)
    ensures FromLittleEndian(s) < Pow256(|s|)
  {
    if s != [] { LittleEndianBound(s[1..]); }
  }

  lemma Field64RoundTrip(v: uint64)
    ensures FromLittleEndian64(LittleEndian(v, 8)) == v
  {
    Pow256Values();
    LittleEndianRoundTrip(v, 8);
  }

  lemma SerializedFields(fp: FilePointer)
    requires |fp.filename| <= MAX_FILENAME_BYTES
    ensures var buf := Serialize(fp);
            && buf[..16] == fp.id && buf[16] == |fp.filename| && buf[17..17 + |fp.filename|] == fp.filename
            && buf[63..71] == LittleEndian(fp.dataOffset, 8)
            && buf[71..79] == LittleEndian(fp.allocatedSize, 8)
            && buf[79..87] == LittleEndian(fp.usedSize, 8)
            && buf[87] == fp.flags
  {
  }

  /** A record survives the codec exactly when its name fits in 46 bytes; longer names come back cut. */
  lemma RoundTripIffNameFits(fp: FilePointer)
    ensures Deserialize(Serialize(fp)) == Some(fp.(slotIndex := -1)) <==> |fp.filename| <= MAX_FILENAME_BYTES
  {
    if |fp.filename| <= MAX_FILENAME_BYTES {
      SerializedFields(fp);
      Field64RoundTrip(fp.dataOffset);
      Field64RoundTrip(fp.allocatedSize);
      Field64RoundTrip(fp.usedSize);
    }
  }

  /** Whatever is decoded fits the record's fields, so it re-encodes to something that decodes to it again. */
  lemma DecodedNameFits(buf: Bytes)
    ensures Deserialize(buf).Some? ==>
              && |Deserialize(buf).value.filename| <= MAX_FILENAME_BYTES
              && Deserialize(Serialize(Deserialize(buf).value)) == Deserialize(buf)
  {
    if Deserialize(buf).Some? {
      RoundTripIffNameFits(Deserialize(buf).value);
    }
  }
}
