/** Bytes, and the fixed-width integer encodings the on-disk formats use. */
module Bytes {
  type byte = b: int | 0 <= b < 256
  type Bytes = seq<byte>

  /** An ASCII text as bytes. */
  function OfText(s: string): (r: Bytes)
    ensures |r| == |s|
  {
    seq(|s|, i requires 0 <= i < |s| => s[i] as int % 256)
  }

  function Pow256(width: nat): (p: nat)
    ensures p > 0
  {
    if width == 0 then 1 else 256 * Pow256(width - 1)
  }

  /** `v` modulo 256^width, least significant byte first. */
  function LittleEndian(v: nat, width: nat): (r: Bytes)
    ensures |r| == width
  {
    if width == 0 then [] else [v % 256] + LittleEndian(v / 256, width - 1)
  }

  function FromLittleEndian(s: Bytes): nat
  {
    if s == [] then 0 else s[0] + 256 * FromLittleEndian(s[1..])
  }

  lemma {:induction false} LittleEndianRoundTrip(v: nat, width: nat)
    requires v < Pow256(width)
    ensures FromLittleEndian(LittleEndian(v, width)) == v
  {
    if width > 0 {
      LittleEndianRoundTrip(v / 256, width - 1);
      assert LittleEndian(v, width)[1..] == LittleEndian(v / 256, width - 1);
    }
  }

  /** `v` modulo 256^width, most significant byte first. */
  function BigEndian(v: nat, width: nat): (r: Bytes)
    ensures |r| == width
  {
    if width == 0 then [] else BigEndian(v / 256, width - 1) + [v % 256]
  }

  function FromBigEndian(s: Bytes): nat
  {
    if s == [] then 0 else 256 * FromBigEndian(s[..|s| - 1]) + s[|s| - 1]
  }

  lemma {:induction false} BigEndianRoundTrip(v: nat, width: nat)
    requires v < Pow256(width)
    ensures FromBigEndian(BigEndian(v, width)) == v
  {
    if width > 0 {
      BigEndianRoundTrip(v / 256, width - 1);
      assert BigEndian(v, width)[..width - 1] == BigEndian(v / 256, width - 1);
    }
  }

  /** Where each byte of the value is: the least significant first, or last. */
  lemma {:induction false} ByteAt(v: nat, width: nat, i: nat)
    requires i < width
    ensures LittleEndian(v, width)[i] == v / Pow256(i) % 256
    ensures BigEndian(v, width)[width - 1 - i] == v / Pow256(i) % 256
  {
    if i > 0 {
      ByteAt(v / 256, width - 1, i - 1);
      DividedTwice(v, Pow256(i - 1));
    }
  }

  lemma DividedTwice(v: nat, d: nat)
    requires d > 0
    ensures v / 256 / d == v / (256 * d)
  {
    var q := v / 256 / d;
    var r, s := v / 256 % d, v % 256;
    assert v == 256 * (d * q + r) + s;
    Product(d, q);
    var rest := 256 * r + s;
    assert v == 256 * d * q + rest && 0 <= rest < 256 * d;
    Quotient(v, 256 * d, q, rest);
  }

  lemma Product(d: nat, q: nat)
    ensures 256 * (d * q) == 256 * d * q
  {
  }

  lemma Quotient(v: nat, d: nat, q: nat, r: nat)
    requires v == d * q + r && r < d
    ensures v / d == q
  {
    if v / d < q {
      Larger(d, v / d + 1, q);
    } else if v / d > q {
      Larger(d, q + 1, v / d);
    }
  }

  lemma Larger(d: nat, a: nat, b: nat)
    requires a <= b
    ensures d * a <= d * b
  {
  }

  lemma Pow256Values()
    ensures Pow256(4) == 0x1_0000_0000
    ensures Pow256(8) == 0x1_0000_0000_0000_0000
  {
    assert Pow256(1) == 256;
    assert Pow256(2) == 0x1_0000;
    assert Pow256(3) == 0x100_0000;
    assert Pow256(4) == 0x1_0000_0000;
    assert Pow256(5) == 0x100_0000_0000;
    assert Pow256(6) == 0x1_0000_0000_0000;
    assert Pow256(7) == 0x100_0000_0000_0000;
  }

  datatype Option<+T> = None | Some(value: T)
}
