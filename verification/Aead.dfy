/**
 * The disk as a sequence of cells, and the authenticated cipher as a free
 * term algebra: a ciphertext cell records the whole sealing it belongs to, so
 * a run of cells opens exactly when it is that sealing, under the same key,
 * nonce and associated data.  Bytes that were never produced by the cipher
 * (random fill, public header) are `Plain` and never open.
 */
module Aead {
  import opened Bytes

  const NONCE_SIZE: nat := 24
  const MAC_SIZE: nat := 16

  /** The key derived from a passphrase and the container's public salt. */
  datatype Key = Key(passphrase: Bytes, salt: seq<Cell>)

  datatype Cell =
    | Plain(b: byte)
    | Sealed(key: Key, nonce: Bytes, ad: Bytes, pt: Bytes, index: nat)

  function PlainCells(s: Bytes): (r: seq<Cell>)
    ensures |r| == |s|
  {
    seq(|s|, i requires 0 <= i < |s| => Plain(s[i]))
  }

  /** Ciphertext followed by its MAC. */
  function Seal(key: Key, nonce: Bytes, ad: Bytes, pt: Bytes): (ct: seq<Cell>)
    ensures |ct| == |pt| + MAC_SIZE
  {
    seq(|pt| + MAC_SIZE, i requires 0 <= i < |pt| + MAC_SIZE => Sealed(key, nonce, ad, pt, i))
  }

  function Open(key: Key, nonceCells: seq<Cell>, ad: Bytes, ct: seq<Cell>): Option<Bytes>
  {
    if |ct| >= MAC_SIZE && ct[0].Sealed? && nonceCells == PlainCells(ct[0].nonce)
       && ct == Seal(key, ct[0].nonce, ad, ct[0].pt)
    then Some(ct[0].pt)
    else None
  }

  lemma PlainCellsInjective(a: Bytes, b: Bytes)
    requires PlainCells(a) == PlainCells(b)
    ensures a == b
  {
    assert |a| == |b|;
    forall i | 0 <= i < |a| ensures a[i] == b[i] {
      assert PlainCells(a)[i] == PlainCells(b)[i];
    }
  }

  lemma OpenSeal(key: Key, nonce: Bytes, ad: Bytes, pt: Bytes)
    ensures Open(key, PlainCells(nonce), ad, Seal(key, nonce, ad, pt)) == Some(pt)
  {
    assert Seal(key, nonce, ad, pt)[0] == Sealed(key, nonce, ad, pt, 0);
  }

  /** Opening succeeds exactly on sealings of that plaintext under that key, nonce and associated data. */
  lemma OpensIffSealed(key: Key, nonce: Bytes, ad: Bytes, ct: seq<Cell>, pt: Bytes)
    ensures Open(key, PlainCells(nonce), ad, ct) == Some(pt) <==> ct == Seal(key, nonce, ad, pt)
  {
    if Open(key, PlainCells(nonce), ad, ct) == Some(pt) {
      PlainCellsInjective(nonce, ct[0].nonce);
    }
    if ct == Seal(key, nonce, ad, pt) {
      OpenSeal(key, nonce, ad, pt);
    }
  }

  predicate AllPlain(cells: seq<Cell>) {
    forall i :: 0 <= i < |cells| ==> cells[i].Plain?
  }

  lemma RandomNeverOpens(key: Key, nonceCells: seq<Cell>, ad: Bytes, ct: seq<Cell>)
    requires AllPlain(ct)
    ensures Open(key, nonceCells, ad, ct) == None
  {
  }
}
