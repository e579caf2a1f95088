/** The bytewise key order of the store, and the sorted listing of a set of keys. */
module ByteOrder {
  import opened Bytes

  /** `a` comes strictly before `b`. */
  predicate Less(a: Bytes, b: Bytes) {
    if b == [] then false
    else if a == [] then true
    else a[0] < b[0] || (a[0] == b[0] && Less(a[1..], b[1..]))
  }

  /** At the first place where they differ the lesser key ends or has the smaller byte. */
  lemma {:induction false} LessIs(a: Bytes, b: Bytes)
    ensures Less(a, b) <==> exists i :: DiffersAt(a, b, i)
  {
    if b == [] {
    } else if a == [] {
      assert DiffersAt(a, b, 0);
    } else if a[0] != b[0] {
      if a[0] < b[0] { assert DiffersAt(a, b, 0); }
      if exists i :: DiffersAt(a, b, i) {
        var i :| DiffersAt(a, b, i);
        Fronts(a, b, i);
      }
    } else {
      LessIs(a[1..], b[1..]);
      if Less(a[1..], b[1..]) {
        var i :| DiffersAt(a[1..], b[1..], i);
        assert a[..i + 1] == [a[0]] + a[1..][..i] && b[..i + 1] == [b[0]] + b[1..][..i];
        assert DiffersAt(a, b, i + 1);
      }
      if exists i :: DiffersAt(a, b, i) {
        var i :| DiffersAt(a, b, i);
        Fronts(a, b, i);
        assert a[1..][..i - 1] == a[..i][1..] && b[1..][..i - 1] == b[..i][1..];
        assert DiffersAt(a[1..], b[1..], i - 1);
      }
    }
  }

  lemma Fronts(a: Bytes, b: Bytes, i: int)
    requires DiffersAt(a, b, i) && a != []
    ensures if i == 0 then a[0] < b[0] else a[0] == b[0]
  {
    if i > 0 { assert a[..i][0] == b[..i][0]; }
  }

  predicate DiffersAt(a: Bytes, b: Bytes, i: int) {
    0 <= i <= |a| && i < |b| && a[..i] == b[..i] && (i == |a| || a[i] < b[i])
  }

  lemma {:induction false} LessTrans(a: Bytes, b: Bytes, c: Bytes)
    requires Less(a, b) && Less(b, c)
    ensures Less(a, c)
  {
    if a != [] && a[0] == b[0] == c[0] { LessTrans(a[1..], b[1..], c[1..]); }
  }

  lemma {:induction false} LessTotal(a: Bytes, b: Bytes)
    ensures a == b || Less(a, b) || Less(b, a)
  {
    if a != [] && b != [] && a[0] == b[0] {
      LessTotal(a[1..], b[1..]);
      if a[1..] == b[1..] { assert a == [a[0]] + a[1..] && b == [b[0]] + b[1..]; }
    }
  }

  lemma {:induction false} LessIrreflexive(a: Bytes)
    ensures !Less(a, a)
  {
    if a != [] { LessIrreflexive(a[1..]); }
  }

  lemma LessAsymmetric(a: Bytes, b: Bytes)
    requires Less(a, b)
    ensures !Less(b, a) && a != b
  {
    LessIrreflexive(a);
    if Less(b, a) { LessTrans(a, b, a); }
  }

  predicate Sorted(s: seq<Bytes>) {
    forall i, j :: 0 <= i < j < |s| ==> Less(s[i], s[j])
  }

  predicate IsLeast(k: Bytes, s: set<Bytes>) {
    k in s && forall x :: x in s && x != k ==> Less(k, x)
  }

  lemma {:induction false} LeastExists(s: set<Bytes>)
    requires s != {}
    ensures exists k :: IsLeast(k, s)
  {
    var x :| x in s;
    var rest := s - {x};
    if rest == {} {
      assert s == {x};
      assert IsLeast(x, s);
    } else {
      LeastExists(rest);
      var k :| IsLeast(k, rest);
      LessTotal(x, k);
      if Less(x, k) {
        forall y | y in s && y != x ensures Less(x, y) {
          if y != k { LessTrans(x, k, y); }
        }
        assert IsLeast(x, s);
      } else {
        assert IsLeast(k, s);
      }
    }
  }

  lemma LeastUnique(a: Bytes, b: Bytes, s: set<Bytes>)
    requires IsLeast(a, s) && IsLeast(b, s)
    ensures a == b
  {
    if a != b { LessAsymmetric(a, b); }
  }

  function Least(s: set<Bytes>): (k: Bytes)
    requires s != {}
    ensures IsLeast(k, s)
  {
    LeastExists(s);
    assert forall a, b | IsLeast(a, s) && IsLeast(b, s) :: a == b by {
      forall a, b | IsLeast(a, s) && IsLeast(b, s) ensures a == b { LeastUnique(a, b, s); }
    }
    var k :| IsLeast(k, s);
    k
  }

  /** The keys in ascending order: what an iterator over the store visits. */
  function SortedKeys(s: set<Bytes>): (r: seq<Bytes>)
    ensures |r| == |s|
    ensures forall k :: k in r <==> k in s
    ensures Sorted(r)
  {
    if s == {} then []
    else
      var k := Least(s);
      var rest := SortedKeys(s - {k});
      assert forall j :: 0 <= j < |rest| ==> rest[j] in rest;
      [k] + rest
  }

  /** Two ascending listings of the same keys are the same. */
  lemma {:induction false} SortedUnique(a: seq<Bytes>, b: seq<Bytes>)
    requires Sorted(a) && Sorted(b) && forall k :: k in a <==> k in b
    ensures a == b
  {
    assert b == [] || b[0] in b;
    if a != [] {
      assert a[0] in a && a[0] in b;
      var j :| 0 <= j < |b| && b[j] == a[0];
      assert b[0] in b && b[0] in a;
      var i :| 0 <= i < |a| && a[i] == b[0];
      if i > 0 && j > 0 { LessAsymmetric(a[0], b[0]); }
      TailElements(a, b);
      SortedUnique(a[1..], b[1..]);
    }
  }

  lemma TailElements(a: seq<Bytes>, b: seq<Bytes>)
    requires Sorted(a) && Sorted(b) && (forall k :: k in a <==> k in b) && a != [] && b != [] && a[0] == b[0]
    ensures forall k :: k in a[1..] <==> k in b[1..]
  {
    LessIrreflexive(a[0]);
    assert a == [a[0]] + a[1..] && b == [b[0]] + b[1..];
    forall k ensures k in a[1..] <==> k in b[1..] {
      if k in a[1..] { assert k in a; assert k != a[0]; }
      if k in b[1..] { assert k in b; assert k != b[0]; }
    }
  }

  // ------------------------------------------------------------------
  // Prefixes in the order
  // ------------------------------------------------------------------

  /** A prefix comes no later than what it begins. */
  lemma {:induction false} PrefixNotGreater(p: Bytes, k: Bytes)
    requires p <= k
    ensures !Less(k, p)
  {
    if p != [] { PrefixNotGreater(p[1..], k[1..]); }
  }

  /** Keys with a given prefix are contiguous: past the prefix, nothing between it and one of them lacks it. */
  lemma {:induction false} PrefixContiguous(p: Bytes, k: Bytes, l: Bytes)
    requires !Less(k, p) && Less(k, l) && p <= l
    ensures p <= k
  {
    if p != [] {
      assert k != [];
      PrefixContiguous(p[1..], k[1..], l[1..]);
      assert k == [k[0]] + k[1..] && p == [p[0]] + p[1..];
    }
  }
}
