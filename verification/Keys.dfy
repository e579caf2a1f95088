/** Hierarchical record keys: segments joined by slashes, and what a scan with a prefix of them finds. */
module Keys {
  import opened Sequences
  import opened Bytes

  const SLASH: byte := 47

  predicate SlashFree(s: Bytes) { SLASH !in s }

  predicate AllSlashFree(xs: seq<Bytes>) { forall i :: 0 <= i < |xs| ==> SlashFree(xs[i]) }

  function Join(xs: seq<Bytes>): Bytes {
    if xs == [] then [] else if |xs| == 1 then xs[0] else xs[0] + [SLASH] + Join(xs[1..])
  }

  /** A key's segments: the pieces between its slashes. */
  function Split(k: Bytes): (xs: seq<Bytes>)
    ensures xs != [] && AllSlashFree(xs)
  {
    if k == [] then [[]]
    else
      var rest := Split(k[1..]);
      if k[0] == SLASH then [[]] + rest else [[k[0]] + rest[0]] + rest[1..]
  }

  // ------------------------------------------------------------------
  // Joining and splitting are inverse
  // ------------------------------------------------------------------

  lemma JoinHead(b: byte, xs: seq<Bytes>)
    requires xs != []
    ensures Join([[b] + xs[0]] + xs[1..]) == [b] + Join(xs)
  {
    var ys := [[b] + xs[0]] + xs[1..];
    if |xs| > 1 {
      assert ys[1..] == xs[1..];
      assert [b] + xs[0] + [SLASH] + Join(xs[1..]) == [b] + (xs[0] + [SLASH] + Join(xs[1..]));
    }
  }

  lemma JoinEmptyHead(xs: seq<Bytes>)
    requires xs != []
    ensures Join([[]] + xs) == [SLASH] + Join(xs)
  {
    assert ([[]] + xs)[1..] == xs;
    assert [] + [SLASH] + Join(xs) == [SLASH] + Join(xs);
  }

  lemma {:induction false} JoinSplit(k: Bytes)
    ensures Join(Split(k)) == k
  {
    if k != [] {
      var rest := Split(k[1..]);
      JoinSplit(k[1..]);
      if k[0] == SLASH { JoinEmptyHead(rest); } else { JoinHead(k[0], rest); }
      assert k == [k[0]] + k[1..];
    }
  }

  lemma {:induction false} SplitSegment(s: Bytes)
    requires SlashFree(s)
    ensures Split(s) == [s]
  {
    if s != [] {
      SplitSegment(s[1..]);
      assert [s[0]] + s[1..] == s;
    }
  }

  lemma {:induction false} SplitAtSlash(s: Bytes, k: Bytes)
    requires SlashFree(s)
    ensures Split(s + [SLASH] + k) == [s] + Split(k)
  {
    var whole := s + [SLASH] + k;
    if s == [] {
      assert whole[1..] == k;
    } else {
      assert whole[0] == s[0] && whole[1..] == s[1..] + [SLASH] + k;
      SplitAtSlash(s[1..], k);
      assert ([s[1..]] + Split(k))[1..] == Split(k);
      assert [s[0]] + s[1..] == s;
    }
  }

  lemma {:induction false} SplitJoin(xs: seq<Bytes>)
    requires xs != [] && AllSlashFree(xs)
    ensures Split(Join(xs)) == xs
  {
    if |xs| == 1 {
      SplitSegment(xs[0]);
    } else {
      SplitJoin(xs[1..]);
      SplitAtSlash(xs[0], Join(xs[1..]));
    }
  }

  /** Keys of slash-free segments determine their segments. */
  lemma JoinInjective(xs: seq<Bytes>, ys: seq<Bytes>)
    requires xs != [] && ys != [] && AllSlashFree(xs) && AllSlashFree(ys)
    ensures Join(xs) == Join(ys) <==> xs == ys
  {
    SplitJoin(xs);
    SplitJoin(ys);
  }

  // ------------------------------------------------------------------
  // What a prefix of segments selects
  // ------------------------------------------------------------------

  /** `k` has more segments than `xs`, and begins with them. */
  predicate Extends(k: Bytes, xs: seq<Bytes>) {
    |xs| < |Split(k)| && Split(k)[..|xs|] == xs
  }

  /** The scan prefix for the keys that extend some segments. */
  function ScanPrefix(xs: seq<Bytes>): Bytes
    requires xs != []
  {
    Join(xs) + [SLASH]
  }

  lemma {:induction false} SegmentPrefix(s: Bytes, k: Bytes)
    requires SlashFree(s)
    ensures s + [SLASH] <= k <==> |Split(k)| > 1 && Split(k)[0] == s
    ensures s + [SLASH] <= k ==> Split(k)[1..] == Split(k[|s| + 1..])
  {
    if s + [SLASH] <= k {
      assert k == s + [SLASH] + k[|s| + 1..];
      SplitAtSlash(s, k[|s| + 1..]);
    }
    if |Split(k)| > 1 && Split(k)[0] == s {
      JoinSplit(k);
      assert k == s + [SLASH] + Join(Split(k)[1..]);
    }
  }

  /** A key starts with a scan prefix exactly when its segments start with the prefix's, and go on. */
  lemma {:induction false} PrefixSelects(xs: seq<Bytes>, k: Bytes)
    requires xs != [] && AllSlashFree(xs)
    ensures ScanPrefix(xs) <= k <==> Extends(k, xs)
  {
    hide Split;
    SegmentPrefix(xs[0], k);
    if |xs| == 1 {
      assert xs == [xs[0]];
      assert |Split(k)| > 1 ==> Split(k)[..1] == [Split(k)[0]];
    } else {
      var head := xs[0] + [SLASH];
      assert ScanPrefix(xs) == head + ScanPrefix(xs[1..]);
      PrefixParts(head, ScanPrefix(xs[1..]), k);
      HeadAndRest(xs, Split(k));
      if head <= k { PrefixSelects(xs[1..], k[|head|..]); }
    }
  }

  lemma HeadAndRest(xs: seq<Bytes>, zs: seq<Bytes>)
    requires xs != [] && zs != []
    ensures |xs| < |zs| && zs[..|xs|] == xs
            <==> zs[0] == xs[0] && |xs[1..]| < |zs[1..]| && zs[1..][..|xs| - 1] == xs[1..]
  {
    assert xs == [xs[0]] + xs[1..] && zs == [zs[0]] + zs[1..];
    assert |xs| < |zs| ==> zs[..|xs|] == [zs[0]] + zs[1..][..|xs| - 1];
    assert |xs| < |zs| && zs[..|xs|] == xs ==> zs[..|xs|][0] == xs[0] && zs[..|xs|][1..] == xs[1..];
  }

  lemma PrefixParts(a: Bytes, b: Bytes, k: Bytes)
    ensures a + b <= k <==> a <= k && b <= k[|a|..]
  {
    if a + b <= k {
      assert (a + b)[..|a|] == a && (a + b)[|a|..] == b;
      assert k[..|a|] == k[..|a + b|][..|a|];
      assert k[|a|..][..|b|] == k[..|a + b|][|a|..];
    }
    if a <= k && b <= k[|a|..] {
      assert k == a + k[|a|..] && k[|a|..] == b + k[|a|..][|b|..];
    }
  }

  // ------------------------------------------------------------------
  // The entities and their keys
  // ------------------------------------------------------------------

  datatype Entity = Profile | Persona | Contact | Group | GroupMember | Message | Event | ProfileParam

  /** The constant that starts every key of an entity. */
  function KeyPrefix(e: Entity): (p: Bytes)
    ensures SlashFree(p) && p != []
  {
    match e
    case Profile => [112]
    case Persona => [97]
    case Contact => [99]
    case Group => [103]
    case GroupMember => [103, 109]
    case Message => [109]
    case Event => [101]
    case ProfileParam => [112, 112]
  }

  /** The constants as the entity definitions spell them. */
  lemma PrefixTexts()
    ensures KeyPrefix(Profile) == OfText("p") && KeyPrefix(Persona) == OfText("a") && KeyPrefix(Contact) == OfText("c")
    ensures KeyPrefix(Group) == OfText("g") && KeyPrefix(GroupMember) == OfText("gm")
    ensures KeyPrefix(Message) == OfText("m") && KeyPrefix(Event) == OfText("e")
    ensures KeyPrefix(ProfileParam) == OfText("pp")
  {
    assert OfText("p") == [112] && OfText("a") == [97] && OfText("c") == [99] && OfText("g") == [103];
    assert OfText("gm") == [103, 109] && OfText("m") == [109] && OfText("e") == [101] && OfText("pp") == [112, 112];
  }

  lemma PrefixesDiffer(a: Entity, b: Entity)
    ensures KeyPrefix(a) == KeyPrefix(b) <==> a == b
  {
  }

  /** The key of the record of an entity with these identifying fields; the profile has none. */
  function FullKey(e: Entity, ids: seq<Bytes>): Bytes { Join([KeyPrefix(e)] + ids) }

  /** The prefix for scanning an entity's records by their first identifying fields. */
  function EntityScan(e: Entity, ids: seq<Bytes>): Bytes { ScanPrefix([KeyPrefix(e)] + ids) }

  /** The whole key of a record, by its entity: profile, persona, and those filed under an owner. */
  lemma KeyTexts(x: Bytes, y: Bytes, z: Bytes)
    ensures FullKey(Profile, []) == OfText("p")
    ensures FullKey(Persona, [x]) == OfText("a/") + x && FullKey(ProfileParam, [x]) == OfText("pp/") + x
    ensures FullKey(Contact, [x, y]) == OfText("c/") + x + OfText("/") + y
    ensures FullKey(Group, [x, y]) == OfText("g/") + x + OfText("/") + y
    ensures FullKey(GroupMember, [x, y]) == OfText("gm/") + x + OfText("/") + y
    ensures FullKey(Event, [x, y]) == OfText("e/") + x + OfText("/") + y
    ensures FullKey(Message, [x, y, z]) == OfText("m/") + x + OfText("/") + y + OfText("/") + z
  {
    PrefixTexts();
    hide KeyPrefix, Join;
    KeyOfNone(Profile);
    KeyOfOne(Persona, x, "a");
    KeyOfOne(ProfileParam, x, "pp");
    KeyOfTwo(Contact, x, y, "c");
    KeyOfTwo(Group, x, y, "g");
    KeyOfTwo(GroupMember, x, y, "gm");
    KeyOfTwo(Event, x, y, "e");
    KeyOfThree(Message, x, y, z, "m");
  }

  lemma KeyOfNone(e: Entity)
    ensures FullKey(e, []) == KeyPrefix(e)
  {
    assert [KeyPrefix(e)] + [] == [KeyPrefix(e)];
  }

  lemma SlashText(t: string)
    ensures OfText(t + "/") == OfText(t) + [SLASH] && OfText("/") == [SLASH]
  {
  }

  lemma KeyOfOne(e: Entity, x: Bytes, t: string)
    requires KeyPrefix(e) == OfText(t)
    ensures FullKey(e, [x]) == OfText(t + "/") + x
  {
    SlashText(t);
    JoinOfTwo(KeyPrefix(e), [x]);
    assert Join([x]) == x;
  }

  lemma JoinOfTwo(x: Bytes, xs: seq<Bytes>)
    requires xs != []
    ensures Join([x] + xs) == x + [SLASH] + Join(xs)
  {
    assert ([x] + xs)[1..] == xs;
  }

  lemma KeyOfTwo(e: Entity, x: Bytes, y: Bytes, t: string)
    requires KeyPrefix(e) == OfText(t)
    ensures FullKey(e, [x, y]) == OfText(t + "/") + x + OfText("/") + y
  {
    SlashText(t);
    hide KeyPrefix;
    JoinOfTwo(KeyPrefix(e), [x, y]);
    JoinOfTwo(x, [y]);
    assert [x] + [y] == [x, y] && Join([y]) == y;
  }

  lemma KeyOfThree(e: Entity, x: Bytes, y: Bytes, z: Bytes, t: string)
    requires KeyPrefix(e) == OfText(t)
    ensures FullKey(e, [x, y, z]) == OfText(t + "/") + x + OfText("/") + y + OfText("/") + z
  {
    SlashText(t);
    hide KeyPrefix;
    JoinOfTwo(KeyPrefix(e), [x, y, z]);
    JoinOfTwo(x, [y, z]);
    JoinOfTwo(y, [z]);
    assert [x] + [y, z] == [x, y, z] && [y] + [z] == [y, z] && Join([z]) == z;
  }

  /** The scan prefixes: all of an entity's records, and those under one owner. */
  lemma ScanTexts(x: Bytes)
    ensures EntityScan(Persona, []) == OfText("a/")
    ensures EntityScan(Contact, [x]) == OfText("c/") + x + OfText("/")
    ensures EntityScan(Group, [x]) == OfText("g/") + x + OfText("/")
    ensures EntityScan(GroupMember, [x]) == OfText("gm/") + x + OfText("/")
    ensures EntityScan(Event, [x]) == OfText("e/") + x + OfText("/")
    ensures EntityScan(Message, [x]) == OfText("m/") + x + OfText("/")
    ensures EntityScan(ProfileParam, []) == OfText("pp/")
  {
    PrefixTexts();
    hide KeyPrefix, ScanPrefix;
    ScanOfNone(Persona, "a");
    ScanOfNone(ProfileParam, "pp");
    ScanOfOne(Contact, x, "c");
    ScanOfOne(Group, x, "g");
    ScanOfOne(GroupMember, x, "gm");
    ScanOfOne(Event, x, "e");
    ScanOfOne(Message, x, "m");
  }

  lemma ScanOfNone(e: Entity, t: string)
    requires KeyPrefix(e) == OfText(t)
    ensures EntityScan(e, []) == OfText(t + "/")
  {
    SlashText(t);
    assert [KeyPrefix(e)] + [] == [KeyPrefix(e)] && [KeyPrefix(e)][1..] == [];
  }

  lemma ScanOfOne(e: Entity, x: Bytes, t: string)
    requires KeyPrefix(e) == OfText(t)
    ensures EntityScan(e, [x]) == OfText(t + "/") + x + OfText("/")
  {
    SlashText(t);
    var xs := [KeyPrefix(e)] + [x];
    assert xs[1..] == [x] && [x][1..] == [] && [x][0] == x && xs[0] == KeyPrefix(e);
    assert ScanPrefix([x]) == x + [SLASH];
    assert ScanPrefix(xs) == xs[0] + [SLASH] + ScanPrefix([x]);
    hide KeyPrefix;
  }

  /** Different records have different keys, whatever the entity. */
  lemma FullKeyInjective(a: Entity, xs: seq<Bytes>, b: Entity, ys: seq<Bytes>)
    requires AllSlashFree(xs) && AllSlashFree(ys)
    ensures FullKey(a, xs) == FullKey(b, ys) <==> a == b && xs == ys
  {
    JoinInjective([KeyPrefix(a)] + xs, [KeyPrefix(b)] + ys);
    PrefixesDiffer(a, b);
    if [KeyPrefix(a)] + xs == [KeyPrefix(b)] + ys {
      assert ([KeyPrefix(a)] + xs)[0] == ([KeyPrefix(b)] + ys)[0];
      assert ([KeyPrefix(a)] + xs)[1..] == xs && ([KeyPrefix(b)] + ys)[1..] == ys;
    }
  }

  /** A scan by the first fields meets exactly the records of that entity with those fields and more. */
  lemma ScanSelects(e: Entity, ids: seq<Bytes>, f: Entity, ys: seq<Bytes>)
    requires AllSlashFree(ids) && AllSlashFree(ys)
    ensures EntityScan(e, ids) <= FullKey(f, ys) <==> e == f && |ids| < |ys| && ys[..|ids|] == ids
  {
    var xs, zs := [KeyPrefix(e)] + ids, [KeyPrefix(f)] + ys;
    PrefixSelects(xs, FullKey(f, ys));
    SplitJoin(zs);
    PrefixesDiffer(e, f);
    if |xs| <= |zs| {
      assert zs[..|xs|] == [KeyPrefix(f)] + ys[..|ids|];
      if zs[..|xs|] == xs { assert xs[0] == zs[0] && xs[1..] == ids && zs[..|xs|][1..] == ys[..|ids|]; }
    }
  }

  /** Scans of different entities never meet the same key. */
  lemma ScansApart(a: Entity, xs: seq<Bytes>, b: Entity, ys: seq<Bytes>, k: Bytes)
    requires a != b
    ensures !(EntityScan(a, xs) <= k && EntityScan(b, ys) <= k)
  {
    PrefixesDiffer(a, b);
    ScanStarts(a, xs, k);
    ScanStarts(b, ys, k);
  }

  /** Whatever the fields, a scan of an entity meets only keys whose first segment is the entity's. */
  lemma ScanStarts(e: Entity, ids: seq<Bytes>, k: Bytes)
    ensures EntityScan(e, ids) <= k ==> |Split(k)| > 1 && Split(k)[0] == KeyPrefix(e)
  {
    hide Split, KeyPrefix;
    var start := KeyPrefix(e) + [SLASH];
    var rest := if ids == [] then [] else Join(ids) + [SLASH];
    assert ([KeyPrefix(e)] + ids)[1..] == ids;
    assert EntityScan(e, ids) == start + rest;
    PrefixParts(start, rest, k);
    SegmentPrefix(KeyPrefix(e), k);
  }

  // ------------------------------------------------------------------
  // What a key ends with
  // ------------------------------------------------------------------

  lemma {:induction false} SplitConcat(a: Bytes, b: Bytes)
    ensures Split(a + [SLASH] + b) == Split(a) + Split(b)
  {
    var whole := a + [SLASH] + b;
    if a == [] {
      assert whole[1..] == b;
    } else {
      hide Split;
      assert whole == [a[0]] + whole[1..] && whole[1..] == a[1..] + [SLASH] + b && a == [a[0]] + a[1..];
      SplitConcat(a[1..], b);
      OneMore(a[0], a[1..], whole[1..], Split(b));
    }
  }

  /** A first character keeps a split that is another with more segments so. */
  lemma OneMore(c: byte, s: Bytes, t: Bytes, more: seq<Bytes>)
    requires Split(t) == Split(s) + more
    ensures Split([c] + t) == Split([c] + s) + more
  {
    hide Split;
    SplitCons(c, s);
    SplitCons(c, t);
    if c == SLASH { EmptyInFront(Split(s), more); } else { JoinedInFront(c, Split(s), more); }
  }

  lemma EmptyInFront(xs: seq<Bytes>, more: seq<Bytes>)
    ensures [[]] + (xs + more) == [[]] + xs + more
  {
  }

  lemma JoinedInFront(c: byte, xs: seq<Bytes>, more: seq<Bytes>)
    requires xs != []
    ensures [[c] + (xs + more)[0]] + (xs + more)[1..] == [[c] + xs[0]] + xs[1..] + more
  {
    assert (xs + more)[0] == xs[0] && (xs + more)[1..] == xs[1..] + more;
  }

  lemma SplitCons(c: byte, s: Bytes)
    ensures Split([c] + s) == if c == SLASH then [[]] + Split(s) else [[c] + Split(s)[0]] + Split(s)[1..]
  {
    assert ([c] + s)[1..] == s;
  }

  lemma {:induction false} JoinConcat(xs: seq<Bytes>, ys: seq<Bytes>)
    requires xs != [] && ys != []
    ensures Join(xs + ys) == Join(xs) + [SLASH] + Join(ys)
  {
    if |xs| == 1 {
      assert (xs + ys)[1..] == ys;
    } else {
      assert (xs + ys)[0] == xs[0] && (xs + ys)[1..] == xs[1..] + ys;
      JoinConcat(xs[1..], ys);
      assert xs[0] + [SLASH] + (Join(xs[1..]) + [SLASH] + Join(ys))
          == xs[0] + [SLASH] + Join(xs[1..]) + [SLASH] + Join(ys);
    }
  }

  /**
   * A key ends with a slash and an identifier exactly when its segments end with the identifier's,
   * with some before.
   */
  lemma EndsIffSegments(k: Bytes, id: Bytes)
    ensures EndsWith(k, [SLASH] + id)
            <==> |Split(id)| < |Split(k)| && Split(k)[|Split(k)| - |Split(id)|..] == Split(id)
  {
    hide Split, Join;
    if EndsWith(k, [SLASH] + id) {
      var a := k[..|k| - |id| - 1];
      assert k == a + [SLASH] + id;
      SplitConcat(a, id);
    }
    var xs, ys := Split(k), Split(id);
    if |ys| < |xs| && xs[|xs| - |ys|..] == ys {
      var head := xs[..|xs| - |ys|];
      assert xs == head + ys;
      JoinConcat(head, ys);
      JoinSplit(k);
      JoinSplit(id);
      assert k == Join(head) + ([SLASH] + id);
    }
  }
}
