/** The plugin registry: which interfaces are active, in what order they became so, and who holds a core proxy. */
module Registry {
  import opened Sequences
  import opened Bytes

  type Name = string
  type Iid = string
  /** The identity of a plugin object. */
  type Instance = nat

  /** An activation: one interface of one plugin. */
  datatype Entry = Entry(name: Name, iid: Iid)

  type Table = map<Name, map<Iid, Option<Instance>>>

  function PluginAt(plugins: Table, name: Name, iid: Iid): Option<Instance> {
    if name in plugins && iid in plugins[name] then plugins[name][iid] else None
  }

  function ActiveAt(active: map<Iid, seq<Instance>>, iid: Iid): seq<Instance> {
    if iid in active then active[iid] else []
  }

  /** Plugins are told apart by their objects: one object per name, shared by the interfaces it implements. */
  ghost predicate OneObjectPerName(plugins: Table) {
    forall n, i, m, j :: PluginAt(plugins, n, i).Some? && PluginAt(plugins, m, j).Some? ==>
      (PluginAt(plugins, n, i) == PluginAt(plugins, m, j) <==> n == m)
  }

  /** The objects of the activations of one interface, in activation order. */
  function Select(plugins: Table, order: seq<Entry>, iid: Iid): seq<Instance> {
    if order == [] then []
    else
      var before, e := Select(plugins, order[..|order| - 1], iid), order[|order| - 1];
      if e.iid == iid && PluginAt(plugins, e.name, iid).Some?
      then before + [PluginAt(plugins, e.name, iid).value] else before
  }

  predicate NoDuplicates<T(==)>(s: seq<T>) {
    forall i, j :: 0 <= i < j < |s| ==> s[i] != s[j]
  }

  predicate IsActive(order: seq<Entry>, name: Name) {
    exists i :: 0 <= i < |order| && order[i].name == name
  }

  /** The three indexes say the same: the order, without repetition, determines the other two. */
  ghost predicate Agree(plugins: Table, active: map<Iid, seq<Instance>>, proxies: set<Name>, order: seq<Entry>) {
    && NoDuplicates(order)
    && (forall i :: 0 <= i < |order| ==> PluginAt(plugins, order[i].name, order[i].iid).Some?)
    && (forall iid :: ActiveAt(active, iid) == Select(plugins, order, iid))
    && (forall name :: name in proxies <==> IsActive(order, name))
  }

  /** The names in an activation order, by first appearance. */
  function FirstNames(order: seq<Entry>): seq<Name> {
    if order == [] then []
    else
      var before, e := order[..|order| - 1], order[|order| - 1];
      if IsActive(before, e.name) then FirstNames(before) else FirstNames(before) + [e.name]
  }

  // ------------------------------------------------------------------
  // How the order and its selections move
  // ------------------------------------------------------------------

  lemma SelectAppend(plugins: Table, order: seq<Entry>, e: Entry, iid: Iid)
    requires PluginAt(plugins, e.name, e.iid).Some?
    ensures Select(plugins, order + [e], iid)
         == if e.iid == iid then Select(plugins, order, iid) + [PluginAt(plugins, e.name, iid).value]
            else Select(plugins, order, iid)
  {
    assert (order + [e])[..|order|] == order;
  }

  lemma {:induction false} SelectSame(p: Table, q: Table, order: seq<Entry>, iid: Iid)
    requires forall n, i :: PluginAt(p, n, i) == PluginAt(q, n, i)
    ensures Select(p, order, iid) == Select(q, order, iid)
  {
    hide PluginAt;
    if order != [] { SelectSame(p, q, order[..|order| - 1], iid); }
  }

  /** An object is selected for an interface exactly when its activation is in the order. */
  lemma {:induction false} SelectHolds(plugins: Table, order: seq<Entry>, name: Name, iid: Iid)
    requires OneObjectPerName(plugins) && PluginAt(plugins, name, iid).Some?
    ensures PluginAt(plugins, name, iid).value in Select(plugins, order, iid) <==> Entry(name, iid) in order
  {
    hide PluginAt;
    if order != [] {
      var before, e := order[..|order| - 1], order[|order| - 1];
      SelectHolds(plugins, before, name, iid);
      assert order == before + [e];
    }
  }

  /** An object is selected for some interface only if its plugin has an activation there. */
  lemma {:induction false} SelectFrom(plugins: Table, order: seq<Entry>, name: Name, iid: Iid, other: Iid)
    requires OneObjectPerName(plugins) && PluginAt(plugins, name, iid).Some?
    requires PluginAt(plugins, name, iid).value in Select(plugins, order, other)
    ensures Entry(name, other) in order
  {
    hide PluginAt;
    var before, e := order[..|order| - 1], order[|order| - 1];
    assert order == before + [e];
    if PluginAt(plugins, name, iid).value in Select(plugins, before, other) {
      SelectFrom(plugins, before, name, iid, other);
    }
  }

  /** Taking an activation out of the order takes its object out of the interface's selection. */
  lemma {:induction false} SelectWithout(plugins: Table, order: seq<Entry>, k: nat, iid: Iid)
    requires OneObjectPerName(plugins) && NoDuplicates(order) && k < |order|
    requires forall i :: 0 <= i < |order| ==> PluginAt(plugins, order[i].name, order[i].iid).Some?
    ensures Select(plugins, Without(order, k), iid)
         == if order[k].iid == iid
            then RemoveOne(Select(plugins, order, iid), PluginAt(plugins, order[k].name, iid).value)
            else Select(plugins, order, iid)
  {
    hide PluginAt, Select, OneObjectPerName, RemoveOne;
    var n := |order| - 1;
    var before, e := order[..n], order[n];
    assert before + [e] == order;
    SelectAppend(plugins, before, e, iid);
    if k == n {
      assert Without(order, k) == before;
      SelectWithoutLast(plugins, before, e, iid);
    } else {
      assert Without(order, k) == Without(before, k) + [e] && before[k] == order[k];
      SelectWithout(plugins, before, k, iid);
      SelectAppend(plugins, Without(before, k), e, iid);
      SelectWithoutEarlier(plugins, before, order[k], e, iid);
    }
  }

  lemma SelectWithoutLast(plugins: Table, before: seq<Entry>, e: Entry, iid: Iid)
    requires OneObjectPerName(plugins) && e !in before && PluginAt(plugins, e.name, e.iid).Some?
    ensures e.iid == iid ==>
              var x := PluginAt(plugins, e.name, iid).value;
              RemoveOne(Select(plugins, before, iid) + [x], x) == Select(plugins, before, iid)
  {
    hide PluginAt, Select, OneObjectPerName;
    if e.iid == iid {
      SelectHolds(plugins, before, e.name, iid);
      RemoveLast(Select(plugins, before, iid), PluginAt(plugins, e.name, iid).value);
    }
  }

  lemma SelectWithoutEarlier(plugins: Table, before: seq<Entry>, gone: Entry, e: Entry, iid: Iid)
    requires OneObjectPerName(plugins) && gone in before
    requires PluginAt(plugins, gone.name, gone.iid).Some? && PluginAt(plugins, e.name, e.iid).Some?
    ensures gone.iid == iid ==>
              var x, y := PluginAt(plugins, gone.name, iid).value, PluginAt(plugins, e.name, e.iid).value;
              RemoveOne(Select(plugins, before, iid) + [y], x) == RemoveOne(Select(plugins, before, iid), x) + [y]
  {
    hide PluginAt, Select, OneObjectPerName;
    if gone.iid == iid {
      SelectHolds(plugins, before, gone.name, iid);
      RemoveEarlier(Select(plugins, before, iid), PluginAt(plugins, gone.name, iid).value,
                    PluginAt(plugins, e.name, e.iid).value);
    }
  }

  /** A list without the first occurrence of x. */
  function RemoveOne<T(==)>(s: seq<T>, x: T): seq<T> {
    if s == [] then [] else if s[0] == x then s[1..] else [s[0]] + RemoveOne(s[1..], x)
  }

  lemma {:induction false} RemoveLast<T>(s: seq<T>, x: T)
    requires x !in s
    ensures RemoveOne(s + [x], x) == s
  {
    if s == [] { assert s + [x] == [x]; }
    else {
      assert (s + [x])[1..] == s[1..] + [x];
      RemoveLast(s[1..], x);
      assert s == [s[0]] + s[1..];
    }
  }

  lemma {:induction false} RemoveEarlier<T>(s: seq<T>, x: T, y: T)
    requires x in s
    ensures RemoveOne(s + [y], x) == RemoveOne(s, x) + [y]
  {
    assert (s + [y])[1..] == s[1..] + [y];
    if s[0] != x {
      assert s == [s[0]] + s[1..];
      RemoveEarlier(s[1..], x, y);
    }
  }

  lemma ActiveWithout(order: seq<Entry>, k: nat, name: Name)
    requires k < |order|
    ensures IsActive(order, name) <==> order[k].name == name || IsActive(Without(order, k), name)
  {
    var rest := Without(order, k);
    if IsActive(rest, name) {
      var i :| 0 <= i < |rest| && rest[i].name == name;
      assert order[if i < k then i else i + 1].name == name;
    }
    if IsActive(order, name) && order[k].name != name {
      var i :| 0 <= i < |order| && order[i].name == name;
      assert rest[if i < k then i else i - 1].name == name;
    }
  }

  // ------------------------------------------------------------------
  // The registry object
  // ------------------------------------------------------------------

  class Plugins {
    var plugins: Table
    var active: map<Iid, seq<Instance>>
    var proxies: set<Name>
    var order: seq<Entry>
    /** The init and deinit calls the plugins have had, by name. */
    ghost var inits: seq<Name>
    ghost var deinits: seq<Name>

    constructor (plugins: Table)
      requires OneObjectPerName(plugins)
      ensures Valid() && this.plugins == plugins && order == [] && inits == [] && deinits == []
    {
      this.plugins := plugins;
      active := map[];
      proxies := {};
      order := [];
      inits := [];
      deinits := [];
    }

    ghost predicate Valid()
      reads this`plugins, this`active, this`proxies, this`order
    {
      OneObjectPerName(plugins) && Agree(plugins, active, proxies, order)
    }

    /** Looking a plugin up enters an empty place for one that is not there. */
    method Find(name: Name, iid: Iid) returns (plugin: Option<Instance>)
      requires Valid()
      modifies this`plugins
      ensures Valid() && plugin == PluginAt(plugins, name, iid)
      ensures forall n, i :: PluginAt(plugins, n, i) == PluginAt(old(plugins), n, i)
      ensures name in plugins && iid in plugins[name]
    {
      if name !in plugins { plugins := plugins[name := map[]]; }
      if iid !in plugins[name] { plugins := plugins[name := plugins[name][iid := None]]; }
      plugin := plugins[name][iid];
      SameTable(old(plugins), plugins, active, proxies, order);
    }

    /** `enabled` is the plugin's setting. */
    method ActivateInterface(name: Name, iid: Iid, enabled: bool) returns (ok: bool)
      requires Valid()
      modifies this
      ensures Valid() && deinits == old(deinits)
      ensures forall n, i :: PluginAt(plugins, n, i) == PluginAt(old(plugins), n, i)
      ensures ok <==> enabled && PluginAt(plugins, name, iid).Some? && Entry(name, iid) !in old(order)
      ensures order == if ok then old(order) + [Entry(name, iid)] else old(order)
      ensures inits == if enabled && PluginAt(plugins, name, iid).Some? then old(inits) + [name] else old(inits)
    {
      if !enabled { return false; }
      hide PluginAt, OneObjectPerName, Select, ActiveAt, IsActive;
      var plugin := Find(name, iid);
      if plugin == None { return false; }
      ghost var proxiesBefore := proxies;
      if name !in proxies { proxies := proxies + {name}; }
      inits := inits + [name];
      KnownByOrder(plugins, active, proxiesBefore, order, name, iid);
      if plugin.value !in LookUp(active, iid) {
        active := active[iid := LookUp(active, iid) + [plugin.value]];
        order := order + [Entry(name, iid)];
        AgreeAppend(plugins, old(active), active, proxiesBefore, proxies, old(order), Entry(name, iid));
        ok := true;
      } else {
        ActiveHasProxy(plugins, active, proxiesBefore, order, Entry(name, iid));
        ok := false;
      }
    }

    method DeactivateInterface(name: Name, iid: Iid) returns (ok: bool)
      requires Valid()
      modifies this
      ensures Valid() && inits == old(inits)
      ensures forall n, i :: PluginAt(plugins, n, i) == PluginAt(old(plugins), n, i)
      ensures ok <==> Entry(name, iid) in old(order)
      ensures !ok ==> order == old(order) && deinits == old(deinits)
      ensures ok ==> exists k :: Removed(old(order), order, Entry(name, iid), k)
      ensures ok ==> deinits == if IsActive(order, name) then old(deinits) else old(deinits) + [name]
    {
      hide PluginAt, OneObjectPerName, Select, ActiveAt, IsActive, Without;
      var plugin := Find(name, iid);
      if plugin == None {
        NotInOrder(plugins, active, proxies, order, Entry(name, iid));
        return false;
      }
      KnownByOrder(plugins, active, proxies, order, name, iid);
      if plugin.value !in LookUp(active, iid) { return false; }
      var k := LastMatch(order, Entry(name, iid));
      active := active[iid := RemoveOne(LookUp(active, iid), plugin.value)];
      order := Without(order, k);
      assert Removed(old(order), order, Entry(name, iid), k);
      ActiveFollows(plugins, old(active), active, proxies, old(order), k);
      StillKnown(plugins, active, order, name, iid);
      var elsewhere := HeldAnywhere(plugin.value);
      if elsewhere {
        AgreeWithout(plugins, active, proxies, proxies, old(order), k);
        return true;
      }
      deinits := deinits + [name];
      ghost var proxiesBefore := proxies;
      if name in proxies { proxies := proxies - {name}; }
      AgreeWithout(plugins, active, proxiesBefore, proxies, old(order), k);
      ok := true;
    }

    /** Whether an object is still active for any interface. */
    method HeldAnywhere(plugin: Instance) returns (found: bool)
      ensures found <==> exists iid :: plugin in ActiveAt(active, iid)
    {
      var todo := active.Keys;
      while todo != {}
        invariant todo <= active.Keys
        invariant forall iid :: iid in active && iid !in todo ==> plugin !in active[iid]
        decreases |todo|
      {
        var iid :| iid in todo;
        if plugin in active[iid] {
          assert plugin in ActiveAt(active, iid);
          return true;
        }
        todo := todo - {iid};
      }
      found := false;
    }

    /** Every activation undone, the last first; each plugin deinitialised once, the last to start first. */
    method ShutdownAllPluginsInReverseOrder()
      requires Valid()
      modifies this
      ensures Valid() && order == [] && proxies == {} && (forall iid :: ActiveAt(active, iid) == [])
      ensures deinits == old(deinits) + Reverse(FirstNames(old(order)))
      ensures inits == old(inits)
    {
      hide Agree, OneObjectPerName, PluginAt, FirstNames, Reverse, IsActive;
      var i := |order| - 1;
      assert order[..i + 1] == order;
      while i >= 0
        invariant -1 <= i && |order| == i + 1 && Valid()
        invariant deinits + Reverse(FirstNames(order)) == old(deinits) + Reverse(FirstNames(old(order)))
        invariant inits == old(inits)
        decreases i
      {
        ghost var before, log := order, deinits;
        assert order[i] in order;
        NoDuplicatesInOrder(plugins, active, proxies, order);
        var ok := DeactivateInterface(order[i].name, order[i].iid);
        LastRemoved(before, order, before[i]);
        Unwound(before, log);
        i := i - 1;
      }
      NothingActive(plugins, active, proxies);
      assert order == [];
      NoNames();
    }
  }

  /** The position of the last occurrence. */
  method LastMatch(order: seq<Entry>, e: Entry) returns (k: nat)
    requires e in order
    ensures k < |order| && order[k] == e
  {
    var i := |order| - 1;
    while i >= 0
      invariant -1 <= i < |order| && e in order[..i + 1]
      decreases i
    {
      if order[i].name == e.name && order[i].iid == e.iid { return i; }
      assert order[..i + 1] == order[..i] + [order[i]];
      i := i - 1;
    }
    assert false;
  }

  function LookUp(active: map<Iid, seq<Instance>>, iid: Iid): (r: seq<Instance>)
    ensures r == ActiveAt(active, iid)
  {
    if iid in active then active[iid] else []
  }

  ghost predicate Removed(order: seq<Entry>, after: seq<Entry>, e: Entry, k: nat) {
    k < |order| && order[k] == e && after == Without(order, k)
  }

  // ------------------------------------------------------------------
  // The agreement, step by step
  // ------------------------------------------------------------------

  lemma SameTable(p: Table, q: Table, active: map<Iid, seq<Instance>>, proxies: set<Name>, order: seq<Entry>)
    requires OneObjectPerName(p) && Agree(p, active, proxies, order)
             && forall n, i :: PluginAt(p, n, i) == PluginAt(q, n, i)
    ensures OneObjectPerName(q) && Agree(q, active, proxies, order)
  {
    hide PluginAt, Select;
    forall iid ensures Select(p, order, iid) == Select(q, order, iid) { SelectSame(p, q, order, iid); }
  }

  lemma KnownByOrder(plugins: Table, active: map<Iid, seq<Instance>>, proxies: set<Name>, order: seq<Entry>,
                     name: Name, iid: Iid)
    requires OneObjectPerName(plugins) && Agree(plugins, active, proxies, order) && PluginAt(plugins, name, iid).Some?
    ensures PluginAt(plugins, name, iid).value in ActiveAt(active, iid) <==> Entry(name, iid) in order
    ensures NoDuplicates(order)
  {
    hide PluginAt, Select, OneObjectPerName;
    SelectHolds(plugins, order, name, iid);
  }

  lemma ActiveHasProxy(plugins: Table, active: map<Iid, seq<Instance>>, proxies: set<Name>, order: seq<Entry>, e: Entry)
    requires Agree(plugins, active, proxies, order) && e in order
    ensures e.name in proxies
  {
    var i :| 0 <= i < |order| && order[i] == e;
    assert IsActive(order, order[i].name);
  }

  lemma NotInOrder(plugins: Table, active: map<Iid, seq<Instance>>, proxies: set<Name>, order: seq<Entry>, e: Entry)
    requires Agree(plugins, active, proxies, order) && PluginAt(plugins, e.name, e.iid) == None
    ensures e !in order
  {
    hide PluginAt, Select;
  }

  lemma AgreeAppend(plugins: Table, active: map<Iid, seq<Instance>>, after: map<Iid, seq<Instance>>,
                    proxies: set<Name>, proxiesAfter: set<Name>, order: seq<Entry>, e: Entry)
    requires Agree(plugins, active, proxies, order) && e !in order && PluginAt(plugins, e.name, e.iid).Some?
    requires after == active[e.iid := ActiveAt(active, e.iid) + [PluginAt(plugins, e.name, e.iid).value]]
    requires proxiesAfter == proxies + {e.name}
    ensures Agree(plugins, after, proxiesAfter, order + [e])
  {
    hide PluginAt, Select;
    var longer := order + [e];
    forall iid ensures ActiveAt(after, iid) == Select(plugins, longer, iid) { SelectAppend(plugins, order, e, iid); }
    forall name ensures name in proxiesAfter <==> IsActive(longer, name) {
      assert Without(longer, |order|) == order;
      ActiveWithout(longer, |order|, name);
    }
  }

  lemma ActiveFollows(plugins: Table, active: map<Iid, seq<Instance>>, after: map<Iid, seq<Instance>>,
                      proxies: set<Name>, order: seq<Entry>, k: nat)
    requires OneObjectPerName(plugins) && Agree(plugins, active, proxies, order) && k < |order|
    requires var e := order[k];
             after == active[e.iid := RemoveOne(ActiveAt(active, e.iid), PluginAt(plugins, e.name, e.iid).value)]
    ensures forall iid :: ActiveAt(after, iid) == Select(plugins, Without(order, k), iid)
    ensures forall i :: 0 <= i < |order| ==> PluginAt(plugins, order[i].name, order[i].iid).Some?
    ensures NoDuplicates(order) && forall name :: name in proxies <==> IsActive(order, name)
  {
    hide PluginAt, Select, OneObjectPerName, IsActive;
    forall iid
      ensures ActiveAt(after, iid) == Select(plugins, Without(order, k), iid) {
      SelectWithout(plugins, order, k, iid);
    }
  }

  /** The object is still active for some interface exactly when its plugin still has an activation. */
  lemma StillKnown(plugins: Table, active: map<Iid, seq<Instance>>, order: seq<Entry>, name: Name, iid: Iid)
    requires OneObjectPerName(plugins) && PluginAt(plugins, name, iid).Some?
    requires forall i :: 0 <= i < |order| ==> PluginAt(plugins, order[i].name, order[i].iid).Some?
    requires forall i :: ActiveAt(active, i) == Select(plugins, order, i)
    ensures (exists i :: PluginAt(plugins, name, iid).value in ActiveAt(active, i)) <==> IsActive(order, name)
  {
    hide PluginAt, Select, ActiveAt;
    var obj := PluginAt(plugins, name, iid).value;
    if exists i :: obj in ActiveAt(active, i) {
      var i :| obj in ActiveAt(active, i);
      SelectFrom(plugins, order, name, iid, i);
    }
    if IsActive(order, name) {
      var k :| 0 <= k < |order| && order[k].name == name;
      var other := order[k].iid;
      SelectHolds(plugins, order, name, other);
      assert order[k] == Entry(name, other);
      SameObject(plugins, name, iid, other);
      assert obj in ActiveAt(active, other);
    }
  }

  lemma SameObject(plugins: Table, name: Name, iid: Iid, other: Iid)
    requires OneObjectPerName(plugins) && PluginAt(plugins, name, iid).Some? && PluginAt(plugins, name, other).Some?
    ensures PluginAt(plugins, name, iid) == PluginAt(plugins, name, other)
  {
    hide PluginAt;
  }

  lemma AgreeWithout(plugins: Table, after: map<Iid, seq<Instance>>, proxies: set<Name>, proxiesAfter: set<Name>,
                     order: seq<Entry>, k: nat)
    requires k < |order| && NoDuplicates(order)
    requires forall iid :: ActiveAt(after, iid) == Select(plugins, Without(order, k), iid)
    requires forall i :: 0 <= i < |order| ==> PluginAt(plugins, order[i].name, order[i].iid).Some?
    requires forall name :: name in proxies <==> IsActive(order, name)
    requires proxiesAfter == if IsActive(Without(order, k), order[k].name) then proxies else proxies - {order[k].name}
    ensures Agree(plugins, after, proxiesAfter, Without(order, k))
  {
    hide PluginAt, Select, ActiveAt, IsActive;
    forall name ensures name in proxiesAfter <==> IsActive(Without(order, k), name) { ActiveWithout(order, k, name); }
  }

  lemma NoDuplicatesInOrder(plugins: Table, active: map<Iid, seq<Instance>>, proxies: set<Name>, order: seq<Entry>)
    requires Agree(plugins, active, proxies, order)
    ensures NoDuplicates(order)
  {
  }

  /** In an order without repetition, removing the last entry leaves the ones before it. */
  lemma LastRemoved(order: seq<Entry>, after: seq<Entry>, e: Entry)
    requires order != [] && NoDuplicates(order) && e == order[|order| - 1]
    requires exists k :: Removed(order, after, e, k)
    ensures after == order[..|order| - 1]
  {
    var k :| Removed(order, after, e, k);
    assert k == |order| - 1;
  }

  /** Undoing the last activation moves its plugin's name from the names to undo to the log, if it was the first. */
  lemma Unwound(order: seq<Entry>, log: seq<Name>)
    requires order != []
    ensures var before, name := order[..|order| - 1], order[|order| - 1].name;
            log + Reverse(FirstNames(order))
            == (if IsActive(before, name) then log else log + [name]) + Reverse(FirstNames(before))
  {
    hide IsActive;
    var before, name := order[..|order| - 1], order[|order| - 1].name;
    var names := FirstNames(before) + [name];
    assert names[..|names| - 1] == FirstNames(before);
    assert log + ([name] + Reverse(FirstNames(before))) == log + [name] + Reverse(FirstNames(before));
  }

  lemma NothingActive(plugins: Table, active: map<Iid, seq<Instance>>, proxies: set<Name>)
    ensures Agree(plugins, active, proxies, []) ==> proxies == {} && forall iid :: ActiveAt(active, iid) == []
  {
    if Agree(plugins, active, proxies, []) {
      forall name ensures name !in proxies { assert !IsActive([], name); }
    }
  }

  lemma NoNames()
    ensures Reverse(FirstNames([])) == []
  {
  }

  // ------------------------------------------------------------------
  // Each plugin once
  // ------------------------------------------------------------------

  /** The names to deinitialise are those with an activation, each once. */
  lemma {:induction false} FirstNamesExact(order: seq<Entry>)
    ensures NoDuplicates(FirstNames(order))
    ensures forall name :: name in FirstNames(order) <==> IsActive(order, name)
  {
    if order != [] {
      var n := |order| - 1;
      var before, e := order[..n], order[n];
      FirstNamesExact(before);
      assert Without(order, n) == before;
      forall name ensures name in FirstNames(order) <==> IsActive(order, name) { ActiveWithout(order, n, name); }
    }
  }

  /** Shutting down deinitialises every plugin that has a proxy exactly once, and no other. */
  lemma DeinitOnce(plugins: Table, active: map<Iid, seq<Instance>>, proxies: set<Name>, order: seq<Entry>)
    requires Agree(plugins, active, proxies, order)
    ensures var names := Reverse(FirstNames(order));
            NoDuplicates(names) && forall name :: name in names <==> name in proxies
  {
    hide FirstNames, Reverse, IsActive, Select, PluginAt;
    var names := FirstNames(order);
    FirstNamesExact(order);
    forall name ensures name in Reverse(names) <==> name in proxies {
      if name in names {
        var i :| 0 <= i < |names| && names[i] == name;
        assert Reverse(names)[|names| - 1 - i] == name;
      }
    }
  }
}
