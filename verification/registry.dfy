/** The name-keyed component registry of a machine: a JavaScript object used
    as a dictionary (`_componentDict`) plus the cached list of its values
    (`_componentListCache`) and the flag that marks the cache stale. */
module Registry {
  import opened Values

  /** A host component: its registration name and an opaque handle to its
      `call` implementation, which the engine treats as an oracle. */
  datatype Component = Component(name: string, impl: nat)

  /** `entries` lists the dictionary's values in the order in which their keys
      were first added, which is the order `for ... in` enumerates them. */
  datatype ComponentTable = ComponentTable(entries: seq<Component>, cache: seq<Component>, dirty: bool)

  /** No name is registered twice. */
  ghost predicate UniqueNames(entries: seq<Component>) {
    forall i, j :: 0 <= i < j < |entries| ==> entries[i].name != entries[j].name
  }

  /** The registry invariant: keys are unique, and a clean cache mirrors the
      dictionary's values. */
  ghost predicate Valid(t: ComponentTable) {
    && UniqueNames(t.entries)
    && (!t.dirty ==> t.cache == t.entries)
  }

  /** The empty registry a machine starts with. */
  function Empty(): (t: ComponentTable)
    ensures Valid(t) && t.entries == [] && t.cache == [] && !t.dirty
  {
    ComponentTable([], [], false)
  }

  /** Position of the entry registered under `name`, or -1. */
  function IndexOf(entries: seq<Component>, name: string): (i: int)
    ensures -1 <= i < |entries|
    ensures i == -1 <==> forall k :: 0 <= k < |entries| ==> entries[k].name != name
    ensures 0 <= i ==> entries[i].name == name && forall k :: 0 <= k < i ==> entries[k].name != name
  {
    if |entries| == 0 then -1
    else
      var i := IndexOf(entries[..|entries| - 1], name);
      if i != -1 then i
      else if entries[|entries| - 1].name == name then |entries| - 1
      else -1
  }

  /** `getComponentByName`: the dictionary entry, or nothing. */
  function Lookup(t: ComponentTable, name: string): (r: Option<Component>)
    ensures r.Some? <==> exists k :: 0 <= k < |t.entries| && t.entries[k].name == name
    ensures r.Some? ==> r.value in t.entries && r.value.name == name
  {
    var i := IndexOf(t.entries, name);
    if i == -1 then None else Some(t.entries[i])
  }

  /** `registerComponent`: store under the component's name, replacing an
      earlier registration in place (no merge), and mark the cache stale. */
  function Register(t: ComponentTable, c: Component): (t': ComponentTable)
    requires Valid(t)
    ensures Valid(t')
    ensures t'.dirty
    ensures Lookup(t', c.name) == Some(c)
    ensures forall n :: n != c.name ==> Lookup(t', n) == Lookup(t, n)
    ensures |t'.entries| == |t.entries| + (if Lookup(t, c.name).None? then 1 else 0)
  {
    var i := IndexOf(t.entries, c.name);
    var entries := if i == -1 then t.entries + [c] else t.entries[i := c];
    var t' := ComponentTable(entries, t.cache, true);
    assert Lookup(t', c.name) == Some(c) by {
      if i == -1 {
        assert forall k :: 0 <= k < |t.entries| ==> entries[k].name != c.name;
        assert IndexOf(entries, c.name) == |t.entries|;
      } else {
        assert entries[i] == c;
        assert forall k :: 0 <= k < i ==> entries[k].name != c.name;
        var j := IndexOf(entries, c.name);
        assert j != -1;
        assert !(j < i) && !(i < j);
      }
    }
    assert forall n :: n != c.name ==> Lookup(t', n) == Lookup(t, n) by {
      forall n | n != c.name
        ensures Lookup(t', n) == Lookup(t, n)
      {
        var j := IndexOf(t.entries, n);
        var j' := IndexOf(entries, n);
        if j == -1 {
          assert j' == -1;
        } else {
          assert entries[j] == t.entries[j];
          assert j' == j;
        }
      }
    }
    t'
  }

  /** The `currentComponent` getter: the cached list when clean, otherwise a
      freshly enumerated list that also becomes the new, clean cache. */
  function CurrentComponent(t: ComponentTable): (r: (seq<Component>, ComponentTable))
    requires Valid(t)
    ensures r.0 == t.entries
    ensures Valid(r.1) && !r.1.dirty
    ensures r.1.entries == t.entries
  {
    if !t.dirty then (t.cache, t)
    else (t.entries, ComponentTable(t.entries, t.entries, false))
  }

  /** Registration followed by a read of the component list returns the
      registered component, whatever the cache held before. */
  lemma RegisterThenListContains(t: ComponentTable, c: Component)
    requires Valid(t)
    ensures c in CurrentComponent(Register(t, c)).0
    ensures forall d :: d in t.entries && d.name != c.name ==> d in CurrentComponent(Register(t, c)).0
  {
    var t' := Register(t, c);
    assert Lookup(t', c.name) == Some(c);
    forall d | d in t.entries && d.name != c.name
      ensures d in t'.entries
    {
      var k :| 0 <= k < |t.entries| && t.entries[k] == d;
      var i := IndexOf(t.entries, c.name);
      if i == -1 {
        assert t'.entries[k] == d;
      } else {
        assert k != i;
        assert t'.entries[k] == d;
      }
    }
  }
}
