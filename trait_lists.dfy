/**
 * The bookkeeping at the end of the generator's `_gen_methods`: each
 * class node stores its editable traits after taking over its first
 * parent's, and the generated class lists its updateable traits, the
 * traits allowed to fail on update, the full trait-name list and the
 * names shown in the compact view.
 */
module TraitLists {
  import opened PyStrings

  /** Traits that are never shown in a view. */
  const GuiHidden: set<string> := {"reference_count", "progress"}

  /** Get/set traits left out of the compact view as well. */
  const ViewHiddenGetSet: set<string> := {"progress_text"}

  /** Toggle traits left out of the compact view. */
  const ViewHiddenToggles: set<string> :=
    {"abort_execute", "release_data_flag", "dragable", "pickable", "debug", "global_warning_display"}

  /** `m` without the entries for `keys`. */
  function Removed(m: map<string, string>, keys: seq<string>): (r: map<string, string>)
    ensures forall k :: k in r <==> k in m && k !in keys
    ensures forall k :: k in r ==> r[k] == m[k]
  {
    map k | k in m && k !in keys :: m[k]
  }

  /** Removing a list of keys removes the set of them. */
  lemma RemovedKeys(m: map<string, string>, keys: seq<string>, hidden: set<string>)
    requires forall k :: k in keys <==> k in hidden
    ensures Removed(m, keys).Keys == m.Keys - hidden
  {
  }

  /** Removing the same keys again changes nothing, and removal keeps every other entry as it was. */
  lemma RemovedIdempotent(m: map<string, string>, keys: seq<string>)
    ensures Removed(Removed(m, keys), keys) == Removed(m, keys)
    ensures forall k :: k in m && k !in keys ==> k in Removed(m, keys) && Removed(m, keys)[k] == m[k]
  {
  }

  /** A dictionary from trait name to the name of the VTK getter behind it. */
  class TraitDict {
    var items: map<string, string>

    constructor(items0: map<string, string>)
      ensures items == items0
    {
      items := items0;
    }

    /** `d.update(other)`: every entry of `other` is taken over, replacing the one under the same name. */
    method Update(other: map<string, string>)
      modifies this
      ensures items == old(items) + other
    {
      items := items + other;
    }

    /** `_safe_remove(d, keys)`: delete each key that is present, ignoring the others. */
    method SafeRemove(keys: seq<string>)
      modifies this
      ensures items == Removed(old(items), keys)
    {
      var i := 0;
      while i < |keys|
        invariant 0 <= i <= |keys|
        invariant items == Removed(old(items), keys[..i])
      {
        assert keys[..i + 1] == keys[..i] + [keys[i]];
        if keys[i] in items {
          items := items - {keys[i]};
        }
        i := i + 1;
      }
      assert keys[..|keys|] == keys;
    }
  }

  /** The four entries of a node's data: the toggle, state and get/set traits, and the traits allowed to fail. */
  class NodeData {
    const toggle: TraitDict
    const state: TraitDict
    const getSet: TraitDict
    var allowUpdateFailure: set<string>

    /** The three dictionaries are separate objects. */
    ghost predicate Valid()
      reads this
    {
      toggle != state && toggle != getSet && state != getSet
    }

    constructor(t: map<string, string>, s: map<string, string>, g: map<string, string>, allow: set<string>)
      ensures Valid()
      ensures fresh(toggle) && fresh(state) && fresh(getSet)
      ensures toggle.items == t && state.items == s && getSet.items == g && allowUpdateFailure == allow
    {
      toggle := new TraitDict(t);
      state := new TraitDict(s);
      getSet := new TraitDict(g);
      allowUpdateFailure := allow;
    }

    /** `data[i].update(pd[i])` for every entry: the parent's traits are added, and win over the node's own. */
    method MergeParent(parent: NodeData)
      requires Valid()
      requires parent != this
      requires {toggle, state, getSet} !! {parent.toggle, parent.state, parent.getSet}
      modifies this, toggle, state, getSet
      ensures Valid()
      ensures toggle.items == old(toggle.items) + parent.toggle.items
      ensures state.items == old(state.items) + parent.state.items
      ensures getSet.items == old(getSet.items) + parent.getSet.items
      ensures allowUpdateFailure == old(allowUpdateFailure) + parent.allowUpdateFailure
    {
      toggle.Update(parent.toggle.items);
      state.Update(parent.state.items);
      getSet.Update(parent.getSet.items);
      allowUpdateFailure := allowUpdateFailure + parent.allowUpdateFailure;
    }

    /** `copy.deepcopy(data)`: new dictionaries with the same entries. */
    method DeepCopy() returns (c: NodeData)
      ensures fresh(c) && fresh(c.toggle) && fresh(c.state) && fresh(c.getSet) && c.Valid()
      ensures c.toggle.items == toggle.items && c.state.items == state.items
      ensures c.getSet.items == getSet.items && c.allowUpdateFailure == allowUpdateFailure
    {
      c := new NodeData(toggle.items, state.items, getSet.items, allowUpdateFailure);
    }
  }

  /** A class in the VTK inheritance tree. */
  class ClassNode {
    const name: string
    const level: nat
    const parents: seq<ClassNode>
    var data: NodeData?

    constructor(name0: string, level0: nat, parents0: seq<ClassNode>)
      ensures name == name0 && level == level0 && parents == parents0 && data == null
    {
      name := name0;
      level := level0;
      parents := parents0;
      data := null;
    }

    /** The class-tree invariant `_gen_methods` relies on: every node below the root has a parent. */
    predicate Placed()
    {
      level != 0 ==> |parents| > 0
    }

    /** The node takes over its first parent's data: it is not a root, and its parent is not `object`. */
    predicate Inherits()
      requires Placed()
      reads this, parents
    {
      level != 0 && parents[0].name != "object"
    }
  }

  /** What the generated class lists. */
  datatype TraitLists = TraitLists(
    updateable: map<string, string>,
    allowUpdateFailure: set<string>,
    fullNames: seq<string>,
    viewToggle: seq<string>,
    viewState: seq<string>,
    viewGetSet: seq<string>)

  /** The maps of `ms` merged in order, later entries winning. */
  function UnionAll(ms: seq<map<string, string>>): map<string, string>
  {
    if |ms| == 0 then map[] else UnionAll(ms[..|ms| - 1]) + ms[|ms| - 1]
  }

  /** `_full_traitnames_list_`: toggles, states, then get/set traits without the hidden ones, each part sorted. */
  function FullNames(t: map<string, string>, s: map<string, string>, g: map<string, string>): seq<string>
  {
    SortedNames(t.Keys) + SortedNames(s.Keys) + SortedNames(g.Keys - GuiHidden)
  }

  /** The lists of a class whose merged traits are `t`, `s`, `g` and `allow`. */
  function ListsOf(t: map<string, string>, s: map<string, string>, g: map<string, string>, allow: set<string>): TraitLists
  {
    TraitLists(
      UnionAll([t, s, g]),
      allow,
      FullNames(t, s, g),
      SortedNames(t.Keys - ViewHiddenToggles),
      SortedNames(s.Keys),
      SortedNames(g.Keys - GuiHidden - ViewHiddenGetSet))
  }

  /** `ut.update(i)` for the toggle, state and get/set traits in turn. */
  method UpdateableTraits(t: map<string, string>, s: map<string, string>, g: map<string, string>)
    returns (ut: map<string, string>)
    ensures ut == UnionAll([t, s, g])
  {
    var parts := [t, s, g];
    ut := map[];
    for i := 0 to |parts|
      invariant ut == UnionAll(parts[..i])
    {
      assert parts[..i + 1][..i] == parts[..i];
      ut := ut + parts[i];
    }
    assert parts[..|parts|] == parts;
  }

  /**
   * The lists written for a class from its stored data: the editable
   * traits are copied first, so that the removals for the views leave the
   * stored data as it is.
   */
  method WriteLists(data: NodeData) returns (lists: TraitLists)
    requires data.Valid()
    ensures lists == ListsOf(data.toggle.items, data.state.items, data.getSet.items, data.allowUpdateFailure)
  {
    var ut := UpdateableTraits(data.toggle.items, data.state.items, data.getSet.items);

    var d := data.DeepCopy();
    d.getSet.SafeRemove(["reference_count", "progress"]);
    RemovedKeys(data.getSet.items, ["reference_count", "progress"], GuiHidden);
    var full := SortedNames(d.toggle.items.Keys) + SortedNames(d.state.items.Keys) + SortedNames(d.getSet.items.Keys);

    ghost var shown := d.getSet.items;
    d.getSet.SafeRemove(["progress_text"]);
    RemovedKeys(shown, ["progress_text"], ViewHiddenGetSet);
    d.toggle.SafeRemove(["abort_execute", "release_data_flag", "dragable", "pickable", "debug", "global_warning_display"]);
    RemovedKeys(data.toggle.items, ["abort_execute", "release_data_flag", "dragable", "pickable", "debug", "global_warning_display"], ViewHiddenToggles);
    lists := TraitLists(ut, data.allowUpdateFailure, full,
                        SortedNames(d.toggle.items.Keys), SortedNames(d.state.items.Keys), SortedNames(d.getSet.items.Keys));
  }

  /**
   * The data stored for a class: its own editable traits, with its first
   * parent's merged in when it inherits.
   */
  method MergedData(inherits: bool, pd: NodeData?, toggle: map<string, string>, state: map<string, string>,
                    getSet: map<string, string>, allow: set<string>) returns (data: NodeData)
    requires inherits ==> pd != null
    ensures fresh(data) && data.Valid()
    ensures !inherits ==>
      data.toggle.items == toggle && data.state.items == state &&
      data.getSet.items == getSet && data.allowUpdateFailure == allow
    ensures inherits ==>
      data.toggle.items == toggle + pd.toggle.items &&
      data.state.items == state + pd.state.items &&
      data.getSet.items == getSet + pd.getSet.items &&
      data.allowUpdateFailure == allow + pd.allowUpdateFailure
  {
    data := new NodeData(toggle, state, getSet, allow);
    if inherits {
      data.MergeParent(pd);
    }
  }

  /**
   * The end of `_gen_methods` for one class: store the node's data, merged
   * with its first parent's, and write its lists.
   */
  method GenTraitLists(node: ClassNode, toggle: map<string, string>, state: map<string, string>,
                       getSet: map<string, string>, allow: set<string>) returns (lists: TraitLists)
    requires node.Placed()
    requires node.Inherits() ==> node.parents[0].data != null
    modifies node
    ensures fresh(node.data) && node.data.Valid()
    ensures !old(node.Inherits()) ==>
      node.data.toggle.items == toggle && node.data.state.items == state &&
      node.data.getSet.items == getSet && node.data.allowUpdateFailure == allow
    ensures old(node.Inherits()) ==>
      var pd := old(node.parents[0].data);
      node.data.toggle.items == toggle + old(pd.toggle.items) &&
      node.data.state.items == state + old(pd.state.items) &&
      node.data.getSet.items == getSet + old(pd.getSet.items) &&
      node.data.allowUpdateFailure == allow + old(pd.allowUpdateFailure)
    ensures lists == ListsOf(node.data.toggle.items, node.data.state.items,
                             node.data.getSet.items, node.data.allowUpdateFailure)
  {
    var inherits := node.Inherits();
    var pd := if inherits then node.parents[0].data else null;
    var data := MergedData(inherits, pd, toggle, state, getSet, allow);
    node.data := data;
    lists := WriteLists(data);
  }

  // ---------------------------------------------------------------------
  // What the lists promise
  // ---------------------------------------------------------------------

  /** The updateable traits are all the editable ones; a get/set entry wins over a state entry, which wins over a toggle. */
  lemma UpdateableUnion(t: map<string, string>, s: map<string, string>, g: map<string, string>, k: string)
    ensures k in UnionAll([t, s, g]) <==> k in t || k in s || k in g
    ensures k in g ==> UnionAll([t, s, g])[k] == g[k]
    ensures k in s && k !in g ==> UnionAll([t, s, g])[k] == s[k]
    ensures k in t && k !in s && k !in g ==> UnionAll([t, s, g])[k] == t[k]
  {
    var ms := [t, s, g];
    assert ms[..2] == [t, s] && [t, s][..1] == [t] && [t][..0] == [];
    assert UnionAll([t]) == t;
    assert UnionAll([t, s]) == t + s;
    assert UnionAll(ms) == t + s + g;
  }

  /** The parent's entry wins over the node's own; the node keeps the names the parent lacks. */
  lemma ParentOverrides(child: map<string, string>, parent: map<string, string>, k: string)
    ensures k in child + parent <==> k in child || k in parent
    ensures k in parent ==> (child + parent)[k] == parent[k]
    ensures k in child && k !in parent ==> (child + parent)[k] == child[k]
  {
  }

  /** Each run of the full list names its toggles, states or shown get/set traits once. */
  lemma FullNamesContents(t: map<string, string>, s: map<string, string>, g: map<string, string>)
    ensures |FullNames(t, s, g)| == |t.Keys| + |s.Keys| + |g.Keys - GuiHidden|
    ensures forall x :: x in FullNames(t, s, g) <==> x in t || x in s || (x in g && x !in GuiHidden)
  {
    var a, b, c := SortedNames(t.Keys), SortedNames(s.Keys), SortedNames(g.Keys - GuiHidden);
    assert FullNames(t, s, g) == a + b + c;
    forall x
      ensures x in a + b + c <==> x in t || x in s || (x in g && x !in GuiHidden)
    {
      assert x in a <==> x in t.Keys;
      assert x in b <==> x in s.Keys;
      assert x in c <==> x in g.Keys - GuiHidden;
    }
  }

  /** The full list is three sorted runs: toggles, states, get/set traits. */
  lemma FullNamesRuns(t: map<string, string>, s: map<string, string>, g: map<string, string>)
    ensures var full, i, j := FullNames(t, s, g), |t.Keys|, |t.Keys| + |s.Keys|;
      j <= |full| &&
      StrictlySorted(full[..i]) && StrictlySorted(full[i..j]) && StrictlySorted(full[j..])
  {
    var a, b, c := SortedNames(t.Keys), SortedNames(s.Keys), SortedNames(g.Keys - GuiHidden);
    ThreeParts(a, b, c);
  }

  /** The three parts of a concatenation are its slices. */
  lemma ThreeParts(a: seq<string>, b: seq<string>, c: seq<string>)
    ensures (a + b + c)[..|a|] == a
    ensures (a + b + c)[|a|..|a| + |b|] == b
    ensures (a + b + c)[|a| + |b|..] == c
  {
  }

  /** Every name of the compact view is in the full list. */
  lemma ViewWithinFull(t: map<string, string>, s: map<string, string>, g: map<string, string>, allow: set<string>)
    ensures var l := ListsOf(t, s, g, allow);
      (forall x :: x in l.viewToggle ==> x in l.fullNames && x !in ViewHiddenToggles) &&
      (forall x :: x in l.viewState ==> x in l.fullNames) &&
      (forall x :: x in l.viewGetSet ==> x in l.fullNames && x !in GuiHidden && x !in ViewHiddenGetSet)
  {
    FullNamesContents(t, s, g);
  }
}
