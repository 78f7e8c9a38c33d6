// The pure part of handleFiltering in the D3 family-tree component: the
// toggle state is split into keys to add and keys to remove, the active
// filter list is updated, and every node's dimmed flag follows from the new
// list alone.

module Filters {
  import opened FamilyNodes

  /** The state a FilterToggles group reports: its keys in the order the
      object enumerates them, each with its on/off value. */
  type Toggles = seq<(string, bool)>

  /** An object has each key once. */
  ghost predicate DistinctKeys(t: Toggles) {
    forall i, j :: 0 <= i < j < |t| ==> t[i].0 != t[j].0
  }

  /** The `add` list of the reduce: the keys whose value is `true`, in order. */
  function Adds(t: Toggles): (r: seq<string>)
    ensures forall k :: k in r <==> (k, true) in t
  {
    if t == [] then []
    else (if t[0].1 then [t[0].0] else []) + Adds(t[1..])
  }

  /** The `remove` list of the reduce: every other key, in order. */
  function Removes(t: Toggles): (r: seq<string>)
    ensures forall k :: k in r <==> (k, false) in t
  {
    if t == [] then []
    else (if t[0].1 then [] else [t[0].0]) + Removes(t[1..])
  }

  /** `Array.from(new Set(s))`: the first occurrence of every element, in
      order. */
  function Dedupe(s: seq<string>): (r: seq<string>)
    ensures forall x :: x in r <==> x in s
    ensures Distinct(r)
  {
    if s == [] then []
    else
      var d := Dedupe(s[..|s| - 1]);
      if s[|s| - 1] in d then d else d + [s[|s| - 1]]
  }

  /** `s.filter((f) => !remove.includes(f))`. */
  function Without(s: seq<string>, remove: seq<string>): (r: seq<string>)
    ensures forall x :: x in r <==> x in s && x !in remove
    ensures Distinct(s) ==> Distinct(r)
  {
    if s == [] then []
    else if s[0] in remove then Without(s[1..], remove)
    else [s[0]] + Without(s[1..], remove)
  }

  /** The new active filter list: the old list and the added keys,
      deduplicated, minus the removed keys. */
  function NewFilters(filters: seq<string>, t: Toggles): (r: seq<string>)
    ensures forall k :: k in r <==> (k in filters || (k, true) in t) && (k, false) !in t
    ensures Distinct(r)
  {
    Without(Dedupe(filters + Adds(t)), Removes(t))
  }

  /** `list.includes(value)` for an optional value: an absent value is never
      included. */
  function IncludesOpt(list: seq<string>, value: Option<string>): (r: bool)
    ensures value.None? ==> !r
    ensures value.Some? ==> (r <==> exists i :: 0 <= i < |list| && list[i] == value.value)
  {
    value.Some? && value.value in list
  }

  function CategoryValue(n: FamilyNode): Option<string> {
    if n.category.Some? then Some(CategoryName(n.category.value)) else None
  }

  function TypeValue(n: FamilyNode): Option<string> {
    if n.nodeType.Some? then Some(TypeName(n.nodeType.value)) else None
  }

  /** The dimming rule: a node is dimmed when its gender, its category or
      its type is not in the active list. A node missing a category or a
      type is dimmed whatever the filters, since an absent value is never
      included; any other node stays undimmed exactly when all three are
      active. */
  function Dimmed(n: FamilyNode, filters: seq<string>): (r: bool)
    ensures n.category.None? || n.nodeType.None? ==> r
    ensures !r <==> GenderName(n.gender) in filters &&
                    n.category.Some? && CategoryName(n.category.value) in filters &&
                    n.nodeType.Some? && TypeName(n.nodeType.value) in filters
  {
    GenderName(n.gender) !in filters ||
    !IncludesOpt(filters, CategoryValue(n)) ||
    !IncludesOpt(filters, TypeValue(n))
  }

  /** Every node with its dimmed flag recomputed from `filters`. */
  function ApplyDimming(data: seq<FamilyNode>, filters: seq<string>): (r: seq<FamilyNode>)
    ensures |r| == |data|
    ensures forall i :: 0 <= i < |data| ==> r[i] == data[i].(dimmed := Dimmed(data[i], filters))
  {
    seq(|data|, i requires 0 <= i < |data| => data[i].(dimmed := Dimmed(data[i], filters)))
  }

  /** `data.filter(...)`: the positions of the nodes to dim, in order. */
  function DimmedPositions(data: seq<FamilyNode>, filters: seq<string>, k: nat): (r: seq<nat>)
    requires k <= |data|
    ensures forall j :: 0 <= j < |r| ==> k <= r[j] < |data|
    ensures forall i :: k <= i < |data| ==> (i in r <==> Dimmed(data[i], filters))
    decreases |data| - k
  {
    if k == |data| then []
    else if Dimmed(data[k], filters) then [k] + DimmedPositions(data, filters, k + 1)
    else DimmedPositions(data, filters, k + 1)
  }

  // ---------------------------------------------------------------------
  // Properties

  /** With distinct keys: a key toggled on is active afterwards, a key
      toggled off is not, and a key the toggles do not mention keeps its
      membership. */
  lemma {:induction false} NewFiltersToggles(filters: seq<string>, t: Toggles)
    requires DistinctKeys(t)
    ensures forall i :: 0 <= i < |t| && t[i].1 ==> t[i].0 in NewFilters(filters, t)
    ensures forall i :: 0 <= i < |t| && !t[i].1 ==> t[i].0 !in NewFilters(filters, t)
    ensures forall k :: (forall i :: 0 <= i < |t| ==> t[i].0 != k) ==>
      (k in NewFilters(filters, t) <==> k in filters)
  {
    forall i | 0 <= i < |t| && t[i].1
      ensures t[i].0 in NewFilters(filters, t)
    {
      assert (t[i].0, true) in t;
    }
    forall i | 0 <= i < |t| && !t[i].1
      ensures t[i].0 !in NewFilters(filters, t)
    {
      assert (t[i].0, false) in t;
    }
  }

  /** The flags depend on the active list only as a set: lists with the same
      members dim the same nodes, whatever the previous flags were. */
  lemma DimmingBySet(a: seq<FamilyNode>, b: seq<FamilyNode>, f: seq<string>, g: seq<string>)
    requires |a| == |b| && forall i :: 0 <= i < |a| ==> a[i] == b[i].(dimmed := a[i].dimmed)
    requires forall x :: x in f <==> x in g
    ensures ApplyDimming(a, f) == ApplyDimming(b, g)
  {
  }

  /** Applying the same filters twice gives the same flags as applying them
      once. */
  lemma DimmingIdempotent(data: seq<FamilyNode>, f: seq<string>)
    ensures ApplyDimming(ApplyDimming(data, f), f) == ApplyDimming(data, f)
  {
  }

  /** The node has `key` as its gender, its category or its type. */
  predicate Carries(n: FamilyNode, key: string) {
    GenderName(n.gender) == key || CategoryValue(n) == Some(key) || TypeValue(n) == Some(key)
  }

  /** Switching one key off dims exactly the nodes the old list dimmed and
      the nodes carrying that key. */
  lemma ToggleOffDims(data: seq<FamilyNode>, filters: seq<string>, key: string)
    ensures forall i :: 0 <= i < |data| ==>
      (ApplyDimming(data, NewFilters(filters, [(key, false)]))[i].dimmed <==>
       Dimmed(data[i], filters) || Carries(data[i], key))
  {
    var f := NewFilters(filters, [(key, false)]);
    assert forall k :: k in f <==> k in filters && k != key;
  }

  /** Toggling a key on and then off again gives back the previous filter
      list, when the key was not active and the list had no duplicates. */
  lemma {:induction false} ToggleOnOff(filters: seq<string>, key: string)
    requires Distinct(filters) && key !in filters
    ensures NewFilters(NewFilters(filters, [(key, true)]), [(key, false)]) == filters
  {
    ToggleOnAppends(filters, key);
    ToggleOffRemovesLast(filters, key);
  }

  /** Toggling on a key that is not active appends it. */
  lemma ToggleOnAppends(filters: seq<string>, key: string)
    requires Distinct(filters) && key !in filters
    ensures NewFilters(filters, [(key, true)]) == filters + [key]
  {
    assert Adds([(key, true)]) == [key];
    assert Removes([(key, true)]) == [];
    DedupeOfDistinct(filters + [key]);
    WithoutNothing(filters + [key]);
  }

  /** Toggling off the key last appended takes it away again. */
  lemma ToggleOffRemovesLast(filters: seq<string>, key: string)
    requires Distinct(filters) && key !in filters
    ensures NewFilters(filters + [key], [(key, false)]) == filters
  {
    var on := filters + [key];
    assert Adds([(key, false)]) == [];
    assert Removes([(key, false)]) == [key];
    assert on + [] == on;
    DedupeOfDistinct(on);
    WithoutLast(filters, key);
  }

  lemma {:induction false} DedupeOfDistinct(s: seq<string>)
    requires Distinct(s)
    ensures Dedupe(s) == s
  {
    if s != [] {
      DedupeOfDistinct(s[..|s| - 1]);
      assert s[..|s| - 1] + [s[|s| - 1]] == s;
    }
  }

  lemma {:induction false} WithoutNothing(s: seq<string>)
    ensures Without(s, []) == s
  {
    if s != [] {
      WithoutNothing(s[1..]);
    }
  }

  lemma {:induction false} WithoutLast(s: seq<string>, key: string)
    requires key !in s
    ensures Without(s + [key], [key]) == s
  {
    if s == [] {
      assert Without([key], [key]) == Without([], [key]);
    } else {
      assert (s + [key])[1..] == s[1..] + [key];
      WithoutLast(s[1..], key);
    }
  }

  /** The filter engine's round trip: toggling a key on and then off leaves
      every node dimmed as it would be under the original list. */
  lemma ToggleOnOffDimming(data: seq<FamilyNode>, filters: seq<string>, key: string)
    requires Distinct(filters) && key !in filters
    ensures ApplyDimming(data, NewFilters(NewFilters(filters, [(key, true)]), [(key, false)]))
         == ApplyDimming(data, filters)
  {
    ToggleOnOff(filters, key);
  }
}
