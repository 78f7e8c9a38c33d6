// The search box of the D3 family-tree component: which nodes its menu
// lists for the text typed so far, and how each entry is labelled.

module SearchInput {
  import opened FamilyNodes
  import opened FamilyNodeContent

  /** `toLowerCase` on one character, for the ASCII letters. */
  function LowerChar(c: char): char {
    if 'A' <= c <= 'Z' then (c as int + 32) as char else c
  }

  function Lower(s: string): (r: string)
    ensures |r| == |s|
    ensures forall i :: 0 <= i < |s| ==> r[i] == LowerChar(s[i])
  {
    seq(|s|, i requires 0 <= i < |s| => LowerChar(s[i]))
  }

  /** `alt_names.some((altName) => altName.toLowerCase().includes(query))`,
      for an already lower-cased query. */
  function SomeAltIncludes(alts: seq<string>, query: string): (r: bool)
    ensures r <==> exists i :: 0 <= i < |alts| && Includes(Lower(alts[i]), query)
  {
    if alts == [] then false
    else Includes(Lower(alts[0]), query) || SomeAltIncludes(alts[1..], query)
  }

  /** The filter predicate of the menu: an empty query keeps every node,
      otherwise the lower-cased name or some lower-cased alternative name
      must contain the lower-cased query. A node without alternative names
      can only match by name. */
  function Keep(item: FamilyNode, inputValue: string): (r: bool)
    ensures inputValue == [] ==> r
    ensures r <==>
              inputValue == [] || Includes(Lower(item.name), Lower(inputValue)) ||
              (item.altNames.Some? &&
               exists i :: 0 <= i < |item.altNames.value| && Includes(Lower(item.altNames.value[i]), Lower(inputValue)))
  {
    inputValue == [] ||
    Includes(Lower(item.name), Lower(inputValue)) ||
    (item.altNames.Some? && SomeAltIncludes(item.altNames.value, Lower(inputValue)))
  }

  /** `r` is `s` with some elements left out, the others in their order. */
  ghost predicate IsSubsequence<T>(r: seq<T>, s: seq<T>)
    decreases |s|
  {
    r == [] ||
    (s != [] && ((r[0] == s[0] && IsSubsequence(r[1..], s[1..])) || IsSubsequence(r, s[1..])))
  }

  /** The nodes the menu lists, in the order of `data`. */
  function FilterItems(data: seq<FamilyNode>, inputValue: string): (r: seq<FamilyNode>)
    ensures IsSubsequence(r, data)
    ensures forall x :: multiset(r)[x] == if Keep(x, inputValue) then multiset(data)[x] else 0
  {
    if data == [] then []
    else
      var rest := FilterItems(data[1..], inputValue);
      assert data == [data[0]] + data[1..];
      if Keep(data[0], inputValue) then [data[0]] + rest else rest
  }

  /** The text of a menu entry: the name and then the alternative names,
      separated by ", ". */
  function MenuLabel(item: FamilyNode): (r: string)
    ensures |item.name| <= |r| && r[..|item.name|] == item.name
    ensures item.altNames.Some? ==> forall i :: 0 <= i < |item.altNames.value| ==> Includes(r, item.altNames.value[i])
  {
    var parts := [item.name] + (if item.altNames.Some? then item.altNames.value else []);
    var r := Join(parts, ", ");
    assert item.altNames.Some? ==> forall i :: 0 <= i < |item.altNames.value| ==> Includes(r, item.altNames.value[i]) by {
      if item.altNames.Some? {
        forall i | 0 <= i < |item.altNames.value|
          ensures Includes(r, item.altNames.value[i])
        {
          assert parts[i + 1] == item.altNames.value[i];
          JoinHasParts(parts, ", ", i + 1);
          IncludesIffSubstring(r, parts[i + 1]);
        }
      }
    }
    r
  }

  /** The menu's entries, shown only while the menu is open. */
  function MenuLabels(isOpen: bool, data: seq<FamilyNode>, inputValue: string): (r: seq<string>)
    ensures |r| == if isOpen then |FilterItems(data, inputValue)| else 0
    ensures isOpen ==> forall i :: 0 <= i < |r| ==> r[i] == MenuLabel(FilterItems(data, inputValue)[i])
  {
    if !isOpen then []
    else
      var items := FilterItems(data, inputValue);
      seq(|items|, i requires 0 <= i < |items| => MenuLabel(items[i]))
  }

  /** `itemToString`: the text the input shows for the selected item, the
      start of that item's menu entry, and empty for no item. */
  function ItemToString(item: Option<FamilyNode>): (r: string)
    ensures item.None? ==> r == ""
    ensures item.Some? ==> |r| == |item.value.name| && |r| <= |MenuLabel(item.value)| && MenuLabel(item.value)[..|r|] == r
  {
    if item.Some? then item.value.name else ""
  }

  // ---------------------------------------------------------------------
  // Properties

  /** An empty query lists every node, in order. */
  lemma {:induction false} EmptyQueryKeepsAll(data: seq<FamilyNode>)
    ensures FilterItems(data, "") == data
  {
    if data != [] {
      EmptyQueryKeepsAll(data[1..]);
    }
  }

  /** A node is listed exactly when it is one of the data and matches. */
  lemma ListedIff(data: seq<FamilyNode>, inputValue: string, x: FamilyNode)
    ensures x in FilterItems(data, inputValue) <==> x in data && Keep(x, inputValue)
  {
    assert x in FilterItems(data, inputValue) <==> multiset(FilterItems(data, inputValue))[x] > 0;
  }

  /** Queries that lower-case to the same text list the same nodes. */
  lemma {:induction false} CaseInsensitive(data: seq<FamilyNode>, q1: string, q2: string)
    requires Lower(q1) == Lower(q2)
    ensures FilterItems(data, q1) == FilterItems(data, q2)
  {
    assert |q1| == |q2|;
    if data != [] {
      CaseInsensitive(data[1..], q1, q2);
    }
  }

  lemma DavidOrdavid(data: seq<FamilyNode>)
    ensures FilterItems(data, "David") == FilterItems(data, "david")
  {
    assert Lower("David") == "david";
    CaseInsensitive(data, "David", "david");
  }

  /** A node without alternative names is listed only through its name. */
  lemma NoAltNamesMatchByName(item: FamilyNode, inputValue: string)
    requires item.altNames.None? || item.altNames == Some([])
    ensures Keep(item, inputValue) <==> inputValue == [] || Includes(Lower(item.name), Lower(inputValue))
  {
  }

  /** A menu entry is the name alone when there are no alternative names,
      and otherwise the name, ", " and the line of alternative names the
      node's card shows. */
  lemma MenuLabelShape(item: FamilyNode)
    ensures var alts := if item.altNames.Some? then item.altNames.value else [];
      MenuLabel(item) == if alts == [] then item.name else item.name + ", " + AltNamesLine(item.altNames)
  {
    var alts := if item.altNames.Some? then item.altNames.value else [];
    if alts != [] {
      JoinAppend([item.name], alts, ", ");
    } else {
      assert [item.name] + alts == [item.name];
    }
  }
}
