// The interaction controller of the D3 family-tree component: the component
// state, the node list the chart holds, and the handlers that update them.
// Calls into the chart library and into the filter toggle groups are
// appended to a log of commands; what the library does with them is not
// modelled.

module FamilyTreeChart {
  import opened FamilyNodes
  import opened Descendants
  import opened Filters

  datatype Dimension = GenderToggles | CategoryToggles | TypeToggles

  /** A call the handlers make into the chart or into a toggle group. */
  datatype Command =
    | SetData
    | Render
    | ExpandAll
    | CollapseAll
    | ClearHighlighting
    | Fit
    | SetHighlighted(id: int)
    | SetCentered(id: int)
    | SetUpToTheRootHighlighted(id: int)
    | InitialZoom(scale: real)
    | ResetToggles(dimension: Dimension)

  /** Where a document click landed, by the first class test that matches;
      the node carries the id read from its `data-node-id` attribute. */
  datatype ClickTarget =
    | ChartBackground
    | NodeHeading(headingId: int)
    | NodeContainer(containerId: int)
    | NodeIcon(iconId: int)
    | Elsewhere

  /** Every value of the gender, category and type enumerations: the list of
      active filters when the component mounts. */
  const AllFilters: seq<string> :=
    ["male", "female", "jew", "gentile",
     "person", "patriarch", "prophet", "priest", "king", "nation"]

  /** Everything the component holds, as one value. */
  datatype ViewState = ViewState(
    hasChart: bool,
    togglesMounted: bool,
    data: seq<FamilyNode>,
    searchValue: string,
    searchSelectedNode: Option<FamilyNode>,
    highlightedNode: Option<FamilyNode>,
    filters: seq<string>,
    selectedNode: Option<FamilyNode>,
    isDrawerOpen: bool,
    log: seq<Command>)

  /** `data.find((d) => d.id === id) || null`. */
  function FindById(data: seq<FamilyNode>, id: int): (r: Option<FamilyNode>)
    ensures r.None? <==> forall i :: 0 <= i < |data| ==> data[i].id != id
    ensures r.Some? ==> exists i :: 0 <= i < |data| && data[i] == r.value && r.value.id == id &&
                                    forall j :: 0 <= j < i ==> data[j].id != id
  {
    if data == [] then None
    else if data[0].id == id then Some(data[0])
    else FindById(data[1..], id)
  }

  // ---------------------------------------------------------------------
  // The handlers, as functions from the state before to the state after

  function ExpandAllStep(s: ViewState): ViewState {
    if !s.hasChart then s
    else s.(searchValue := "", searchSelectedNode := None, highlightedNode := None,
            log := s.log + [ExpandAll, ClearHighlighting] +
                   (if s.highlightedNode.Some? then [SetCentered(s.highlightedNode.value.id), Render] else []))
  }

  function CollapseAllStep(s: ViewState): ViewState {
    if !s.hasChart then s
    else s.(searchValue := "", searchSelectedNode := None, highlightedNode := None,
            log := s.log + [CollapseAll, ClearHighlighting, InitialZoom(1.0), SetCentered(1), Render])
  }

  function ClearSearchStep(s: ViewState): ViewState {
    if !s.hasChart then s
    else s.(searchValue := "", searchSelectedNode := None, highlightedNode := None,
            log := s.log + [ClearHighlighting])
  }

  function SearchChangeStep(s: ViewState, node: Option<FamilyNode>): ViewState {
    if !s.hasChart || node.None? then s
    else s.(searchSelectedNode := node,
            log := s.log + [ClearHighlighting, SetHighlighted(node.value.id), ExpandAll,
                            SetCentered(node.value.id), InitialZoom(0.75), Render])
  }

  function FitStep(s: ViewState): ViewState {
    if !s.hasChart then s else s.(log := s.log + [Fit])
  }

  function ClearDimming(data: seq<FamilyNode>): (r: seq<FamilyNode>)
    ensures |r| == |data|
    ensures forall i :: 0 <= i < |data| ==> r[i] == data[i].(dimmed := false)
  {
    seq(|data|, i requires 0 <= i < |data| => data[i].(dimmed := false))
  }

  function ResetFiltersStep(s: ViewState): ViewState {
    if !s.hasChart || !s.togglesMounted then s
    else s.(data := ClearDimming(s.data),
            log := s.log + [ResetToggles(GenderToggles), ResetToggles(CategoryToggles),
                            ResetToggles(TypeToggles), SetData, Render])
  }

  function ResetStep(s: ViewState): ViewState {
    if !s.hasChart then s else ClearSearchStep(ResetFiltersStep(s))
  }

  function FilteringStep(s: ViewState, t: Toggles): ViewState {
    if !s.hasChart then s
    else
      var f := NewFilters(s.filters, t);
      s.(filters := f, data := ApplyDimming(s.data, f), log := s.log + [SetData, Render])
  }

  /** The flags the container branch leaves on the node list, given the
      positions getDescendants returned: `_expanded` exactly on those
      positions, `_highlighted` added on the first and
      `_upToTheRootHighlighted` added on the others. */
  function ContainerFlags(data: seq<FamilyNode>, desc: seq<nat>): (r: seq<FamilyNode>)
    ensures |r| == |data|
  {
    seq(|data|, p requires 0 <= p < |data| =>
      data[p].(expanded := p in desc,
               highlighted := data[p].highlighted || (|desc| > 0 && p == desc[0]),
               upToTheRootHighlighted := data[p].upToTheRootHighlighted || (|desc| > 1 && p in desc[1..])))
  }

  /** The container branch of the click handler (the chart exists). */
  ghost function ContainerClickStep(s: ViewState, rank: map<int, nat>, id: int): ViewState
    requires Ranked(s.data, rank)
  {
    var desc := DescendantIndices(s.data, rank, id);
    var d := ContainerFlags(s.data, desc);
    s.(data := d,
       highlightedNode := if |desc| > 0 then Some(d[desc[0]]) else s.highlightedNode,
       log := s.log + [ClearHighlighting, SetData, SetCentered(id), Render])
  }

  ghost function NodeClickStep(s: ViewState, rank: map<int, nat>, target: ClickTarget): ViewState
    requires Ranked(s.data, rank)
  {
    if !s.hasChart then s
    else match target
      case ChartBackground =>
        s.(highlightedNode := None, log := s.log + [ClearHighlighting])
      case NodeHeading(id) =>
        s.(selectedNode := FindById(s.data, id), isDrawerOpen := true)
      case NodeContainer(id) => ContainerClickStep(s, rank, id)
      case NodeIcon(id) =>
        s.(highlightedNode := FindById(s.data, id),
           log := s.log + [ClearHighlighting, SetUpToTheRootHighlighted(id), Render])
      case Elsewhere => s
  }

  /** ContainerClickStep for the positions and flags already computed. */
  lemma ContainerStepIs(s: ViewState, rank: map<int, nat>, id: int, desc: seq<nat>, nodes: seq<FamilyNode>)
    requires Ranked(s.data, rank) && desc == DescendantIndices(s.data, rank, id)
    requires nodes == ContainerFlags(s.data, desc)
    ensures |desc| > 0 ==> desc[0] < |nodes|
    ensures ContainerClickStep(s, rank, id) ==
      s.(data := nodes,
         highlightedNode := if |desc| > 0 then Some(nodes[desc[0]]) else s.highlightedNode,
         log := s.log + [ClearHighlighting, SetData, SetCentered(id), Render])
  {
  }

  // ---------------------------------------------------------------------
  // The loops the handlers run over the node list

  /** Only view flags changed, so the parent links keep their witness. */
  lemma FlagsKeepRank(a: seq<FamilyNode>, b: seq<FamilyNode>, rank: map<int, nat>)
    requires Ranked(a, rank) && |a| == |b|
    requires forall p :: 0 <= p < |a| ==> a[p].id == b[p].id && a[p].parentId == b[p].parentId
    ensures Ranked(b, rank)
  {
  }

  /** The two loops of the container branch together leave the flags of
      ContainerFlags and keep the parent links. */
  lemma ContainerLoops(data: seq<FamilyNode>, cleared: seq<FamilyNode>, nodes: seq<FamilyNode>,
                       desc: seq<nat>, rank: map<int, nat>)
    requires Ranked(data, rank) && InRange(desc, |data|)
    requires |cleared| == |data| && forall p :: 0 <= p < |data| ==> cleared[p] == data[p].(expanded := false)
    requires |nodes| == |data|
    requires forall p :: 0 <= p < |data| ==>
      nodes[p] == cleared[p].(expanded := cleared[p].expanded || p in desc,
                              highlighted := cleared[p].highlighted || (|desc| > 0 && p == desc[0]),
                              upToTheRootHighlighted := cleared[p].upToTheRootHighlighted || (|desc| > 1 && p in desc[1..]))
    ensures nodes == ContainerFlags(data, desc) && Ranked(nodes, rank)
  {
    FlagsKeepRank(data, nodes, rank);
  }

  /** Both loops of the container branch, over the positions getDescendants
      returned. */
  method MarkSubtree(data: seq<FamilyNode>, desc: seq<nat>, ghost rank: map<int, nat>) returns (nodes: seq<FamilyNode>)
    requires Ranked(data, rank) && InRange(desc, |data|)
    ensures nodes == ContainerFlags(data, desc) && Ranked(nodes, rank)
  {
    var cleared := ClearExpandedFlags(data);
    nodes := FlagVisited(cleared, desc);
    ContainerLoops(data, cleared, nodes, desc, rank);
  }

  /** `data.forEach((d) => (d._dimmed = false))`. */
  method ClearDimmedFlags(data: seq<FamilyNode>) returns (nodes: seq<FamilyNode>)
    ensures nodes == ClearDimming(data)
  {
    nodes := data;
    var i := 0;
    while i < |nodes|
      invariant 0 <= i <= |nodes| == |data|
      invariant forall p :: 0 <= p < i ==> nodes[p] == data[p].(dimmed := false)
      invariant forall p :: i <= p < |nodes| ==> nodes[p] == data[p]
    {
      nodes := nodes[i := nodes[i].(dimmed := false)];
      i := i + 1;
    }
  }

  /** `filtered.forEach((d) => { d._dimmed = true; })` over the positions of
      the filtered nodes. */
  method SetDimmedFlags(data: seq<FamilyNode>, toDim: seq<nat>) returns (nodes: seq<FamilyNode>)
    requires InRange(toDim, |data|)
    ensures |nodes| == |data|
    ensures forall p :: 0 <= p < |data| ==> nodes[p] == data[p].(dimmed := data[p].dimmed || p in toDim)
  {
    nodes := data;
    var j := 0;
    while j < |toDim|
      invariant 0 <= j <= |toDim| && |nodes| == |data|
      invariant forall p :: 0 <= p < |nodes| ==> nodes[p] == data[p].(dimmed := data[p].dimmed || p in toDim[..j])
    {
      nodes := nodes[toDim[j] := nodes[toDim[j]].(dimmed := true)];
      j := j + 1;
    }
    assert toDim[..j] == toDim;
  }

  /** The two loops of handleFiltering: every dimmed flag cleared, then set
      on the nodes the new filter list excludes. */
  method DimByFilters(data: seq<FamilyNode>, filters: seq<string>) returns (nodes: seq<FamilyNode>)
    ensures nodes == ApplyDimming(data, filters)
  {
    var toDim := DimmedPositions(data, filters, 0);
    var cleared := ClearDimmedFlags(data);
    nodes := SetDimmedFlags(cleared, toDim);
  }

  /** `data.forEach((d) => (d._expanded = false))`. */
  method ClearExpandedFlags(data: seq<FamilyNode>) returns (nodes: seq<FamilyNode>)
    ensures |nodes| == |data|
    ensures forall p :: 0 <= p < |data| ==> nodes[p] == data[p].(expanded := false)
  {
    nodes := data;
    var i := 0;
    while i < |nodes|
      invariant 0 <= i <= |nodes| == |data|
      invariant forall p :: 0 <= p < i ==> nodes[p] == data[p].(expanded := false)
      invariant forall p :: i <= p < |nodes| ==> nodes[p] == data[p]
    {
      nodes := nodes[i := nodes[i].(expanded := false)];
      i := i + 1;
    }
  }

  /** One step of that loop: the first visited node is highlighted, every
      other one marked as on the way to the root, and each expanded. */
  function Visit(n: FamilyNode, first: bool): FamilyNode {
    if first then n.(highlighted := true, expanded := true)
    else n.(upToTheRootHighlighted := true, expanded := true)
  }

  /** The node list after the first `j` steps of that loop. */
  function VisitedUpTo(data: seq<FamilyNode>, desc: seq<nat>, j: nat): (r: seq<FamilyNode>)
    requires j <= |desc|
    ensures |r| == |data|
  {
    seq(|data|, p requires 0 <= p < |data| =>
      data[p].(expanded := data[p].expanded || p in desc[..j],
               highlighted := data[p].highlighted || (j > 0 && p == desc[0]),
               upToTheRootHighlighted := data[p].upToTheRootHighlighted || (j > 1 && p in desc[1..j])))
  }

  lemma VisitStep(data: seq<FamilyNode>, desc: seq<nat>, j: nat)
    requires InRange(desc, |data|) && j < |desc|
    ensures VisitedUpTo(data, desc, j)[desc[j] := Visit(VisitedUpTo(data, desc, j)[desc[j]], j == 0)]
         == VisitedUpTo(data, desc, j + 1)
  {
    assert desc[..j + 1] == desc[..j] + [desc[j]];
    if j > 0 {
      assert desc[1..j + 1] == desc[1..j] + [desc[j]];
    }
  }

  /** `descendants.forEach((d, index) => ...)` over the visited positions:
      the first is highlighted, the others marked as on the way to the
      root, and all of them expanded. */
  method FlagVisited(data: seq<FamilyNode>, desc: seq<nat>) returns (nodes: seq<FamilyNode>)
    requires InRange(desc, |data|)
    ensures |nodes| == |data|
    ensures forall p :: 0 <= p < |data| ==>
      nodes[p] == data[p].(expanded := data[p].expanded || p in desc,
                           highlighted := data[p].highlighted || (|desc| > 0 && p == desc[0]),
                           upToTheRootHighlighted := data[p].upToTheRootHighlighted || (|desc| > 1 && p in desc[1..]))
  {
    nodes := data;
    var j := 0;
    assert nodes == VisitedUpTo(data, desc, 0);
    while j < |desc|
      invariant 0 <= j <= |desc|
      invariant nodes == VisitedUpTo(data, desc, j)
    {
      var n := desc[j];
      VisitStep(data, desc, j);
      nodes := nodes[n := Visit(nodes[n], j == 0)];
      j := j + 1;
    }
    assert desc[..j] == desc;
  }

  // ---------------------------------------------------------------------
  // The component

  class FamilyTree {
    var hasChart: bool
    var togglesMounted: bool
    var data: seq<FamilyNode>
    var searchValue: string
    var searchSelectedNode: Option<FamilyNode>
    var highlightedNode: Option<FamilyNode>
    var filters: seq<string>
    var selectedNode: Option<FamilyNode>
    var isDrawerOpen: bool
    var log: seq<Command>
    /** The acyclicity witness of the node list's parent links. */
    ghost var rank: map<int, nat>

    /** The parent links are acyclic and the active filter list holds each
        key once. */
    ghost predicate Valid()
      reads this
    {
      Ranked(data, rank) && Distinct(filters)
    }

    ghost function State(): ViewState
      reads this
    {
      ViewState(hasChart, togglesMounted, data, searchValue, searchSelectedNode, highlightedNode,
                filters, selectedNode, isDrawerOpen, log)
    }

    /** The component before its layout effect has run: no chart yet, every
        filter active, nothing searched, highlighted or selected. */
    constructor (nodes: seq<FamilyNode>, ghost ranks: map<int, nat>)
      requires Ranked(nodes, ranks)
      ensures Valid() && rank == ranks
      ensures State() == ViewState(false, false, nodes, "", None, None, AllFilters, None, false, [])
    {
      hasChart, togglesMounted := false, false;
      data := nodes;
      searchValue := "";
      searchSelectedNode, highlightedNode, selectedNode := None, None, None;
      filters := AllFilters;
      isDrawerOpen := false;
      log := [];
      rank := ranks;
    }

    /** The layout effect: the chart is created, given the nodes, fully
        expanded and drawn; the toggle groups may or may not be mounted. */
    method Mount(withToggles: bool)
      requires Valid()
      modifies this
      ensures Valid() && rank == old(rank)
      ensures State() == old(State()).(hasChart := true, togglesMounted := withToggles,
                                        log := old(log) + [SetData, ExpandAll, Render])
    {
      hasChart := true;
      togglesMounted := withToggles;
      log := log + [SetData, ExpandAll, Render];
    }

    method HandleExpandAll()
      requires Valid()
      modifies this
      ensures Valid() && rank == old(rank)
      ensures State() == ExpandAllStep(old(State()))
    {
      if !hasChart { return; }
      searchValue := "";
      searchSelectedNode := None;
      log := log + [ExpandAll, ClearHighlighting];
      if highlightedNode.Some? {
        log := log + [SetCentered(highlightedNode.value.id), Render];
      }
      highlightedNode := None;
    }

    method HandleCollapseAll()
      requires Valid()
      modifies this
      ensures Valid() && rank == old(rank)
      ensures State() == CollapseAllStep(old(State()))
    {
      if !hasChart { return; }
      searchValue := "";
      searchSelectedNode := None;
      highlightedNode := None;
      log := log + [CollapseAll, ClearHighlighting, InitialZoom(1.0), SetCentered(1), Render];
    }

    method HandleSearchChange(node: Option<FamilyNode>)
      requires Valid()
      modifies this
      ensures Valid() && rank == old(rank)
      ensures State() == SearchChangeStep(old(State()), node)
    {
      if !hasChart || node.None? { return; }
      searchSelectedNode := node;
      var id := node.value.id;
      log := log + [ClearHighlighting, SetHighlighted(id), ExpandAll, SetCentered(id), InitialZoom(0.75), Render];
    }

    /** The search box's `onChange`: a chosen item is passed on to
        handleSearchChange, a cleared selection is dropped. */
    method SelectSearchItem(item: Option<FamilyNode>)
      requires Valid()
      modifies this
      ensures Valid() && rank == old(rank)
      ensures State() == SearchChangeStep(old(State()), item)
    {
      if item.Some? {
        HandleSearchChange(item);
      }
    }

    method HandleSearchInputChange(value: string)
      requires Valid()
      modifies this
      ensures Valid() && rank == old(rank)
      ensures State() == old(State()).(searchValue := value)
    {
      searchValue := value;
    }

    method HandleClearSearchInput()
      requires Valid()
      modifies this
      ensures Valid() && rank == old(rank)
      ensures State() == ClearSearchStep(old(State()))
    {
      if !hasChart { return; }
      searchValue := "";
      searchSelectedNode := None;
      highlightedNode := None;
      log := log + [ClearHighlighting];
    }

    method HandleFit()
      requires Valid()
      modifies this
      ensures Valid() && rank == old(rank)
      ensures State() == FitStep(old(State()))
    {
      if !hasChart { return; }
      log := log + [Fit];
    }

    method ResetFilters()
      requires Valid()
      modifies this
      ensures Valid() && rank == old(rank)
      ensures State() == ResetFiltersStep(old(State()))
    {
      if !hasChart || !togglesMounted { return; }
      var nodes := ClearDimmedFlags(data);
      FlagsKeepRank(data, nodes, rank);
      data := nodes;
      log := log + [ResetToggles(GenderToggles), ResetToggles(CategoryToggles), ResetToggles(TypeToggles)];
      log := log + [SetData, Render];
    }

    method HandleReset()
      requires Valid()
      modifies this
      ensures Valid() && rank == old(rank)
      ensures State() == ResetStep(old(State()))
    {
      if !hasChart { return; }
      ResetFilters();
      HandleClearSearchInput();
    }

    method HandleFiltering(t: Toggles)
      requires Valid()
      modifies this
      ensures Valid() && rank == old(rank)
      ensures State() == FilteringStep(old(State()), t)
    {
      if !hasChart { return; }
      var newFilters := NewFilters(filters, t);
      var nodes := DimByFilters(data, newFilters);
      FlagsKeepRank(data, nodes, rank);
      filters, data, log := newFilters, nodes, log + [SetData, Render];
    }

    method HandleNodeClick(target: ClickTarget)
      requires Valid()
      modifies this
      ensures Valid() && rank == old(rank)
      ensures State() == NodeClickStep(old(State()), rank, target)
    {
      if !hasChart { return; }
      match target {
        case ChartBackground =>
          highlightedNode := None;
          log := log + [ClearHighlighting];
        case NodeHeading(id) =>
          selectedNode := FindById(data, id);
          isDrawerOpen := true;
        case NodeContainer(id) =>
          ClickContainer(id);
        case NodeIcon(id) =>
          log := log + [ClearHighlighting, SetUpToTheRootHighlighted(id), Render];
          highlightedNode := FindById(data, id);
        case Elsewhere =>
      }
    }

    /** The container branch: expand and highlight the clicked node's
        subtree. */
    method ClickContainer(id: int)
      requires Valid()
      modifies this
      ensures Valid() && rank == old(rank)
      ensures State() == ContainerClickStep(old(State()), rank, id)
    {
      ghost var s0 := State();
      var desc := DescendantIndices(data, rank, id);
      var nodes := MarkSubtree(data, desc, rank);
      ContainerStepIs(s0, rank, id, desc, nodes);
      // setHighlightedNode receives the first visited node object, whose
      // flags the loop has finished writing; clearHighlighting() comes
      // before the loops, data(...), setCentered and render() after them.
      var highlighted := if |desc| > 0 then Some(nodes[desc[0]]) else highlightedNode;
      var calls := log + [ClearHighlighting, SetData, SetCentered(id), Render];
      data, highlightedNode, log := nodes, highlighted, calls;
    }

    method HandleDrawerClose()
      requires Valid()
      modifies this
      ensures Valid() && rank == old(rank)
      ensures State() == old(State()).(isDrawerOpen := false, selectedNode := None)
    {
      isDrawerOpen := false;
      selectedNode := None;
    }
  }
}

// Properties of the handlers, stated on the step functions the methods of
// FamilyTree are proved against.
module FamilyTreeChartProperties {
  import opened FamilyNodes
  import opened Descendants
  import opened Filters
  import opened FamilyTreeChart

  /** A container click on `id` leaves `_expanded` set exactly on the nodes
      carrying `id` and the nodes below it. */
  lemma ContainerClickExpandsSubtree(s: ViewState, rank: map<int, nat>, id: int)
    requires Ranked(s.data, rank)
    ensures var d := ContainerClickStep(s, rank, id).data;
      |d| == |s.data| &&
      forall x :: 0 <= x < |s.data| ==>
        (d[x].expanded <==> s.data[x].id == id || Below(s.data, rank, id, x))
  {
    var r := DescendantIndices(s.data, rank, id);
    var d := ContainerFlags(s.data, r);
    forall x | 0 <= x < |s.data|
      ensures d[x].expanded <==> s.data[x].id == id || Below(s.data, rank, id, x)
    {
      DescendantsMembers(s.data, rank, id, x);
    }
  }

  /** The first node getDescendants visits is highlighted and becomes the
      highlighted node; every later one is marked as on the way to the
      root. */
  lemma ContainerClickHighlights(s: ViewState, rank: map<int, nat>, id: int)
    requires Ranked(s.data, rank)
    ensures var s' := ContainerClickStep(s, rank, id);
      var r := DescendantIndices(s.data, rank, id);
      |s'.data| == |s.data| &&
      (r != [] ==> s'.data[r[0]].highlighted && s'.highlightedNode == Some(s'.data[r[0]])) &&
      (r == [] ==> s'.highlightedNode == s.highlightedNode) &&
      (forall j :: 1 <= j < |r| ==> s'.data[r[j]].upToTheRootHighlighted)
  {
    var r := DescendantIndices(s.data, rank, id);
    forall j | 1 <= j < |r|
      ensures r[j] in r[1..]
    {
    }
  }

  /** The handler's own writes in a container click change only view
      flags: every node keeps its record and its dimmed flag, and the loops
      leave a node that is not visited with only `_expanded` cleared. The
      `clearHighlighting` call it makes first is logged, not applied, so its
      effect on the highlight flags is not part of this statement. */
  lemma ContainerClickKeepsRecords(s: ViewState, rank: map<int, nat>, id: int)
    requires Ranked(s.data, rank)
    ensures var d := ContainerClickStep(s, rank, id).data;
      var r := DescendantIndices(s.data, rank, id);
      |d| == |s.data| &&
      (forall x :: 0 <= x < |s.data| ==> d[x].dimmed == s.data[x].dimmed && SameRecord(d[x], s.data[x])) &&
      (forall x :: 0 <= x < |s.data| && x !in r ==> d[x] == s.data[x].(expanded := false))
  {
  }

  /** Expand-all, collapse-all and clearing the search box all empty the
      search box and forget the searched and highlighted nodes when a chart
      exists, and change nothing when it does not. */
  lemma ClearingHandlers(s: ViewState)
    ensures var e, c, x := ExpandAllStep(s), CollapseAllStep(s), ClearSearchStep(s);
      if s.hasChart then
        e.searchValue == c.searchValue == x.searchValue == "" &&
        e.searchSelectedNode == c.searchSelectedNode == x.searchSelectedNode == None &&
        e.highlightedNode == c.highlightedNode == x.highlightedNode == None &&
        e.data == c.data == x.data == s.data
      else e == c == x == s
  {
  }

  /** Expand-all centres the chart on the previously highlighted node exactly
      when there was one; clearing the search box never centres, and
      collapse-all always centres on the node with id 1. */
  lemma Centring(s: ViewState, k: int)
    requires s.hasChart
    ensures SetCentered(k) in ExpandAllStep(s).log[|s.log|..] <==>
      s.highlightedNode.Some? && s.highlightedNode.value.id == k
    ensures SetCentered(k) !in ClearSearchStep(s).log[|s.log|..]
    ensures SetCentered(k) in CollapseAllStep(s).log[|s.log|..] <==> k == 1
  {
    var e := ExpandAllStep(s).log[|s.log|..];
    if s.highlightedNode.Some? {
      assert e == [ExpandAll, ClearHighlighting, SetCentered(s.highlightedNode.value.id), Render];
    } else {
      assert e == [ExpandAll, ClearHighlighting];
    }
    assert ClearSearchStep(s).log[|s.log|..] == [ClearHighlighting];
    assert CollapseAllStep(s).log[|s.log|..] ==
      [CollapseAll, ClearHighlighting, InitialZoom(1.0), SetCentered(1), Render];
  }

  /** Without a chart every handler guarded by it leaves the state as it
      was. */
  lemma NoChartNoEffect(s: ViewState, rank: map<int, nat>, t: Toggles, node: Option<FamilyNode>, target: ClickTarget)
    requires !s.hasChart && Ranked(s.data, rank)
    ensures ExpandAllStep(s) == CollapseAllStep(s) == ClearSearchStep(s) == s
    ensures SearchChangeStep(s, node) == FitStep(s) == ResetFiltersStep(s) == ResetStep(s) == s
    ensures FilteringStep(s, t) == s && NodeClickStep(s, rank, target) == s
  {
  }

  /** Reset with a chart and mounted toggles leaves no node dimmed, empties
      the search box and forgets the highlighted node; the active filter list
      is left as it was. Among the node flags the handlers write only
      `_dimmed`; the `clearHighlighting` call is logged, not applied, so the
      highlight flags it would clear are not part of this statement. */
  lemma ResetClearsDimming(s: ViewState)
    requires s.hasChart && s.togglesMounted
    ensures var s' := ResetStep(s);
      |s'.data| == |s.data| &&
      (forall i :: 0 <= i < |s.data| ==> s'.data[i] == s.data[i].(dimmed := false)) &&
      s'.searchValue == "" && s'.searchSelectedNode == None && s'.highlightedNode == None &&
      s'.filters == s.filters
  {
  }

  /** After a filter change a node is dimmed exactly when its gender,
      category or type is missing from the new list; nothing else about the
      nodes changes. */
  lemma FilteringDims(s: ViewState, t: Toggles)
    requires s.hasChart
    ensures var s' := FilteringStep(s, t);
      |s'.data| == |s.data| &&
      (forall i :: 0 <= i < |s.data| ==>
        s'.data[i] == s.data[i].(dimmed := Dimmed(s.data[i], s'.filters)) &&
        (s'.data[i].dimmed <==>
          GenderName(s.data[i].gender) !in s'.filters ||
          s.data[i].category.None? || CategoryName(s.data[i].category.value) !in s'.filters ||
          s.data[i].nodeType.None? || TypeName(s.data[i].nodeType.value) !in s'.filters))
  {
  }

  /** Reporting the same toggle state twice leaves the same active members
      and the same dimmed flags as reporting it once. */
  lemma FilteringTwice(s: ViewState, t: Toggles)
    requires s.hasChart
    ensures var once := FilteringStep(s, t);
      var twice := FilteringStep(once, t);
      twice.data == once.data &&
      (forall k :: k in twice.filters <==> k in once.filters)
  {
    var once := FilteringStep(s, t);
    var twice := FilteringStep(once, t);
    DimmingBySet(once.data, s.data, twice.filters, once.filters);
  }

  /** A node with only the required fields set. */
  function Bare(id: int, parentId: Option<int>, name: string, gender: Gender): FamilyNode {
    FamilyNode(id, parentId, name, None, gender, None, None, None, None, false, false, false, false)
  }

  function Family(): seq<FamilyNode> {
    [Bare(1, None, "Adam", Male), Bare(2, None, "Eve", Female), Bare(3, Some(1), "Seth", Male)]
  }

  /** Adam (1), Eve (2) and Seth (3, child of Adam): the descendants of Adam
      are Adam and Seth, in that order. */
  lemma AdamEveSeth()
    ensures Ranked(Family(), map[1 := 1, 3 := 0])
    ensures DescendantIndices(Family(), map[1 := 1, 3 := 0], 1) == [0, 2]
  {
    var nodes, rank := Family(), map[1 := 1, 3 := 0];
    assert Ranked(nodes, rank);
    assert Matching(nodes, 1, 0) == [0];
    assert FindChildren(nodes, rank, 3, 3) == [];
    assert FindChildren(nodes, rank, 3, 2) == [];
    assert FindChildren(nodes, rank, 3, 1) == [];
    assert FindChildren(nodes, rank, 3, 0) == [];
    assert FindChildren(nodes, rank, 1, 3) == [];
    assert FindChildren(nodes, rank, 1, 2) == [2];
    assert FindChildren(nodes, rank, 1, 1) == [2];
    assert FindChildren(nodes, rank, 1, 0) == [2];
  }
}
