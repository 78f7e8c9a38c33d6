# bible-tree, modelled in Dafny

bible-tree draws a family tree of biblical figures in two ways. One is a D3 org chart with its own
toolbar, search box and filter toggles. The other is a third-party family-tree widget. This
project models the logic inside their event handlers. All of it works on an in-memory list of
person records (`FamilyNode`: id, optional parent id, name, optional alternative names, gender,
optional category and type, optional link and notes, and four view flags).

- `FamilyNode.dfy` (module `FamilyNodes`): the person record and its enumerations, `join` and
  `includes` on strings.
- `Descendants.dfy` (module `Descendants`): `getDescendants`. It returns the nodes carrying an id,
  then a pre-order walk down the parent links, siblings in list order. The result is given as
  positions in the list, which stand for the shared record objects. A ghost rank map that
  decreases from parent to child witnesses that the links are acyclic.
- `Filters.dfy` (module `Filters`): the pure half of `handleFiltering`:
  - toggles split into keys to add and keys to remove;
  - the active list updated (dedupe, union, minus);
  - the dimming rule.
- `FamilyTreeChart.dfy`: module `FamilyTreeChart`, the D3 component as a class `FamilyTree`.
  - Its fields are the component state and the node list the chart holds.
  - Each handler is a method proved equal to a step function on a `ViewState` snapshot.
  - The loops over the node list are methods with invariants.
  - Calls into the chart library and the toggle groups are appended to a log of `Command`s.
  - Module `FamilyTreeChartProperties` states what the handlers guarantee.
- `SearchInput.dfy` (module `SearchInput`): the search menu's filter, its labels, `itemToString`.
- `FamilyNodeContent.dfy` (module `FamilyNodeContent`): the card inside each node (icon, alt-names
  line).
- `TreeWidget.dfy` (module `TreeWidget`): the second widget.
  - The class `Tree` holds the `roots` configuration, toggled by icon clicks and reset by clicks
    in the search box.
  - The field customisation and the two edit-form element builders.
- `TextEncoding.dfy` (module `TextEncoding`): UTF-8 encoding read back as Windows-1252, which
  explains the icon literals of the second widget (see Findings).

Behaviours of the code a reader may not expect:

- Switching "female" off dims every node without a category or a type, not only the women. The
  reason is that `includes(undefined)` is false (`Filters.Dimmed`,
  `Filters.ToggleOffDims`). With a category and a type on every node, it dims exactly the women.
- Collapse-all centres the chart on the node with id 1 (`FamilyTreeChartProperties.Centring`).
- `resetFilters` itself clears the dimmed flags and resets the toggles but does not write the
  active filter list (`FamilyTreeChartProperties.ResetClearsDimming`).
- Two click branches carry swapped comments. The `btr-node-container` branch expands and
  highlights downwards; the `btr-node-icon` branch highlights up to the root. The model follows
  the branches.

## Model

| member | source | states |
|---|---|---|
| FamilyNodes.Join | src/components/FamilyTree/SearchInput/SearchInput.tsx:70 | a one-element join is that element, an empty join is empty, and a join starts with its first part |
| FamilyNodes.JoinAppend | src/components/FamilyTree/SearchInput/SearchInput.tsx:70 | joining `a + b` is the join of `a`, the separator, then the join of `b` |
| FamilyNodes.JoinHasParts | src/components/FamilyTree/FamilyNodeContent/FamilyNodeContent.tsx:13 | every part of a join occurs in the joined string |
| FamilyNodes.Includes | src/components/FamilyTree/SearchInput/SearchInput.tsx:53-55 | the empty needle is in every string, and a needle longer than the haystack is in none |
| FamilyNodes.IncludesIffSubstring | src/components/FamilyTree/SearchInput/SearchInput.tsx:53-56 | `includes` holds exactly when the needle occurs at some position of the haystack |
| Descendants.Matching | src/components/FamilyTree/FamilyTree.tsx:251 | the positions returned carry the id, include every position from `k` on that carries it, and increase |
| Descendants.FindChildren | src/components/FamilyTree/FamilyTree.tsx:253-260 | the walk returns valid positions and terminates on acyclic parent links |
| Descendants.DescendantIndices | src/components/FamilyTree/FamilyTree.tsx:250-264 | getDescendants as positions, all within the list |
| Descendants.GetDescendants | src/components/FamilyTree/FamilyTree.tsx:250-264 | getDescendants as records: the nodes at the positions of DescendantIndices, in that order |
| Descendants.FindChildrenMembers | src/components/FamilyTree/FamilyTree.tsx:253-260 | the walk from position `k` visits exactly the children of `p` from `k` on and everything below them |
| Descendants.FindChildrenDistinct | src/components/FamilyTree/FamilyTree.tsx:253-260 | with unique ids the walk visits no position twice |
| Descendants.DescendantsMembers | src/components/FamilyTree/FamilyTree.tsx:250-264 | a position is returned exactly when its node carries the id or lies below it |
| Descendants.DescendantsOnce | src/components/FamilyTree/FamilyTree.tsx:250-264 | with unique ids every descendant appears exactly once |
| Descendants.DescendantsLead | src/components/FamilyTree/FamilyTree.tsx:251 | the result starts with all nodes carrying the id, in list order, and no later entry carries it |
| Descendants.DescendantsParentsEarlier | src/components/FamilyTree/FamilyTree.tsx:253-259 | every entry after the leading matches is a child of the id or of an earlier entry |
| Descendants.ParentsEarlierWalk | src/components/FamilyTree/FamilyTree.tsx:253-260 | in the walk every node's parent is `p` or comes earlier |
| Descendants.SiblingsInListOrder | src/components/FamilyTree/FamilyTree.tsx:253-259 | in the walk below `p` from position `k`, the children of `p` are taken from `k` on and appear in list order |
| Descendants.SubtreeFollows | src/components/FamilyTree/FamilyTree.tsx:255-258 | in the walk every node is followed at once by the walk of its own subtree |
| Descendants.DescendantsPreOrder | src/components/FamilyTree/FamilyTree.tsx:250-264 | getDescendants is a pre-order walk: after the matches, the children of the id in list order, each followed at once by its own subtree |
| Filters.Adds | src/components/FamilyTree/FamilyTree.tsx:201-211 | a key is in the add list exactly when it is toggled on |
| Filters.Removes | src/components/FamilyTree/FamilyTree.tsx:201-211 | a key is in the remove list exactly when it is toggled off |
| Filters.Dedupe | src/components/FamilyTree/FamilyTree.tsx:214 | `Array.from(new Set(...))` keeps the same members and has no duplicates |
| Filters.Without | src/components/FamilyTree/FamilyTree.tsx:214 | the filtered list holds exactly the members not removed, and stays duplicate-free |
| Filters.NewFilters | src/components/FamilyTree/FamilyTree.tsx:214 | a key is active afterwards exactly when it was active or toggled on, and is not toggled off; no duplicates |
| Filters.NewFiltersToggles | src/components/FamilyTree/FamilyTree.tsx:201-214 | with distinct keys, on-keys are active, off-keys inactive, unmentioned keys keep their membership |
| Filters.IncludesOpt | src/components/FamilyTree/FamilyTree.tsx:224 | an absent value is never included; a present one exactly when some entry of the list equals it |
| Filters.Dimmed | src/components/FamilyTree/FamilyTree.tsx:223-225 | a node without a category or a type is always dimmed; otherwise it is undimmed exactly when its gender, category and type are all active |
| Filters.DimmedPositions | src/components/FamilyTree/FamilyTree.tsx:223-225 | the positions to dim are exactly those whose node the dimming rule dims |
| Filters.ApplyDimming | src/components/FamilyTree/FamilyTree.tsx:223-233 | every node keeps its record and gets its dimmed flag from the new list alone |
| Filters.DimmingBySet | src/components/FamilyTree/FamilyTree.tsx:228-233 | the flags depend only on the set of active keys, not on earlier flags |
| Filters.DimmingIdempotent | src/components/FamilyTree/FamilyTree.tsx:228-233 | applying the same filters twice gives the flags of applying them once |
| Filters.ToggleOnOff | src/components/FamilyTree/FamilyTree.tsx:214 | switching an inactive key on then off restores the exact filter list |
| Filters.ToggleOnAppends | src/components/FamilyTree/FamilyTree.tsx:214 | switching an inactive key on appends it to the list |
| Filters.ToggleOffRemovesLast | src/components/FamilyTree/FamilyTree.tsx:214 | switching off the last-appended key takes it away again |
| Filters.ToggleOffDims | src/components/FamilyTree/FamilyTree.tsx:214-233 | switching one key off dims exactly the nodes dimmed before plus those whose gender, category or type is that key |
| Filters.ToggleOnOffDimming | src/components/FamilyTree/FamilyTree.tsx:214-233 | the on/off round trip leaves the dimming of the original list |
| FamilyTreeChart.FindById | src/components/FamilyTree/FamilyTree.tsx:136 | `find` returns nothing exactly when no node has the id, else the first node that has it |
| FamilyTreeChart.ClearDimming | src/components/FamilyTree/FamilyTree.tsx:58 | every node with its dimmed flag cleared and nothing else changed |
| FamilyTreeChart.ClearDimmedFlags | src/components/FamilyTree/FamilyTree.tsx:58 | the loop leaves the list ClearDimming describes |
| FamilyTreeChart.SetDimmedFlags | src/components/FamilyTree/FamilyTree.tsx:231-233 | the loop sets the dimmed flag on exactly the listed positions and changes nothing else |
| FamilyTreeChart.DimByFilters | src/components/FamilyTree/FamilyTree.tsx:223-233 | the clear-then-dim loops leave exactly ApplyDimming of the new list |
| FamilyTreeChart.ClearExpandedFlags | src/components/FamilyTree/FamilyTree.tsx:156 | the loop clears every expanded flag and nothing else |
| FamilyTreeChart.FlagVisited | src/components/FamilyTree/FamilyTree.tsx:159-167 | the loop expands every visited node, highlights the first, marks the others as on the way to the root |
| FamilyTreeChart.MarkSubtree | src/components/FamilyTree/FamilyTree.tsx:156-167 | both loops together give ContainerFlags and keep the parent links acyclic |
| FamilyTreeChart.FamilyTree.constructor | src/components/FamilyTree/FamilyTree.tsx:30-36 | no chart yet, every enumeration value active, nothing searched, highlighted or selected, drawer closed |
| FamilyTreeChart.FamilyTree.Mount | src/components/FamilyTree/FamilyTree.tsx:267-285 | the chart exists and has been given the data, expanded and rendered; nothing else changes |
| FamilyTreeChart.FamilyTree.HandleExpandAll | src/components/FamilyTree/FamilyTree.tsx:38-50 | the new state is ExpandAllStep of the old one |
| FamilyTreeChart.FamilyTree.HandleCollapseAll | src/components/FamilyTree/FamilyTree.tsx:69-76 | the new state is CollapseAllStep of the old one |
| FamilyTreeChart.FamilyTree.HandleSearchChange | src/components/FamilyTree/FamilyTree.tsx:78-90 | the new state is SearchChangeStep: with a chart and a node, the node is selected and highlighted, centred and zoomed |
| FamilyTreeChart.FamilyTree.SelectSearchItem | src/components/FamilyTree/SearchInput/SearchInput.tsx:25 | a chosen item reaches handleSearchChange and a cleared selection changes nothing |
| FamilyTreeChart.FamilyTree.HandleSearchInputChange | src/components/FamilyTree/FamilyTree.tsx:92-94 | only the search text changes |
| FamilyTreeChart.FamilyTree.HandleClearSearchInput | src/components/FamilyTree/FamilyTree.tsx:96-103 | the new state is ClearSearchStep of the old one |
| FamilyTreeChart.FamilyTree.HandleFit | src/components/FamilyTree/FamilyTree.tsx:105-109 | only a fit request is logged, and only with a chart |
| FamilyTreeChart.FamilyTree.ResetFilters | src/components/FamilyTree/FamilyTree.tsx:52-67 | with a chart and mounted toggles every dimmed flag is cleared and the toggles reset; otherwise nothing changes |
| FamilyTreeChart.FamilyTree.HandleReset | src/components/FamilyTree/FamilyTree.tsx:111-116 | reset is resetFilters followed by clearing the search box |
| FamilyTreeChart.FamilyTree.HandleFiltering | src/components/FamilyTree/FamilyTree.tsx:197-237 | the active list becomes NewFilters and the nodes ApplyDimming of it, with a chart |
| FamilyTreeChart.FamilyTree.HandleNodeClick | src/components/FamilyTree/FamilyTree.tsx:118-186 | each click kind has its effect: background clears the highlight, heading opens the drawer on the found node, container marks the subtree, icon highlights up to the root |
| FamilyTreeChart.FamilyTree.ClickContainer | src/components/FamilyTree/FamilyTree.tsx:148-173 | the node list becomes ContainerFlags over getDescendants, and the first visited node becomes the highlighted node |
| FamilyTreeChart.FamilyTree.HandleDrawerClose | src/components/FamilyTree/FamilyTree.tsx:188-195 | the drawer closes and the selected node is forgotten |
| FamilyTreeChartProperties.ContainerClickExpandsSubtree | src/components/FamilyTree/FamilyTree.tsx:151-167 | after a container click a node is expanded exactly when it carries the id or lies below it |
| FamilyTreeChartProperties.ContainerClickHighlights | src/components/FamilyTree/FamilyTree.tsx:159-166 | the first visited node is highlighted and becomes the highlighted node; every later one is marked up to the root |
| FamilyTreeChartProperties.ContainerClickKeepsRecords | src/components/FamilyTree/FamilyTree.tsx:156-167 | the handler's own writes change only view flags: records and dimmed flags are kept, and the loops leave unvisited nodes with only the expanded flag cleared (the logged clearHighlighting is not applied) |
| FamilyTreeChartProperties.ClearingHandlers | src/components/FamilyTree/FamilyTree.tsx:38-103 | expand-all, collapse-all and clear-search empty the search text and forget the searched and highlighted nodes |
| FamilyTreeChartProperties.Centring | src/components/FamilyTree/FamilyTree.tsx:45-47 | expand-all centres exactly when a node was highlighted, on it; clear-search never centres; collapse-all centres on id 1 |
| FamilyTreeChartProperties.NoChartNoEffect | src/components/FamilyTree/FamilyTree.tsx:39 | without a chart every guarded handler leaves the state unchanged |
| FamilyTreeChartProperties.ResetClearsDimming | src/components/FamilyTree/FamilyTree.tsx:111-116 | reset leaves no node dimmed and the search cleared and keeps the filter list; of the node flags the handlers write only dimmed (the logged clearHighlighting is not applied) |
| FamilyTreeChartProperties.FilteringDims | src/components/FamilyTree/FamilyTree.tsx:223-233 | after filtering a node is dimmed exactly when its gender, category or type is missing or inactive |
| FamilyTreeChartProperties.FilteringTwice | src/components/FamilyTree/FamilyTree.tsx:214-233 | reporting the same toggles twice gives the same flags and active keys as once |
| FamilyTreeChartProperties.AdamEveSeth | src/components/FamilyTree/FamilyTree.tsx:250-264 | for Adam, Eve and Seth (child of Adam) the descendants of Adam are Adam then Seth |
| SearchInput.Lower | src/components/FamilyTree/SearchInput/SearchInput.tsx:53-55 | lower-casing keeps the length and maps each ASCII letter to lower case |
| SearchInput.SomeAltIncludes | src/components/FamilyTree/SearchInput/SearchInput.tsx:54-56 | true exactly when some lower-cased alternative name contains the query |
| SearchInput.Keep | src/components/FamilyTree/SearchInput/SearchInput.tsx:50-57 | an empty query keeps every node; otherwise a node is kept exactly when its lower-cased name or some lower-cased alternative name contains the lower-cased query |
| SearchInput.FilterItems | src/components/FamilyTree/SearchInput/SearchInput.tsx:49-57 | the menu items are an order-preserving subsequence of the data, each node kept with its multiplicity exactly when it matches |
| SearchInput.MenuLabel | src/components/FamilyTree/SearchInput/SearchInput.tsx:70 | the label starts with the name and contains every alternative name |
| SearchInput.MenuLabels | src/components/FamilyTree/SearchInput/SearchInput.tsx:48-72 | an open menu lists one label per kept node in order; a closed menu lists nothing |
| SearchInput.ItemToString | src/components/FamilyTree/SearchInput/SearchInput.tsx:26 | no item shows as empty text; an item shows as its name, which is the start of its menu label |
| SearchInput.EmptyQueryKeepsAll | src/components/FamilyTree/SearchInput/SearchInput.tsx:51 | an empty query lists every node in order |
| SearchInput.ListedIff | src/components/FamilyTree/SearchInput/SearchInput.tsx:49-57 | a node is listed exactly when it is in the data and matches the query |
| SearchInput.CaseInsensitive | src/components/FamilyTree/SearchInput/SearchInput.tsx:53-55 | queries with the same lower-case form list the same nodes |
| SearchInput.DavidOrdavid | src/components/FamilyTree/SearchInput/SearchInput.tsx:53-55 | "David" and "david" list the same nodes |
| SearchInput.NoAltNamesMatchByName | src/components/FamilyTree/SearchInput/SearchInput.tsx:54 | a node without alternative names matches only through its name |
| SearchInput.MenuLabelShape | src/components/FamilyTree/SearchInput/SearchInput.tsx:70 | a label is the name alone, or the name, ", " and the card's alt-names line |
| FamilyNodeContent.FamilyNodeIcon | src/components/FamilyTree/FamilyNodeContent/FamilyNodeContent.tsx:21-36 | the default icon goes exactly to `person` and to a missing type |
| FamilyNodeContent.AltNamesLine | src/components/FamilyTree/FamilyNodeContent/FamilyNodeContent.tsx:13 | no alternative names give an empty line; otherwise the names joined by ", ", so every alternative name appears in it |
| FamilyNodeContent.AltNamesLineAppend | src/components/FamilyTree/FamilyNodeContent/FamilyNodeContent.tsx:13 | one name is the whole line, and one more name extends the line by ", " and that name, so the names keep their order |
| FamilyNodeContent.IconsDistinct | src/components/FamilyTree/FamilyNodeContent/FamilyNodeContent.tsx:22-34 | different types other than `person` never share an icon |
| TreeWidget.ToggledRoots | src/components/Tree/Tree.tsx:101-111 | the roots become empty exactly when the node already was a root, and otherwise that node alone |
| TreeWidget.Tree.constructor | src/components/Tree/Tree.tsx:14 | no library instance, no roots configured, nothing drawn |
| TreeWidget.Tree.Mount | src/components/Tree/Tree.tsx:210-226 | the instance exists; roots and log are unchanged |
| TreeWidget.Tree.HandleNodeClick | src/components/Tree/Tree.tsx:94-114 | an icon-link click on a node with a non-zero id toggles it as the only root, redraws and returns false; any other click changes nothing |
| TreeWidget.Tree.HandleSearchClick | src/components/Tree/Tree.tsx:73-92 | library links are ignored; a click in the search box clears the roots and redraws; elsewhere the close button is pressed if present |
| TreeWidget.TypeText | src/components/Tree/Tree.tsx:128-148 | the literals as written; the default literal goes exactly to `person` and a missing type |
| TreeWidget.NameAnchor | src/components/Tree/Tree.tsx:124 | the anchor markup exactly: the opening tag with the link as its href, then the name as the anchor's text and the closing tag |
| TreeWidget.FieldValueAsWritten | src/components/Tree/Tree.tsx:116-152 | the handler as written: a name with a link becomes its NameAnchor: the link as the href and the name as the anchor's text; the type field shows the misread card icon, never the icon itself; other fields keep their text |
| TreeWidget.FieldValue | src/components/Tree/Tree.tsx:128-148 | the corrected handler: the type field shows the card's icon, whose misreading is the as-written literal; every other field is as written |
| TreeWidget.ListItems | src/components/Tree/Tree.tsx:37 | the items are empty exactly when there are no notes, one note gives exactly its `<li>`, and every note appears as a list item |
| TreeWidget.ListItemsConcat | src/components/Tree/Tree.tsx:37 | the items keep the notes' order |
| TreeWidget.NotesList | src/components/Tree/Tree.tsx:41-45 | no notes give the "No notes." list; otherwise the list opening, the items and `</ul>`, so every note appears as an item |
| TreeWidget.NotesTextArea | src/components/Tree/Tree.tsx:27-50 | the element carries the generated id and the bound notes (none when unbound); its markup is the label followed by the notes list |
| TreeWidget.LinkText | src/components/Tree/Tree.tsx:52-71 | the markup is empty exactly when the bound link is missing or empty; otherwise it is the anchor opening, the link as its href, then the "View More" text and closing tag |
| TreeWidget.ClicksAlternate | src/components/Tree/Tree.tsx:101-111 | repeated icon clicks on a node alternate between it alone and no roots |
| TreeWidget.TwoClicksClear | src/components/Tree/Tree.tsx:102-109 | two icon clicks on a node that was not a root leave no roots |
| TreeWidget.TypeTextsDistinct | src/components/Tree/Tree.tsx:128-148 | the five named types have pairwise different literals |
| TreeWidget.TypeTextIsMisread | src/components/Tree/Tree.tsx:128-148 | each literal is the card's emoji for that type, UTF-8 encoded and read as Windows-1252 |
| TreeWidget.TypeTextNotIcon | src/components/Tree/Tree.tsx:128-148 | no literal equals the icon it stands for |
| TextEncoding.MisreadFamily | src/components/Tree/Tree.tsx:131 | the patriarch literal is the misread man-girl-boy family emoji |
| TextEncoding.MisreadBook | src/components/Tree/Tree.tsx:134 | the prophet literal is the misread book emoji |
| TextEncoding.MisreadHands | src/components/Tree/Tree.tsx:137 | the priest literal is the misread folded-hands emoji, its last byte lost |
| TextEncoding.MisreadCrown | src/components/Tree/Tree.tsx:140 | the king literal is the misread crown emoji |
| TextEncoding.MisreadGlobe | src/components/Tree/Tree.tsx:143 | the nation literal is the misread globe emoji, its last byte lost |
| TextEncoding.MisreadBust | src/components/Tree/Tree.tsx:146 | the default literal is the misread bust emoji |

## Left out

- Chart library internals are left out. These are the D3 org chart's layout, zoom and `fit`, and what `expandAll`, `collapseAll`, `clearHighlighting`, `setHighlighted`, `setCentered` and `setUpToTheRootHighlighted` do to the node flags. The handlers' calls are recorded as `Command`s in a log; their effects are not applied.
- `Descendants.FindChildren`: the source has no guard against cyclic parent links. A node that is its own parent, or any cycle reachable from the clicked id, makes `findChildren` recurse until the JavaScript stack overflows, and the click handler throws a RangeError. The model requires a rank that decreases from parent to child over the whole list, so it also excludes cycles the walk never reaches. Those lists are handled by the source without trouble.
- The container-click and reset properties (`FamilyTreeChartProperties.ContainerClickKeepsRecords`, `FamilyTreeChartProperties.ResetClearsDimming`) do not state that the highlight and ancestor-highlight flags end up false. That is the effect of the logged `clearHighlighting` call, which the model does not apply.
- The ancestor walk inside `setUpToTheRootHighlighted` is library code that is not part of this model.
- Node identity is not modelled. Records are values, so `highlightedNode` and `selectedNode` hold a snapshot of the node as the handler leaves it. Later changes to the shared object through the chart's list are not reflected.
- The 300 ms delay before `handleDrawerClose` forgets the selected node is collapsed into the call.
- The verse-linking script started after a heading click (`window.BGLinks`, FamilyTree.tsx:139-142) is a third-party script.
- Ids read from the DOM with `Number(...)` arrive as integers. A non-numeric attribute (NaN) is not modelled.
- `chart.data() || []` is modelled as the chart's list; the chart never returns null here.
- The filter toggle groups are not part of this model. Their state arrives as a list of key/value pairs, and `reset()` is a logged command. Each group reports changes to `handleFiltering` (FamilyTree.tsx:339, 344, 349). If `reset()` reports one, the active list and the dimmed flags are rewritten after the reset; the model does not follow that call.
- The initial active list is all ten values of the gender, category and type unions (FamilyNode.ts:6-8). The `nodeGender`, `nodeCategory` and `nodeType` constants it is built from are not part of this model.
- The filter popover (`handleShowFilters`, `handleHideFilters`) only anchors a UI element.
- The mount effect (FamilyTree.tsx:267-285) renders each card with a prop named `node`, while the card reads `data`. The model takes the card as a function of the record.
- The search box is rendered with a prop named `value` (FamilyTree.tsx:318), while SearchInput reads `selectedItem` (SearchInput.tsx:8, 17). So the searched node never reaches the search box; the model takes `selectedItem` as the component receives it.
- `SearchInput.Lower`: only ASCII letters are lower-cased; full Unicode case mapping is out of scope.
- Menu highlighting and bold styling of the selected item in the search menu are presentation.
- `TreeWidget.TypeText` and `FamilyNodeContent.FamilyNodeIcon` take the type from the closed enumeration, so a type value outside it is not representable. The source maps such a value to the default icon.
- The second widget's library (templates, configuration, `draw`, `load`, `generateId`, the edit form) is foreign. A redraw is a logged `Draw`, the generated id is a parameter, and the close button's click is a logged `ClickSearchClose`.
- The page's file reading and YAML parsing, the notes drawer's markdown, themes and layout are I/O and presentation.

## Findings

| source | as written | input that shows it | evidently intended | confidence | as-written member | corrected member |
|---|---|---|---|---|---|---|
| src/components/Tree/Tree.tsx:128-148 | The type icons are the emoji's UTF-8 bytes read back as Windows-1252. Three of them also lost the bytes that code page leaves undefined: 0x8D from each joiner of the patriarch icon, 0x8F from the priest icon, 0x90 from the nation icon. | A node of type `priest` shows U+00F0 U+0178 U+2122 ("ðŸ™") instead of 🙏. | The emoji the D3 chart's node card shows for the same type. | high; not executed | TreeWidget.FieldValueAsWritten | TreeWidget.FieldValue |
