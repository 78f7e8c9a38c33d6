// The second chart widget, built on a third-party family-tree library: the
// icon click that narrows the drawing to one subtree, the document click
// that resets it or closes the search box, the per-field customisation of
// the node text, and the two read-only elements of the edit form.

module TreeWidget {
  import opened FamilyNodes
  import opened FamilyNodeContent
  import opened TextEncoding

  /** A call the handlers make into the library or the page. */
  datatype TreeCommand = Draw | ClickSearchClose

  /** The roots after an icon click on node `id`: none when `id` already was
      a root, otherwise `id` alone. */
  function ToggledRoots(roots: Option<seq<int>>, id: int): (r: seq<int>)
    ensures r == [] <==> roots.Some? && id in roots.value
    ensures r != [] ==> r == [id]
  {
    if roots.Some? && id in roots.value then [] else [id]
  }

  /** The roots after `n` icon clicks on the same node. */
  function ClickRoots(roots: Option<seq<int>>, id: int, n: nat): Option<seq<int>> {
    if n == 0 then roots else Some(ToggledRoots(ClickRoots(roots, id, n - 1), id))
  }

  class Tree {
    /** Whether the library instance exists. */
    var mounted: bool
    /** The `roots` entry of the library's configuration; absent at first. */
    var roots: Option<seq<int>>
    var log: seq<TreeCommand>

    constructor()
      ensures !mounted && roots == None && log == []
    {
      mounted := false;
      roots := None;
      log := [];
    }

    /** The mount effect creates the instance once. */
    method Mount()
      modifies this
      ensures mounted && roots == old(roots) && log == old(log)
    {
      mounted := true;
    }

    /** A click on a node. A click on the icon link of a node with a non-zero
        id toggles that node as the only root, redraws and returns `false`;
        any other click changes nothing and returns nothing. */
    method HandleNodeClick(nodeId: int, onIconLink: bool) returns (r: Option<bool>)
      modifies this
      ensures r.Some? <==> old(mounted) && nodeId != 0 && onIconLink
      ensures r.Some? ==> r == Some(false) && roots == Some(ToggledRoots(old(roots), nodeId)) &&
                          log == old(log) + [Draw]
      ensures r.None? ==> roots == old(roots) && log == old(log)
      ensures mounted == old(mounted)
    {
      if !mounted || nodeId == 0 {
        return None;
      }
      if onIconLink {
        if roots.Some? && nodeId in roots.value {
          roots := Some([]);
          log := log + [Draw];
          return Some(false);
        }
        roots := Some([nodeId]);
        log := log + [Draw];
        return Some(false);
      }
      return None;
    }

    /** A click anywhere in the document. Clicks on a library link are left
        alone; a click inside the search box clears the roots and redraws;
        any other click presses the search box's close button when there is
        one. */
    method HandleSearchClick(onLibraryLink: bool, inSearchBox: bool, closeButtonPresent: bool)
      modifies this
      ensures mounted == old(mounted)
      ensures !old(mounted) || onLibraryLink ==> roots == old(roots) && log == old(log)
      ensures old(mounted) && !onLibraryLink && inSearchBox ==>
                roots == Some([]) && log == old(log) + [Draw]
      ensures old(mounted) && !onLibraryLink && !inSearchBox ==>
                roots == old(roots) &&
                log == old(log) + (if closeButtonPresent then [ClickSearchClose] else [])
    {
      if !mounted || onLibraryLink {
        return;
      }
      if inSearchBox {
        roots := Some([]);
        log := log + [Draw];
      } else if closeButtonPresent {
        log := log + [ClickSearchClose];
      }
    }
  }

  // ---------------------------------------------------------------------
  // Field customisation

  /** The icon literals of the type field as they are written: each is the
      UTF-8 encoding of the card's emoji read back as Windows-1252. The
      corrected field shows the card's icons instead (see `FieldValue`). */
  const PatriarchText: string :=
    "\U{F0}\U{178}\U{2018}\U{A8}" + "\U{E2}\U{20AC}" + "\U{F0}\U{178}\U{2018}\U{A7}" + "\U{E2}\U{20AC}" +
    "\U{F0}\U{178}\U{2018}\U{A6}"
  const ProphetText: string := "\U{F0}\U{178}\U{201C}\U{2013}"
  const PriestText: string := "\U{F0}\U{178}\U{2122}"
  const KingText: string := "\U{F0}\U{178}\U{2018}\U{2018}"
  const NationText: string := "\U{F0}\U{178}\U{152}"
  const DefaultText: string := "\U{F0}\U{178}\U{2018}\U{A4}"

  function TypeText(t: Option<NodeType>): (r: string)
    ensures r == DefaultText <==> t.None? || t == Some(Person)
  {
    match t
    case Some(Patriarch) => PatriarchText
    case Some(Prophet) => ProphetText
    case Some(Priest) => PriestText
    case Some(King) => KingText
    case Some(Nation) => NationText
    case _ => DefaultText
  }

  /** A link counts only when it is present and not empty. */
  predicate HasLink(n: FamilyNode) {
    n.link.Some? && n.link.value != ""
  }

  const AnchorOpen: string := "<a style=\"fill: #ffffff;\" target=\"_blank\" href=\""

  /** The name rendered as a link that opens in a new tab: the link sits
      in the `href` attribute and the name is the anchor's text. */
  function NameAnchor(link: string, name: string): (r: string)
    ensures |AnchorOpen| + |link| <= |r| && r[..|AnchorOpen|] == AnchorOpen
    ensures r[|AnchorOpen|..|AnchorOpen| + |link|] == link
    ensures r[|AnchorOpen| + |link|..] == "\">" + name + "</a>"
    ensures Includes(r, name)
  {
    var head := AnchorOpen + link + "\">";
    assert name[..|name|] == name;
    IncludesInside(head, name, "</a>", name);
    head + name + "</a>"
  }

  /** The field handler as written: the name becomes a link when the node
      has one, the type becomes its literal, and every other field keeps its
      text `value`. Each type literal is the card's icon misread, never the
      icon itself. */
  function FieldValueAsWritten(fieldName: string, data: FamilyNode, value: string): (r: string)
    ensures fieldName != "name" && fieldName != "type" ==> r == value
    ensures fieldName == "name" && !HasLink(data) ==> r == value
    ensures fieldName == "name" && HasLink(data) ==>
              r == NameAnchor(data.link.value, data.name) &&
              Includes(r, data.name) && |AnchorOpen| + |data.link.value| <= |r| &&
              r[|AnchorOpen|..|AnchorOpen| + |data.link.value|] == data.link.value &&
              r[|AnchorOpen| + |data.link.value|..] == "\">" + data.name + "</a>"
    ensures fieldName == "type" ==>
              r == Misread(FamilyNodeIcon(data.nodeType)) && r != FamilyNodeIcon(data.nodeType)
    ensures fieldName == "type" ==> (r == DefaultText <==> data.nodeType.None? || data.nodeType == Some(Person))
  {
    if fieldName == "name" && HasLink(data) then NameAnchor(data.link.value, data.name)
    else if fieldName == "type" then
      TypeTextIsMisread(data.nodeType);
      TypeTextNotIcon(data.nodeType);
      TypeText(data.nodeType)
    else value
  }

  /** The field handler with the type field corrected: the type shows the
      card's icon, whose misreading is the literal written in the handler;
      every other field is as written. */
  function FieldValue(fieldName: string, data: FamilyNode, value: string): (r: string)
    ensures fieldName != "type" ==> r == FieldValueAsWritten(fieldName, data, value)
    ensures fieldName == "type" ==> r == FamilyNodeIcon(data.nodeType)
    ensures fieldName == "type" ==> Misread(r) == FieldValueAsWritten(fieldName, data, value)
    ensures fieldName == "type" ==> (r == DefaultIcon <==> data.nodeType.None? || data.nodeType == Some(Person))
  {
    if fieldName == "type" then FamilyNodeIcon(data.nodeType)
    else FieldValueAsWritten(fieldName, data, value)
  }

  /** Each type literal is the card's icon for that type, misread. */
  lemma TypeTextIsMisread(t: Option<NodeType>)
    ensures TypeText(t) == Misread(FamilyNodeIcon(t))
  {
    match t
    case Some(Patriarch) => MisreadFamily();
    case Some(Prophet) => MisreadBook();
    case Some(Priest) => MisreadHands();
    case Some(King) => MisreadCrown();
    case Some(Nation) => MisreadGlobe();
    case _ => MisreadBust();
  }

  /** No type literal is the icon it stands for: every one of them starts
      with U+00F0, where every card icon starts with an emoji. */
  lemma TypeTextNotIcon(t: Option<NodeType>)
    ensures TypeText(t) != FamilyNodeIcon(t)
  {
    assert TypeText(t)[0] == '\U{F0}';
    assert FamilyNodeIcon(t)[0] as int >= 0x1F000;
  }

  // ---------------------------------------------------------------------
  // Edit form elements

  /** What an element builder hands back to the library. */
  datatype NotesElement = NotesElement(html: string, id: string, value: seq<string>)
  datatype LinkElement = LinkElement(html: string, id: string, value: Option<string>)

  function LabelHtml(id: string, labelText: string): string {
    "<label for=\"" + id + "\" class=\"btr-edit-label\">" + labelText + "</label>"
  }

  function ListItem(v: string): string {
    "<li>" + v + "</li>"
  }

  /** One list item per note, in the order of the notes. */
  function ListItemSeq(value: seq<string>): (items: seq<string>)
    ensures |items| == |value|
    ensures forall i :: 0 <= i < |value| ==> items[i] == ListItem(value[i])
  {
    seq(|value|, i requires 0 <= i < |value| => ListItem(value[i]))
  }

  /** Every note as a list item, concatenated. */
  function ListItems(value: seq<string>): (r: string)
    ensures r == "" <==> value == []
    ensures |value| == 1 ==> r == ListItem(value[0])
    ensures forall i :: 0 <= i < |value| ==> Includes(r, ListItem(value[i]))
  {
    var items := ListItemSeq(value);
    var r := Join(items, "");
    assert forall i :: 0 <= i < |value| ==> Includes(r, ListItem(value[i])) by {
      forall i | 0 <= i < |value|
        ensures Includes(r, ListItem(value[i]))
      {
        JoinHasParts(items, "", i);
        IncludesIffSubstring(r, items[i]);
      }
    }
    r
  }

  /** The items keep the order of the notes: the list for `a + b` is the
      list for `a` followed by the list for `b`. */
  lemma ListItemsConcat(a: seq<string>, b: seq<string>)
    ensures ListItems(a + b) == ListItems(a) + ListItems(b)
  {
    var ia, ib := ListItemSeq(a), ListItemSeq(b);
    assert ListItemSeq(a + b) == ia + ib;
    if a == [] {
      assert a + b == b;
    } else if b == [] {
      assert a + b == a;
    } else {
      JoinAppend(ia, ib, "");
    }
  }

  const NoNotesList: string := "<ul class=\"btr-notes-list\"><li>No notes.</li></ul>"

  const NotesListOpen: string := "<ul class=\"btr-notes-list\">"

  /** The list under the label: the notes when there are any, the
      "No notes." entry otherwise. Every note appears as a list item. */
  function NotesList(value: seq<string>): (r: string)
    ensures value == [] ==> r == NoNotesList
    ensures value != [] ==> r == NotesListOpen + ListItems(value) + "</ul>"
    ensures forall i :: 0 <= i < |value| ==> Includes(r, ListItem(value[i]))
  {
    var items := ListItems(value);
    if |items| > 0 then
      var ul := NotesListOpen + items + "</ul>";
      assert forall i :: 0 <= i < |value| ==> Includes(ul, ListItem(value[i])) by {
        forall i | 0 <= i < |value|
          ensures Includes(ul, ListItem(value[i]))
        {
          IncludesInside(NotesListOpen, items, "</ul>", ListItem(value[i]));
        }
      }
      ul
    else NoNotesList
  }

  /** The notes element: a label, then the notes as a list, or a list with
      the single entry "No notes." when the node has none. `id` is the
      freshly generated element id. */
  function NotesTextArea(data: map<string, seq<string>>, labelText: string, binding: string, id: string)
    : (r: NotesElement)
    ensures r.id == id
    ensures r.value == if binding in data then data[binding] else []
    ensures |LabelHtml(id, labelText)| <= |r.html| && r.html[..|LabelHtml(id, labelText)|] == LabelHtml(id, labelText)
    ensures r.html == LabelHtml(id, labelText) + NotesList(r.value)
    ensures r.value == [] ==> r.html == LabelHtml(id, labelText) + NoNotesList
    ensures forall i :: 0 <= i < |r.value| ==> Includes(r.html, ListItem(r.value[i]))
  {
    var value := if binding in data then data[binding] else [];
    var html := LabelHtml(id, labelText) + NotesList(value);
    assert forall i :: 0 <= i < |value| ==> Includes(html, ListItem(value[i])) by {
      forall i | 0 <= i < |value|
        ensures Includes(html, ListItem(value[i]))
      {
        IncludesInside(LabelHtml(id, labelText), NotesList(value), "", ListItem(value[i]));
        assert html + "" == html;
      }
    }
    NotesElement(html, id, value)
  }

  const LinkClose: string := "\">View More</a>"

  const LinkOpen: string := "<a class=\"btr-link-text\" target=\"_blank\" href=\""

  /** The link element: a "View More" link to the node's page when the
      bound value is present and not empty, and no markup otherwise. */
  function LinkText(data: map<string, string>, binding: string, id: string): (r: LinkElement)
    ensures r.id == id
    ensures r.value == if binding in data then Some(data[binding]) else None
    ensures r.html == "" <==> r.value.None? || r.value.value == ""
    ensures r.html != "" ==> r.value.Some? && |LinkOpen| + |r.value.value| <= |r.html| &&
                             r.html[..|LinkOpen|] == LinkOpen &&
                             r.html[|LinkOpen|..|LinkOpen| + |r.value.value|] == r.value.value &&
                             r.html[|LinkOpen| + |r.value.value|..] == LinkClose
  {
    var value := if binding in data then Some(data[binding]) else None;
    var html := if value.Some? && value.value != "" then LinkOpen + value.value + LinkClose else "";
    LinkElement(html, id, value)
  }

  // ---------------------------------------------------------------------
  // Properties

  /** Icon clicks on one node alternate: starting from roots without it,
      an odd number of clicks leaves it the only root and an even number
      leaves no roots (after at least one click). */
  lemma {:induction false} ClicksAlternate(roots: Option<seq<int>>, id: int, n: nat)
    requires !(roots.Some? && id in roots.value)
    ensures n % 2 == 1 ==> ClickRoots(roots, id, n) == Some([id])
    ensures n % 2 == 0 && n > 0 ==> ClickRoots(roots, id, n) == Some([])
  {
    if n > 1 {
      ClicksAlternate(roots, id, n - 1);
    }
  }

  /** Two icon clicks on a node that was not a root leave no roots. */
  lemma TwoClicksClear(roots: Option<seq<int>>, id: int)
    requires !(roots.Some? && id in roots.value)
    ensures ToggledRoots(Some(ToggledRoots(roots, id)), id) == []
  {
  }

  /** The type icons are pairwise distinct; `person` and a missing type
      share the default. */
  lemma TypeTextsDistinct(t1: NodeType, t2: NodeType)
    requires t1 != t2
    ensures t1 != Person && t2 != Person ==> TypeText(Some(t1)) != TypeText(Some(t2))
  {
  }
}
