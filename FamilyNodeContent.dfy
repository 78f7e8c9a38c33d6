// The card the D3 family-tree component draws inside each node: the name,
// a line with the alternative names, and an icon chosen by the node's type.

module FamilyNodeContent {
  import opened FamilyNodes

  /** Man, girl and boy, joined by zero-width joiners. */
  const PatriarchIcon: string := "\U{1F468}" + "\U{200D}" + "\U{1F467}" + "\U{200D}" + "\U{1F466}"
  const ProphetIcon: string := "\U{1F4D6}"
  const PriestIcon: string := "\U{1F64F}"
  const KingIcon: string := "\U{1F451}"
  const NationIcon: string := "\U{1F310}"
  const DefaultIcon: string := "\U{1F464}"

  /** The icon for a node type. `person` and a missing type share the
      default icon, and only they get it. */
  function FamilyNodeIcon(t: Option<NodeType>): (r: string)
    ensures r == DefaultIcon <==> t.None? || t == Some(Person)
  {
    match t
    case Some(Patriarch) => PatriarchIcon
    case Some(Prophet) => ProphetIcon
    case Some(Priest) => PriestIcon
    case Some(King) => KingIcon
    case Some(Nation) => NationIcon
    case _ => DefaultIcon
  }

  /** The line under the name: the alternative names joined by ", ", and
      nothing when the node has none. Every alternative name appears in
      it. */
  function AltNamesLine(altNames: Option<seq<string>>): (r: string)
    ensures altNames.None? ==> r == ""
    ensures altNames.Some? ==> r == Join(altNames.value, ", ")
    ensures altNames.Some? ==> forall i :: 0 <= i < |altNames.value| ==> Includes(r, altNames.value[i])
  {
    if altNames.None? then ""
    else
      var alts := altNames.value;
      assert forall i :: 0 <= i < |alts| ==> Includes(Join(alts, ", "), alts[i]) by {
        forall i | 0 <= i < |alts|
          ensures Includes(Join(alts, ", "), alts[i])
        {
          JoinHasParts(alts, ", ", i);
          IncludesIffSubstring(Join(alts, ", "), alts[i]);
        }
      }
      Join(alts, ", ")
  }

  /** The line lists the alternative names in order: one name is the line
      itself, and one more name extends the line by ", " and that name. */
  lemma AltNamesLineAppend(alts: seq<string>, x: string)
    ensures AltNamesLine(Some([x])) == x
    ensures alts != [] ==> AltNamesLine(Some(alts + [x])) == AltNamesLine(Some(alts)) + ", " + x
  {
    if alts != [] {
      JoinAppend(alts, [x], ", ");
    }
  }

  /** Different types other than `person` never share an icon. */
  lemma IconsDistinct(t1: NodeType, t2: NodeType)
    requires t1 != t2
    ensures t1 != Person && t2 != Person ==> FamilyNodeIcon(Some(t1)) != FamilyNodeIcon(Some(t2))
    ensures t1 == Person ==> FamilyNodeIcon(Some(t2)) != FamilyNodeIcon(Some(t1))
  {
  }
}
