// The person record shared by both chart widgets, with the view flags the
// D3 chart handlers write onto each record.

module FamilyNodes {

  datatype Option<T> = None | Some(value: T)

  datatype Gender = Male | Female
  datatype Category = Jew | Gentile
  datatype NodeType = Person | Patriarch | Prophet | Priest | King | Nation

  /** One person. Optional fields of the record are `Option`s; the four view
      flags are optional booleans in the record, and an absent flag reads as
      false, so they are plain `bool`s here. `dimmed` is written by the
      filter handlers although the record type does not declare it. */
  datatype FamilyNode = FamilyNode(
    id: int,
    parentId: Option<int>,
    name: string,
    altNames: Option<seq<string>>,
    gender: Gender,
    category: Option<Category>,
    nodeType: Option<NodeType>,
    link: Option<string>,
    notes: Option<seq<string>>,
    expanded: bool,
    highlighted: bool,
    upToTheRootHighlighted: bool,
    dimmed: bool)

  /** The string literal each enumeration value stands for. */
  function GenderName(g: Gender): string {
    match g
    case Male => "male"
    case Female => "female"
  }

  function CategoryName(c: Category): string {
    match c
    case Jew => "jew"
    case Gentile => "gentile"
  }

  function TypeName(t: NodeType): string {
    match t
    case Person => "person"
    case Patriarch => "patriarch"
    case Prophet => "prophet"
    case Priest => "priest"
    case King => "king"
    case Nation => "nation"
  }

  /** Two versions of a node that differ at most in their view flags. */
  ghost predicate SameRecord(a: FamilyNode, b: FamilyNode) {
    a.(expanded := false, highlighted := false, upToTheRootHighlighted := false, dimmed := false)
    == b.(expanded := false, highlighted := false, upToTheRootHighlighted := false, dimmed := false)
  }

  /** A sequence holds no element twice. */
  ghost predicate Distinct<T>(s: seq<T>) {
    forall a, b :: 0 <= a < b < |s| ==> s[a] != s[b]
  }

  /** `parts.join(sep)`. */
  function Join(parts: seq<string>, sep: string): (r: string)
    ensures |parts| == 1 ==> r == parts[0]
    ensures parts == [] ==> r == ""
    ensures parts != [] ==> |parts[0]| <= |r| && r[..|parts[0]|] == parts[0]
  {
    if |parts| == 0 then ""
    else if |parts| == 1 then parts[0]
    else parts[0] + sep + Join(parts[1..], sep)
  }

  /** Joining a longer list extends the join of its first element by the
      separator and the join of the rest. */
  lemma {:induction false} JoinAppend(a: seq<string>, b: seq<string>, sep: string)
    requires a != [] && b != []
    ensures Join(a + b, sep) == Join(a, sep) + sep + Join(b, sep)
  {
    if |a| == 1 {
      assert (a + b)[1..] == b;
    } else {
      assert (a + b)[1..] == a[1..] + b;
      JoinAppend(a[1..], b, sep);
    }
  }

  /** Every part of a join occurs in it. */
  lemma {:induction false} JoinHasParts(parts: seq<string>, sep: string, i: int)
    requires 0 <= i < |parts|
    ensures exists k :: OccursAt(Join(parts, sep), parts[i], k)
  {
    if i == 0 {
      assert OccursAt(Join(parts, sep), parts[0], 0);
    } else {
      JoinHasParts(parts[1..], sep, i - 1);
      var k :| OccursAt(Join(parts[1..], sep), parts[1..][i - 1], k);
      var off := |parts[0]| + |sep|;
      assert Join(parts, sep) == parts[0] + sep + Join(parts[1..], sep);
      assert Join(parts, sep)[off + k..off + k + |parts[i]|] == Join(parts[1..], sep)[k..k + |parts[i]|];
      assert OccursAt(Join(parts, sep), parts[i], off + k);
    }
  }

  /** `hay.includes(needle)`: the needle starts at the first position of the
      haystack or somewhere further on. */
  function Includes(hay: string, needle: string): (r: bool)
    ensures needle == [] ==> r
    ensures r ==> |needle| <= |hay|
    decreases |hay|
  {
    (|needle| <= |hay| && hay[..|needle|] == needle) ||
    (|hay| > 0 && Includes(hay[1..], needle))
  }

  /** The needle occurs in the haystack at position `i`. */
  predicate OccursAt(hay: string, needle: string, i: int) {
    0 <= i && i + |needle| <= |hay| && hay[i..i + |needle|] == needle
  }

  /** A needle that occurs at some position is included. */
  lemma {:induction false} OccursIncluded(hay: string, needle: string, i: int)
    requires OccursAt(hay, needle, i)
    ensures Includes(hay, needle)
    decreases i
  {
    if i > 0 {
      assert OccursAt(hay[1..], needle, i - 1);
      OccursIncluded(hay[1..], needle, i - 1);
    }
  }

  /** An included needle occurs at the position this lemma names. */
  lemma {:induction false} IncludedOccurs(hay: string, needle: string) returns (i: int)
    requires Includes(hay, needle)
    ensures OccursAt(hay, needle, i)
    decreases |hay|
  {
    if |needle| <= |hay| && hay[..|needle|] == needle {
      i := 0;
    } else {
      var j := IncludedOccurs(hay[1..], needle);
      assert hay[1..][j..j + |needle|] == hay[j + 1..j + 1 + |needle|];
      i := j + 1;
    }
  }

  /** `Includes` agrees with the textbook definition of a substring. */
  lemma IncludesIffSubstring(hay: string, needle: string)
    ensures Includes(hay, needle) <==> exists i :: OccursAt(hay, needle, i)
  {
    if Includes(hay, needle) {
      var i := IncludedOccurs(hay, needle);
    }
    if exists i :: OccursAt(hay, needle, i) {
      var i :| OccursAt(hay, needle, i);
      OccursIncluded(hay, needle, i);
    }
  }

  /** What occurs in a string occurs in any string around it. */
  lemma IncludesInside(a: string, b: string, c: string, x: string)
    requires Includes(b, x)
    ensures Includes(a + b + c, x)
  {
    IncludesIffSubstring(b, x);
    var k :| OccursAt(b, x, k);
    assert (a + b + c)[|a| + k..|a| + k + |x|] == b[k..k + |x|];
    assert OccursAt(a + b + c, x, |a| + k);
    IncludesIffSubstring(a + b + c, x);
  }
}
