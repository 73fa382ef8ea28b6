/**
 * The property catalog: which properties the timeline can animate on a
 * node of a given class.
 */
module SupportedProperties {

  /** The twelve properties every supported class shares, in declared order. */
  const SharedProperties: seq<string> := [
    "AnchorPoint",
    "BackgroundColor3",
    "BackgroundTransparency",
    "BorderColor3",
    "BorderSizePixel",
    "ClipsDescendants",
    "LayoutOrder",
    "Position",
    "Size",
    "Rotation",
    "Visible",
    "ZIndex"
  ]

  /** The seven classes the switch names. */
  predicate IsSupportedClass(className: string) {
    className in {"ImageButton", "TextButton", "ScrollingFrame", "TextLabel", "ImageLabel", "Frame", "TextBox"}
  }

  /**
   * `getSupportedProperties`: a copy of the shared list for one of the seven
   * classes, the empty list for any other class name.  A sequence is a value,
   * so a caller that edits its result cannot reach the shared list.
   */
  function GetSupportedProperties(className: string): (r: seq<string>)
    ensures NoDuplicates(r)
    ensures IsSupportedClass(className) <==> |r| == 12
    ensures !IsSupportedClass(className) ==> r == []
    ensures IsSupportedClass(className) ==> "Position" in r && "Size" in r
  {
    if IsSupportedClass(className) then SharedProperties else []
  }

  /** No property name appears twice in `s`. */
  predicate NoDuplicates(s: seq<string>) {
    forall i, j :: 0 <= i < j < |s| ==> s[i] != s[j]
  }

  /**
   * Every result has no duplicates and has 12 or 0 entries; a supported
   * class always offers Position and Size.
   */
  lemma SupportedPropertiesShape(className: string)
    ensures var r := GetSupportedProperties(className);
            NoDuplicates(r) && (|r| == 12 || |r| == 0)
            && (!IsSupportedClass(className) ==> r == [])
            && (IsSupportedClass(className) <==> |r| == 12)
            && (IsSupportedClass(className) ==> "Position" in r && "Size" in r)
  {
    var r := GetSupportedProperties(className);
    if IsSupportedClass(className) {
      assert r[7] == "Position" && r[8] == "Size";
    }
  }
}
