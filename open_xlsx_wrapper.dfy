/** The parts of OpenXLSXWrapper that are the library's own logic: looking a
    sheet up by name and by index in the workbook's list of sheet names, and
    turning a CellStyle into the fill and border it asks for. The wrapped
    OpenXLSX document is seen only through that list of names, None when no
    document is open. */
module OpenXlsxWrapper {
  import W = Wrappers

  // ---------------------------------------------------------------------
  // Sheet lookup

  /** sheetCount: the number of sheets, 0 without a document. */
  function SheetCount(names: W.Option<seq<string>>): (n: nat)
    ensures names.None? ==> n == 0
    ensures names.Some? ==> n == |names.value|
  {
    if names.Some? then |names.value| else 0
  }

  /** sheetName: the name at `index`, "" without a document or when the
      index is past the last sheet. */
  function SheetName(names: W.Option<seq<string>>, index: nat): (r: string)
    ensures index < SheetCount(names) ==> r == names.value[index]
    ensures index >= SheetCount(names) ==> r == ""
  {
    if names.Some? && index < |names.value| then names.value[index] else ""
  }

  /** `i` is the first position holding `name`. */
  predicate IsFirstIndex(names: seq<string>, name: string, i: nat)
  {
    i < |names| && names[i] == name && forall j :: 0 <= j < i ==> names[j] != name
  }

  /** The first position of `name`, by exact comparison. */
  function FirstIndex(names: seq<string>, name: string): (r: W.Option<nat>)
    decreases |names|
  {
    if names == [] then W.None
    else if names[0] == name then W.Some(0)
    else match FirstIndex(names[1..], name)
      case None => W.None
      case Some(i) => W.Some(i + 1)
  }

  /** FirstIndex finds a name exactly when it is present, and then at its
      first position. */
  lemma {:induction false} FirstIndexSpec(names: seq<string>, name: string)
    ensures FirstIndex(names, name).Some? <==> name in names
    ensures FirstIndex(names, name).Some? ==> IsFirstIndex(names, name, FirstIndex(names, name).value)
    decreases |names|
  {
    if names != [] && names[0] != name {
      FirstIndexSpec(names[1..], name);
      assert names == [names[0]] + names[1..];
      if FirstIndex(names[1..], name).Some? {
        var i := FirstIndex(names[1..], name).value;
        forall j | 0 <= j < i + 1
          ensures names[j] != name
        {
          if j > 0 { assert names[j] == names[1..][j - 1]; }
        }
      }
    }
  }

  /** sheetIndex: the loop that returns the first index whose name equals
      `name`; nullopt when none does or no document is open. */
  method SheetIndex(names: W.Option<seq<string>>, name: string) returns (r: W.Option<nat>)
    ensures names.None? ==> r == W.None
    ensures names.Some? ==> r == FirstIndex(names.value, name)
  {
    if names.None? {
      return W.None;
    }
    var ns := names.value;
    FirstIndexSpec(ns, name);
    var i: nat := 0;
    while i < |ns|
      invariant i <= |ns|
      invariant forall j :: 0 <= j < i ==> ns[j] != name
    {
      if ns[i] == name {
        FirstIndexUnique(ns, name, i);
        return W.Some(i);
      }
      i := i + 1;
    }
    return W.None;
  }

  /** Only one position is the first one. */
  lemma FirstIndexUnique(names: seq<string>, name: string, i: nat)
    requires IsFirstIndex(names, name, i)
    ensures FirstIndex(names, name) == W.Some(i)
  {
    FirstIndexSpec(names, name);
    var k := FirstIndex(names, name).value;
    assert !(k < i) && !(i < k);
  }

  /** Name -> index -> name gives the name back for every sheet, and the
      index back too when no two sheets share a name. */
  lemma IndexOfNameRoundTrip(names: seq<string>, i: nat)
    requires i < |names|
    ensures FirstIndex(names, names[i]).Some?
    ensures FirstIndex(names, names[i]).value <= i
    ensures SheetName(W.Some(names), FirstIndex(names, names[i]).value) == names[i]
    ensures (forall a, b :: 0 <= a < b < |names| ==> names[a] != names[b]) ==> FirstIndex(names, names[i]) == W.Some(i)
  {
    FirstIndexSpec(names, names[i]);
  }

  // ---------------------------------------------------------------------
  // Cell style

  datatype CellBorderStyle = None | Thin | Medium | Thick

  /** The OpenXLSX line styles the wrapper uses. */
  datatype LineStyle = LineStyleThin | LineStyleMedium | LineStyleThick

  /** A colour as setCellStyle passes it to XLColor: one leading '#'
      dropped, then "FF" (opaque) put in front of six remaining digits;
      any other length is passed on as it is. */
  function NormalizeColor(color: string): (r: string)
    ensures |color| == 7 && color[0] == '#' ==> r == "FF" + color[1..]
    ensures |color| == 6 && color[0] != '#' ==> r == "FF" + color
    ensures |color| != 6 && |color| != 7 && (color == [] || color[0] != '#') ==> r == color
    ensures color != [] && color[0] == '#' && |color| != 7 ==> r == color[1..]
    ensures |color| == 7 && color[0] != '#' ==> r == color
    ensures |r| != 6
  {
    var col := if color != [] && color[0] == '#' then color[1..] else color;
    if |col| == 6 then "FF" + col else col
  }

  /** Normalising again changes nothing unless the result still starts
      with '#' (as for "##abcd", which loses one '#' each time). */
  lemma NormalizeColorSettles(color: string)
    ensures var r := NormalizeColor(color);
            (r == [] || r[0] != '#') ==> NormalizeColor(r) == r
  {
  }

  /** The border colour: "FF000000" (opaque black) when none is given. */
  function BorderColor(borderColor: string): (r: string)
    ensures borderColor == "" ==> r == "FF000000"
    ensures borderColor != "" ==> r == NormalizeColor(borderColor)
  {
    NormalizeColor(if borderColor == "" then "FF000000" else borderColor)
  }

  /** The line style of each side; none for CellBorderStyle::None. */
  function BorderLine(border: CellBorderStyle): (r: W.Option<LineStyle>)
    ensures r.None? <==> border == None
  {
    match border
    case None => W.None
    case Thin => W.Some(LineStyleThin)
    case Medium => W.Some(LineStyleMedium)
    case Thick => W.Some(LineStyleThick)
  }

  /** Distinct border styles give distinct line styles. */
  lemma BorderLineInjective(a: CellBorderStyle, b: CellBorderStyle)
    requires BorderLine(a) == BorderLine(b)
    ensures a == b
  {
  }

  datatype CellStyle = CellStyle(backgroundColor: string, fontColor: string, border: CellBorderStyle, borderColor: string)

  /** What setCellStyle applies to the cell's new format: a solid fill of
      the normalised background colour when one is given, and the same
      line style and colour on all four sides when a border is asked for.
      The font colour is not used. */
  datatype StylePlan = StylePlan(fill: W.Option<string>, border: W.Option<(LineStyle, string)>)

  function PlanStyle(style: CellStyle): (p: StylePlan)
    ensures p.fill.Some? <==> style.backgroundColor != ""
    ensures p.fill.Some? ==> p.fill.value == NormalizeColor(style.backgroundColor)
    ensures p.border.Some? <==> style.border != None
    ensures p.border.Some? ==> p.border.value == (BorderLine(style.border).value, BorderColor(style.borderColor))
  {
    StylePlan(
      if style.backgroundColor != "" then W.Some(NormalizeColor(style.backgroundColor)) else W.None,
      match BorderLine(style.border)
      case None => W.None
      case Some(ls) => W.Some((ls, BorderColor(style.borderColor))))
  }
}
