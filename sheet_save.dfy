/** XLSheet::save as a text transformation: look up the sheet's part in
    workbook.xml.rels, cut the `<c ...>` fragments out of the part's
    `<sheetData>` section into a map keyed by cell reference, write a fresh
    fragment over the entry of every data cell, and splice the fragments back
    in ascending reference order. */
module SheetSave {
  import opened Wrappers
  import opened Text
  import opened Overlays
  import opened TagScan
  import opened StringOrder

  // ---------------------------------------------------------------------
  // The sheet's part, found by its relationship id

  /** The Target a relationship element gives for `rId`: only when its Id
      reads as `rId` and its Target can be read. */
  function TargetOf(tag: string, rId: string): Option<string>
  {
    match Attr(tag, IdKey)
    case None => None
    case Some(id) => if id == rId then Attr(tag, TargetKey) else None
  }

  function TargetReader(rId: string): string -> Option<string>
  {
    tag => TargetOf(tag, rId)
  }

  /** The target of the first relationship element that names `rId` and has
      a Target. */
  function SheetTarget(rels: string, rId: string): Option<string>
  {
    FirstOf(Tags(rels, RelOpen, RelClose, 0), TargetReader(rId))
  }

  /** The target found belongs to a relationship element whose Id is `rId`,
      and no element before it names `rId` with a readable Target; nothing
      is found exactly when no element does. */
  lemma SheetTargetSpec(rels: string, rId: string)
    ensures var tags := Tags(rels, RelOpen, RelClose, 0);
            SheetTarget(rels, rId).None? <==> forall i :: 0 <= i < |tags| ==> TargetOf(tags[i], rId).None?
    ensures var tags := Tags(rels, RelOpen, RelClose, 0);
            SheetTarget(rels, rId).Some? ==>
              exists i :: 0 <= i < |tags| && Attr(tags[i], IdKey) == Some(rId) &&
                Attr(tags[i], TargetKey) == SheetTarget(rels, rId) &&
                forall j :: 0 <= j < i ==> TargetOf(tags[j], rId).None?
  {
    var tags := Tags(rels, RelOpen, RelClose, 0);
    FirstOfSpec(tags, TargetReader(rId));
  }

  /** The target lookup of save: the first relationship element whose Id
      is `rId` and whose Target reads; "" when there is none. */
  method FindTarget(relsContent: string, rId: string) returns (target: string)
    ensures SheetTarget(relsContent, rId).Some? ==> target == SheetTarget(relsContent, rId).value
    ensures SheetTarget(relsContent, rId).None? ==> target == ""
  {
    var found := FindFirst(relsContent, RelOpen, RelClose, TargetReader(rId));
    FirstFromTags(relsContent, RelOpen, RelClose, 0, TargetReader(rId));
    target := if found.Some? then found.value else "";
  }

  // ---------------------------------------------------------------------
  // The existing fragments of the sheetData section

  const CellOpen: string := "<c "
  const SelfClose: string := "/>"
  const CellClose: string := "</c>"

  /** Where the fragment that starts at `p` ends (exclusive): after the
      first "/>" anywhere at or after `p`, or, when there is none, after the
      first "</c>"; None when neither exists. */
  function FragmentEnd(ds: string, p: nat): (r: Option<nat>)
    ensures r.Some? ==> p < r.value <= |ds|
  {
    match Find(ds, SelfClose, p)
    case Some(x) => Some(x + |SelfClose|)
    case None =>
      match Find(ds, CellClose, p)
      case Some(y) => Some(y + |CellClose|)
      case None => None
  }

  /** The fragments the save loop cuts out, in order. */
  function Fragments(ds: string, from: nat): (frags: seq<string>)
    decreases |ds| - from
  {
    match Find(ds, CellOpen, from)
    case None => []
    case Some(p) =>
      match FragmentEnd(ds, p)
      case None => []
      case Some(e) => [ds[p..e]] + Fragments(ds, e)
  }

  /** A fragment is keyed by its first `r="` value, and dropped without one
      or with an empty one. */
  function FragmentEntry(tag: string): Option<(string, string)>
  {
    match Attr(tag, RefKey)
    case None => None
    case Some(ref) => if ref != "" then Some((ref, tag)) else None
  }

  /** cellXmlMap before the data cells are written: a repeated reference
      keeps its last fragment. */
  function FragmentMap(ds: string): map<string, string>
  {
    Overlay(map[], Keep(Fragments(ds, 0), FragmentEntry))
  }

  /** The fragment loop as it runs: `m` holds the map built so far, and
      `entry` reads the key of a fragment. */
  function FragmentsFrom(ds: string, from: nat, m: map<string, string>, entry: string -> Option<(string, string)>): map<string, string>
    decreases |ds| - from
  {
    match Find(ds, CellOpen, from)
    case None => m
    case Some(p) =>
      match FragmentEnd(ds, p)
      case None => m
      case Some(e) => FragmentsFrom(ds, e, Assign(m, entry(ds[p..e])), entry)
  }

  lemma {:induction false} FragmentsFromOverlay(ds: string, from: nat, m: map<string, string>,
                                                entry: string -> Option<(string, string)>)
    ensures FragmentsFrom(ds, from, m, entry) == Overlay(m, Keep(Fragments(ds, from), entry))
    decreases |ds| - from
  {
    match Find(ds, CellOpen, from)
    case None =>
    case Some(p) =>
      match FragmentEnd(ds, p)
      case None =>
      case Some(e) =>
        var tag := ds[p..e];
        FragmentsFromOverlay(ds, e, Assign(m, entry(tag)), entry);
        KeepOverlayCons(m, tag, Fragments(ds, e), entry);
  }

  /** The whole fragment loop, started with an empty map. */
  lemma FragmentsFromStart(ds: string)
    ensures FragmentsFrom(ds, 0, map[], FragmentEntry) == FragmentMap(ds)
  {
    FragmentsFromOverlay(ds, 0, map[], FragmentEntry);
  }

  /** The fragment loop of save, with the reading of a fragment's key
      (FragmentEntry) passed in as `entry`. */
  method ScanFragments(dataSection: string, entry: string -> Option<(string, string)>)
    returns (cellXmlMap: map<string, string>)
    ensures cellXmlMap == FragmentsFrom(dataSection, 0, map[], entry)
  {
    cellXmlMap := map[];
    var cellPos: nat := 0;
    while true
      invariant cellPos <= |dataSection|
      invariant FragmentsFrom(dataSection, cellPos, cellXmlMap, entry) == FragmentsFrom(dataSection, 0, map[], entry)
      decreases |dataSection| - cellPos
    {
      var start := Find(dataSection, CellOpen, cellPos);
      if start.None? {
        break;
      }
      // tagEnd is the index of the fragment's last character, '>'
      var tagEnd: nat;
      var selfClosing := Find(dataSection, SelfClose, start.value);
      if selfClosing.Some? {
        tagEnd := selfClosing.value + 1;
      } else {
        var closing := Find(dataSection, CellClose, start.value);
        if closing.None? {
          break;
        }
        tagEnd := closing.value + 3;
      }
      var cellTag := dataSection[start.value..tagEnd + 1];
      // a fragment without a reference, or with an empty one, is dropped
      var keyed := entry(cellTag);
      if keyed.Some? {
        cellXmlMap := cellXmlMap[keyed.value.0 := keyed.value.1];
      }
      cellPos := tagEnd + 1;
    }
  }

  /** `f` starts with `<c ` and ends with "/>" or with "</c>". */
  predicate FragmentShaped(f: string)
  {
    |f| >= |CellOpen| && (Delimited(f, CellOpen, SelfClose) || Delimited(f, CellOpen, CellClose))
  }

  /** Every fragment starts with `<c ` and ends with "/>" or "</c>". */
  lemma {:induction false} FragmentsShaped(ds: string, from: nat, i: nat)
    requires i < |Fragments(ds, from)|
    ensures FragmentShaped(Fragments(ds, from)[i])
    decreases |ds| - from
  {
    var p := Find(ds, CellOpen, from).value;
    var e := FragmentEnd(ds, p).value;
    if i == 0 {
      FindFound(ds, CellOpen, from, p);
      FirstFragmentShaped(ds, p, e);
    } else {
      FragmentsShaped(ds, e, i - 1);
      assert Fragments(ds, from)[i] == Fragments(ds, e)[i - 1];
    }
  }

  /** The fragment cut out at an occurrence of `<c `, by the way its end
      was found. */
  lemma FirstFragmentShaped(ds: string, p: nat, e: nat)
    requires OccursAt(ds, CellOpen, p) && FragmentEnd(ds, p) == Some(e)
    ensures FragmentShaped(ds[p..e])
  {
    match Find(ds, SelfClose, p)
    case Some(x) =>
      FindFound(ds, SelfClose, p, x);
      SelfClosedShaped(ds, p, x);
    case None =>
      var y := Find(ds, CellClose, p).value;
      assert e == y + |CellClose|;
      FindFound(ds, CellClose, p, y);
      ClosedShaped(ds, p, y);
  }

  /** A "/>" at or after a `<c ` cannot start inside it. */
  lemma SelfClosedShaped(ds: string, p: nat, x: nat)
    requires OccursAt(ds, CellOpen, p) && p <= x && OccursAt(ds, SelfClose, x)
    ensures FragmentShaped(ds[p..x + |SelfClose|])
  {
    assert ds[p..p + 3] == CellOpen;
    assert ds[p] == '<' && ds[p + 1] == 'c';
    assert ds[x] == ds[x..x + 2][0] == '/';
    SpanDelimited(ds, CellOpen, SelfClose, p, x);
  }

  /** A fragment closed by "</c>" is at least as long as its `<c `. */
  lemma ClosedShaped(ds: string, p: nat, y: nat)
    requires OccursAt(ds, CellOpen, p) && p <= y && OccursAt(ds, CellClose, y)
    ensures FragmentShaped(ds[p..y + |CellClose|])
  {
    SpanDelimited(ds, CellOpen, CellClose, p, y);
  }

  /** A reference is in the map exactly when some fragment is keyed by it. */
  lemma FragmentMapKeys(ds: string, ref: string)
    ensures ref in FragmentMap(ds) <==>
              exists i :: 0 <= i < |Fragments(ds, 0)| && FragmentEntry(Fragments(ds, 0)[i]).Some? &&
                FragmentEntry(Fragments(ds, 0)[i]).value.0 == ref
  {
    KeepOverlayKeys(Fragments(ds, 0), FragmentEntry, ref);
  }

  /** A reference keeps the last fragment keyed by it. */
  lemma FragmentMapLastWins(ds: string, i: nat)
    requires i < |Fragments(ds, 0)| && FragmentEntry(Fragments(ds, 0)[i]).Some?
    requires var frags := Fragments(ds, 0);
             forall j :: i < j < |frags| && FragmentEntry(frags[j]).Some? ==>
               FragmentEntry(frags[j]).value.0 != FragmentEntry(frags[i]).value.0
    ensures var frags := Fragments(ds, 0);
            var ref := FragmentEntry(frags[i]).value.0;
            ref in FragmentMap(ds) && FragmentMap(ds)[ref] == frags[i]
  {
    KeepOverlayLast(Fragments(ds, 0), FragmentEntry, i);
  }

  /** A fragment is keyed exactly by a non-empty first `r="` value. */
  lemma FragmentEntrySpec(tag: string)
    ensures FragmentEntry(tag).Some? <==> Attr(tag, RefKey).Some? && Attr(tag, RefKey).value != ""
    ensures FragmentEntry(tag).Some? ==> FragmentEntry(tag).value == (Attr(tag, RefKey).value, tag)
  {
  }

  // ---------------------------------------------------------------------
  // The fragment written for a data cell

  function TypeAttr(cellType: string): string
  {
    if cellType != "" then " t=\"" + cellType + "\"" else ""
  }

  function ValueElement(value: string): string
  {
    if value != "" then "<v>" + value + "</v>" else ""
  }

  const RefKey: string := "r=\""
  const CellEnd: string := "</c>\n"

  /** What follows the reference's closing quote. */
  function CellRest(cellType: string, value: string): string
  {
    TypeAttr(cellType) + ">" + ValueElement(value) + CellEnd
  }

  /** `<c r="REF"`, ` t="T"` when the type is not empty, `>`, `<v>V</v>`
      when the value is not empty, `</c>` and a newline. */
  function CellXml(ref: string, cellType: string, value: string): string
  {
    CellOpen + RefKey + ref + "\"" + CellRest(cellType, value)
  }

  /** The reference of a written fragment reads back, so a fragment written
      for a quote-free, non-empty reference is keyed by that reference. */
  lemma CellXmlKeyedByRef(ref: string, cellType: string, value: string)
    requires '"' !in ref && ref != ""
    ensures Attr(CellXml(ref, cellType, value), RefKey) == Some(ref)
    ensures FragmentEntry(CellXml(ref, cellType, value)) == Some((ref, CellXml(ref, cellType, value)))
  {
    var x := CellXml(ref, cellType, value);
    forall j | 0 <= j < |CellOpen|
      ensures !OccursAt(x, RefKey, j)
    {
      assert x[j] == CellOpen[j] != 'r';
      assert RefKey[0] == 'r';
      if j + |RefKey| <= |x| {
        assert x[j] == x[j..j + |RefKey|][0];
      }
    }
    AttrReadsWritten(CellOpen, RefKey, ref, CellRest(cellType, value));
  }

  /** A written fragment starts like every fragment the scan cuts out,
      with `<c `, and ends with "</c>" and a newline. */
  lemma CellXmlShape(ref: string, cellType: string, value: string)
    ensures var x := CellXml(ref, cellType, value);
            |x| >= |CellOpen| + |CellEnd| && x[..|CellOpen|] == CellOpen && x[|x| - |CellEnd|..] == CellEnd
  {
    var x := CellXml(ref, cellType, value);
    var head := CellOpen + RefKey + ref + "\"" + TypeAttr(cellType) + ">" + ValueElement(value);
    assert x == head + CellEnd;
    assert x[|x| - |CellEnd|..] == CellEnd;
    assert head[..|CellOpen|] == CellOpen;
  }

  // ---------------------------------------------------------------------
  // Merge, order and splice

  /** What a data cell contributes: its type and its resolved value. */
  type DataCells = map<string, (string, string)>

  /** cellXmlMap after every data cell's fragment is written over it;
      references without a data cell (picture cells among them) keep the
      fragment read from the part. */
  function Merge(existing: map<string, string>, data: DataCells): (r: map<string, string>)
  {
    map k | k in existing.Keys + data.Keys :: if k in data then CellXml(k, data[k].0, data[k].1) else existing[k]
  }

  /** The map after the merge: a data cell's own fragment wins, every other
      reference keeps what the part held, and nothing else is added. */
  lemma MergeSpec(existing: map<string, string>, data: DataCells, k: string)
    ensures k in Merge(existing, data) <==> k in existing || k in data
    ensures k in data ==> Merge(existing, data)[k] == CellXml(k, data[k].0, data[k].1)
    ensures k in existing && k !in data ==> Merge(existing, data)[k] == existing[k]
  {
  }

  /** The data cells whose references are in `refs`. */
  function Restrict(data: DataCells, refs: set<string>): DataCells
  {
    map k | k in data && k in refs :: data[k]
  }

  /** The merge loop of save: each data cell's fragment is written over
      cellXmlMap in turn. The references are distinct, so the order of the
      visits does not matter. */
  method MergeCells(existing: map<string, string>, data: DataCells) returns (cellXmlMap: map<string, string>)
    ensures cellXmlMap == Merge(existing, data)
  {
    cellXmlMap := existing;
    var todo := data.Keys;
    ghost var done: set<string> := {};
    MergeNone(existing, data);
    while todo != {}
      invariant todo + done == data.Keys
      invariant todo !! done
      invariant cellXmlMap == Merge(existing, Restrict(data, done))
      decreases |todo|
    {
      var k :| k in todo;
      var xml := CellXml(k, data[k].0, data[k].1);
      MergeOneMore(existing, data, done, k);
      cellXmlMap := cellXmlMap[k := xml];
      todo := todo - {k};
      done := done + {k};
    }
    MergeAll(existing, data, done);
  }

  /** After the loop, every data cell has been written. */
  lemma MergeAll(existing: map<string, string>, data: DataCells, done: set<string>)
    requires data.Keys <= done
    ensures Merge(existing, Restrict(data, done)) == Merge(existing, data)
  {
    assert Restrict(data, done) == data;
  }

  /** Before the loop, no data cell has been written. */
  lemma MergeNone(existing: map<string, string>, data: DataCells)
    ensures Merge(existing, Restrict(data, {})) == existing
  {
    var m := Merge(existing, Restrict(data, {}));
    assert m.Keys == existing.Keys;
  }

  /** One more visited data cell is one more fragment written over the map. */
  lemma MergeOneMore(existing: map<string, string>, data: DataCells, done: set<string>, k: string)
    requires k in data
    ensures Merge(existing, Restrict(data, done))[k := CellXml(k, data[k].0, data[k].1)]
            == Merge(existing, Restrict(data, done + {k}))
  {
    var a := Merge(existing, Restrict(data, done))[k := CellXml(k, data[k].0, data[k].1)];
    var b := Merge(existing, Restrict(data, done + {k}));
    assert a.Keys == b.Keys;
    forall j | j in a
      ensures a[j] == b[j]
    {
    }
  }

  /** The fragments of `m` for the keys `ks`, concatenated in that order. */
  function Concat(m: map<string, string>, ks: seq<string>): string
    requires forall i :: 0 <= i < |ks| ==> ks[i] in m
    decreases |ks|
  {
    if ks == [] then "" else Concat(m, ks[..|ks| - 1]) + m[ks[|ks| - 1]]
  }

  /** The fragments of `m` concatenated in ascending key order, as
      iterating a std::map visits them. */
  ghost function InOrder(m: map<string, string>): string
  {
    SortedMembers(m.Keys);
    Concat(m, Sorted(m.Keys))
  }

  /** The emit loop of save. */
  method EmitAscending(m: map<string, string>) returns (body: string)
    ensures body == InOrder(m)
  {
    var ks := SortKeys(m.Keys);
    SortedMembers(m.Keys);
    body := "";
    var i := 0;
    while i < |ks|
      invariant 0 <= i <= |ks|
      invariant body == Concat(m, ks[..i])
    {
      assert ks[..i + 1][..i] == ks[..i];
      body := body + m[ks[i]];
      i := i + 1;
    }
    assert ks[..|ks|] == ks;
  }

  datatype SaveError =
    | RelsNotOpened     // workbook.xml.rels cannot be opened
    | TargetNotFound    // no relationship gives the sheet's part
    | SheetNotOpened    // the sheet's part cannot be opened
    | NoSheetData       // no "<sheetData>"
    | NoSheetDataEnd    // no "</sheetData>" after it
    | SpliceOutOfRange  // substr(dataEnd + 13) past the end throws std::out_of_range
    | WriteFailed       // the part cannot be opened for writing

  /** Where the sheetData section is: the first "<sheetData>", and the
      first "</sheetData>" after it. */
  datatype Section = Section(dataPos: nat, dataEnd: nat)

  const DataOpen: string := "<sheetData>"
  const DataClose: string := "</sheetData>"

  function Locate(content: string): (r: Result<Section, SaveError>)
    ensures r.Ok? ==> r.value.dataPos <= r.value.dataEnd && r.value.dataEnd + 13 <= |content|
  {
    match Find(content, DataOpen, 0)
    case None => Err(NoSheetData)
    case Some(dataPos) =>
      match Find(content, DataClose, dataPos)
      case None => Err(NoSheetDataEnd)
      case Some(dataEnd) =>
        // |DataClose| is 12: the section runs one character past it
        if dataEnd + 13 > |content| then Err(SpliceOutOfRange)
        else Ok(Section(dataPos, dataEnd))
  }

  /** The fragments of the new section: the existing ones read from
      `section`, each data cell's written over its entry, concatenated in
      ascending reference order. */
  ghost function RebuiltBody(section: string, data: DataCells): string
  {
    InOrder(Merge(FragmentMap(section), data))
  }


  /** The rebuilt section: "<sheetData>", a newline, the fragments and
      "</sheetData>". */
  function NewSection(body: string): string
  {
    DataOpen + "\n" + body + DataClose
  }

  /** The part's text with its section replaced: everything before
      "<sheetData>", the new section, and the text from 13 characters after
      the start of "</sheetData>" on. */
  function Splice(content: string, sec: Section, body: string): string
    requires sec.dataPos <= sec.dataEnd && sec.dataEnd + 13 <= |content|
  {
    content[..sec.dataPos] + NewSection(body) + content[sec.dataEnd + 13..]
  }

  /** The new text of the sheet's part: the section rebuilt from the
      emitted fragments in ascending reference order. */
  ghost function SavedText(content: string, data: DataCells): Result<string, SaveError>
  {
    match Locate(content)
    case Err(e) => Err(e)
    case Ok(sec) =>
      Ok(Splice(content, sec, RebuiltBody(content[sec.dataPos..sec.dataEnd + 13], data)))
  }

  /** The scan, merge and emit loops of save over one section. */
  method RebuildSection(section: string, data: DataCells) returns (body: string)
    ensures body == RebuiltBody(section, data)
  {
    var existing := ScanFragments(section, FragmentEntry);
    FragmentsFromStart(section);
    var cellXmlMap := MergeCells(existing, data);
    body := EmitAscending(cellXmlMap);
  }

  /** SavedText of a located section, given the rebuilt body. */
  lemma SavedTextOfSection(content: string, sec: Section, data: DataCells, body: string)
    requires Locate(content) == Ok(sec)
    requires body == RebuiltBody(content[sec.dataPos..sec.dataEnd + 13], data)
    ensures SavedText(content, data) == Ok(Splice(content, sec, body))
  {
  }

  /** save fails as the section lookup does. */
  lemma SavedTextFails(content: string, data: DataCells)
    requires Locate(content).Err?
    ensures SavedText(content, data) == Err(Locate(content).error)
  {
  }

  /** The text part of save, as the loops compute it. */
  method SaveSheetText(sheetContent: string, data: DataCells) returns (r: Result<string, SaveError>)
    ensures r == SavedText(sheetContent, data)
  {
    var dataPos := Find(sheetContent, DataOpen, 0);
    if dataPos.None? {
      SavedTextFails(sheetContent, data);
      return Err(NoSheetData);
    }
    var dataEnd := Find(sheetContent, DataClose, dataPos.value);
    if dataEnd.None? {
      SavedTextFails(sheetContent, data);
      return Err(NoSheetDataEnd);
    }
    if dataEnd.value + 13 > |sheetContent| {
      SavedTextFails(sheetContent, data);
      return Err(SpliceOutOfRange);
    }
    assert Locate(sheetContent) == Ok(Section(dataPos.value, dataEnd.value));
    var newSheetContent := ReplaceSection(sheetContent, Section(dataPos.value, dataEnd.value), data);
    r := Ok(newSheetContent);
  }

  /** The rest of save once the section is located: rebuild it and put it
      in place of the old one. */
  method ReplaceSection(sheetContent: string, sec: Section, data: DataCells) returns (newSheetContent: string)
    requires Locate(sheetContent) == Ok(sec)
    ensures SavedText(sheetContent, data) == Ok(newSheetContent)
  {
    var body := RebuildSection(sheetContent[sec.dataPos..sec.dataEnd + 13], data);
    var newSheetData := NewSection(body);
    newSheetContent := sheetContent[..sec.dataPos] + newSheetData + sheetContent[sec.dataEnd + 13..];
    assert newSheetContent == Splice(sheetContent, sec, body);
    SavedTextOfSection(sheetContent, sec, data, body);
  }

  // ---------------------------------------------------------------------
  // What the saved text keeps and loses

  /** The text before the section and the text after the character that
      follows "</sheetData>" are kept; that one character is not. */
  lemma SpliceKeepsOutside(content: string, sec: Section, body: string)
    requires sec.dataPos <= sec.dataEnd && sec.dataEnd + 13 <= |content|
    ensures var r := Splice(content, sec, body);
            var n := |content| - sec.dataEnd - 13;
            |r| == sec.dataPos + 12 + |body| + 12 + n &&
            r[..sec.dataPos] == content[..sec.dataPos] &&
            r[|r| - n..] == content[sec.dataEnd + 13..]
  {
  }

  /** save fails exactly when the part has no "<sheetData>", no
      "</sheetData>" after it, or ends right at that "</sheetData>". */
  lemma LocateFails(content: string)
    ensures Locate(content) == Err(NoSheetData) <==> !Contains(content, DataOpen)
    ensures Locate(content) == Err(NoSheetDataEnd) <==>
              Contains(content, DataOpen) && Find(content, DataClose, Find(content, DataOpen, 0).value).None?
    ensures Locate(content) == Err(SpliceOutOfRange) <==>
              Contains(content, DataOpen) && Find(content, DataClose, Find(content, DataOpen, 0).value).Some? &&
              Find(content, DataClose, Find(content, DataOpen, 0).value).value + 12 == |content|
  {
    match Find(content, DataOpen, 0)
    case None =>
    case Some(p) =>
      match Find(content, DataClose, p)
      case None =>
      case Some(e) =>
        FindFound(content, DataClose, p, e);
  }

  /** The character right after "</sheetData>" is lost: an empty section
      followed by `tail` comes back followed by all of `tail` but its first
      character (so `<x/>` becomes `x/>`). */
  lemma DropsCharacterAfterSection(tail: string)
    requires tail != []
    ensures SavedText(DataOpen + DataClose + tail, map[]) == Ok(DataOpen + "\n" + DataClose + tail[1..])
  {
    var content := DataOpen + DataClose + tail;
    var sec := Section(0, 11);
    LocateEmptySection(tail);
    var section := content[0..24];
    assert section[..23] == DataOpen + DataClose;
    NoCellInEmptySection(section);
    EmptySectionBody(section);
    SavedTextOfSection(content, sec, map[], "");
    assert content[24..] == tail[1..];
    assert Splice(content, sec, "") == DataOpen + "\n" + DataClose + tail[1..];
  }

  /** A section without `<c ` contributes no fragment. */
  lemma EmptySectionBody(section: string)
    requires Find(section, CellOpen, 0).None?
    ensures RebuiltBody(section, map[]) == ""
  {
    assert Fragments(section, 0) == [];
    var frags := Merge(FragmentMap(section), map[]);
    assert frags.Keys == {};
    assert Sorted(frags.Keys) == [];
  }

  /** An empty section at the very start is located. */
  lemma LocateEmptySection(tail: string)
    requires tail != []
    ensures Locate(DataOpen + DataClose + tail) == Ok(Section(0, 11))
  {
    var content := DataOpen + DataClose + tail;
    assert content[..11] == DataOpen && content[11..23] == DataClose;
    FindIs(content, DataOpen, 0, 0);
    assert '/' !in DataOpen;
    forall j | 0 <= j < 11
      ensures !OccursAt(content, DataClose, j)
    {
      assert content[j + 1] == content[j..j + 12][1];
      if j < 10 {
        assert content[j + 1] == DataOpen[j + 1];
      } else {
        assert content[11] == DataClose[0];
      }
    }
    FindIs(content, DataClose, 0, 11);
  }

  lemma NoCellInEmptySection(section: string)
    requires |section| == 24 && section[..23] == DataOpen + DataClose
    ensures Find(section, CellOpen, 0).None?
  {
    assert 'c' !in DataOpen + DataClose;
    forall j: nat ensures !OccursAt(section, CellOpen, j) {
      if j + 3 <= 24 {
        assert section[j + 1] == section[..23][j + 1];
        assert section[j + 1] == section[j..j + 3][1];
      }
    }
    FindSpec(section, CellOpen, 0);
  }
}
