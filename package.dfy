/** The document, its workbook and its sheets: XLDocument extracts the
    archive into a scratch directory and owns the workbook; XLWorkbook reads
    the sheet catalogue of xl/workbook.xml and loads each sheet; XLSheet
    holds the cell table of one sheet, loaded from its part and written back
    by save. The three refer to each other, so they share this module. */
module Package {
  import opened Wrappers
  import opened Text
  import opened Overlays
  import opened TagScan
  import opened XmlModel
  import opened Drawings
  import opened SheetSave
  import opened Cells
  import opened Catalogue
  import Paths
  import PictureReaders

  // ---------------------------------------------------------------------
  // The cell table as values

  /** What a cell of the table holds, as a value: a data cell's stored value
      and type, or a picture cell. */
  datatype CellView = DataView(value: string, cellType: string) | PicView(picture: Picture)

  function ViewOf(c: Cell): (v: CellView)
    reads if c.Data? then {c.data} else {}
    ensures c.Data? ==> v == DataView(c.data.value, c.data.cellType)
    ensures c.Pic? ==> v == PicView(c.picture)
  {
    match c
    case Data(d) => DataView(d.value, d.cellType)
    case Pic(p) => PicView(p)
  }

  /** XLCell::getValue of a cell, read against the sheet's shared strings. */
  function ValueOfView(v: CellView, sharedStrings: seq<string>): (r: string)
    ensures v.PicView? ==> r == v.picture.imageFileName
    ensures v.DataView? ==> r == Resolve(v.cellType, v.value, sharedStrings)
  {
    match v
    case DataView(value, cellType) => Resolve(cellType, value, sharedStrings)
    case PicView(p) => p.imageFileName
  }

  // ---------------------------------------------------------------------
  // Shared strings

  /** The texts of a rich `<si>`'s runs, concatenated. */
  function JoinRuns(runs: seq<string>): (r: string)
    ensures |r| >= (if runs == [] then 0 else |runs[|runs| - 1]|)
    decreases |runs|
  {
    if runs == [] then "" else JoinRuns(runs[..|runs| - 1]) + runs[|runs| - 1]
  }

  /** An `<si>` contributes the text of its direct `<t>`, or else the
      concatenation of its runs when that is not empty; an empty rich item
      contributes nothing. */
  function SharedEntry(si: SharedItem): (r: Option<string>)
    ensures si.direct.Some? ==> r == si.direct
    ensures si.direct.None? ==> (r.Some? <==> JoinRuns(si.runs) != "")
    ensures si.direct.None? && r.Some? ==> r.value == JoinRuns(si.runs)
  {
    if si.direct.Some? then si.direct
    else
      var acc := JoinRuns(si.runs);
      if acc != "" then Some(acc) else None
  }

  function SharedTable(items: seq<SharedItem>): seq<string>
  {
    Keep(items, SharedEntry)
  }

  /** temp / "xl" / name. */
  function XlPart(temp: string, name: string): string
  {
    Paths.Join(Paths.Join(temp, "xl"), name)
  }

  /** The table load reads: empty when sharedStrings.xml is missing or does
      not parse. */
  function SharedStringsOf(files: Files, parser: XmlParser, temp: string): seq<string>
  {
    match ReadFile(files, XlPart(temp, "sharedStrings.xml"))
    case None => []
    case Some(text) =>
      match parser.sharedStrings(text)
      case None => []
      case Some(items) => SharedTable(items)
  }

  /** An item with a direct text is the next entry of the table. */
  lemma DirectTextIsNextEntry(items: seq<SharedItem>, t: string, runs: seq<string>)
    ensures SharedTable(items + [SharedItem(Some(t), runs)]) == SharedTable(items) + [t]
  {
    KeepSnoc(items, SharedItem(Some(t), runs), SharedEntry);
  }

  /** A rich item whose runs are all empty takes no index: every entry after
      it is read one index earlier than its position among the items. */
  lemma EmptyRichItemTakesNoIndex(items: seq<SharedItem>, runs: seq<string>, more: seq<SharedItem>)
    requires forall i :: 0 <= i < |runs| ==> runs[i] == ""
    ensures SharedTable(items + [SharedItem(None, runs)] + more) == SharedTable(items + more)
  {
    EmptyRuns(runs);
    KeepSkips(items, SharedItem(None, runs), more, SharedEntry);
  }

  lemma {:induction false} EmptyRuns(runs: seq<string>)
    requires forall i :: 0 <= i < |runs| ==> runs[i] == ""
    ensures JoinRuns(runs) == ""
    decreases |runs|
  {
    if runs != [] {
      EmptyRuns(runs[..|runs| - 1]);
    }
  }

  /** The accumulation over a rich item's runs. */
  method ConcatRuns(runs: seq<string>) returns (acc: string)
    ensures acc == JoinRuns(runs)
  {
    acc := "";
    for i := 0 to |runs|
      invariant acc == JoinRuns(runs[..i])
    {
      assert runs[..i + 1][..i] == runs[..i];
      acc := acc + runs[i];
    }
    assert runs[..|runs|] == runs;
  }

  // ---------------------------------------------------------------------
  // Finding the sheet's part

  /** A `<Relationship>` of workbook.xml.rels names the sheet's part when
      its Id is `rId` and it has a Target. */
  function RelTarget(rel: XmlRel, rId: string): Option<string>
  {
    if rel.id == Some(rId) && rel.target.Some? then rel.target else None
  }

  function RelTargetReader(rId: string): XmlRel -> Option<string>
  {
    rel => RelTarget(rel, rId)
  }

  /** The first such Target; "" when there is none. */
  function PartTarget(rels: seq<XmlRel>, rId: string): (r: string)
  {
    match FirstOf(rels, RelTargetReader(rId))
    case None => ""
    case Some(t) => t
  }

  /** The target is that of the first relationship naming `rId` with a
      Target, and "" exactly when none does or that Target is empty. */
  lemma PartTargetSpec(rels: seq<XmlRel>, rId: string)
    ensures PartTarget(rels, rId) == "" <==>
              (forall i :: 0 <= i < |rels| ==> RelTarget(rels[i], rId).None?) ||
              FirstOf(rels, RelTargetReader(rId)) == Some("")
    ensures PartTarget(rels, rId) != "" ==>
              exists i :: 0 <= i < |rels| && rels[i].id == Some(rId) && rels[i].target == Some(PartTarget(rels, rId)) &&
                forall j :: 0 <= j < i ==> RelTarget(rels[j], rId).None?
  {
    FirstOfSpec(rels, RelTargetReader(rId));
  }

  /** The loop over `<Relationship>` elements that breaks at the first one
      naming `rId` with a Target. */
  method FindPartTarget(rels: seq<XmlRel>, rId: string) returns (target: string)
    ensures target == PartTarget(rels, rId)
  {
    target := "";
    var i := 0;
    while i < |rels|
      invariant 0 <= i <= |rels|
      invariant FirstOf(rels, RelTargetReader(rId)) == FirstOf(rels[i..], RelTargetReader(rId))
    {
      assert rels[i..][1..] == rels[i + 1..];
      if rels[i].id == Some(rId) && rels[i].target.Some? {
        target := rels[i].target.value;
        return;
      }
      i := i + 1;
    }
  }

  /** The drawing's Target in the sheet's relationships: that of the first
      relationship whose Id reads as `drawingRId`, "" for a missing
      Target; "" when there is none. */
  function DrawingTargetOf(rel: XmlRel, drawingRId: string): Option<string>
  {
    if rel.IdText() == drawingRId then Some(rel.TargetText()) else None
  }

  function DrawingTargetReader(drawingRId: string): XmlRel -> Option<string>
  {
    rel => DrawingTargetOf(rel, drawingRId)
  }

  function DrawingTarget(rels: seq<XmlRel>, drawingRId: string): (r: string)
  {
    match FirstOf(rels, DrawingTargetReader(drawingRId))
    case None => ""
    case Some(t) => t
  }

  /** The search stops at the first matching Id even when that element has
      no Target, so a later element with the same Id is never read. */
  lemma DrawingTargetStopsAtFirstId(rels: seq<XmlRel>, drawingRId: string, i: nat)
    requires i < |rels| && rels[i].IdText() == drawingRId
    requires forall j :: 0 <= j < i ==> rels[j].IdText() != drawingRId
    ensures DrawingTarget(rels, drawingRId) == rels[i].TargetText()
  {
    FirstOfSpec(rels, DrawingTargetReader(drawingRId));
    var k :| 0 <= k < |rels| && DrawingTargetOf(rels[k], drawingRId) == FirstOf(rels, DrawingTargetReader(drawingRId)) &&
             forall j :: 0 <= j < k ==> DrawingTargetOf(rels[j], drawingRId).None?;
    assert !(k < i) && !(i < k);
  }

  method FindDrawingTarget(rels: seq<XmlRel>, drawingRId: string) returns (target: string)
    ensures target == DrawingTarget(rels, drawingRId)
  {
    target := "";
    var i := 0;
    while i < |rels|
      invariant 0 <= i <= |rels|
      invariant FirstOf(rels, DrawingTargetReader(drawingRId)) == FirstOf(rels[i..], DrawingTargetReader(drawingRId))
    {
      assert rels[i..][1..] == rels[i + 1..];
      if rels[i].IdText() == drawingRId {
        target := rels[i].TargetText();
        return;
      }
      i := i + 1;
    }
  }

  // ---------------------------------------------------------------------
  // The cells of sheetData

  function Flatten(rows: seq<seq<XmlCell>>): seq<XmlCell>
    decreases |rows|
  {
    if rows == [] then [] else Flatten(rows[..|rows| - 1]) + rows[|rows| - 1]
  }

  /** A `<c>`'s value: its `<v>` text, else its inline `<is><t>` text, else
      "". */
  function CellValue(c: XmlCell): (r: string)
    ensures c.v.Some? ==> r == c.v.value
    ensures c.v.None? && c.inlineText.Some? && c.inlineText.value.Some? ==> r == c.inlineText.value.value
    ensures c.v.None? && !(c.inlineText.Some? && c.inlineText.value.Some?) ==> r == ""
  {
    if c.v.Some? then c.v.value
    else if c.inlineText.Some? && c.inlineText.value.Some? then c.inlineText.value.value
    else ""
  }

  /** A `<c>` with a reference becomes a data cell whose type is its t
      attribute, "n" when that is empty; one without is skipped. */
  function CellEntry(c: XmlCell): (r: Option<(string, CellView)>)
    ensures r.None? <==> c.r == ""
    ensures r.Some? ==> r.value == (c.r, DataView(CellValue(c), if c.t == "" then "n" else c.t))
  {
    if c.r == "" then None else Some((c.r, DataView(CellValue(c), if c.t == "" then "n" else c.t)))
  }

  /** The table after the cells of `rows` are assigned in document order. */
  function RowsView(view: map<string, CellView>, rows: seq<seq<XmlCell>>): map<string, CellView>
  {
    Overlay(view, Keep(Flatten(rows), CellEntry))
  }

  /** A picture cell at the anchor's reference. */
  function PictureEntry(p: PictureInfo): (r: Option<(string, CellView)>)
    ensures r.Some? && r.value.0 == p.ref
  {
    Some((p.ref, PicView(Picture(p.ref, p.fileName, p.relativePath))))
  }

  /** The table after every picture of the drawing is put at its reference. */
  function PicturesView(view: map<string, CellView>, pictures: seq<PictureInfo>): map<string, CellView>
  {
    Overlay(view, Keep(pictures, PictureEntry))
  }

  lemma {:induction false} FlattenStep(rows: seq<seq<XmlCell>>, i: nat)
    requires i < |rows|
    ensures Flatten(rows[..i + 1]) == Flatten(rows[..i]) + rows[i]
  {
    assert rows[..i + 1][..i] == rows[..i];
  }

  // ---------------------------------------------------------------------
  // What load makes of a sheet

  datatype LoadFailure =
    | NoWorkbookRels    // workbook.xml.rels is missing or does not parse
    | NoTarget          // no relationship gives the sheet's part
    | NoSheetPart       // the sheet's part is missing or does not parse
    | NoCellTable       // the worksheet has no sheetData

  /** load returns true or false, or the exception of a coordinate that
      std::stoi rejects escapes it. */
  datatype SheetLoad = SheetLoaded | SheetFailed(failure: LoadFailure) | SheetThrew

  function WorkbookRelsPath(temp: string): string
  {
    Paths.Join(XlPart(temp, "_rels"), "workbook.xml.rels")
  }

  /** The sheet's part, found through `rId`: its target, the rows of its
      sheetData and its drawing element. */
  function SheetSource(files: Files, parser: XmlParser, temp: string, rId: string)
    : (r: Result<(string, seq<seq<XmlCell>>, Option<Option<string>>), LoadFailure>)
    ensures r.Ok? ==> r.value.0 != ""
  {
    match ParseRels(files, parser, WorkbookRelsPath(temp))
    case None => Err(NoWorkbookRels)
    case Some(rels) =>
      var target := PartTarget(rels, rId);
      if target == "" then Err(NoTarget)
      else
        match ReadFile(files, XlPart(temp, target))
        case None => Err(NoSheetPart)
        case Some(text) =>
          match parser.worksheet(text)
          case None => Err(NoSheetPart)
          case Some(ws) =>
            match ws.sheetData
            case None => Err(NoCellTable)
            case Some(rows) => Ok((target, rows, ws.drawing))
  }

  /** The directory of the worksheet parts. */
  function WorksheetsDir(temp: string): string
  {
    XlPart(temp, "worksheets")
  }

  /** The relationships part of a part: parent / "_rels" / (name + ".rels"). */
  function RelsOf(path: string): string
  {
    Paths.Join(Paths.Join(Paths.ParentPath(path), "_rels"), Paths.FileName(path) + ".rels")
  }

  /** The drawing part of a sheet and its relationships part: only for a
      drawing element with an r:id, whose id the sheet's relationships map
      to a non-empty Target. */
  function DrawingParts(files: Files, parser: XmlParser, temp: string, target: string, drawing: Option<Option<string>>)
    : (r: Option<(string, string)>)
    ensures r.Some? ==> r.value.1 == RelsOf(r.value.0)
  {
    if drawing.None? || drawing.value.None? then None
    else
      var sheetRels := Paths.Join(Paths.Join(WorksheetsDir(temp), "_rels"), Paths.FileName(target) + ".rels");
      match ParseRels(files, parser, sheetRels)
      case None => None
      case Some(rels) =>
        var drawingTarget := DrawingTarget(rels, drawing.value.value);
        if drawingTarget == "" then None
        else
          var drawingPath := Paths.Normal(Paths.Join(WorksheetsDir(temp), drawingTarget));
          Some((drawingPath, RelsOf(drawingPath)))
  }

  /** The outcome of load and the cell table after it, from the table
      before: the shared strings aside, a failed load changes nothing; a
      loaded part assigns its cells; a drawing that opens then puts its
      pictures over them, unless reading an anchor throws first. */
  function LoadResult(view: map<string, CellView>, files: Files, parser: XmlParser, temp: string, rId: string)
    : (r: (SheetLoad, map<string, CellView>))
    ensures r.0.SheetFailed? ==> r.1 == view
  {
    match SheetSource(files, parser, temp, rId)
    case Err(e) => (SheetFailed(e), view)
    case Ok((target, rows, drawing)) =>
      WithDrawing(RowsView(view, rows), files, DrawingParts(files, parser, temp, target, drawing))
  }

  /** The drawing step of load, once the cells are in the table. */
  function WithDrawing(cells: map<string, CellView>, files: Files, parts: Option<(string, string)>)
    : (r: (SheetLoad, map<string, CellView>))
    ensures r.0 != SheetThrew ==> r.0 == SheetLoaded
  {
    match parts
    case None => (SheetLoaded, cells)
    case Some((drawingPath, drawingRels)) =>
      match ReadFile(files, drawingPath)
      case None => (SheetLoaded, cells)
      case Some(text) =>
        var scan := ScanAnchors(Tags(text, AnchorOpen, AnchorClose, 0), Reader(ImageMap(files, drawingRels)));
        if scan.threw then (SheetThrew, cells) else (SheetLoaded, PicturesView(cells, scan.pictures))
  }

  /** The steps of load up to the parsed sheetData, as the code takes them. */
  method FindSheetSource(files: Files, parser: XmlParser, temp: string, rId: string)
    returns (r: Result<(string, seq<seq<XmlCell>>, Option<Option<string>>), LoadFailure>)
    ensures r == SheetSource(files, parser, temp, rId)
  {
    var rels := ParseRels(files, parser, WorkbookRelsPath(temp));
    if rels.None? {
      return Err(NoWorkbookRels);
    }
    var target := FindPartTarget(rels.value, rId);
    if target == "" {
      return Err(NoTarget);
    }
    var text := ReadFile(files, XlPart(temp, target));
    if text.None? {
      return Err(NoSheetPart);
    }
    var ws := parser.worksheet(text.value);
    if ws.None? {
      return Err(NoSheetPart);
    }
    if ws.value.sheetData.None? {
      return Err(NoCellTable);
    }
    return Ok((target, ws.value.sheetData.value, ws.value.drawing));
  }

  /** The steps of load from the drawing element to the drawing's parts. */
  method FindDrawingParts(files: Files, parser: XmlParser, temp: string, target: string, drawing: Option<Option<string>>)
    returns (r: Option<(string, string)>)
    ensures r == DrawingParts(files, parser, temp, target, drawing)
  {
    if drawing.None? || drawing.value.None? {
      return None;
    }
    var sheetRelsPath := Paths.Join(Paths.Join(WorksheetsDir(temp), "_rels"), Paths.FileName(target) + ".rels");
    var rels := ParseRels(files, parser, sheetRelsPath);
    if rels.None? {
      return None;
    }
    var drawingTarget := FindDrawingTarget(rels.value, drawing.value.value);
    if drawingTarget == "" {
      return None;
    }
    var drawingPath := Paths.Normal(Paths.Join(WorksheetsDir(temp), drawingTarget));
    var drawingRelsPath := Paths.Join(Paths.Join(Paths.ParentPath(drawingPath), "_rels"), Paths.FileName(drawingPath) + ".rels");
    return Some((drawingPath, drawingRelsPath));
  }

  // ---------------------------------------------------------------------
  // What save makes of a sheet

  /** A data cell's contribution to save: its type and its value as
      getValue gives it, so a shared-string cell is written with its text. */
  function DataCellsOf(view: map<string, CellView>, sharedStrings: seq<string>): (data: DataCells)
    ensures forall r :: r in data <==> r in view && view[r].DataView?
  {
    map r | r in view && view[r].DataView? :: (view[r].cellType, ValueOfView(view[r], sharedStrings))
  }

  /** What save needs of a sheet: its relationship id and its data cells. */
  datatype SaveJob = SaveJob(rId: string, data: DataCells)

  /** The files after a sheet's save, None when it fails: the relationships
      part must open and name the sheet's part, the part must open and hold
      its sheetData section, and the part must be writable. */
  ghost function SheetSaved(files: Files, temp: string, job: SaveJob, writable: string -> bool): (r: Option<Files>)
  {
    match ReadFile(files, WorkbookRelsPath(temp))
    case None => None
    case Some(rels) =>
      var target := match SheetTarget(rels, job.rId) case None => "" case Some(t) => t;
      if target == "" then None
      else
        var sheetPath := XlPart(temp, target);
        match ReadFile(files, sheetPath)
        case None => None
        case Some(content) =>
          match SavedText(content, job.data)
          case Err(_) => None
          case Ok(text) => if writable(sheetPath) then Some(WriteFile(files, sheetPath, text)) else None
  }

  /** Steps taken in order over the files, stopping at the first that
      fails: whether all succeeded, and the files as the last success left
      them. */
  ghost function SaveInOrder<J>(files: Files, jobs: seq<J>, step: (Files, J) -> Option<Files>): (r: (bool, Files))
    decreases |jobs|
  {
    if jobs == [] then (true, files)
    else
      match step(files, jobs[0])
      case None => (false, files)
      case Some(after) => SaveInOrder(after, jobs[1..], step)
  }

  /** One sheet's save as a step. */
  ghost function Saver(temp: string, writable: string -> bool): (Files, SaveJob) -> Option<Files>
  {
    (files: Files, job: SaveJob) => SheetSaved(files, temp, job, writable)
  }

  /** Saving sheets in order, stopping at the first failure. */
  ghost function SaveAll(files: Files, temp: string, jobs: seq<SaveJob>, writable: string -> bool): (r: (bool, Files))
  {
    SaveInOrder(files, jobs, Saver(temp, writable))
  }

  /** The steps of save, as the code takes them. */
  method SaveStep(files: Files, temp: string, job: SaveJob, writable: string -> bool) returns (r: Option<Files>)
    ensures r == SheetSaved(files, temp, job, writable)
  {
    var relsFile := ReadFile(files, WorkbookRelsPath(temp));
    if relsFile.None? {
      return None;
    }
    var target := FindTarget(relsFile.value, job.rId);
    if target == "" {
      return None;
    }
    var sheetPath := XlPart(temp, target);
    var content := ReadFile(files, sheetPath);
    if content.None? {
      return None;
    }
    var text := SaveSheetText(content.value, job.data);
    if text.Err? {
      return None;
    }
    if !writable(sheetPath) {
      return None;
    }
    return Some(WriteFile(files, sheetPath, text.value));
  }

  /** Saving a sheet rewrites its existing part and creates no file. */
  lemma SheetSavedKeepsKeys(files: Files, temp: string, job: SaveJob, writable: string -> bool)
    requires SheetSaved(files, temp, job, writable).Some?
    ensures SheetSaved(files, temp, job, writable).value.Keys == files.Keys
  {
  }

  /** Steps that create no file, taken in order, create no file. */
  lemma {:induction false} SaveInOrderKeepsKeys<J>(files: Files, jobs: seq<J>, step: (Files, J) -> Option<Files>)
    requires forall f: Files, j: J :: step(f, j).Some? ==> step(f, j).value.Keys == f.Keys
    ensures SaveInOrder(files, jobs, step).1.Keys == files.Keys
    decreases |jobs|
  {
    if jobs != [] && step(files, jobs[0]).Some? {
      SaveInOrderKeepsKeys(step(files, jobs[0]).value, jobs[1..], step);
    }
  }

  /** However far it gets, saving the sheets creates no file. */
  lemma SaveAllKeepsKeys(files: Files, temp: string, jobs: seq<SaveJob>, writable: string -> bool)
    ensures SaveAll(files, temp, jobs, writable).1.Keys == files.Keys
  {
    forall f: Files, j: SaveJob | Saver(temp, writable)(f, j).Some?
      ensures Saver(temp, writable)(f, j).value.Keys == f.Keys
    {
      SheetSavedKeepsKeys(f, temp, j, writable);
    }
    SaveInOrderKeepsKeys(files, jobs, Saver(temp, writable));
  }

  // ---------------------------------------------------------------------
  // The workbook's load and save, as values

  /** load returns false when the document is not open or workbook.xml
      cannot be opened, true otherwise, unless a sheet's load throws. */
  datatype WorkbookLoad = WorkbookLoaded | NotOpen | NoCatalogue | WorkbookThrew

  function CataloguePath(temp: string): string
  {
    XlPart(temp, "workbook.xml")
  }

  /** How the sheet of a catalogue entry loads when it is new. */
  function SheetOutcome(files: Files, parser: XmlParser, temp: string): Entry -> SheetLoad
  {
    (e: Entry) => SheetLoadOf(files, parser, temp, e)
  }

  /** What loading the sheet of one catalogue entry gives. */
  function SheetLoadOf(files: Files, parser: XmlParser, temp: string, e: Entry): SheetLoad
  {
    LoadResult(map[], files, parser, temp, e.rId).0
  }

  /** `outcome` gives what loading each entry's sheet gives. */
  ghost predicate Realizes(outcome: Entry -> SheetLoad, files: Files, parser: XmlParser, temp: string)
  {
    forall e {:trigger SheetLoadOf(files, parser, temp, e)} :: outcome(e) == SheetLoadOf(files, parser, temp, e)
  }

  /** The index of the first entry whose load throws, |es| when none does. */
  function ThrowAt(es: seq<Entry>, outcome: Entry -> SheetLoad): (n: nat)
    ensures n <= |es|
    ensures n < |es| ==> outcome(es[n]) == SheetThrew
    ensures forall j :: 0 <= j < n ==> outcome(es[j]) != SheetThrew
  {
    if es == [] then 0
    else if outcome(es[0]) == SheetThrew then 0
    else 1 + ThrowAt(es[1..], outcome)
  }

  /** The first throw is at `i` when none comes before it and `i` throws
      or is the end. */
  lemma ThrowAtIs(es: seq<Entry>, outcome: Entry -> SheetLoad, i: nat)
    requires i <= |es|
    requires forall j :: 0 <= j < i ==> outcome(es[j]) != SheetThrew
    requires i < |es| ==> outcome(es[i]) == SheetThrew
    ensures ThrowAt(es, outcome) == i
  {
  }

  /** No throw among the first `i + 1` entries when none among the first `i`
      and entry `i` does not throw. */
  lemma NoThrowYet(es: seq<Entry>, outcome: Entry -> SheetLoad, i: nat)
    requires i < |es|
    requires forall j :: 0 <= j < i ==> outcome(es[j]) != SheetThrew
    requires outcome(es[i]) != SheetThrew
    ensures forall j :: 0 <= j < i + 1 ==> outcome(es[j]) != SheetThrew
  {
  }

  /** One round of the sheet-creation loop on the kept entries. */
  lemma KeptStep(es: seq<Entry>, i: nat, outcome: Entry -> SheetLoad, start: seq<Entry>, before: seq<Entry>, after: seq<Entry>)
    requires i < |es|
    requires before == start + Keep(es[..i], LoadedOnly(outcome))
    requires after == before + (if LoadedOnly(outcome)(es[i]).Some? then [LoadedOnly(outcome)(es[i]).value] else [])
    ensures after == start + Keep(es[..i + 1], LoadedOnly(outcome))
  {
    KeepPrefix(es, i, LoadedOnly(outcome));
  }

  /** What the sheet-creation loop has kept when it stops at `i`, by a throw
      or at the end. */
  lemma KeptStop(es: seq<Entry>, i: nat, outcome: Entry -> SheetLoad)
    requires i <= |es|
    requires forall j :: 0 <= j < i ==> outcome(es[j]) != SheetThrew
    requires i < |es| ==> outcome(es[i]) == SheetThrew
    ensures ThrowAt(es, outcome) == i
    ensures KeptSheets(es, outcome) == Keep(es[..i], LoadedOnly(outcome))
  {
    ThrowAtIs(es, outcome, i);
  }

  function LoadedOnly(outcome: Entry -> SheetLoad): Entry -> Option<Entry>
  {
    (e: Entry) => if outcome(e) == SheetLoaded then Some(e) else None
  }

  /** The sheets load keeps: those before the first throw that loaded, in
      catalogue order; a sheet that fails to load is dropped. */
  function KeptSheets(es: seq<Entry>, outcome: Entry -> SheetLoad): seq<Entry>
  {
    Keep(es[..ThrowAt(es, outcome)], LoadedOnly(outcome))
  }

  /** Every kept sheet is a catalogue entry, ahead of any throw, that
      loaded; and every such entry is kept. */
  lemma KeptSheetsLoaded(es: seq<Entry>, outcome: Entry -> SheetLoad, e: Entry)
    ensures e in KeptSheets(es, outcome) <==>
              exists i :: 0 <= i < ThrowAt(es, outcome) && es[i] == e && outcome(e) == SheetLoaded
  {
    var n := ThrowAt(es, outcome);
    KeepMember(es[..n], LoadedOnly(outcome), e);
    if exists i :: 0 <= i < n && es[i] == e && outcome(e) == SheetLoaded {
      var i :| 0 <= i < n && es[i] == e && outcome(e) == SheetLoaded;
      assert es[..n][i] == e;
    }
  }

  /** Without a throw the kept sheets are exactly the catalogue entries
      that load, in order. */
  lemma NoThrowKeepsLoaded(es: seq<Entry>, outcome: Entry -> SheetLoad)
    requires forall i :: 0 <= i < |es| ==> outcome(es[i]) != SheetThrew
    ensures KeptSheets(es, outcome) == Keep(es, LoadedOnly(outcome))
  {
    assert es[..ThrowAt(es, outcome)] == es;
  }

  /** The catalogue entry a sheet was made from. */
  function EntryOfSheet(s: Sheet): Entry
  {
    Entry(s.name, s.sheetId, s.rId)
  }

  function EntriesOf(ss: seq<Sheet>): (es: seq<Entry>)
    ensures |es| == |ss|
    ensures forall i :: 0 <= i < |ss| ==> es[i] == EntryOfSheet(ss[i])
  {
    if ss == [] then [] else EntriesOf(ss[..|ss| - 1]) + [EntryOfSheet(ss[|ss| - 1])]
  }

  /** The data cell objects of a list of sheets. */
  ghost function ObjectsOf(ss: seq<Sheet>): set<object>
    reads ss
  {
    set s, o | s in ss && o in s.Objects() :: o
  }

  /** What save writes for each sheet, in order. */
  ghost function JobsOf(ss: seq<Sheet>): (jobs: seq<SaveJob>)
    reads ss, ObjectsOf(ss)
    ensures |jobs| == |ss|
    ensures forall i :: 0 <= i < |ss| ==> jobs[i] == ss[i].Job()
  {
    if ss == [] then [] else JobsOf(ss[..|ss| - 1]) + [ss[|ss| - 1].Job()]
  }

  /** One more step: nothing after a failure, else that step. */
  lemma {:induction false} SaveInOrderSnoc<J>(files: Files, jobs: seq<J>, job: J, step: (Files, J) -> Option<Files>)
    ensures SaveInOrder(files, jobs + [job], step) ==
              if !SaveInOrder(files, jobs, step).0 then SaveInOrder(files, jobs, step)
              else match step(SaveInOrder(files, jobs, step).1, job)
                   case None => (false, SaveInOrder(files, jobs, step).1)
                   case Some(after) => (true, after)
    decreases |jobs|
  {
    if jobs == [] {
      assert [job][1..] == [];
    } else {
      assert (jobs + [job])[1..] == jobs[1..] + [job];
      match step(files, jobs[0])
      case None =>
      case Some(after) => SaveInOrderSnoc(after, jobs[1..], job, step);
    }
  }

  /** After a failure the remaining steps are not taken. */
  lemma {:induction false} SaveInOrderStops<J>(files: Files, jobs: seq<J>, more: seq<J>, step: (Files, J) -> Option<Files>)
    requires !SaveInOrder(files, jobs, step).0
    ensures SaveInOrder(files, jobs + more, step) == SaveInOrder(files, jobs, step)
    decreases |jobs|
  {
    assert (jobs + more)[1..] == jobs[1..] + more;
    match step(files, jobs[0])
    case None =>
    case Some(after) => SaveInOrderStops(after, jobs[1..], more, step);
  }

  /** One round of the save loop: a step that succeeds extends the saved
      prefix; one that fails ends the whole run with the files as they
      were before it. */
  lemma SavedStep<J>(start: Files, jobs: seq<J>, i: nat, step: (Files, J) -> Option<Files>, files: Files, saved: Option<Files>)
    requires i < |jobs|
    requires SaveInOrder(start, jobs[..i], step) == (true, files)
    requires saved == step(files, jobs[i])
    ensures saved.Some? ==> SaveInOrder(start, jobs[..i + 1], step) == (true, saved.value)
    ensures saved.None? ==> SaveInOrder(start, jobs, step) == (false, files)
  {
    SaveInOrderSnoc(start, jobs[..i], jobs[i], step);
    assert jobs[..i + 1] == jobs[..i] + [jobs[i]];
    if saved.None? {
      SaveInOrderStops(start, jobs[..i + 1], jobs[i + 1..], step);
      assert jobs[..i + 1] + jobs[i + 1..] == jobs;
    }
  }

  /** A step that touches neither a sheet's table, its data cells nor its
      shared strings leaves what save writes for it as it was. */
  twostate lemma JobKept(s: Sheet)
    requires unchanged(s`cells, s`sharedStrings) && unchanged(old(s.Objects()))
    ensures s.Job() == old(s.Job())
  {
  }

  // ---------------------------------------------------------------------
  // XLSheet

  class Sheet {
    const workbook: Workbook
    const name: string
    const sheetId: string
    const rId: string
    var cells: map<string, Cell>
    var sharedStrings: seq<string>

    constructor (workbook: Workbook, name: string, sheetId: string, rId: string)
      ensures this.workbook == workbook && this.name == name && this.sheetId == sheetId && this.rId == rId
      ensures cells == map[] && sharedStrings == []
    {
      this.workbook := workbook;
      this.name := name;
      this.sheetId := sheetId;
      this.rId := rId;
      cells := map[];
      sharedStrings := [];
    }

    /** The data cell objects of the table. */
    function Objects(): set<CellData>
      reads this`cells
    {
      set r | r in cells && cells[r].Data? :: cells[r].data
    }

    /** The table as values. */
    function View(): (v: map<string, CellView>)
      reads this`cells, Objects()
      ensures v.Keys == cells.Keys
    {
      map r | r in cells :: ViewOf(cells[r])
    }

    /** Every cell carries its own reference as key, and no two references
        share a data cell object. */
    predicate Valid()
      reads this`cells
    {
      (forall r :: r in cells && cells[r].Data? ==> cells[r].data.reference == r) &&
      (forall r :: r in cells && cells[r].Pic? ==> cells[r].picture.reference == r) &&
      (forall a, b :: a in cells && b in cells && a != b && cells[a].Data? && cells[b].Data? ==>
         cells[a].data != cells[b].data)
    }

    function GetName(): (r: string)
      ensures r == name
    {
      name
    }

    /** The table load reads from sharedStrings.xml, appended to the one
        held. */
    method LoadSharedStrings(files: Files, parser: XmlParser, temp: string)
      modifies this`sharedStrings
      ensures sharedStrings == old(sharedStrings) + SharedStringsOf(files, parser, temp)
    {
      var file := ReadFile(files, XlPart(temp, "sharedStrings.xml"));
      if file.None? {
        return;
      }
      var items := parser.sharedStrings(file.value);
      if items.None? {
        return;
      }
      AppendShared(items.value);
    }

    /** The loop over the `<si>` items. */
    method AppendShared(items: seq<SharedItem>)
      modifies this`sharedStrings
      ensures sharedStrings == old(sharedStrings) + SharedTable(items)
    {
      ghost var start := sharedStrings;
      var i := 0;
      while i < |items|
        invariant 0 <= i <= |items|
        invariant sharedStrings == start + SharedTable(items[..i])
      {
        var si := items[i];
        KeepSnoc(items[..i], si, SharedEntry);
        assert items[..i + 1] == items[..i] + [si];
        if si.direct.Some? {
          sharedStrings := sharedStrings + [si.direct.value];
        } else {
          var acc := ConcatRuns(si.runs);
          if acc != "" {
            sharedStrings := sharedStrings + [acc];
          }
        }
        i := i + 1;
      }
      assert items[..i] == items;
    }

    /** load: the shared strings, then the sheet's part and its cells,
        then the pictures of its drawing over them. */
    method Load(parser: XmlParser) returns (outcome: SheetLoad)
      requires Valid()
      modifies this
      ensures Valid()
      ensures sharedStrings == old(sharedStrings) + SharedStringsOf(workbook.document.files, parser, workbook.document.tempDir)
      ensures (outcome, View()) == LoadResult(old(View()), workbook.document.files, parser, workbook.document.tempDir, rId)
    {
      var files := workbook.document.files;
      var temp := workbook.document.tempDir;
      LoadSharedStrings(files, parser, temp);
      var source := FindSheetSource(files, parser, temp, rId);
      if source.Err? {
        ViewKept();
        return SheetFailed(source.error);
      }
      var (target, rows, drawingElement) := source.value;
      var parts := FindDrawingParts(files, parser, temp, target, drawingElement);
      ViewKept();
      assert LoadResult(old(View()), files, parser, temp, rId) == WithDrawing(RowsView(View(), rows), files, parts);
      outcome := LoadCells(files, rows, parts);
    }

    /** A step that touches neither the table nor its data cells leaves
        the table's view as it was. */
    twostate lemma ViewKept()
      requires unchanged(this`cells) && unchanged(old(Objects()))
      ensures View() == old(View())
    {
    }

    /** The cell steps of load: the cells of the sheet's part, then its
        drawing. */
    method LoadCells(files: Files, rows: seq<seq<XmlCell>>, parts: Option<(string, string)>) returns (outcome: SheetLoad)
      requires Valid()
      modifies this`cells
      ensures Valid()
      ensures (outcome, View()) == WithDrawing(RowsView(old(View()), rows), files, parts)
    {
      LoadRows(rows);
      outcome := LoadDrawing(files, parts);
    }

    /** The drawing step of load: the pictures of a drawing that opens are
        put over the cells, unless an anchor throws. */
    method LoadDrawing(files: Files, parts: Option<(string, string)>) returns (outcome: SheetLoad)
      requires Valid()
      modifies this`cells
      ensures Valid()
      ensures (outcome, View()) == WithDrawing(old(View()), files, parts)
    {
      if parts.None? {
        return SheetLoaded;
      }
      var (drawingPath, drawingRels) := parts.value;
      ghost var cells := View();
      var drawing := new Drawing(drawingPath, drawingRels);
      var loaded := drawing.Load(files);
      assert View() == cells;
      if loaded == Threw {
        return SheetThrew;
      }
      if loaded == Loaded {
        ghost var scan := ScanAnchors(Tags(ReadFile(files, drawingPath).value, AnchorOpen, AnchorClose, 0),
                                      Reader(ImageMap(files, drawingRels)));
        assert drawing.pictures == [] + scan.pictures == scan.pictures;
        assert WithDrawing(cells, files, parts) == (SheetLoaded, PicturesView(cells, scan.pictures));
        PlacePictures(drawing.pictures);
      }
      return SheetLoaded;
    }

    /** getCell: the cell at `ref`, null (None) when there is none. */
    function GetCell(ref: string): (r: Option<Cell>)
      reads this`cells, Objects()
      ensures r.None? <==> ref !in View()
      ensures r.Some? ==> ViewOf(r.value) == View()[ref]
    {
      if ref in cells then Some(cells[ref]) else None
    }

    /** getCellValue: the value of the cell at `ref`, "" when there is none. */
    function GetCellValue(ref: string): (r: string)
      reads this`cells, this`sharedStrings, Objects()
      ensures ref !in View() ==> r == ""
      ensures ref in View() ==> r == ValueOfView(View()[ref], sharedStrings)
    {
      match GetCell(ref)
      case None => ""
      case Some(c) => c.Value(sharedStrings)
    }

    /** setCellValue: a new data cell where there is none, the value and
        type of a data cell overwritten in place, a picture cell left as it
        is; the document is marked modified in every case. */
    method SetCellValue(ref: string, value: string, cellType: string)
      requires Valid()
      modifies this`cells, workbook.document`isModified
      modifies if ref in cells && cells[ref].Data? then {cells[ref].data} else {}
      ensures Valid()
      ensures workbook.document.isModified
      ensures ref in old(View()) && old(View())[ref].PicView? ==> View() == old(View())
      ensures !(ref in old(View()) && old(View())[ref].PicView?) ==> View() == old(View())[ref := DataView(value, cellType)]
    {
      if ref in cells {
        if cells[ref].Data? {
          Overwrite(ref, value, cellType);
        }
      } else {
        PutData(ref, value, cellType);
      }
      label Set:
      workbook.document.MarkModified();
      ViewKept@Set();
    }

    /** The data cell at `ref` takes the new value and type, in place. */
    method Overwrite(ref: string, value: string, cellType: string)
      requires Valid() && ref in cells && cells[ref].Data?
      modifies cells[ref].data
      ensures Valid()
      ensures View() == old(View())[ref := DataView(value, cellType)]
    {
      var d := cells[ref].data;
      d.SetValue(value);
      d.SetType(cellType);
      forall r | r in cells && r != ref
        ensures ViewOf(cells[r]) == old(ViewOf(cells[r]))
      {
        if cells[r].Data? {
          assert cells[r].data != d;
        }
      }
    }

    /** What save writes for this sheet. */
    function Job(): SaveJob
      reads this`cells, this`sharedStrings, Objects()
    {
      SaveJob(rId, DataCellsOf(View(), sharedStrings))
    }

    /** save: find the part through workbook.xml.rels, rebuild its
        sheetData section from the data cells and write it back. */
    method Save(writable: string -> bool) returns (ok: bool)
      modifies workbook.document`files
      ensures SheetSaved(old(workbook.document.files), workbook.document.tempDir, old(Job()), writable) ==
                (if ok then Some(workbook.document.files) else None)
      ensures !ok ==> workbook.document.files == old(workbook.document.files)
    {
      var saved := SaveStep(workbook.document.files, workbook.document.tempDir, Job(), writable);
      if saved.None? {
        return false;
      }
      workbook.document.files := saved.value;
      return true;
    }

    /** Put a new data cell at `ref`. */
    method PutData(ref: string, value: string, cellType: string)
      requires Valid()
      modifies this`cells
      ensures Valid()
      ensures View() == old(View())[ref := DataView(value, cellType)]
    {
      var d := new CellData(ref, value, cellType);
      cells := cells[ref := Data(d)];
    }

    /** Put a picture cell at its reference. */
    method PutPicture(p: PictureInfo)
      requires Valid()
      modifies this`cells
      ensures Valid()
      ensures View() == old(View())[p.ref := PicView(Picture(p.ref, p.fileName, p.relativePath))]
    {
      cells := cells[p.ref := Pic(Picture(p.ref, p.fileName, p.relativePath))];
    }

    /** The two loops over rows and their `<c>` children. */
    method LoadRows(rows: seq<seq<XmlCell>>)
      requires Valid()
      modifies this`cells
      ensures Valid()
      ensures View() == RowsView(old(View()), rows)
    {
      ghost var start := View();
      var i := 0;
      while i < |rows|
        invariant 0 <= i <= |rows|
        invariant Valid()
        invariant View() == RowsView(start, rows[..i])
      {
        LoadRow(rows[i]);
        FlattenStep(rows, i);
        KeepAppend(Flatten(rows[..i]), rows[i], CellEntry);
        OverlayAppend(start, Keep(Flatten(rows[..i]), CellEntry), Keep(rows[i], CellEntry));
        i := i + 1;
      }
      assert rows[..i] == rows;
    }

    /** The loop over the `<c>` children of one row. */
    method LoadRow(row: seq<XmlCell>)
      requires Valid()
      modifies this`cells
      ensures Valid()
      ensures View() == Overlay(old(View()), Keep(row, CellEntry))
    {
      ghost var start := View();
      var j := 0;
      while j < |row|
        invariant 0 <= j <= |row|
        invariant Valid()
        invariant View() == Overlay(start, Keep(row[..j], CellEntry))
      {
        var c := row[j];
        KeepOverlayStep(start, row[..j], c, CellEntry);
        assert row[..j + 1] == row[..j] + [c];
        if c.r != "" {
          PutData(c.r, CellValue(c), if c.t == "" then "n" else c.t);
        }
        j := j + 1;
      }
      assert row[..j] == row;
    }

    /** Every picture of the drawing replaces the cell at its reference. */
    method PlacePictures(pictures: seq<PictureInfo>)
      requires Valid()
      modifies this`cells
      ensures Valid()
      ensures View() == PicturesView(old(View()), pictures)
    {
      ghost var start := View();
      var i := 0;
      while i < |pictures|
        invariant 0 <= i <= |pictures|
        invariant Valid()
        invariant View() == PicturesView(start, pictures[..i])
      {
        KeepOverlayStep(start, pictures[..i], pictures[i], PictureEntry);
        assert pictures[..i + 1] == pictures[..i] + [pictures[i]];
        PutPicture(pictures[i]);
        i := i + 1;
      }
      assert pictures[..i] == pictures;
    }
  }

  // ---------------------------------------------------------------------
  // XLWorkbook

  class Workbook {
    const document: Document
    var sheetNames: seq<string>
    var sheetIds: seq<string>
    var rIds: seq<string>
    var sheets: seq<Sheet>

    constructor (document: Document)
      ensures this.document == document
      ensures sheetNames == [] && sheetIds == [] && rIds == [] && sheets == []
    {
      this.document := document;
      sheetNames := [];
      sheetIds := [];
      rIds := [];
      sheets := [];
    }

    /** The loaded sheets belong to this workbook and are distinct. */
    predicate Valid()
      reads this
    {
      (forall i :: 0 <= i < |sheets| ==> sheets[i].workbook == this) &&
      (forall i, j :: 0 <= i < j < |sheets| ==> sheets[i] != sheets[j])
    }

    /** load: the catalogue of workbook.xml fills the name, id and
        relationship-id lists; then a sheet is made and loaded for each
        catalogue entry and kept when its load succeeds. */
    method Load(parser: XmlParser) returns (r: WorkbookLoad)
      requires Valid()
      modifies this`sheetNames, this`sheetIds, this`rIds, this`sheets
      ensures Valid()
      ensures !document.isOpen ==> r == NotOpen && unchanged(this)
      ensures document.isOpen && ReadFile(document.files, CataloguePath(document.tempDir)).None? ==>
                r == NoCatalogue && unchanged(this)
      ensures document.isOpen && ReadFile(document.files, CataloguePath(document.tempDir)).Some? ==>
                LoadCatalogued(ReadFile(document.files, CataloguePath(document.tempDir)).value, parser, r,
                               old(sheetNames), old(sheetIds), old(rIds), old(EntriesOf(sheets)))
    {
      if !document.isOpen {
        return NotOpen;
      }
      var file := ReadFile(document.files, CataloguePath(document.tempDir));
      if file.None? {
        return NoCatalogue;
      }
      r := LoadCatalogue(file.value, parser);
    }

    /** What load leaves once workbook.xml has been read: the three lists
        extended by the catalogue's attributes, the sheets extended by those
        it keeps, and whether a sheet's load threw. */
    ghost predicate LoadCatalogued(content: string, parser: XmlParser, r: WorkbookLoad,
                                   names: seq<string>, ids: seq<string>, rids: seq<string>, kept: seq<Entry>)
      reads this, document
    {
      var tags := SheetTags(content);
      var outcome := SheetOutcome(document.files, parser, document.tempDir);
      && sheetNames == names + Names(tags)
      && sheetIds == ids + SheetIds(tags)
      && rIds == rids + RIds(tags)
      && EntriesOf(sheets) == kept + KeptSheets(Entries(tags), outcome)
      && (r == WorkbookThrew <==> ThrowAt(Entries(tags), outcome) < |Entries(tags)|)
      && (r != WorkbookThrew ==> r == WorkbookLoaded)
    }

    /** The catalogue scan and the sheet-creation loop of load. */
    method LoadCatalogue(content: string, parser: XmlParser) returns (r: WorkbookLoad)
      requires Valid()
      modifies this`sheetNames, this`sheetIds, this`rIds, this`sheets
      ensures Valid()
      ensures LoadCatalogued(content, parser, r, old(sheetNames), old(sheetIds), old(rIds), old(EntriesOf(sheets)))
    {
      var names, ids, rids, entries := ScanCatalogue(content, SheetOpen, SheetClose);
      sheetNames, sheetIds, rIds := sheetNames + names, sheetIds + ids, rIds + rids;
      var threw := CreateSheets(entries, parser, SheetOutcome(document.files, parser, document.tempDir));
      r := if threw then WorkbookThrew else WorkbookLoaded;
    }

    /** The sheet-creation loop, over the catalogue entries. */
    method CreateSheets(es: seq<Entry>, parser: XmlParser, ghost outcome: Entry -> SheetLoad) returns (threw: bool)
      requires Valid() && Realizes(outcome, document.files, parser, document.tempDir)
      modifies this`sheets
      ensures Valid()
      ensures EntriesOf(sheets) == old(EntriesOf(sheets)) + KeptSheets(es, outcome)
      ensures threw <==> ThrowAt(es, outcome) < |es|
    {
      ghost var start := EntriesOf(sheets);
      var i := 0;
      while i < |es|
        invariant 0 <= i <= |es|
        invariant Valid()
        invariant forall j :: 0 <= j < i ==> outcome(es[j]) != SheetThrew
        invariant EntriesOf(sheets) == start + Keep(es[..i], LoadedOnly(outcome))
      {
        ghost var before := EntriesOf(sheets);
        threw := AddSheet(es[i], parser, outcome);
        KeptStep(es, i, outcome, start, before, EntriesOf(sheets));
        if threw {
          KeptStop(es, i, outcome);
          return true;
        }
        NoThrowYet(es, outcome, i);
        i := i + 1;
      }
      KeptStop(es, i, outcome);
      assert es[..i] == es;
      return false;
    }

    /** One round of the sheet-creation loop: the entry's sheet is made and
        loaded, and kept when its load succeeds. */
    method AddSheet(e: Entry, parser: XmlParser, ghost outcome: Entry -> SheetLoad) returns (threw: bool)
      requires Valid() && Realizes(outcome, document.files, parser, document.tempDir)
      modifies this`sheets
      ensures Valid()
      ensures threw <==> outcome(e) == SheetThrew
      ensures EntriesOf(sheets) == old(EntriesOf(sheets)) +
                (if LoadedOnly(outcome)(e).Some? then [LoadedOnly(outcome)(e).value] else [])
    {
      var loaded := LoadSheet(e, parser);
      threw := loaded.0 == SheetThrew;
      if loaded.0 == SheetLoaded {
        assert (sheets + [loaded.1])[..|sheets|] == sheets;
        sheets := sheets + [loaded.1];
      }
    }

    /** A new sheet for a catalogue entry, loaded. */
    method LoadSheet(e: Entry, parser: XmlParser) returns (r: (SheetLoad, Sheet))
      ensures r.0 == SheetLoadOf(document.files, parser, document.tempDir, e)
      ensures fresh(r.1) && r.1.workbook == this && EntryOfSheet(r.1) == e
    {
      var sheet := new Sheet(this, e.name, e.sheetId, e.rId);
      assert sheet.View() == map[];
      var loaded := sheet.Load(parser);
      return (loaded, sheet);
    }

    /** save: each sheet in order, stopping at the first that fails. */
    method Save(writable: string -> bool) returns (ok: bool)
      requires Valid()
      modifies document`files
      ensures (ok, document.files) == SaveAll(old(document.files), document.tempDir, old(JobsOf(sheets)), writable)
    {
      ghost var jobs := JobsOf(sheets);
      ghost var start := document.files;
      var i := 0;
      while i < |sheets|
        invariant 0 <= i <= |sheets|
        invariant SaveAll(start, document.tempDir, jobs[..i], writable) == (true, document.files)
      {
        JobKept(sheets[i]);
        ghost var before := document.files;
        var saved := sheets[i].Save(writable);
        SavedStep(start, jobs, i, Saver(document.tempDir, writable), before,
                  if saved then Some(document.files) else None);
        if !saved {
          return false;
        }
        i := i + 1;
      }
      assert jobs[..i] == jobs;
      return true;
    }

    /** getSheetCount: the number of sheets load kept. */
    function GetSheetCount(): (r: nat)
      reads this
      ensures r == |EntriesOf(sheets)|
    {
      |sheets|
    }

    /** getSheetName: the index-th name of the catalogue, "" past its end. */
    function GetSheetName(index: nat): (r: string)
      reads this
      ensures index < |sheetNames| ==> r == sheetNames[index]
      ensures index >= |sheetNames| ==> r == ""
    {
      if index >= |sheetNames| then "" else sheetNames[index]
    }

    /** getSheet: the index-th sheet load kept; None for out_of_range. */
    function GetSheet(index: nat): (r: Option<Sheet>)
      reads this
      ensures r.None? <==> index >= |EntriesOf(sheets)|
      ensures r.Some? ==> r.value == sheets[index] && EntryOfSheet(r.value) == EntriesOf(sheets)[index]
    {
      if index >= |sheets| then None else Some(sheets[index])
    }
  }

  // ---------------------------------------------------------------------
  // XLDocument

  /** What opening takes from the environment: the system's temporary
      directory, the clock reading (milliseconds) that names the new
      directory, whether creating that directory succeeds, and the file
      system once the archive has been unzipped into it (None when the
      unzip fails). */
  datatype OpenEnv = OpenEnv(tempRoot: string, stamp: nat, created: bool, unzipped: Option<Files>)

  /** open's result; OpenThrew is an exception from a sheet's load, which
      open does not catch. */
  datatype OpenOutcome = Opened | OpenFailed | OpenThrew

  /** The workbook load behind a successful or throwing open. */
  function BookLoad(r: OpenOutcome): (w: WorkbookLoad)
    ensures r == OpenThrew <==> w == WorkbookThrew
  {
    if r == OpenThrew then WorkbookThrew else WorkbookLoaded
  }

  /** temp_directory_path() / ("MiniXLSX_" + timestamp). */
  function OpenTempDir(env: OpenEnv): (r: string)
    ensures r != ""
  {
    Paths.Join(env.tempRoot, "MiniXLSX_" + Decimal(env.stamp))
  }

  /** The files once the directory is made and the archive unzipped into
      it; None when either step fails. */
  function Extracted(env: OpenEnv): (r: Option<Files>)
    ensures r.Some? <==> env.created && env.unzipped.Some?
    ensures r.Some? ==> r == env.unzipped
  {
    if !env.created then None else env.unzipped
  }

  /** The files after open fails before the workbook is loaded: untouched
      when the directory could not be made, else with the directory tree
      removed. */
  function FailedOpenFiles(files: Files, env: OpenEnv): (r: Files)
    ensures !env.created ==> r == files
    ensures env.created ==> forall key :: key in r <==> key in files && !Within(key, OpenTempDir(env))
    ensures forall key :: key in r ==> key in files && r[key] == files[key]
  {
    if !env.created then files else RemoveTree(files, OpenTempDir(env))
  }

  class Document {
    var isOpen: bool
    var isModified: bool
    var tempDir: string
    var xlsxPath: string
    var files: Files
    var workbook: Option<Workbook>
    var pictureReader: Option<PictureReaders.PictureReader>

    /** A closed, unmodified document over the files `disk`. */
    constructor (disk: Files)
      ensures !isOpen && !isModified && tempDir == "" && xlsxPath == "" && files == disk
      ensures workbook == None && pictureReader == None
    {
      isOpen := false;
      isModified := false;
      tempDir := "";
      xlsxPath := "";
      files := disk;
      workbook := None;
      pictureReader := None;
    }

    /** The objects the document holds. */
    function Held(): set<object>
      reads this
    {
      (if workbook.Some? then {workbook.value} else {}) +
      (if pictureReader.Some? then {pictureReader.value} else {})
    }

    /** A workbook exactly while open, bound to this document; a picture
        reader only while open. */
    ghost predicate Valid()
      reads this, Held()
    {
      && (isOpen <==> workbook.Some?)
      && (workbook.Some? ==> workbook.value.document == this && workbook.value.Valid())
      && (pictureReader.Some? ==> isOpen)
    }

    /** The files close leaves: the temporary tree removed when open. */
    function ClosedFiles(): (r: Files)
      reads this
      ensures !isOpen ==> r == files
      ensures isOpen ==> forall key :: key in r <==> key in files && !Within(key, tempDir)
    {
      if isOpen then RemoveTree(files, tempDir) else files
    }

    /** What open leaves, from the files `before` it (after its close):
        the temporary directory is always the new one; when making or
        filling it fails, or workbook.xml cannot be read, the document is
        closed and the tree is gone; otherwise the document is open over
        the unzipped files, with a reader attached to them and a workbook
        loaded from the catalogue. */
    ghost predicate OpenedAs(before: Files, path: string, env: OpenEnv, parser: XmlParser, r: OpenOutcome)
      reads this, Held(), if workbook.Some? then {workbook.value.document} else {}
    {
      var temp := OpenTempDir(env);
      && tempDir == temp
      && match Extracted(env)
         case None => r == OpenFailed && !isOpen && files == FailedOpenFiles(before, env)
         case Some(extracted) => LoadedAs(extracted, temp, path, parser, r)
    }

    /** What open leaves once the archive is unzipped into `temp` giving
        `extracted`: closed with the tree removed when workbook.xml cannot
        be read, otherwise open with a reader attached and a workbook loaded
        from the catalogue. */
    ghost predicate LoadedAs(extracted: Files, temp: string, path: string, parser: XmlParser, r: OpenOutcome)
      reads this, Held(), if workbook.Some? then {workbook.value.document} else {}
    {
      match ReadFile(extracted, CataloguePath(temp))
      case None =>
        r == OpenFailed && !isOpen && files == RemoveTree(extracted, temp) && workbook == None
      case Some(content) =>
        && r != OpenFailed && isOpen && files == extracted
        && pictureReader.Some? && pictureReader.value.openedPath == path
        && pictureReader.value.tempDir == temp && pictureReader.value.attached
        && workbook.Some?
        && workbook.value.LoadCatalogued(content, parser, BookLoad(r), [], [], [], [])
    }

    /** open: close first when open, then make the temporary directory,
        unzip into it, attach a picture reader and load the workbook. */
    method Open(path: string, env: OpenEnv, parser: XmlParser) returns (r: OpenOutcome)
      requires Valid()
      modifies this
      ensures Valid()
      ensures OpenedAs(old(ClosedFiles()), path, env, parser, r)
      ensures isModified == old(isModified) && xlsxPath == old(xlsxPath)
    {
      if isOpen {
        Close();
      }
      r := OpenClosed(path, env, parser);
    }

    /** The steps of open once the document is closed. */
    method OpenClosed(path: string, env: OpenEnv, parser: XmlParser) returns (r: OpenOutcome)
      requires Valid() && !isOpen
      modifies this
      ensures Valid()
      ensures OpenedAs(old(files), path, env, parser, r)
      ensures isModified == old(isModified) && xlsxPath == old(xlsxPath)
    {
      tempDir := OpenTempDir(env);
      if !env.created {
        return OpenFailed;
      }
      if env.unzipped.None? {
        files := RemoveTree(files, tempDir);
        return OpenFailed;
      }
      files := env.unzipped.value;
      r := AttachAndLoad(path, parser);
    }

    /** The steps of open after the unzip: attach a picture reader to the
        directory, mark open, and load a new workbook, closing again when
        that load fails. */
    method AttachAndLoad(path: string, parser: XmlParser) returns (r: OpenOutcome)
      requires Valid() && !isOpen
      modifies this
      ensures Valid()
      ensures LoadedAs(old(files), tempDir, path, parser, r)
      ensures tempDir == old(tempDir) && isModified == old(isModified) && xlsxPath == old(xlsxPath)
    {
      AttachReader(path);
      var loaded := LoadBook(parser);
      if loaded == NoCatalogue {
        Close();
        return OpenFailed;
      }
      r := if loaded == WorkbookThrew then OpenThrew else Opened;
      assert BookLoad(r) == loaded;
    }

    /** A new picture reader, attached to the archive's directory. */
    method AttachReader(path: string)
      modifies this`pictureReader
      ensures pictureReader.Some? && fresh(pictureReader.value)
      ensures pictureReader.value.openedPath == path && pictureReader.value.tempDir == tempDir
      ensures pictureReader.value.attached
    {
      var reader := new PictureReaders.PictureReader();
      var attached := reader.Attach(path, tempDir);
      pictureReader := Some(reader);
    }

    /** Mark open and load a new workbook over the unzipped files. */
    method LoadBook(parser: XmlParser) returns (loaded: WorkbookLoad)
      requires !isOpen && workbook.None?
      modifies this`isOpen, this`workbook
      ensures isOpen && workbook.Some? && fresh(workbook.value)
      ensures Valid()
      ensures loaded == NoCatalogue <==> ReadFile(files, CataloguePath(tempDir)).None?
      ensures loaded != NotOpen
      ensures ReadFile(files, CataloguePath(tempDir)).Some? ==>
                workbook.value.LoadCatalogued(ReadFile(files, CataloguePath(tempDir)).value, parser, loaded, [], [], [], [])
    {
      isOpen := true;
      var book := new Workbook(this);
      workbook := Some(book);
      loaded := book.Load(parser);
    }

    /** close: when open, drop the reader and the workbook, remove the
        temporary tree and mark closed; isModified is kept. */
    method Close()
      requires Valid()
      modifies this`isOpen, this`workbook, this`pictureReader, this`files
      ensures Valid()
      ensures !isOpen && workbook == None && pictureReader == None
      ensures files == old(ClosedFiles())
    {
      if isOpen {
        pictureReader := None;
        workbook := None;
        files := RemoveTree(files, tempDir);
        isOpen := false;
      }
    }

    /** close_safe: refuse when modified, else close. */
    method CloseSafe() returns (ok: bool)
      requires Valid()
      modifies this`isOpen, this`workbook, this`pictureReader, this`files
      ensures Valid()
      ensures ok <==> !old(isModified)
      ensures !ok ==> unchanged(this)
      ensures ok ==> !isOpen && workbook == None && files == old(ClosedFiles())
    {
      if isModified {
        return false;
      }
      Close();
      return true;
    }

    /** create: close when open, write the template to `path` (not part of
        this model: the unzipped files are an input), then open it. */
    method Create(path: string, env: OpenEnv, parser: XmlParser) returns (r: OpenOutcome)
      requires Valid()
      modifies this
      ensures Valid()
      ensures OpenedAs(old(ClosedFiles()), path, env, parser, r)
      ensures isModified == old(isModified) && xlsxPath == old(xlsxPath)
    {
      if isOpen {
        Close();
      }
      r := Open(path, env, parser);
    }

    /** save: nothing to do when unmodified; else the workbook's save, then
        zipping the temporary directory to the recorded path; the flag is
        cleared only when both succeed. */
    method Save(writable: string -> bool, zip: (string, string) -> bool) returns (ok: bool)
      requires Valid()
      modifies this`files, this`isModified
      ensures Valid()
      ensures !old(isOpen) ==> !ok && unchanged(this)
      ensures old(isOpen) && !old(isModified) ==> ok && unchanged(this)
      ensures old(isOpen) && old(isModified) ==>
                var saved := SaveAll(old(files), tempDir, old(JobsOf(workbook.value.sheets)), writable);
                && files == saved.1
                && (ok <==> saved.0 && zip(tempDir, xlsxPath))
                && isModified == !ok
    {
      if !isOpen {
        return false;
      }
      if !isModified {
        return true;
      }
      ok := workbook.value.Save(writable);
      if !ok {
        return false;
      }
      if !zip(tempDir, xlsxPath) {
        return false;
      }
      isModified := false;
    }

    /** saveAs: the workbook's save and zipping to `path` whether or not
        anything changed; on success `path` becomes the recorded path and
        the flag is cleared. */
    method SaveAs(path: string, writable: string -> bool, zip: (string, string) -> bool) returns (ok: bool)
      requires Valid()
      modifies this`files, this`isModified, this`xlsxPath
      ensures Valid()
      ensures !old(isOpen) ==> !ok && unchanged(this)
      ensures old(isOpen) ==>
                var saved := SaveAll(old(files), tempDir, old(JobsOf(workbook.value.sheets)), writable);
                && files == saved.1
                && (ok <==> saved.0 && zip(tempDir, path))
                && (ok ==> xlsxPath == path && !isModified)
                && (!ok ==> xlsxPath == old(xlsxPath) && isModified == old(isModified))
    {
      if !isOpen {
        return false;
      }
      ok := workbook.value.Save(writable);
      if !ok {
        return false;
      }
      if !zip(tempDir, path) {
        return false;
      }
      xlsxPath := path;
      isModified := false;
    }

    /** markModified. */
    method MarkModified()
      modifies this`isModified
      ensures isModified
    {
      isModified := true;
    }

    /** getWorkbook: the loaded workbook; None for the runtime_error thrown
        when there is none. */
    function GetWorkbook(): (r: Option<Workbook>)
      requires Valid()
      reads this, Held()
      ensures r.Some? <==> isOpen
      ensures r.Some? ==> r.value.document == this && r.value.Valid()
    {
      workbook
    }
  }
}
