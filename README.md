# MiniXLSX in Dafny

MiniXLSX is a small C++ library that reads and writes `.xlsx` workbooks.
An `XLDocument` unzips the package into a temporary directory of its own.
Its `XLWorkbook` reads the sheet catalogue of `xl/workbook.xml` and loads every sheet.
An `XLSheet` builds its cell table from the sheet part and from the pictures anchored in the sheet's drawing.
On save, the sheet rewrites the `<sheetData>` section of its part, and the document zips the directory back.
Beside this path, three more pieces are modelled:

- `XLPictureReader` reads the pictures of a sheet straight from the extracted files.
- `OpenXLSXWrapper` finds a sheet by name and turns a cell style into a fill and a border.
- Two small programs: the wrapper demo's PNG/JPEG size sniffer, and `XLTemplateCreator`, which prints a file as a C++ byte array.

How the model is built:

- Values of the library are datatypes: picture records, anchors, relationship elements, the sheet catalogue's entries, cell views.
- The objects the library updates in place are classes, with their fields: `Document`, `Workbook`, `Sheet`, `CellData`, `Drawing`, `PictureReader`.
- Every loop of the source is a method with its invariants, proved against a function that specifies it.
- The outside world enters as parameters:
  - the file system is a map from normalised paths to file contents (`Files`);
  - pugixml's view of a part is a set of functions (`XmlParser`);
  - the clock, the system temporary directory and the outcomes of creating a directory and unzipping are an `OpenEnv` or `Unzip` value;
  - whether a file can be written, and whether zipping succeeds, are predicates.
- `std::string::find`, `substr`, `std::stoi`, `std::stoul` and `std::to_string` are modelled in `Text`.
- `std::filesystem` path joining, `lexically_normal` and `relative` are modelled on `/`-separated segments in `Paths`.
- `std::string`'s `operator<`, which orders the map that `save` sorts, is modelled in `StringOrder`.

## Model

| member | source | states |
|---|---|---|
| Columns.Letters | src/XLSheet.cpp:19-28 | column letters are upper-case, and empty exactly for a negative column |
| Columns.ColumnNumberToLetter | src/XLSheet.cpp:19-28 | the digit loop computes `Letters(col)` |
| Columns.ColumnOf | src/XLSheet.cpp:19-28 | the inverse reading of letters: -1 only for the empty text |
| Columns.ValueOfLetters | src/XLSheet.cpp:19-28 | the bijective base-26 value of `Letters(col)` is `col + 1` |
| Columns.ColumnOfLetters | src/XLSheet.cpp:19-28 | letters read back to the column they were made from |
| Columns.LettersOfColumn | src/XLSheet.cpp:19-28 | every upper-case text is the letters of its column (round trip the other way) |
| Columns.LettersInjective | src/XLSheet.cpp:19-28 | distinct columns get distinct letters |
| Columns.FirstColumns | src/XLSheet.cpp:19-28 | 0 is "A", 25 "Z", 26 "AA", 27 "AB", 701 "ZZ", 702 "AAA" |
| Cells.CellData.constructor | src/XLCellData.cpp:7-10 | stores reference, value and type |
| Cells.Resolve | src/XLCellData.cpp:12-34 | a non-"s" cell gives its raw value; an "s" cell gives the shared string at the `stoul` index when it parses and is in range, otherwise "" |
| Cells.CellData.GetValue | src/XLCellData.cpp:12-34 | getValue is `Resolve` of the cell's own type and value |
| Cells.SharedIndexReadsEntry | src/XLCellData.cpp:14-22 | an "s" cell holding the decimal index i reads entry i |
| Cells.SharedValueFromTable | src/XLCellData.cpp:14-28 | an "s" cell reads "" or a member of the table |
| Cells.SharedNonNumericReadsEmpty | src/XLCellData.cpp:24-28 | an index without digits reads "" (the caught exception) |
| Cells.ResolveStableUnderAppend | src/XLCellData.cpp:12-34 | appending to the shared table does not change an existing cell's value |
| Cells.CellData.GetType | src/XLCellData.cpp:36-39 | the stored type |
| Cells.CellData.SetValue | src/XLCellData.cpp:41-44 | the value changes and the type does not |
| Cells.CellData.SetType | src/XLCellData.cpp:46-49 | the type changes and the value does not |
| Cells.Picture.GetValue | src/XLCellPicture.cpp:12-15 | a picture cell's value is its image file name |
| Cells.Picture.GetType | src/XLCellPicture.cpp:17-20 | a picture cell's type is "picture" |
| Cells.FullPathLayout | src/XLCellPicture.cpp:32-36 | the full path is tempDir, "xl", the relative directory and the file name, one separator apart, and its file name is the image's |
| Cells.Cell.Value | include/cc/neolux/utils/MiniXLSX/XLCell.hpp:1-20 | getValue dispatched on the kind of cell: the file name of a picture, the resolved value of a data cell |
| Cells.Cell.Type | include/cc/neolux/utils/MiniXLSX/XLCell.hpp:1-20 | getType dispatched on the kind of cell |
| Drawings.RelationshipMapKeys | src/XLDrawing.cpp:19-58 | an id is in the image map exactly when some `<Relationship ` element has a readable Id and Target for it |
| Drawings.RelationshipMapLastWins | src/XLDrawing.cpp:50 | a repeated id maps to the Target of its last element |
| Drawings.ReadImageMap | src/XLDrawing.cpp:26-57 | the relationship loop builds exactly that map |
| Drawings.CoordinateText | src/XLDrawing.cpp:84-102 | the text between `<xdr:col>` and `</xdr:col>` (or the row tags) after `<xdr:from>`, none exactly when either tag is missing |
| Drawings.Coordinate | src/XLDrawing.cpp:80-104 | the coordinate after `<xdr:from>` is -1 when either tag is missing, a failure exactly when the text between them is there and `std::stoi` rejects it, and otherwise the number `std::stoi` reads |
| Drawings.AnchorPicture | src/XLDrawing.cpp:119-137 | an anchor yields a picture only with column >= 0, row >= 0 and a non-empty embed id that the map knows; its reference is letters plus row + 1, and "../media" becomes "media" |
| Drawings.CoordinateOfWritten | src/XLDrawing.cpp:84-104 | a number written with `std::to_string` between `<xdr:col>`/`</xdr:col>` (or the row tags) is read back by `std::stoi` |
| Drawings.Advance | src/XLDrawing.cpp:72-140 | one anchor's step: nothing changes after a failure, an accepted anchor appends its picture |
| Drawings.ScanAnchorsSnoc | src/XLDrawing.cpp:72-140 | the scan over one more anchor is one more step |
| Drawings.ThrownScanIsFinal | src/XLDrawing.cpp:91-101 | once stoi has thrown, later anchors change nothing |
| Drawings.ScanAnchorsKeeps | src/XLDrawing.cpp:72-140 | without a failure, the pictures are those of the accepted anchors, in order |
| Drawings.ScanAnchorsThrows | src/XLDrawing.cpp:72-140 | the scan fails exactly when some anchor cannot be read, keeping the pictures before the first such anchor |
| Drawings.CollectAnchors | src/XLPictureReader.cpp:189-255 | the anchor loop computes the scan, from `<xdr:twoCellAnchor` to 20 characters past its close |
| Drawings.ScanAnchorsMap | src/XLPictureReader.cpp:246-353 | two readers that differ by a mapping of their records fail at the same place and find mapped pictures |
| Drawings.Drawing.constructor | src/XLDrawing.cpp:11-14 | the two paths, no pictures |
| Drawings.Drawing.Load | src/XLDrawing.cpp:16-143 | not opened when the drawing part is missing; otherwise the accepted anchors' pictures are appended, until stoi throws |
| Drawings.Drawing.AppendAnchors | src/XLDrawing.cpp:71-140 | the anchor loop appends the scan's pictures to the list |
| Drawings.Drawing.GetPictures | src/XLDrawing.cpp:145-148 | the list of pictures |
| Package.ViewOf | src/XLSheet.cpp:143 | a data cell's value and type, or a picture cell, as a value |
| Package.ValueOfView | src/XLSheet.cpp:208-216 | a cell view's value is getValue's |
| Package.SharedEntry | src/XLSheet.cpp:53-70 | a direct `<t>` gives its text; otherwise the runs' concatenation, and nothing when that is empty |
| Package.JoinRuns | src/XLSheet.cpp:63-67 | the concatenation of the runs |
| Package.ConcatRuns | src/XLSheet.cpp:63-67 | the run loop computes `JoinRuns` |
| Package.DirectTextIsNextEntry | src/XLSheet.cpp:56-60 | an item with a direct `<t>` is the next entry of the table |
| Package.EmptyRichItemTakesNoIndex | src/XLSheet.cpp:68 | a rich item whose runs are all empty takes no index, so later entries shift down by one |
| Package.PartTargetSpec | src/XLSheet.cpp:83-99 | the sheet's part is the Target of the first relationship naming `rId` with a Target, and "" when none does |
| Package.FindPartTarget | src/XLSheet.cpp:85-93 | the relationship loop finds exactly that target |
| Package.DrawingTargetStopsAtFirstId | src/XLSheet.cpp:163-170 | the drawing search stops at the first matching Id, even when that element has no Target |
| Package.FindDrawingTarget | src/XLSheet.cpp:163-170 | the loop finds exactly that target |
| Package.CellValue | src/XLSheet.cpp:124-139 | a `<c>`'s value: its `<v>` text, else its inline `<is><t>` text, else "" |
| Package.CellEntry | src/XLSheet.cpp:141-144 | a cell without a reference is skipped; one with a reference gets type "n" when its t is empty |
| Package.PictureEntry | src/XLSheet.cpp:180-183 | a picture is keyed by its reference |
| Package.SheetSource | src/XLSheet.cpp:74-116 | the part of a sheet is found through workbook.xml.rels; a missing rels part, target, sheet part or sheetData is a load failure |
| Package.FindSheetSource | src/XLSheet.cpp:74-116 | the steps of load compute `SheetSource` |
| Package.DrawingParts | src/XLSheet.cpp:149-175 | a drawing is read only for a `<drawing>` with an r:id whose target the sheet's relationships give; its rels part sits in `_rels` next to it |
| Package.FindDrawingParts | src/XLSheet.cpp:149-175 | the steps of load compute `DrawingParts` |
| Package.LoadResult | src/XLSheet.cpp:39-191 | a failed load leaves the cell table as it was |
| Package.WithDrawing | src/XLSheet.cpp:177-188 | the drawing step ends as loaded unless an anchor throws |
| Package.DataCellsOf | src/XLSheet.cpp:375-404 | save writes exactly the data cells, each with its getValue (the shared text of an "s" cell) |
| Package.SaveStep | src/XLSheet.cpp:241-433 | one sheet's save, as the files it leaves or its failure |
| Package.SheetSavedKeepsKeys | src/XLSheet.cpp:422-432 | a sheet's save writes only an existing part |
| Package.SaveInOrderKeepsKeys | src/XLWorkbook.cpp:130-141 | saving in order never adds or removes a file |
| Package.SaveAllKeepsKeys | src/XLWorkbook.cpp:130-141 | the workbook's save keeps the set of files |
| Package.SaveInOrderSnoc | src/XLWorkbook.cpp:132-139 | one more sheet is one more step, taken only when all before succeeded |
| Package.SaveInOrderStops | src/XLWorkbook.cpp:134-138 | after the first failure no later sheet is written |
| Package.SavedStep | src/XLWorkbook.cpp:132-139 | one round of the save loop |
| Package.ThrowAt | src/XLWorkbook.cpp:111-125 | the index of the first sheet whose load throws, or the count of sheets |
| Package.KeptSheetsLoaded | src/XLWorkbook.cpp:111-125 | a sheet is kept exactly when it comes before any throw and its load succeeded |
| Package.NoThrowKeepsLoaded | src/XLWorkbook.cpp:115-124 | without a throw the kept sheets are exactly those that load, in catalogue order |
| Package.EntriesOf | src/XLWorkbook.cpp:114 | the catalogue entry each sheet was made from |
| Package.Sheet.constructor | src/XLSheet.cpp:30-33 | name, sheet id and relationship id stored; no cells, no shared strings |
| Package.Sheet.View | src/XLSheet.cpp:141-144 | the table as values, with the same references |
| Package.Sheet.GetName | src/XLSheet.cpp:193-196 | the name |
| Package.Sheet.LoadSharedStrings | src/XLSheet.cpp:45-72 | the table read from sharedStrings.xml is appended; nothing when the part is missing or does not parse |
| Package.Sheet.AppendShared | src/XLSheet.cpp:53-70 | the `<si>` loop appends `SharedTable(items)` |
| Package.Sheet.Load | src/XLSheet.cpp:39-191 | the outcome and the new table are `LoadResult` of the old table |
| Package.Sheet.LoadCells | src/XLSheet.cpp:118-188 | the cells of the part, then the drawing's pictures over them |
| Package.Sheet.LoadRows | src/XLSheet.cpp:118-146 | the row loop overlays every row's cell entries |
| Package.Sheet.LoadRow | src/XLSheet.cpp:120-145 | later cells with the same reference replace earlier ones |
| Package.Sheet.PutData | src/XLSheet.cpp:143 | the table gains or replaces one data cell |
| Package.Sheet.LoadDrawing | src/XLSheet.cpp:177-184 | the pictures are placed when the drawing loads |
| Package.Sheet.PlacePictures | src/XLSheet.cpp:180-183 | every picture replaces the cell at its reference |
| Package.Sheet.PutPicture | src/XLSheet.cpp:182 | one picture cell at its reference |
| Package.Sheet.GetCell | src/XLSheet.cpp:198-206 | none exactly for a reference that is not in the table |
| Package.Sheet.GetCellValue | src/XLSheet.cpp:208-216 | "" for a missing reference, else the cell's value |
| Package.Sheet.SetCellValue | src/XLSheet.cpp:218-239 | a new data cell, or a data cell overwritten; a picture cell is left alone; the document is marked modified either way |
| Package.Sheet.Overwrite | src/XLSheet.cpp:224-229 | the existing data cell takes the new value and type, and no other cell changes |
| Package.Sheet.Save | src/XLSheet.cpp:241-433 | the files after save are `SheetSaved`; a failed save writes nothing |
| Package.Workbook.constructor | src/XLWorkbook.cpp:11-13 | bound to its document, with empty lists |
| Package.Workbook.Load | src/XLWorkbook.cpp:24-128 | NotOpen and nothing changed for a closed document; NoCatalogue when workbook.xml is missing; otherwise the catalogue is read and the sheets made |
| Package.Workbook.LoadCatalogue | src/XLWorkbook.cpp:57-127 | the three lists grow by the catalogue's attributes, and the sheets by those kept |
| Package.Workbook.CreateSheets | src/XLWorkbook.cpp:111-125 | the sheets grow by `KeptSheets`; a throw is reported exactly when some sheet's load throws |
| Package.Workbook.AddSheet | src/XLWorkbook.cpp:114-124 | one round: the sheet is kept exactly when its load succeeds |
| Package.Workbook.LoadSheet | src/XLWorkbook.cpp:114-115 | a fresh sheet for the entry, loaded |
| Package.Workbook.Save | src/XLWorkbook.cpp:130-141 | the sheets are saved in order, stopping at the first failure |
| Package.Workbook.GetSheetCount | src/XLWorkbook.cpp:143-151 | the number of sheets kept |
| Package.Workbook.GetSheetName | src/XLWorkbook.cpp:165-170 | the catalogue name at the index, "" past the end |
| Package.Workbook.GetSheet | src/XLWorkbook.cpp:173-180 | none (the out_of_range throw) exactly past the last sheet |
| Package.BookLoad | src/XLDocument.cpp:75-83 | open throws exactly when the workbook's load throws |
| Package.OpenTempDir | src/XLDocument.cpp:40-43 | the new temporary directory is never "" |
| Package.Extracted | src/XLDocument.cpp:45-58 | the files exist only when the directory is made and the unzip succeeds |
| Package.FailedOpenFiles | src/XLDocument.cpp:45-58 | a failed unzip removes the new tree, and a failed create leaves the files alone |
| Package.Document.constructor | src/XLDocument.cpp:15 | closed, unmodified, with no workbook and no reader |
| Package.Document.ClosedFiles | src/XLDocument.cpp:97-114 | close removes exactly the temporary tree of an open document |
| Package.Document.Open | src/XLDocument.cpp:32-84 | close first, then `OpenedAs`: closed with the tree removed on any failure; otherwise open with a reader attached and the workbook loaded |
| Package.Document.OpenClosed | src/XLDocument.cpp:39-84 | open of a closed document |
| Package.Document.AttachAndLoad | src/XLDocument.cpp:69-83 | after the unzip: the reader is attached and the workbook loaded, closing again when the load fails |
| Package.Document.AttachReader | src/XLDocument.cpp:70-73 | the reader is attached to the document's directory |
| Package.Document.LoadBook | src/XLDocument.cpp:75-77 | the document is marked open with a fresh workbook; NoCatalogue exactly when workbook.xml is missing |
| Package.Document.Close | src/XLDocument.cpp:97-114 | closed, workbook and reader dropped, tree removed, isModified kept |
| Package.Document.CloseSafe | src/XLDocument.cpp:116-123 | refuses, changing nothing, exactly when modified; otherwise closes |
| Package.Document.Create | src/XLDocument.cpp:86-95 | close when open, then open the path |
| Package.Document.Save | src/XLDocument.cpp:163-193 | fails when closed; succeeds at once when unmodified; otherwise saves the workbook, zips, and clears the flag only on success |
| Package.Document.SaveAs | src/XLDocument.cpp:135-161 | saves and zips whether or not modified; on success the path is recorded and the flag cleared |
| Package.Document.MarkModified | src/XLDocument.cpp:195-198 | the document is modified |
| Package.Document.GetWorkbook | src/XLDocument.cpp:200-207 | the workbook exactly while open (the runtime_error otherwise) |
| Catalogue.ScanSnoc | src/XLWorkbook.cpp:61-109 | one more `<sheet ` element extends each list by the attribute it has |
| Catalogue.ScanCatalogue | src/XLWorkbook.cpp:61-109 | the scan loop fills the three lists, each on its own |
| Catalogue.PushAttributes | src/XLWorkbook.cpp:69-106 | one element's name, sheetId and r:id are each pushed only when found |
| Catalogue.PairAsWritten | src/XLWorkbook.cpp:111-114 | the creation loop pairs the i-th name with the i-th id and r:id, reading past the end of a shorter list |
| Catalogue.NameOnlyReadsPastEnd | src/XLWorkbook.cpp:112-114 | a `<sheet>` with a name and no ids makes that loop read past the end |
| Catalogue.EntryOf | src/XLWorkbook.cpp:69-106 | an element with a name gives one entry, its missing ids read as "" |
| Catalogue.EntriesNamed | src/XLWorkbook.cpp:112-114 | the entries carry the catalogue's names, one for one |
| Catalogue.EntriesAgree | src/XLWorkbook.cpp:112-114 | where every element has all three attributes, pairing per element equals pairing the lists |
| Catalogue.UnnamedSkipped | src/XLWorkbook.cpp:69-80 | an element without a name makes no sheet |
| Catalogue.UnnamedShiftsIds | src/XLWorkbook.cpp:61-114 | with no list too short, an unnamed element that has both ids still shifts them: the creation loop gives the next named sheet that element's ids, where pairing per element gives it its own |
| SheetSave.SheetTargetSpec | src/XLSheet.cpp:256-291 | the target found belongs to the first `<Relationship ` element whose Id is `rId` and whose Target reads |
| SheetSave.FindTarget | src/XLSheet.cpp:256-291 | the scan returns that target, or "" |
| SheetSave.FragmentEnd | src/XLSheet.cpp:338-349 | a fragment ends after the first "/>" at or after it, else after "</c>" |
| SheetSave.ScanFragments | src/XLSheet.cpp:334-372 | the fragment loop builds the map of the fragments, keyed by reference |
| SheetSave.FragmentsFromOverlay | src/XLSheet.cpp:335-372 | that map is the overlay of the fragments in order |
| SheetSave.FragmentsFromStart | src/XLSheet.cpp:331-336 | starting from an empty map |
| SheetSave.FragmentsShaped | src/XLSheet.cpp:336-351 | every fragment starts with `<c ` and ends with ">" |
| SheetSave.FragmentMapKeys | src/XLSheet.cpp:366-369 | a reference is in the map exactly when some fragment has it |
| SheetSave.FragmentMapLastWins | src/XLSheet.cpp:368 | a repeated reference keeps its last fragment |
| SheetSave.FragmentEntrySpec | src/XLSheet.cpp:353-369 | a fragment is keyed exactly by a non-empty first `r="` value |
| SheetSave.CellXmlKeyedByRef | src/XLSheet.cpp:388-402 | a written fragment's reference reads back |
| SheetSave.CellXmlShape | src/XLSheet.cpp:388-400 | a written fragment starts with `<c ` and ends with "</c>" and a newline |
| SheetSave.MergeSpec | src/XLSheet.cpp:375-404 | a data cell's fragment wins, every other reference keeps the part's fragment, and nothing else is added |
| SheetSave.MergeCells | src/XLSheet.cpp:374-403 | the loop over the data cells, writing each one's fragment over `cellXmlMap`, computes `Merge`, whatever order the references are visited in |
| SheetSave.EmitAscending | src/XLSheet.cpp:406-414 | the fragments are concatenated in ascending reference order |
| SheetSave.Locate | src/XLSheet.cpp:313-325 | the section is the first "<sheetData>" and the first "</sheetData>" after it |
| SheetSave.LocateFails | src/XLSheet.cpp:313-325 | save fails exactly with no open tag, no close tag after it, or a part that ends right at the close tag (substr past the end throws) |
| SheetSave.RebuildSection | src/XLSheet.cpp:328-416 | the scan, merge and emit loops compute the new body |
| SheetSave.SaveSheetText | src/XLSheet.cpp:313-419 | the new text of the part is `SavedText` |
| SheetSave.ReplaceSection | src/XLSheet.cpp:328-419 | the rebuilt section is spliced in place |
| SheetSave.SavedTextOfSection | src/XLSheet.cpp:419 | the saved text of a located section |
| SheetSave.SavedTextFails | src/XLSheet.cpp:313-325 | the save fails as the lookup does |
| SheetSave.SpliceKeepsOutside | src/XLSheet.cpp:419 | the text before the section is kept, and so is the text from the second character after "</sheetData>" |
| SheetSave.DropsCharacterAfterSection | src/XLSheet.cpp:419 | the character right after "</sheetData>" is lost |
| SheetSave.EmptySectionBody | src/XLSheet.cpp:334-372 | a section without `<c ` keeps no fragment |
| SheetSave.LocateEmptySection | src/XLSheet.cpp:313-325 | an empty section at the start of the part is located |
| SheetSave.NoCellInEmptySection | src/XLSheet.cpp:336 | an empty section has no `<c ` |
| StringOrder.SortKeys | src/XLSheet.cpp:407-408 | the keys in ascending string order |
| StringOrder.ReferenceOrderIsTextual | src/XLSheet.cpp:407-408 | the order is textual: "AA1" sorts before "B1" and "A10" before "A2" |
| StringOrder.LessTotal | src/XLSheet.cpp:408 | any two distinct references are ordered |
| StringOrder.LessTransitive | src/XLSheet.cpp:408 | the order is transitive |
| StringOrder.SortedAscending | src/XLSheet.cpp:407-408 | the sorted keys are strictly ascending |
| StringOrder.SortedMembers | src/XLSheet.cpp:407 | the sorted keys are the map's keys |
| PictureReaders.PictureReader.constructor | src/XLPictureReader.cpp:13 | no path, no directory, neither flag |
| PictureReaders.PictureReader.Open | src/XLPictureReader.cpp:16-23 | close, then remember the path; the directory will be the reader's own |
| PictureReaders.PictureReader.Attach | src/XLPictureReader.cpp:25-33 | close, then use the given directory without owning it |
| PictureReaders.PictureReader.Close | src/XLPictureReader.cpp:35-41 | an owned directory is forgotten, an attached one kept; path and flags cleared |
| PictureReaders.PictureReader.IsOpen | src/XLPictureReader.cpp:43-46 | open exactly when a path is held |
| PictureReaders.PictureReader.TempDirAfter | src/XLPictureReader.cpp:48-63 | the directory after ensureTempDir: the one held, a new one only for an owning reader whose archive extracts, else "" |
| PictureReaders.PictureReader.EnsureTempDir | src/XLPictureReader.cpp:48-63 | the directory becomes `TempDirAfter`, and true exactly when it is set |
| PictureReaders.UnzipDir | src/XLPictureReader.cpp:55 | the extraction directory is never "" |
| PictureReaders.PictureReader.GetTempDir | src/XLPictureReader.cpp:65-69 | the directory, "" when it cannot be had |
| PictureReaders.PictureReader.CleanupTempDir | src/XLPictureReader.cpp:71-80 | the directory is forgotten |
| PictureReaders.ReopenAfterAttach | src/XLPictureReader.cpp:16-41 | after attach and close, open reuses the attached directory instead of extracting the new archive |
| PictureReaders.PictureReader.SheetDrawingPictures | src/XLPictureReader.cpp:82-104 | nothing when not open or without a drawing; otherwise that drawing's pictures |
| PictureReaders.PictureReader.GetPictureRaw | src/XLPictureReader.cpp:106-136 | the bytes of the first picture at `ref`; nothing when not open, no picture is there, both entries are empty, or reading the drawing throws |
| PictureReaders.RawOfFirst | src/XLPictureReader.cpp:111-133 | the first picture at `ref` decides, and none means nothing |
| PictureReaders.EntryDir | src/XLPictureReader.cpp:113-118 | a climbing path with "/media" is "media", and so is an empty one; any other is kept |
| PictureReaders.EntryData | src/XLPictureReader.cpp:119-131 | the first entry that is not empty, then the xl/media fallback, else nothing |
| PictureReaders.PictureReader.FindDrawingPathForSheet | src/XLPictureReader.cpp:138-156 | the drawing's path below the directory, "" without one |
| PictureReaders.DrawingPathFor | src/XLPictureReader.cpp:138-156 | "xl/drawings/drawing{i+1}.xml" exactly when the directory and that file exist |
| PictureReaders.FallbackIsNumbered | src/XLPictureReader.cpp:148-151 | the fallback for sheet 0 names the file the numbered path already names |
| PictureReaders.CandidateIsNumbered | src/XLPictureReader.cpp:145-152 | so the path settled on is always the numbered one |
| PictureReaders.NumberedPath | src/XLPictureReader.cpp:145-146 | under a directory without a trailing separator the path is the plain concatenation |
| PictureReaders.DrawingPathAsWritten | src/XLPictureReader.cpp:154-155 | the found path with its first `|tempDir| + 1` characters cut off |
| PictureReaders.TrailingSeparatorCutsPath | src/XLPictureReader.cpp:155 | a directory given with a trailing separator loses the "x" of "xl" |
| PictureReaders.DrawingPathAgrees | src/XLPictureReader.cpp:155 | without a trailing separator, the cut and the intended path agree |
| PictureReaders.PictureReader.ParseDrawing | src/XLPictureReader.cpp:158-361 | both parsers: the image map of the drawing's relationships, then the anchors in order |
| PictureReaders.ImageMapKeys | src/XLPictureReader.cpp:172-183 | an Id is mapped exactly when some relationship whose Type mentions "image" has it |
| PictureReaders.ImageMapLastWins | src/XLPictureReader.cpp:179 | a repeated Id keeps its last Target |
| PictureReaders.ReadImageRels | src/XLPictureReader.cpp:176-181 | the loop builds exactly that map |
| PictureReaders.ImagePlace | src/XLPictureReader.cpp:228-245 | the directory is never left as "../media" |
| PictureReaders.ImagePlaceOfMedia | src/XLPictureReader.cpp:228-245 | a drawing in xl/drawings that names "../media/f" places f in "media" |
| PictureReaders.MediaTargetResolves | src/XLPictureReader.cpp:231 | "../media/f" next to xl/drawings normalises to xl/media/f |
| PictureReaders.MediaIsBelowXl | src/XLPictureReader.cpp:238-240 | xl/media relative to xl is "media" |
| PictureReaders.InfoOf | src/XLPictureReader.cpp:246-250 | getPictures' record: the reference, file name and directory |
| PictureReaders.SheetPictureOf | src/XLPictureReader.cpp:347-352 | getSheetPictures' record: its numbers agree with its texts, and letters plus row text are the reference |
| PictureReaders.ReaderWithBuilds | src/XLPictureReader.cpp:224-252 | reading with any builder is reading the placed anchor and building from it |
| PictureReaders.ReaderWithBuildsAt | src/XLPictureReader.cpp:224-252 | the same for one anchor |
| PictureReaders.SheetPicturesMatchPictures | src/XLPictureReader.cpp:260-361 | both parsers fail together, and otherwise give records that correspond one for one |
| OpenXlsxWrapper.SheetCount | src/OpenXLSXWrapper.cpp:44-50 | 0 without a document, else the number of names |
| OpenXlsxWrapper.SheetName | src/OpenXLSXWrapper.cpp:52-60 | the name at the index, "" without a document or past the end |
| OpenXlsxWrapper.SheetIndex | src/OpenXLSXWrapper.cpp:62-74 | nothing without a document; else the first index holding the name |
| OpenXlsxWrapper.FirstIndexSpec | src/OpenXLSXWrapper.cpp:67-71 | a name is found exactly when present, and then at its first position |
| OpenXlsxWrapper.FirstIndexUnique | src/OpenXLSXWrapper.cpp:67-71 | only one position is the first one |
| OpenXlsxWrapper.IndexOfNameRoundTrip | src/OpenXLSXWrapper.cpp:52-74 | name to index to name gives the name back, and the index too when names are distinct |
| OpenXlsxWrapper.NormalizeColor | src/OpenXLSXWrapper.cpp:113-115 | one leading '#' dropped, whatever the length; "FF" put before exactly six remaining characters; everything else passed on unchanged |
| OpenXlsxWrapper.NormalizeColorSettles | src/OpenXLSXWrapper.cpp:113-115 | normalising again changes nothing unless the result still starts with '#' |
| OpenXlsxWrapper.BorderColor | src/OpenXLSXWrapper.cpp:132-134 | opaque black when no colour is given |
| OpenXlsxWrapper.BorderLine | src/OpenXLSXWrapper.cpp:123-131 | no line exactly for CellBorderStyle::None |
| OpenXlsxWrapper.BorderLineInjective | src/OpenXLSXWrapper.cpp:126-130 | distinct border styles give distinct line styles |
| OpenXlsxWrapper.PlanStyle | src/OpenXLSXWrapper.cpp:103-170 | a fill exactly when a background is given; a border on all sides exactly when one is asked for |
| ImageSize.BE16 | demos/demo_use_wrapper.cpp:64 | two bytes, high first, fit in 16 bits |
| ImageSize.BE32 | demos/demo_use_wrapper.cpp:50-51 | four bytes fit in 32 bits |
| ImageSize.Int32Of | demos/demo_use_wrapper.cpp:50-51 | the 32 bits stored in an int are read as two's complement |
| ImageSize.PngSize | demos/demo_use_wrapper.cpp:44-53 | a size exactly for at least 24 bytes that start with the signature |
| ImageSize.PngRoundTrip | demos/demo_use_wrapper.cpp:44-53 | an IHDR header reads back its width and height |
| ImageSize.JpegScanAsWritten | demos/demo_use_wrapper.cpp:55-76 | the marker walk with the guard as written |
| ImageSize.JpegGuardOffByOne | demos/demo_use_wrapper.cpp:67-70 | a ten-byte prefix passes the guard and reads one byte past the end |
| ImageSize.JpegSize | demos/demo_use_wrapper.cpp:55-76 | the walk loop computes the guarded scan |
| ImageSize.GuardedAgrees | demos/demo_use_wrapper.cpp:55-76 | wherever the code as written stays inside the buffer, the guarded walk finds the same |
| ImageSize.JpegRoundTrip | demos/demo_use_wrapper.cpp:55-76 | a start-of-frame header reads back its width and height |
| ImageSize.JpegFoundInside | demos/demo_use_wrapper.cpp:66-71 | a size comes from a start-of-frame header inside the buffer |
| ImageSize.SniffSize | demos/demo_use_wrapper.cpp:78-81 | PNG first, JPEG only when that fails |
| TemplateCreator.Hex2 | src/tools/XLTemplateCreator.cpp:26 | exactly two hex digits whose value is the byte |
| TemplateCreator.HexDigitValue | src/tools/XLTemplateCreator.cpp:26 | a digit reads back its value |
| TemplateCreator.PrintBytes | src/tools/XLTemplateCreator.cpp:24-29 | the byte loop prints `Pieces` |
| TemplateCreator.Run | src/tools/XLTemplateCreator.cpp:6-33 | exit code 1 and no output without exactly one argument or an openable file; otherwise 0 and header, body and footer |
| TemplateCreator.BodyRoundTrip | src/tools/XLTemplateCreator.cpp:24-29 | the printed body, without layout, decodes back to the bytes |
| TemplateCreator.StrippedBody | src/tools/XLTemplateCreator.cpp:24-29 | without layout the body is the literals joined by "," |
| TemplateCreator.LineBreaks | src/tools/XLTemplateCreator.cpp:28 | the first k bytes print k / 20 line breaks |
| TemplateCreator.PieceBreaks | src/tools/XLTemplateCreator.cpp:25-28 | a byte's piece holds a line break exactly after every twentieth byte |
| Text.Find | src/XLSheet.cpp:258-260 | `find` gives a position at or after `from` where the pattern fits |
| Text.FindSpec | src/XLSheet.cpp:258-260 | the position found is the first occurrence, and none means no occurrence |
| Text.AttrSpec | src/XLSheet.cpp:265-272 | an attribute value holds no quote and follows its key |
| Text.AttrReadsWritten | src/XLSheet.cpp:354-364 | a value written after its key reads back |
| Text.Decimal | src/XLDrawing.cpp:121 | `to_string` gives digits without a leading zero |
| Text.DecimalValue | src/XLDrawing.cpp:121 | the digits read back to the number |
| Text.StoI | src/XLDrawing.cpp:91 | `stoi` gives an int in range, or throws |
| Text.StoUL | src/XLCellData.cpp:18 | `stoul` gives an unsigned long, or throws |
| Text.StoIOfDecimal | src/XLDrawing.cpp:91 | `stoi` of a written number reads it back |
| Text.StoULOfDecimal | src/XLCellData.cpp:18 | `stoul` of a written number reads it back |
| Text.NoDigitsNoNumber | src/XLCellData.cpp:18 | text without digits makes both throw |
| TagScan.NextTag | src/XLWorkbook.cpp:62-67 | one element of the scan, and the rest of the scan after it |
| TagScan.CollectEntries | src/XLDrawing.cpp:26-57 | the element loop builds the last-wins map of the entries |
| TagScan.FindFirst | src/XLSheet.cpp:258-291 | the element loop that breaks at the first readable element |
| TagScan.TagsDelimited | src/XLWorkbook.cpp:64-67 | every element cut out starts with the open and ends with the close text |
| XmlModel.ReadFile | src/XLSheet.cpp:246-254 | a file reads exactly when its normalised path is present |
| XmlModel.WriteFile | src/XLSheet.cpp:422-432 | the written file reads back, and no other file changes |
| XmlModel.RemoveTree | src/XLDocument.cpp:111 | exactly the files under the directory are removed, the others kept unchanged |
| XmlModel.RemovedTree | src/XLDocument.cpp:111 | a file under the removed tree no longer reads; any other reads as before |
| Paths.Join | src/XLCellPicture.cpp:34 | an absolute second path replaces the first; otherwise one separator joins them |
| Paths.FileName | src/XLDrawing.cpp:127-129 | the file name is the text after the last separator |
| Paths.ParentThenName | src/XLDrawing.cpp:127-129 | a path is its parent, a separator and its file name |
| Paths.NormalIdempotent | src/XLSheet.cpp:174 | normalising a normal path changes nothing |
| Paths.NormalizeIsNormal | src/XLSheet.cpp:174 | `lexically_normal` leaves no "." and no ".." below a root |
| Paths.ReadBack | src/XLSheet.cpp:174 | a normal path's text normalises back to it |
| Paths.RelativeBelow | src/XLPictureReader.cpp:240 | a path below the base is relative to it as its remaining segments |
| Paths.RelativeAbove | src/XLPictureReader.cpp:240 | a base below the path gives one ".." per extra segment |

## Left out

- The wrapper-first branches of the workbook are not modelled: `XLWorkbook::load` builds sheets from the OpenXLSX wrapper when it is open (src/XLWorkbook.cpp:33-47). `getSheetCount` and `getSheetName` also ask the wrapper first (src/XLWorkbook.cpp:146-149, 156-163). The model follows the path taken when no wrapper is open. Those branches call OpenXLSX, which is not part of this model.
- `XLDocument::open` also opens an `OpenXLSXWrapper` (src/XLDocument.cpp:61-67), and its catch branches for the wrapper and the reader are not modelled. The model assumes the wrapper did not open. That outcome selects the workbook's no-wrapper branches, which the previous line scopes the model to; when the wrapper does open, `load`, `getSheetCount` and `getSheetName` take the wrapper-first branches left out there.
- The OpenXLSX calls of the wrapper are not modelled: open, close, isOpen, getCellValue, setCellValue, save, and the style-index bookkeeping of setCellStyle. OpenXLSX is not part of this model. Sheet lookup and the colour and border decisions of `setCellStyle` are modelled.
- The destructors of XLDocument, XLWorkbook and XLPictureReader are not modelled: memory is not modelled.
- pugixml is not modelled. Its view of a part is the `XmlParser` functions, and of the relationships parts, `XmlRel` values.
- `std::filesystem` paths are `/`-separated text. Symbolic links, the root name and other platforms' separators are not modelled, and `fs::exists` is presence in the `Files` map.
- Paths.Normalize: unlike `lexically_normal`, it drops a trailing separator ("a/b/" becomes "a/b" instead of staying "a/b/") and maps "" to "." instead of "". The library normalises joined paths that are meant to name files, and the model uses the normal form only as the key of a file; the two differ only on paths that name a directory or nothing.
- Package.Workbook.Load: the sheets are made from the corrected per-element pairing (`Catalogue.Entries`; see Findings). The source pairs `sheetNames[i]` with `sheetIds[i]` and `rIds[i]`. So a catalogue with a `<sheet>` missing an attribute gives a sheet other ids there (`Catalogue.UnnamedShiftsIds`), or reads past the end of a list (`Catalogue.NameOnlyReadsPastEnd`).
- Package.Workbook.LoadCatalogue: pairs per element where the source pairs by index, as for Load. Also, the source's creation loop runs over every name collected so far, so a second load of the same workbook recreates the sheets of the earlier names. Here only the new catalogue's entries are made; a document always loads a fresh workbook, so this only matters for a workbook loaded twice.
- PictureReaders.PictureReader.FindDrawingPathForSheet: returns the corrected path (`DrawingPathFor`; see Findings), not the `|tempDir| + 1` cut of the source. The two agree for a directory without a trailing separator (`DrawingPathAgrees`). For one with a trailing separator (attach's "/tmp/u/") the source hands on "l/drawings/…" (`TrailingSeparatorCutsPath`), which names no file.
- PictureReaders.PictureReader.SheetDrawingPictures: parses the drawing at the corrected path. Under a directory with a trailing separator the source finds no drawing and returns no pictures, where the model returns them.
- PictureReaders.PictureReader.GetPictureRaw: uses the corrected path too. Under a directory with a trailing separator the source returns nullopt, where the model returns the picture's bytes.
- PictureReaders.PictureReader.GetPictureRaw: the zip archive is the `entries` function, which reads a missing entry as "" and cannot fail. In the source, when `za.open` fails or `getEntry` throws, the result is nullopt and the fallback `xl/media/` entry is not tried; the model has no such failure and always goes on to the fallback when the first entry is empty.
- PictureReaders.PictureReader.CleanupTempDir: `fs::remove_all(tempDir)` is not modelled. The reader holds no file state, so the removal of the extracted files from disk is not captured; only the directory is forgotten.
- PictureReaders.PictureReader.Close: the same removal is not modelled. In the source, an attached reader that is closed and then opened owns the attached directory (`ReopenAfterAttach`), so its next close removes another owner's files, such as the document's. That deletion is not captured here.
- Package.Sheet.Save: a sheet part that ends right at `</sheetData>` makes `substr(dataEnd + 13)` throw `std::out_of_range`, which nothing catches. Here that is the `SpliceOutOfRange` error and a false return; in both, the part is not written.
- Package.Workbook.Save: that uncaught exception escapes the loop in the source; here it is a false return. The sheets saved before stay written in both.
- Package.Document.Save: the same exception escapes `save` in the source; here it is a false return. In both, the archive is not zipped and the document stays modified.
- Package.Document.SaveAs: the same exception escapes `saveAs` in the source; here it is a false return, with the path not recorded.
- The temporary directory, the clock reading that names it, creating it, unzipping, zipping and file writes are parameters (`OpenEnv`, `Unzip`, `writable`, `zip`). KFZippa is not part of this model.
- Package.Document.Create: the template file that `XLTemplate::createTemplate` writes is not modelled. The files the archive unzips to are an input, as for open.
- Package.Document.Close: the reader's own `close()` is not called; the reader is dropped with the document's reference to it. An attached reader owns nothing, so closing it would change no file.
- Package.Document.constructor: `isModified` starts false and `xlsxPath` starts empty. The class header gives them no initialiser.
- `open` never sets `xlsxPath`, so `save` zips to the path of the last `saveAs`. This is modelled as written.
- `create` does not set `isModified`. This is modelled as written.
- An exception from `std::stoi` inside a sheet's drawing escapes `XLSheet::load`, `XLWorkbook::load` and `XLDocument::open`. It is modelled as the `SheetThrew`, `WorkbookThrew` and `OpenThrew` outcomes. The sheet already created then leaks, which is not modelled.
- Package.Workbook.GetSheetName: reads the catalogue's names, as the source does. When a sheet was dropped, these do not line up with the loaded sheets.
- `int` and `size_t` overflow is modelled only in these places: `Int32Of` for the PNG words, `unsigned int` wrap-around in `DrawingFile`, and the `stoi`/`stoul` ranges. Elsewhere integers are unbounded; the lines below name the places where this changes a result.
- Drawings.AnchorPicture: the reference is `Letters(col) + Decimal(row + 1)` on unbounded integers. In the source `fromRow + 1` is a signed `int` addition (src/XLDrawing.cpp:121), so `<xdr:row>2147483647</xdr:row>` overflows it: the behaviour is undefined, and in practice it wraps to "-2147483648". The model gives "2147483648".
- PictureReaders.InfoOf: the same `std::to_string(fromRow + 1)` overflow (src/XLPictureReader.cpp:225) on `<xdr:row>2147483647</xdr:row>` is not modelled; the reference holds "2147483648".
- PictureReaders.SheetPictureOf: `sp.row`, `sp.rowNum = fromRow + 1` and `sp.colNum = fromCol + 1` (src/XLPictureReader.cpp:348-351) overflow `int` for a row or column of 2147483647; the model gives 2147483648 and its text.
- ImageSize.JpegSize: uses the guard `i + 6`, where the demo's `getJpegSize` has `i + 5` (see Findings). Where the two differ, the demo reads one byte past the buffer, which is undefined; the model reports no size there (`GuardedAgrees`).
- ImageSize.SniffSize: falls back on `JpegSize`, so it carries the same corrected guard.
- Console output (`std::cerr`, `std::cout` of the demo) is not modelled. The template tool's standard output is the text `Run` returns.
- src/MiniXLSX.cpp only forwards to the classes above and is not modelled.
- The demo's own control flow (trying candidate paths, printing) is not modelled. Its sheet lookup is `SheetIndex` and its size sniffing is `SniffSize`.

## Findings

| source | as written | input that shows it | evidently intended | confidence | as-written member | corrected member |
|---|---|---|---|---|---|---|
| src/XLWorkbook.cpp:112-114 | the creation loop indexes `sheetIds[i]` and `rIds[i]` for every name, though the scan fills the three lists independently | `<sheet name="S"/>`: a name with no sheetId and no r:id, so index 0 of an empty list is read | one sheet per named element, a missing id read as "" | not executed | Catalogue.NameOnlyReadsPastEnd | Catalogue.EntriesAgree |
| demos/demo_use_wrapper.cpp:67-70 | a start-of-frame segment is accepted when `i + 5 < size`, but the width's low byte is read at `i + 6` | the ten bytes `FF D8 FF C0 00 11 08 00 10 00`: the read is at index 10 of a 10-byte buffer | the guard `i + 6 < size` | not executed | ImageSize.JpegGuardOffByOne | ImageSize.GuardedAgrees |
| src/XLPictureReader.cpp:155 | the drawing's path is cut `|tempDir| + 1` characters in, assuming no trailing separator | attach with the directory "/tmp/u/": the path handed on is "l/drawings/drawing1.xml" | the path below the directory, "xl/drawings/drawing1.xml" | not executed | PictureReaders.TrailingSeparatorCutsPath | PictureReaders.DrawingPathAgrees |
