/** XLPictureReader: the pictures of a sheet read straight from the
    extracted package, without going through the sheet. The reader is
    either opened on an archive (it then extracts it into a directory of
    its own on first use) or attached to a directory another owner has
    already extracted. The drawing of sheet i is taken to be
    xl/drawings/drawing{i+1}.xml. */
module PictureReaders {
  import opened Wrappers
  import opened Text
  import opened Overlays
  import opened TagScan
  import opened XmlModel
  import opened Drawings
  import Paths
  import Columns

  /** SheetPicture: row number and column letters as text, both numbers
      one-based, and the image's path below xl/. */
  datatype SheetPicture = SheetPicture(row: string, col: string, rowNum: int, colNum: int, relativePath: string)

  // ---------------------------------------------------------------------
  // The image map

  /** A relationship enters the image map when its Type mentions "image". */
  function ImageEntry(rel: XmlRel): Option<(string, string)>
  {
    if Contains(rel.TypeText(), "image") then Some((rel.IdText(), rel.TargetText())) else None
  }

  /** Id -> Target over the image relationships; a repeated Id keeps the
      last Target. */
  function ImageMapOf(rels: seq<XmlRel>): map<string, string>
  {
    Overlay(map[], Keep(rels, ImageEntry))
  }

  /** Exactly the Ids of image relationships are mapped. */
  lemma ImageMapKeys(rels: seq<XmlRel>, id: string)
    ensures id in ImageMapOf(rels) <==>
              exists i :: 0 <= i < |rels| && Contains(rels[i].TypeText(), "image") && rels[i].IdText() == id
  {
    KeepOverlayKeys(rels, ImageEntry, id);
  }

  /** An Id maps to the Target of its last image relationship. */
  lemma ImageMapLastWins(rels: seq<XmlRel>, i: nat)
    requires i < |rels| && Contains(rels[i].TypeText(), "image")
    requires forall j :: i < j < |rels| && Contains(rels[j].TypeText(), "image") ==> rels[j].IdText() != rels[i].IdText()
    ensures rels[i].IdText() in ImageMapOf(rels)
    ensures ImageMapOf(rels)[rels[i].IdText()] == rels[i].TargetText()
  {
    KeepOverlayLast(rels, ImageEntry, i);
  }

  /** The relationships loop of the two drawing parsers. */
  method ReadImageRels(rels: seq<XmlRel>) returns (images: map<string, string>)
    ensures images == ImageMapOf(rels)
  {
    images := map[];
    for i := 0 to |rels|
      invariant images == Overlay(map[], Keep(rels[..i], ImageEntry))
    {
      assert rels[..i + 1] == rels[..i] + [rels[i]];
      KeepOverlaySnoc(rels[..i], rels[i], ImageEntry);
      if Contains(rels[i].TypeText(), "image") {
        images := images[rels[i].IdText() := rels[i].TargetText()];
      }
    }
    assert rels[..|rels|] == rels;
  }

  /** The image map of the drawing at `drawingFull`: empty unless its
      relationships part exists and parses. */
  function DrawingImages(disk: Files, parser: XmlParser, drawingFull: string): map<string, string>
  {
    match ParseRels(disk, parser, RelsPathOf(drawingFull))
    case None => map[]
    case Some(rels) => ImageMapOf(rels)
  }

  /** parent / "_rels" / (filename + ".rels"). */
  function RelsPathOf(drawingFull: string): string
  {
    Paths.Join(Paths.Join(Paths.ParentPath(drawingFull), "_rels"), Paths.FileName(drawingFull) + ".rels")
  }

  // ---------------------------------------------------------------------
  // Where an image lies

  /** The image's file name and its directory relative to `tempDir`/xl:
      the target is resolved against the drawing's directory and
      normalised, and a directory that comes out as exactly "../media" is
      rewritten to "media". */
  function ImagePlace(tempDir: string, drawingFull: string, target: string): (r: (string, string))
    ensures r.1 != "../media"
  {
    var abs := Paths.Normal(Paths.Join(Paths.ParentPath(drawingFull), target));
    var rel := Paths.Relative(Paths.ParentPath(abs), Paths.Join(tempDir, "xl"));
    (Paths.FileName(abs), if rel == "../media" then "media" else rel)
  }

  /** The usual layout: with the package extracted under a rooted
      directory, an image that a drawing in xl/drawings addresses as
      "../media/<file>" lies in "media". */
  lemma ImagePlaceOfMedia(t: seq<string>, drawing: string, file: string)
    requires t != [] && forall i :: 0 <= i < |t| ==> Paths.IsPlain(t[i])
    requires Paths.IsPlain(drawing) && Paths.IsPlain(file)
    ensures ImagePlace(Paths.Rooted(t), Paths.Rooted(t + ["xl", "drawings", drawing]), "../media/" + file) == (file, "media")
  {
    MediaTargetResolves(t, drawing, file);
    var abs := Paths.Rooted(t + ["xl", "media", file]);
    assert t + ["xl", "media", file] == (t + ["xl", "media"]) + [file];
    Paths.RootedParent(t + ["xl", "media"], file);
    MediaIsBelowXl(t);
  }

  /** The target resolved against the drawing's directory. */
  lemma MediaTargetResolves(t: seq<string>, drawing: string, file: string)
    requires t != [] && forall i :: 0 <= i < |t| ==> Paths.IsPlain(t[i])
    requires Paths.IsPlain(drawing) && Paths.IsPlain(file)
    ensures Paths.Normal(Paths.Join(Paths.ParentPath(Paths.Rooted(t + ["xl", "drawings", drawing])), "../media/" + file))
            == Paths.Rooted(t + ["xl", "media", file])
  {
    var drawings := t + ["xl", "drawings"];
    assert t + ["xl", "drawings", drawing] == drawings + [drawing];
    Paths.RootedParent(drawings, drawing);
    MediaTargetJoins(drawings, file);
    MediaTargetNormal(t, file);
  }

  lemma MediaTargetJoins(drawings: seq<string>, file: string)
    requires drawings != [] && forall i :: 0 <= i < |drawings| ==> Paths.IsPlain(drawings[i])
    ensures Paths.Join(Paths.Rooted(drawings), "../media/" + file) == Paths.Rooted(drawings + ["..", "media", file])
  {
    assert Paths.JoinSegs(["media", file]) == "media" + "/" + file;
    assert ["..", "media", file][1..] == ["media", file];
    assert "../media/" + file == Paths.JoinSegs(["..", "media", file]);
    Paths.RootedJoin(drawings, ["..", "media", file]);
  }

  lemma MediaTargetNormal(t: seq<string>, file: string)
    requires forall i :: 0 <= i < |t| ==> Paths.IsPlain(t[i])
    requires Paths.IsPlain(file)
    ensures Paths.Normal(Paths.Rooted(t + ["xl", "drawings"] + ["..", "media", file])) == Paths.Rooted(t + ["xl", "media", file])
  {
    assert t + ["xl", "drawings"] + ["..", "media", file] == (t + ["xl"]) + ["drawings", ".."] + ["media", file];
    Paths.NormalClimb(t + ["xl"], "drawings", ["media", file]);
    assert (t + ["xl"]) + ["media", file] == t + ["xl", "media", file];
  }

  /** The media directory seen from `tempDir`/xl. */
  lemma MediaIsBelowXl(t: seq<string>)
    requires t != [] && forall i :: 0 <= i < |t| ==> Paths.IsPlain(t[i])
    ensures Paths.Relative(Paths.Rooted(t + ["xl", "media"]), Paths.Join(Paths.Rooted(t), "xl")) == "media"
  {
    assert Paths.JoinSegs(["xl"]) == "xl";
    Paths.RootedJoin(t, ["xl"]);
    Paths.NormalRooted(t + ["xl", "media"]);
    Paths.NormalRooted(t + ["xl"]);
    assert (t + ["xl"]) + ["media"] == t + ["xl", "media"];
    Paths.RelativeBelow(true, t + ["xl"], ["media"]);
    assert Paths.JoinSegs(["media"]) == "media";
  }

  // ---------------------------------------------------------------------
  // The two record shapes

  /** getPictures' record of an accepted anchor. */
  function InfoOf(col: nat, row: nat, fileName: string, relPath: string): (p: PictureInfo)
    ensures p.ref == CellRef(col, row) && p.fileName == fileName && p.relativePath == relPath
  {
    PictureInfo(CellRef(col, row), fileName, relPath)
  }

  /** getSheetPictures' record of an accepted anchor: its numbers agree with
      its texts. */
  function SheetPictureOf(col: nat, row: nat, fileName: string, relPath: string): (p: SheetPicture)
    ensures Columns.AllUpper(p.col) && Columns.ColumnOf(p.col) + 1 == p.colNum == col + 1
    ensures p.row == Decimal(row + 1) && p.rowNum == row + 1
    ensures p.col + p.row == CellRef(col, row)
    ensures p.relativePath == relPath + "/" + fileName
  {
    Columns.ColumnOfLetters(col);
    SheetPicture(Decimal(row + 1), Columns.Letters(col), row + 1, col + 1, relPath + "/" + fileName)
  }

  /** Both parsers read an anchor the same way: stoi may throw; an accepted
      anchor's picture is located and built with `build`. */
  function ReaderWith<P>(images: map<string, string>, tempDir: string, drawingFull: string,
                         build: (nat, nat, string, string) -> P): AnchorReader<P>
  {
    (t: string) => ReadWith(images, tempDir, drawingFull, build, t)
  }

  /** One anchor's text `t` read by ReaderWith. */
  function ReadWith<P>(images: map<string, string>, tempDir: string, drawingFull: string,
                       build: (nat, nat, string, string) -> P, t: string): Result<Option<P>, StoiFailure>
  {
    match ReadAnchor(t)
    case Err(x) => Err(x)
    case Ok(a) =>
      Ok(if Accepted(a, images) then
           var place := ImagePlace(tempDir, drawingFull, images[a.embed]);
           Some(build(a.col, a.row, place.0, place.1))
         else None)
  }

  /** What both records are built from: column, row, file name and
      directory. */
  function Placed(col: nat, row: nat, fileName: string, relPath: string): (nat, nat, string, string)
  {
    (col, row, fileName, relPath)
  }

  /** Reading with any builder is reading the placed anchor and building
      from it. */
  lemma ReaderWithBuilds<P>(images: map<string, string>, tempDir: string, drawingFull: string,
                            build: (nat, nat, string, string) -> P, f: ((nat, nat, string, string)) -> P)
    requires forall q: (nat, nat, string, string) :: f(q) == build(q.0, q.1, q.2, q.3)
    ensures MapsReader(ReaderWith(images, tempDir, drawingFull, Placed), ReaderWith(images, tempDir, drawingFull, build), f)
  {
    forall t
      ensures ReaderWith(images, tempDir, drawingFull, build)(t)
              == (match ReaderWith(images, tempDir, drawingFull, Placed)(t)
                  case Err(x) => Err(x)
                  case Ok(o) => Ok(if o.Some? then Some(f(o.value)) else None))
    {
      ReaderWithBuildsAt(images, tempDir, drawingFull, build, f, t);
    }
  }

  /** The same for one anchor's text `t`. */
  lemma ReaderWithBuildsAt<P>(images: map<string, string>, tempDir: string, drawingFull: string,
                              build: (nat, nat, string, string) -> P, f: ((nat, nat, string, string)) -> P, t: string)
    requires forall q: (nat, nat, string, string) :: f(q) == build(q.0, q.1, q.2, q.3)
    ensures ReadWith(images, tempDir, drawingFull, build, t)
            == (match ReadWith(images, tempDir, drawingFull, Placed, t)
                case Err(x) => Err(x)
                case Ok(o) => Ok(if o.Some? then Some(f(o.value)) else None))
  {
    match ReadAnchor(t)
    case Err(x) =>
    case Ok(a) =>
      if Accepted(a, images) {
        var place := ImagePlace(tempDir, drawingFull, images[a.embed]);
        assert f(Placed(a.col, a.row, place.0, place.1)) == build(a.col, a.row, place.0, place.1);
      }
  }

  // ---------------------------------------------------------------------
  // The drawing part of a sheet

  /** "drawings/drawing{n}.xml" for the one-based sheet number n, computed
      in unsigned 32-bit arithmetic. */
  function DrawingFile(sheetIndex: nat): (r: string)
    requires sheetIndex < 0x1_0000_0000
  {
    "drawings/drawing" + Decimal((sheetIndex + 1) % 0x1_0000_0000) + ".xml"
  }

  /** fs::exists over the extracted files. */
  predicate Exists(disk: Files, path: string)
  {
    ReadFile(disk, path).Some?
  }

  /** The drawing path findDrawingPathForSheet computes, and the file it
      settles on: the numbered drawing, or for sheet 0 drawing1.xml. */
  function DrawingCandidate(tempDir: string, sheetIndex: nat, disk: Files): string
    requires sheetIndex < 0x1_0000_0000
  {
    var xl := Paths.Join(tempDir, "xl");
    var numbered := Paths.Join(xl, DrawingFile(sheetIndex));
    if !Exists(disk, numbered) && sheetIndex == 0 then
      var alt := Paths.Join(Paths.Join(xl, "drawings"), "drawing1.xml");
      if Exists(disk, alt) then alt else numbered
    else numbered
  }

  /** The fallback for sheet 0 names the file the numbered path already
      names. */
  lemma FallbackIsNumbered(tempDir: string)
    ensures Paths.Join(Paths.Join(Paths.Join(tempDir, "xl"), "drawings"), "drawing1.xml")
            == Paths.Join(Paths.Join(tempDir, "xl"), DrawingFile(0))
  {
    assert DrawingFile(0) == "drawings/drawing1.xml" by {
      assert Decimal(1) == "1";
    }
    assert "drawings" + "/" + "drawing1.xml" == "drawings/drawing1.xml";
    Paths.JoinNested(Paths.Join(tempDir, "xl"), "drawings", "drawing1.xml");
  }

  /** So the file settled on is always the numbered one. */
  lemma CandidateIsNumbered(tempDir: string, sheetIndex: nat, disk: Files)
    requires sheetIndex < 0x1_0000_0000
    ensures DrawingCandidate(tempDir, sheetIndex, disk) == Paths.Join(Paths.Join(tempDir, "xl"), DrawingFile(sheetIndex))
  {
    FallbackIsNumbered(tempDir);
  }

  /** The numbered path under a directory not ending in a separator. */
  lemma NumberedPath(tempDir: string, sheetIndex: nat)
    requires sheetIndex < 0x1_0000_0000
    requires tempDir != "" && tempDir[|tempDir| - 1] != '/'
    ensures Paths.Join(Paths.Join(tempDir, "xl"), DrawingFile(sheetIndex)) == tempDir + "/xl" + "/" + DrawingFile(sheetIndex)
  {
    Paths.JoinPlainly(tempDir, "xl");
    Paths.JoinPlainly(tempDir + "/xl", DrawingFile(sheetIndex));
  }

  /** As written: the found path with its first |tempDir| + 1 characters
      cut off, "" when no temporary directory or no drawing exists. */
  function DrawingPathAsWritten(tempDir: string, sheetIndex: nat, disk: Files): (r: string)
    requires sheetIndex < 0x1_0000_0000
  {
    var path := DrawingCandidate(tempDir, sheetIndex, disk);
    if tempDir == "" || !Exists(disk, path) || |path| < |tempDir| + 1 then ""
    else path[|tempDir| + 1..]
  }

  /** A temporary directory given with a trailing separator (attach's
      "/tmp/u/", say) loses the "x" of "xl": the path handed on names a
      directory that does not exist. */
  lemma TrailingSeparatorCutsPath(tempDir: string, sheetIndex: nat, disk: Files)
    requires sheetIndex < 0x1_0000_0000
    requires tempDir != "" && tempDir[|tempDir| - 1] == '/'
    requires Exists(disk, DrawingCandidate(tempDir, sheetIndex, disk))
    ensures DrawingPathAsWritten(tempDir, sheetIndex, disk) == "l/" + DrawingFile(sheetIndex)
  {
    CandidateIsNumbered(tempDir, sheetIndex, disk);
    Paths.JoinPlainly(tempDir + "xl", DrawingFile(sheetIndex));
    var path := DrawingCandidate(tempDir, sheetIndex, disk);
    assert path == tempDir + "xl" + "/" + DrawingFile(sheetIndex);
    assert path[|tempDir| + 1..] == "l/" + DrawingFile(sheetIndex);
  }

  /** The drawing's path below the temporary directory, whatever form the
      directory was given in. */
  function DrawingPathFor(tempDir: string, sheetIndex: nat, disk: Files): (r: string)
    requires sheetIndex < 0x1_0000_0000
    ensures r != "" ==> r == "xl/" + DrawingFile(sheetIndex)
    ensures r != "" <==> tempDir != "" && Exists(disk, DrawingCandidate(tempDir, sheetIndex, disk))
  {
    if tempDir == "" || !Exists(disk, DrawingCandidate(tempDir, sheetIndex, disk)) then ""
    else "xl/" + DrawingFile(sheetIndex)
  }

  /** Where the code's cut and the intended path agree: a directory not
      ending in a separator. */
  lemma DrawingPathAgrees(tempDir: string, sheetIndex: nat, disk: Files)
    requires sheetIndex < 0x1_0000_0000
    requires tempDir != "" && tempDir[|tempDir| - 1] != '/'
    ensures DrawingPathAsWritten(tempDir, sheetIndex, disk) == DrawingPathFor(tempDir, sheetIndex, disk)
  {
    CandidateIsNumbered(tempDir, sheetIndex, disk);
    NumberedPath(tempDir, sheetIndex);
    var path := DrawingCandidate(tempDir, sheetIndex, disk);
    assert path[|tempDir| + 1..] == "xl/" + DrawingFile(sheetIndex);
  }

  /** The drawing part's pictures as the parsers find them: none without a
      temporary directory or without the part; a failure when stoi
      throws. */
  function DrawingPictures<P>(tempDir: string, drawingPath: string, disk: Files, parser: XmlParser,
                              build: (nat, nat, string, string) -> P): Result<seq<P>, StoiFailure>
  {
    var full := Paths.Join(tempDir, drawingPath);
    if tempDir == "" then Ok([])
    else match ReadFile(disk, full)
      case None => Ok([])
      case Some(content) =>
        var scan := ScanAnchors(Tags(content, AnchorOpen, AnchorClose, 0),
                                ReaderWith(DrawingImages(disk, parser, full), tempDir, full, build));
        if scan.threw then Err(StoiFailure) else Ok(scan.pictures)
  }

  /** Both parsers find the same anchors: each sheet picture is the picture
      record's reference split into letters and number and its directory
      and file name joined. */
  lemma SheetPicturesMatchPictures(tempDir: string, drawingPath: string, disk: Files, parser: XmlParser)
    ensures DrawingPictures(tempDir, drawingPath, disk, parser, SheetPictureOf).Err?
            <==> DrawingPictures(tempDir, drawingPath, disk, parser, InfoOf).Err?
    ensures var ps := DrawingPictures(tempDir, drawingPath, disk, parser, InfoOf);
            var ss := DrawingPictures(tempDir, drawingPath, disk, parser, SheetPictureOf);
            ps.Ok? ==> (|ss.value| == |ps.value| &&
                        forall i :: 0 <= i < |ps.value| ==>
                          ss.value[i].col + ss.value[i].row == ps.value[i].ref &&
                          ss.value[i].relativePath == ps.value[i].relativePath + "/" + ps.value[i].fileName)
  {
    var full := Paths.Join(tempDir, drawingPath);
    if tempDir != "" && ReadFile(disk, full).Some? {
      var images := DrawingImages(disk, parser, full);
      var tags := Tags(ReadFile(disk, full).value, AnchorOpen, AnchorClose, 0);
      var placed := ReaderWith(images, tempDir, full, Placed);
      var info := (q: (nat, nat, string, string)) => InfoOf(q.0, q.1, q.2, q.3);
      var sheet := (q: (nat, nat, string, string)) => SheetPictureOf(q.0, q.1, q.2, q.3);
      ReaderWithBuilds(images, tempDir, full, InfoOf, info);
      ReaderWithBuilds(images, tempDir, full, SheetPictureOf, sheet);
      ScanAnchorsMap(tags, placed, ReaderWith(images, tempDir, full, InfoOf), info);
      ScanAnchorsMap(tags, placed, ReaderWith(images, tempDir, full, SheetPictureOf), sheet);
    }
  }

  // ---------------------------------------------------------------------
  // The entry of a picture inside the archive

  /** The directory getPictureRaw looks in: a relative path that climbs out
      ("..") towards a media directory is taken to be "media", and so is an
      empty one. */
  function EntryDir(rel: string): (r: string)
    ensures r != ""
    ensures |rel| >= 2 && rel[..2] == ".." && Contains(rel, "/media") ==> r == "media"
    ensures rel == "" ==> r == "media"
    ensures rel != "" && !(|rel| >= 2 && rel[..2] == ".." && Contains(rel, "/media")) ==> r == rel
  {
    var climbed := if |rel| >= 2 && rel[..2] == ".." && Contains(rel, "/media") then "media" else rel;
    if climbed == "" then "media" else climbed
  }

  /** The entry looked up first, and the one tried when that is missing or
      empty. */
  function EntryPath(p: PictureInfo): string
  {
    "xl/" + EntryDir(p.relativePath) + "/" + p.fileName
  }

  function FallbackEntry(p: PictureInfo): string
  {
    "xl/media/" + p.fileName
  }

  /** The bytes of a picture through the archive's entry reader (which
      gives "" for a missing entry): the first entry that is not empty, or
      nothing. */
  function EntryData(p: PictureInfo, entries: string -> string): (r: Option<string>)
    ensures r.Some? ==> r.value != ""
    ensures r.Some? <==> entries(EntryPath(p)) != "" || entries(FallbackEntry(p)) != ""
    ensures entries(EntryPath(p)) != "" ==> r == Some(entries(EntryPath(p)))
  {
    var data := entries(EntryPath(p));
    var data' := if data == "" then entries(FallbackEntry(p)) else data;
    if data' == "" then None else Some(data')
  }

  /** The first picture anchored at `ref` decides: its data, or nothing. */
  function RawOf(pics: seq<PictureInfo>, ref: string, entries: string -> string): (r: Option<string>)
    decreases |pics|
  {
    if pics == [] then None
    else if pics[0].ref == ref then EntryData(pics[0], entries)
    else RawOf(pics[1..], ref, entries)
  }

  /** RawOf reads the first picture at `ref`, and nothing without one. */
  lemma {:induction false} RawOfFirst(pics: seq<PictureInfo>, ref: string, entries: string -> string)
    ensures (forall i :: 0 <= i < |pics| ==> pics[i].ref != ref) ==> RawOf(pics, ref, entries) == None
    ensures forall i :: 0 <= i < |pics| && pics[i].ref == ref && (forall j :: 0 <= j < i ==> pics[j].ref != ref) ==>
              RawOf(pics, ref, entries) == EntryData(pics[i], entries)
    decreases |pics|
  {
    if pics != [] && pics[0].ref != ref {
      RawOfFirst(pics[1..], ref, entries);
      forall i | 0 <= i < |pics| && pics[i].ref == ref && (forall j :: 0 <= j < i ==> pics[j].ref != ref)
        ensures RawOf(pics, ref, entries) == EntryData(pics[i], entries)
      {
        assert pics[1..][i - 1] == pics[i];
        forall j | 0 <= j < i - 1
          ensures pics[1..][j].ref != ref
        {
          assert pics[1..][j] == pics[j + 1];
        }
      }
      if forall i :: 0 <= i < |pics| ==> pics[i].ref != ref {
        forall j | 0 <= j < |pics| - 1
          ensures pics[1..][j].ref != ref
        {
          assert pics[1..][j] == pics[j + 1];
        }
      }
    }
  }

  // ---------------------------------------------------------------------
  // The reader

  /** What extracting the archive takes from the environment: the system's
      temporary directory, the clock reading that names the new directory,
      and whether creating it and unzipping into it succeed. */
  datatype Unzip = Unzip(tempRoot: string, stamp: nat, extracted: bool)

  /** temp_directory_path() / ("minixlsx_unzip_" + stamp). */
  function UnzipDir(env: Unzip): (r: string)
    ensures r != ""
  {
    Paths.Join(env.tempRoot, "minixlsx_unzip_" + Decimal(env.stamp))
  }

  class PictureReader {
    var openedPath: string
    var tempDir: string
    var ownsTempDir: bool
    var attached: bool

    constructor ()
      ensures openedPath == "" && tempDir == "" && !ownsTempDir && !attached
    {
      openedPath := "";
      tempDir := "";
      ownsTempDir := false;
      attached := false;
    }

    /** isOpen: a path has been given. */
    function IsOpen(): (r: bool)
      reads this
      ensures r <==> openedPath != ""
    {
      openedPath != ""
    }

    /** The temporary directory once ensureTempDir has run: the one already
        set; otherwise a new one only for a reader that owns its directory
        and whose archive extracts. */
    function TempDirAfter(env: Unzip): (r: string)
      reads this
      ensures tempDir != "" ==> r == tempDir
      ensures tempDir == "" && !(openedPath != "" && ownsTempDir) ==> r == ""
      ensures tempDir == "" && openedPath != "" && ownsTempDir ==> r == (if env.extracted then UnzipDir(env) else "")
    {
      if tempDir != "" then tempDir
      else if openedPath == "" || !ownsTempDir || !env.extracted then ""
      else UnzipDir(env)
    }

    /** cleanupTempDir: forget the directory (its removal from disk is not
        modelled). */
    method CleanupTempDir()
      modifies this`tempDir
      ensures tempDir == ""
    {
      if tempDir != "" {
        tempDir := "";
      }
    }

    /** close: an owned directory is cleaned up, an attached one is kept;
        the path and both flags are cleared. */
    method Close()
      modifies this
      ensures openedPath == "" && !attached && !ownsTempDir
      ensures tempDir == (if old(ownsTempDir) then "" else old(tempDir))
    {
      if ownsTempDir {
        CleanupTempDir();
      }
      openedPath := "";
      attached := false;
      ownsTempDir := false;
    }

    /** open: close, then remember the archive; the directory will be the
        reader's own. */
    method Open(xlsxPath: string) returns (ok: bool)
      modifies this
      ensures ok
      ensures openedPath == xlsxPath && ownsTempDir && !attached
      ensures tempDir == (if old(ownsTempDir) then "" else old(tempDir))
    {
      Close();
      openedPath := xlsxPath;
      attached := false;
      ownsTempDir := true;
      return true;
    }

    /** attach: close, then use a directory someone else extracted. */
    method Attach(xlsxPath: string, temp: string) returns (ok: bool)
      modifies this
      ensures ok
      ensures openedPath == xlsxPath && tempDir == temp && attached && !ownsTempDir
    {
      Close();
      openedPath := xlsxPath;
      tempDir := temp;
      attached := true;
      ownsTempDir := false;
      return true;
    }

    /** ensureTempDir: true at once with a directory; false without a path
        or for a directory not owned; otherwise extract into a fresh
        directory and keep it only when that succeeds. */
    method EnsureTempDir(env: Unzip) returns (ok: bool)
      modifies this`tempDir
      ensures tempDir == old(TempDirAfter(env))
      ensures ok <==> tempDir != ""
    {
      if tempDir != "" {
        return true;
      }
      if openedPath == "" {
        return false;
      }
      if !ownsTempDir {
        return false;
      }
      if env.extracted {
        tempDir := UnzipDir(env);
        return true;
      }
      return false;
    }

    /** getTempDir: the directory, "" when it cannot be had. */
    method GetTempDir(env: Unzip) returns (r: string)
      modifies this`tempDir
      ensures tempDir == old(TempDirAfter(env)) && r == tempDir
    {
      var ok := EnsureTempDir(env);
      if !ok {
        return "";
      }
      return tempDir;
    }

    /** findDrawingPathForSheet, with the path taken relative to the
        directory. */
    method FindDrawingPathForSheet(sheetIndex: nat, env: Unzip, disk: Files) returns (r: string)
      requires sheetIndex < 0x1_0000_0000
      modifies this`tempDir
      ensures tempDir == old(TempDirAfter(env))
      ensures r == DrawingPathFor(tempDir, sheetIndex, disk)
    {
      var ok := EnsureTempDir(env);
      if !ok {
        return "";
      }
      var xl := Paths.Join(tempDir, "xl");
      var drawingPath := Paths.Join(xl, DrawingFile(sheetIndex));
      if !Exists(disk, drawingPath) {
        if sheetIndex == 0 {
          var alt := Paths.Join(Paths.Join(xl, "drawings"), "drawing1.xml");
          if Exists(disk, alt) {
            drawingPath := alt;
          }
        }
      }
      if !Exists(disk, drawingPath) {
        return "";
      }
      return "xl/" + DrawingFile(sheetIndex);
    }

    /** parseDrawingXML and parseDrawingXMLForSheetPictures: the image map
        of the drawing's relationships, then its anchors in order. */
    method ParseDrawing<P>(drawingPath: string, env: Unzip, disk: Files, parser: XmlParser,
                           build: (nat, nat, string, string) -> P)
      returns (r: Result<seq<P>, StoiFailure>)
      modifies this`tempDir
      ensures tempDir == old(TempDirAfter(env))
      ensures r == DrawingPictures(tempDir, drawingPath, disk, parser, build)
    {
      var ok := EnsureTempDir(env);
      if !ok {
        return Ok([]);
      }
      var full := Paths.Join(tempDir, drawingPath);
      var drawingFile := ReadFile(disk, full);
      if drawingFile.None? {
        return Ok([]);
      }
      var images: map<string, string> := map[];
      var rels := ParseRels(disk, parser, RelsPathOf(full));
      if rels.Some? {
        images := ReadImageRels(rels.value);
      }
      var found, threw := CollectAnchors(drawingFile.value, ReaderWith(images, tempDir, full, build));
      if threw {
        return Err(StoiFailure);
      }
      return Ok(found);
    }

    /** The pictures of a sheet as getPictures (`build` = InfoOf) or
        getSheetPictures (`build` = SheetPictureOf) returns them: none when
        the reader is not open or the sheet has no drawing. */
    method SheetDrawingPictures<P>(sheetIndex: nat, env: Unzip, disk: Files, parser: XmlParser,
                                   build: (nat, nat, string, string) -> P)
      returns (r: Result<seq<P>, StoiFailure>)
      requires sheetIndex < 0x1_0000_0000
      modifies this`tempDir
      ensures tempDir == old(TempDirAfter(env))
      ensures !IsOpen() ==> r == Ok([])
      ensures IsOpen() ==>
                var d := DrawingPathFor(tempDir, sheetIndex, disk);
                r == if d == "" then Ok([]) else DrawingPictures(tempDir, d, disk, parser, build)
    {
      if !IsOpen() {
        return Ok([]);
      }
      var drawingPath := FindDrawingPathForSheet(sheetIndex, env, disk);
      if drawingPath == "" {
        return Ok([]);
      }
      r := ParseDrawing(drawingPath, env, disk, parser, build);
    }

    /** getPictureRaw: the bytes of the first picture anchored at `ref`;
        nothing when the reader is not open, no picture is there, its
        entries are missing or empty, or reading the drawing throws. */
    method GetPictureRaw(sheetIndex: nat, ref: string, env: Unzip, disk: Files, parser: XmlParser,
                         entries: string -> string)
      returns (r: Option<string>)
      requires sheetIndex < 0x1_0000_0000
      modifies this`tempDir
      ensures tempDir == old(TempDirAfter(env))
      ensures !IsOpen() ==> r == None
      ensures IsOpen() ==>
                var d := DrawingPathFor(tempDir, sheetIndex, disk);
                var pics := if d == "" then Ok([]) else DrawingPictures(tempDir, d, disk, parser, InfoOf);
                r == if pics.Err? then None else RawOf(pics.value, ref, entries)
    {
      if !IsOpen() {
        return None;
      }
      var pics := SheetDrawingPictures(sheetIndex, env, disk, parser, InfoOf);
      if pics.Err? {
        return None;
      }
      var ps := pics.value;
      var i := 0;
      while i < |ps|
        invariant i <= |ps|
        invariant RawOf(ps[i..], ref, entries) == RawOf(ps, ref, entries)
      {
        if ps[i].ref == ref {
          return EntryData(ps[i], entries);
        }
        assert ps[i..][1..] == ps[i + 1..];
        i := i + 1;
      }
      return None;
    }
  }

  /** A reader attached to another owner's directory keeps that directory
      through close, so opening an archive afterwards reads the old
      directory instead of extracting the new archive. */
  method ReopenAfterAttach(attachedPath: string, temp: string, newPath: string, env: Unzip)
    returns (used: string)
    requires temp != "" && newPath != ""
    ensures used == temp
  {
    var reader := new PictureReader();
    var _ := reader.Attach(attachedPath, temp);
    reader.Close();
    var _ := reader.Open(newPath);
    used := reader.GetTempDir(env);
  }
}
