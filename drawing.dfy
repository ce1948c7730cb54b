/** XLDrawing: the pictures a drawing part anchors to cells. The drawing's
    relationships part maps relationship ids to image targets; every
    `xdr:twoCellAnchor` whose top-left cell and `r:embed` id can be read and
    whose id has a target becomes one picture record, in document order. */
module Drawings {
  import opened Wrappers
  import opened Text
  import opened Overlays
  import opened TagScan
  import opened XmlModel
  import Paths
  import Columns

  /** PictureInfo: cell reference, image file name, directory of the image. */
  datatype PictureInfo = PictureInfo(ref: string, fileName: string, relativePath: string)

  /** std::stoi threw while an anchor was being read. */
  datatype StoiFailure = StoiFailure

  const AnchorOpen: string := "<xdr:twoCellAnchor"
  const AnchorClose: string := "</xdr:twoCellAnchor>"

  // ---------------------------------------------------------------------
  // The relationships part, read as text

  /** A `<Relationship .../>` contributes id -> target when both its `Id="`
      and its `Target="` attributes can be read; the Type is not looked at. */
  function RelEntry(tag: string): Option<(string, string)>
  {
    match Attr(tag, IdKey)
    case None => None
    case Some(id) =>
      match Attr(tag, TargetKey)
      case None => None
      case Some(target) => Some((id, target))
  }

  /** The id -> target map of a relationships text; a repeated id keeps its
      last target. */
  function RelationshipMap(text: string): map<string, string>
  {
    Overlay(map[], Keep(Tags(text, RelOpen, RelClose, 0), RelEntry))
  }

  /** The image map of XLDrawing::load: empty when the part cannot be opened. */
  function ImageMap(files: Files, relsPath: string): map<string, string>
  {
    match ReadFile(files, relsPath)
    case None => map[]
    case Some(text) => RelationshipMap(text)
  }

  /** An id is mapped exactly when some relationship element carries it
      together with a target. */
  lemma RelationshipMapKeys(text: string, id: string)
    ensures var tags := Tags(text, RelOpen, RelClose, 0);
            id in RelationshipMap(text) <==>
              exists i :: 0 <= i < |tags| && RelEntry(tags[i]).Some? && RelEntry(tags[i]).value.0 == id
  {
    EntryKeys(Tags(text, RelOpen, RelClose, 0), id);
  }

  lemma EntryKeys(tags: seq<string>, id: string)
    ensures id in Overlay(map[], Keep(tags, RelEntry)) <==>
              exists i :: 0 <= i < |tags| && RelEntry(tags[i]).Some? && RelEntry(tags[i]).value.0 == id
  {
    KeepOverlayKeys(tags, RelEntry, id);
  }

  /** A repeated id maps to the target of its last element. */
  lemma RelationshipMapLastWins(text: string, i: nat)
    requires i < |Tags(text, RelOpen, RelClose, 0)|
    requires RelEntry(Tags(text, RelOpen, RelClose, 0)[i]).Some?
    requires var tags := Tags(text, RelOpen, RelClose, 0);
             forall j :: i < j < |tags| && RelEntry(tags[j]).Some? ==> RelEntry(tags[j]).value.0 != RelEntry(tags[i]).value.0
    ensures var e := RelEntry(Tags(text, RelOpen, RelClose, 0)[i]).value;
            e.0 in RelationshipMap(text) && RelationshipMap(text)[e.0] == e.1
  {
    KeepOverlayLast(Tags(text, RelOpen, RelClose, 0), RelEntry, i);
  }

  // ---------------------------------------------------------------------
  // One anchor

  /** The text between `openTag` and `closeTag` after `from`; none when
      either tag is missing. */
  function CoordinateText(tag: string, from: nat, openTag: string, closeTag: string): (r: Option<string>)
    ensures Find(tag, openTag, from).None? ==> r.None?
    ensures Find(tag, openTag, from).Some? ==>
              var p := Find(tag, openTag, from).value;
              (r.None? <==> Find(tag, closeTag, p + |openTag|).None?) &&
              (r.Some? ==> r.value == tag[p + |openTag|..Find(tag, closeTag, p + |openTag|).value])
  {
    match Find(tag, openTag, from)
    case None => None
    case Some(p) =>
      match Find(tag, closeTag, p + |openTag|)
      case None => None
      case Some(e) => Some(tag[p + |openTag|..e])
  }

  /** The number between `openTag` and `closeTag` after `from`: -1 when
      either tag is missing, a failure when std::stoi rejects the text. */
  function Coordinate(tag: string, from: nat, openTag: string, closeTag: string): (r: Result<int, StoiFailure>)
    ensures r.Ok? ==> r.value == -1 || IntMin <= r.value <= IntMax
    ensures CoordinateText(tag, from, openTag, closeTag).None? ==> r == Ok(-1)
    ensures r.Err? <==> CoordinateText(tag, from, openTag, closeTag).Some? && StoI(CoordinateText(tag, from, openTag, closeTag).value).None?
    ensures r.Ok? && CoordinateText(tag, from, openTag, closeTag).Some? ==> StoI(CoordinateText(tag, from, openTag, closeTag).value) == Some(r.value)
  {
    match CoordinateText(tag, from, openTag, closeTag)
    case None => Ok(-1)
    case Some(t) =>
      match StoI(t)
      case None => Err(StoiFailure)
      case Some(n) => Ok(n)
  }

  /** A number written with std::to_string between the two tags reads back,
      when the open tag does not occur earlier and the close tag does not
      start with a digit. */
  lemma CoordinateOfWritten(prefix: string, openTag: string, closeTag: string, n: nat, rest: string, from: nat)
    requires from <= |prefix| && n <= IntMax
    requires closeTag != [] && !IsDigit(closeTag[0])
    requires forall j :: from <= j < |prefix| ==> !OccursAt(prefix + openTag + Decimal(n) + closeTag + rest, openTag, j)
    ensures Coordinate(prefix + openTag + Decimal(n) + closeTag + rest, from, openTag, closeTag) == Ok(n)
  {
    var d := Decimal(n);
    var s := prefix + openTag + d + closeTag + rest;
    assert s == prefix + openTag + d + (closeTag + rest);
    WrittenFound(prefix, openTag, d, closeTag + rest, from);
    WrittenClosed(prefix + openTag, d, closeTag, rest);
    assert CoordinateText(s, from, openTag, closeTag) == Some(d);
    StoIOfDecimal(n);
  }

  /** The open tag is found where it was written. */
  lemma WrittenFound(prefix: string, openTag: string, d: string, rest: string, from: nat)
    requires from <= |prefix|
    requires forall j :: from <= j < |prefix| ==> !OccursAt(prefix + openTag + d + rest, openTag, j)
    ensures Find(prefix + openTag + d + rest, openTag, from) == Some(|prefix|)
  {
    var s := prefix + openTag + d + rest;
    assert s[|prefix|..|prefix| + |openTag|] == openTag;
    FindIs(s, openTag, from, |prefix|);
  }

  /** After digits, the close tag is found right behind them, and the text
      between is the digits. */
  lemma WrittenClosed(head: string, d: string, closeTag: string, rest: string)
    requires AllDigits(d)
    requires closeTag != [] && !IsDigit(closeTag[0])
    ensures Find(head + d + closeTag + rest, closeTag, |head|) == Some(|head| + |d|)
    ensures (head + d + closeTag + rest)[|head|..|head| + |d|] == d
  {
    var s := head + d + closeTag + rest;
    var e := |head| + |d|;
    assert s[e..e + |closeTag|] == closeTag;
    forall j | |head| <= j < e
      ensures !OccursAt(s, closeTag, j)
    {
      assert s[j] == d[j - |head|];
      if j + |closeTag| <= |s| {
        assert s[j..j + |closeTag|][0] == s[j];
      }
    }
    FindIs(s, closeTag, |head|, e);
  }

  /** What an anchor yields before its id is looked up: the top-left column
      and row (searched after `<xdr:from>`, -1 when absent) and the
      `r:embed` id ("" when absent); a failure when a number cannot be read. */
  datatype Anchor = Anchor(col: int, row: int, embed: string)

  function ReadAnchor(tag: string): (r: Result<Anchor, StoiFailure>)
  {
    var embed := match Attr(tag, "r:embed=\"") case Some(v) => v case None => "";
    match Find(tag, "<xdr:from>", 0)
    case None => Ok(Anchor(-1, -1, embed))
    case Some(f) =>
      match Coordinate(tag, f, "<xdr:col>", "</xdr:col>")
      case Err(x) => Err(x)
      case Ok(col) =>
        match Coordinate(tag, f, "<xdr:row>", "</xdr:row>")
        case Err(x) => Err(x)
        case Ok(row) => Ok(Anchor(col, row, embed))
  }

  /** An anchor becomes a picture only with a column and a row of at least
      zero and a non-empty id that the image map knows. */
  predicate Accepted(a: Anchor, images: map<string, string>)
  {
    a.col >= 0 && a.row >= 0 && a.embed != "" && a.embed in images
  }

  /** The reference of the top-left cell: column letters, then the one-based
      row number. */
  function CellRef(col: int, row: int): (r: string)
    requires col >= 0 && row >= 0
  {
    Columns.Letters(col) + Decimal(row + 1)
  }

  /** The file name and directory of an image target, with exactly
      "../media" rewritten to "media". */
  function ImageLocation(target: string): (r: (string, string))
  {
    var dir := Paths.ParentPath(target);
    (Paths.FileName(target), if dir == "../media" then "media" else dir)
  }

  function AnchorPicture(a: Anchor, images: map<string, string>): (r: Option<PictureInfo>)
    ensures r.Some? <==> Accepted(a, images)
    ensures r.Some? ==> r.value.ref == CellRef(a.col, a.row)
    ensures r.Some? ==> (r.value.fileName, r.value.relativePath) == ImageLocation(images[a.embed])
  {
    if Accepted(a, images) then
      var loc := ImageLocation(images[a.embed]);
      Some(PictureInfo(CellRef(a.col, a.row), loc.0, loc.1))
    else None
  }

  /** What reading one anchor gives: a failure when std::stoi throws,
      otherwise its picture if it is accepted. */
  type AnchorReader<P> = string -> Result<Option<P>, StoiFailure>

  /** The reader XLDrawing::load uses, against its image map: a failure
      when std::stoi throws, otherwise the anchor's picture if it is
      accepted. */
  function Reader(images: map<string, string>): AnchorReader<PictureInfo>
  {
    t => match ReadAnchor(t)
         case Err(x) => Err(x)
         case Ok(a) => Ok(AnchorPicture(a, images))
  }

  /** The outcome of scanning anchors: the pictures found so far, and
      whether std::stoi threw (which ends the scan). */
  datatype AnchorScan<P> = AnchorScan(pictures: seq<P>, threw: bool)

  /** One anchor's step of the scan: nothing more after a failure; a
      failure when the anchor cannot be read; its picture, if it is
      accepted. */
  function Advance<P>(before: AnchorScan<P>, tag: string, read: AnchorReader<P>): (r: AnchorScan<P>)
    ensures before.threw ==> r == before
    ensures !before.threw ==> (r.threw <==> read(tag).Err?)
    ensures !before.threw && read(tag).Ok? && read(tag).value.Some? ==> r.pictures == before.pictures + [read(tag).value.value]
    ensures !before.threw && !(read(tag).Ok? && read(tag).value.Some?) ==> r.pictures == before.pictures
  {
    if before.threw then before
    else
      match read(tag)
      case Err(_) => AnchorScan(before.pictures, true)
      case Ok(None) => before
      case Ok(Some(p)) => AnchorScan(before.pictures + [p], false)
  }

  function ScanAnchors<P>(tags: seq<string>, read: AnchorReader<P>): (r: AnchorScan<P>)
    decreases |tags|
  {
    if tags == [] then AnchorScan([], false)
    else Advance(ScanAnchors(tags[..|tags| - 1], read), tags[|tags| - 1], read)
  }

  lemma ScanAnchorsSnoc<P>(tags: seq<string>, t: string, read: AnchorReader<P>)
    ensures ScanAnchors(tags + [t], read) == Advance(ScanAnchors(tags, read), t, read)
  {
    assert (tags + [t])[..|tags|] == tags;
  }

  /** Once std::stoi has thrown, later anchors change nothing. */
  lemma {:induction false} ThrownScanIsFinal<P>(tags: seq<string>, more: seq<string>, read: AnchorReader<P>)
    requires ScanAnchors(tags, read).threw
    ensures ScanAnchors(tags + more, read) == ScanAnchors(tags, read)
    decreases |more|
  {
    if more == [] {
      assert tags + more == tags;
    } else {
      var n := |more| - 1;
      ThrownScanIsFinal(tags, more[..n], read);
      assert tags + more == (tags + more[..n]) + [more[n]];
      ScanAnchorsSnoc(tags + more[..n], more[n], read);
    }
  }

  /** The picture an anchor contributes when nothing fails. */
  function Contribution<P>(read: AnchorReader<P>): string -> Option<P>
  {
    tag => if read(tag).Ok? then read(tag).value else None
  }

  /** Without a failure, every anchor that is accepted yields exactly one
      picture, in order, and no other anchor yields one. */
  lemma {:induction false} ScanAnchorsKeeps<P>(tags: seq<string>, read: AnchorReader<P>)
    requires forall i :: 0 <= i < |tags| ==> read(tags[i]).Ok?
    ensures ScanAnchors(tags, read) == AnchorScan(Keep(tags, Contribution(read)), false)
    decreases |tags|
  {
    if tags != [] {
      ScanAnchorsKeeps(tags[..|tags| - 1], read);
    }
  }

  /** The scan fails exactly when some anchor cannot be read, and then the
      pictures are those of the anchors before the first such one. */
  lemma {:induction false} ScanAnchorsThrows<P>(tags: seq<string>, read: AnchorReader<P>, i: nat)
    requires i < |tags| && read(tags[i]).Err?
    requires forall j :: 0 <= j < i ==> read(tags[j]).Ok?
    ensures ScanAnchors(tags, read) == AnchorScan(Keep(tags[..i], Contribution(read)), true)
  {
    var pre := tags[..i];
    ScanAnchorsKeeps(pre, read);
    ScanAnchorsSnoc(pre, tags[i], read);
    ThrownScanIsFinal(pre + [tags[i]], tags[i + 1..], read);
    assert tags == (pre + [tags[i]]) + tags[i + 1..];
  }

  /** An anchor loop that pushes into a list of its own: the pictures of
      the accepted anchors of `content`, in order, until reading one
      throws. */
  method CollectAnchors<P>(content: string, read: AnchorReader<P>) returns (found: seq<P>, threw: bool)
    ensures AnchorScan(found, threw) == ScanAnchors(Tags(content, AnchorOpen, AnchorClose, 0), read)
  {
    ghost var done: seq<string> := [];
    found := [];
    var pos: nat := 0;
    while true
      invariant pos <= |content|
      invariant done + Tags(content, AnchorOpen, AnchorClose, pos) == Tags(content, AnchorOpen, AnchorClose, 0)
      invariant ScanAnchors(done, read) == AnchorScan(found, false)
      decreases |content| - pos
    {
      var next := NextTag(content, AnchorOpen, AnchorClose, pos);
      if next.None? {
        assert done + [] == done;
        break;
      }
      // the scan resumes after "</xdr:twoCellAnchor>"
      var (anchorTag, after) := next.value;
      ghost var rest := Tags(content, AnchorOpen, AnchorClose, after);
      assert done + Tags(content, AnchorOpen, AnchorClose, pos) == (done + [anchorTag]) + rest;
      ScanAnchorsSnoc(done, anchorTag, read);
      var outcome := read(anchorTag);
      if outcome.Err? {
        ThrownScanIsFinal(done + [anchorTag], rest, read);
        return found, true;
      }
      if outcome.value.Some? {
        found := found + [outcome.value.value];
      }
      done := done + [anchorTag];
      pos := after;
    }
    return found, false;
  }

  /** A reader that yields `f` of what another yields, failing where it
      fails. */
  ghost predicate MapsReader<P, Q>(read: AnchorReader<P>, mapped: AnchorReader<Q>, f: P -> Q)
  {
    forall t :: mapped(t) == (match read(t)
                              case Err(x) => Err(x)
                              case Ok(o) => Ok(if o.Some? then Some(f(o.value)) else None))
  }

  /** Scanning with such a reader fails in the same place and finds `f` of
      the same pictures. */
  lemma {:induction false} ScanAnchorsMap<P, Q>(tags: seq<string>, read: AnchorReader<P>, mapped: AnchorReader<Q>, f: P -> Q)
    requires MapsReader(read, mapped, f)
    ensures ScanAnchors(tags, mapped).threw == ScanAnchors(tags, read).threw
    ensures |ScanAnchors(tags, mapped).pictures| == |ScanAnchors(tags, read).pictures|
    ensures forall i :: 0 <= i < |ScanAnchors(tags, read).pictures| ==>
              ScanAnchors(tags, mapped).pictures[i] == f(ScanAnchors(tags, read).pictures[i])
    decreases |tags|
  {
    if tags != [] {
      var init := tags[..|tags| - 1];
      var t := tags[|tags| - 1];
      ScanAnchorsMap(init, read, mapped, f);
      assert mapped(t) == (match read(t)
                           case Err(x) => Err(x)
                           case Ok(o) => Ok(if o.Some? then Some(f(o.value)) else None));
    }
  }

  // ---------------------------------------------------------------------
  // The class

  datatype DrawingLoad = Loaded | NotOpened | Threw

  class Drawing {
    const drawingPath: string
    const drawingRelsPath: string
    var pictures: seq<PictureInfo>

    constructor (drawingPath: string, drawingRelsPath: string)
      ensures this.drawingPath == drawingPath && this.drawingRelsPath == drawingRelsPath
      ensures pictures == []
    {
      this.drawingPath := drawingPath;
      this.drawingRelsPath := drawingRelsPath;
      pictures := [];
    }

    /** getPictures. */
    function GetPictures(): (r: seq<PictureInfo>)
      reads this
      ensures r == pictures
    {
      pictures
    }

    /** load: read the image map (empty if the relationships part cannot be
        opened), then append the picture of every accepted anchor; false
        when the drawing part cannot be opened. */
    method Load(files: Files) returns (outcome: DrawingLoad)
      modifies this`pictures
      ensures outcome == NotOpened <==> ReadFile(files, drawingPath).None?
      ensures outcome == NotOpened ==> pictures == old(pictures)
      ensures outcome != NotOpened ==>
                var scan := ScanAnchors(Tags(ReadFile(files, drawingPath).value, AnchorOpen, AnchorClose, 0),
                                        Reader(ImageMap(files, drawingRelsPath)));
                pictures == old(pictures) + scan.pictures && (outcome == Threw <==> scan.threw)
    {
      var images: map<string, string> := map[];
      var relsFile := ReadFile(files, drawingRelsPath);
      if relsFile.Some? {
        images := ReadImageMap(relsFile.value);
      }
      var drawingFile := ReadFile(files, drawingPath);
      if drawingFile.None? {
        return NotOpened;
      }
      var threw := AppendAnchors(drawingFile.value, Reader(images));
      outcome := if threw then Threw else Loaded;
    }

    /** The anchor loop of load: append the picture of every accepted
        anchor of `content`, in order, until reading one throws. */
    method AppendAnchors(content: string, read: AnchorReader<PictureInfo>) returns (threw: bool)
      modifies this`pictures
      ensures var scan := ScanAnchors(Tags(content, AnchorOpen, AnchorClose, 0), read);
              pictures == old(pictures) + scan.pictures && threw == scan.threw
    {
      var found;
      found, threw := CollectAnchors(content, read);
      pictures := pictures + found;
    }
  }

  /** The relationships loop of XLDrawing::load: every element with a
      readable Id and Target assigns id -> target. */
  method ReadImageMap(text: string) returns (images: map<string, string>)
    ensures images == RelationshipMap(text)
  {
    images := CollectEntries(text, RelOpen, RelClose, RelEntry);
  }

}
