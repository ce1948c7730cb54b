/** The two kinds of cell a sheet holds: a data cell, whose value and type
    are changed in place and whose shared-string value is resolved each time
    it is read against the sheet's current table, and a picture cell, fixed
    at construction. */
module Cells {
  import opened Wrappers
  import opened Text
  import Paths

  /** XLCellData::getValue's resolution: an "s" value is an index into the
      shared-string table, read with std::stoul; an unreadable or
      out-of-range index reads as "". Every other type yields the raw value. */
  function Resolve(cellType: string, raw: string, sharedStrings: seq<string>): (r: string)
    ensures cellType != "s" ==> r == raw
    ensures cellType == "s" && StoUL(raw).Some? && StoUL(raw).value < |sharedStrings| ==>
              r == sharedStrings[StoUL(raw).value]
    ensures cellType == "s" && !(StoUL(raw).Some? && StoUL(raw).value < |sharedStrings|) ==> r == ""
  {
    if cellType == "s" then
      match StoUL(raw)
      case Some(i) => if i < |sharedStrings| then sharedStrings[i] else ""
      case None => ""
    else raw
  }

  /** A shared-string cell holding the decimal index of an entry reads that
      entry. */
  lemma SharedIndexReadsEntry(i: nat, sharedStrings: seq<string>)
    requires i < |sharedStrings| && i < ULongModulus
    ensures Resolve("s", Decimal(i), sharedStrings) == sharedStrings[i]
  {
    StoULOfDecimal(i);
    assert StoUL(Decimal(i)) == Some(i);
  }

  /** A shared-string cell reads either "" or some entry of the table. */
  lemma SharedValueFromTable(raw: string, sharedStrings: seq<string>)
    ensures Resolve("s", raw, sharedStrings) == "" || Resolve("s", raw, sharedStrings) in sharedStrings
  {
  }

  /** A shared-string cell whose value has no digit reads "". */
  lemma SharedNonNumericReadsEmpty(raw: string, sharedStrings: seq<string>)
    requires forall i :: 0 <= i < |raw| ==> !IsDigit(raw[i])
    ensures Resolve("s", raw, sharedStrings) == ""
  {
    NoDigitsNoNumber(raw);
  }

  /** Growing the table never changes what an in-range index reads: the
      resolution is lazy, against the table at the time of reading. */
  lemma ResolveStableUnderAppend(cellType: string, raw: string, sharedStrings: seq<string>, more: seq<string>)
    requires cellType != "s" || (StoUL(raw).Some? && StoUL(raw).value < |sharedStrings|)
    ensures Resolve(cellType, raw, sharedStrings + more) == Resolve(cellType, raw, sharedStrings)
  {
  }

  /** XLCellData: a reference fixed at construction, a value and a type
      that the setters overwrite. */
  class CellData {
    const reference: string
    var value: string
    var cellType: string

    constructor (reference: string, value: string, cellType: string)
      ensures this.reference == reference && this.value == value && this.cellType == cellType
    {
      this.reference := reference;
      this.value := value;
      this.cellType := cellType;
    }

    /** getValue, against the table of the sheet that owns the cell. */
    function GetValue(sharedStrings: seq<string>): (r: string)
      reads this
      ensures r == Resolve(cellType, value, sharedStrings)
    {
      Resolve(cellType, value, sharedStrings)
    }

    /** getType: the stored type, without defaulting. */
    function GetType(): (r: string)
      reads this
      ensures r == cellType
    {
      cellType
    }

    method SetValue(v: string)
      modifies this`value
      ensures value == v && cellType == old(cellType)
    {
      value := v;
    }

    method SetType(t: string)
      modifies this`cellType
      ensures cellType == t && value == old(value)
    {
      cellType := t;
    }
  }

  /** XLCellPicture: a reference, an image file name and the directory of
      the image relative to the package's "xl" directory. */
  datatype Picture = Picture(reference: string, imageFileName: string, relativePath: string)
  {
    /** getValue: a picture cell's value is its image file name. */
    function GetValue(): (r: string)
      ensures r == imageFileName
    {
      imageFileName
    }

    function GetType(): (r: string)
      ensures r == "picture"
    {
      "picture"
    }

    /** getFullPath: tempDir / "xl" / relativePath / imageFileName. */
    function GetFullPath(tempDir: string): (r: string)
    {
      Paths.Join(Paths.Join(Paths.Join(tempDir, "xl"), relativePath), imageFileName)
    }
  }

  /** Under an ordinary extraction directory, a picture's full path is that
      directory, "xl", the relative directory and the file name, one
      separator apart, and its last component is the file name. */
  lemma FullPathLayout(p: Picture, tempDir: string)
    requires tempDir != [] && tempDir[|tempDir| - 1] != '/'
    requires p.relativePath != [] && !Paths.IsAbsolute(p.relativePath) && p.relativePath[|p.relativePath| - 1] != '/'
    requires p.imageFileName != [] && '/' !in p.imageFileName
    ensures p.GetFullPath(tempDir) == tempDir + "/xl/" + p.relativePath + "/" + p.imageFileName
    ensures Paths.FileName(p.GetFullPath(tempDir)) == p.imageFileName
  {
    var xl := Paths.Join(tempDir, "xl");
    assert xl == tempDir + "/xl";
    var dir := Paths.Join(xl, p.relativePath);
    assert dir == tempDir + "/xl/" + p.relativePath;
    var full := Paths.Join(dir, p.imageFileName);
    assert full == dir + "/" + p.imageFileName;
    Paths.LastSegmentStart(dir + "/", p.imageFileName);
  }

  /** XLCell: what a sheet's cell table maps a reference to. */
  datatype Cell = Data(data: CellData) | Pic(picture: Picture)
  {
    /** XLCell::getValue, dispatched on the kind of cell. */
    function Value(sharedStrings: seq<string>): (r: string)
      reads if Data? then {data} else {}
      ensures Pic? ==> r == picture.imageFileName
      ensures Data? ==> r == Resolve(data.cellType, data.value, sharedStrings)
    {
      match this
      case Data(d) => d.GetValue(sharedStrings)
      case Pic(p) => p.GetValue()
    }

    function Type(): (r: string)
      reads if Data? then {data} else {}
      ensures Pic? ==> r == "picture"
      ensures Data? ==> r == data.cellType
    {
      match this
      case Data(d) => d.GetType()
      case Pic(p) => p.GetType()
    }
  }
}
