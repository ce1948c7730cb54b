/** The package as the library sees it once it is extracted: a directory of
    part texts, and the views pugixml gives of the parts it parses. The
    parser itself is not modelled; a parse is a function from a part's text
    to its view, None where pugixml reports failure. */
module XmlModel {
  import opened Wrappers
  import Paths

  /** The extracted files: lexically normal path -> contents. */
  type Files = map<string, string>

  /** Opening `path` for reading: found when its normal form is present. */
  function ReadFile(files: Files, path: string): (r: Option<string>)
    ensures r.Some? <==> Paths.Normal(path) in files
  {
    var key := Paths.Normal(path);
    if key in files then Some(files[key]) else None
  }

  /** Writing `text` to `path`, replacing any earlier contents. */
  function WriteFile(files: Files, path: string, text: string): (r: Files)
    ensures ReadFile(r, path) == Some(text)
    ensures forall q :: Paths.Normal(q) != Paths.Normal(path) ==> ReadFile(r, q) == ReadFile(files, q)
  {
    files[Paths.Normal(path) := text]
  }

  /** A stored (normal) path lies in the directory `dir` or is it. */
  predicate Within(key: string, dir: string)
  {
    var d := Paths.Normal(dir);
    key == d || d + "/" <= key
  }

  /** remove_all(dir): every file in the directory tree goes. */
  function RemoveTree(files: Files, dir: string): (r: Files)
    ensures forall key :: key in r <==> key in files && !Within(key, dir)
    ensures forall key :: key in r ==> r[key] == files[key]
  {
    map key | key in files && !Within(key, dir) :: files[key]
  }

  /** After remove_all nothing in the tree can be opened, and everything
      outside it reads as before. */
  lemma RemovedTree(files: Files, dir: string, path: string)
    ensures Within(Paths.Normal(path), dir) ==> ReadFile(RemoveTree(files, dir), path).None?
    ensures !Within(Paths.Normal(path), dir) ==> ReadFile(RemoveTree(files, dir), path) == ReadFile(files, path)
  {
  }

  /** An `<si>` of sharedStrings.xml: the text of its direct `<t>` child if
      it has one, and the texts of all `<t>` below it in document order. */
  datatype SharedItem = SharedItem(direct: Option<string>, runs: seq<string>)

  /** A `<Relationship>`: its Id, Type and Target attributes, each possibly
      absent. */
  datatype XmlRel = XmlRel(id: Option<string>, relType: Option<string>, target: Option<string>)
  {
    /** attribute(..).as_string(): "" for an absent attribute. */
    function IdText(): (r: string)
      ensures id.Some? ==> r == id.value
      ensures id.None? ==> r == ""
    {
      if id.Some? then id.value else ""
    }

    function TypeText(): (r: string)
      ensures relType.Some? ==> r == relType.value
      ensures relType.None? ==> r == ""
    {
      if relType.Some? then relType.value else ""
    }

    function TargetText(): (r: string)
      ensures target.Some? ==> r == target.value
      ensures target.None? ==> r == ""
    {
      if target.Some? then target.value else ""
    }
  }

  /** A `<c>` inside a `<row>`: its r and t attributes (as_string, so ""
      when absent), the text of its `<v>` child if any, and for an `<is>`
      child the text of that child's `<t>` if any. */
  datatype XmlCell = XmlCell(r: string, t: string, v: Option<string>, inlineText: Option<Option<string>>)

  /** The `<worksheet>` root: the rows of its `<sheetData>` (None without
      one) and its `<drawing>` element (None without one; Some(None) when it
      has no r:id attribute). */
  datatype Worksheet = Worksheet(sheetData: Option<seq<seq<XmlCell>>>, drawing: Option<Option<string>>)

  /** The three ways pugixml is used on a part's text: sharedStrings.xml
      (the `<si>` children of `<sst>`), a relationships part (the
      `<Relationship>` children of `<Relationships>`), and a worksheet. */
  datatype XmlParser = XmlParser(
    sharedStrings: string -> Option<seq<SharedItem>>,
    relationships: string -> Option<seq<XmlRel>>,
    worksheet: string -> Option<Worksheet>)

  /** load_file on a path: the file must exist and parse. */
  function ParseRels(files: Files, parser: XmlParser, path: string): (r: Option<seq<XmlRel>>)
    ensures r.Some? ==> ReadFile(files, path).Some?
  {
    match ReadFile(files, path)
    case None => None
    case Some(text) => parser.relationships(text)
  }
}
