/** The sheet catalogue of workbook.xml as XLWorkbook::load reads it: every
    `<sheet ` up to the next `/>` is one element (the `sheet` element of
    section 18.2.19 of ECMA-376 Part 1), from which the `name`, `sheetId`
    and `r:id` attributes are read by search, each on its own. */
module Catalogue {
  import opened Wrappers
  import opened Text
  import opened Overlays
  import opened TagScan

  const SheetOpen: string := "<sheet "
  const SheetClose: string := "/>"
  const NameKey: string := "name=\""
  const SheetIdKey: string := "sheetId=\""
  const RIdKey: string := "r:id=\""

  /** The `<sheet>` elements of workbook.xml, in declaration order. */
  function SheetTags(content: string): seq<string>
  {
    Tags(content, SheetOpen, SheetClose, 0)
  }

  function NameOf(tag: string): Option<string>
  {
    Attr(tag, NameKey)
  }

  function SheetIdOf(tag: string): Option<string>
  {
    Attr(tag, SheetIdKey)
  }

  function RIdOf(tag: string): Option<string>
  {
    Attr(tag, RIdKey)
  }

  /** The three lists the scan fills: each attribute is pushed only when
      the element has it. */
  function Names(tags: seq<string>): seq<string>
  {
    Keep(tags, NameOf)
  }

  function SheetIds(tags: seq<string>): seq<string>
  {
    Keep(tags, SheetIdOf)
  }

  function RIds(tags: seq<string>): seq<string>
  {
    Keep(tags, RIdOf)
  }

  /** The lists after one more element: each grows by what the element
      has. */
  lemma ScanSnoc(seen: seq<string>, tag: string)
    ensures Names(seen + [tag]) == Names(seen) + (if NameOf(tag).Some? then [NameOf(tag).value] else [])
    ensures SheetIds(seen + [tag]) == SheetIds(seen) + (if SheetIdOf(tag).Some? then [SheetIdOf(tag).value] else [])
    ensures RIds(seen + [tag]) == RIds(seen) + (if RIdOf(tag).Some? then [RIdOf(tag).value] else [])
    ensures Entries(seen + [tag]) == Entries(seen) + (if EntryOf(tag).Some? then [EntryOf(tag).value] else [])
  {
    KeepSnoc(seen, tag, NameOf);
    KeepSnoc(seen, tag, SheetIdOf);
    KeepSnoc(seen, tag, RIdOf);
    KeepSnoc(seen, tag, EntryOf);
  }

  /** A catalogue entry: what one sheet is created from. */
  datatype Entry = Entry(name: string, sheetId: string, rId: string)

  // ---------------------------------------------------------------------
  // Pairing the lists, as written

  /** The sheet-creation loop pairs the i-th name with the i-th id and the
      i-th relationship id for every name; where either list is shorter it
      reads past its end. */
  datatype Pairing = Paired(entries: seq<Entry>) | ReadsPastEnd(index: nat)

  function PairAsWritten(names: seq<string>, ids: seq<string>, rids: seq<string>): (r: Pairing)
    ensures r.Paired? ==> |r.entries| == |names|
    ensures r.ReadsPastEnd? ==> r.index < |names| && (r.index == |ids| || r.index == |rids|)
  {
    if |names| <= |ids| && |names| <= |rids| then
      Paired(seq(|names|, i requires 0 <= i < |names| => Entry(names[i], ids[i], rids[i])))
    else if |ids| <= |rids| then ReadsPastEnd(|ids|)
    else ReadsPastEnd(|rids|)
  }

  /** The smallest catalogue with a sheet lacking its ids. */
  const NameOnly: string := "<sheet name=\"A\"/>"

  /** A `<sheet>` element with a name but no sheetId or r:id, accepted by
      the scan, makes the pairing read the id list at index 0 while it is
      empty. */
  lemma NameOnlyReadsPastEnd()
    ensures SheetTags(NameOnly) == [NameOnly]
    ensures PairAsWritten(Names([NameOnly]), SheetIds([NameOnly]), RIds([NameOnly])) == ReadsPastEnd(0)
  {
    NameOnlyScanned();
    NameOnlyAttributes();
    KeepSnoc([], NameOnly, NameOf);
    KeepSnoc([], NameOnly, SheetIdOf);
    KeepSnoc([], NameOnly, RIdOf);
  }

  /** The scan finds the one element. */
  lemma NameOnlyScanned()
    ensures SheetTags(NameOnly) == [NameOnly]
  {
    var body := "name=\"A\"";
    assert SheetOpen + body + SheetClose == NameOnly;
    assert OccursAt(NameOnly, NameOnly, 0);
    forall j | 0 <= j < |SheetOpen| + |body|
      ensures !OccursAt(NameOnly, SheetClose, j)
    {
      assert NameOnly[j] != '/';
    }
    ScanReadsElement(NameOnly, 0, SheetOpen, body, SheetClose);
    TagsEnd(NameOnly, SheetOpen, SheetClose, |NameOnly|);
  }

  /** The element has its name and neither id. */
  lemma NameOnlyAttributes()
    ensures NameOf(NameOnly) == Some("A")
    ensures SheetIdOf(NameOnly).None? && RIdOf(NameOnly).None?
  {
    NameOnlyName();
    assert 'I' !in NameOnly && ':' !in NameOnly;
    AbsentChar(NameOnly, SheetIdKey, 'I', 0);
    AbsentChar(NameOnly, RIdKey, ':', 0);
  }

  lemma NameOnlyName()
    ensures NameOf(NameOnly) == Some("A")
  {
    assert NameOnly == "<sheet " + NameKey + "A" + "\"" + "/>";
    forall j | 0 <= j < |"<sheet "|
      ensures !OccursAt(NameOnly, NameKey, j)
    {
      assert NameOnly[j] != 'n';
    }
    AttrReadsWritten("<sheet ", NameKey, "A", "/>");
  }

  // ---------------------------------------------------------------------
  // Pairing per element

  /** One entry per element that has a name, its missing ids read as "". */
  function EntryOf(tag: string): (r: Option<Entry>)
    ensures r.Some? <==> NameOf(tag).Some?
  {
    match NameOf(tag)
    case None => None
    case Some(name) =>
      Some(Entry(name, match SheetIdOf(tag) case Some(id) => id case None => "",
                       match RIdOf(tag) case Some(rid) => rid case None => ""))
  }

  function Entries(tags: seq<string>): seq<Entry>
  {
    Keep(tags, EntryOf)
  }

  /** The entries carry the catalogue's names, one for one, so the i-th
      name getSheetName reports is the i-th entry's. */
  lemma {:induction false} EntriesNamed(tags: seq<string>)
    ensures |Entries(tags)| == |Names(tags)|
    ensures forall i :: 0 <= i < |Names(tags)| ==> Entries(tags)[i].name == Names(tags)[i]
    decreases |tags|
  {
    if tags != [] {
      var n := |tags| - 1;
      EntriesNamed(tags[..n]);
    }
  }

  /** Where every element has all three attributes, pairing per element and
      pairing the lists as written agree. */
  lemma EntriesAgree(tags: seq<string>)
    requires forall i :: 0 <= i < |tags| ==>
               NameOf(tags[i]).Some? && SheetIdOf(tags[i]).Some? && RIdOf(tags[i]).Some?
    ensures PairAsWritten(Names(tags), SheetIds(tags), RIds(tags)) == Paired(Entries(tags))
  {
    KeepAll(tags, NameOf);
    KeepAll(tags, SheetIdOf);
    KeepAll(tags, RIdOf);
    KeepAll(tags, EntryOf);
  }

  /** Without reading past an end, the lists as written still misalign: an
      unnamed element with both ids, then a complete one, gives the named
      sheet the first element's ids, where pairing per element gives it its
      own. */
  lemma UnnamedShiftsIds(t0: string, t1: string)
    requires NameOf(t0).None? && SheetIdOf(t0).Some? && RIdOf(t0).Some?
    requires NameOf(t1).Some? && SheetIdOf(t1).Some? && RIdOf(t1).Some?
    ensures PairAsWritten(Names([t0, t1]), SheetIds([t0, t1]), RIds([t0, t1]))
            == Paired([Entry(NameOf(t1).value, SheetIdOf(t0).value, RIdOf(t0).value)])
    ensures Entries([t0, t1]) == [Entry(NameOf(t1).value, SheetIdOf(t1).value, RIdOf(t1).value)]
  {
    assert [t0, t1] == [t0] + [t1];
    KeepSnoc([t0], t1, NameOf);
    KeepSnoc([t0], t1, SheetIdOf);
    KeepSnoc([t0], t1, RIdOf);
    KeepSnoc([t0], t1, EntryOf);
    KeepSnoc([], t0, NameOf);
    KeepSnoc([], t0, SheetIdOf);
    KeepSnoc([], t0, RIdOf);
    KeepSnoc([], t0, EntryOf);
  }

  /** An element without a name yields no entry, whatever ids it has. */
  lemma UnnamedSkipped(before: seq<string>, tag: string, after: seq<string>)
    requires NameOf(tag).None?
    ensures Entries(before + [tag] + after) == Entries(before + after)
    ensures Names(before + [tag] + after) == Names(before + after)
  {
    KeepSkips(before, tag, after, EntryOf);
    KeepSkips(before, tag, after, NameOf);
  }

  /** The `<sheet ` loop of the catalogue scan, over the elements between
      `open` and `close`: each attribute found is pushed onto its own list;
      the entries pair them element by element. */
  method ScanCatalogue(content: string, open: string, close: string)
    returns (names: seq<string>, ids: seq<string>, rids: seq<string>, entries: seq<Entry>)
    requires close != []
    ensures names == Names(Tags(content, open, close, 0))
    ensures ids == SheetIds(Tags(content, open, close, 0))
    ensures rids == RIds(Tags(content, open, close, 0))
    ensures entries == Entries(Tags(content, open, close, 0))
  {
    names, ids, rids, entries := [], [], [], [];
    var pos: nat := 0;
    ghost var all := Tags(content, open, close, 0);
    ghost var seen: seq<string> := [];
    ghost var rest := all;
    while true
      invariant pos <= |content|
      invariant rest == Tags(content, open, close, pos)
      invariant all == seen + rest
      invariant names == Names(seen) && ids == SheetIds(seen) && rids == RIds(seen)
      invariant entries == Entries(seen)
      decreases |content| - pos
    {
      var next := NextTag(content, open, close, pos);
      if next.None? {
        assert seen == all;
        break;
      }
      var tag := next.value.0;
      pos := next.value.1;
      names, ids, rids, entries := PushAttributes(seen, rest, tag, names, ids, rids, entries);
      seen, rest := seen + [tag], rest[1..];
    }
  }

  /** One round of the `<sheet ` loop: name, sheetId and r:id, each
      pushed only when found, and the entry when the element is named. */
  method PushAttributes(ghost seen: seq<string>, ghost rest: seq<string>, tag: string,
                        names: seq<string>, ids: seq<string>, rids: seq<string>, entries: seq<Entry>)
    returns (names': seq<string>, ids': seq<string>, rids': seq<string>, entries': seq<Entry>)
    requires names == Names(seen) && ids == SheetIds(seen) && rids == RIds(seen)
    requires entries == Entries(seen)
    requires rest != [] && rest[0] == tag
    ensures names' == Names(seen + [tag]) && ids' == SheetIds(seen + [tag]) && rids' == RIds(seen + [tag])
    ensures entries' == Entries(seen + [tag])
    ensures seen + rest == (seen + [tag]) + rest[1..]
  {
    assert rest == [tag] + rest[1..];
    ScanSnoc(seen, tag);
    names', ids', rids', entries' := names, ids, rids, entries;
    var name := NameOf(tag);
    if name.Some? {
      names' := names' + [name.value];
    }
    var id := SheetIdOf(tag);
    if id.Some? {
      ids' := ids' + [id.value];
    }
    var rid := RIdOf(tag);
    if rid.Some? {
      rids' := rids' + [rid.value];
    }
    var entry := EntryOf(tag);
    if entry.Some? {
      entries' := entries' + [entry.value];
    }
  }
}
