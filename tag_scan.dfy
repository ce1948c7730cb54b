/** The text scan every hand-written parser of the library performs: from a
    position, find the next `open`, then the first `close` at or after it;
    the element is the text from `open` through `close`, and the scan goes on
    right after `close`. A missing `open` or `close` ends the scan. */
module TagScan {
  import opened Wrappers
  import opened Text
  import opened Overlays

  /** A relationship element as the text scanners delimit it. */
  const RelOpen: string := "<Relationship "
  const RelClose: string := "/>"
  const IdKey: string := "Id=\""
  const TargetKey: string := "Target=\""

  function Tags(s: string, open: string, close: string, from: nat): (tags: seq<string>)
    requires close != []
    decreases |s| - from
  {
    match Find(s, open, from)
    case None => []
    case Some(p) =>
      match Find(s, close, p)
      case None => []
      case Some(e) => [s[p..e + |close|]] + Tags(s, open, close, e + |close|)
  }

  /** One round of a scanning loop: the next `open` at or after `pos`, the
      first `close` at or after it, and the element between them with where
      the scan resumes; None when either search fails. */
  method NextTag(s: string, open: string, close: string, pos: nat) returns (next: Option<(string, nat)>)
    requires close != []
    ensures next.None? ==> Tags(s, open, close, pos) == []
    ensures next.Some? ==> pos < next.value.1 <= |s|
    ensures next.Some? ==> Tags(s, open, close, pos) == [next.value.0] + Tags(s, open, close, next.value.1)
  {
    var openPos := Find(s, open, pos);
    if openPos.None? {
      return None;
    }
    var closePos := Find(s, close, openPos.value);
    if closePos.None? {
      return None;
    }
    TagsAdvance(s, open, close, pos, openPos.value, closePos.value);
    next := Some((s[openPos.value..closePos.value + |close|], closePos.value + |close|));
  }

  /** The scanning loop that assigns every element's entry into a map. */
  method CollectEntries<K, V>(s: string, open: string, close: string, entry: string -> Option<(K, V)>)
    returns (m: map<K, V>)
    requires close != []
    ensures m == Overlay(map[], Keep(Tags(s, open, close, 0), entry))
  {
    m := map[];
    var pos: nat := 0;
    while true
      invariant pos <= |s|
      invariant Overlay(m, Keep(Tags(s, open, close, pos), entry)) == Overlay(map[], Keep(Tags(s, open, close, 0), entry))
      decreases |s| - pos
    {
      var next := NextTag(s, open, close, pos);
      if next.None? {
        break;
      }
      var (tag, after) := next.value;
      KeepOverlayCons(m, tag, Tags(s, open, close, after), entry);
      // an element without an entry leaves the map as it is
      m := Assign(m, entry(tag));
      pos := after;
    }
  }

  /** What a loop that stops at the first element `read` accepts finds,
      element by element from `from` on. */
  function FirstFrom<U>(s: string, open: string, close: string, from: nat, read: string -> Option<U>): Option<U>
    requires close != []
    decreases |s| - from
  {
    match Find(s, open, from)
    case None => None
    case Some(p) =>
      match Find(s, close, p)
      case None => None
      case Some(e) =>
        if read(s[p..e + |close|]).Some? then read(s[p..e + |close|])
        else FirstFrom(s, open, close, e + |close|, read)
  }

  /** The loop finds the first value `read` gives over the scanned
      elements. */
  lemma {:induction false} FirstFromTags<U>(s: string, open: string, close: string, from: nat, read: string -> Option<U>)
    requires close != []
    ensures FirstFrom(s, open, close, from, read) == FirstOf(Tags(s, open, close, from), read)
    decreases |s| - from
  {
    match Find(s, open, from)
    case None =>
    case Some(p) =>
      match Find(s, close, p)
      case None =>
      case Some(e) =>
        var tags := Tags(s, open, close, from);
        assert tags[0] == s[p..e + |close|];
        assert tags[1..] == Tags(s, open, close, e + |close|);
        FirstFromTags(s, open, close, e + |close|, read);
  }

  /** The scanning loop that stops at its first success. */
  method FindFirst<U>(s: string, open: string, close: string, read: string -> Option<U>) returns (r: Option<U>)
    requires close != []
    ensures r == FirstFrom(s, open, close, 0, read)
  {
    var pos: nat := 0;
    while true
      invariant pos <= |s|
      invariant FirstFrom(s, open, close, pos, read) == FirstFrom(s, open, close, 0, read)
      decreases |s| - pos
    {
      var openPos := Find(s, open, pos);
      if openPos.None? {
        return None;
      }
      var closePos := Find(s, close, openPos.value);
      if closePos.None? {
        return None;
      }
      var found := read(s[openPos.value..closePos.value + |close|]);
      if found.Some? {
        return found;
      }
      pos := closePos.value + |close|;
    }
  }

  /** `tag` ends with `close` and, when it is at least as long as `open`,
      starts with `open`. */
  predicate Delimited(tag: string, open: string, close: string)
  {
    |close| <= |tag| && tag[|tag| - |close|..] == close &&
    (|open| <= |tag| ==> tag[..|open|] == open)
  }

  /** Every element the scan yields ends with `close` and, when it is at
      least as long as `open`, starts with `open` (a `close` may overlap the
      `open` it follows). */
  lemma {:induction false} TagsDelimited(s: string, open: string, close: string, from: nat, i: nat)
    requires close != [] && i < |Tags(s, open, close, from)|
    ensures Delimited(Tags(s, open, close, from)[i], open, close)
    decreases |s| - from
  {
    var p := Find(s, open, from).value;
    var e := Find(s, close, p).value;
    TagsAdvance(s, open, close, from, p, e);
    if i == 0 {
      FindFound(s, open, from, p);
      FindFound(s, close, p, e);
      SpanDelimited(s, open, close, p, e);
    } else {
      TagsDelimited(s, open, close, e + |close|, i - 1);
      assert Tags(s, open, close, from)[i] == Tags(s, open, close, e + |close|)[i - 1];
    }
  }

  /** The text from an `open` at `p` through a `close` at `e >= p`. */
  lemma SpanDelimited(s: string, open: string, close: string, p: nat, e: nat)
    requires p <= e && OccursAt(s, open, p) && OccursAt(s, close, e)
    ensures Delimited(s[p..e + |close|], open, close)
  {
    var tag := s[p..e + |close|];
    if |open| <= |tag| {
      assert tag[..|open|] == s[p..p + |open|];
    }
    assert tag[|tag| - |close|..] == s[e..e + |close|];
  }

  /** One step of the scan: an element whose `open` is the next one and whose
      `close` is the first after that `open`. */
  lemma TagsStep(s: string, open: string, close: string, from: nat, p: nat, e: nat)
    requires close != []
    requires from <= p && OccursAt(s, open, p)
    requires forall j :: from <= j < p ==> !OccursAt(s, open, j)
    requires p <= e && OccursAt(s, close, e)
    requires forall j :: p <= j < e ==> !OccursAt(s, close, j)
    ensures Tags(s, open, close, from) == [s[p..e + |close|]] + Tags(s, open, close, e + |close|)
  {
    FindIs(s, open, from, p);
    FindIs(s, close, p, e);
    var tags := Tags(s, open, close, from);
    assert tags == [s[p..e + |close|]] + Tags(s, open, close, e + |close|);
  }

  /** The step a scanning loop takes: the two searches it performs decide
      the next element and where the scan resumes. */
  lemma TagsAdvance(s: string, open: string, close: string, from: nat, p: nat, e: nat)
    requires close != []
    requires Find(s, open, from) == Some(p) && Find(s, close, p) == Some(e)
    ensures e + |close| <= |s| && p <= e
    ensures Tags(s, open, close, from) == [s[p..e + |close|]] + Tags(s, open, close, e + |close|)
  {
  }

  /** The scan stops where either search fails. */
  lemma TagsStop(s: string, open: string, close: string, from: nat)
    requires close != []
    requires Find(s, open, from).None? || Find(s, close, Find(s, open, from).value).None?
    ensures Tags(s, open, close, from) == []
  {
  }

  /** Without a further `open` the scan yields nothing more. */
  lemma TagsEnd(s: string, open: string, close: string, from: nat)
    requires close != []
    requires forall j :: from <= j ==> !OccursAt(s, open, j)
    ensures Tags(s, open, close, from) == []
  {
    FindSpec(s, open, from);
  }

  /** An element written as `open` + body + `close` at `p`, with nothing
      before it that looks like `open` and no `close` inside it, is scanned
      back whole. */
  lemma ScanReadsElement(s: string, p: nat, open: string, body: string, close: string)
    requires close != []
    requires OccursAt(s, open + body + close, p)
    requires forall j :: 0 <= j < p ==> !OccursAt(s, open, j)
    requires forall j :: p <= j < p + |open| + |body| ==> !OccursAt(s, close, j)
    ensures Tags(s, open, close, 0) == [open + body + close] + Tags(s, open, close, p + |open| + |body| + |close|)
  {
    var w := open + body + close;
    var e := p + |open| + |body|;
    assert s[p..p + |w|] == w;
    assert OccursAt(s, open, p) by {
      assert s[p..p + |open|] == s[p..p + |w|][..|open|];
      assert w[..|open|] == open;
    }
    assert OccursAt(s, close, e) by {
      assert s[e..e + |close|] == s[p..p + |w|][|open| + |body|..];
      assert w[|open| + |body|..] == close;
    }
    TagsStep(s, open, close, 0, p, e);
    assert s[p..e + |close|] == w;
  }
}
