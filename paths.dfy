/** The std::filesystem::path operations the library uses, on '/'-separated
    text: operator/ (Join), filename(), parent_path(), lexically_normal()
    and relative(). A path is split into segments at every '/'; an absolute
    path starts with '/', so its first segment is empty. */
module Paths {

  /** The segments of `p` between separators; always at least one. */
  function Split(p: string): (segs: seq<string>)
    ensures |segs| >= 1
    ensures forall i :: 0 <= i < |segs| ==> '/' !in segs[i]
  {
    if p == [] then [""]
    else
      var rest := Split(p[1..]);
      if p[0] == '/' then [""] + rest
      else [[p[0]] + rest[0]] + rest[1..]
  }

  /** The segments written back with a '/' between neighbours. */
  function JoinSegs(segs: seq<string>): string
  {
    if segs == [] then ""
    else if |segs| == 1 then segs[0]
    else segs[0] + "/" + JoinSegs(segs[1..])
  }

  lemma {:induction false} SplitNoSlashPrefix(s: string, t: string)
    requires '/' !in s
    ensures Split(s + t) == [s + Split(t)[0]] + Split(t)[1..]
    decreases |s|
  {
    if s != [] {
      assert (s + t)[1..] == s[1..] + t;
      SplitNoSlashPrefix(s[1..], t);
      assert [s[0]] + (s[1..] + Split(t)[0]) == s + Split(t)[0];
    } else {
      assert s + t == t;
      assert s + Split(t)[0] == Split(t)[0];
      assert Split(t) == [Split(t)[0]] + Split(t)[1..];
    }
  }

  /** Splitting undoes joining, for segments free of separators. */
  lemma {:induction false} SplitJoinSegs(segs: seq<string>)
    requires |segs| >= 1
    requires forall i :: 0 <= i < |segs| ==> '/' !in segs[i]
    ensures Split(JoinSegs(segs)) == segs
    decreases |segs|
  {
    if |segs| == 1 {
      SplitNoSlashPrefix(segs[0], "");
      assert segs[0] + "" == segs[0];
    } else {
      var rest := "/" + JoinSegs(segs[1..]);
      assert JoinSegs(segs) == segs[0] + rest;
      SplitNoSlashPrefix(segs[0], rest);
      SplitJoinSegs(segs[1..]);
      assert rest[1..] == JoinSegs(segs[1..]);
      assert Split(rest) == [""] + segs[1..];
      assert segs[0] + "" == segs[0];
    }
  }

  /** Joining undoes splitting: no text is lost. */
  lemma {:induction false} JoinSplit(p: string)
    ensures JoinSegs(Split(p)) == p
    decreases |p|
  {
    if p != [] {
      JoinSplit(p[1..]);
      var rest := Split(p[1..]);
      if p[0] == '/' {
        assert JoinSegs([""] + rest) == "" + "/" + JoinSegs(rest);
      } else {
        var segs := [[p[0]] + rest[0]] + rest[1..];
        if |rest| == 1 {
          assert JoinSegs(segs) == [p[0]] + rest[0];
        } else {
          assert segs[1..] == rest[1..];
          assert JoinSegs(rest) == rest[0] + "/" + JoinSegs(rest[1..]);
          assert JoinSegs(segs) == [p[0]] + rest[0] + "/" + JoinSegs(rest[1..]);
        }
      }
    }
  }

  lemma {:induction false} SplitAppend(a: string, b: string)
    ensures Split(a + "/" + b) == Split(a) + Split(b)
    decreases |a|
  {
    if a == [] {
      assert a + "/" + b == "/" + b;
      assert ("/" + b)[1..] == b;
    } else {
      assert (a + "/" + b)[1..] == a[1..] + "/" + b;
      SplitAppend(a[1..], b);
    }
  }

  predicate IsAbsolute(p: string)
  {
    p != [] && p[0] == '/'
  }

  /** path(a) / b: an absolute `b` replaces `a`; otherwise one separator is
      put between them unless `a` is empty or already ends with one. */
  function Join(a: string, b: string): (r: string)
    ensures IsAbsolute(b) ==> r == b
    ensures !IsAbsolute(b) && a != [] && a[|a| - 1] != '/' ==> r == a + "/" + b
  {
    if IsAbsolute(b) then b
    else if a == [] then b
    else if a[|a| - 1] == '/' then a + b
    else a + "/" + b
  }

  /** The index just after the last separator of `p`, or 0 without one. */
  function NameStart(p: string): (k: nat)
    ensures k <= |p|
    ensures k > 0 ==> p[k - 1] == '/'
    ensures '/' !in p[k..]
    decreases |p|
  {
    if p == [] || p[|p| - 1] == '/' then |p|
    else
      var k := NameStart(p[..|p| - 1]);
      assert p[k..] == p[..|p| - 1][k..] + [p[|p| - 1]];
      k
  }

  /** filename(): the text after the last separator. */
  function FileName(p: string): (r: string)
    ensures '/' !in r && |r| <= |p| && r == p[|p| - |r|..]
  {
    p[NameStart(p)..]
  }

  /** parent_path(): the text before the last separator; "/" for a file
      right under the root, "" without any separator. */
  function ParentPath(p: string): (r: string)
  {
    var k := NameStart(p);
    if k == 0 then ""
    else if k == 1 then "/"
    else p[..k - 1]
  }

  /** A path with a parent directory is that directory, a separator and the
      file name. */
  lemma ParentThenName(p: string)
    requires NameStart(p) >= 2
    ensures p == ParentPath(p) + "/" + FileName(p)
  {
    var k := NameStart(p);
    assert p == p[..k - 1] + [p[k - 1]] + p[k..];
  }

  lemma {:induction false} NameOfJoinSegs(segs: seq<string>)
    requires |segs| >= 1
    requires forall i :: 0 <= i < |segs| ==> '/' !in segs[i]
    ensures FileName(JoinSegs(segs)) == segs[|segs| - 1]
    ensures |segs| >= 2 ==> NameStart(JoinSegs(segs)) == |JoinSegs(segs[..|segs| - 1])| + 1
    ensures |segs| >= 2 ==> JoinSegs(segs) == JoinSegs(segs[..|segs| - 1]) + "/" + segs[|segs| - 1]
    decreases |segs|
  {
    var n := |segs|;
    var last := segs[n - 1];
    if n == 1 {
      LastSegmentStart("", last);
      assert "" + last == last;
    } else {
      var init := segs[..n - 1];
      JoinSegsSnoc(init, last);
      assert init + [last] == segs;
      LastSegmentStart(JoinSegs(init) + "/", last);
      assert JoinSegs(segs) == (JoinSegs(init) + "/") + last;
    }
  }

  lemma {:induction false} LastSegmentStart(prefix: string, last: string)
    requires '/' !in last
    requires prefix == [] || prefix[|prefix| - 1] == '/'
    ensures NameStart(prefix + last) == |prefix|
    decreases |last|
  {
    var p := prefix + last;
    if last == [] {
      assert p == prefix;
    } else {
      var init := last[..|last| - 1];
      assert p[..|p| - 1] == prefix + init;
      assert p[|p| - 1] == last[|last| - 1];
      assert p[|p| - 1] != '/';
      LastSegmentStart(prefix, init);
      assert NameStart(p) == NameStart(p[..|p| - 1]);
    }
  }

  lemma {:induction false} JoinSegsSnoc(segs: seq<string>, last: string)
    requires segs != []
    ensures JoinSegs(segs + [last]) == JoinSegs(segs) + "/" + last
    decreases |segs|
  {
    if |segs| == 1 {
      assert (segs + [last])[1..] == [last];
    } else {
      assert (segs + [last])[1..] == segs[1..] + [last];
      JoinSegsSnoc(segs[1..], last);
    }
  }

  /** Joining a relative path of two or more segments onto `a` in one step
      or one segment at a time gives the same path. */
  lemma JoinNested(a: string, b: string, c: string)
    requires b != [] && !IsAbsolute(b) && b[|b| - 1] != '/'
    requires !IsAbsolute(c)
    ensures Join(Join(a, b), c) == Join(a, b + "/" + c)
  {
    var ab := Join(a, b);
    assert ab[|ab| - 1] == b[|b| - 1];
    if a == [] {
    } else if a[|a| - 1] == '/' {
      assert (a + b) + "/" + c == a + (b + "/" + c);
    } else {
      assert (a + "/" + b) + "/" + c == a + "/" + (b + "/" + c);
    }
  }

  lemma {:induction false} JoinSegsAppend(a: seq<string>, b: seq<string>)
    requires a != [] && b != []
    ensures JoinSegs(a + b) == JoinSegs(a) + "/" + JoinSegs(b)
    decreases |a|
  {
    if |a| == 1 {
      assert (a + b)[1..] == b;
    } else {
      assert (a + b)[1..] == a[1..] + b;
      JoinSegsAppend(a[1..], b);
    }
  }

  /** The text of the absolute path with segments `segs`. */
  function Rooted(segs: seq<string>): string
  {
    "/" + JoinSegs(segs)
  }

  /** The parent and file name of a rooted path. */
  lemma RootedParent(segs: seq<string>, last: string)
    requires segs != [] && '/' !in last
    ensures ParentPath(Rooted(segs + [last])) == Rooted(segs)
    ensures FileName(Rooted(segs + [last])) == last
  {
    JoinSegsSnoc(segs, last);
    var pre := Rooted(segs) + "/";
    assert Rooted(segs + [last]) == pre + last;
    LastSegmentStart(pre, last);
    assert (pre + last)[..|pre| - 1] == Rooted(segs);
    assert (pre + last)[|pre|..] == last;
  }

  /** A path of plain segments does not end in a separator. */
  lemma {:induction false} PlainEnd(segs: seq<string>)
    requires segs != [] && forall i :: 0 <= i < |segs| ==> IsPlain(segs[i])
    ensures JoinSegs(segs) != [] && JoinSegs(segs)[|JoinSegs(segs)| - 1] != '/'
    decreases |segs|
  {
    if |segs| == 1 {
      var s := segs[0];
      assert IsPlain(s);
      assert s[|s| - 1] in s;
    } else {
      PlainEnd(segs[1..]);
      assert JoinSegs(segs) == segs[0] + "/" + JoinSegs(segs[1..]);
    }
  }

  /** Joining relative segments onto a rooted path of plain segments. */
  lemma RootedJoin(segs: seq<string>, more: seq<string>)
    requires segs != [] && forall i :: 0 <= i < |segs| ==> IsPlain(segs[i])
    requires more != [] && more[0] != "" && '/' !in more[0]
    ensures Join(Rooted(segs), JoinSegs(more)) == Rooted(segs + more)
  {
    PlainEnd(segs);
    RelativeText(more);
    JoinSegsAppend(segs, more);
    JoinPlainly(Rooted(segs), JoinSegs(more));
    assert Rooted(segs) + "/" + JoinSegs(more) == "/" + (JoinSegs(segs) + "/" + JoinSegs(more));
  }

  /** Segments whose first is a name do not make an absolute path. */
  lemma RelativeText(more: seq<string>)
    requires more != [] && more[0] != "" && '/' !in more[0]
    ensures !IsAbsolute(JoinSegs(more))
  {
    var m := JoinSegs(more);
    if |more| > 1 {
      assert m == more[0] + ("/" + JoinSegs(more[1..]));
    }
    assert m[0] == more[0][0];
    assert more[0][0] in more[0];
  }

  lemma JoinPlainly(a: string, b: string)
    requires a != [] && a[|a| - 1] != '/' && !IsAbsolute(b)
    ensures Join(a, b) == a + "/" + b
  {
  }

  /** A rooted path of plain segments is already normal. */
  lemma NormalRooted(segs: seq<string>)
    requires forall i :: 0 <= i < |segs| ==> IsPlain(segs[i])
    ensures Normalize(Rooted(segs)) == NormalPath(true, segs)
  {
    ReadBackAbsolute(NormalPath(true, segs));
  }

  /** Normalising a rooted path resolves its segments from the root. */
  lemma NormalizeRooted(all: seq<string>)
    requires all != [] && forall i :: 0 <= i < |all| ==> '/' !in all[i]
    ensures Normalize(Rooted(all)) == NormalPath(true, Resolve(true, [], all))
  {
    var t := Rooted(all);
    SplitJoinSegs(all);
    assert t[1..] == JoinSegs(all);
    assert Split(t) == [""] + all;
    assert ([""] + all)[1..] == all;
  }

  /** lexically_normal lets ".." cancel the directory before it. */
  lemma NormalClimb(b: seq<string>, dir: string, e: seq<string>)
    requires forall i :: 0 <= i < |b| ==> IsPlain(b[i])
    requires IsPlain(dir)
    requires forall i :: 0 <= i < |e| ==> IsPlain(e[i])
    ensures Normalize(Rooted(b + [dir, ".."] + e)) == NormalPath(true, b + e)
  {
    var all := b + [dir, ".."] + e;
    assert forall i :: 0 <= i < |all| ==> '/' !in all[i];
    NormalizeRooted(all);
    ResolveClimb(b, dir, e);
  }

  lemma ResolveClimb(b: seq<string>, dir: string, e: seq<string>)
    requires forall i :: 0 <= i < |b| ==> IsPlain(b[i])
    requires IsPlain(dir)
    requires forall i :: 0 <= i < |e| ==> IsPlain(e[i])
    ensures Resolve(true, [], b + [dir, ".."] + e) == b + e
  {
    var bd := b + [dir];
    var up := [".."] + e;
    Regroup(b, dir, "..", e);
    ResolveAppend(true, [], bd, up);
    ResolvePlain([], bd);
    assert [] + bd == bd;
    ResolveUp(b, dir, e);
    ResolvePlain(b, e);
  }

  /** The two middle elements of `b + [x, y] + e` split between its halves. */
  lemma Regroup<T>(b: seq<T>, x: T, y: T, e: seq<T>)
    ensures b + [x, y] + e == (b + [x]) + ([y] + e)
  {
    var l, r := b + [x, y] + e, (b + [x]) + ([y] + e);
    assert |l| == |r|;
    forall i | 0 <= i < |l|
      ensures l[i] == r[i]
    {
      if i < |b| {
      } else if i == |b| {
      } else if i == |b| + 1 {
      } else {
        assert l[i] == e[i - |b| - 2];
      }
    }
  }

  /** Plain segments are appended as they are. */
  lemma ResolvePlain(acc: seq<string>, segs: seq<string>)
    requires forall i :: 0 <= i < |acc| ==> IsPlain(acc[i])
    requires forall i :: 0 <= i < |segs| ==> IsPlain(segs[i])
    ensures Resolve(true, acc, segs) == acc + segs
  {
    PlainIsNormal(acc + segs);
    ResolveNormal(true, acc, segs);
  }

  /** A ".." removes the last plain segment. */
  lemma ResolveUp(b: seq<string>, dir: string, e: seq<string>)
    requires IsPlain(dir)
    ensures Resolve(true, b + [dir], [".."] + e) == Resolve(true, b, e)
  {
    var bd := b + [dir];
    assert bd[..|bd| - 1] == b;
    var up := [".."] + e;
    assert up[0] == ".." && up[1..] == e;
    assert Step(true, bd, "..") == b;
  }

  lemma PlainIsNormal(segs: seq<string>)
    requires forall i :: 0 <= i < |segs| ==> IsPlain(segs[i])
    ensures IsNormal(NormalPath(true, segs))
  {
    assert forall i :: 0 <= i < |segs| ==> segs[i] != "..";
  }

  // ---------------------------------------------------------------------
  // lexically_normal

  /** A normalised path: an absolute flag and segments none of which is
      empty or "."; ".." only as a leading run, and never under the root. */
  datatype NormalPath = NormalPath(absolute: bool, segs: seq<string>)

  predicate IsPlain(s: string)
  {
    s != "" && s != "." && s != ".." && '/' !in s
  }

  predicate IsNormal(n: NormalPath)
  {
    (forall i :: 0 <= i < |n.segs| ==> n.segs[i] == ".." || IsPlain(n.segs[i])) &&
    (forall i, j :: 0 <= i < j < |n.segs| && n.segs[j] == ".." ==> n.segs[i] == "..") &&
    (n.absolute ==> forall i :: 0 <= i < |n.segs| ==> n.segs[i] != "..")
  }

  /** One segment of lexically_normal's left-to-right pass: skip "" and ".",
      let ".." cancel the last plain segment (or vanish at the root). */
  function Step(absolute: bool, acc: seq<string>, s: string): seq<string>
  {
    if s == "" || s == "." then acc
    else if s == ".." then
      if acc != [] && acc[|acc| - 1] != ".." then acc[..|acc| - 1]
      else if absolute then acc
      else acc + [".."]
    else acc + [s]
  }

  function Resolve(absolute: bool, acc: seq<string>, segs: seq<string>): seq<string>
    decreases |segs|
  {
    if segs == [] then acc else Resolve(absolute, Step(absolute, acc, segs[0]), segs[1..])
  }

  function Normalize(p: string): (n: NormalPath)
    ensures n.absolute == IsAbsolute(p)
  {
    NormalPath(IsAbsolute(p), Resolve(IsAbsolute(p), [], Split(p)))
  }

  function ToText(n: NormalPath): string
  {
    if n.absolute then "/" + JoinSegs(n.segs)
    else if n.segs == [] then "."
    else JoinSegs(n.segs)
  }

  /** lexically_normal(), as text. */
  function Normal(p: string): string
  {
    ToText(Normalize(p))
  }

  lemma StepKeepsNormal(absolute: bool, acc: seq<string>, s: string)
    requires '/' !in s
    requires IsNormal(NormalPath(absolute, acc))
    ensures IsNormal(NormalPath(absolute, Step(absolute, acc, s)))
  {
  }

  lemma {:induction false} ResolveIsNormal(absolute: bool, acc: seq<string>, segs: seq<string>)
    requires forall i :: 0 <= i < |segs| ==> '/' !in segs[i]
    requires IsNormal(NormalPath(absolute, acc))
    ensures IsNormal(NormalPath(absolute, Resolve(absolute, acc, segs)))
    decreases |segs|
  {
    if segs != [] {
      StepKeepsNormal(absolute, acc, segs[0]);
      ResolveIsNormal(absolute, Step(absolute, acc, segs[0]), segs[1..]);
    }
  }

  /** lexically_normal always yields a normal path. */
  lemma NormalizeIsNormal(p: string)
    ensures IsNormal(Normalize(p))
  {
    ResolveIsNormal(IsAbsolute(p), [], Split(p));
  }

  /** Resolving segments that are already normal appends them unchanged. */
  lemma {:induction false} ResolveNormal(absolute: bool, acc: seq<string>, segs: seq<string>)
    requires IsNormal(NormalPath(absolute, acc + segs))
    ensures Resolve(absolute, acc, segs) == acc + segs
    decreases |segs|
  {
    if segs != [] {
      var s := segs[0];
      var all := acc + segs;
      assert all[|acc|] == s;
      if s == ".." {
        assert forall i :: 0 <= i < |acc| ==> acc[i] == all[i];
        assert acc == [] || acc[|acc| - 1] == "..";
      }
      assert Step(absolute, acc, s) == acc + [s];
      assert (acc + [s]) + segs[1..] == all;
      ResolveNormal(absolute, acc + [s], segs[1..]);
    }
  }

  lemma {:induction false} ResolveAppend(absolute: bool, acc: seq<string>, a: seq<string>, b: seq<string>)
    ensures Resolve(absolute, acc, a + b) == Resolve(absolute, Resolve(absolute, acc, a), b)
    decreases |a|
  {
    if a != [] {
      assert (a + b)[0] == a[0] && (a + b)[1..] == a[1..] + b;
      ResolveAppend(absolute, Step(absolute, acc, a[0]), a[1..], b);
    } else {
      assert a + b == b;
    }
  }

  /** lexically_normal is idempotent, so files can be looked up by the
      normal form of any path that names them. */
  lemma NormalIdempotent(p: string)
    ensures Normalize(Normal(p)) == Normalize(p)
  {
    NormalizeIsNormal(p);
    ReadBack(Normalize(p));
  }

  /** Writing a normal path out and normalising the text gives it back. */
  lemma ReadBack(n: NormalPath)
    requires IsNormal(n)
    ensures Normalize(ToText(n)) == n
  {
    if n.absolute {
      ReadBackAbsolute(n);
    } else if n.segs == [] {
      var t := ToText(n);
      assert t == ".";
      assert t[0] == '.' && t[1..] == [];
      assert Split(t[1..]) == [""];
      assert ['.'] + "" == ".";
      assert Split(t) == ["."];
    } else {
      ReadBackRelative(n);
    }
  }

  lemma ReadBackAbsolute(n: NormalPath)
    requires IsNormal(n) && n.absolute
    ensures Normalize(ToText(n)) == n
  {
    var t := ToText(n);
    assert t == "/" + JoinSegs(n.segs);
    assert IsAbsolute(t);
    if n.segs == [] {
      assert t == "/" && t[1..] == [];
      assert Split(t) == ["", ""];
      assert Resolve(true, [], ["", ""]) == [];
    } else {
      SplitJoinSegs(n.segs);
      assert t[1..] == JoinSegs(n.segs);
      assert Split(t) == [""] + n.segs;
      ResolveNormal(true, [], n.segs);
      assert Resolve(true, [], [""] + n.segs) == Resolve(true, [], n.segs);
    }
  }

  lemma ReadBackRelative(n: NormalPath)
    requires IsNormal(n) && !n.absolute && n.segs != []
    ensures Normalize(ToText(n)) == n
  {
    var t := ToText(n);
    assert t == JoinSegs(n.segs);
    SplitJoinSegs(n.segs);
    assert Split(t)[0] != "";
    FirstSegmentOfAbsolute(t);
    ResolveNormal(false, [], n.segs);
    assert [] + n.segs == n.segs;
  }

  lemma FirstSegmentOfAbsolute(t: string)
    ensures IsAbsolute(t) <==> Split(t)[0] == "" && t != []
  {
  }

  // ---------------------------------------------------------------------
  // relative(p, base), with both sides normalised

  function CommonPrefix(a: seq<string>, b: seq<string>): (k: nat)
    ensures k <= |a| && k <= |b| && a[..k] == b[..k]
    ensures k < |a| && k < |b| ==> a[k] != b[k]
    decreases |a|
  {
    if a != [] && b != [] && a[0] == b[0] then
      var k := CommonPrefix(a[1..], b[1..]);
      assert a[..k + 1] == [a[0]] + a[1..][..k];
      assert b[..k + 1] == [b[0]] + b[1..][..k];
      k + 1
    else 0
  }

  /** Each segment of `b` counts +1, a ".." counts -1. */
  function Depth(b: seq<string>): int
  {
    if b == [] then 0 else (if b[0] == ".." then -1 else 1) + Depth(b[1..])
  }

  function Ups(n: nat): (r: seq<string>)
    ensures |r| == n && forall i :: 0 <= i < n ==> r[i] == ".."
  {
    if n == 0 then [] else [".."] + Ups(n - 1)
  }

  /** path::lexically_relative: "" when the two cannot be related, "." when
      they are the same, otherwise enough ".." to climb out of what is left
      of `base` followed by what is left of `p`. */
  function LexicallyRelative(p: NormalPath, base: NormalPath): string
  {
    if p.absolute != base.absolute then ""
    else
      var k := CommonPrefix(p.segs, base.segs);
      if k == |p.segs| && k == |base.segs| then "."
      else
        var n := Depth(base.segs[k..]);
        if n < 0 then ""
        else if n == 0 && k == |p.segs| then "."
        else JoinSegs(Ups(n) + p.segs[k..])
  }

  /** std::filesystem::relative, lexically: both sides normalised first. */
  function Relative(p: string, base: string): string
  {
    LexicallyRelative(Normalize(p), Normalize(base))
  }

  /** A directory below `base` is reached from it by the extra segments. */
  lemma RelativeBelow(absolute: bool, b: seq<string>, e: seq<string>)
    requires e != []
    ensures LexicallyRelative(NormalPath(absolute, b + e), NormalPath(absolute, b)) == JoinSegs(e)
  {
    var k := CommonPrefix(b + e, b);
    assert (b + e)[..|b|] == b;
    assert k == |b|;
    assert b[k..] == [];
    assert (b + e)[k..] == e;
    assert Ups(0) + e == e;
  }

  /** The reverse direction: a directory above `p` climbs with "..". */
  lemma RelativeAbove(absolute: bool, b: seq<string>, e: seq<string>)
    requires e != []
    requires forall i :: 0 <= i < |e| ==> IsPlain(e[i])
    ensures LexicallyRelative(NormalPath(absolute, b), NormalPath(absolute, b + e)) == JoinSegs(Ups(|e|))
  {
    ExtensionPrefix(b, e);
    assert (b + e)[|b|..] == e;
    PlainDepth(e);
    assert b[|b|..] == [];
    assert Ups(|e|) + b[|b|..] == Ups(|e|);
  }

  /** A sequence and an extension of it share exactly the shorter one. */
  lemma ExtensionPrefix(b: seq<string>, e: seq<string>)
    requires e != []
    ensures CommonPrefix(b, b + e) == |b|
  {
    assert (b + e)[..|b|] == b;
  }

  lemma {:induction false} PlainDepth(e: seq<string>)
    requires forall i :: 0 <= i < |e| ==> IsPlain(e[i])
    ensures Depth(e) == |e|
    decreases |e|
  {
    if e != [] {
      PlainDepth(e[1..]);
    }
  }
}
