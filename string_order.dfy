/** std::string's operator<: lexicographic order, a proper prefix first.
    Characters compare by code point, which for UTF-8 text is the same as
    the byte-wise comparison char_traits<char> performs. Also the ascending
    order of a finite set of strings, which is what std::sort produces on
    the (unique) keys of a std::map copied into a vector. */
module StringOrder {

  predicate Less(a: string, b: string)
    decreases |a|
  {
    if a == [] then b != []
    else if b == [] then false
    else a[0] < b[0] || (a[0] == b[0] && Less(a[1..], b[1..]))
  }

  lemma {:induction false} LessIrreflexive(a: string)
    ensures !Less(a, a)
    decreases |a|
  {
    if a != [] { LessIrreflexive(a[1..]); }
  }

  lemma {:induction false} LessTransitive(a: string, b: string, c: string)
    requires Less(a, b) && Less(b, c)
    ensures Less(a, c)
    decreases |a|
  {
    if a != [] && b != [] && c != [] && a[0] == b[0] && b[0] == c[0] {
      LessTransitive(a[1..], b[1..], c[1..]);
    }
  }

  lemma {:induction false} LessTotal(a: string, b: string)
    requires a != b
    ensures Less(a, b) || Less(b, a)
    decreases |a|
  {
    if a != [] && b != [] && a[0] == b[0] {
      assert a == [a[0]] + a[1..] && b == [b[0]] + b[1..];
      LessTotal(a[1..], b[1..]);
    }
  }

  lemma LessAsymmetric(a: string, b: string)
    requires Less(a, b)
    ensures !Less(b, a)
  {
    if Less(b, a) {
      LessTransitive(a, b, a);
      LessIrreflexive(a);
    }
  }

  /** Cell references sort as strings: "AA1" comes before "B1", and "A10"
      before "A2", although column B precedes column AA and row 2 precedes
      row 10. */
  lemma ReferenceOrderIsTextual()
    ensures Less("AA1", "B1") && !Less("B1", "AA1")
    ensures Less("A10", "A2") && !Less("A2", "A10")
  {
    assert "AA1"[0] == 'A' && "B1"[0] == 'B';
    assert "A10"[1..] == "10" && "A2"[1..] == "2";
    assert "10"[0] == '1' && "2"[0] == '2';
  }

  predicate IsLeast(k: string, s: set<string>)
  {
    k in s && forall x :: x in s ==> x == k || Less(k, x)
  }

  lemma {:induction false} LeastExists(s: set<string>)
    requires s != {}
    ensures exists k :: IsLeast(k, s)
    decreases |s|
  {
    var x :| x in s;
    if s == {x} {
      assert IsLeast(x, s);
    } else {
      var rest := s - {x};
      LeastExists(rest);
      var k :| IsLeast(k, rest);
      if Less(k, x) {
        assert IsLeast(k, s);
      } else {
        LessTotal(k, x);
        forall y | y in s
          ensures y == x || Less(x, y)
        {
          if y != x && y != k { LessTransitive(x, k, y); }
        }
        assert IsLeast(x, s);
      }
    }
  }

  lemma LeastUnique(k1: string, k2: string, s: set<string>)
    requires IsLeast(k1, s) && IsLeast(k2, s)
    ensures k1 == k2
  {
    if k1 != k2 { LessAsymmetric(k1, k2); }
  }

  ghost function Least(s: set<string>): (k: string)
    requires s != {}
    ensures IsLeast(k, s)
  {
    LeastExists(s);
    var k :| IsLeast(k, s); k
  }

  /** The elements of `s` in ascending order. */
  ghost function Sorted(s: set<string>): (ks: seq<string>)
    decreases |s|
  {
    if s == {} then []
    else
      var k := Least(s);
      [k] + Sorted(s - {k})
  }

  lemma {:induction false} SortedMembers(s: set<string>)
    ensures |Sorted(s)| == |s|
    ensures forall k :: k in Sorted(s) <==> k in s
    decreases |s|
  {
    if s != {} {
      SortedMembers(s - {Least(s)});
    }
  }

  predicate StrictlyAscending(ks: seq<string>)
  {
    forall i, j :: 0 <= i < j < |ks| ==> Less(ks[i], ks[j])
  }

  /** The order really is ascending; with the membership clause of Sorted
      this pins the sequence down uniquely. */
  lemma {:induction false} SortedAscending(s: set<string>)
    ensures StrictlyAscending(Sorted(s))
    decreases |s|
  {
    if s != {} {
      var k := Least(s);
      var rest := s - {k};
      var tail := Sorted(rest);
      SortedAscending(rest);
      SortedMembers(rest);
      var ks := Sorted(s);
      assert ks == [k] + tail;
      forall i, j | 0 <= i < j < |ks|
        ensures Less(ks[i], ks[j])
      {
        if i == 0 {
          assert ks[j] == tail[j - 1];
          assert tail[j - 1] in rest;
        } else {
          assert Less(tail[i - 1], tail[j - 1]);
        }
      }
    }
  }

  /** The least element of a non-empty set, found by one pass over it. */
  method LeastOf(s: set<string>) returns (k: string)
    requires s != {}
    ensures IsLeast(k, s)
  {
    k :| k in s;
    var rest := s - {k};
    while rest != {}
      invariant rest <= s && k in s && k !in rest
      invariant forall y :: y in s && y !in rest ==> y == k || Less(k, y)
      decreases |rest|
    {
      var x :| x in rest;
      if Less(x, k) {
        forall y | y in s && y !in rest - {x}
          ensures y == x || Less(x, y)
        {
          if y != x && y != k {
            LessTransitive(x, k, y);
          }
        }
        k := x;
      } else if x != k {
        LessTotal(x, k);
      }
      rest := rest - {x};
    }
  }

  /** The ascending order starts with the least element. */
  lemma SortedFront(s: set<string>, k: string)
    requires IsLeast(k, s)
    ensures Sorted(s) == [k] + Sorted(s - {k})
  {
    LeastUnique(k, Least(s), s);
  }

  /** std::map keeps its keys in ascending order: the keys of a set, in
      that order. */
  method SortKeys(s: set<string>) returns (ks: seq<string>)
    ensures ks == Sorted(s)
  {
    ks := [];
    var rest := s;
    while rest != {}
      invariant ks + Sorted(rest) == Sorted(s)
      decreases |rest|
    {
      var k := LeastOf(rest);
      SortedFront(rest, k);
      assert ks + Sorted(rest) == (ks + [k]) + Sorted(rest - {k});
      ks := ks + [k];
      rest := rest - {k};
    }
    assert ks + [] == ks;
  }
}
