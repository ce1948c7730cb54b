/** The two shapes every scanning loop of the library has: "push the items
    that parsed" (a filter-map over the visited elements) and "assign
    map[key] = value, a later key overwriting an earlier one" (a map overlay).
    Both are defined from the last element so that a loop that has visited
    `xs` and now visits `x` extends `xs + [x]` by one definition step. */
module Overlays {
  import opened Wrappers

  /** The values `f` yields, in order, skipping the elements it rejects. */
  function Keep<T, U>(xs: seq<T>, f: T -> Option<U>): (ys: seq<U>)
    ensures |ys| <= |xs|
    decreases |xs|
  {
    if xs == [] then []
    else Keep(xs[..|xs| - 1], f) + (if f(xs[|xs| - 1]).Some? then [f(xs[|xs| - 1]).value] else [])
  }

  lemma KeepSnoc<T, U>(xs: seq<T>, x: T, f: T -> Option<U>)
    ensures Keep(xs + [x], f) == Keep(xs, f) + (if f(x).Some? then [f(x).value] else [])
  {
    assert (xs + [x])[..|xs|] == xs;
  }

  /** The kept values of a prefix one element longer. */
  lemma KeepPrefix<T, U>(xs: seq<T>, i: nat, f: T -> Option<U>)
    requires i < |xs|
    ensures Keep(xs[..i + 1], f) == Keep(xs[..i], f) + (if f(xs[i]).Some? then [f(xs[i]).value] else [])
  {
    assert xs[..i + 1] == xs[..i] + [xs[i]];
    KeepSnoc(xs[..i], xs[i], f);
  }

  lemma {:induction false} KeepMember<T, U>(xs: seq<T>, f: T -> Option<U>, y: U)
    ensures y in Keep(xs, f) <==> exists i :: 0 <= i < |xs| && f(xs[i]) == Some(y)
    decreases |xs|
  {
    if xs != [] {
      var n := |xs| - 1;
      KeepMember(xs[..n], f, y);
      if y in Keep(xs[..n], f) {
        var i :| 0 <= i < n && f(xs[..n][i]) == Some(y);
        assert f(xs[i]) == Some(y);
      }
      if exists i :: 0 <= i < |xs| && f(xs[i]) == Some(y) {
        var i :| 0 <= i < |xs| && f(xs[i]) == Some(y);
        if i < n {
          assert f(xs[..n][i]) == Some(y);
        }
      }
    }
  }

  /** Keeping everything that `f` accepts from a list `f` accepts entirely
      loses nothing. */
  lemma {:induction false} KeepAll<T, U>(xs: seq<T>, f: T -> Option<U>)
    requires forall i :: 0 <= i < |xs| ==> f(xs[i]).Some?
    ensures |Keep(xs, f)| == |xs|
    ensures forall i :: 0 <= i < |xs| ==> Keep(xs, f)[i] == f(xs[i]).value
    decreases |xs|
  {
    if xs != [] {
      KeepAll(xs[..|xs| - 1], f);
    }
  }

  /** Apply the assignments `m[k] := v` of `kvs` in order. */
  function Overlay<K, V>(m: map<K, V>, kvs: seq<(K, V)>): map<K, V>
    decreases |kvs|
  {
    if kvs == [] then m
    else
      var n := |kvs| - 1;
      Overlay(m, kvs[..n])[kvs[n].0 := kvs[n].1]
  }

  /** A key is present exactly when `m` has it or some assignment sets it. */
  lemma {:induction false} OverlayKeys<K, V>(m: map<K, V>, kvs: seq<(K, V)>, k: K)
    ensures k in Overlay(m, kvs) <==> k in m || exists i :: 0 <= i < |kvs| && kvs[i].0 == k
    decreases |kvs|
  {
    if kvs != [] {
      var n := |kvs| - 1;
      OverlayKeys(m, kvs[..n], k);
      if exists i :: 0 <= i < |kvs| && kvs[i].0 == k {
        var i :| 0 <= i < |kvs| && kvs[i].0 == k;
        if i < n {
          assert kvs[..n][i].0 == k;
        }
      }
    }
  }

  lemma OverlaySnoc<K, V>(m: map<K, V>, kvs: seq<(K, V)>, kv: (K, V))
    ensures Overlay(m, kvs + [kv]) == Overlay(m, kvs)[kv.0 := kv.1]
  {
    assert (kvs + [kv])[..|kvs|] == kvs;
  }

  /** The last assignment to a key decides its value. */
  lemma {:induction false} OverlayLastWins<K, V>(m: map<K, V>, kvs: seq<(K, V)>, i: nat)
    requires i < |kvs|
    requires forall j :: i < j < |kvs| ==> kvs[j].0 != kvs[i].0
    ensures kvs[i].0 in Overlay(m, kvs) && Overlay(m, kvs)[kvs[i].0] == kvs[i].1
    decreases |kvs|
  {
    var n := |kvs| - 1;
    if i < n {
      OverlayLastWins(m, kvs[..n], i);
    }
  }

  /** A key no assignment mentions keeps its value. */
  lemma {:induction false} OverlayUntouched<K, V>(m: map<K, V>, kvs: seq<(K, V)>, k: K)
    requires forall j :: 0 <= j < |kvs| ==> kvs[j].0 != k
    ensures k in Overlay(m, kvs) <==> k in m
    ensures k in m ==> Overlay(m, kvs)[k] == m[k]
    decreases |kvs|
  {
    if kvs != [] {
      OverlayUntouched(m, kvs[..|kvs| - 1], k);
    }
  }

  /** Every value of the overlay came from `m` or from an assignment. */
  lemma {:induction false} OverlayValueOrigin<K, V>(m: map<K, V>, kvs: seq<(K, V)>, k: K)
    requires k in Overlay(m, kvs)
    ensures (k in m && Overlay(m, kvs)[k] == m[k]) || exists j :: 0 <= j < |kvs| && kvs[j] == (k, Overlay(m, kvs)[k])
    decreases |kvs|
  {
    if kvs != [] {
      var n := |kvs| - 1;
      if kvs[n].0 != k {
        OverlayValueOrigin(m, kvs[..n], k);
        if exists j :: 0 <= j < n && kvs[..n][j] == (k, Overlay(m, kvs[..n])[k]) {
          var j :| 0 <= j < n && kvs[..n][j] == (k, Overlay(m, kvs[..n])[k]);
          assert kvs[j] == (k, Overlay(m, kvs)[k]);
        }
      } else {
        assert kvs[n] == (k, Overlay(m, kvs)[k]);
      }
    }
  }

  /** The map built from the accepted elements of `xs + [x]`: one more
      assignment when `x` is accepted, none otherwise. */
  lemma KeepOverlaySnoc<T, K, V>(xs: seq<T>, x: T, f: T -> Option<(K, V)>)
    ensures f(x).None? ==> Overlay(map[], Keep(xs + [x], f)) == Overlay(map[], Keep(xs, f))
    ensures f(x).Some? ==> Overlay(map[], Keep(xs + [x], f)) == Overlay(map[], Keep(xs, f))[f(x).value.0 := f(x).value.1]
  {
    KeepSnoc(xs, x, f);
    var ks := Keep(xs, f);
    if f(x).Some? {
      OverlaySnoc(map[], ks, f(x).value);
    } else {
      assert Keep(xs + [x], f) == ks + [];
      assert ks + [] == ks;
    }
  }

  /** The keys of the map built from the accepted elements of `xs`: exactly
      the keys some element yields. */
  lemma {:induction false} KeepOverlayKeys<T, K, V>(xs: seq<T>, f: T -> Option<(K, V)>, k: K)
    ensures k in Overlay(map[], Keep(xs, f)) <==> exists i :: 0 <= i < |xs| && f(xs[i]).Some? && f(xs[i]).value.0 == k
    decreases |xs|
  {
    if xs != [] {
      var n := |xs| - 1;
      var init := xs[..n];
      KeepOverlayKeys(init, f, k);
      assert xs == init + [xs[n]];
      KeepOverlaySnoc(init, xs[n], f);
      if exists i :: 0 <= i < |init| && f(init[i]).Some? && f(init[i]).value.0 == k {
        var i :| 0 <= i < |init| && f(init[i]).Some? && f(init[i]).value.0 == k;
        assert xs[i] == init[i];
      }
      if exists i :: 0 <= i < |xs| && f(xs[i]).Some? && f(xs[i]).value.0 == k {
        var i :| 0 <= i < |xs| && f(xs[i]).Some? && f(xs[i]).value.0 == k;
        if i < n {
          assert init[i] == xs[i];
        }
      }
    }
  }

  /** The value of a key is the one its last yielding element gives. */
  lemma {:induction false} KeepOverlayLast<T, K, V>(xs: seq<T>, f: T -> Option<(K, V)>, i: nat)
    requires i < |xs| && f(xs[i]).Some?
    requires forall j :: i < j < |xs| && f(xs[j]).Some? ==> f(xs[j]).value.0 != f(xs[i]).value.0
    ensures f(xs[i]).value.0 in Overlay(map[], Keep(xs, f))
    ensures Overlay(map[], Keep(xs, f))[f(xs[i]).value.0] == f(xs[i]).value.1
    decreases |xs|
  {
    var n := |xs| - 1;
    var init := xs[..n];
    assert xs == init + [xs[n]];
    KeepOverlaySnoc(init, xs[n], f);
    if i < n {
      assert init[i] == xs[i];
      KeepOverlayLast(init, f, i);
    }
  }

  /** The assignment an optional key-value pair makes. */
  function Assign<K, V>(m: map<K, V>, kv: Option<(K, V)>): (r: map<K, V>)
  {
    if kv.Some? then m[kv.value.0 := kv.value.1] else m
  }

  /** Building the map from the front: the first element's assignment is
      made first, and the rest are applied on top of it. */
  lemma {:induction false} KeepOverlayCons<T, K, V>(m: map<K, V>, x: T, xs: seq<T>, f: T -> Option<(K, V)>)
    ensures Overlay(m, Keep([x] + xs, f)) == Overlay(Assign(m, f(x)), Keep(xs, f))
    decreases |xs|
  {
    if xs == [] {
      assert [x] + xs == [] + [x];
      KeepSnoc([], x, f);
      if f(x).Some? {
        OverlaySnoc(m, [], f(x).value);
      }
    } else {
      var n := |xs| - 1;
      var ys := xs[..n];
      var y := xs[n];
      assert xs == ys + [y];
      assert [x] + xs == ([x] + ys) + [y];
      KeepOverlayCons(m, x, ys, f);
      KeepSnoc([x] + ys, y, f);
      KeepSnoc(ys, y, f);
      if f(y).Some? {
        OverlaySnoc(m, Keep([x] + ys, f), f(y).value);
        OverlaySnoc(Assign(m, f(x)), Keep(ys, f), f(y).value);
      } else {
        assert Keep([x] + xs, f) == Keep([x] + ys, f) + [];
        assert Keep([x] + ys, f) + [] == Keep([x] + ys, f);
        assert Keep(xs, f) == Keep(ys, f) + [];
        assert Keep(ys, f) + [] == Keep(ys, f);
      }
    }
  }

  /** One more element visited: its assignment, if any, on top of the map
      built so far. */
  lemma KeepOverlayStep<T, K, V>(m: map<K, V>, xs: seq<T>, x: T, f: T -> Option<(K, V)>)
    ensures Overlay(m, Keep(xs + [x], f)) == Assign(Overlay(m, Keep(xs, f)), f(x))
  {
    KeepSnoc(xs, x, f);
    if f(x).Some? {
      OverlaySnoc(m, Keep(xs, f), f(x).value);
    } else {
      assert Keep(xs + [x], f) == Keep(xs, f) + [];
      assert Keep(xs, f) + [] == Keep(xs, f);
    }
  }

  /** Filtering a concatenation filters each part. */
  lemma {:induction false} KeepAppend<T, U>(xs: seq<T>, ys: seq<T>, f: T -> Option<U>)
    ensures Keep(xs + ys, f) == Keep(xs, f) + Keep(ys, f)
    decreases |ys|
  {
    if ys == [] {
      assert xs + ys == xs;
    } else {
      var n := |ys| - 1;
      assert xs + ys == (xs + ys[..n]) + [ys[n]];
      KeepAppend(xs, ys[..n], f);
      KeepSnoc(xs + ys[..n], ys[n], f);
      KeepSnoc(ys[..n], ys[n], f);
      assert ys == ys[..n] + [ys[n]];
    }
  }

  /** Two runs of assignments are the run of both. */
  lemma {:induction false} OverlayAppend<K, V>(m: map<K, V>, kvs: seq<(K, V)>, more: seq<(K, V)>)
    ensures Overlay(m, kvs + more) == Overlay(Overlay(m, kvs), more)
    decreases |more|
  {
    if more == [] {
      assert kvs + more == kvs;
    } else {
      var n := |more| - 1;
      assert kvs + more == (kvs + more[..n]) + [more[n]];
      assert (kvs + more)[..|kvs + more| - 1] == kvs + more[..n];
      OverlayAppend(m, kvs, more[..n]);
    }
  }

  /** An element `f` rejects can be dropped from anywhere in the list. */
  lemma {:induction false} KeepSkips<T, U>(xs: seq<T>, x: T, ys: seq<T>, f: T -> Option<U>)
    requires f(x).None?
    ensures Keep(xs + [x] + ys, f) == Keep(xs + ys, f)
    decreases |ys|
  {
    if ys == [] {
      assert xs + [x] + ys == xs + [x];
      assert xs + ys == xs;
      KeepSnoc(xs, x, f);
    } else {
      var n := |ys| - 1;
      assert xs + [x] + ys == (xs + [x] + ys[..n]) + [ys[n]];
      assert xs + ys == (xs + ys[..n]) + [ys[n]];
      KeepSkips(xs, x, ys[..n], f);
      KeepSnoc(xs + [x] + ys[..n], ys[n], f);
      KeepSnoc(xs + ys[..n], ys[n], f);
    }
  }

  /** The first value `f` yields over `xs`, scanning from the front: what a
      loop that stops at its first success finds. */
  function FirstOf<T, U>(xs: seq<T>, f: T -> Option<U>): Option<U>
    decreases |xs|
  {
    if xs == [] then None
    else if f(xs[0]).Some? then f(xs[0])
    else FirstOf(xs[1..], f)
  }

  /** The first success is the value of the first accepted element, and
      nothing is found exactly when no element is accepted. */
  lemma {:induction false} FirstOfSpec<T, U>(xs: seq<T>, f: T -> Option<U>)
    ensures FirstOf(xs, f).None? <==> forall i :: 0 <= i < |xs| ==> f(xs[i]).None?
    ensures FirstOf(xs, f).Some? ==>
              exists i :: 0 <= i < |xs| && f(xs[i]) == FirstOf(xs, f) &&
                forall j :: 0 <= j < i ==> f(xs[j]).None?
    decreases |xs|
  {
    if xs != [] && f(xs[0]).None? {
      FirstOfSpec(xs[1..], f);
      if FirstOf(xs, f).Some? {
        var i :| 0 <= i < |xs| - 1 && f(xs[1..][i]) == FirstOf(xs, f) &&
                 forall j :: 0 <= j < i ==> f(xs[1..][j]).None?;
        assert f(xs[i + 1]) == FirstOf(xs, f);
        forall j | 0 <= j < i + 1
          ensures f(xs[j]).None?
        {
          if j > 0 { assert xs[j] == xs[1..][j - 1]; }
        }
      } else {
        forall i | 0 <= i < |xs|
          ensures f(xs[i]).None?
        {
          if i > 0 { assert xs[i] == xs[1..][i - 1]; }
        }
      }
    } else if xs != [] {
      assert f(xs[0]) == FirstOf(xs, f);
    }
  }
}
