/**
 The three sequence pipelines the deintegration code is written with: Swift's
 `filter`, `compactMap` and `flatMap` on arrays. Each is defined once here by
 recursion, and the lemmas say what the selection code relies on: which
 elements survive, that the order of the input is kept (the result of a
 concatenation is the concatenation of the results), and how long the result is.
 */
module Pipelines {
  import opened Wrappers

  /** `s.filter(keep)`: the elements of `s` that satisfy `keep`, in order. */
  function Filter<T>(s: seq<T>, keep: T -> bool): (r: seq<T>)
    ensures |r| <= |s|
    ensures forall i :: 0 <= i < |r| ==> r[i] in s && keep(r[i])
    ensures forall i :: 0 <= i < |s| && keep(s[i]) ==> s[i] in r
  {
    if s == [] then []
    else
      assert s == [s[0]] + s[1..];
      (if keep(s[0]) then [s[0]] else []) + Filter(s[1..], keep)
  }

  lemma {:induction false} FilterConcat<T>(a: seq<T>, b: seq<T>, keep: T -> bool)
    ensures Filter(a + b, keep) == Filter(a, keep) + Filter(b, keep)
    decreases |a|
  {
    if a == [] {
      assert a + b == b;
    } else {
      assert (a + b)[0] == a[0];
      assert (a + b)[1..] == a[1..] + b;
      FilterConcat(a[1..], b, keep);
    }
  }

  /** `s.compactMap(f)`: the present results of `f`, in the order of `s`. */
  function CompactMap<T, U>(s: seq<T>, f: T -> Option<U>): (r: seq<U>)
    ensures |r| <= |s|
  {
    if s == [] then []
    else (if f(s[0]).Some? then [f(s[0]).value] else []) + CompactMap(s[1..], f)
  }

  lemma {:induction false} CompactMapMembers<T, U>(s: seq<T>, f: T -> Option<U>, y: U)
    ensures y in CompactMap(s, f) <==> exists x :: x in s && f(x) == Some(y)
    decreases |s|
  {
    if s != [] {
      CompactMapMembers(s[1..], f, y);
      assert s == [s[0]] + s[1..];
      if x :| x in s && f(x) == Some(y) {
        if x != s[0] {
          assert x in s[1..];
        }
      }
    }
  }

  lemma {:induction false} CompactMapConcat<T, U>(a: seq<T>, b: seq<T>, f: T -> Option<U>)
    ensures CompactMap(a + b, f) == CompactMap(a, f) + CompactMap(b, f)
    decreases |a|
  {
    if a == [] {
      assert a + b == b;
    } else {
      var head := if f(a[0]).Some? then [f(a[0]).value] else [];
      assert (a + b)[0] == a[0];
      assert (a + b)[1..] == a[1..] + b;
      assert CompactMap(a + b, f) == head + CompactMap(a[1..] + b, f);
      CompactMapConcat(a[1..], b, f);
      assert CompactMap(a, f) == head + CompactMap(a[1..], f);
    }
  }

  /** The positions of `s` at which `f` gives a value. */
  ghost function PresentAt<T, U>(s: seq<T>, f: T -> Option<U>): set<int>
  {
    set i | 0 <= i < |s| && f(s[i]).Some?
  }

  lemma {:induction false} CompactMapLength<T, U>(s: seq<T>, f: T -> Option<U>)
    ensures |CompactMap(s, f)| == |PresentAt(s, f)|
    decreases |s|
  {
    if s != [] {
      var n := |s| - 1;
      var init := s[..n];
      assert s == init + [s[n]];
      CompactMapConcat(init, [s[n]], f);
      CompactMapLength(init, f);
      assert [s[n]][1..] == [];
      if f(s[n]).Some? {
        assert PresentAt(s, f) == PresentAt(init, f) + {n};
      } else {
        assert PresentAt(s, f) == PresentAt(init, f);
      }
    }
  }

  /** A `filter` after a `compactMap` is one `compactMap` whose function also drops what the filter rejects. */
  lemma {:induction false} FilterCompactMap<T, U>(s: seq<T>, f: T -> Option<U>, keep: U -> bool, fused: T -> Option<U>)
    requires forall x :: fused(x) == (if f(x).Some? && keep(f(x).value) then f(x) else None)
    ensures Filter(CompactMap(s, f), keep) == CompactMap(s, fused)
    decreases |s|
  {
    if s != [] {
      var head := if f(s[0]).Some? then [f(s[0]).value] else [];
      FilterConcat(head, CompactMap(s[1..], f), keep);
      FilterCompactMap(s[1..], f, keep, fused);
      if head != [] {
        assert head[1..] == [];
      }
    }
  }

  /** `s.flatMap(f)`: the results of `f` on the elements of `s`, concatenated in order. */
  function FlatMap<T, U>(s: seq<T>, f: T -> seq<U>): (r: seq<U>)
  {
    if s == [] then [] else f(s[0]) + FlatMap(s[1..], f)
  }

  lemma {:induction false} FlatMapMembers<T, U>(s: seq<T>, f: T -> seq<U>, y: U)
    ensures y in FlatMap(s, f) <==> exists i :: 0 <= i < |s| && y in f(s[i])
    decreases |s|
  {
    if s != [] {
      FlatMapMembers(s[1..], f, y);
      if i :| 0 <= i < |s| && y in f(s[i]) {
        if i > 0 {
          assert s[1..][i - 1] == s[i];
        }
      }
      if i :| 0 <= i < |s[1..]| && y in f(s[1..][i]) {
        assert s[i + 1] == s[1..][i];
      }
    }
  }

  lemma {:induction false} FlatMapConcat<T, U>(a: seq<T>, b: seq<T>, f: T -> seq<U>)
    ensures FlatMap(a + b, f) == FlatMap(a, f) + FlatMap(b, f)
    decreases |a|
  {
    if a == [] {
      assert a + b == b;
    } else {
      assert (a + b)[0] == a[0];
      assert (a + b)[1..] == a[1..] + b;
      FlatMapConcat(a[1..], b, f);
    }
  }

  /** The result splits around element `k`: what comes before it, its own block, and what comes after it. */
  lemma {:induction false} FlatMapAround<T, U>(s: seq<T>, f: T -> seq<U>, k: nat)
    requires k < |s|
    ensures FlatMap(s, f) == FlatMap(s[..k], f) + f(s[k]) + FlatMap(s[k + 1..], f)
  {
    var rest := [s[k]] + s[k + 1..];
    assert s == s[..k] + rest;
    FlatMapConcat(s[..k], rest, f);
    assert rest[0] == s[k] && rest[1..] == s[k + 1..];
    assert FlatMap(rest, f) == f(s[k]) + FlatMap(s[k + 1..], f);
  }

  /** When every element yields exactly `width` results, the result has `width` entries per element. */
  lemma {:induction false} FlatMapLength<T, U>(s: seq<T>, f: T -> seq<U>, width: nat)
    requires forall i :: 0 <= i < |s| ==> |f(s[i])| == width
    ensures |FlatMap(s, f)| == width * |s|
    decreases |s|
  {
    if s != [] {
      FlatMapLength(s[1..], f, width);
      assert width * |s| == width + width * (|s| - 1);
    }
  }
  /** Element `k`'s results sit right after those of the elements before it, whatever is appended after the last block. */
  lemma FlatMapBlock<T, U>(s: seq<T>, f: T -> seq<U>, k: nat, tail: seq<U>)
    requires k < |s|
    ensures |FlatMap(s[..k], f)| + |f(s[k])| <= |FlatMap(s, f)|
    ensures var start := |FlatMap(s[..k], f)|;
      (FlatMap(s, f) + tail)[start .. start + |f(s[k])|] == f(s[k])
  {
    var before, here, after := FlatMap(s[..k], f), f(s[k]), FlatMap(s[k + 1..], f);
    FlatMapAround(s, f, k);
    assert FlatMap(s, f) + tail == before + here + (after + tail);
  }

  /** With `width` results per element, element `k`'s block starts `width * k` after whatever precedes the results. */
  lemma FlatMapBlockOfWidth<T, U>(head: seq<U>, s: seq<T>, f: T -> seq<U>, width: nat, k: nat, tail: seq<U>)
    requires forall i :: 0 <= i < |s| ==> |f(s[i])| == width
    requires k < |s|
    ensures |FlatMap(s[..k], f)| == width * k
    ensures |head| + |FlatMap(s[..k], f)| + width <= |head + FlatMap(s, f) + tail|
    ensures var start := |head| + |FlatMap(s[..k], f)|;
      (head + FlatMap(s, f) + tail)[start .. start + width] == f(s[k])
  {
    FlatMapLength(s[..k], f, width);
    FlatMapBlock(s, f, k, tail);
    var rest := FlatMap(s, f) + tail;
    assert head + FlatMap(s, f) + tail == head + rest;
  }

  /** Removing every element `keep` rejects leaves nothing when it rejects all of them. */
  lemma {:induction false} FilterRejectsAll<T>(s: seq<T>, keep: T -> bool)
    requires forall i :: 0 <= i < |s| ==> !keep(s[i])
    ensures Filter(s, keep) == []
    decreases |s|
  {
    if s != [] {
      FilterRejectsAll(s[1..], keep);
    }
  }
}
