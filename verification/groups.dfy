/**
 The `PBXGroup` extension: `allSubGroups`, every group below a group, and
 `isEmpty`. `Descendants` is the order `allSubGroups` produces, written as a
 recursive function; the method `AllSubGroups` is the loop the source runs and is
 proved to return it. `StrictlyBelow` and `Size` describe the tree independently
 of any order, and the lemmas relate the two views.
 */
module GroupTree {
  import opened XcodeModel
  import opened Pipelines

  /** The direct subgroups of `g` in order, then the descendants of each direct subgroup, in the same order. */
  function Descendants(g: Group): seq<Group>
    decreases g, 1
  {
    g.subGroups + DescendantsFrom(g, 0)
  }

  /** The descendants of the direct subgroups of `g` from index `i` on, concatenated in order. */
  function DescendantsFrom(g: Group, i: nat): seq<Group>
    requires i <= |g.subGroups|
    decreases g, 0, |g.subGroups| - i
  {
    if i == |g.subGroups| then []
    else Descendants(g.subGroups[i]) + DescendantsFrom(g, i + 1)
  }

  /**
   `allSubGroups`: start from the direct subgroups, then append, for each group of
   that initial list, its own `allSubGroups`. The loop runs over a copy of the
   initial list, never over what has been appended to it.
   */
  method AllSubGroups(g: Group) returns (result: seq<Group>)
    ensures result == Descendants(g)
    decreases g
  {
    result := g.subGroups;
    var snapshot := result;
    for i := 0 to |snapshot|
      invariant snapshot == g.subGroups
      invariant result + DescendantsFrom(g, i) == Descendants(g)
    {
      var below := AllSubGroups(snapshot[i]);
      result := result + below;
    }
  }

  /** `isEmpty` on a group: the source returns `false` for every group. */
  predicate IsEmpty(g: Group)
  {
    false
  }

  /** `d` is a group of the tree rooted at `g` other than `g` itself: a child of `g` or below one. */
  ghost predicate StrictlyBelow(d: Group, g: Group)
    decreases g
  {
    exists i :: 0 <= i < |g.subGroups| && (d == g.subGroups[i] || StrictlyBelow(d, g.subGroups[i]))
  }

  /** The number of groups in the tree rooted at `g`, `g` included. */
  function Size(g: Group): nat
    decreases g, 1
  {
    1 + SizeFrom(g, 0)
  }

  function SizeFrom(g: Group, i: nat): nat
    requires i <= |g.subGroups|
    decreases g, 0, |g.subGroups| - i
  {
    if i == |g.subGroups| then 0 else Size(g.subGroups[i]) + SizeFrom(g, i + 1)
  }

  lemma {:induction false} DescendantsFromMembers(g: Group, i: nat, x: Group)
    requires i <= |g.subGroups|
    ensures x in DescendantsFrom(g, i) <==> exists j :: i <= j < |g.subGroups| && x in Descendants(g.subGroups[j])
    decreases |g.subGroups| - i
  {
    if i < |g.subGroups| {
      var here, later := Descendants(g.subGroups[i]), DescendantsFrom(g, i + 1);
      assert DescendantsFrom(g, i) == here + later;
      DescendantsFromMembers(g, i + 1, x);
      if x in here {
        assert i <= i < |g.subGroups| && x in Descendants(g.subGroups[i]);
      } else if x in later {
        var j :| i + 1 <= j < |g.subGroups| && x in Descendants(g.subGroups[j]);
        assert i <= j < |g.subGroups|;
      } else {
        forall j | i <= j < |g.subGroups| ensures x !in Descendants(g.subGroups[j]) {
          if j != i {
            assert i + 1 <= j;
          }
        }
      }
    }
  }

  /** Every group `allSubGroups` returns lies strictly below the root, and every such group is returned. */
  lemma {:induction false} DescendantsMembers(g: Group, x: Group)
    ensures x in Descendants(g) <==> StrictlyBelow(x, g)
    decreases g
  {
    DescendantsFromMembers(g, 0, x);
    forall j | 0 <= j < |g.subGroups|
      ensures x in Descendants(g.subGroups[j]) <==> StrictlyBelow(x, g.subGroups[j])
    {
      DescendantsMembers(g.subGroups[j], x);
    }
    if x in Descendants(g) {
      if x !in g.subGroups {
        var j :| 0 <= j < |g.subGroups| && x in Descendants(g.subGroups[j]);
        assert StrictlyBelow(x, g.subGroups[j]);
      }
    }
  }

  lemma {:induction false} SizeFromBound(g: Group, i: nat, j: nat)
    requires i <= j < |g.subGroups|
    ensures Size(g.subGroups[j]) <= SizeFrom(g, i)
    decreases j - i
  {
    if i < j {
      SizeFromBound(g, i + 1, j);
    }
  }

  /** A group strictly below `g` roots a strictly smaller tree. */
  lemma {:induction false} BelowIsSmaller(d: Group, g: Group)
    requires StrictlyBelow(d, g)
    ensures Size(d) < Size(g)
    decreases g
  {
    var j :| 0 <= j < |g.subGroups| && (d == g.subGroups[j] || StrictlyBelow(d, g.subGroups[j]));
    SizeFromBound(g, 0, j);
    if d != g.subGroups[j] {
      BelowIsSmaller(d, g.subGroups[j]);
    }
  }

  /** The root is never one of its own `allSubGroups`. */
  lemma RootNotInDescendants(g: Group)
    ensures g !in Descendants(g)
  {
    DescendantsMembers(g, g);
    if StrictlyBelow(g, g) {
      BelowIsSmaller(g, g);
    }
  }

  /** `allSubGroups` lists every group of the tree once per position: one entry per group below the root. */
  lemma {:induction false} DescendantsLength(g: Group)
    ensures |Descendants(g)| == Size(g) - 1
    decreases g, 1
  {
    DescendantsFromLength(g, 0);
  }

  lemma {:induction false} DescendantsFromLength(g: Group, i: nat)
    requires i <= |g.subGroups|
    ensures |DescendantsFrom(g, i)| + (|g.subGroups| - i) == SizeFrom(g, i)
    decreases g, 0, |g.subGroups| - i
  {
    if i < |g.subGroups| {
      DescendantsLength(g.subGroups[i]);
      DescendantsFromLength(g, i + 1);
    }
  }

  lemma {:induction false} BelowTransitive(d: Group, c: Group, g: Group)
    requires StrictlyBelow(d, c) && StrictlyBelow(c, g)
    ensures StrictlyBelow(d, g)
    decreases g
  {
    var j :| 0 <= j < |g.subGroups| && (c == g.subGroups[j] || StrictlyBelow(c, g.subGroups[j]));
    if c != g.subGroups[j] {
      BelowTransitive(d, c, g.subGroups[j]);
    }
  }

  /** Whatever lies below a returned group is returned as well. */
  lemma DescendantsClosed(g: Group, c: Group, x: Group)
    requires c in Descendants(g) && x in Descendants(c)
    ensures x in Descendants(g)
  {
    DescendantsMembers(g, c);
    DescendantsMembers(c, x);
    BelowTransitive(x, c, g);
    DescendantsMembers(g, x);
  }

  /** The shape of `allSubGroups` in the terms of the source's array operations. */
  lemma DescendantsShape(g: Group)
    ensures Descendants(g) == g.subGroups + FlatMap(g.subGroups, Descendants)
    ensures Descendants(g)[..|g.subGroups|] == g.subGroups
  {
    DescendantsFromFlatMap(g, 0);
  }

  lemma {:induction false} DescendantsFromFlatMap(g: Group, i: nat)
    requires i <= |g.subGroups|
    ensures DescendantsFrom(g, i) == FlatMap(g.subGroups[i..], Descendants)
    decreases |g.subGroups| - i
  {
    if i < |g.subGroups| {
      DescendantsFromFlatMap(g, i + 1);
      assert g.subGroups[i..][1..] == g.subGroups[i + 1..];
    }
  }
}
