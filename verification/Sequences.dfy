/** Facts about sequences that the verifier is reminded of where terms get large. */
module Sequences {

  lemma ConcatAssoc<T>(a: seq<T>, b: seq<T>, c: seq<T>)
    ensures a + (b + c) == (a + b) + c
  {
  }

  lemma DropConcat<T>(a: seq<T>, b: seq<T>, i: nat)
    requires |a| <= i <= |a + b|
    ensures (a + b)[i..] == b[i - |a|..]
  {
  }

  lemma SliceOfPrefix<T>(s: seq<T>, k: nat, i: nat, j: nat)
    requires i <= j <= k <= |s|
    ensures s[..k][i..j] == s[i..j]
  {
  }

  lemma SliceOfDrop<T>(s: seq<T>, i: nat, n: nat)
    requires i + n <= |s|
    ensures s[i..][..n] == s[i..i + n] && s[i..][0..n] == s[i..i + n]
  {
  }

  // ---------- What a filter leaves ----------

  ghost predicate Increasing(picks: seq<nat>) {
    forall i, j :: 0 <= i < j < |picks| ==> picks[i] < picks[j]
  }

  ghost predicate PicksOnly<T>(all: seq<T>, kept: seq<T>, picks: seq<nat>, holds: T -> bool) {
    && |picks| == |kept|
    && forall i :: 0 <= i < |picks| ==> picks[i] < |all| && kept[i] == all[picks[i]] && holds(kept[i])
  }

  ghost predicate PicksAll<T>(all: seq<T>, picks: seq<nat>, holds: T -> bool) {
    forall k :: 0 <= k < |all| && holds(all[k]) ==> k in picks
  }

  /** The picked places, in increasing order, are exactly those of the elements with the property, and `kept` lists
      these elements. */
  ghost predicate Selects<T>(all: seq<T>, kept: seq<T>, picks: seq<nat>, holds: T -> bool) {
    Increasing(picks) && PicksOnly(all, kept, picks, holds) && PicksAll(all, picks, holds)
  }

  /** `kept` is `all` without the elements that lack the property: same order, same multiplicity. */
  ghost predicate IsSelection<T>(all: seq<T>, kept: seq<T>, holds: T -> bool) {
    exists picks: seq<nat> :: Selects(all, kept, picks, holds)
  }

  lemma SelectNothing<T>(holds: T -> bool)
    ensures IsSelection([], [], holds)
  {
    var picks: seq<nat> := [];
    assert Selects([], [], picks, holds);
  }

  lemma SelectedBy<T>(all: seq<T>, kept: seq<T>, picks: seq<nat>, holds: T -> bool)
    requires Increasing(picks) && PicksOnly(all, kept, picks, holds) && PicksAll(all, picks, holds)
    ensures IsSelection(all, kept, holds)
  {
    assert Selects(all, kept, picks, holds);
  }

  /** The places of two pieces, the second behind n elements. */
  function Places(first: seq<nat>, n: nat, second: seq<nat>): (r: seq<nat>)
    ensures |r| == |first| + |second|
    ensures forall i :: 0 <= i < |first| ==> r[i] == first[i]
    ensures forall i :: 0 <= i < |second| ==> r[|first| + i] == second[i] + n
  {
    first + seq(|second|, i requires 0 <= i < |second| => second[i] + n)
  }

  lemma PlacesIncrease(first: seq<nat>, n: nat, second: seq<nat>)
    requires Increasing(first) && Increasing(second) && forall i :: 0 <= i < |first| ==> first[i] < n
    ensures Increasing(Places(first, n, second))
  {
    var places, m := Places(first, n, second), |first|;
    forall i, j | 0 <= i < j < |places|
      ensures places[i] < places[j]
    {
      assert j >= m ==> places[j] == second[j - m] + n;
      assert i >= m ==> places[i] == second[i - m] + n;
    }
  }

  lemma PlacesOnly<T>(a: seq<T>, p: seq<T>, first: seq<nat>, b: seq<T>, q: seq<T>, second: seq<nat>, holds: T -> bool)
    requires PicksOnly(a, p, first, holds) && PicksOnly(b, q, second, holds)
    ensures PicksOnly(a + b, p + q, Places(first, |a|, second), holds)
  {
    var places, m := Places(first, |a|, second), |first|;
    forall i | 0 <= i < |places|
      ensures places[i] < |a + b| && (p + q)[i] == (a + b)[places[i]] && holds((p + q)[i])
    {
      if i < m {
        assert p[i] == a[first[i]];
      } else {
        assert places[m + (i - m)] == second[i - m] + |a| && q[i - m] == b[second[i - m]];
      }
    }
  }

  lemma PlacesAll<T>(a: seq<T>, first: seq<nat>, b: seq<T>, second: seq<nat>, holds: T -> bool)
    requires PicksAll(a, first, holds) && PicksAll(b, second, holds)
    ensures PicksAll(a + b, Places(first, |a|, second), holds)
  {
    var places := Places(first, |a|, second);
    forall k | 0 <= k < |a + b| && holds((a + b)[k])
      ensures k in places
    {
      if k < |a| {
        var i :| 0 <= i < |first| && first[i] == k;
        assert places[i] == k;
      } else {
        var i :| 0 <= i < |second| && second[i] == k - |a|;
        assert places[|first| + i] == k;
      }
    }
  }

  /** Selecting works piece by piece. */
  lemma SelectConcat<T>(a: seq<T>, p: seq<T>, b: seq<T>, q: seq<T>, holds: T -> bool)
    requires IsSelection(a, p, holds) && IsSelection(b, q, holds)
    ensures IsSelection(a + b, p + q, holds)
  {
    var first: seq<nat> :| Selects(a, p, first, holds);
    var second: seq<nat> :| Selects(b, q, second, holds);
    PlacesIncrease(first, |a|, second);
    PlacesOnly(a, p, first, b, q, second, holds);
    PlacesAll(a, first, b, second, holds);
    SelectedBy(a + b, p + q, Places(first, |a|, second), holds);
  }

  lemma SelectOne<T>(x: T, holds: T -> bool)
    ensures IsSelection([x], if holds(x) then [x] else [], holds)
  {
    SelectedBy([x], if holds(x) then [x] else [], if holds(x) then [0] else [], holds);
  }

  lemma SelectFirst<T>(x: T, all: seq<T>, kept: seq<T>, holds: T -> bool)
    requires IsSelection(all, kept, holds)
    ensures IsSelection([x] + all, (if holds(x) then [x] else []) + kept, holds)
  {
    SelectOne(x, holds);
    SelectConcat([x], if holds(x) then [x] else [], all, kept, holds);
  }

  lemma SelectLast<T>(all: seq<T>, kept: seq<T>, x: T, holds: T -> bool)
    requires IsSelection(all, kept, holds)
    ensures IsSelection(all + [x], kept + (if holds(x) then [x] else []), holds)
  {
    SelectOne(x, holds);
    SelectConcat(all, kept, [x], if holds(x) then [x] else [], holds);
  }

  lemma SameSelection<T>(all: seq<T>, kept: seq<T>, holds: T -> bool, same: T -> bool)
    requires IsSelection(all, kept, holds) && forall i :: 0 <= i < |all| ==> (holds(all[i]) <==> same(all[i]))
    ensures IsSelection(all, kept, same)
  {
    var picks: seq<nat> :| Selects(all, kept, picks, holds);
    SelectedBy(all, kept, picks, same);
  }

  /** A sequence has one selection. */
  lemma {:induction false} SelectionUnique<T>(all: seq<T>, a: seq<T>, b: seq<T>, holds: T -> bool)
    requires IsSelection(all, a, holds) && IsSelection(all, b, holds)
    ensures a == b
  {
    var p: seq<nat> :| Selects(all, a, p, holds);
    var q: seq<nat> :| Selects(all, b, q, holds);
    PicksAgree(all, a, p, b, q, holds, 0);
    assert p == q;
  }

  /** Two increasing lists of the same places agree from any place on, when they agree on how many come before. */
  lemma PicksAgree<T>(all: seq<T>, a: seq<T>, p: seq<nat>, b: seq<T>, q: seq<nat>, holds: T -> bool, i: nat)
    requires Selects(all, a, p, holds) && Selects(all, b, q, holds)
    requires i <= |p| && i <= |q| && p[..i] == q[..i]
    ensures p == q
    decreases |p| - i
  {
    if i < |p| {
      PlaceIn(all, a, p, b, q, holds, i);
      PlaceIn(all, b, q, a, p, holds, i);
      assert p[..i + 1] == p[..i] + [p[i]] && q[..i + 1] == q[..i] + [q[i]];
      PicksAgree(all, a, p, b, q, holds, i + 1);
    } else if i < |q| {
      PlaceIn(all, b, q, a, p, holds, i);
    }
  }

  /** The next place of one list is no earlier than the next place of the other. */
  lemma PlaceIn<T>(all: seq<T>, a: seq<T>, p: seq<nat>, b: seq<T>, q: seq<nat>, holds: T -> bool, i: nat)
    requires Selects(all, a, p, holds) && Selects(all, b, q, holds)
    requires i < |p| && i <= |q| && p[..i] == q[..i]
    ensures i < |q| && q[i] <= p[i]
  {
    assert holds(all[p[i]]) && p[i] in q;
    var j :| 0 <= j < |q| && q[j] == p[i];
    forall m | 0 <= m < i
      ensures q[m] < p[i]
    {
      assert p[..i][m] == q[..i][m];
    }
  }
}
