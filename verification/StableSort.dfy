/**
 What ECMAScript promises about `Array.prototype.sort`, for components that sort.

 For every comparator the result is a permutation. For a comparator that is consistent
 on the elements it is also sorted, and elements that compare equal keep their order.
 An insertion sort shows that such a result always exists, and the proof that equal
 ties and sortedness determine a sequence shows that it is the only one. What happens
 for an inconsistent comparator is left to the implementation, so nothing more than
 the permutation is promised for it.
 */
module StableSort {
  import opened Sequences

  /** Negative, zero or positive, as the first argument goes before, with or behind the second. */
  type Comparator<!T> = (T, T) -> int

  /** The comparator is a total preorder on these elements. */
  ghost predicate Consistent<T>(cmp: Comparator<T>, elements: set<T>) {
    && (forall x, y :: x in elements && y in elements ==> (cmp(x, y) <= 0 <==> cmp(y, x) >= 0))
    && (forall x, y, z | x in elements && y in elements && z in elements ::
          cmp(x, y) <= 0 && cmp(y, z) <= 0 ==> cmp(x, z) <= 0)
  }

  function Elements<T>(s: seq<T>): set<T> {
    set x | x in s
  }

  ghost predicate Sorted<T>(cmp: Comparator<T>, s: seq<T>) {
    forall i, j :: 0 <= i < j < |s| ==> cmp(s[i], s[j]) <= 0
  }

  /** The elements that compare equal to a given one, in their order. */
  function Ties<T>(cmp: Comparator<T>, s: seq<T>, x: T): seq<T> {
    if s == [] then [] else (if cmp(x, s[0]) == 0 then [s[0]] else []) + Ties(cmp, s[1..], x)
  }

  ghost predicate Stable<T>(cmp: Comparator<T>, before: seq<T>, after: seq<T>) {
    forall x :: x in before ==> Ties(cmp, after, x) == Ties(cmp, before, x)
  }

  /** What may be assumed of `before.sort(cmp)`. */
  ghost predicate JsSorted<T>(cmp: Comparator<T>, before: seq<T>, after: seq<T>) {
    && multiset(after) == multiset(before)
    && (Consistent(cmp, Elements(before)) ==> Sorted(cmp, after) && Stable(cmp, before, after))
  }

  lemma {:induction false} TiesConcat<T>(cmp: Comparator<T>, a: seq<T>, b: seq<T>, x: T)
    ensures Ties(cmp, a + b, x) == Ties(cmp, a, x) + Ties(cmp, b, x)
  {
    if a == [] {
      assert a + b == b;
    } else {
      assert (a + b)[1..] == a[1..] + b && (a + b)[0] == a[0];
      TiesConcat(cmp, a[1..], b, x);
      ConcatAssoc(if cmp(x, a[0]) == 0 then [a[0]] else [], Ties(cmp, a[1..], x), Ties(cmp, b, x));
    }
  }

  lemma {:induction false} NoTies<T>(cmp: Comparator<T>, s: seq<T>, x: T)
    requires forall i :: 0 <= i < |s| ==> cmp(x, s[i]) != 0
    ensures Ties(cmp, s, x) == []
  {
    if s != [] {
      NoTies(cmp, s[1..], x);
    }
  }

  ghost predicate AllIn<T>(s: seq<T>, elements: set<T>) {
    forall i :: 0 <= i < |s| ==> s[i] in elements
  }

  /** Where an element is inserted: before all greater ones, and behind one that is not greater. */
  ghost predicate Fits<T>(cmp: Comparator<T>, sorted: seq<T>, x: T, at: nat) {
    && at <= |sorted|
    && (forall j :: at <= j < |sorted| ==> cmp(x, sorted[j]) < 0)
    && (at > 0 ==> cmp(x, sorted[at - 1]) >= 0)
  }

  lemma BeforeFits<T>(cmp: Comparator<T>, elements: set<T>, sorted: seq<T>, x: T, at: nat, i: nat)
    requires Consistent(cmp, elements) && AllIn(sorted, elements) && x in elements
    requires Sorted(cmp, sorted) && Fits(cmp, sorted, x, at) && i < at
    ensures cmp(sorted[i], x) <= 0
  {
    assert cmp(sorted[at - 1], x) <= 0;
    assert i < at - 1 ==> cmp(sorted[i], sorted[at - 1]) <= 0;
  }

  function Inserted<T>(sorted: seq<T>, x: T, at: nat): (r: seq<T>)
    requires at <= |sorted|
    ensures |r| == |sorted| + 1
    ensures forall i :: 0 <= i < |r| ==> r[i] == if i < at then sorted[i] else if i == at then x else sorted[i - 1]
  {
    sorted[..at] + [x] + sorted[at..]
  }

  lemma InsertedPair<T>(cmp: Comparator<T>, elements: set<T>, sorted: seq<T>, x: T, at: nat, i: nat, j: nat)
    requires Consistent(cmp, elements) && AllIn(sorted, elements) && x in elements
    requires Sorted(cmp, sorted) && Fits(cmp, sorted, x, at) && i < j <= |sorted|
    ensures cmp(Inserted(sorted, x, at)[i], Inserted(sorted, x, at)[j]) <= 0
  {
    var result := Inserted(sorted, x, at);
    if j == at {
      BeforeFits(cmp, elements, sorted, x, at, i);
    } else if i == at {
      assert result[j] == sorted[j - 1];
    } else {
      var i', j' := if i < at then i else i - 1, if j < at then j else j - 1;
      assert result[i] == sorted[i'] && result[j] == sorted[j'];
    }
  }

  lemma InsertKeepsSorted<T>(cmp: Comparator<T>, elements: set<T>, sorted: seq<T>, x: T, at: nat)
    requires Consistent(cmp, elements) && AllIn(sorted, elements) && x in elements
    requires Sorted(cmp, sorted) && Fits(cmp, sorted, x, at)
    ensures Sorted(cmp, Inserted(sorted, x, at))
  {
    forall i, j | 0 <= i < j <= |sorted|
      ensures cmp(Inserted(sorted, x, at)[i], Inserted(sorted, x, at)[j]) <= 0
    {
      InsertedPair(cmp, elements, sorted, x, at, i, j);
    }
  }

  lemma TieTransfers<T>(cmp: Comparator<T>, elements: set<T>, x: T, other: T, z: T)
    requires Consistent(cmp, elements) && x in elements && other in elements && z in elements
    requires cmp(other, x) == 0 && cmp(x, z) < 0
    ensures cmp(other, z) != 0
  {
    assert cmp(z, other) <= 0 && cmp(other, x) <= 0 ==> cmp(z, x) <= 0;
  }

  lemma TiesBehind<T>(cmp: Comparator<T>, elements: set<T>, sorted: seq<T>, x: T, at: nat, other: T)
    requires Consistent(cmp, elements) && AllIn(sorted, elements) && x in elements && other in elements
    requires Fits(cmp, sorted, x, at) && cmp(other, x) == 0
    ensures Ties(cmp, sorted[at..], other) == []
  {
    var b := sorted[at..];
    forall i | 0 <= i < |b|
      ensures cmp(other, b[i]) != 0
    {
      assert b[i] == sorted[at + i];
      TieTransfers(cmp, elements, x, other, b[i]);
    }
    NoTies(cmp, b, other);
  }

  lemma TiesInserted<T>(cmp: Comparator<T>, sorted: seq<T>, x: T, at: nat, other: T)
    requires at <= |sorted|
    ensures Ties(cmp, Inserted(sorted, x, at), other)
         == Ties(cmp, sorted[..at], other) + (if cmp(other, x) == 0 then [x] else []) + Ties(cmp, sorted[at..], other)
  {
    var a, b := sorted[..at], sorted[at..];
    TiesConcat(cmp, a + [x], b, other);
    TiesConcat(cmp, a, [x], other);
    TiesOne(cmp, x, other);
  }

  lemma TiesOfParts<T>(cmp: Comparator<T>, whole: seq<T>, a: seq<T>, b: seq<T>, other: T)
    requires whole == a + b
    ensures Ties(cmp, whole, other) == Ties(cmp, a, other) + Ties(cmp, b, other)
  {
    TiesConcat(cmp, a, b, other);
  }

  lemma TiesSplit<T>(cmp: Comparator<T>, sorted: seq<T>, at: nat, other: T)
    requires at <= |sorted|
    ensures Ties(cmp, sorted, other) == Ties(cmp, sorted[..at], other) + Ties(cmp, sorted[at..], other)
  {
    TiesOfParts(cmp, sorted, sorted[..at], sorted[at..], other);
  }

  lemma TiesOne<T>(cmp: Comparator<T>, x: T, other: T)
    ensures Ties(cmp, [x], other) == if cmp(other, x) == 0 then [x] else []
  {
    assert [x][1..] == [];
  }

  lemma Reorder<T>(a: seq<T>, middle: seq<T>, b: seq<T>)
    requires middle == [] || b == []
    ensures a + middle + b == a + b + middle
  {
  }

  lemma InsertKeepsTies<T>(cmp: Comparator<T>, elements: set<T>, sorted: seq<T>, x: T, at: nat, other: T)
    requires Consistent(cmp, elements) && AllIn(sorted, elements) && x in elements && other in elements
    requires Fits(cmp, sorted, x, at)
    ensures Ties(cmp, Inserted(sorted, x, at), other)
         == Ties(cmp, sorted, other) + (if cmp(other, x) == 0 then [x] else [])
  {
    TiesInserted(cmp, sorted, x, at, other);
    TiesSplit(cmp, sorted, at, other);
    if cmp(other, x) == 0 {
      TiesBehind(cmp, elements, sorted, x, at, other);
    }
    Reorder(Ties(cmp, sorted[..at], other), if cmp(other, x) == 0 then [x] else [], Ties(cmp, sorted[at..], other));
  }

  ghost predicate SameTies<T>(cmp: Comparator<T>, elements: set<T>, a: seq<T>, b: seq<T>) {
    forall x :: x in elements ==> Ties(cmp, a, x) == Ties(cmp, b, x)
  }

  ghost predicate StablySorted<T>(cmp: Comparator<T>, elements: set<T>, taken: seq<T>, sorted: seq<T>) {
    AllIn(sorted, elements) && Sorted(cmp, sorted) && SameTies(cmp, elements, sorted, taken)
  }

  /** The invariant of an insertion sort: the elements taken so far, sorted, with ties in their order. */
  ghost predicate SortedSoFar<T>(cmp: Comparator<T>, elements: set<T>, taken: seq<T>, sorted: seq<T>) {
    && multiset(sorted) == multiset(taken)
    && (Consistent(cmp, elements) ==> StablySorted(cmp, elements, taken, sorted))
  }

  lemma InsertedMultiset<T>(taken: seq<T>, sorted: seq<T>, x: T, at: nat)
    requires multiset(sorted) == multiset(taken) && at <= |sorted|
    ensures multiset(Inserted(sorted, x, at)) == multiset(taken + [x])
  {
    assert sorted == sorted[..at] + sorted[at..];
  }

  lemma InsertStepTies<T>(cmp: Comparator<T>, elements: set<T>, taken: seq<T>, sorted: seq<T>, x: T, at: nat, other: T)
    requires Consistent(cmp, elements) && AllIn(sorted, elements) && x in elements && other in elements
    requires Fits(cmp, sorted, x, at) && Ties(cmp, sorted, other) == Ties(cmp, taken, other)
    ensures Ties(cmp, Inserted(sorted, x, at), other) == Ties(cmp, taken + [x], other)
  {
    InsertKeepsTies(cmp, elements, sorted, x, at, other);
    TiesConcat(cmp, taken, [x], other);
    TiesOne(cmp, x, other);
  }

  lemma InsertAllTies<T>(cmp: Comparator<T>, elements: set<T>, taken: seq<T>, sorted: seq<T>, x: T, at: nat)
    requires Consistent(cmp, elements) && AllIn(sorted, elements) && x in elements
    requires Fits(cmp, sorted, x, at) && SameTies(cmp, elements, sorted, taken)
    ensures SameTies(cmp, elements, Inserted(sorted, x, at), taken + [x])
  {
    forall other | other in elements
      ensures Ties(cmp, Inserted(sorted, x, at), other) == Ties(cmp, taken + [x], other)
    {
      InsertStepTies(cmp, elements, taken, sorted, x, at, other);
    }
  }

  lemma AllInInserted<T>(elements: set<T>, sorted: seq<T>, x: T, at: nat)
    requires AllIn(sorted, elements) && x in elements && at <= |sorted|
    ensures AllIn(Inserted(sorted, x, at), elements)
  {
  }

  lemma InsertStablySorted<T>(cmp: Comparator<T>, elements: set<T>, taken: seq<T>, sorted: seq<T>, x: T, at: nat)
    requires Consistent(cmp, elements) && StablySorted(cmp, elements, taken, sorted)
    requires x in elements && Fits(cmp, sorted, x, at)
    ensures StablySorted(cmp, elements, taken + [x], Inserted(sorted, x, at))
  {
    AllInInserted(elements, sorted, x, at);
    InsertKeepsSorted(cmp, elements, sorted, x, at);
    InsertAllTies(cmp, elements, taken, sorted, x, at);
  }

  lemma InsertStep<T>(cmp: Comparator<T>, elements: set<T>, taken: seq<T>, sorted: seq<T>, x: T, at: nat)
    requires SortedSoFar(cmp, elements, taken, sorted) && x in elements && Fits(cmp, sorted, x, at)
    ensures SortedSoFar(cmp, elements, taken + [x], Inserted(sorted, x, at))
  {
    InsertedMultiset(taken, sorted, x, at);
    if Consistent(cmp, elements) {
      InsertStablySorted(cmp, elements, taken, sorted, x, at);
    }
  }

  lemma SortedInTheEnd<T>(cmp: Comparator<T>, s: seq<T>, sorted: seq<T>)
    requires SortedSoFar(cmp, Elements(s), s, sorted)
    ensures JsSorted(cmp, s, sorted)
  {
  }

  /** The place for an element, searched from the end. */
  method FindPlace<T>(cmp: Comparator<T>, sorted: seq<T>, x: T) returns (at: nat)
    ensures Fits(cmp, sorted, x, at)
  {
    at := |sorted|;
    while at > 0 && cmp(x, sorted[at - 1]) < 0
      invariant at <= |sorted|
      invariant forall j :: at <= j < |sorted| ==> cmp(x, sorted[j]) < 0
    {
      at := at - 1;
    }
  }

  /** A sort that meets the specification. */
  method Sort<T>(cmp: Comparator<T>, s: seq<T>) returns (sorted: seq<T>)
    ensures JsSorted(cmp, s, sorted)
  {
    sorted := [];
    for k := 0 to |s|
      invariant SortedSoFar(cmp, Elements(s), s[..k], sorted)
    {
      var at := FindPlace(cmp, sorted, s[k]);
      assert s[..k + 1] == s[..k] + [s[k]];
      InsertStep(cmp, Elements(s), s[..k], sorted, s[k], at);
      sorted := Inserted(sorted, s[k], at);
    }
    assert s[..|s|] == s;
    SortedInTheEnd(cmp, s, sorted);
  }

  lemma HeadsTie<T>(cmp: Comparator<T>, elements: set<T>, a: seq<T>, b: seq<T>)
    requires Consistent(cmp, elements) && AllIn(a, elements) && AllIn(b, elements)
    requires Sorted(cmp, a) && Sorted(cmp, b) && multiset(a) == multiset(b) && a != [] && b != []
    ensures cmp(a[0], b[0]) == 0 && cmp(a[0], a[0]) == 0
  {
    assert b[0] in multiset(b) && a[0] in multiset(a);
    assert b[0] in multiset(a) && a[0] in multiset(b);
    var i :| 0 <= i < |a| && a[i] == b[0];
    var j :| 0 <= j < |b| && b[j] == a[0];
    assert a[0] in elements && b[0] in elements;
    assert cmp(a[0], a[0]) == 0;
    assert i > 0 ==> cmp(a[0], a[i]) <= 0;
    assert j > 0 ==> cmp(b[0], b[j]) <= 0;
  }

  lemma TailTies<T>(cmp: Comparator<T>, a: seq<T>, b: seq<T>, x: T)
    requires a != [] && b != [] && a[0] == b[0] && Ties(cmp, a, x) == Ties(cmp, b, x)
    ensures Ties(cmp, a[1..], x) == Ties(cmp, b[1..], x)
  {
    var head := if cmp(x, a[0]) == 0 then [a[0]] else [];
    assert (head + Ties(cmp, a[1..], x))[|head|..] == Ties(cmp, a[1..], x);
    assert (head + Ties(cmp, b[1..], x))[|head|..] == Ties(cmp, b[1..], x);
  }

  lemma SameHead<T>(cmp: Comparator<T>, elements: set<T>, a: seq<T>, b: seq<T>)
    requires Consistent(cmp, elements) && AllIn(a, elements) && AllIn(b, elements)
    requires Sorted(cmp, a) && Sorted(cmp, b) && multiset(a) == multiset(b) && a != [] && b != []
    requires Ties(cmp, a, a[0]) == Ties(cmp, b, a[0])
    ensures a[0] == b[0]
  {
    HeadsTie(cmp, elements, a, b);
    assert Ties(cmp, a, a[0])[0] == a[0] && Ties(cmp, b, a[0])[0] == b[0];
  }

  lemma TailMultisets<T>(a: seq<T>, b: seq<T>)
    requires a != [] && b != [] && a[0] == b[0] && multiset(a) == multiset(b)
    ensures multiset(a[1..]) == multiset(b[1..])
  {
    assert a == [a[0]] + a[1..] && b == [b[0]] + b[1..];
    assert multiset(a[1..]) == multiset(a) - multiset{a[0]};
    assert multiset(b[1..]) == multiset(b) - multiset{b[0]};
  }

  /** Sorted and stable determines the result. */
  lemma {:induction false} SortUnique<T>(cmp: Comparator<T>, elements: set<T>, a: seq<T>, b: seq<T>)
    requires Consistent(cmp, elements) && AllIn(a, elements) && AllIn(b, elements)
    requires Sorted(cmp, a) && Sorted(cmp, b) && multiset(a) == multiset(b)
    requires forall x :: x in elements ==> Ties(cmp, a, x) == Ties(cmp, b, x)
    ensures a == b
    decreases |a|
  {
    assert |multiset(a)| == |a| && |multiset(b)| == |b|;
    if a != [] {
      assert a[0] in elements;
      SameHead(cmp, elements, a, b);
      TailMultisets(a, b);
      forall x | x in elements
        ensures Ties(cmp, a[1..], x) == Ties(cmp, b[1..], x)
      {
        TailTies(cmp, a, b, x);
      }
      SortUnique(cmp, elements, a[1..], b[1..]);
    }
  }

  lemma PermutationIn<T>(before: seq<T>, after: seq<T>)
    requires multiset(after) == multiset(before)
    ensures AllIn(after, Elements(before))
  {
    forall i | 0 <= i < |after|
      ensures after[i] in before
    {
      assert after[i] in multiset(after);
    }
  }

  /** For a consistent comparator the language leaves no choice. */
  lemma JsSortUnique<T>(cmp: Comparator<T>, before: seq<T>, a: seq<T>, b: seq<T>)
    requires Consistent(cmp, Elements(before)) && JsSorted(cmp, before, a) && JsSorted(cmp, before, b)
    ensures a == b
  {
    PermutationIn(before, a);
    PermutationIn(before, b);
    SortUnique(cmp, Elements(before), a, b);
  }
}
