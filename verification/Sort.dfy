/**
 The array sort of js/secsdk-lastest.umd.js: insertion in place below eight elements,
 a recursive merge of copied halves from eight on.  Both read only whether the
 comparator's answer is positive.
 */
module Sort {
  import opened FormUrlEncoded

  // ---------- What a sort promises ----------

  /** "Not after" is total and transitive; how the comparator answers on ties does not matter. */
  ghost predicate Preorder<T(!new)>(cmp: (T, T) -> int) {
    && (forall x, y :: cmp(x, y) <= 0 || cmp(y, x) <= 0)
    && (forall x, y, z :: cmp(x, y) <= 0 && cmp(y, z) <= 0 ==> cmp(x, z) <= 0)
  }

  predicate Sorted<T>(s: seq<T>, cmp: (T, T) -> int) {
    forall i, j :: 0 <= i < j < |s| ==> cmp(s[i], s[j]) <= 0
  }

  predicate Tied<T>(x: T, y: T, cmp: (T, T) -> int) { cmp(x, y) <= 0 && cmp(y, x) <= 0 }

  /** The elements tied with x, in their order. */
  function Ties<T>(s: seq<T>, x: T, cmp: (T, T) -> int): seq<T> {
    if s == [] then [] else Alone(s[0], x, cmp) + Ties(s[1..], x, cmp)
  }

  function Alone<T>(e: T, x: T, cmp: (T, T) -> int): seq<T> { if Tied(e, x, cmp) then [e] else [] }

  /** Sorted, and elements that tie keep the order they had. */
  ghost predicate IsStableSort<T(!new)>(s: seq<T>, r: seq<T>, cmp: (T, T) -> int) {
    Sorted(r, cmp) && forall x :: Ties(r, x, cmp) == Ties(s, x, cmp)
  }

  lemma Assoc<T>(a: seq<T>, b: seq<T>, c: seq<T>)
    ensures (a + b) + c == a + (b + c)
  {
  }

  lemma {:induction false} TiesAppend<T>(s: seq<T>, t: seq<T>, x: T, cmp: (T, T) -> int)
    ensures Ties(s + t, x, cmp) == Ties(s, x, cmp) + Ties(t, x, cmp)
  {
    hide Alone;
    if s == [] {
      assert s + t == t;
    } else {
      assert (s + t)[1..] == s[1..] + t;
      TiesAppend(s[1..], t, x, cmp);
      Assoc(Alone(s[0], x, cmp), Ties(s[1..], x, cmp), Ties(t, x, cmp));
    }
  }

  lemma OneTie<T>(e: T, x: T, cmp: (T, T) -> int)
    ensures Ties([e], x, cmp) == Alone(e, x, cmp)
  {
  }

  lemma {:induction false} NoTies<T>(s: seq<T>, x: T, cmp: (T, T) -> int)
    requires forall i :: 0 <= i < |s| ==> !Tied(s[i], x, cmp)
    ensures Ties(s, x, cmp) == []
  {
    if s != [] { NoTies(s[1..], x, cmp); }
  }

  lemma {:induction false} TiesOccur<T>(s: seq<T>, x: T, y: T, cmp: (T, T) -> int)
    ensures y in Ties(s, x, cmp) <==> y in s && Tied(y, x, cmp)
  {
    if s != [] {
      assert s == [s[0]] + s[1..];
      TiesOccur(s[1..], x, y, cmp);
    }
  }

  lemma {:induction false} TiesCount<T>(s: seq<T>, x: T, cmp: (T, T) -> int)
    requires Tied(x, x, cmp)
    ensures multiset(Ties(s, x, cmp))[x] == multiset(s)[x]
  {
    if s != [] {
      assert s == [s[0]] + s[1..];
      TiesCount(s[1..], x, cmp);
    }
  }

  /** A stable sort loses and invents no element. */
  lemma StableSortPermutes<T(!new)>(s: seq<T>, r: seq<T>, cmp: (T, T) -> int)
    requires Preorder(cmp) && IsStableSort(s, r, cmp)
    ensures multiset(r) == multiset(s)
  {
    forall x ensures multiset(r)[x] == multiset(s)[x] {
      TiesCount(r, x, cmp);
      TiesCount(s, x, cmp);
    }
  }

  /** The first element of a sorted list is the first of its own ties. */
  lemma FirstIsFirstTie<T(!new)>(r: seq<T>, cmp: (T, T) -> int)
    requires Preorder(cmp) && r != []
    ensures Ties(r, r[0], cmp) != [] && Ties(r, r[0], cmp)[0] == r[0]
  {
  }

  lemma OnlyEmptyHasNoTies<T(!new)>(r: seq<T>, cmp: (T, T) -> int)
    requires Preorder(cmp) && forall x :: Ties(r, x, cmp) == []
    ensures r == []
  {
    if r != [] { FirstIsFirstTie(r, cmp); }
  }

  /** At most one arrangement of a list is a stable sort of it. */
  lemma {:induction false} StableSortUnique<T(!new)>(s: seq<T>, q: seq<T>, r: seq<T>, cmp: (T, T) -> int)
    requires Preorder(cmp) && IsStableSort(s, q, cmp) && IsStableSort(s, r, cmp)
    ensures q == r
    decreases |q|
  {
    if q == [] {
      forall x ensures Ties(r, x, cmp) == [] { assert Ties(q, x, cmp) == []; }
      OnlyEmptyHasNoTies(r, cmp);
    } else if r == [] {
      forall x ensures Ties(q, x, cmp) == [] { assert Ties(r, x, cmp) == []; }
      OnlyEmptyHasNoTies(q, cmp);
    } else {
      FirstIsFirstTie(q, cmp);
      FirstIsFirstTie(r, cmp);
      TiesOccur(r, q[0], q[0], cmp);
      TiesOccur(q, r[0], r[0], cmp);
      assert Tied(q[0], r[0], cmp);
      SameHead(q, r, cmp);
      StableSortUnique(q[1..], q[1..], r[1..], cmp);
    }
  }

  lemma SameHead<T(!new)>(q: seq<T>, r: seq<T>, cmp: (T, T) -> int)
    requires Preorder(cmp) && q != [] && r != [] && Tied(q[0], r[0], cmp)
    requires Sorted(q, cmp) && Sorted(r, cmp)
    requires forall x :: Ties(q, x, cmp) == Ties(r, x, cmp)
    ensures q[0] == r[0] && IsStableSort(q[1..], r[1..], cmp) && Sorted(q[1..], cmp)
  {
    FirstIsFirstTie(q, cmp);
    assert Ties(r, q[0], cmp)[0] == r[0];
    forall x ensures Ties(r[1..], x, cmp) == Ties(q[1..], x, cmp) {
      var head := if Tied(q[0], x, cmp) then [q[0]] else [];
      assert Ties(q, x, cmp) == head + Ties(q[1..], x, cmp);
      assert Ties(r, x, cmp) == head + Ties(r[1..], x, cmp);
      assert Ties(q, x, cmp)[|head|..] == Ties(q[1..], x, cmp);
      assert Ties(r, x, cmp)[|head|..] == Ties(r[1..], x, cmp);
    }
  }

  // ---------- Insertion ----------

  /** e put behind the last element it is not before. */
  function Placed<T>(s: seq<T>, e: T, cmp: (T, T) -> int): (r: seq<T>)
    ensures |r| == |s| + 1
  {
    if s == [] || cmp(s[|s| - 1], e) <= 0 then s + [e]
    else Placed(s[..|s| - 1], e, cmp) + [s[|s| - 1]]
  }

  function InsertionSorted<T>(s: seq<T>, cmp: (T, T) -> int): (r: seq<T>)
    ensures |r| == |s|
  {
    if s == [] then [] else Placed(InsertionSorted(s[..|s| - 1], cmp), s[|s| - 1], cmp)
  }

  /** Where e lands: nothing after it in the list is not after e. */
  lemma {:induction false} PlacedWhere<T>(s: seq<T>, e: T, cmp: (T, T) -> int) returns (j: nat)
    ensures j <= |s| && Placed(s, e, cmp) == s[..j] + [e] + s[j..]
    ensures j > 0 ==> cmp(s[j - 1], e) <= 0
    ensures forall k :: j <= k < |s| ==> cmp(s[k], e) > 0
  {
    if s == [] || cmp(s[|s| - 1], e) <= 0 {
      j := |s|;
    } else {
      var init := s[..|s| - 1];
      j := PlacedWhere(init, e, cmp);
      assert s == init + [s[|s| - 1]] && s[j..] == init[j..] + [s[|s| - 1]] && s[..j] == init[..j];
    }
  }

  lemma TiesOfThree<T>(a: seq<T>, b: seq<T>, c: seq<T>, x: T, cmp: (T, T) -> int)
    ensures Ties(a + b + c, x, cmp) == Ties(a, x, cmp) + Ties(b, x, cmp) + Ties(c, x, cmp)
  {
    hide Ties;
    TiesAppend(a + b, c, x, cmp);
    TiesAppend(a, b, x, cmp);
  }

  lemma PlacedTies<T(!new)>(a: seq<T>, e: T, b: seq<T>, x: T, cmp: (T, T) -> int)
    requires Tied(e, x, cmp) ==> forall k :: 0 <= k < |b| ==> !Tied(b[k], x, cmp)
    ensures Ties(a + [e] + b, x, cmp) == Ties(a + b + [e], x, cmp)
  {
    hide Ties;
    TiesOfThree(a, [e], b, x, cmp);
    TiesOfThree(a, b, [e], x, cmp);
    OneTie(e, x, cmp);
    if Tied(e, x, cmp) { NoTies(b, x, cmp); }
  }

  lemma PlacedSorted<T(!new)>(s: seq<T>, e: T, j: nat, cmp: (T, T) -> int)
    requires Preorder(cmp) && Sorted(s, cmp) && j <= |s|
    requires j > 0 ==> cmp(s[j - 1], e) <= 0
    requires forall k :: j <= k < |s| ==> cmp(s[k], e) > 0
    ensures Sorted(s[..j] + [e] + s[j..], cmp)
  {
    var r := s[..j] + [e] + s[j..];
    forall i, k | 0 <= i < k < |r| ensures cmp(r[i], r[k]) <= 0 {
      if i < j && k == j { assert i == j - 1 || cmp(s[i], s[j - 1]) <= 0; }
      if i == j { assert cmp(s[k - 1], e) > 0; }
    }
  }

  lemma PlacedStable<T(!new)>(s: seq<T>, e: T, cmp: (T, T) -> int)
    requires Preorder(cmp) && Sorted(s, cmp)
    ensures IsStableSort(s + [e], Placed(s, e, cmp), cmp)
  {
    hide Ties, Placed;
    var j := PlacedWhere(s, e, cmp);
    PlacedSorted(s, e, j, cmp);
    var a, b := s[..j], s[j..];
    assert s == a + b;
    forall x ensures Ties(Placed(s, e, cmp), x, cmp) == Ties(s + [e], x, cmp) {
      if Tied(e, x, cmp) {
        forall k | 0 <= k < |b| ensures !Tied(b[k], x, cmp) {
          assert b[k] == s[j + k] && cmp(s[j + k], e) > 0;
        }
      }
      PlacedTies(a, e, b, x, cmp);
    }
  }

  lemma {:induction false} InsertionStable<T(!new)>(s: seq<T>, cmp: (T, T) -> int)
    requires Preorder(cmp)
    ensures IsStableSort(s, InsertionSorted(s, cmp), cmp)
  {
    if s != [] {
      var init, last := s[..|s| - 1], s[|s| - 1];
      assert s == init + [last];
      InsertionStable(init, cmp);
      PlacedStable(InsertionSorted(init, cmp), last, cmp);
      forall x ensures Ties(InsertionSorted(s, cmp), x, cmp) == Ties(s, x, cmp) {
        TiesAppend(InsertionSorted(init, cmp), [last], x, cmp);
        TiesAppend(init, [last], x, cmp);
      }
    }
  }

  // ---------- Merging ----------

  function Merged<T>(left: seq<T>, right: seq<T>, cmp: (T, T) -> int): (r: seq<T>)
    ensures |r| == |left| + |right|
  {
    if left == [] then right
    else if right == [] then left
    else if cmp(left[0], right[0]) <= 0 then [left[0]] + Merged(left[1..], right, cmp)
    else [right[0]] + Merged(left, right[1..], cmp)
  }

  lemma {:induction false} MergedElements<T>(left: seq<T>, right: seq<T>, cmp: (T, T) -> int)
    ensures multiset(Merged(left, right, cmp)) == multiset(left) + multiset(right)
  {
    if left != [] && right != [] {
      if cmp(left[0], right[0]) <= 0 {
        assert left == [left[0]] + left[1..];
        MergedElements(left[1..], right, cmp);
      } else {
        assert right == [right[0]] + right[1..];
        MergedElements(left, right[1..], cmp);
      }
    }
  }

  /** An element not after anything in two lists is not after anything in their merge. */
  lemma MergedBound<T>(x: T, left: seq<T>, right: seq<T>, cmp: (T, T) -> int)
    requires forall i :: 0 <= i < |left| ==> cmp(x, left[i]) <= 0
    requires forall i :: 0 <= i < |right| ==> cmp(x, right[i]) <= 0
    ensures forall i :: 0 <= i < |left| + |right| ==> cmp(x, Merged(left, right, cmp)[i]) <= 0
  {
    MergedElements(left, right, cmp);
    forall i | 0 <= i < |left| + |right| ensures cmp(x, Merged(left, right, cmp)[i]) <= 0 {
      assert Merged(left, right, cmp)[i] in multiset(left) + multiset(right);
    }
  }

  lemma {:induction false} MergedSorted<T(!new)>(left: seq<T>, right: seq<T>, cmp: (T, T) -> int)
    requires Preorder(cmp) && Sorted(left, cmp) && Sorted(right, cmp)
    ensures Sorted(Merged(left, right, cmp), cmp)
  {
    if left != [] && right != [] {
      if cmp(left[0], right[0]) <= 0 {
        MergedSorted(left[1..], right, cmp);
        MergedBound(left[0], left[1..], right, cmp);
      } else {
        MergedSorted(left, right[1..], cmp);
        MergedBound(right[0], left, right[1..], cmp);
      }
    }
  }

  /** Ties from the left half come before ties from the right half. */
  lemma {:induction false} MergedTies<T(!new)>(left: seq<T>, right: seq<T>, x: T, cmp: (T, T) -> int)
    requires Preorder(cmp) && Sorted(left, cmp) && Sorted(right, cmp)
    ensures Ties(Merged(left, right, cmp), x, cmp) == Ties(left, x, cmp) + Ties(right, x, cmp)
  {
    hide Ties, Preorder;
    TiesStart(left, x, cmp);
    TiesStart(right, x, cmp);
    TiesStart(Merged(left, right, cmp), x, cmp);
    if left != [] && right != [] {
      var rest := Merged(left, right, cmp)[1..];
      if cmp(left[0], right[0]) <= 0 {
        assert rest == Merged(left[1..], right, cmp);
        MergedTies(left[1..], right, x, cmp);
        Assoc(Alone(left[0], x, cmp), Ties(left[1..], x, cmp), Ties(right, x, cmp));
      } else {
        assert rest == Merged(left, right[1..], cmp);
        MergedTies(left, right[1..], x, cmp);
        if Tied(right[0], x, cmp) { AllBehind(left, right[0], x, cmp); }
      }
    }
  }

  lemma TiesStart<T>(s: seq<T>, x: T, cmp: (T, T) -> int)
    ensures s == [] ==> Ties(s, x, cmp) == []
    ensures s != [] ==> Ties(s, x, cmp) == Alone(s[0], x, cmp) + Ties(s[1..], x, cmp)
  {
  }

  lemma AllBehind<T(!new)>(left: seq<T>, e: T, x: T, cmp: (T, T) -> int)
    requires Preorder(cmp) && Sorted(left, cmp) && left != []
    requires cmp(left[0], e) > 0 && Tied(e, x, cmp)
    ensures Ties(left, x, cmp) == []
  {
    hide Ties;
    forall i | 0 <= i < |left| ensures !Tied(left[i], x, cmp) {
      assert i == 0 || cmp(left[0], left[i]) <= 0;
    }
    NoTies(left, x, cmp);
  }

  // ---------- The whole sort ----------

  function Arranged<T>(s: seq<T>, cmp: (T, T) -> int): (r: seq<T>)
    ensures |r| == |s|
  {
    if |s| < 8 then InsertionSorted(s, cmp)
    else Merged(Arranged(s[..|s| / 2], cmp), Arranged(s[|s| / 2..], cmp), cmp)
  }

  /** Both branches, at every length: sorted, and ties keep their order. */
  lemma {:induction false} ArrangedStable<T(!new)>(s: seq<T>, cmp: (T, T) -> int)
    requires Preorder(cmp)
    ensures IsStableSort(s, Arranged(s, cmp), cmp)
    decreases |s|
  {
    if |s| < 8 {
      InsertionStable(s, cmp);
    } else {
      var l, r := s[..|s| / 2], s[|s| / 2..];
      assert s == l + r;
      ArrangedStable(l, cmp);
      ArrangedStable(r, cmp);
      MergedSorted(Arranged(l, cmp), Arranged(r, cmp), cmp);
      forall x ensures Ties(Arranged(s, cmp), x, cmp) == Ties(s, x, cmp) {
        MergedTies(Arranged(l, cmp), Arranged(r, cmp), x, cmp);
        TiesAppend(l, r, x, cmp);
      }
    }
  }

  lemma {:induction false} PlacedElements<T>(s: seq<T>, e: T, cmp: (T, T) -> int)
    ensures multiset(Placed(s, e, cmp)) == multiset(s) + multiset{e}
  {
    if s != [] && cmp(s[|s| - 1], e) > 0 {
      assert s == s[..|s| - 1] + [s[|s| - 1]];
      PlacedElements(s[..|s| - 1], e, cmp);
    }
  }

  lemma {:induction false} InsertionElements<T>(s: seq<T>, cmp: (T, T) -> int)
    ensures multiset(InsertionSorted(s, cmp)) == multiset(s)
  {
    if s != [] {
      assert s == s[..|s| - 1] + [s[|s| - 1]];
      InsertionElements(s[..|s| - 1], cmp);
      PlacedElements(InsertionSorted(s[..|s| - 1], cmp), s[|s| - 1], cmp);
    }
  }

  /** Whatever the comparator answers, the result is a permutation. */
  lemma {:induction false} ArrangedPermutes<T>(s: seq<T>, cmp: (T, T) -> int)
    ensures multiset(Arranged(s, cmp)) == multiset(s)
    decreases |s|
  {
    if |s| < 8 {
      InsertionElements(s, cmp);
    } else {
      var l, r := s[..|s| / 2], s[|s| / 2..];
      assert s == l + r;
      ArrangedPermutes(l, cmp);
      ArrangedPermutes(r, cmp);
      MergedElements(Arranged(l, cmp), Arranged(r, cmp), cmp);
    }
  }

  // ---------- The code ----------

  /** What is behind j does not decide where e goes. */
  ghost predicate Passed<T>(s: seq<T>, j: nat, e: T, cmp: (T, T) -> int)
    requires j <= |s|
  {
    Placed(s, e, cmp) == Placed(s[..j], e, cmp) + s[j..]
  }

  lemma PassedStart<T>(s: seq<T>, e: T, cmp: (T, T) -> int)
    ensures Passed(s, |s|, e, cmp)
  {
    hide Placed;
    assert s[..|s|] == s;
  }

  lemma PassedStep<T>(s: seq<T>, j: nat, e: T, cmp: (T, T) -> int)
    requires 0 < j <= |s| && Passed(s, j, e, cmp) && cmp(s[j - 1], e) > 0
    ensures Passed(s, j - 1, e, cmp)
  {
    assert s[..j][..j - 1] == s[..j - 1];
    assert Placed(s[..j], e, cmp) == Placed(s[..j - 1], e, cmp) + [s[j - 1]];
    hide Placed;
    Assoc(Placed(s[..j - 1], e, cmp), [s[j - 1]], s[j..]);
    assert [s[j - 1]] + s[j..] == s[j - 1..];
  }

  lemma PassedEnd<T>(s: seq<T>, j: nat, e: T, cmp: (T, T) -> int)
    requires j <= |s| && Passed(s, j, e, cmp) && (j == 0 || cmp(s[j - 1], e) <= 0)
    ensures Placed(s, e, cmp) == s[..j] + [e] + s[j..]
  {
    assert j > 0 ==> s[..j][j - 1] == s[j - 1];
  }

  /** One outer turn of the insertion sort. */
  method InsertAt<T>(a: array<T>, i: nat, cmp: (T, T) -> int)
    requires i < a.Length
    modifies a
    ensures a[..i + 1] == Placed(old(a[..i]), old(a[i]), cmp)
    ensures forall k :: i < k < a.Length ==> a[k] == old(a[k])
  {
    hide Placed, Passed;
    ghost var s := a[..i];
    var j, element := i, a[i];
    PassedStart(s, element, cmp);
    while j != 0 && cmp(a[j - 1], element) > 0
      invariant 0 <= j <= i && Passed(s, j, element, cmp)
      invariant forall k :: 0 <= k < j ==> a[k] == s[k]
      invariant forall k :: j <= k < i ==> a[k + 1] == s[k]
      invariant j == i ==> a[i] == element
      invariant forall k :: i < k < a.Length ==> a[k] == old(a[k])
    {
      PassedStep(s, j, element, cmp);
      a[j] := a[j - 1];
      j := j - 1;
    }
    PassedEnd(s, j, element, cmp);
    if j != i { a[j] := element; }
    assert a[..i + 1] == s[..j] + [element] + s[j..];
  }

  method InsertionSort<T>(a: array<T>, cmp: (T, T) -> int)
    modifies a
    ensures a[..] == InsertionSorted(old(a[..]), cmp)
  {
    var i := 1;
    ghost var s := a[..];
    if a.Length > 0 {
      assert s[..1] == [s[0]] && s[..1][..0] == [];
      assert InsertionSorted(s[..1][..0], cmp) == [];
      assert InsertionSorted(s[..1], cmp) == [s[0]];
    }
    while i < a.Length
      invariant a.Length > 0 ==> 1 <= i <= a.Length
      invariant a.Length > 0 ==> a[..i] == InsertionSorted(s[..i], cmp)
      invariant forall k :: i <= k < a.Length ==> a[k] == s[k]
    {
      assert s[..i + 1][..i] == s[..i];
      InsertAt(a, i, cmp);
      i := i + 1;
    }
    if a.Length > 0 { assert a[..] == a[..i] && s[..i] == s; }
  }

  /** Which list the merge takes from next. */
  predicate TakesLeft<T>(left: seq<T>, l: nat, right: seq<T>, r: nat, cmp: (T, T) -> int) {
    l < |left| && (r < |right| ==> cmp(left[l], right[r]) <= 0)
  }

  lemma MergedStep<T>(left: seq<T>, l: nat, right: seq<T>, r: nat, cmp: (T, T) -> int)
    requires l <= |left| && r <= |right| && (l < |left| || r < |right|)
    ensures TakesLeft(left, l, right, r, cmp) ==>
      Merged(left[l..], right[r..], cmp) == [left[l]] + Merged(left[l + 1..], right[r..], cmp)
    ensures !TakesLeft(left, l, right, r, cmp) ==> (
      && r < |right|
      && Merged(left[l..], right[r..], cmp) == [right[r]] + Merged(left[l..], right[r + 1..], cmp))
  {
    assert l < |left| ==> left[l..][1..] == left[l + 1..] && left[l..] == [left[l]] + left[l + 1..];
    assert r < |right| ==> right[r..][1..] == right[r + 1..] && right[r..] == [right[r]] + right[r + 1..];
  }

  /** The merge loop; the halves are copies, so writing the array leaves them alone. */
  method MergeInto<T>(a: array<T>, left: array<T>, right: array<T>, cmp: (T, T) -> int)
    requires a.Length == left.Length + right.Length && a != left && a != right
    modifies a
    ensures a[..] == Merged(left[..], right[..], cmp)
  {
    hide Merged;
    var l, r := 0, 0;
    ghost var ls, rs := left[..], right[..];
    assert ls[0..] == ls && rs[0..] == rs;
    while l < left.Length || r < right.Length
      invariant 0 <= l <= left.Length && 0 <= r <= right.Length
      invariant left[..] == ls && right[..] == rs
      invariant a[..l + r] + Merged(ls[l..], rs[r..], cmp) == Merged(ls, rs, cmp)
      decreases left.Length - l + right.Length - r
    {
      ghost var done := a[..l + r];
      MergedStep(ls, l, rs, r, cmp);
      var next;
      if l < left.Length && r < right.Length {
        if cmp(left[l], right[r]) <= 0 {
          next := left[l];
          a[l + r], l := next, l + 1;
        } else {
          next := right[r];
          a[l + r], r := next, r + 1;
        }
      } else if l < left.Length {
        next := left[l];
        a[l + r], l := next, l + 1;
      } else {
        next := right[r];
        a[l + r], r := next, r + 1;
      }
      Assoc(done, [next], Merged(ls[l..], rs[r..], cmp));
      assert a[..l + r] == done + [next];
    }
    NothingToMerge(ls[l..], rs[r..], cmp);
    assert a[..l + r] == a[..];
  }

  lemma NothingToMerge<T>(left: seq<T>, right: seq<T>, cmp: (T, T) -> int)
    requires left == [] && right == []
    ensures Merged(left, right, cmp) == []
  {
  }

  /** The array is rearranged in place; whatever the comparator answers, no element is lost. */
  method SortArray<T(!new)>(a: array<T>, cmp: (T, T) -> int)
    modifies a
    ensures a[..] == Arranged(old(a[..]), cmp)
    ensures multiset(a[..]) == multiset(old(a[..]))
    ensures Preorder(cmp) ==> IsStableSort(old(a[..]), a[..], cmp)
    decreases a.Length
  {
    ghost var s := a[..];
    if a.Length < 8 {
      InsertionSort(a, cmp);
    } else {
      var middle := a.Length / 2;
      var left := new T[middle](i requires 0 <= i < middle reads a => a[i]);
      var right := new T[a.Length - middle](i requires 0 <= i < a.Length - middle reads a => a[middle + i]);
      assert left[..] == s[..middle] && right[..] == s[middle..];
      SortArray(left, cmp);
      SortArray(right, cmp);
      MergeInto(a, left, right, cmp);
    }
    hide Preorder, IsStableSort, Arranged;
    ArrangedPermutes(s, cmp);
    if Preorder(cmp) { ArrangedStable(s, cmp); }
  }

  // ---------- URLSearchParams.sort ----------

  /** The language's order on strings, by code units. */
  predicate Greater(s: seq<int>, t: seq<int>) {
    s != [] && (t == [] || s[0] > t[0] || (s[0] == t[0] && Greater(s[1..], t[1..])))
  }

  /** The comparator of `URLSearchParams.sort`: equal keys get -1 in either order. */
  function CompareKeys(a: Entry, b: Entry): int { if Greater(a.key, b.key) then 1 else -1 }

  /** At the first difference the larger code unit decides, and of two keys that agree the longer one comes after. */
  lemma {:induction false} GreaterExactly(s: seq<int>, t: seq<int>, k: nat)
    requires k <= |s| && k <= |t| && s[..k] == t[..k] && (k < |s| && k < |t| ==> s[k] != t[k])
    ensures Greater(s, t) <==> k < |s| && (k == |t| || s[k] > t[k])
  {
    if k > 0 {
      assert s[0] == s[..k][0] && t[0] == t[..k][0];
      assert s[1..][..k - 1] == s[..k][1..] && t[1..][..k - 1] == t[..k][1..];
      GreaterExactly(s[1..], t[1..], k - 1);
    }
  }

  lemma {:induction false} GreaterOneWay(s: seq<int>, t: seq<int>)
    ensures !(Greater(s, t) && Greater(t, s))
    ensures !Greater(s, t) && !Greater(t, s) <==> s == t
  {
    if s != [] && t != [] {
      GreaterOneWay(s[1..], t[1..]);
      assert s == [s[0]] + s[1..] && t == [t[0]] + t[1..];
    }
  }

  lemma {:induction false} NotGreaterTransitive(s: seq<int>, t: seq<int>, u: seq<int>)
    requires !Greater(s, t) && !Greater(t, u)
    ensures !Greater(s, u)
  {
    if s != [] && t != [] && u != [] && s[0] == t[0] == u[0] { NotGreaterTransitive(s[1..], t[1..], u[1..]); }
  }

  /** Answering -1 on equal keys still tells the sort a total order of the keys. */
  lemma KeysAreOrdered()
    ensures Preorder(CompareKeys)
    ensures forall a, b :: Tied(a, b, CompareKeys) <==> a.key == b.key
  {
    forall a: Entry, b: Entry
      ensures CompareKeys(a, b) <= 0 || CompareKeys(b, a) <= 0
      ensures Tied(a, b, CompareKeys) <==> a.key == b.key
    {
      GreaterOneWay(a.key, b.key);
    }
    forall a: Entry, b: Entry, c: Entry | CompareKeys(a, b) <= 0 && CompareKeys(b, c) <= 0
      ensures CompareKeys(a, c) <= 0
    {
      NotGreaterTransitive(a.key, b.key, c.key);
    }
  }

  function WithKey(s: seq<Entry>, key: seq<int>): seq<Entry> {
    if s == [] then [] else (if s[0].key == key then [s[0]] else []) + WithKey(s[1..], key)
  }

  lemma {:induction false} WithKeyTies(s: seq<Entry>, e: Entry)
    requires forall a, b :: Tied(a, b, CompareKeys) <==> a.key == b.key
    ensures WithKey(s, e.key) == Ties(s, e, CompareKeys)
  {
    hide Tied;
    if s != [] { WithKeyTies(s[1..], e); }
  }

  /** Sorting the parameters orders the keys and keeps the values of each key in their order. */
  method SortEntries(entries: array<Entry>)
    modifies entries
    ensures forall i, j :: 0 <= i < j < entries.Length ==> !Greater(entries[i].key, entries[j].key)
    ensures forall key :: WithKey(entries[..], key) == WithKey(old(entries[..]), key)
    ensures multiset(entries[..]) == multiset(old(entries[..]))
  {
    ghost var s := entries[..];
    SortArray(entries, CompareKeys);
    KeysAreOrdered();
    hide Preorder, Greater, Tied, Arranged;
    ghost var r := entries[..];
    forall key ensures WithKey(r, key) == WithKey(s, key) {
      WithKeyTies(r, Entry(key, []));
      WithKeyTies(s, Entry(key, []));
    }
    forall i, j | 0 <= i < j < entries.Length ensures !Greater(entries[i].key, entries[j].key) {
      assert CompareKeys(r[i], r[j]) <= 0;
    }
  }
}
