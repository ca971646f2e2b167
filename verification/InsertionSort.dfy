/**
 The function camshr/issort.c computes, and what makes it the right one: for a total
 preorder its result is the one stable sorted rearrangement of the input.
 */
module InsertionSort {

  /** A comparison in C's style: negative, zero or positive. */
  ghost predicate TotalPreorder<T(!new)>(cmp: (T, T) -> int) {
    && (forall a, b :: cmp(a, b) > 0 <==> cmp(b, a) < 0)
    && (forall a, b, c :: cmp(a, b) <= 0 && cmp(b, c) <= 0 ==> cmp(a, c) <= 0)
  }

  ghost predicate Sorted<T>(s: seq<T>, cmp: (T, T) -> int) {
    forall i, j :: 0 <= i < j < |s| ==> cmp(s[i], s[j]) <= 0
  }

  /** x goes behind the last element that is not greater. */
  function Insert<T>(s: seq<T>, x: T, cmp: (T, T) -> int): (r: seq<T>)
    ensures |r| == |s| + 1
  {
    if s == [] || cmp(s[|s| - 1], x) <= 0 then s + [x]
    else Insert(s[..|s| - 1], x, cmp) + [s[|s| - 1]]
  }

  function Sort<T>(s: seq<T>, cmp: (T, T) -> int): (r: seq<T>)
    ensures |r| == |s|
  {
    if s == [] then [] else Insert(Sort(s[..|s| - 1], cmp), s[|s| - 1], cmp)
  }

  /** The elements that compare equal to x, in their order. */
  ghost function Class<T>(s: seq<T>, x: T, cmp: (T, T) -> int): seq<T> {
    if s == [] then [] else (if cmp(s[0], x) == 0 then [s[0]] else []) + Class(s[1..], x, cmp)
  }

  /** Rearranged, with equal elements keeping their order. */
  ghost predicate StableRearrangement<T(!new)>(a: seq<T>, b: seq<T>, cmp: (T, T) -> int) {
    forall x :: Class(a, x, cmp) == Class(b, x, cmp)
  }

  // ---------------------------------------------------------------- insertion

  lemma {:induction false} InsertKeepsElements<T>(s: seq<T>, x: T, cmp: (T, T) -> int)
    ensures multiset(Insert(s, x, cmp)) == multiset(s) + multiset{x}
  {
    if s != [] && cmp(s[|s| - 1], x) > 0 {
      var n := |s| - 1;
      InsertKeepsElements(s[..n], x, cmp);
      assert s == s[..n] + [s[n]];
    }
  }

  lemma Transitive<T(!new)>(cmp: (T, T) -> int, a: T, b: T, c: T)
    requires TotalPreorder(cmp) && cmp(a, b) <= 0 && cmp(b, c) <= 0
    ensures cmp(a, c) <= 0
  {
  }

  lemma Flipped<T(!new)>(cmp: (T, T) -> int, a: T, b: T)
    requires TotalPreorder(cmp)
    ensures cmp(a, b) > 0 <==> cmp(b, a) < 0
    ensures cmp(a, b) == 0 <==> cmp(b, a) == 0
  {
    assert cmp(b, a) > 0 <==> cmp(a, b) < 0;
  }

  /** No element comes after e. */
  ghost predicate AllUpTo<T>(s: seq<T>, e: T, cmp: (T, T) -> int) {
    forall i :: 0 <= i < |s| ==> cmp(s[i], e) <= 0
  }

  lemma SortedAppend<T>(s: seq<T>, e: T, cmp: (T, T) -> int)
    requires Sorted(s, cmp) && AllUpTo(s, e, cmp)
    ensures Sorted(s + [e], cmp)
  {
  }

  lemma {:induction false} InsertUpTo<T>(s: seq<T>, x: T, e: T, cmp: (T, T) -> int)
    requires AllUpTo(s, e, cmp) && cmp(x, e) <= 0
    ensures AllUpTo(Insert(s, x, cmp), e, cmp)
  {
    if s != [] && cmp(s[|s| - 1], x) > 0 {
      InsertUpTo(s[..|s| - 1], x, e, cmp);
    }
  }

  lemma UpToTransitive<T(!new)>(s: seq<T>, e: T, x: T, cmp: (T, T) -> int)
    requires TotalPreorder(cmp) && AllUpTo(s, e, cmp) && cmp(e, x) <= 0
    ensures AllUpTo(s + [e], x, cmp)
  {
    forall i | 0 <= i < |s| ensures cmp(s[i], x) <= 0 {
      Transitive(cmp, s[i], e, x);
    }
  }

  lemma {:induction false} InsertSorted<T(!new)>(s: seq<T>, x: T, cmp: (T, T) -> int)
    requires TotalPreorder(cmp) && Sorted(s, cmp)
    ensures Sorted(Insert(s, x, cmp), cmp)
  {
    if s == [] {
    } else {
      var init, last := s[..|s| - 1], s[|s| - 1];
      assert s == init + [last];
      if cmp(last, x) <= 0 {
        UpToTransitive(init, last, x, cmp);
        SortedAppend(s, x, cmp);
      } else {
        Flipped(cmp, last, x);
        InsertSorted(init, x, cmp);
        InsertUpTo(init, x, last, cmp);
        SortedAppend(Insert(init, x, cmp), last, cmp);
      }
    }
  }

  lemma {:induction false} ClassOfAppend<T>(s: seq<T>, t: seq<T>, x: T, cmp: (T, T) -> int)
    ensures Class(s + t, x, cmp) == Class(s, x, cmp) + Class(t, x, cmp)
  {
    if s == [] {
      assert s + t == t;
    } else {
      var h := if cmp(s[0], x) == 0 then [s[0]] else [];
      assert (s + t)[0] == s[0] && (s + t)[1..] == s[1..] + t;
      ClassOfAppend(s[1..], t, x, cmp);
      assert h + (Class(s[1..], x, cmp) + Class(t, x, cmp)) == (h + Class(s[1..], x, cmp)) + Class(t, x, cmp);
    }
  }

  lemma ClassOfOne<T>(y: T, x: T, cmp: (T, T) -> int)
    ensures Class([y], x, cmp) == if cmp(y, x) == 0 then [y] else []
  {
    assert [y][1..] == [];
  }

  lemma {:induction false} InsertStable<T(!new)>(s: seq<T>, x: T, y: T, cmp: (T, T) -> int)
    requires TotalPreorder(cmp)
    ensures Class(Insert(s, x, cmp), y, cmp) == Class(s + [x], y, cmp)
  {
    if s != [] && cmp(s[|s| - 1], x) > 0 {
      var n := |s| - 1;
      InsertStable(s[..n], x, y, cmp);
      SwapApart(s[..n], s[n], x, y, cmp);
      ClassOfAppend(Insert(s[..n], x, cmp), [s[n]], y, cmp);
      ClassOfAppend(s[..n] + [x], [s[n]], y, cmp);
      assert s[..n] + [s[n]] == s;
    }
  }

  /** Two neighbours that do not compare equal may change places. */
  lemma SwapApart<T(!new)>(s: seq<T>, e: T, x: T, y: T, cmp: (T, T) -> int)
    requires TotalPreorder(cmp) && cmp(e, x) > 0
    ensures Class(s + [x] + [e], y, cmp) == Class(s + [e] + [x], y, cmp)
  {
    ClassOfAppend(s, [x], y, cmp);
    ClassOfAppend(s, [e], y, cmp);
    ClassOfAppend(s + [x], [e], y, cmp);
    ClassOfAppend(s + [e], [x], y, cmp);
    ClassOfOne(e, y, cmp);
    ClassOfOne(x, y, cmp);
    if cmp(e, y) == 0 && cmp(x, y) == 0 {
      Flipped(cmp, x, y);
      Transitive(cmp, e, y, x);
    }
  }

  // ------------------------------------------------------------------ sorting

  lemma {:induction false} SortIsStable<T(!new)>(s: seq<T>, cmp: (T, T) -> int)
    requires TotalPreorder(cmp)
    ensures Sorted(Sort(s, cmp), cmp)
    ensures StableRearrangement(Sort(s, cmp), s, cmp)
  {
    if s != [] {
      var n := |s| - 1;
      SortIsStable(s[..n], cmp);
      InsertSorted(Sort(s[..n], cmp), s[n], cmp);
      assert s == s[..n] + [s[n]];
      forall y ensures Class(Sort(s, cmp), y, cmp) == Class(s, y, cmp) {
        InsertStable(Sort(s[..n], cmp), s[n], y, cmp);
        ClassOfAppend(Sort(s[..n], cmp), [s[n]], y, cmp);
        ClassOfAppend(s[..n], [s[n]], y, cmp);
      }
    }
  }

  lemma {:induction false} SortKeepsElements<T>(s: seq<T>, cmp: (T, T) -> int)
    ensures multiset(Sort(s, cmp)) == multiset(s)
  {
    if s != [] {
      var n := |s| - 1;
      SortKeepsElements(s[..n], cmp);
      InsertKeepsElements(Sort(s[..n], cmp), s[n], cmp);
      assert s == s[..n] + [s[n]];
    }
  }

  lemma {:induction false} ClassMember<T>(s: seq<T>, x: T, cmp: (T, T) -> int)
    ensures Class(s, x, cmp) != [] ==> Class(s, x, cmp)[0] in s && cmp(Class(s, x, cmp)[0], x) == 0
  {
    if s != [] { ClassMember(s[1..], x, cmp); }
  }

  lemma HeadOfClass<T>(s: seq<T>, cmp: (T, T) -> int)
    requires s != [] && cmp(s[0], s[0]) == 0
    ensures Class(s, s[0], cmp) == [s[0]] + Class(s[1..], s[0], cmp)
  {
  }

  lemma SameHead<T(!new)>(a: seq<T>, b: seq<T>, cmp: (T, T) -> int)
    requires TotalPreorder(cmp) && Sorted(a, cmp) && Sorted(b, cmp)
    requires a != [] && b != [] && StableRearrangement(a, b, cmp)
    ensures a[0] == b[0]
  {
    assert cmp(a[0], a[0]) == 0 && cmp(b[0], b[0]) == 0;
    HeadOfClass(a, cmp);
    HeadOfClass(b, cmp);
    ClassMember(b, a[0], cmp);
    ClassMember(a, b[0], cmp);
    assert a[0] in b && b[0] in a;
    assert cmp(b[0], a[0]) == 0;
    assert Class(b, a[0], cmp)[0] == b[0];
  }

  lemma SameTails<T>(a: seq<T>, b: seq<T>, x: T, cmp: (T, T) -> int)
    requires a != [] && b != [] && a[0] == b[0]
    requires Class(a, x, cmp) == Class(b, x, cmp)
    ensures Class(a[1..], x, cmp) == Class(b[1..], x, cmp)
  {
    var p := if cmp(a[0], x) == 0 then [a[0]] else [];
    assert Class(a[1..], x, cmp) == Class(a, x, cmp)[|p|..];
    assert Class(b[1..], x, cmp) == Class(b, x, cmp)[|p|..];
  }

  /** There is only one sorted stable rearrangement. */
  lemma {:induction false} StableSortUnique<T(!new)>(a: seq<T>, b: seq<T>, cmp: (T, T) -> int)
    requires TotalPreorder(cmp) && Sorted(a, cmp) && Sorted(b, cmp)
    requires StableRearrangement(a, b, cmp)
    ensures a == b
  {
    if a == [] || b == [] {
      if b != [] { HeadOfClass(b, cmp); }
      if a != [] { HeadOfClass(a, cmp); }
    } else {
      SameHead(a, b, cmp);
      forall x ensures Class(a[1..], x, cmp) == Class(b[1..], x, cmp) {
        SameTails(a, b, x, cmp);
      }
      StableSortUnique(a[1..], b[1..], cmp);
      assert a == [a[0]] + a[1..] && b == [b[0]] + b[1..];
    }
  }
}
