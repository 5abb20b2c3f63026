/**
Insertion sorting over any total preorder, the order of texts, and why two sorted lists of the same elements are equal
where the order tells all elements apart. Source trees and removal lists are sorted this way.
*/
module Sorting {
  ghost predicate Preorder<T(!new)>(atMost: (T, T) -> bool) {
    && (forall a, b :: atMost(a, b) || atMost(b, a))
    && (forall a, b, c :: atMost(a, b) && atMost(b, c) ==> atMost(a, c))
  }

  ghost predicate Ordered<T>(s: seq<T>, atMost: (T, T) -> bool) {
    forall i, j :: 0 <= i < j < |s| ==> atMost(s[i], s[j])
  }

  function Inserted<T>(x: T, s: seq<T>, atMost: (T, T) -> bool): seq<T> {
    if s == [] || atMost(x, s[0]) then [x] + s else [s[0]] + Inserted(x, s[1..], atMost)
  }

  function Sorted<T>(s: seq<T>, atMost: (T, T) -> bool): seq<T> {
    if s == [] then [] else Inserted(s[0], Sorted(s[1..], atMost), atMost)
  }

  lemma {:induction false} InsertedContents<T>(x: T, s: seq<T>, atMost: (T, T) -> bool)
    ensures multiset(Inserted(x, s, atMost)) == multiset([x] + s)
  {
    if s == [] || atMost(x, s[0]) {
    } else {
      InsertedContents(x, s[1..], atMost);
      assert [x] + s == [x, s[0]] + s[1..];
      assert multiset(Inserted(x, s, atMost)) == multiset{s[0]} + multiset(Inserted(x, s[1..], atMost));
    }
  }

  lemma {:induction false} InsertedOrdered<T(!new)>(x: T, s: seq<T>, atMost: (T, T) -> bool)
    requires Preorder(atMost) && Ordered(s, atMost)
    ensures Ordered(Inserted(x, s, atMost), atMost)
  {
    if s == [] {
    } else if atMost(x, s[0]) {
      assert forall i :: 0 < i < |s| ==> atMost(s[0], s[i]);
    } else {
      InsertedOrdered(x, s[1..], atMost);
      InsertedContents(x, s[1..], atMost);
      var rest := Inserted(x, s[1..], atMost);
      forall i | 0 <= i < |rest|
        ensures atMost(s[0], rest[i])
      {
        assert rest[i] in multiset(rest);
        assert rest[i] == x || rest[i] in s[1..];
      }
    }
  }

  lemma {:induction false} SortedContents<T>(s: seq<T>, atMost: (T, T) -> bool)
    ensures multiset(Sorted(s, atMost)) == multiset(s)
  {
    if s != [] {
      SortedContents(s[1..], atMost);
      InsertedContents(s[0], Sorted(s[1..], atMost), atMost);
      assert s == [s[0]] + s[1..];
    }
  }

  lemma {:induction false} SortedOrdered<T(!new)>(s: seq<T>, atMost: (T, T) -> bool)
    requires Preorder(atMost)
    ensures Ordered(Sorted(s, atMost), atMost)
  {
    if s != [] {
      SortedOrdered(s[1..], atMost);
      InsertedOrdered(s[0], Sorted(s[1..], atMost), atMost);
    }
  }

  ghost predicate Antisymmetric<T>(s: seq<T>, atMost: (T, T) -> bool) {
    forall a, b :: a in s && b in s && atMost(a, b) && atMost(b, a) ==> a == b
  }

  lemma FirstAtMost<T>(s: seq<T>, x: T, atMost: (T, T) -> bool)
    requires Ordered(s, atMost) && x in s
    ensures x == s[0] || atMost(s[0], x)
  {
    var i :| 0 <= i < |s| && s[i] == x;
  }

  lemma SameFirst<T>(s: seq<T>, t: seq<T>, atMost: (T, T) -> bool)
    requires Ordered(s, atMost) && Ordered(t, atMost) && multiset(s) == multiset(t) && Antisymmetric(s, atMost)
    requires s != [] && t != []
    ensures s[0] == t[0]
  {
    assert s[0] in multiset(t) && t[0] in multiset(s);
    FirstAtMost(s, t[0], atMost);
    FirstAtMost(t, s[0], atMost);
  }

  lemma RestContents<T>(s: seq<T>)
    requires s != []
    ensures multiset(s[1..]) == multiset(s) - multiset{s[0]}
  {
    assert s == [s[0]] + s[1..];
  }

  lemma RestOrdered<T>(s: seq<T>, atMost: (T, T) -> bool)
    requires s != [] && Ordered(s, atMost)
    ensures Ordered(s[1..], atMost)
  {
  }

  lemma RestAntisymmetric<T>(s: seq<T>, atMost: (T, T) -> bool)
    requires s != [] && Antisymmetric(s, atMost)
    ensures Antisymmetric(s[1..], atMost)
  {
    assert forall a :: a in s[1..] ==> a in s;
  }

  lemma SameLength<T>(s: seq<T>, t: seq<T>)
    requires multiset(s) == multiset(t)
    ensures |s| == |t|
  {
    assert |multiset(s)| == |s| && |multiset(t)| == |t|;
  }

  /** There is only one way to order elements no two of which are equivalent. */
  lemma {:induction false} OneOrder<T>(s: seq<T>, t: seq<T>, atMost: (T, T) -> bool)
    requires Ordered(s, atMost) && Ordered(t, atMost) && multiset(s) == multiset(t) && Antisymmetric(s, atMost)
    ensures s == t
    decreases |s|
  {
    SameLength(s, t);
    if s != [] {
      SameFirst(s, t, atMost);
      RestContents(s);
      RestContents(t);
      RestOrdered(s, atMost);
      RestOrdered(t, atMost);
      RestAntisymmetric(s, atMost);
      var front, back, back' := [s[0]], s[1..], t[1..];
      OneOrder(back, back', atMost);
      assert s == front + back && t == front + back';
    }
  }

  lemma CountedTwice<T>(s: seq<T>, i: nat, j: nat)
    requires i < j < |s| && s[i] == s[j]
    ensures multiset(s)[s[i]] >= 2
  {
    assert s == s[..j] + s[j..];
    assert s[i] in s[..j] && s[j..][0] == s[j];
  }

  // The order of texts.

  predicate TextAtMost(a: string, b: string) {
    a == [] || (b != [] && (a[0] < b[0] || (a[0] == b[0] && TextAtMost(a[1..], b[1..]))))
  }

  lemma {:induction false} TextTotal(a: string, b: string)
    ensures TextAtMost(a, b) || TextAtMost(b, a)
    ensures TextAtMost(a, b) && TextAtMost(b, a) ==> a == b
  {
    if a != [] && b != [] {
      TextTotal(a[1..], b[1..]);
      assert a == [a[0]] + a[1..] && b == [b[0]] + b[1..];
    }
  }

  lemma {:induction false} TextTransitive(a: string, b: string, c: string)
    requires TextAtMost(a, b) && TextAtMost(b, c)
    ensures TextAtMost(a, c)
  {
    if a != [] && a[0] == b[0] == c[0] {
      TextTransitive(a[1..], b[1..], c[1..]);
    }
  }
}
