/** Sorting sequences by an order given as a function, and why its result is unique. */
module Sorting {
  import opened Common

  ghost predicate TotalPreorder<T(!new)>(leq: (T, T) -> bool) {
    && (forall a, b :: leq(a, b) || leq(b, a))
    && (forall a, b, c :: leq(a, b) && leq(b, c) ==> leq(a, c))
  }

  ghost predicate Sorted<T>(s: seq<T>, leq: (T, T) -> bool) {
    forall i, j | 0 <= i < j < |s| :: leq(s[i], s[j])
  }

  /** Elements that tie are equal. */
  ghost predicate NoTies<T(!new)>(s: seq<T>, leq: (T, T) -> bool) {
    forall a, b | a in s && b in s && leq(a, b) && leq(b, a) :: a == b
  }

  function Insert<T>(x: T, s: seq<T>, leq: (T, T) -> bool): seq<T> {
    if s == [] then [x]
    else if leq(x, s[0]) then [x] + s
    else [s[0]] + Insert(x, s[1..], leq)
  }

  function Sort<T>(s: seq<T>, leq: (T, T) -> bool): seq<T> {
    if s == [] then [] else Insert(s[0], Sort(s[1..], leq), leq)
  }

  lemma {:induction false} InsertPermutes<T>(x: T, s: seq<T>, leq: (T, T) -> bool)
    ensures multiset(Insert(x, s, leq)) == multiset{x} + multiset(s)
    decreases |s|
  {
    if s != [] {
      assert s == [s[0]] + s[1..];
      if !leq(x, s[0]) { InsertPermutes(x, s[1..], leq); }
    }
  }

  ghost predicate Below<T>(h: T, s: seq<T>, leq: (T, T) -> bool) {
    forall j | 0 <= j < |s| :: leq(h, s[j])
  }

  lemma SortedCons<T>(h: T, s: seq<T>, leq: (T, T) -> bool)
    requires Sorted(s, leq) && Below(h, s, leq)
    ensures Sorted([h] + s, leq)
  {
    var r := [h] + s;
    forall i, j | 0 <= i < j < |r| ensures leq(r[i], r[j]) {
      if i > 0 { assert r[i] == s[i - 1] && r[j] == s[j - 1]; }
    }
  }

  lemma BelowCons<T>(h: T, x: T, s: seq<T>, leq: (T, T) -> bool)
    requires leq(h, x) && Below(h, s, leq)
    ensures Below(h, [x] + s, leq)
  {
  }

  lemma SortedTail<T>(s: seq<T>, leq: (T, T) -> bool)
    requires s != [] && Sorted(s, leq)
    ensures Sorted(s[1..], leq) && Below(s[0], s[1..], leq)
  {
  }

  lemma {:induction false} InsertBelow<T>(h: T, x: T, s: seq<T>, leq: (T, T) -> bool)
    requires leq(h, x) && Below(h, s, leq)
    ensures Below(h, Insert(x, s, leq), leq)
    decreases |s|
  {
    if s != [] && !leq(x, s[0]) {
      InsertBelow(h, x, s[1..], leq);
      BelowCons(h, s[0], Insert(x, s[1..], leq), leq);
    }
  }

  lemma {:induction false} InsertSorts<T(!new)>(x: T, s: seq<T>, leq: (T, T) -> bool)
    requires TotalPreorder(leq) && Sorted(s, leq)
    ensures Sorted(Insert(x, s, leq), leq)
    decreases |s|
  {
    hide Sorted;
    if s == [] {
      OneIsSorted(x, leq);
    } else {
      SortedTail(s, leq);
      if leq(x, s[0]) {
        forall j | 0 <= j < |s| ensures leq(x, s[j]) {
          assert j > 0 ==> leq(s[0], s[1..][j - 1]);
        }
        SortedCons(x, s, leq);
      } else {
        InsertSorts(x, s[1..], leq);
        InsertBelow(s[0], x, s[1..], leq);
        SortedCons(s[0], Insert(x, s[1..], leq), leq);
      }
    }
  }

  lemma OneIsSorted<T>(x: T, leq: (T, T) -> bool)
    ensures Sorted([x], leq)
  {
  }

  lemma {:induction false} SortPermutes<T>(s: seq<T>, leq: (T, T) -> bool)
    ensures multiset(Sort(s, leq)) == multiset(s)
    decreases |s|
  {
    if s != [] {
      assert s == [s[0]] + s[1..];
      SortPermutes(s[1..], leq);
      InsertPermutes(s[0], Sort(s[1..], leq), leq);
    }
  }

  lemma {:induction false} SortSorts<T(!new)>(s: seq<T>, leq: (T, T) -> bool)
    requires TotalPreorder(leq)
    ensures Sorted(Sort(s, leq), leq)
    decreases |s|
  {
    if s != [] {
      SortSorts(s[1..], leq);
      InsertSorts(s[0], Sort(s[1..], leq), leq);
    }
  }

  lemma SortKeeps<T(!new)>(s: seq<T>, leq: (T, T) -> bool)
    ensures multiset(Sort(s, leq)) == multiset(s)
    ensures TotalPreorder(leq) ==> Sorted(Sort(s, leq), leq)
  {
    hide Sorted;
    SortPermutes(s, leq);
    if TotalPreorder(leq) { SortSorts(s, leq); }
  }

  lemma {:induction false} DistinctCount<T(!new)>(s: seq<T>, x: T)
    requires Distinct(s)
    ensures multiset(s)[x] == if x in s then 1 else 0
    decreases |s|
  {
    if s != [] {
      var m := |s| - 1;
      DistinctCount(s[..m], x);
      assert s == s[..m] + [s[m]];
    }
  }

  /** Without repeats, the same members are the same elements. */
  lemma DistinctSame<T(!new)>(a: seq<T>, b: seq<T>)
    requires Distinct(a) && Distinct(b) && forall x :: x in a <==> x in b
    ensures multiset(a) == multiset(b)
  {
    forall x ensures multiset(a)[x] == multiset(b)[x] {
      DistinctCount(a, x);
      DistinctCount(b, x);
    }
  }

  lemma SameMembers<T>(a: seq<T>, b: seq<T>, x: T)
    requires multiset(a) == multiset(b)
    ensures x in a <==> x in b
    ensures |a| == |b|
  {
    assert x in a <==> x in multiset(a);
    assert x in b <==> x in multiset(b);
    assert |a| == |multiset(a)| && |b| == |multiset(b)|;
  }

  lemma HeadsMeet<T(!new)>(a: seq<T>, b: seq<T>, leq: (T, T) -> bool)
    requires a != [] && multiset(a) == multiset(b) && Sorted(a, leq) && Sorted(b, leq) && NoTies(a, leq)
    ensures b != [] && a[0] == b[0]
  {
    SameMembers(a, b, a[0]);
    SameMembers(a, b, b[0]);
  }

  lemma TailKeeps<T(!new)>(a: seq<T>, leq: (T, T) -> bool)
    requires a != []
    ensures Sorted(a, leq) ==> Sorted(a[1..], leq)
    ensures NoTies(a, leq) ==> NoTies(a[1..], leq)
    ensures multiset(a[1..]) == multiset(a) - multiset{a[0]}
  {
    assert a == [a[0]] + a[1..];
  }

  /** Two sorted arrangements of the same elements are the same sequence. */
  lemma {:induction false} SortedIsUnique<T(!new)>(a: seq<T>, b: seq<T>, leq: (T, T) -> bool)
    requires multiset(a) == multiset(b) && Sorted(a, leq) && Sorted(b, leq) && NoTies(a, leq)
    ensures a == b
    decreases |a|
  {
    hide Sorted, NoTies;
    if a == [] {
      NothingElse(a, b);
    } else {
      HeadsMeet(a, b, leq);
      TailKeeps(a, leq);
      TailKeeps(b, leq);
      SortedIsUnique(a[1..], b[1..], leq);
      SameHeadTail(a, b);
    }
  }

  lemma NothingElse<T>(a: seq<T>, b: seq<T>)
    requires a == [] && multiset(a) == multiset(b)
    ensures b == []
  {
    assert |multiset(a)| == 0 && |multiset(b)| == |b|;
  }

  lemma SameHeadTail<T>(a: seq<T>, b: seq<T>)
    requires a != [] && b != [] && a[0] == b[0] && a[1..] == b[1..]
    ensures a == b
  {
    assert a == [a[0]] + a[1..] && b == [b[0]] + b[1..];
  }

  /** Sorting forgets the order and nothing else. */
  lemma SortForgetsOrder<T(!new)>(a: seq<T>, b: seq<T>, leq: (T, T) -> bool)
    requires TotalPreorder(leq) && NoTies(a, leq)
    ensures Sort(a, leq) == Sort(b, leq) <==> multiset(a) == multiset(b)
  {
    SortKeeps(a, leq);
    SortKeeps(b, leq);
    if multiset(a) == multiset(b) {
      forall x, y | x in Sort(a, leq) && y in Sort(a, leq) && leq(x, y) && leq(y, x) ensures x == y {
        SameMembers(a, Sort(a, leq), x);
        SameMembers(a, Sort(a, leq), y);
      }
      SortedIsUnique(Sort(a, leq), Sort(b, leq), leq);
    }
  }
}
