/** Counting the elements of a sequence that pass a test. */
module Counting {

  function Count<T>(s: seq<T>, f: T -> bool): nat {
    if s == [] then 0
    else Count(s[..|s| - 1], f) + if f(s[|s| - 1]) then 1 else 0
  }

  lemma CountSnoc<T>(s: seq<T>, x: T, f: T -> bool)
    ensures Count(s + [x], f) == Count(s, f) + if f(x) then 1 else 0
  {
    assert (s + [x])[..|s|] == s;
  }

  lemma {:induction false} CountConcat<T>(a: seq<T>, b: seq<T>, f: T -> bool)
    ensures Count(a + b, f) == Count(a, f) + Count(b, f)
    decreases |b|
  {
    if b == [] {
      assert a + b == a;
    } else {
      var m := |b| - 1;
      CountConcat(a, b[..m], f);
      assert a + b == (a + b[..m]) + [b[m]] && b == b[..m] + [b[m]];
      CountSnoc(a + b[..m], b[m], f);
      CountSnoc(b[..m], b[m], f);
    }
  }

  lemma CountRemove<T>(s: seq<T>, k: nat, f: T -> bool)
    requires k < |s|
    ensures Count(s, f) == Count(s[..k] + s[k + 1..], f) + if f(s[k]) then 1 else 0
    ensures multiset(s[..k] + s[k + 1..]) == multiset(s) - multiset{s[k]}
  {
    hide Count;
    assert s == (s[..k] + [s[k]]) + s[k + 1..];
    CountConcat(s[..k] + [s[k]], s[k + 1..], f);
    CountSnoc(s[..k], s[k], f);
    CountConcat(s[..k], s[k + 1..], f);
  }

  /** A count does not depend on the order. */
  lemma {:induction false} CountForgetsOrder<T>(a: seq<T>, b: seq<T>, f: T -> bool)
    requires multiset(a) == multiset(b)
    ensures Count(a, f) == Count(b, f)
    decreases |a|
  {
    if a == [] {
      assert |multiset(a)| == 0 && |multiset(b)| == |b|;
    } else {
      var m := |a| - 1;
      assert a == a[..m] + [a[m]];
      assert a[m] in multiset(b);
      var k :| 0 <= k < |b| && b[k] == a[m];
      CountRemove(b, k, f);
      CountForgetsOrder(a[..m], b[..k] + b[k + 1..], f);
    }
  }

  lemma {:induction false} CountSame<T>(s: seq<T>, f: T -> bool, g: T -> bool)
    requires forall x <- s :: f(x) == g(x)
    ensures Count(s, f) == Count(s, g)
    decreases |s|
  {
    if s != [] {
      CountSame(s[..|s| - 1], f, g);
    }
  }

  /** A test that splits into two that exclude each other. */
  lemma {:induction false} CountSplit<T>(s: seq<T>, f: T -> bool, g: T -> bool, h: T -> bool)
    requires forall x <- s :: (f(x) <==> g(x) || h(x)) && !(g(x) && h(x))
    ensures Count(s, f) == Count(s, g) + Count(s, h)
    decreases |s|
  {
    if s != [] {
      CountSplit(s[..|s| - 1], f, g, h);
    }
  }

  lemma {:induction false} CountZero<T>(s: seq<T>, f: T -> bool)
    ensures Count(s, f) == 0 <==> forall x <- s :: !f(x)
    decreases |s|
  {
    if s != [] {
      var m := |s| - 1;
      CountZero(s[..m], f);
      assert s == s[..m] + [s[m]];
    }
  }

  lemma CountPositive<T>(s: seq<T>, f: T -> bool, i: nat)
    requires i < |s| && f(s[i])
    ensures Count(s, f) >= 1
  {
    CountZero(s, f);
    assert s[i] in s;
  }

  /** A count of at most one means no two positions pass. */
  lemma CountTwo<T>(s: seq<T>, f: T -> bool, i: nat, j: nat)
    requires i < j < |s| && f(s[i]) && f(s[j])
    ensures Count(s, f) >= 2
  {
    assert s == s[..j] + s[j..];
    CountConcat(s[..j], s[j..], f);
    assert s[..j][i] == s[i] && s[j..][0] == s[j];
    CountPositive(s[..j], f, i);
    CountPositive(s[j..], f, 0);
  }

  /** The one position behind a count of one. */
  lemma {:induction false} CountOne<T>(s: seq<T>, f: T -> bool) returns (k: nat)
    requires Count(s, f) == 1
    ensures k < |s| && forall i | 0 <= i < |s| :: f(s[i]) <==> i == k
    decreases |s|
  {
    var m := |s| - 1;
    if f(s[m]) {
      k := m;
      CountZero(s[..m], f);
      forall i | 0 <= i < m ensures !f(s[i]) { assert s[..m][i] in s[..m]; }
    } else {
      k := CountOne(s[..m], f);
      forall i | 0 <= i < m ensures f(s[i]) <==> i == k { assert s[..m][i] == s[i]; }
    }
  }

  lemma CountOneIs<T>(s: seq<T>, f: T -> bool, k: nat)
    requires k < |s| && forall i | 0 <= i < |s| :: f(s[i]) <==> i == k
    ensures Count(s, f) == 1
  {
    CountRemove(s, k, f);
    var others := s[..k] + s[k + 1..];
    CountZero(others, f);
    forall i | 0 <= i < |others| ensures !f(others[i]) {
      assert others[i] == s[if i < k then i else i + 1];
    }
  }

  lemma {:induction false} CountAtMostOne<T>(s: seq<T>, f: T -> bool)
    requires forall i, j | 0 <= i < j < |s| :: !(f(s[i]) && f(s[j]))
    ensures Count(s, f) <= 1
    decreases |s|
  {
    if s != [] {
      var m := |s| - 1;
      CountAtMostOne(s[..m], f);
      if f(s[m]) {
        CountZero(s[..m], f);
      }
    }
  }

  // ----- Counting pairs two ways -----

  function Row<A, B>(r: (A, B) -> bool, a: A): B -> bool {
    b => r(a, b)
  }

  function Flip<A, B>(r: (A, B) -> bool): (B, A) -> bool {
    (b, a) => r(a, b)
  }

  /** The related pairs, counted row by row. */
  function Pairs<A, B>(xs: seq<A>, ys: seq<B>, r: (A, B) -> bool): nat {
    if xs == [] then 0
    else Pairs(xs[..|xs| - 1], ys, r) + Count(ys, Row(r, xs[|xs| - 1]))
  }

  lemma {:induction false} PairsNone<A, B>(xs: seq<A>, ys: seq<B>, r: (A, B) -> bool)
    requires ys == []
    ensures Pairs(xs, ys, r) == 0
    decreases |xs|
  {
    if xs != [] { PairsNone(xs[..|xs| - 1], ys, r); }
  }

  /** One more column adds its own count. */
  lemma {:induction false} PairsColumn<A, B>(xs: seq<A>, ys: seq<B>, y: B, r: (A, B) -> bool)
    ensures Pairs(xs, ys + [y], r) == Pairs(xs, ys, r) + Count(xs, Row(Flip(r), y))
    decreases |xs|
  {
    if xs != [] {
      var m := |xs| - 1;
      PairsColumn(xs[..m], ys, y, r);
      CountSnoc(ys, y, Row(r, xs[m]));
    }
  }

  /** Row by row or column by column, the number of related pairs is the same. */
  lemma {:induction false} PairsBothWays<A, B>(xs: seq<A>, ys: seq<B>, r: (A, B) -> bool)
    ensures Pairs(xs, ys, r) == Pairs(ys, xs, Flip(r))
    decreases |ys|
  {
    if ys == [] {
      PairsNone(xs, ys, r);
    } else {
      var m := |ys| - 1;
      PairsBothWays(xs, ys[..m], r);
      PairsColumn(xs, ys[..m], ys[m], r);
      assert ys == ys[..m] + [ys[m]];
    }
  }

  lemma {:induction false} PairsCount<A, B>(xs: seq<A>, ys: seq<B>, r: (A, B) -> bool, f: A -> bool)
    requires forall x <- xs :: Count(ys, Row(r, x)) == if f(x) then 1 else 0
    ensures Pairs(xs, ys, r) == Count(xs, f)
    decreases |xs|
  {
    if xs != [] {
      var m := |xs| - 1;
      assert xs[m] in xs;
      PairsCount(xs[..m], ys, r, f);
    }
  }

  /** A number above all of a set. */
  ghost function Above(numbers: set<nat>): (n: nat)
    ensures forall x <- numbers :: x < n
  {
    if numbers == {} then 0
    else
      var x :| x in numbers;
      var n := Above(numbers - {x});
      assert forall y <- numbers :: y == x || y in numbers - {x};
      if x < n then n else x + 1
  }

  // ----- Counters -----

  /** Reading a counter: an absent name counts zero. */
  function CountOf(counts: map<string, nat>, name: string): nat {
    if name in counts then counts[name] else 0
  }

  ghost function Total(counts: map<string, nat>): nat
    decreases |counts|
  {
    if counts == map[] then 0
    else
      var name :| name in counts;
      assert |counts - {name}| < |counts| by { Smaller(counts, name); }
      counts[name] + Total(counts - {name})
  }

  lemma Smaller(counts: map<string, nat>, name: string)
    requires name in counts
    ensures |counts - {name}| < |counts|
  {
    assert counts.Keys == (counts - {name}).Keys + {name};
  }

  /** Any name may be taken out first. */
  lemma {:induction false} TotalPick(counts: map<string, nat>, name: string)
    requires name in counts
    ensures Total(counts) == counts[name] + Total(counts - {name})
    decreases |counts|
  {
    var first :| first in counts && Total(counts) == counts[first] + Total(counts - {first});
    if first != name {
      Smaller(counts, first);
      Smaller(counts, name);
      TotalPick(counts - {first}, name);
      TotalPick(counts - {name}, first);
      assert counts - {first} - {name} == counts - {name} - {first};
    }
  }

  lemma TotalPut(counts: map<string, nat>, name: string, n: nat)
    ensures Total(counts[name := n]) == Total(counts) - CountOf(counts, name) + n
  {
    TotalPick(counts[name := n], name);
    if name in counts {
      TotalPick(counts, name);
      assert counts[name := n] - {name} == counts - {name};
    } else {
      assert counts[name := n] - {name} == counts;
    }
  }
}
