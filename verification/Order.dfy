/** The byte-wise order Go and SQLite compare strings by. */
module Order {
  import Sorting

  predicate Less(a: string, b: string) {
    b != [] && (a == [] || a[0] < b[0] || (a[0] == b[0] && Less(a[1..], b[1..])))
  }

  lemma {:induction false} LessIrreflexive(a: string)
    ensures !Less(a, a)
  {
    if a != [] { LessIrreflexive(a[1..]); }
  }

  lemma {:induction false} LessTransitive(a: string, b: string, c: string)
    requires Less(a, b) && Less(b, c)
    ensures Less(a, c)
  {
    if a != [] && a[0] == b[0] && b[0] == c[0] { LessTransitive(a[1..], b[1..], c[1..]); }
  }

  lemma {:induction false} LessTotal(a: string, b: string)
    ensures a == b || Less(a, b) || Less(b, a)
  {
    if a != [] && b != [] && a[0] == b[0] {
      LessTotal(a[1..], b[1..]);
      assert a == [a[0]] + a[1..] && b == [b[0]] + b[1..];
    }
  }

  /** The strings are the same up to `k`, where the first ends or has the smaller character. */
  ghost predicate FirstDiffer(a: string, b: string, k: nat) {
    k <= |a| && k < |b| && a[..k] == b[..k] && (k == |a| || a[k] < b[k])
  }

  lemma DifferLater(a: string, b: string, k: nat)
    requires a != [] && b != [] && a[0] == b[0]
    ensures FirstDiffer(a, b, k + 1) <==> FirstDiffer(a[1..], b[1..], k)
  {
    if k < |a| && k < |b| - 1 {
      assert a[..k + 1] == [a[0]] + a[1..][..k] && b[..k + 1] == [b[0]] + b[1..][..k];
      assert a[1..][..k] == a[..k + 1][1..] && b[1..][..k] == b[..k + 1][1..];
    }
  }

  lemma SameFirst(a: string, b: string, k: nat)
    requires FirstDiffer(a, b, k)
    ensures k > 0 ==> a[0] == b[0]
  {
    if k > 0 { assert a[..k][0] == b[..k][0]; }
  }

  lemma {:induction false} LessExactly(a: string, b: string)
    ensures Less(a, b) <==> exists k :: FirstDiffer(a, b, k)
  {
    if a == [] || b == [] || a[0] != b[0] {
      assert Less(a, b) ==> FirstDiffer(a, b, 0);
      if k: nat :| FirstDiffer(a, b, k) { SameFirst(a, b, k); }
    } else {
      LessExactly(a[1..], b[1..]);
      if k: nat :| FirstDiffer(a[1..], b[1..], k) { DifferLater(a, b, k); }
      if k: nat :| FirstDiffer(a, b, k) {
        assert k > 0;
        DifferLater(a, b, k - 1);
      }
    }
  }

  predicate Leq(a: string, b: string) {
    !Less(b, a)
  }

  /** Strings are totally ordered, so sorting them has one result. */
  lemma LeqSorts()
    ensures Sorting.TotalPreorder(Leq)
    ensures forall s :: Sorting.NoTies(s, Leq)
  {
    forall a, b ensures Leq(a, b) || Leq(b, a) {
      if Less(a, b) && Less(b, a) {
        LessTransitive(a, b, a);
        LessIrreflexive(a);
      }
    }
    forall a, b, c | Leq(a, b) && Leq(b, c) ensures Leq(a, c) {
      LessTotal(a, b);
      LessTotal(b, c);
      if Less(c, a) {
        if a != b { LessTransitive(c, a, b); }
      }
    }
    forall a: string, b: string | Leq(a, b) && Leq(b, a) ensures a == b {
      LessTotal(a, b);
    }
  }
}
