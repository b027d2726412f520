/** Filtering, counting and mapping finite sequences; sizes of sets and shares of a whole. */
module Sequences {

  lemma TakeNext<T>(s: seq<T>, i: nat)
    requires i < |s|
    ensures s[..i + 1] == s[..i] + [s[i]]
  {
  }

  lemma TakeAll<T>(s: seq<T>)
    ensures s[..|s|] == s
  {
  }

  lemma AppendAssociative<T>(a: seq<T>, b: seq<T>, c: seq<T>)
    ensures (a + b) + c == a + (b + c)
  {
  }

  lemma ThreeParts<T>(s: seq<T>, i: nat, j: nat)
    requires i <= j <= |s|
    ensures s[..i] + (s[i..j] + s[j..]) == s
  {
  }

  lemma UpdateInFront<T>(a: seq<T>, b: seq<T>, i: nat, x: T)
    requires i < |a|
    ensures (a + b)[i := x] == a[i := x] + b
  {
  }

  function Filter<T>(s: seq<T>, p: T -> bool): seq<T> {
    if s == [] then []
    else if p(s[0]) then [s[0]] + Filter(s[1..], p)
    else Filter(s[1..], p)
  }

  lemma {:induction false} FilterMembers<T>(s: seq<T>, p: T -> bool)
    ensures forall x :: x in Filter(s, p) ==> x in s && p(x)
    ensures forall x :: x in s && p(x) ==> x in Filter(s, p)
    ensures |Filter(s, p)| <= |s|
  {
    if s != [] {
      FilterMembers(s[1..], p);
    }
  }

  lemma {:induction false} FilterAppend<T>(a: seq<T>, b: seq<T>, p: T -> bool)
    ensures Filter(a + b, p) == Filter(a, p) + Filter(b, p)
  {
    if a == [] {
      assert a + b == b;
    } else {
      FilterAppend(a[1..], b, p);
      assert (a + b)[1..] == a[1..] + b;
    }
  }

  lemma FilterLast<T>(init: seq<T>, last: T, p: T -> bool)
    ensures Filter(init + [last], p) == if p(last) then Filter(init, p) + [last] else Filter(init, p)
  {
    FilterAppend(init, [last], p);
    assert Filter(init, p) + [] == Filter(init, p);
  }

  lemma {:induction false} FilterAgree<T>(s: seq<T>, p: T -> bool, q: T -> bool)
    requires forall x :: x in s ==> p(x) == q(x)
    ensures Filter(s, p) == Filter(s, q)
  {
    if s != [] {
      FilterAgree(s[1..], p, q);
    }
  }

  lemma {:induction false} FilterAll<T>(s: seq<T>, p: T -> bool)
    requires forall x :: x in s ==> p(x)
    ensures Filter(s, p) == s
  {
    if s != [] {
      FilterAll(s[1..], p);
    }
  }

  lemma {:induction false} FilterNone<T>(s: seq<T>, p: T -> bool)
    requires forall x :: x in s ==> !p(x)
    ensures Filter(s, p) == []
  {
    if s != [] {
      FilterNone(s[1..], p);
    }
  }

  function And<T>(p: T -> bool, q: T -> bool): T -> bool {
    x => p(x) && q(x)
  }

  lemma {:induction false} FilterTwice<T>(s: seq<T>, p: T -> bool, q: T -> bool)
    ensures Filter(Filter(s, p), q) == Filter(s, And(p, q))
  {
    if s != [] {
      FilterTwice(s[1..], p, q);
      FilterAppend(if p(s[0]) then [s[0]] else [], Filter(s[1..], p), q);
    }
  }

  function Not<T>(p: T -> bool): T -> bool {
    x => !p(x)
  }

  /** A test splits a sequence into two that together are a permutation of it. */
  lemma {:induction false} FilterPartition<T>(s: seq<T>, p: T -> bool)
    ensures multiset(Filter(s, p)) + multiset(Filter(s, Not(p))) == multiset(s)
    ensures |Filter(s, p)| + |Filter(s, Not(p))| == |s|
  {
    if s != [] {
      FilterPartition(s[1..], p);
      assert s == [s[0]] + s[1..];
    }
  }

  function Map<S, T>(s: seq<S>, f: S -> T): (r: seq<T>)
    ensures |r| == |s|
    ensures forall i :: 0 <= i < |s| ==> r[i] == f(s[i])
  {
    if s == [] then [] else [f(s[0])] + Map(s[1..], f)
  }

  lemma {:induction false} MapAppend<S, T>(a: seq<S>, b: seq<S>, f: S -> T)
    ensures Map(a + b, f) == Map(a, f) + Map(b, f)
  {
  }

  /** Selecting after a map is selecting by the mapped test. */
  lemma {:induction false} FilterOfMap<S, T>(s: seq<S>, f: S -> T, p: T -> bool, q: S -> bool)
    requires forall x :: x in s ==> p(f(x)) == q(x)
    ensures |Filter(Map(s, f), p)| == |Filter(s, q)|
  {
    if s != [] {
      FilterOfMap(s[1..], f, p, q);
    }
  }

  predicate Distinct<T(==)>(s: seq<T>) {
    forall i, j :: 0 <= i < j < |s| ==> s[i] != s[j]
  }

  lemma {:induction false} DistinctCardinality<T>(s: seq<T>)
    requires Distinct(s)
    ensures |set x | x in s| == |s|
  {
    if s != [] {
      var init := s[..|s| - 1];
      DistinctCardinality(init);
      assert (set x | x in s) == (set x | x in init) + {s[|s| - 1]};
    }
  }

  /** Duplicates collapsed in first-seen order. */
  function Dedup<T(==)>(s: seq<T>): seq<T> {
    if s == [] then []
    else
      var init := Dedup(s[..|s| - 1]);
      if s[|s| - 1] in init then init else init + [s[|s| - 1]]
  }

  lemma {:induction false} DedupFacts<T>(s: seq<T>)
    ensures Distinct(Dedup(s))
    ensures forall x :: x in Dedup(s) ==> x in s
    ensures forall x :: x in s ==> x in Dedup(s)
  {
    if s != [] {
      DedupFacts(s[..|s| - 1]);
      assert s == s[..|s| - 1] + [s[|s| - 1]];
    }
  }

  lemma {:induction false} DedupPrefix<T>(a: seq<T>, b: seq<T>)
    ensures Dedup(a) <= Dedup(a + b)
  {
    if b == [] {
      assert a + b == a;
    } else {
      assert (a + b)[..|a + b| - 1] == a + b[..|b| - 1];
      DedupPrefix(a, b[..|b| - 1]);
    }
  }

  lemma {:induction false} DedupDistinct<T>(s: seq<T>)
    requires Distinct(s)
    ensures Dedup(s) == s
  {
    if s != [] {
      DedupDistinct(s[..|s| - 1]);
      assert s == s[..|s| - 1] + [s[|s| - 1]];
    }
  }

  lemma RemoveAt<T>(s: seq<T>, j: nat)
    requires j < |s|
    ensures s == s[..j] + ([s[j]] + s[j + 1..])
    ensures multiset(s[..j] + s[j + 1..]) == multiset(s) - multiset{s[j]}
  {
    assert s == s[..j] + ([s[j]] + s[j + 1..]);
  }

  lemma FilterRemoveAt<T>(s: seq<T>, j: nat, p: T -> bool)
    requires j < |s|
    ensures |Filter(s, p)| == |Filter(s[..j] + s[j + 1..], p)| + if p(s[j]) then 1 else 0
    ensures multiset(s[..j] + s[j + 1..]) == multiset(s) - multiset{s[j]}
  {
    assert s == s[..j] + ([s[j]] + s[j + 1..]);
    FilterAppend(s[..j], s[j + 1..], p);
    FilterAppend(s[..j], [s[j]] + s[j + 1..], p);
    FilterAppend([s[j]], s[j + 1..], p);
  }

  /** Equal multisets hold equally many elements that pass a test. */
  lemma {:induction false} FilterCountOfPermutation<T>(a: seq<T>, b: seq<T>, p: T -> bool)
    requires multiset(a) == multiset(b)
    ensures |Filter(a, p)| == |Filter(b, p)|
  {
    assert |a| == |multiset(a)| && |b| == |multiset(b)|;
    if a != [] {
      assert a[0] in multiset(b);
      var j :| 0 <= j < |b| && b[j] == a[0];
      assert a[..0] + a[1..] == a[1..];
      FilterRemoveAt(a, 0, p);
      FilterRemoveAt(b, j, p);
      FilterCountOfPermutation(a[1..], b[..j] + b[j + 1..], p);
    }
  }

  // ---- sizes ----

  lemma NonemptyCard<T>(s: set<T>)
    ensures |s| == 0 <==> s == {}
  {
  }

  lemma {:induction false} SubsetCard<T>(a: set<T>, b: set<T>)
    requires a <= b
    ensures |a| <= |b|
    ensures |a| == |b| ==> a == b
  {
    if a != {} {
      var x :| x in a;
      SubsetCard(a - {x}, b - {x});
      assert a == (a - {x}) + {x} && b == (b - {x}) + {x};
    } else {
      NonemptyCard(b);
    }
  }

  lemma QuotientFacts(part: real, whole: real)
    requires 0.0 <= part <= whole && whole > 0.0
    ensures 0.0 <= part / whole <= 1.0
    ensures part / whole == 0.0 <==> part == 0.0
    ensures part / whole == 1.0 <==> part == whole
  {
  }
}
