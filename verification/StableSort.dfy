/** Python's `sorted`: the unique stable arrangement of a sequence under a strict weak order. */
module StableSort {
  import opened Sequences

  ghost predicate StrictWeakOrder<T(!new)>(lt: (T, T) -> bool) {
    && (forall x :: !lt(x, x))
    && (forall x, y :: lt(x, y) ==> !lt(y, x))
    && (forall x, y, z :: !lt(y, x) && !lt(z, y) ==> !lt(z, x))
  }

  ghost predicate Sorted<T>(s: seq<T>, lt: (T, T) -> bool) {
    forall i, j :: 0 <= i < j < |s| ==> !lt(s[j], s[i])
  }

  /** Puts `x` in front of every element that is not less. */
  function Insert<T>(x: T, s: seq<T>, lt: (T, T) -> bool): seq<T> {
    if s == [] || !lt(s[0], x) then [x] + s
    else [s[0]] + Insert(x, s[1..], lt)
  }

  function Sort<T>(s: seq<T>, lt: (T, T) -> bool): seq<T> {
    if s == [] then [] else Insert(s[0], Sort(s[1..], lt), lt)
  }

  lemma {:induction false} InsertMembers<T>(x: T, s: seq<T>, lt: (T, T) -> bool)
    ensures multiset(Insert(x, s, lt)) == multiset(s) + multiset{x}
    ensures forall y :: y in Insert(x, s, lt) ==> y == x || y in s
  {
    if s != [] && lt(s[0], x) {
      InsertMembers(x, s[1..], lt);
      assert s == [s[0]] + s[1..];
    }
  }

  lemma {:induction false} InsertSorted<T(!new)>(x: T, s: seq<T>, lt: (T, T) -> bool)
    requires StrictWeakOrder(lt) && Sorted(s, lt)
    ensures Sorted(Insert(x, s, lt), lt)
  {
    if s != [] && lt(s[0], x) {
      InsertSorted(x, s[1..], lt);
      InsertMembers(x, s[1..], lt);
      var r := Insert(x, s[1..], lt);
      forall i | 0 <= i < |r|
        ensures !lt(r[i], s[0])
      {
        assert r[i] in r;
      }
    }
  }

  lemma {:induction false} SortSorted<T(!new)>(s: seq<T>, lt: (T, T) -> bool)
    requires StrictWeakOrder(lt)
    ensures multiset(Sort(s, lt)) == multiset(s)
    ensures Sorted(Sort(s, lt), lt)
  {
    if s != [] {
      SortSorted(s[1..], lt);
      InsertSorted(s[0], Sort(s[1..], lt), lt);
      InsertMembers(s[0], Sort(s[1..], lt), lt);
      assert s == [s[0]] + s[1..];
    }
  }

  /** The two orders agree on the elements that pass the test. */
  ghost predicate AgreeOn<T(!new)>(lt: (T, T) -> bool, lt': (T, T) -> bool, p: T -> bool) {
    forall y, z :: p(y) && p(z) ==> lt(y, z) == lt'(y, z)
  }

  lemma SelectionNotLess<T(!new)>(x: T, s: seq<T>, lt: (T, T) -> bool, p: T -> bool)
    requires StrictWeakOrder(lt) && Sorted(s, lt) && s != [] && !lt(s[0], x)
    ensures forall y :: y in Filter(s, p) ==> p(y) && !lt(y, x)
  {
    FilterMembers(s, p);
    forall y | y in s
      ensures !lt(y, x)
    {
      var k :| 0 <= k < |s| && s[k] == y;
      assert k > 0 ==> !lt(s[k], s[0]);
    }
  }

  /** Inserting and then selecting is selecting and then inserting, by any order that agrees on the selection. */
  lemma {:induction false} InsertFilter<T(!new)>(
    x: T, s: seq<T>, lt: (T, T) -> bool, p: T -> bool, lt': (T, T) -> bool)
    requires StrictWeakOrder(lt) && Sorted(s, lt)
    requires AgreeOn(lt, lt', p)
    ensures Filter(Insert(x, s, lt), p) == if p(x) then Insert(x, Filter(s, p), lt') else Filter(s, p)
  {
    if s == [] || !lt(s[0], x) {
      assert ([x] + s)[1..] == s;
      if s != [] {
        SelectionNotLess(x, s, lt, p);
        var f := Filter(s, p);
        assert f != [] ==> f[0] in f;
      }
    } else {
      InsertFilter(x, s[1..], lt, p, lt');
      var r := Insert(x, s[1..], lt);
      assert ([s[0]] + r)[1..] == r;
      assert p(s[0]) ==> Filter(s, p)[1..] == Filter(s[1..], p);
    }
  }

  lemma {:induction false} SortFilter<T(!new)>(s: seq<T>, lt: (T, T) -> bool, p: T -> bool, lt': (T, T) -> bool)
    requires StrictWeakOrder(lt)
    requires AgreeOn(lt, lt', p)
    ensures Filter(Sort(s, lt), p) == Sort(Filter(s, p), lt')
  {
    if s != [] {
      SortFilter(s[1..], lt, p, lt');
      SortSorted(s[1..], lt);
      InsertFilter(s[0], Sort(s[1..], lt), lt, p, lt');
      assert p(s[0]) ==> Filter(s, p)[1..] == Filter(s[1..], p);
    }
  }

  /** Same position in the order as `a`. */
  function Ties<T>(a: T, lt: (T, T) -> bool): T -> bool {
    x => !lt(x, a) && !lt(a, x)
  }

  /** `r` is a stable arrangement of `s`: in order, and ties keep their original order. */
  ghost predicate IsStableSort<T(!new)>(r: seq<T>, s: seq<T>, lt: (T, T) -> bool) {
    Sorted(r, lt) && forall a :: Filter(r, Ties(a, lt)) == Filter(s, Ties(a, lt))
  }

  lemma SortIsStable<T(!new)>(s: seq<T>, lt: (T, T) -> bool)
    requires StrictWeakOrder(lt)
    ensures IsStableSort(Sort(s, lt), s, lt)
  {
    SortSorted(s, lt);
    var never := (x: T, y: T) => false;
    forall a
      ensures Filter(Sort(s, lt), Ties(a, lt)) == Filter(s, Ties(a, lt))
    {
      SortFilter(s, lt, Ties(a, lt), never);
      SortNever(Filter(s, Ties(a, lt)), never);
    }
  }

  lemma {:induction false} SortNever<T>(s: seq<T>, never: (T, T) -> bool)
    requires forall x, y :: x in s && y in s ==> !never(x, y)
    ensures Sort(s, never) == s
  {
    if s != [] {
      SortNever(s[1..], never);
    }
  }

  lemma HeadOfTies<T(!new)>(r: seq<T>, lt: (T, T) -> bool)
    requires StrictWeakOrder(lt) && r != []
    ensures Filter(r, Ties(r[0], lt)) == [r[0]] + Filter(r[1..], Ties(r[0], lt))
  {
  }

  /** Any two stable arrangements of one sequence are equal, so `Sort` is what every stable sort returns. */
  lemma {:induction false} StableSortUnique<T(!new)>(r: seq<T>, q: seq<T>, lt: (T, T) -> bool)
    requires StrictWeakOrder(lt) && Sorted(r, lt) && Sorted(q, lt)
    requires forall a :: Filter(r, Ties(a, lt)) == Filter(q, Ties(a, lt))
    ensures r == q
  {
    if r == [] && q == [] {
    } else if r == [] {
      HeadOfTies(q, lt);
      assert false;
    } else if q == [] {
      HeadOfTies(r, lt);
      assert false;
    } else {
      var a, b := r[0], q[0];
      HeadOfTies(r, lt);
      HeadOfTies(q, lt);
      FilterMembers(r, Ties(b, lt));
      FilterMembers(q, Ties(a, lt));
      assert b in Filter(q, Ties(b, lt)) && a in Filter(r, Ties(a, lt));
      assert b in r && a in q;
      assert !lt(b, a) && !lt(a, b);
      FilterAgreeTies(r, a, b, lt);
      assert Filter(r, Ties(a, lt)) == Filter(q, Ties(b, lt));
      assert Filter(r, Ties(a, lt))[0] == a && Filter(q, Ties(b, lt))[0] == b;
      forall c
        ensures Filter(r[1..], Ties(c, lt)) == Filter(q[1..], Ties(c, lt))
      {
        var fr, fq := Filter(r, Ties(c, lt)), Filter(q, Ties(c, lt));
        assert fr == fq;
        if Ties(c, lt)(a) {
          assert Filter(r[1..], Ties(c, lt)) == fr[1..] && Filter(q[1..], Ties(c, lt)) == fq[1..];
        } else {
          assert Filter(r[1..], Ties(c, lt)) == fr && Filter(q[1..], Ties(c, lt)) == fq;
        }
      }
      StableSortUnique(r[1..], q[1..], lt);
    }
  }

  lemma FilterAgreeTies<T(!new)>(s: seq<T>, a: T, b: T, lt: (T, T) -> bool)
    requires StrictWeakOrder(lt) && !lt(a, b) && !lt(b, a)
    ensures Filter(s, Ties(a, lt)) == Filter(s, Ties(b, lt))
  {
    FilterAgree(s, Ties(a, lt), Ties(b, lt));
  }

  /** So whatever stable sort is used, its result is `Sort`'s. */
  lemma AnyStableSort<T(!new)>(r: seq<T>, s: seq<T>, lt: (T, T) -> bool)
    requires StrictWeakOrder(lt) && IsStableSort(r, s, lt)
    ensures r == Sort(s, lt)
  {
    SortIsStable(s, lt);
    forall a
      ensures Filter(r, Ties(a, lt)) == Filter(Sort(s, lt), Ties(a, lt))
    {
    }
    StableSortUnique(r, Sort(s, lt), lt);
  }
}
