/** Facts about duplicate-free sequences that the response stores and goal lists rely on. */
module Seqs {

  /** No element occurs twice. */
  predicate Distinct<T(==)>(s: seq<T>) {
    forall i, j :: 0 <= i < j < |s| ==> s[i] != s[j]
  }

  /** The set of elements of a sequence. */
  function Elements<T(==)>(s: seq<T>): set<T> {
    set x | x in s
  }

  /** A sequence has at most as many distinct elements as it has positions. */
  lemma {:induction false} ElementsAtMostLength<T>(s: seq<T>)
    ensures |Elements(s)| <= |s|
  {
    if s != [] {
      ElementsAtMostLength(s[1..]);
      assert Elements(s) == {s[0]} + Elements(s[1..]);
    }
  }

  /** A duplicate-free sequence has exactly as many distinct elements as positions. */
  lemma {:induction false} DistinctElements<T>(s: seq<T>)
    requires Distinct(s)
    ensures |Elements(s)| == |s|
  {
    if s != [] {
      assert Distinct(s[1..]) by {
        forall i, j | 0 <= i < j < |s[1..]| ensures s[1..][i] != s[1..][j] {
          assert s[1..][i] == s[i + 1] && s[1..][j] == s[j + 1];
        }
      }
      DistinctElements(s[1..]);
      assert s[0] !in Elements(s[1..]);
      assert Elements(s) == {s[0]} + Elements(s[1..]);
    }
  }

  /** A duplicate-free sequence drawn from a catalog is no longer than the catalog. */
  lemma DistinctWithin<T>(s: seq<T>, catalog: seq<T>)
    requires Distinct(s)
    requires forall x :: x in s ==> x in catalog
    ensures |s| <= |catalog|
  {
    DistinctElements(s);
    ElementsAtMostLength(catalog);
    SubsetCard(Elements(s), Elements(catalog));
  }

  /** A subset is no larger than its superset. */
  lemma {:induction false} SubsetCard<T>(a: set<T>, b: set<T>)
    requires a <= b
    ensures |a| <= |b|
    decreases |a|
  {
    if a != {} {
      var x :| x in a;
      SubsetCard(a - {x}, b - {x});
    }
  }

  lemma ElementsAppend<T>(s: seq<T>, x: T)
    ensures Elements(s + [x]) == Elements(s) + {x}
  {
    assert forall y :: y in s + [x] <==> y in s || y == x;
  }

  lemma ElementsPrepend<T>(x: T, s: seq<T>)
    ensures Elements([x] + s) == {x} + Elements(s)
  {
    assert forall y :: y in [x] + s <==> y == x || y in s;
  }

  /** Appending an element that is not yet present keeps a sequence duplicate-free. */
  lemma DistinctAppend<T>(s: seq<T>, x: T)
    requires Distinct(s) && x !in s
    ensures Distinct(s + [x])
  {
  }

  /** The order-preserving filter (`Array.prototype.filter`), defined from the last element. */
  function Filter<T>(s: seq<T>, p: T -> bool): seq<T> {
    if s == [] then []
    else Filter(s[..|s| - 1], p) + (if p(s[|s| - 1]) then [s[|s| - 1]] else [])
  }

  /** Filtering one more element at the end. */
  lemma FilterSnoc<T>(s: seq<T>, x: T, p: T -> bool)
    ensures Filter(s + [x], p) == Filter(s, p) + (if p(x) then [x] else [])
  {
    assert (s + [x])[..|s + [x]| - 1] == s;
  }

  /** Filtering distributes over concatenation. */
  lemma {:induction false} FilterAppend<T>(a: seq<T>, b: seq<T>, p: T -> bool)
    ensures Filter(a + b, p) == Filter(a, p) + Filter(b, p)
    decreases |b|
  {
    if b == [] {
      assert a + b == a;
    } else {
      var b' := b[..|b| - 1];
      assert a + b == (a + b') + [b[|b| - 1]];
      assert b == b' + [b[|b| - 1]];
      FilterAppend(a, b', p);
      FilterSnoc(a + b', b[|b| - 1], p);
      FilterSnoc(b', b[|b| - 1], p);
    }
  }

  /** An element survives the filter iff it is in the input and satisfies the test. */
  lemma {:induction false} FilterMembers<T>(s: seq<T>, p: T -> bool)
    ensures forall x :: x in Filter(s, p) <==> x in s && p(x)
    ensures |Filter(s, p)| <= |s|
  {
    if s != [] {
      var s' := s[..|s| - 1];
      assert s == s' + [s[|s| - 1]];
      FilterMembers(s', p);
    }
  }

  /** A filter whose test holds everywhere keeps everything; one that fails everywhere keeps nothing. */
  lemma {:induction false} FilterUniform<T>(s: seq<T>, p: T -> bool)
    ensures (forall i :: 0 <= i < |s| ==> p(s[i])) ==> Filter(s, p) == s
    ensures (forall i :: 0 <= i < |s| ==> !p(s[i])) ==> Filter(s, p) == []
  {
    if s != [] {
      var s' := s[..|s| - 1];
      assert s == s' + [s[|s| - 1]];
      FilterUniform(s', p);
    }
  }

  /** Two tests that split every element one way or the other split the length. */
  lemma {:induction false} FilterSplit<T>(s: seq<T>, p: T -> bool, q: T -> bool)
    requires forall i :: 0 <= i < |s| ==> p(s[i]) != q(s[i])
    ensures |Filter(s, p)| + |Filter(s, q)| == |s|
  {
    if s != [] {
      var s' := s[..|s| - 1];
      assert s == s' + [s[|s| - 1]];
      FilterSplit(s', p, q);
    }
  }

  /** Two tests that agree on every element select the same elements. */
  lemma {:induction false} FilterAgreeing<T>(s: seq<T>, p: T -> bool, q: T -> bool)
    requires forall i :: 0 <= i < |s| ==> p(s[i]) == q(s[i])
    ensures Filter(s, p) == Filter(s, q)
  {
    if s != [] {
      var s' := s[..|s| - 1];
      assert forall i :: 0 <= i < |s'| ==> s'[i] == s[i];
      FilterAgreeing(s', p, q);
    }
  }

  /** Filtering keeps a sequence duplicate-free. */
  lemma {:induction false} FilterKeepsDistinct<T>(s: seq<T>, p: T -> bool)
    requires Distinct(s)
    ensures Distinct(Filter(s, p))
  {
    if s != [] {
      var s', x := s[..|s| - 1], s[|s| - 1];
      assert s == s' + [x];
      assert x !in s' by {
        assert forall i :: 0 <= i < |s'| ==> s'[i] == s[i] != s[|s| - 1];
      }
      FilterKeepsDistinct(s', p);
      FilterMembers(s', p);
    }
  }

  /** A subset as large as its finite superset is the whole superset. */
  lemma SubsetOfSameSize<T>(a: set<T>, b: set<T>)
    requires a <= b && |a| >= |b|
    ensures a == b
  {
    var d := b - a;
    assert a + d == b;
    assert a * d == {};
    assert |d| == 0;
    assert d == {};
  }

  /**
   * A duplicate-free sequence drawn from a duplicate-free catalog reaches the catalog's
   * length exactly when it contains every catalog element.
   */
  lemma {:induction false} FillsCatalog<T>(s: seq<T>, catalog: seq<T>)
    requires Distinct(s) && Distinct(catalog)
    requires forall x :: x in s ==> x in catalog
    ensures |s| >= |catalog| <==> forall x :: x in catalog ==> x in s
  {
    DistinctElements(s);
    DistinctElements(catalog);
    var e, c := Elements(s), Elements(catalog);
    assert e <= c;
    if |s| >= |catalog| {
      SubsetOfSameSize(e, c);
      forall x | x in catalog ensures x in s {
        assert x in c;
      }
    }
    if forall x :: x in catalog ==> x in s {
      assert c <= e;
      SubsetCard(c, e);
    }
  }

  /** A set of keys drawn from a duplicate-free catalog is as large as the catalog exactly when it covers it. */
  lemma KeysFillCatalog<T>(keys: set<T>, catalog: seq<T>)
    requires Distinct(catalog) && keys <= Elements(catalog)
    ensures |keys| <= |catalog|
    ensures |keys| >= |catalog| <==> keys == Elements(catalog)
  {
    DistinctElements(catalog);
    SubsetCard(keys, Elements(catalog));
    if |keys| >= |catalog| {
      SubsetOfSameSize(keys, Elements(catalog));
    }
  }

  /** The test `y => y !== x`. */
  function Differs<T(==)>(x: T): T -> bool {
    (y: T) => y != x
  }

  /** `s.filter(y => y !== x)`: every copy of x removed. */
  function Remove<T(==)>(s: seq<T>, x: T): seq<T> {
    Filter(s, Differs(x))
  }

  /** Removing an element that occurs once, at index k, cuts it out of the sequence. */
  lemma {:induction false} RemoveUnique<T>(s: seq<T>, k: nat)
    requires Distinct(s) && k < |s|
    ensures Remove(s, s[k]) == s[..k] + s[k + 1..]
  {
    var x := s[k];
    var before, after := s[..k], s[k + 1..];
    assert x !in before by {
      forall i | 0 <= i < |before| ensures before[i] != x {
        assert before[i] == s[i] && i < k;
      }
    }
    assert x !in after by {
      forall i | 0 <= i < |after| ensures after[i] != x {
        assert after[i] == s[k + 1 + i] && k < k + 1 + i;
      }
    }
    KeepsAllOthers(before, x);
    KeepsAllOthers(after, x);
    FilterSnoc(before, x, Differs(x));
    assert Remove(before + [x], x) == before;
    assert s == (before + [x]) + after;
    FilterAppend(before + [x], after, Differs(x));
  }

  /** Removing an element that does not occur changes nothing. */
  lemma KeepsAllOthers<T>(s: seq<T>, x: T)
    requires x !in s
    ensures Remove(s, x) == s
  {
    FilterUniform(s, Differs(x));
  }

  /** The two halves of a duplicate-free concatenation are duplicate-free and share no element. */
  lemma DistinctSplit<T>(a: seq<T>, b: seq<T>)
    requires Distinct(a + b)
    ensures Distinct(a) && Distinct(b)
    ensures forall x :: x in a ==> x !in b
  {
    forall i, j | 0 <= i < j < |a| ensures a[i] != a[j] {
      assert (a + b)[i] == a[i] && (a + b)[j] == a[j];
    }
    forall i, j | 0 <= i < j < |b| ensures b[i] != b[j] {
      assert (a + b)[|a| + i] == b[i] && (a + b)[|a| + j] == b[j];
    }
    forall x | x in a ensures x !in b {
      var i :| 0 <= i < |a| && a[i] == x;
      forall j | 0 <= j < |b| ensures b[j] != x {
        assert (a + b)[i] == a[i] && (a + b)[|a| + j] == b[j] && i < |a| + j;
      }
    }
  }

  /**
   * In a duplicate-free concatenation of four parts, an element of the first or third
   * part is in neither the second nor the fourth.
   */
  lemma DistinctAlternateParts<T>(a: seq<T>, b: seq<T>, c: seq<T>, d: seq<T>)
    requires Distinct(a + b + c + d)
    ensures forall x :: x in a + c ==> x !in b + d
  {
    DistinctSplit(a + b + c, d);
    DistinctSplit(a + b, c);
    DistinctSplit(a, b);
  }
}
