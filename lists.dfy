/** The array operations the store and the pages build on: `filter`, `find`, and the stable
    `sort` JavaScript performs with a numeric comparator such as `(a, b) => a.order - b.order`. */
module Lists {

  /** `s.filter(keep)`. */
  function Filter<T(==)>(s: seq<T>, keep: T -> bool): (r: seq<T>)
    ensures |r| <= |s|
  {
    if s == [] then [] else (if keep(s[0]) then [s[0]] else []) + Filter(s[1..], keep)
  }

  /** An element is kept exactly when it is in the input and passes the test. */
  lemma {:induction false} FilterMembers<T>(s: seq<T>, keep: T -> bool)
    ensures forall x :: x in Filter(s, keep) <==> x in s && keep(x)
  {
    if s != [] {
      FilterMembers(s[1..], keep);
      assert s == [s[0]] + s[1..];
    }
  }

  /** A kept element occurs as often as in the input; a dropped one not at all. */
  lemma {:induction false} FilterCounts<T>(s: seq<T>, keep: T -> bool)
    ensures forall x :: multiset(Filter(s, keep))[x] == if keep(x) then multiset(s)[x] else 0
  {
    if s != [] {
      FilterCounts(s[1..], keep);
      var h := if keep(s[0]) then [s[0]] else [];
      assert s == [s[0]] + s[1..];
      assert multiset(Filter(s, keep)) == multiset(h) + multiset(Filter(s[1..], keep));
      assert multiset(s) == multiset([s[0]]) + multiset(s[1..]);
    }
  }

  /** Every kept element stands at some position of the input. */
  lemma {:induction false} FilterSource<T>(s: seq<T>, keep: T -> bool, i: nat) returns (k: nat)
    requires i < |Filter(s, keep)|
    ensures k < |s| && s[k] == Filter(s, keep)[i] && keep(s[k])
  {
    var h := if keep(s[0]) then [s[0]] else [];
    assert Filter(s, keep) == h + Filter(s[1..], keep);
    if i < |h| {
      k := 0;
    } else {
      var k' := FilterSource(s[1..], keep, i - |h|);
      k := k' + 1;
    }
  }

  /** `s.filter((_, i) => i !== index)`: the element at `index` dropped, the others kept in order;
      an index outside the list drops nothing. */
  function RemoveAt<T>(s: seq<T>, index: int): (r: seq<T>)
    ensures 0 <= index < |s| ==> r == s[..index] + s[index + 1..]
    ensures !(0 <= index < |s|) ==> r == s
  {
    if s == [] then []
    else
      var rest := RemoveAt(s[1..], index - 1);
      assert 0 < index < |s| ==> s[1..][..index - 1] == s[1..index] && s[1..][index..] == s[index + 1..];
      (if index == 0 then [] else [s[0]]) + rest
  }

  /** `a` is `b` with some elements left out, the rest in their original order. */
  predicate SubseqOf<T(==)>(a: seq<T>, b: seq<T>)
    decreases |b|
  {
    || a == []
    || (b != [] && ((a[0] == b[0] && SubseqOf(a[1..], b[1..])) || SubseqOf(a, b[1..])))
  }

  lemma {:induction false} SubseqOfSelf<T>(s: seq<T>)
    ensures SubseqOf(s, s)
  {
    if s != [] {
      SubseqOfSelf(s[1..]);
    }
  }

  lemma {:induction false} PrefixIsSubseq<T>(s: seq<T>, n: nat)
    requires n <= |s|
    ensures SubseqOf(s[..n], s)
  {
    if n > 0 {
      PrefixIsSubseq(s[1..], n - 1);
      assert s[..n][0] == s[0] && s[..n][1..] == s[1..][..n - 1];
    }
  }

  lemma {:induction false} SubseqTrans<T>(a: seq<T>, b: seq<T>, c: seq<T>)
    requires SubseqOf(a, b) && SubseqOf(b, c)
    ensures SubseqOf(a, c)
    decreases |c|
  {
    if a != [] {
      if SubseqOf(b, c[1..]) {
        SubseqTrans(a, b, c[1..]);
      } else if a[0] == b[0] && SubseqOf(a[1..], b[1..]) {
        SubseqTrans(a[1..], b[1..], c[1..]);
      } else {
        SubseqTrans(a, b[1..], c[1..]);
      }
    }
  }

  lemma {:induction false} FilterIsSubseq<T>(s: seq<T>, keep: T -> bool)
    ensures SubseqOf(Filter(s, keep), s)
  {
    if s != [] {
      FilterIsSubseq(s[1..], keep);
      var r := Filter(s, keep);
      if keep(s[0]) {
        assert r[0] == s[0] && r[1..] == Filter(s[1..], keep);
      } else {
        assert r == Filter(s[1..], keep);
      }
    }
  }

  lemma {:induction false} FilterAll<T>(s: seq<T>, keep: T -> bool)
    requires forall i :: 0 <= i < |s| ==> keep(s[i])
    ensures Filter(s, keep) == s
  {
    if s != [] {
      FilterAll(s[1..], keep);
    }
  }

  lemma {:induction false} FilterAppend<T>(a: seq<T>, b: seq<T>, keep: T -> bool)
    ensures Filter(a + b, keep) == Filter(a, keep) + Filter(b, keep)
  {
    if a == [] {
      assert a + b == b;
    } else {
      FilterAppend(a[1..], b, keep);
      assert (a + b)[0] == a[0] && (a + b)[1..] == a[1..] + b;
      var h := if keep(a[0]) then [a[0]] else [];
      calc {
        Filter(a + b, keep);
        h + Filter(a[1..] + b, keep);
        h + (Filter(a[1..], keep) + Filter(b, keep));
        (h + Filter(a[1..], keep)) + Filter(b, keep);
        Filter(a, keep) + Filter(b, keep);
      }
    }
  }

  /** Filtering by `p` and then by `q` is filtering once by their conjunction. */
  lemma {:induction false} FilterBoth<T>(s: seq<T>, p: T -> bool, q: T -> bool, pq: T -> bool)
    requires forall x :: pq(x) == (p(x) && q(x))
    ensures Filter(Filter(s, p), q) == Filter(s, pq)
  {
    if s != [] {
      FilterBoth(s[1..], p, q, pq);
      var h := if p(s[0]) then [s[0]] else [];
      FilterAppend(h, Filter(s[1..], p), q);
      assert Filter(h, q) == (if pq(s[0]) then [s[0]] else []) by {
        if p(s[0]) {
          assert h[1..] == [];
        }
      }
    }
  }

  /** `s.findIndex(p)`: the index of the first element satisfying `p`, or -1. */
  function FirstWhere<T>(s: seq<T>, p: T -> bool): (r: int)
    ensures -1 <= r < |s|
    ensures r >= 0 ==> p(s[r]) && forall j :: 0 <= j < r ==> !p(s[j])
    ensures r == -1 ==> forall j :: 0 <= j < |s| ==> !p(s[j])
  {
    if |s| == 0 then -1
    else if p(s[0]) then 0
    else
      var k := FirstWhere(s[1..], p);
      assert forall j :: 1 <= j < |s| ==> s[j] == s[1..][j - 1];
      if k == -1 then -1 else k + 1
  }

  /** The number of elements of `s` that satisfy `p`. */
  function Count<T(==)>(s: seq<T>, p: T -> bool): (n: nat)
    ensures n <= |s|
  {
    |Filter(s, p)|
  }

  /** The elements of `s` whose key is `k`, in order. */
  function WithKey<T(==)>(s: seq<T>, key: T -> int, k: int): seq<T> {
    if s == [] then [] else (if key(s[0]) == k then [s[0]] else []) + WithKey(s[1..], key, k)
  }

  predicate SortedBy<T>(s: seq<T>, key: T -> int) {
    forall i, j :: 0 <= i < j < |s| ==> key(s[i]) <= key(s[j])
  }

  /** `x` placed in front of the first element whose key is at least its own. */
  function Insert<T>(x: T, s: seq<T>, key: T -> int): seq<T> {
    if s == [] || key(x) <= key(s[0]) then [x] + s else [s[0]] + Insert(x, s[1..], key)
  }

  /** `s.sort((a, b) => key(a) - key(b))`: JavaScript's sort is stable, so this is the insertion
      sort that keeps elements with equal keys in their original order. */
  function SortBy<T>(s: seq<T>, key: T -> int): seq<T> {
    if s == [] then [] else Insert(s[0], SortBy(s[1..], key), key)
  }

  lemma {:induction false} InsertPermutes<T>(x: T, s: seq<T>, key: T -> int)
    ensures multiset(Insert(x, s, key)) == multiset([x] + s)
    ensures |Insert(x, s, key)| == |s| + 1
  {
    if !(s == [] || key(x) <= key(s[0])) {
      InsertPermutes(x, s[1..], key);
      assert s == [s[0]] + s[1..];
      assert Insert(x, s, key) == [s[0]] + Insert(x, s[1..], key);
    }
  }

  lemma {:induction false} InsertSorted<T>(x: T, s: seq<T>, key: T -> int)
    requires SortedBy(s, key)
    ensures SortedBy(Insert(x, s, key), key)
  {
    if !(s == [] || key(x) <= key(s[0])) {
      var t := s[1..];
      InsertSorted(x, t, key);
      assert forall j :: 0 <= j < |t| ==> t[j] == s[j + 1];
      InsertAbove(x, t, key, key(s[0]));
      SortedCons(s[0], Insert(x, t, key), key);
    }
  }

  /** A key bound shared by `x` and every element of `s` holds for every element after the insert. */
  lemma {:induction false} InsertAbove<T>(x: T, s: seq<T>, key: T -> int, b: int)
    requires b <= key(x)
    requires forall j :: 0 <= j < |s| ==> b <= key(s[j])
    ensures forall j :: 0 <= j < |Insert(x, s, key)| ==> b <= key(Insert(x, s, key)[j])
  {
    if !(s == [] || key(x) <= key(s[0])) {
      var t := s[1..];
      assert forall j :: 0 <= j < |t| ==> t[j] == s[j + 1];
      InsertAbove(x, t, key, b);
      var r := Insert(x, t, key);
      assert forall j :: 1 <= j < |[s[0]] + r| ==> ([s[0]] + r)[j] == r[j - 1];
    }
  }

  lemma SortedCons<T>(a: T, r: seq<T>, key: T -> int)
    requires SortedBy(r, key)
    requires forall j :: 0 <= j < |r| ==> key(a) <= key(r[j])
    ensures SortedBy([a] + r, key)
  {
    var u := [a] + r;
    forall i, j | 0 <= i < j < |u| ensures key(u[i]) <= key(u[j]) {
      assert u[j] == r[j - 1];
      if i > 0 {
        assert u[i] == r[i - 1];
      }
    }
  }

  lemma {:induction false} InsertStable<T>(x: T, s: seq<T>, key: T -> int, k: int)
    ensures WithKey(Insert(x, s, key), key, k) == WithKey([x] + s, key, k)
  {
    if s == [] || key(x) <= key(s[0]) {
    } else {
      var t := s[1..];
      InsertStable(x, t, key, k);
      var r := Insert(x, t, key);
      assert ([s[0]] + r)[1..] == r;
      assert ([x] + s)[1..] == s;
      assert ([x] + t)[1..] == t;
    }
  }

  /** The sorted sequence is ordered by key. */
  lemma {:induction false} SortByIsSorted<T>(s: seq<T>, key: T -> int)
    ensures SortedBy(SortBy(s, key), key)
    ensures |SortBy(s, key)| == |s|
  {
    if s != [] {
      SortByIsSorted(s[1..], key);
      InsertSorted(s[0], SortBy(s[1..], key), key);
      InsertPermutes(s[0], SortBy(s[1..], key), key);
    }
  }

  /** The sorted sequence holds exactly the elements of the input. */
  lemma {:induction false} SortByPermutes<T>(s: seq<T>, key: T -> int)
    ensures multiset(SortBy(s, key)) == multiset(s)
  {
    if s != [] {
      SortByPermutes(s[1..], key);
      InsertPermutes(s[0], SortBy(s[1..], key), key);
      assert s == [s[0]] + s[1..];
    }
  }

  /** Stability: among elements with equal keys the input order is kept. */
  lemma {:induction false} SortByStable<T>(s: seq<T>, key: T -> int, k: int)
    ensures WithKey(SortBy(s, key), key, k) == WithKey(s, key, k)
  {
    if s != [] {
      SortByStable(s[1..], key, k);
      InsertStable(s[0], SortBy(s[1..], key), key, k);
      var r := SortBy(s[1..], key);
      assert ([s[0]] + s[1..])[1..] == s[1..];
      assert ([s[0]] + r)[1..] == r;
    }
  }
}
