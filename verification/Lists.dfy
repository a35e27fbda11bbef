/** Sorting, filtering, first occurrences and concatenation of sequences. */
module Lists {

  // ----- sorting ---------------------------------------------------------------------------

  ghost predicate TotalOrder<T(!new)>(le: (T, T) -> bool) {
    && (forall x, y :: le(x, y) || le(y, x))
    && (forall x, y, z :: le(x, y) && le(y, z) ==> le(x, z))
  }

  ghost predicate SortedBy<T(!new)>(le: (T, T) -> bool, s: seq<T>) {
    forall i, j :: 0 <= i < j < |s| ==> le(s[i], s[j])
  }

  function Insert<T>(le: (T, T) -> bool, x: T, s: seq<T>): seq<T> {
    if s == [] || le(x, s[0]) then [x] + s else [s[0]] + Insert(le, x, s[1..])
  }

  /** A stable sort, as `sort_by` is. */
  function Sort<T>(le: (T, T) -> bool, s: seq<T>): seq<T> {
    if s == [] then [] else Insert(le, s[0], Sort(le, s[1..]))
  }

  lemma {:induction false} InsertPermutes<T>(le: (T, T) -> bool, x: T, s: seq<T>)
    ensures multiset(Insert(le, x, s)) == multiset{x} + multiset(s)
  {
    if s != [] && !le(x, s[0]) {
      InsertPermutes(le, x, s[1..]);
      assert s == [s[0]] + s[1..];
    }
  }

  lemma {:induction false} SortIsPermutation<T>(le: (T, T) -> bool, s: seq<T>)
    ensures multiset(Sort(le, s)) == multiset(s)
  {
    if s != [] {
      SortIsPermutation(le, s[1..]);
      InsertPermutes(le, s[0], Sort(le, s[1..]));
      assert s == [s[0]] + s[1..];
    }
  }

  /** Sorting loses nothing and invents nothing. */
  lemma SortPermutes<T>(le: (T, T) -> bool, s: seq<T>)
    ensures multiset(Sort(le, s)) == multiset(s)
    ensures |Sort(le, s)| == |s|
    ensures forall x :: x in Sort(le, s) <==> x in s
  {
    SortIsPermutation(le, s);
    hide Sort;
    assert |multiset(Sort(le, s))| == |multiset(s)|;
    forall x ensures x in Sort(le, s) <==> x in s {
      assert x in Sort(le, s) <==> x in multiset(Sort(le, s));
      assert x in s <==> x in multiset(s);
    }
  }

  lemma {:induction false} InsertSorts<T(!new)>(le: (T, T) -> bool, x: T, s: seq<T>)
    requires TotalOrder(le) && SortedBy(le, s)
    ensures SortedBy(le, Insert(le, x, s))
  {
    if s != [] && !le(x, s[0]) {
      InsertSorts(le, x, s[1..]);
      InsertPermutes(le, x, s[1..]);
      var rest := Insert(le, x, s[1..]);
      forall j | 0 <= j < |rest| ensures le(s[0], rest[j]) {
        assert rest[j] in multiset(rest);
        if rest[j] != x {
          assert rest[j] in s[1..];
        }
      }
    }
  }

  lemma {:induction false} SortSorts<T(!new)>(le: (T, T) -> bool, s: seq<T>)
    requires TotalOrder(le)
    ensures SortedBy(le, Sort(le, s))
  {
    if s != [] {
      SortSorts(le, s[1..]);
      InsertSorts(le, s[0], Sort(le, s[1..]));
    }
  }

  lemma TailsAgree<T>(a: seq<T>, b: seq<T>)
    requires a != [] && b != [] && a[0] == b[0] && multiset(a) == multiset(b)
    ensures multiset(a[1..]) == multiset(b[1..])
  {
    assert a == [a[0]] + a[1..] && b == [b[0]] + b[1..];
    assert multiset(a[1..]) == multiset(a) - multiset{a[0]};
    assert multiset(b[1..]) == multiset(b) - multiset{b[0]};
  }

  lemma HeadsAgree<T(!new)>(le: (T, T) -> bool, a: seq<T>, b: seq<T>)
    requires TotalOrder(le) && (forall x, y :: le(x, y) && le(y, x) ==> x == y)
    requires SortedBy(le, a) && SortedBy(le, b) && multiset(a) == multiset(b) && a != [] && b != []
    ensures a[0] == b[0]
  {
    assert le(a[0], a[0]) && le(b[0], b[0]);
    hide TotalOrder;
    assert a[0] in multiset(b) && b[0] in multiset(a);
    var i :| 0 <= i < |b| && b[i] == a[0];
    var j :| 0 <= j < |a| && a[j] == b[0];
    assert le(b[0], b[i]) && le(a[0], a[j]);
  }

  /** Under an antisymmetric order a multiset has only one sorted arrangement. */
  lemma {:induction false} SortedIsUnique<T(!new)>(le: (T, T) -> bool, a: seq<T>, b: seq<T>)
    requires TotalOrder(le) && (forall x, y :: le(x, y) && le(y, x) ==> x == y)
    requires SortedBy(le, a) && SortedBy(le, b) && multiset(a) == multiset(b)
    ensures a == b
  {
    hide TotalOrder;
    assert |multiset(a)| == |multiset(b)|;
    if a != [] {
      HeadsAgree(le, a, b);
      TailsAgree(a, b);
      SortedIsUnique(le, a[1..], b[1..]);
      assert a == [a[0]] + a[1..] && b == [b[0]] + b[1..];
    }
  }

  /** A sorted list is its own sort. */
  lemma {:induction false} SortOfSorted<T(!new)>(le: (T, T) -> bool, s: seq<T>)
    requires SortedBy(le, s)
    ensures Sort(le, s) == s
  {
    if s != [] {
      SortOfSorted(le, s[1..]);
      assert s == [s[0]] + s[1..];
      assert s[1..] != [] ==> le(s[0], s[1]);
    }
  }

  ghost predicate DistinctBy<T(!new), K>(key: T -> K, s: seq<T>) {
    forall i, j :: 0 <= i < j < |s| ==> key(s[i]) != key(s[j])
  }

  lemma {:induction false} InsertKeepsDistinct<T(!new), K>(le: (T, T) -> bool, key: T -> K, x: T, s: seq<T>)
    requires DistinctBy(key, s) && forall y :: y in s ==> key(y) != key(x)
    ensures DistinctBy(key, Insert(le, x, s))
  {
    if s != [] && !le(x, s[0]) {
      InsertKeepsDistinct(le, key, x, s[1..]);
      InsertPermutes(le, x, s[1..]);
      var rest := Insert(le, x, s[1..]);
      forall j | 0 <= j < |rest| ensures key(s[0]) != key(rest[j]) {
        assert rest[j] in multiset(rest);
        assert rest[j] == x || rest[j] in s[1..];
      }
    }
  }

  /** Sorting a list of distinct keys leaves the keys distinct. */
  lemma {:induction false} SortKeepsDistinct<T(!new), K>(le: (T, T) -> bool, key: T -> K, s: seq<T>)
    requires DistinctBy(key, s)
    ensures DistinctBy(key, Sort(le, s))
  {
    if s != [] {
      var rest := Sort(le, s[1..]);
      SortKeepsDistinct(le, key, s[1..]);
      SortPermutes(le, s[1..]);
      InsertKeepsDistinct(le, key, s[0], rest);
    }
  }

  // ----- filtering --------------------------------------------------------------------------

  function Filter<T>(keep: T -> bool, s: seq<T>): seq<T> {
    if s == [] then []
    else (if keep(s[0]) then [s[0]] else []) + Filter(keep, s[1..])
  }

  /** Filtering keeps exactly the chosen elements. */
  lemma {:induction false} FilterMembers<T>(keep: T -> bool, s: seq<T>)
    ensures |Filter(keep, s)| <= |s|
    ensures forall x :: x in Filter(keep, s) <==> x in s && keep(x)
  {
    if s != [] {
      FilterMembers(keep, s[1..]);
      assert s == [s[0]] + s[1..];
    }
  }

  lemma {:induction false} FilterAppend<T>(keep: T -> bool, s: seq<T>, x: T)
    ensures Filter(keep, s + [x]) == Filter(keep, s) + if keep(x) then [x] else []
  {
    if s == [] {
      assert s + [x] == [x];
      assert Filter(keep, [x][1..]) == [];
    } else {
      FilterAppend(keep, s[1..], x);
      assert (s + [x])[1..] == s[1..] + [x];
    }
  }

  /** A filter and its complement split the list. */
  lemma {:induction false} FilterSplits<T>(keep: T -> bool, drop: T -> bool, s: seq<T>)
    requires forall x :: x in s ==> keep(x) != drop(x)
    ensures |Filter(keep, s)| + |Filter(drop, s)| == |s|
    ensures multiset(Filter(keep, s)) + multiset(Filter(drop, s)) == multiset(s)
  {
    if s != [] {
      FilterSplits(keep, drop, s[1..]);
      assert s == [s[0]] + s[1..];
    }
  }

  /** `a` is obtained from `b` by deleting elements. */
  predicate Subsequence<T(==)>(a: seq<T>, b: seq<T>) {
    if a == [] then true
    else if b == [] then false
    else if a[0] == b[0] && Subsequence(a[1..], b[1..]) then true
    else Subsequence(a, b[1..])
  }

  /** A weaker filter keeps a supersequence. */
  lemma {:induction false} FilterMonotone<T>(strong: T -> bool, weak: T -> bool, s: seq<T>)
    requires forall x :: x in s && strong(x) ==> weak(x)
    ensures Subsequence(Filter(strong, s), Filter(weak, s))
  {
    if s != [] {
      FilterMonotone(strong, weak, s[1..]);
      var a, b := Filter(strong, s[1..]), Filter(weak, s[1..]);
      assert ([s[0]] + a)[1..] == a && ([s[0]] + b)[1..] == b && [] + a == a && [] + b == b;
      if strong(s[0]) {
      } else if weak(s[0]) {
        SubsequenceSkips(a, s[0], b);
      }
    }
  }

  lemma {:induction false} FilterIsSubsequence<T>(keep: T -> bool, s: seq<T>)
    ensures Subsequence(Filter(keep, s), s)
  {
    if s != [] {
      FilterIsSubsequence(keep, s[1..]);
      var rest := Filter(keep, s[1..]);
      assert ([s[0]] + rest)[1..] == rest && [] + rest == rest;
      if !keep(s[0]) {
        SubsequenceSkips(rest, s[0], s[1..]);
        assert [s[0]] + s[1..] == s;
      }
    }
  }

  lemma SubsequenceSkips<T>(a: seq<T>, x: T, b: seq<T>)
    requires Subsequence(a, b)
    ensures Subsequence(a, [x] + b)
  {
    assert ([x] + b)[1..] == b;
  }

  /** Two elements of a subsequence stand in the same order in the whole. */
  lemma {:induction false} SubsequenceOrder<T>(a: seq<T>, b: seq<T>, i: nat, j: nat) returns (x: nat, y: nat)
    requires Subsequence(a, b) && i < j < |a|
    ensures x < y < |b| && b[x] == a[i] && b[y] == a[j]
    decreases |b|
  {
    if a[0] == b[0] && Subsequence(a[1..], b[1..]) {
      if i == 0 {
        y := SubsequenceMember(a[1..], b[1..], j - 1);
        return 0, y + 1;
      }
      x, y := SubsequenceOrder(a[1..], b[1..], i - 1, j - 1);
    } else {
      x, y := SubsequenceOrder(a, b[1..], i, j);
    }
    x, y := x + 1, y + 1;
  }

  lemma {:induction false} SubsequenceMember<T>(a: seq<T>, b: seq<T>, i: nat) returns (x: nat)
    requires Subsequence(a, b) && i < |a|
    ensures x < |b| && b[x] == a[i]
    decreases |b|
  {
    if a[0] == b[0] && Subsequence(a[1..], b[1..]) {
      if i == 0 {
        return 0;
      }
      x := SubsequenceMember(a[1..], b[1..], i - 1);
    } else {
      x := SubsequenceMember(a, b[1..], i);
    }
    x := x + 1;
  }

  // ----- first occurrences --------------------------------------------------------------------

  /** The first element for each key not yet seen: `filter(|x| seen.insert(key(x)))`. */
  function FirstBy<T, K(==)>(key: T -> K, seen: set<K>, s: seq<T>): seq<T>
    decreases |s|
  {
    if s == [] then []
    else if key(s[0]) in seen then FirstBy(key, seen, s[1..])
    else [s[0]] + FirstBy(key, seen + {key(s[0])}, s[1..])
  }

  /** At most one element per key, each of them from the list. */
  lemma {:induction false} FirstByMembers<T, K>(key: T -> K, seen: set<K>, s: seq<T>)
    ensures var r := FirstBy(key, seen, s);
      && |r| <= |s|
      && (forall i :: 0 <= i < |r| ==> r[i] in s && key(r[i]) !in seen)
      && (forall i, j :: 0 <= i < j < |r| ==> key(r[i]) != key(r[j]))
    decreases |s|
  {
    if s != [] {
      assert s == [s[0]] + s[1..];
      FirstByMembers(key, if key(s[0]) in seen then seen else seen + {key(s[0])}, s[1..]);
    }
  }

  /** Where no key repeats, nothing is left out. */
  lemma {:induction false} FirstByOfDistinct<T(!new), K>(key: T -> K, seen: set<K>, s: seq<T>)
    requires DistinctBy(key, s) && forall i :: 0 <= i < |s| ==> key(s[i]) !in seen
    ensures FirstBy(key, seen, s) == s
    decreases |s|
  {
    if s != [] {
      assert s == [s[0]] + s[1..];
      FirstByOfDistinct(key, seen + {key(s[0])}, s[1..]);
    }
  }

  /** No key is lost. */
  lemma {:induction false} FirstByCovers<T, K>(key: T -> K, seen: set<K>, s: seq<T>, x: T) returns (i: nat)
    requires x in s && key(x) !in seen
    ensures i < |FirstBy(key, seen, s)| && key(FirstBy(key, seen, s)[i]) == key(x)
    decreases |s|
  {
    assert s == [s[0]] + s[1..];
    if key(s[0]) in seen {
      i := FirstByCovers(key, seen, s[1..], x);
    } else if key(s[0]) == key(x) {
      i := 0;
    } else {
      i := FirstByCovers(key, seen + {key(s[0])}, s[1..], x);
      i := i + 1;
    }
  }

  /** Where a key occurs first; the length if it does not occur. */
  function Occurrence<T, K(==)>(key: T -> K, s: seq<T>, k: K): (i: nat)
    ensures i <= |s| && (i < |s| ==> key(s[i]) == k)
    ensures forall j :: 0 <= j < i ==> key(s[j]) != k
  {
    if s == [] || key(s[0]) == k then 0 else 1 + Occurrence(key, s[1..], k)
  }

  /** The result holds the first element of each key, in the order of first occurrences. */
  lemma {:induction false} FirstByOccurrences<T, K>(key: T -> K, seen: set<K>, s: seq<T>)
    ensures var r := FirstBy(key, seen, s);
      && (forall i :: 0 <= i < |r| ==> Occurrence(key, s, key(r[i])) < |s| && s[Occurrence(key, s, key(r[i]))] == r[i])
      && (forall i, j :: 0 <= i < j < |r| ==> Occurrence(key, s, key(r[i])) < Occurrence(key, s, key(r[j])))
    decreases |s|
  {
    if s != [] {
      var rest, first := s[1..], key(s[0]);
      var seen' := if first in seen then seen else seen + {first};
      FirstByOccurrences(key, seen', rest);
      FirstByMembers(key, seen', rest);
      var tail := FirstBy(key, seen', rest);
      forall i | 0 <= i < |tail| ensures Occurrence(key, s, key(tail[i])) == 1 + Occurrence(key, rest, key(tail[i])) {
        assert key(tail[i]) !in seen';
      }
    }
  }

  /** From a sorted list the result is sorted and each element is least for its key. */
  lemma {:induction false} FirstByLeast<T(!new), K>(le: (T, T) -> bool, key: T -> K, seen: set<K>, s: seq<T>)
    requires TotalOrder(le) && SortedBy(le, s)
    ensures SortedBy(le, FirstBy(key, seen, s))
    ensures forall i, x :: 0 <= i < |FirstBy(key, seen, s)| && x in s && key(x) == key(FirstBy(key, seen, s)[i]) ==>
      le(FirstBy(key, seen, s)[i], x)
    decreases |s|
  {
    if s != [] {
      assert s == [s[0]] + s[1..];
      var seen' := if key(s[0]) in seen then seen else seen + {key(s[0])};
      var rest := FirstBy(key, seen', s[1..]);
      FirstByLeast(le, key, seen', s[1..]);
      FirstByMembers(key, seen', s[1..]);
      forall x | x in s[1..] ensures le(s[0], x) {
      }
      assert le(s[0], s[0]);
    }
  }

  // ----- concatenation --------------------------------------------------------------------------

  function Min(a: nat, b: nat): nat { if a <= b then a else b }

  function Concat<T>(parts: seq<seq<T>>): seq<T> {
    if parts == [] then [] else parts[0] + Concat(parts[1..])
  }

  lemma {:induction false} ConcatAppend<T>(a: seq<seq<T>>, b: seq<seq<T>>)
    ensures Concat(a + b) == Concat(a) + Concat(b)
  {
    if a == [] {
      assert a + b == b;
    } else {
      ConcatAppend(a[1..], b);
      assert (a + b)[1..] == a[1..] + b && (a + b)[0] == a[0];
      var x, y, z := a[0], Concat(a[1..]), Concat(b);
      assert x + (y + z) == x + y + z;
    }
  }

  lemma ConcatOne<T>(s: seq<T>)
    ensures Concat([s]) == s
  {
    assert Concat([s][1..]) == [];
  }
}
