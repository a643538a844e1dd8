/** The pieces of JavaScript's Array built-ins that the site's content queries
    use: `undefined` as a missing result, `find`, `filter` and a numeric-key
    `sort`.  Each is a pure function on sequences; the lemmas state what the
    site relies on (first match, membership, order kept, permutation, sorted). */
module JsArray {

  /** `T | undefined`. */
  datatype Option<T> = None | Some(value: T) {
    /** `x ?? d` */
    function GetOr(default: T): T {
      if Some? then value else default
    }
  }

  /** No element occurs twice. */
  ghost predicate Distinct<T>(xs: seq<T>) {
    forall i, j :: 0 <= i < j < |xs| ==> xs[i] != xs[j]
  }

  /** The index `Array.prototype.find` stops at: the first element satisfying `p`. */
  function FindIndex<T>(xs: seq<T>, p: T -> bool): (r: Option<nat>)
    ensures r.Some? ==> r.value < |xs| && p(xs[r.value])
    ensures r.Some? ==> forall j :: 0 <= j < r.value ==> !p(xs[j])
    ensures r.None? <==> forall i :: 0 <= i < |xs| ==> !p(xs[i])
  {
    if |xs| == 0 then None
    else if p(xs[0]) then Some(0)
    else match FindIndex(xs[1..], p)
      case None => None
      case Some(k) => Some(k + 1)
  }

  /** `xs.find(p)`: the first element satisfying `p`, or `undefined`. */
  function Find<T>(xs: seq<T>, p: T -> bool): (r: Option<T>)
    ensures r.None? <==> forall i :: 0 <= i < |xs| ==> !p(xs[i])
    ensures r.Some? ==> r.value in xs && p(r.value)
    ensures r.Some? ==>
      exists i :: 0 <= i < |xs| && r.value == xs[i] && p(xs[i]) && forall j :: 0 <= j < i ==> !p(xs[j])
  {
    match FindIndex(xs, p)
    case None => None
    case Some(i) => Some(xs[i])
  }

  /** When at most one element satisfies `p`, `find` returns exactly that one. */
  lemma FindUnique<T>(xs: seq<T>, p: T -> bool, i: nat)
    requires i < |xs| && p(xs[i])
    requires forall j :: 0 <= j < |xs| && j != i ==> !p(xs[j])
    ensures Find(xs, p) == Some(xs[i])
  {
    var k := FindIndex(xs, p);
    assert k.Some?;
    assert k.value <= i;
  }

  /** `xs.filter(p)`: a fresh sequence of the elements satisfying `p`. */
  function Filter<T>(xs: seq<T>, p: T -> bool): (r: seq<T>)
    ensures |r| <= |xs|
    ensures forall k :: 0 <= k < |r| ==> p(r[k])
  {
    if |xs| == 0 then []
    else (if p(xs[0]) then [xs[0]] else []) + Filter(xs[1..], p)
  }

  /** `filter` keeps exactly the elements that pass: everything it returns
      comes from `xs`, and every element of `xs` that passes is returned. */
  lemma {:induction false} FilterMembers<T>(xs: seq<T>, p: T -> bool)
    ensures forall k :: 0 <= k < |Filter(xs, p)| ==> Filter(xs, p)[k] in xs
    ensures forall i :: 0 <= i < |xs| && p(xs[i]) ==> xs[i] in Filter(xs, p)
  {
    if |xs| > 0 {
      FilterMembers(xs[1..], p);
      var r, t := Filter(xs, p), Filter(xs[1..], p);
      var h := if p(xs[0]) then [xs[0]] else [];
      assert r == h + t;
      forall k | 0 <= k < |r|
        ensures r[k] in xs
      {
        if k < |h| {
          assert r[k] == xs[0];
        } else {
          assert r[k] == t[k - |h|] && t[k - |h|] in xs[1..];
        }
      }
      forall i | 0 <= i < |xs| && p(xs[i])
        ensures xs[i] in r
      {
        if i == 0 {
          assert r[0] == xs[0];
        } else {
          assert xs[i] == xs[1..][i - 1] && xs[i] in t;
        }
      }
    }
  }

  /** `r` is `xs` with some elements dropped and the rest in their original order. */
  ghost predicate IsSubsequence<T>(r: seq<T>, xs: seq<T>)
    decreases |xs|
  {
    if r == [] then true
    else if xs == [] then false
    else (r[0] == xs[0] && IsSubsequence(r[1..], xs[1..])) || IsSubsequence(r, xs[1..])
  }

  /** `filter` keeps the surviving elements in their original order. */
  lemma {:induction false} FilterKeepsOrder<T>(xs: seq<T>, p: T -> bool)
    ensures IsSubsequence(Filter(xs, p), xs)
  {
    if |xs| > 0 {
      FilterKeepsOrder(xs[1..], p);
      var r := Filter(xs, p);
      if p(xs[0]) {
        assert r[0] == xs[0] && r[1..] == Filter(xs[1..], p);
      } else {
        assert r == Filter(xs[1..], p);
      }
    }
  }

  /** `filter` distributes over concatenation, which pins down its order. */
  lemma {:induction false} FilterConcat<T>(a: seq<T>, b: seq<T>, p: T -> bool)
    ensures Filter(a + b, p) == Filter(a, p) + Filter(b, p)
  {
    if a == [] {
      assert a + b == b;
    } else {
      assert (a + b)[0] == a[0];
      assert (a + b)[1..] == a[1..] + b;
      FilterConcat(a[1..], b, p);
    }
  }

  /** `filter` on one element keeps it iff it passes. */
  lemma FilterSingleton<T>(x: T, p: T -> bool)
    ensures Filter([x], p) == if p(x) then [x] else []
  {
    assert [x][1..] == [];
  }

  /** `filter` of four elements, element by element. */
  lemma FilterFour<T>(xs: seq<T>, p: T -> bool)
    requires |xs| == 4
    ensures Filter(xs, p) == Filter([xs[0]], p) + (Filter([xs[1]], p) + (Filter([xs[2]], p) + Filter([xs[3]], p)))
  {
    var t, u := xs[2..], xs[1..];
    assert Filter(t, p) == Filter([xs[2]], p) + Filter([xs[3]], p) by {
      assert t == [xs[2]] + [xs[3]];
      FilterConcat([xs[2]], [xs[3]], p);
    }
    assert Filter(u, p) == Filter([xs[1]], p) + Filter(t, p) by {
      assert u == [xs[1]] + t;
      FilterConcat([xs[1]], t, p);
    }
    assert Filter(xs, p) == Filter([xs[0]], p) + Filter(u, p) by {
      assert xs == [xs[0]] + u;
      FilterConcat([xs[0]], u, p);
    }
  }

  /** `filter` of a sequence without repeats has no repeats. */
  lemma {:induction false} FilterDistinct<T>(xs: seq<T>, p: T -> bool)
    requires Distinct(xs)
    ensures Distinct(Filter(xs, p))
  {
    if |xs| > 0 {
      assert Distinct(xs[1..]) by {
        forall i, j | 0 <= i < j < |xs[1..]| ensures xs[1..][i] != xs[1..][j] {
          assert xs[1..][i] == xs[i + 1] && xs[1..][j] == xs[j + 1];
        }
      }
      FilterDistinct(xs[1..], p);
      FilterMembers(xs[1..], p);
      assert xs[0] !in xs[1..] by {
        forall k | 0 <= k < |xs[1..]| ensures xs[1..][k] != xs[0] {
          assert xs[1..][k] == xs[k + 1];
        }
      }
    }
  }

  /** Two predicates that agree on every element select the same elements. */
  lemma {:induction false} FilterCongruent<T>(xs: seq<T>, p: T -> bool, q: T -> bool)
    requires forall i :: 0 <= i < |xs| ==> p(xs[i]) == q(xs[i])
    ensures Filter(xs, p) == Filter(xs, q)
  {
    if |xs| > 0 {
      assert p(xs[0]) == q(xs[0]);
      forall i | 0 <= i < |xs[1..]| ensures p(xs[1..][i]) == q(xs[1..][i]) {
        assert xs[1..][i] == xs[i + 1];
      }
      FilterCongruent(xs[1..], p, q);
    }
  }

  /** In a sequence without repeats each element occurs at most once. */
  lemma {:induction false} DistinctAtMostOnce<T>(xs: seq<T>, x: T)
    requires Distinct(xs)
    ensures multiset(xs)[x] <= 1
  {
    if xs != [] {
      var tail := xs[1..];
      assert xs == [xs[0]] + tail;
      assert Distinct(tail) by {
        forall i, j | 0 <= i < j < |tail| ensures tail[i] != tail[j] {
          assert tail[i] == xs[i + 1] && tail[j] == xs[j + 1];
        }
      }
      DistinctAtMostOnce(tail, x);
      if x == xs[0] {
        forall k | 0 <= k < |tail| ensures tail[k] != x {
          assert tail[k] == xs[k + 1];
        }
        assert x !in tail;
      }
    }
  }

  /** Two equal elements at different positions occur at least twice. */
  lemma RepeatCountsTwice<T>(xs: seq<T>, i: nat, j: nat)
    requires i < j < |xs|
    ensures xs[i] == xs[j] ==> multiset(xs)[xs[i]] >= 2
  {
    assert xs == xs[..i] + [xs[i]] + xs[i + 1..j] + [xs[j]] + xs[j + 1..];
  }

  /** Rearranging a sequence without repeats gives one without repeats. */
  lemma DistinctPermutation<T>(a: seq<T>, b: seq<T>)
    requires Distinct(a) && multiset(a) == multiset(b)
    ensures Distinct(b)
  {
    forall i, j | 0 <= i < j < |b| ensures b[i] != b[j] {
      RepeatCountsTwice(b, i, j);
      DistinctAtMostOnce(a, b[i]);
    }
  }

  /** The positions of `xs` whose element satisfies `p`. */
  ghost function MatchingIndices<T>(xs: seq<T>, p: T -> bool): set<int> {
    set i | 0 <= i < |xs| && p(xs[i])
  }

  /** Adding one element at the end adds at most its own position. */
  lemma {:induction false} MatchingIndicesSnoc<T>(xs: seq<T>, p: T -> bool)
    requires xs != []
    ensures MatchingIndices(xs, p)
         == MatchingIndices(xs[..|xs| - 1], p) + (if p(xs[|xs| - 1]) then {|xs| - 1} else {})
  {
    var n := |xs| - 1;
    var init := xs[..n];
    forall i | 0 <= i < n ensures init[i] == xs[i] { }
  }

  /** `xs.filter(p).length` is the number of positions whose element satisfies `p`. */
  lemma {:induction false} FilterLength<T>(xs: seq<T>, p: T -> bool)
    ensures |Filter(xs, p)| == |MatchingIndices(xs, p)|
  {
    if xs == [] {
      assert MatchingIndices(xs, p) == {};
    } else {
      var n := |xs| - 1;
      var init := xs[..n];
      assert xs == init + [xs[n]];
      FilterConcat(init, [xs[n]], p);
      FilterLength(init, p);
      assert Filter([xs[n]], p) == if p(xs[n]) then [xs[n]] else [] by {
        assert [xs[n]][1..] == [];
      }
      MatchingIndicesSnoc(xs, p);
      assert n !in MatchingIndices(init, p);
    }
  }

  /** Ascending by `key`. */
  ghost predicate SortedBy<T>(xs: seq<T>, key: T -> int) {
    forall i, j :: 0 <= i < j < |xs| ==> key(xs[i]) <= key(xs[j])
  }

  /** No two elements share a key. */
  ghost predicate DistinctKeys<T>(xs: seq<T>, key: T -> int) {
    forall i, j :: 0 <= i < j < |xs| ==> key(xs[i]) != key(xs[j])
  }

  /** Places `x` before the first element whose key is not smaller, so equal
      keys keep their original order. */
  function Insert<T>(x: T, xs: seq<T>, key: T -> int): (r: seq<T>)
    ensures multiset(r) == multiset(xs) + multiset{x}
  {
    if xs == [] || key(x) <= key(xs[0]) then [x] + xs
    else
      assert xs == [xs[0]] + xs[1..];
      [xs[0]] + Insert(x, xs[1..], key)
  }

  /** Inserting into a sorted sequence keeps it sorted. */
  lemma {:induction false} InsertSorted<T>(x: T, xs: seq<T>, key: T -> int)
    requires SortedBy(xs, key)
    ensures SortedBy(Insert(x, xs, key), key)
  {
    if xs != [] && key(x) > key(xs[0]) {
      var tail := xs[1..];
      assert SortedBy(tail, key) by {
        forall i, j | 0 <= i < j < |tail| ensures key(tail[i]) <= key(tail[j]) {
          assert tail[i] == xs[i + 1] && tail[j] == xs[j + 1];
        }
      }
      InsertSorted(x, tail, key);
      var rest := Insert(x, tail, key);
      forall k | 0 <= k < |rest| ensures key(xs[0]) <= key(rest[k]) {
        assert rest[k] in multiset(rest);
        if rest[k] != x {
          assert rest[k] in multiset(tail);
          var m :| 0 <= m < |tail| && tail[m] == rest[k];
          assert tail[m] == xs[m + 1];
        }
      }
      var r := Insert(x, xs, key);
      assert r == [xs[0]] + rest;
      forall i, j | 0 <= i < j < |r| ensures key(r[i]) <= key(r[j]) {
        if i > 0 {
          assert r[i] == rest[i - 1] && r[j] == rest[j - 1];
        } else {
          assert r[j] == rest[j - 1];
        }
      }
    }
  }

  /** `xs.sort((a, b) => key(a) - key(b))` on a fresh copy: a permutation ascending by `key`.
      Insertion keeps equal keys in input order, but no contract states stability. */
  function SortBy<T>(xs: seq<T>, key: T -> int): (r: seq<T>)
    ensures multiset(r) == multiset(xs)
    ensures SortedBy(r, key)
  {
    if xs == [] then []
    else
      assert xs == [xs[0]] + xs[1..];
      InsertSorted(xs[0], SortBy(xs[1..], key), key);
      Insert(xs[0], SortBy(xs[1..], key), key)
  }

  /** Sorting keeps exactly the elements it was given. */
  lemma SortByMembers<T>(xs: seq<T>, key: T -> int)
    ensures forall k :: 0 <= k < |SortBy(xs, key)| ==> SortBy(xs, key)[k] in xs
    ensures forall i :: 0 <= i < |xs| ==> xs[i] in SortBy(xs, key)
  {
    var r := SortBy(xs, key);
    forall k | 0 <= k < |r| ensures r[k] in xs {
      assert r[k] in multiset(r);
    }
    forall i | 0 <= i < |xs| ensures xs[i] in r {
      assert xs[i] in multiset(xs);
    }
  }

  /** A sort over distinct keys yields the one sorted arrangement of its input. */
  lemma SortByDistinctKeys<T>(xs: seq<T>, expected: seq<T>, key: T -> int)
    requires multiset(expected) == multiset(xs)
    requires SortedBy(expected, key) && DistinctKeys(expected, key)
    ensures SortBy(xs, key) == expected
  {
    SortedPermutationUnique(expected, SortBy(xs, key), key);
  }

  /** A sorted sequence restricted to its tail is still sorted, with distinct keys kept distinct. */
  lemma TailSorted<T>(a: seq<T>, key: T -> int)
    requires a != [] && SortedBy(a, key)
    ensures SortedBy(a[1..], key)
    ensures DistinctKeys(a, key) ==> DistinctKeys(a[1..], key)
  {
    forall i, j | 0 <= i < j < |a| - 1 ensures key(a[1..][i]) <= key(a[1..][j]) {
      assert a[1..][i] == a[i + 1] && a[1..][j] == a[j + 1];
    }
    if DistinctKeys(a, key) {
      forall i, j | 0 <= i < j < |a| - 1 ensures key(a[1..][i]) != key(a[1..][j]) {
        assert a[1..][i] == a[i + 1] && a[1..][j] == a[j + 1];
      }
    }
  }

  /** Two sorted arrangements of one multiset with distinct keys start alike. */
  lemma SortedPermutationSameHead<T>(a: seq<T>, b: seq<T>, key: T -> int)
    requires a != [] && multiset(a) == multiset(b)
    requires SortedBy(a, key) && SortedBy(b, key)
    requires DistinctKeys(a, key)
    ensures b != [] && a[0] == b[0]
  {
    assert a[0] in multiset(b);
    assert b != [];
    assert b[0] in multiset(a);
    var k :| 0 <= k < |a| && a[k] == b[0];
    var m :| 0 <= m < |b| && b[m] == a[0];
    assert key(b[0]) <= key(b[m]);
    assert key(a[0]) <= key(a[k]);
    assert k == 0;
  }

  /** With distinct keys there is only one sorted arrangement of a multiset, so
      the outcome of a sort does not depend on the algorithm used. */
  lemma {:induction false} SortedPermutationUnique<T>(a: seq<T>, b: seq<T>, key: T -> int)
    requires multiset(a) == multiset(b)
    requires SortedBy(a, key) && SortedBy(b, key)
    requires DistinctKeys(a, key)
    ensures a == b
  {
    if a == [] {
      assert |b| == |multiset(b)| == 0;
    } else {
      SortedPermutationSameHead(a, b, key);
      assert a == [a[0]] + a[1..] && b == [b[0]] + b[1..];
      assert multiset(a[1..]) == multiset(a) - multiset{a[0]};
      assert multiset(b[1..]) == multiset(b) - multiset{b[0]};
      TailSorted(a, key);
      TailSorted(b, key);
      SortedPermutationUnique(a[1..], b[1..], key);
    }
  }
}
