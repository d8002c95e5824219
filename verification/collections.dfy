/** Sequence and set operations shared by the server routes and the client
    pages: `Array.prototype.filter`, `new Set(...)` de-duplication, `reduce`
    sums, comparator sorts and the enumeration of a SQL result set. */
module Collections {

  /** `r` is a subsequence of `xs`: its elements occur in `xs` in the same order. */
  predicate IsSubseq<T(==)>(r: seq<T>, xs: seq<T>)
    decreases |xs|
  {
    |r| == 0 || (|xs| > 0 && ((r[0] == xs[0] && IsSubseq(r[1..], xs[1..])) || IsSubseq(r, xs[1..])))
  }

  /** `xs.filter(p)`: keeps exactly the elements satisfying `p`, each as many
      times as it occurs, in their original order. */
  function Filter<T(==,!new)>(xs: seq<T>, p: T -> bool): (r: seq<T>)
    ensures |r| <= |xs|
    ensures forall x :: x in r <==> x in xs && p(x)
    ensures forall x :: multiset(r)[x] == if p(x) then multiset(xs)[x] else 0
    ensures IsSubseq(r, xs)
  {
    if |xs| == 0 then []
    else
      var rest := Filter(xs[1..], p);
      assert xs == [xs[0]] + xs[1..];
      if p(xs[0]) then [xs[0]] + rest else rest
  }

  lemma FilterAll<T(!new)>(xs: seq<T>, p: T -> bool)
    requires forall x :: x in xs ==> p(x)
    ensures Filter(xs, p) == xs
  {
    if |xs| > 0 {
      FilterAll(xs[1..], p);
    }
  }

  lemma FilterAppend<T(!new)>(xs: seq<T>, ys: seq<T>, p: T -> bool)
    ensures Filter(xs + ys, p) == Filter(xs, p) + Filter(ys, p)
  {
    if |xs| == 0 {
      assert xs + ys == ys;
    } else {
      assert (xs + ys)[1..] == xs[1..] + ys;
      FilterAppend(xs[1..], ys, p);
    }
  }

  /** Two predicates that agree everywhere select the same elements. */
  lemma {:induction false} FilterExt<T(!new)>(xs: seq<T>, p: T -> bool, q: T -> bool)
    requires forall x :: p(x) == q(x)
    ensures Filter(xs, p) == Filter(xs, q)
  {
    if |xs| > 0 {
      FilterExt(xs[1..], p, q);
    }
  }

  /** Filtering twice is filtering once by the conjunction. */
  lemma {:induction false} FilterFilter<T(!new)>(xs: seq<T>, p: T -> bool, q: T -> bool, both: T -> bool)
    requires forall x :: both(x) == (p(x) && q(x))
    ensures Filter(Filter(xs, p), q) == Filter(xs, both)
  {
    if |xs| > 0 {
      FilterFilter(xs[1..], p, q, both);
      assert xs == [xs[0]] + xs[1..];
      if p(xs[0]) {
        assert Filter(xs, p) == [xs[0]] + Filter(xs[1..], p);
        assert Filter(xs, p)[1..] == Filter(xs[1..], p);
      }
    }
  }

  lemma {:induction false} IsSubseqRefl<T>(xs: seq<T>)
    ensures IsSubseq(xs, xs)
  {
    if |xs| > 0 {
      IsSubseqRefl(xs[1..]);
    }
  }

  /** Removing position `k` shifts every later element down by one and
      keeps every element at another position. */
  lemma SpliceAt<T>(xs: seq<T>, k: nat)
    requires k < |xs|
    ensures var r := xs[..k] + xs[k + 1..];
      && |r| == |xs| - 1
      && (forall i :: 0 <= i < |r| ==> r[i] == xs[if i < k then i else i + 1])
      && (forall i :: 0 <= i < |xs| && i != k ==> xs[i] in r)
  {
    var r := xs[..k] + xs[k + 1..];
    forall i | 0 <= i < |xs| && i != k ensures xs[i] in r {
      assert r[if i < k then i else i - 1] == xs[i];
    }
  }

  /** Removing one element (`splice(k, 1)`) leaves a subsequence. */
  lemma {:induction false} SpliceIsSubseq<T>(xs: seq<T>, k: nat)
    requires k < |xs|
    ensures IsSubseq(xs[..k] + xs[k + 1..], xs)
  {
    var r := xs[..k] + xs[k + 1..];
    if k == 0 {
      assert r == xs[1..];
      IsSubseqRefl(xs[1..]);
    } else {
      SpliceIsSubseq(xs[1..], k - 1);
      assert r[0] == xs[0];
      assert r[1..] == xs[1..][..k - 1] + xs[1..][k..];
    }
  }

  /** A subsequence is never longer than the sequence, and one of the same
      length is the sequence itself. */
  lemma {:induction false} SubseqLength<T>(r: seq<T>, xs: seq<T>)
    requires IsSubseq(r, xs)
    ensures |r| <= |xs|
    ensures |r| == |xs| ==> r == xs
    decreases |xs|
  {
    if |r| > 0 {
      if r[0] == xs[0] && IsSubseq(r[1..], xs[1..]) {
        SubseqLength(r[1..], xs[1..]);
        if |r| == |xs| {
          assert r == [r[0]] + r[1..];
          assert xs == [xs[0]] + xs[1..];
        }
      } else {
        SubseqLength(r, xs[1..]);
      }
    }
  }

  /** No element occurs twice. */
  predicate NoDuplicates<T(==)>(xs: seq<T>) {
    forall i, j :: 0 <= i < j < |xs| ==> xs[i] != xs[j]
  }

  /** Filtering a duplicate-free sequence leaves it duplicate-free. */
  lemma {:induction false} FilterNoDuplicates<T(!new)>(xs: seq<T>, p: T -> bool)
    requires NoDuplicates(xs)
    ensures NoDuplicates(Filter(xs, p))
  {
    if |xs| > 0 {
      var rest := Filter(xs[1..], p);
      assert NoDuplicates(xs[1..]) by {
        forall i, j | 0 <= i < j < |xs[1..]| ensures xs[1..][i] != xs[1..][j] {
          assert xs[1..][i] == xs[i + 1] && xs[1..][j] == xs[j + 1];
        }
      }
      FilterNoDuplicates(xs[1..], p);
      if p(xs[0]) {
        assert xs[0] !in xs[1..] by {
          forall k | 0 <= k < |xs[1..]| ensures xs[1..][k] != xs[0] {
            assert xs[1..][k] == xs[k + 1];
          }
        }
        var r := [xs[0]] + rest;
        assert Filter(xs, p) == r;
        forall i, j | 0 <= i < j < |r| ensures r[i] != r[j] {
          assert r[j] == rest[j - 1];
          assert rest[j - 1] in rest;
          if i > 0 {
            assert r[i] == rest[i - 1];
          }
        }
      }
    }
  }

  /** Position of the first occurrence of `x` (`xs.indexOf(x)`). */
  function FirstIndex<T(==)>(xs: seq<T>, x: T): (k: nat)
    requires x in xs
    ensures k < |xs| && xs[k] == x && x !in xs[..k]
  {
    if xs[0] == x then 0 else 1 + FirstIndex(xs[1..], x)
  }

  lemma {:induction false} FirstIndexExtend<T>(xs: seq<T>, y: T, x: T)
    requires x in xs
    ensures x in xs + [y] && FirstIndex(xs + [y], x) == FirstIndex(xs, x)
  {
    if xs[0] != x {
      assert (xs + [y])[1..] == xs[1..] + [y];
      FirstIndexExtend(xs[1..], y, x);
    }
  }

  /** `[...new Set(xs)]`: each distinct value once, in first-occurrence order. */
  function Distinct<T(==,!new)>(xs: seq<T>): (r: seq<T>)
    ensures NoDuplicates(r)
    ensures forall x :: x in r <==> x in xs
    ensures forall i, j :: 0 <= i < j < |r| ==> FirstIndex(xs, r[i]) < FirstIndex(xs, r[j])
    decreases |xs|
  {
    if |xs| == 0 then []
    else
      var init := xs[..|xs| - 1];
      var last := xs[|xs| - 1];
      var d := Distinct(init);
      assert xs == init + [last];
      assert forall x :: x in init ==> FirstIndex(xs, x) == FirstIndex(init, x) by {
        forall x | x in init ensures FirstIndex(xs, x) == FirstIndex(init, x) {
          FirstIndexExtend(init, last, x);
        }
      }
      if last in d then d
      else
        assert FirstIndex(xs, last) == |xs| - 1;
        d + [last]
  }

  /** Sum of `f` over the elements (`xs.reduce((s, x) => s + f(x), 0)`). */
  function SumOf<T>(xs: seq<T>, f: T -> int): int {
    if |xs| == 0 then 0 else f(xs[0]) + SumOf(xs[1..], f)
  }

  lemma {:induction false} SumOfAppend<T>(xs: seq<T>, ys: seq<T>, f: T -> int)
    ensures SumOf(xs + ys, f) == SumOf(xs, f) + SumOf(ys, f)
  {
    if |xs| == 0 {
      assert xs + ys == ys;
    } else {
      assert (xs + ys)[1..] == xs[1..] + ys;
      SumOfAppend(xs[1..], ys, f);
    }
  }

  lemma {:induction false} SumOfFilterAppend<T(!new)>(xs: seq<T>, ys: seq<T>, p: T -> bool, f: T -> int)
    ensures SumOf(Filter(xs + ys, p), f) == SumOf(Filter(xs, p), f) + SumOf(Filter(ys, p), f)
  {
    FilterAppend(xs, ys, p);
    SumOfAppend(Filter(xs, p), Filter(ys, p), f);
  }

  /** A sort key compared lexicographically: `major`, then `minor`. */
  datatype Key = Key(major: int, minor: int)

  predicate KeyGe(a: Key, b: Key) {
    a.major > b.major || (a.major == b.major && a.minor >= b.minor)
  }

  /** Sorted with the largest key first. */
  predicate SortedDesc<T>(xs: seq<T>, key: T -> Key) {
    forall i, j :: 0 <= i < j < |xs| ==> KeyGe(key(xs[i]), key(xs[j]))
  }

  /** Putting an element whose key is at least every other key in front
      keeps a sequence sorted. */
  lemma ConsSortedDesc<T>(y: T, ys: seq<T>, key: T -> Key)
    requires SortedDesc(ys, key)
    requires forall k :: 0 <= k < |ys| ==> KeyGe(key(y), key(ys[k]))
    ensures SortedDesc([y] + ys, key)
  {
    var r := [y] + ys;
    forall i, j | 0 <= i < j < |r| ensures KeyGe(key(r[i]), key(r[j])) {
      assert r[j] == ys[j - 1];
      if i > 0 {
        assert r[i] == ys[i - 1];
      }
    }
  }

  /** Inserts `x` before the first element whose key it is at least. */
  function Insert<T>(x: T, ys: seq<T>, key: T -> Key): (r: seq<T>)
    requires SortedDesc(ys, key)
    ensures SortedDesc(r, key)
    ensures multiset(r) == multiset{x} + multiset(ys)
    ensures |r| == |ys| + 1
  {
    if |ys| == 0 || KeyGe(key(x), key(ys[0])) then
      ConsSortedDesc(x, ys, key);
      [x] + ys
    else
      var rest := Insert(x, ys[1..], key);
      assert ys == [ys[0]] + ys[1..];
      assert forall k :: 0 <= k < |rest| ==> KeyGe(key(ys[0]), key(rest[k])) by {
        forall k | 0 <= k < |rest| ensures KeyGe(key(ys[0]), key(rest[k])) {
          assert rest[k] in multiset(rest);
          if rest[k] != x {
            assert rest[k] in multiset(ys[1..]);
            assert rest[k] in ys[1..];
          }
        }
      }
      ConsSortedDesc(ys[0], rest, key);
      [ys[0]] + rest
  }

  /** A stable insertion sort, largest key first (a descending comparator
      handed to `Array.prototype.sort`). */
  function SortDesc<T>(xs: seq<T>, key: T -> Key): (r: seq<T>)
    ensures SortedDesc(r, key)
    ensures multiset(r) == multiset(xs)
    ensures |r| == |xs|
  {
    if |xs| == 0 then []
    else
      assert xs == [xs[0]] + xs[1..];
      Insert(xs[0], SortDesc(xs[1..], key), key)
  }

  /** The first `n` elements of a descending sequence are its top `n`:
      every element left out has a key no greater than any kept. */
  lemma PrefixIsTop<T>(xs: seq<T>, n: nat, key: T -> Key)
    requires SortedDesc(xs, key) && n <= |xs|
    ensures SortedDesc(xs[..n], key)
    ensures multiset(xs[..n]) <= multiset(xs)
    ensures forall y, i :: y in multiset(xs) - multiset(xs[..n]) && 0 <= i < n ==> KeyGe(key(xs[..n][i]), key(y))
  {
    var top, rest := xs[..n], xs[n..];
    assert xs == top + rest;
    assert multiset(xs) == multiset(top) + multiset(rest);
    forall y, i | y in multiset(xs) - multiset(top) && 0 <= i < n
      ensures KeyGe(key(top[i]), key(y))
    {
      assert y in multiset(rest);
      var j :| 0 <= j < |rest| && rest[j] == y;
      assert xs[n + j] == y && xs[i] == top[i];
    }
  }

  /** A least element of a non-empty finite set of naturals, found by
      removing elements one at a time. */
  ghost function LeastOf(s: set<nat>): (m: nat)
    requires s != {}
    ensures m in s && forall y :: y in s ==> m <= y
    decreases |s|
  {
    var x :| x in s;
    if s == {x} then x
    else
      var m := LeastOf(s - {x});
      assert forall y :: y in s ==> y == x || y in s - {x};
      if x < m then x else m
  }

  /** The least element of a non-empty finite set of naturals. */
  function MinOf(s: set<nat>): (m: nat)
    requires s != {}
    ensures m in s && forall y :: y in s ==> m <= y
  {
    ghost var w := LeastOf(s);
    var m :| m in s && forall y :: y in s ==> m <= y;
    m
  }

  predicate StrictlyIncreasing(xs: seq<nat>) {
    forall i, j :: 0 <= i < j < |xs| ==> xs[i] < xs[j]
  }

  /** Putting a smaller element in front keeps a sequence strictly increasing. */
  lemma ConsIncreasing(m: nat, xs: seq<nat>)
    requires StrictlyIncreasing(xs)
    requires forall x :: x in xs ==> m < x
    ensures StrictlyIncreasing([m] + xs)
  {
    var r := [m] + xs;
    forall i, j | 0 <= i < j < |r| ensures r[i] < r[j] {
      assert r[j] == xs[j - 1] && xs[j - 1] in xs;
      if i > 0 {
        assert r[i] == xs[i - 1];
      }
    }
  }

  /** The elements of a set as a sequence in ascending order. A SQL
      `SELECT` without `ORDER BY` returns its rows in an unspecified order;
      the model fixes this one. */
  function SortedIds(s: set<nat>): (r: seq<nat>)
    ensures |r| == |s|
    ensures forall x :: x in r <==> x in s
    ensures StrictlyIncreasing(r)
    decreases |s|
  {
    if s == {} then []
    else
      var m := MinOf(s);
      var rest := SortedIds(s - {m});
      ConsIncreasing(m, rest);
      [m] + rest
  }

  /** A subset is no larger than the set that holds it. */
  lemma {:induction false} SubsetCard<T>(a: set<T>, b: set<T>)
    requires a <= b
    ensures |a| <= |b|
    decreases |b|
  {
    if a != {} {
      var x :| x in a;
      SubsetCard(a - {x}, b - {x});
    }
  }
}
