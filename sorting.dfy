/** Python's `sorted`, which the listings call: a stable sort by a total preorder. It is
    written here as an insertion sort; what the listings rely on is stated by the lemmas
    (sorted, a permutation of its input, and elements that compare equal keep their input
    order). */
module Sorting {
  /** `le` is a total preorder: any two elements compare, and comparison chains. */
  ghost predicate TotalPreorder<T(!new)>(le: (T, T) -> bool) {
    && (forall a, b :: le(a, b) || le(b, a))
    && (forall a, b, c :: le(a, b) && le(b, c) ==> le(a, c))
  }

  predicate SortedBy<T>(xs: seq<T>, le: (T, T) -> bool) {
    forall i, j :: 0 <= i < j < |xs| ==> le(xs[i], xs[j])
  }

  /** Places `x` before the first element it does not exceed. */
  function Insert<T>(x: T, ys: seq<T>, le: (T, T) -> bool): (r: seq<T>)
    ensures |r| == |ys| + 1
    ensures multiset(r) == multiset{x} + multiset(ys)
  {
    if ys == [] then [x]
    else if le(x, ys[0]) then [x] + ys
    else
      assert ys == [ys[0]] + ys[1..];
      [ys[0]] + Insert(x, ys[1..], le)
  }

  /** `sorted(xs, key=...)`. */
  function SortBy<T>(xs: seq<T>, le: (T, T) -> bool): (r: seq<T>)
    ensures |r| == |xs|
    ensures multiset(r) == multiset(xs)
  {
    if xs == [] then []
    else
      assert xs == [xs[0]] + xs[1..];
      Insert(xs[0], SortBy(xs[1..], le), le)
  }

  lemma {:induction false} InsertSorted<T(!new)>(x: T, ys: seq<T>, le: (T, T) -> bool)
    requires TotalPreorder(le) && SortedBy(ys, le)
    ensures SortedBy(Insert(x, ys, le), le)
    decreases |ys|
  {
    if ys != [] && !le(x, ys[0]) {
      var rest := Insert(x, ys[1..], le);
      InsertSorted(x, ys[1..], le);
      assert le(ys[0], x);
      assert forall k :: 0 <= k < |rest| ==> le(ys[0], rest[k]) by {
        forall k | 0 <= k < |rest| ensures le(ys[0], rest[k]) {
          assert rest[k] in multiset(rest);
          assert rest[k] == x || rest[k] in multiset(ys[1..]);
          if rest[k] != x {
            var j :| 0 <= j < |ys[1..]| && ys[1..][j] == rest[k];
            assert ys[1 + j] == rest[k];
          }
        }
      }
    }
  }

  /** The result is sorted. */
  lemma {:induction false} SortBySorted<T(!new)>(xs: seq<T>, le: (T, T) -> bool)
    requires TotalPreorder(le)
    ensures SortedBy(SortBy(xs, le), le)
    decreases |xs|
  {
    if xs != [] {
      SortBySorted(xs[1..], le);
      InsertSorted(xs[0], SortBy(xs[1..], le), le);
    }
  }

  /** The elements of `xs` that compare equal to `z`, in order. */
  function Equivalents<T>(xs: seq<T>, z: T, le: (T, T) -> bool): (r: seq<T>)
    ensures |r| <= |xs|
  {
    if xs == [] then []
    else (if le(xs[0], z) && le(z, xs[0]) then [xs[0]] else []) + Equivalents(xs[1..], z, le)
  }

  lemma {:induction false} InsertStable<T(!new)>(x: T, ys: seq<T>, z: T, le: (T, T) -> bool)
    requires TotalPreorder(le)
    ensures Equivalents(Insert(x, ys, le), z, le) == Equivalents([x] + ys, z, le)
    decreases |ys|
  {
    assert ([x] + ys)[1..] == ys;
    if ys != [] && !le(x, ys[0]) {
      var y := ys[0];
      InsertStable(x, ys[1..], z, le);
      assert Insert(x, ys, le)[1..] == Insert(x, ys[1..], le);
      assert ([x] + ys[1..])[1..] == ys[1..];
      assert !(le(y, z) && le(z, y) && le(x, z) && le(z, x));
    }
  }

  /** The sort is stable: the elements that compare equal to any `z` appear in the result
      in the order they had in the input. */
  lemma {:induction false} SortByStable<T(!new)>(xs: seq<T>, z: T, le: (T, T) -> bool)
    requires TotalPreorder(le)
    ensures Equivalents(SortBy(xs, le), z, le) == Equivalents(xs, z, le)
    decreases |xs|
  {
    if xs != [] {
      var s := SortBy(xs[1..], le);
      SortByStable(xs[1..], z, le);
      InsertStable(xs[0], s, z, le);
      assert ([xs[0]] + s)[1..] == s;
    }
  }

  /** Python's ordering of `str` values: lexicographic by code point. */
  predicate LexLe(a: string, b: string) {
    a == "" || (b != "" && (a[0] < b[0] || (a[0] == b[0] && LexLe(a[1..], b[1..]))))
  }

  lemma {:induction false} LexLeTotal(a: string, b: string)
    ensures LexLe(a, b) || LexLe(b, a)
    decreases |a|
  {
    if a != "" && b != "" && a[0] == b[0] {
      LexLeTotal(a[1..], b[1..]);
    }
  }

  lemma {:induction false} LexLeTransitive(a: string, b: string, c: string)
    requires LexLe(a, b) && LexLe(b, c)
    ensures LexLe(a, c)
    decreases |a|
  {
    if a != "" && b != "" && c != "" && a[0] == b[0] && b[0] == c[0] {
      LexLeTransitive(a[1..], b[1..], c[1..]);
    }
  }

  /** Two strings each at most the other are equal. */
  lemma {:induction false} LexLeAntisymmetric(a: string, b: string)
    requires LexLe(a, b) && LexLe(b, a)
    ensures a == b
    decreases |a|
  {
    if a != "" {
      LexLeAntisymmetric(a[1..], b[1..]);
      assert a == [a[0]] + a[1..] && b == [b[0]] + b[1..];
    }
  }

  lemma LexOrderIsTotalPreorder()
    ensures TotalPreorder(LexLe)
  {
    forall a: string, b: string ensures LexLe(a, b) || LexLe(b, a) {
      LexLeTotal(a, b);
    }
    forall a: string, b: string, c: string | LexLe(a, b) && LexLe(b, c) ensures LexLe(a, c) {
      LexLeTransitive(a, b, c);
    }
  }
}
