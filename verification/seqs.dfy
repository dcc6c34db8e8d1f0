/**
 * Sequence utilities shared by every module: order-preserving filtering,
 * integer sums, de-duplication in first-seen order and the partition
 * identity that ties a total to its per-key subtotals.
 *
 * Every recursive definition peels the LAST element, which matches the
 * source's "loop and append" style.
 */
module Seqs {
  import opened Wrappers

  /** `a` can be obtained from `b` by deleting elements (order kept). */
  predicate IsSubseq<T(==)>(a: seq<T>, b: seq<T>)
    decreases |b|
  {
    if |a| == 0 then true
    else if |b| == 0 then false
    else if a[|a| - 1] == b[|b| - 1] then IsSubseq(a[..|a| - 1], b[..|b| - 1])
    else IsSubseq(a, b[..|b| - 1])
  }

  /** No element occurs twice. */
  predicate NoDup<T(==)>(s: seq<T>) {
    forall i, j :: 0 <= i < j < |s| ==> s[i] != s[j]
  }

  /** The elements of `s` satisfying `p`, in their original order. */
  function Filter<T>(s: seq<T>, p: T -> bool): (r: seq<T>)
    ensures |r| <= |s|
    ensures forall i :: 0 <= i < |r| ==> p(r[i]) && r[i] in s
  {
    if |s| == 0 then []
    else Filter(s[..|s| - 1], p) + (if p(s[|s| - 1]) then [s[|s| - 1]] else [])
  }

  /** Every element satisfying the predicate survives filtering. */
  lemma {:induction false} FilterKeeps<T>(s: seq<T>, p: T -> bool, x: T)
    requires x in s && p(x)
    ensures x in Filter(s, p)
  {
    var init := s[..|s| - 1];
    if x != s[|s| - 1] {
      var i :| 0 <= i < |s| && s[i] == x;
      assert init[i] == x;
      FilterKeeps(init, p, x);
    }
  }

  /** An element carrying key `k` is in the group of `k`. */
  lemma GroupKeeps<T, K>(s: seq<T>, key: T -> K, k: K, x: T)
    requires x in s && key(x) == k
    ensures x in Group(s, key, k)
  {
    FilterKeeps(s, y => key(y) == k, x);
  }

  /** Filtering by a predicate every element satisfies keeps everything. */
  lemma {:induction false} FilterAll<T>(s: seq<T>, p: T -> bool)
    requires forall i :: 0 <= i < |s| ==> p(s[i])
    ensures Filter(s, p) == s
  {
    if |s| > 0 {
      FilterAll(s[..|s| - 1], p);
    }
  }

  /** Nothing survives a filter that no element satisfies, and vice versa. */
  lemma {:induction false} FilterEmpty<T>(s: seq<T>, p: T -> bool)
    ensures |Filter(s, p)| == 0 <==> forall i :: 0 <= i < |s| ==> !p(s[i])
  {
    if |s| > 0 {
      FilterEmpty(s[..|s| - 1], p);
      assert forall i :: 0 <= i < |s| - 1 ==> s[..|s| - 1][i] == s[i];
    }
  }

  /** Sum of `f` over the elements of `s`. */
  function Sum<T>(s: seq<T>, f: T -> int): int {
    if |s| == 0 then 0 else Sum(s[..|s| - 1], f) + f(s[|s| - 1])
  }

  /** The elements of `s` whose `key` is `k`, in their original order. */
  function Group<T, K(==)>(s: seq<T>, key: T -> K, k: K): seq<T> {
    Filter(s, x => key(x) == k)
  }

  /** `f` applied to every element. */
  function Map<T, U>(s: seq<T>, f: T -> U): (r: seq<U>)
    ensures |r| == |s|
    ensures forall i :: 0 <= i < |s| ==> r[i] == f(s[i])
  {
    if |s| == 0 then [] else Map(s[..|s| - 1], f) + [f(s[|s| - 1])]
  }

  /** Concatenation is associative. */
  lemma AppendAssoc<T>(a: seq<T>, b: seq<T>, c: seq<T>)
    ensures a + b + c == a + (b + c)
  {}

  /** Mapping over one more element appends its image. */
  lemma MapSnoc<T, U>(s: seq<T>, x: T, f: T -> U)
    ensures Map(s + [x], f) == Map(s, f) + [f(x)]
  {
    assert (s + [x])[..|s|] == s;
  }

  /** The present results of `f` over `s`, in order; an element giving `None` is skipped. */
  function Choose<T, U>(s: seq<T>, f: T -> Option<U>): (r: seq<U>)
    ensures |r| <= |s|
  {
    if |s| == 0 then []
    else
      var init := Choose(s[..|s| - 1], f);
      match f(s[|s| - 1])
      case None => init
      case Some(y) => init + [y]
  }

  /** When `f` gives a result for every element, `Choose` keeps them all, element by element. */
  lemma {:induction false} ChooseAll<T, U>(s: seq<T>, f: T -> Option<U>)
    requires forall i :: 0 <= i < |s| ==> f(s[i]).Some?
    ensures |Choose(s, f)| == |s|
    ensures forall i :: 0 <= i < |s| ==> f(s[i]) == Some(Choose(s, f)[i])
  {
    if |s| > 0 {
      var init := s[..|s| - 1];
      ChooseAll(init, f);
      assert Choose(s, f) == Choose(init, f) + [f(s[|s| - 1]).value];
      forall i | 0 <= i < |s| ensures f(s[i]) == Some(Choose(s, f)[i]) {
        if i < |init| {
          assert init[i] == s[i];
        }
      }
    }
  }

  /** A value is chosen exactly when some element gives it. */
  lemma {:induction false} ChooseIff<T, U>(s: seq<T>, f: T -> Option<U>, y: U)
    ensures y in Choose(s, f) <==> exists i :: 0 <= i < |s| && f(s[i]) == Some(y)
  {
    if |s| > 0 {
      var init := s[..|s| - 1];
      ChooseIff(init, f, y);
      if exists i :: 0 <= i < |init| && f(init[i]) == Some(y) {
        var i :| 0 <= i < |init| && f(init[i]) == Some(y);
        assert s[i] == init[i];
      }
      if exists i :: 0 <= i < |s| && f(s[i]) == Some(y) {
        var i :| 0 <= i < |s| && f(s[i]) == Some(y);
        if i < |init| {
          assert f(init[i]) == Some(y);
        }
      }
    }
  }

  /** Distinct elements giving distinct results give distinct chosen values. */
  lemma {:induction false} ChooseNoDup<T, U>(s: seq<T>, f: T -> Option<U>)
    requires NoDup(s)
    requires forall a, b :: f(a).Some? && f(a) == f(b) ==> a == b
    ensures NoDup(Choose(s, f))
  {
    if |s| > 0 {
      var init, x := s[..|s| - 1], s[|s| - 1];
      ChooseNoDup(init, f);
      if f(x).Some? {
        var y := f(x).value;
        var c := Choose(init, f);
        forall i | 0 <= i < |init| ensures f(init[i]) != Some(y) {
          assert init[i] == s[i] != x;
        }
        ChooseIff(init, f, y);
        assert Choose(s, f) == c + [y];
      }
    }
  }

  /** Filtering keeps a sequence free of repeats. */
  lemma {:induction false} FilterNoDup<T>(s: seq<T>, p: T -> bool)
    requires NoDup(s)
    ensures NoDup(Filter(s, p))
  {
    if |s| > 0 {
      var init, x := s[..|s| - 1], s[|s| - 1];
      FilterNoDup(init, p);
      assert forall i :: 0 <= i < |init| ==> init[i] == s[i] != x;
      assert x !in Filter(init, p);
    }
  }

  /** The keys are distinct exactly when the elements are, and the key tells elements apart. */
  lemma NoDupMapIff<T, K>(s: seq<T>, f: T -> K)
    ensures NoDup(Map(s, f)) <==> NoDup(s) && forall x, y :: x in s && y in s && f(x) == f(y) ==> x == y
  {
    var m := Map(s, f);
    if NoDup(m) {
      forall x, y | x in s && y in s && f(x) == f(y) ensures x == y {
        var i :| 0 <= i < |s| && s[i] == x;
        var j :| 0 <= j < |s| && s[j] == y;
        assert m[i] == m[j];
      }
    }
  }

  /** Number of elements of `s` satisfying `p`. */
  function Count<T>(s: seq<T>, p: T -> bool): nat {
    |Filter(s, p)|
  }

  /** `s` with repeated elements removed, keeping each first occurrence. */
  function Distinct<T(==,!new)>(s: seq<T>): (r: seq<T>)
    ensures NoDup(r)
    ensures forall x :: x in r <==> x in s
    ensures |r| <= |s|
  {
    if |s| == 0 then []
    else
      var init := Distinct(s[..|s| - 1]);
      if s[|s| - 1] in s[..|s| - 1] then init else init + [s[|s| - 1]]
  }

  /** Summing over one more element adds its value. */
  lemma SumSnoc<T>(s: seq<T>, x: T, f: T -> int)
    ensures Sum(s + [x], f) == Sum(s, f) + f(x)
  {
    assert (s + [x])[..|s|] == s;
  }

  /** Filtering one more element appends it exactly when it passes. */
  lemma FilterSnoc<T>(s: seq<T>, x: T, p: T -> bool)
    ensures Filter(s + [x], p) == Filter(s, p) + (if p(x) then [x] else [])
  {
    assert (s + [x])[..|s|] == s;
  }

  /** Filtering a sequence with one more element in front keeps it in front when it passes. */
  lemma FilterCons<T>(x: T, s: seq<T>, p: T -> bool)
    ensures Filter([x] + s, p) == (if p(x) then [x] else []) + Filter(s, p)
  {
    assert Filter([x], p) == (if p(x) then [x] else []) by {
      assert [x][..0] == [];
    }
    FilterConcat([x], s, p);
  }

  /** Filtering keeps the head of a non-empty sequence in front when it passes. */
  lemma FilterHead<T>(s: seq<T>, p: T -> bool)
    requires |s| > 0
    ensures Filter(s, p) == (if p(s[0]) then [s[0]] else []) + Filter(s[1..], p)
  {
    FilterCons(s[0], s[1..], p);
    assert [s[0]] + s[1..] == s;
  }

  /** Filtering and summing over one more element adds its value exactly when it passes. */
  lemma FilterSumSnoc<T>(s: seq<T>, x: T, p: T -> bool, f: T -> int)
    ensures Sum(Filter(s + [x], p), f) == Sum(Filter(s, p), f) + (if p(x) then f(x) else 0)
  {
    FilterSnoc(s, x, p);
    if p(x) {
      SumSnoc(Filter(s, p), x, f);
    } else {
      assert Filter(s, p) + [] == Filter(s, p);
    }
  }

  /** Some element of `s + [x]` passes exactly when one of `s` does or `x` does. */
  lemma ExistsSnoc<T>(s: seq<T>, x: T, p: T -> bool)
    ensures (exists y :: y in s + [x] && p(y)) <==> (exists y :: y in s && p(y)) || p(x)
  {
    if exists y :: y in s + [x] && p(y) {
      var y :| y in s + [x] && p(y);
      if y != x {
        assert y in s;
      }
    }
    if p(x) {
      assert x in s + [x];
    }
    if exists y :: y in s && p(y) {
      var y :| y in s && p(y);
      assert y in s + [x];
    }
  }

  /** De-duplicating one more element appends it exactly when it is new. */
  lemma DistinctSnoc<T(!new)>(s: seq<T>, x: T)
    ensures Distinct(s + [x]) == if x in s then Distinct(s) else Distinct(s) + [x]
  {
    assert (s + [x])[..|s|] == s;
  }

  /** `a` occurs in `s` before the first occurrence of `b`. */
  predicate SeenBefore<T(==)>(s: seq<T>, a: T, b: T) {
    exists p :: 0 <= p < |s| && s[p] == a && b !in s[..p]
  }

  /**
   * `Distinct` keeps first-seen order: an element listed before another
   * occurs in `s` before the other's first occurrence.
   */
  lemma {:induction false} DistinctFirstSeen<T(!new)>(s: seq<T>)
    ensures forall i, j :: 0 <= i < j < |Distinct(s)| ==> SeenBefore(s, Distinct(s)[i], Distinct(s)[j])
  {
    if |s| > 0 {
      var init, x := s[..|s| - 1], s[|s| - 1];
      var d, r := Distinct(init), Distinct(s);
      DistinctFirstSeen(init);
      forall i, j | 0 <= i < j < |r| ensures SeenBefore(s, r[i], r[j]) {
        assert r[i] == d[i] && d[i] in d;
        var q :| 0 <= q < |init| && init[q] == d[i];
        assert s[..q] == init[..q];
        if j < |d| {
          assert r[j] == d[j];
          assert SeenBefore(init, d[i], d[j]);
          var p :| 0 <= p < |init| && init[p] == d[i] && d[j] !in init[..p];
          assert s[..p] == init[..p];
          assert s[p] == r[i];
        } else {
          assert r[j] == x && x !in init;
          assert s[q] == r[i];
        }
      }
    }
  }

  // ---------------------------------------------------------------------
  // Subsequence facts

  lemma {:induction false} SubseqDropLast<T>(a: seq<T>, b: seq<T>)
    requires |a| > 0 && IsSubseq(a, b)
    ensures IsSubseq(a[..|a| - 1], b)
    decreases |b|, 0
  {
    var a' := a[..|a| - 1];
    if |a'| == 0 {
    } else if |b| == 0 {
    } else if a[|a| - 1] == b[|b| - 1] {
      // IsSubseq(a', b[..|b|-1]) holds; extend it by b's last element
      SubseqExtend(a', b[..|b| - 1], b[|b| - 1]);
      assert b[..|b| - 1] + [b[|b| - 1]] == b;
    } else {
      SubseqDropLast(a, b[..|b| - 1]);
      SubseqExtend(a', b[..|b| - 1], b[|b| - 1]);
      assert b[..|b| - 1] + [b[|b| - 1]] == b;
    }
  }

  /** Appending to the longer sequence keeps a subsequence a subsequence. */
  lemma {:induction false} SubseqExtend<T>(a: seq<T>, b: seq<T>, x: T)
    requires IsSubseq(a, b)
    ensures IsSubseq(a, b + [x])
    decreases |b|, 1
  {
    var b' := b + [x];
    assert b'[..|b'| - 1] == b;
    if |a| == 0 {
    } else if a[|a| - 1] == x {
      SubseqDropLast(a, b);
    }
  }

  /** Sub-sequence is transitive. */
  lemma {:induction false} SubseqTrans<T>(a: seq<T>, b: seq<T>, c: seq<T>)
    requires IsSubseq(a, b) && IsSubseq(b, c)
    ensures IsSubseq(a, c)
    decreases |c|
  {
    if |a| == 0 {
    } else if |b| == 0 {
    } else if |c| == 0 {
    } else if b[|b| - 1] == c[|c| - 1] {
      var b', c' := b[..|b| - 1], c[..|c| - 1];
      if a[|a| - 1] == b[|b| - 1] {
        SubseqTrans(a[..|a| - 1], b', c');
      } else {
        SubseqTrans(a, b', c');
        SubseqExtend(a, c', c[|c| - 1]);
        assert c' + [c[|c| - 1]] == c;
      }
    } else {
      SubseqTrans(a, b, c[..|c| - 1]);
      SubseqExtend(a, c[..|c| - 1], c[|c| - 1]);
      assert c[..|c| - 1] + [c[|c| - 1]] == c;
    }
  }

  /** Filtering yields a subsequence of its input. */
  lemma {:induction false} FilterIsSubseq<T>(s: seq<T>, p: T -> bool)
    ensures IsSubseq(Filter(s, p), s)
  {
    if |s| == 0 {
    } else {
      var init := s[..|s| - 1];
      var x := s[|s| - 1];
      FilterIsSubseq(init, p);
      assert init + [x] == s;
      if p(x) {
        assert Filter(s, p) == Filter(init, p) + [x];
        assert (Filter(init, p) + [x])[..|Filter(init, p)|] == Filter(init, p);
      } else {
        assert Filter(s, p) == Filter(init, p);
        SubseqExtend(Filter(init, p), init, x);
      }
    }
  }

  lemma {:induction false} FilterConcat<T>(a: seq<T>, b: seq<T>, p: T -> bool)
    ensures Filter(a + b, p) == Filter(a, p) + Filter(b, p)
    decreases |b|
  {
    if |b| == 0 {
      assert a + b == a;
    } else {
      var b', y := b[..|b| - 1], b[|b| - 1];
      FilterConcat(a, b', p);
      var tail := if p(y) then [y] else [];
      assert (a + b)[..|a + b| - 1] == a + b' && (a + b)[|a + b| - 1] == y;
      assert Filter(a + b, p) == Filter(a + b', p) + tail;
      assert Filter(b, p) == Filter(b', p) + tail;
    }
  }

  // ---------------------------------------------------------------------
  // Sum facts

  lemma {:induction false} SumConcat<T>(a: seq<T>, b: seq<T>, f: T -> int)
    ensures Sum(a + b, f) == Sum(a, f) + Sum(b, f)
    decreases |b|
  {
    if |b| == 0 {
      assert a + b == a;
    } else {
      var b' := b[..|b| - 1];
      SumConcat(a, b', f);
      assert (a + b)[..|a + b| - 1] == a + b';
    }
  }

  /** Sums over two functions that agree on `s` are equal. */
  lemma {:induction false} SumCongruent<T>(s: seq<T>, f: T -> int, g: T -> int)
    requires forall i :: 0 <= i < |s| ==> f(s[i]) == g(s[i])
    ensures Sum(s, f) == Sum(s, g)
  {
    if |s| > 0 {
      SumCongruent(s[..|s| - 1], f, g);
    }
  }

  /** The sum of a pointwise sum is the sum of the two sums. */
  lemma {:induction false} SumAdd<T>(s: seq<T>, f: T -> int, g: T -> int, h: T -> int)
    requires forall i :: 0 <= i < |s| ==> h(s[i]) == f(s[i]) + g(s[i])
    ensures Sum(s, h) == Sum(s, f) + Sum(s, g)
  {
    if |s| > 0 {
      SumAdd(s[..|s| - 1], f, g, h);
    }
  }

  /**
   * Over a duplicate-free `keys`, the indicator "k == c" weighted by `v`
   * sums to `v` when `c` is one of the keys and to 0 otherwise.
   */
  lemma {:induction false} SumIndicator<K>(keys: seq<K>, c: K, v: int)
    requires NoDup(keys)
    ensures Sum(keys, k => if k == c then v else 0) == (if c in keys then v else 0)
  {
    if |keys| > 0 {
      var init := keys[..|keys| - 1];
      SumIndicator(init, c, v);
      assert c in keys <==> c in init || c == keys[|keys| - 1];
    }
  }

  /** Summing `f` over the elements filtered by `p` is the sum of `f` where `p` holds. */
  lemma {:induction false} SumFilter<T>(s: seq<T>, p: T -> bool, f: T -> int)
    ensures Sum(Filter(s, p), f) == Sum(s, x => if p(x) then f(x) else 0)
  {
    if |s| > 0 {
      var init := s[..|s| - 1];
      SumFilter(init, p, f);
      SumConcat(Filter(init, p), if p(s[|s| - 1]) then [s[|s| - 1]] else [], f);
    }
  }

  /** A sum splits into the part where `p` holds and the part where it does not. */
  lemma FilterSplitSum<T>(s: seq<T>, p: T -> bool, q: T -> bool, f: T -> int)
    requires forall x :: q(x) == !p(x)
    ensures Sum(s, f) == Sum(Filter(s, p), f) + Sum(Filter(s, q), f)
  {
    SumFilter(s, p, f);
    SumFilter(s, q, f);
    SumAdd(s, x => if p(x) then f(x) else 0, x => if q(x) then f(x) else 0, f);
  }

  /** Two filters that split a third between them keep as many elements as it does. */
  lemma {:induction false} CountSplit<T>(s: seq<T>, p: T -> bool, q: T -> bool, r: T -> bool)
    requires forall x :: r(x) == (p(x) || q(x)) && !(p(x) && q(x))
    ensures Count(s, p) + Count(s, q) == Count(s, r)
  {
    if |s| > 0 {
      CountSplit(s[..|s| - 1], p, q, r);
    }
  }

  /** A stronger filter keeps no more. */
  lemma {:induction false} FilterImplies<T>(s: seq<T>, p: T -> bool, q: T -> bool)
    requires forall x :: p(x) ==> q(x)
    ensures |Filter(s, p)| <= |Filter(s, q)|
  {
    if |s| > 0 {
      FilterImplies(s[..|s| - 1], p, q);
    }
  }

  /** Filters that agree on the elements keep the same elements. */
  lemma {:induction false} FilterSame<T>(s: seq<T>, p: T -> bool, q: T -> bool)
    requires forall x :: x in s ==> p(x) == q(x)
    ensures Filter(s, p) == Filter(s, q)
  {
    if |s| > 0 {
      assert forall x :: x in s[..|s| - 1] ==> x in s;
      FilterSame(s[..|s| - 1], p, q);
    }
  }

  /**
   * Partition identity: when every element's key is one of the
   * duplicate-free `keys`, the total of `f` equals the sum, over the keys,
   * of the subtotals `g` of the elements carrying each key.
   */
  lemma {:induction false} SumByKey<T, K>(s: seq<T>, f: T -> int, key: T -> K, keys: seq<K>, g: K -> int)
    requires NoDup(keys)
    requires forall i :: 0 <= i < |s| ==> key(s[i]) in keys
    requires forall i :: 0 <= i < |keys| ==> g(keys[i]) == Sum(Group(s, key, keys[i]), f)
    ensures Sum(s, f) == Sum(keys, g)
  {
    if |s| == 0 {
      SumCongruent(keys, g, k => 0);
      SumZero(keys);
    } else {
      var init := s[..|s| - 1];
      var y := s[|s| - 1];
      var before := k => Sum(Group(init, key, k), f);
      SumByKey(init, f, key, keys, before);
      var ind := k => if k == key(y) then f(y) else 0;
      forall i | 0 <= i < |keys|
        ensures g(keys[i]) == before(keys[i]) + ind(keys[i])
      {
        var k := keys[i];
        assert Group(s, key, k) == Group(init, key, k) + (if key(y) == k then [y] else []);
        SumConcat(Group(init, key, k), if key(y) == k then [y] else [], f);
      }
      SumAdd(keys, before, ind, g);
      SumIndicator(keys, key(y), f(y));
    }
  }

  /** Summing over a mapped sequence is summing any measure that agrees with the composition. */
  lemma SumOverMap<T, U>(s: seq<T>, f: T -> U, g: U -> int, h: T -> int)
    requires forall x :: g(f(x)) == h(x)
    ensures Sum(Map(s, f), g) == Sum(s, h)
  {
    SumPointwise(Map(s, f), s, g, h);
  }

  /** Sums over two sequences that agree pointwise are equal. */
  lemma {:induction false} SumPointwise<T, U>(a: seq<T>, b: seq<U>, f: T -> int, g: U -> int)
    requires |a| == |b|
    requires forall i :: 0 <= i < |a| ==> f(a[i]) == g(b[i])
    ensures Sum(a, f) == Sum(b, g)
  {
    if |a| > 0 {
      SumPointwise(a[..|a| - 1], b[..|b| - 1], f, g);
    }
  }

  /** Summing over a mapped sequence is summing the composition. */
  lemma {:induction false} SumMap<T, U>(s: seq<T>, f: T -> U, g: U -> int)
    ensures Sum(Map(s, f), g) == Sum(s, x => g(f(x)))
  {
    if |s| > 0 {
      SumMap(s[..|s| - 1], f, g);
      assert Map(s, f)[..|s| - 1] == Map(s[..|s| - 1], f);
    }
  }

  /** Counting by summing ones. */
  lemma {:induction false} SumOnes<T>(s: seq<T>)
    ensures Sum(s, x => 1) == |s|
  {
    if |s| > 0 {
      SumOnes(s[..|s| - 1]);
    }
  }

  /** Sums depend on the elements only, not on their order. */
  lemma {:induction false} SumPermutation<T>(a: seq<T>, b: seq<T>, f: T -> int)
    requires multiset(a) == multiset(b)
    ensures Sum(a, f) == Sum(b, f)
    decreases |a|
  {
    if |a| == 0 {
      assert |b| == |multiset(b)| == 0;
    } else {
      var x := a[|a| - 1];
      assert x in multiset(b);
      var i :| 0 <= i < |b| && b[i] == x;
      var rest := b[..i] + b[i + 1..];
      assert b == b[..i] + [x] + b[i + 1..];
      assert a == a[..|a| - 1] + [x];
      assert multiset(b) == multiset(b[..i]) + multiset{x} + multiset(b[i + 1..]);
      assert multiset(rest) == multiset(b[..i]) + multiset(b[i + 1..]);
      assert multiset(a) == multiset(a[..|a| - 1]) + multiset{x};
      assert multiset(a[..|a| - 1]) == multiset(a) - multiset{x};
      assert multiset(rest) == multiset(b) - multiset{x};
      SumPermutation(a[..|a| - 1], rest, f);
      SumConcat(b[..i] + [x], b[i + 1..], f);
      SumConcat(b[..i], [x], f);
      SumConcat(b[..i], b[i + 1..], f);
      assert [x][..0] == [];
    }
  }

  lemma {:induction false} SumZero<K>(keys: seq<K>)
    ensures Sum(keys, k => 0) == 0
  {
    if |keys| > 0 {
      SumZero(keys[..|keys| - 1]);
    }
  }

  /** A duplicate-free sequence drawn from `b` is no longer than `b`. */
  lemma {:induction false} NoDupShorter<T>(a: seq<T>, b: seq<T>)
    requires NoDup(a)
    requires forall i :: 0 <= i < |a| ==> a[i] in b
    ensures |a| <= |b|
    decreases |a|
  {
    if |a| > 0 {
      var x := a[|a| - 1];
      var i :| 0 <= i < |b| && b[i] == x;
      var rest := b[..i] + b[i + 1..];
      var init := a[..|a| - 1];
      forall j | 0 <= j < |init|
        ensures init[j] in rest
      {
        var k :| 0 <= k < |b| && b[k] == a[j];
        if k < i {
          assert rest[k] == b[k];
        } else {
          assert rest[k - 1] == b[k];
        }
      }
      NoDupShorter(init, rest);
    }
  }

  /** `s` back to front. */
  function Reversed<T>(s: seq<T>): (r: seq<T>)
    ensures |r| == |s|
    ensures forall i :: 0 <= i < |s| ==> r[i] == s[|s| - 1 - i]
  {
    if |s| == 0 then [] else [s[|s| - 1]] + Reversed(s[..|s| - 1])
  }

  lemma {:induction false} ReversedSameElements<T>(s: seq<T>)
    ensures multiset(Reversed(s)) == multiset(s)
  {
    if |s| > 0 {
      ReversedSameElements(s[..|s| - 1]);
      assert s == s[..|s| - 1] + [s[|s| - 1]];
    }
  }

  /**
   * A dictionary filled in sequence order, `d[key(x)] = val(x)`: a later
   * element overwrites an earlier one with the same key.
   */
  function ToMap<T, K, V>(s: seq<T>, key: T -> K, val: T -> V): map<K, V> {
    if |s| == 0 then map[] else ToMap(s[..|s| - 1], key, val)[key(s[|s| - 1]) := val(s[|s| - 1])]
  }

  /** The keys of `ToMap` are exactly the keys of the elements. */
  lemma {:induction false} ToMapKeys<T, K, V>(s: seq<T>, key: T -> K, val: T -> V)
    ensures forall i :: 0 <= i < |s| ==> key(s[i]) in ToMap(s, key, val)
    ensures forall k :: k in ToMap(s, key, val) ==> exists i :: 0 <= i < |s| && key(s[i]) == k
  {
    if |s| > 0 {
      var init := s[..|s| - 1];
      ToMapKeys(init, key, val);
      forall k | k in ToMap(s, key, val)
        ensures exists i :: 0 <= i < |s| && key(s[i]) == k
      {
        if k != key(s[|s| - 1]) {
          var i :| 0 <= i < |init| && key(init[i]) == k;
          assert s[i] == init[i];
        }
      }
    }
  }

  /** Under each key, `ToMap` holds the value of the last element with that key. */
  lemma {:induction false} ToMapLastWins<T, K, V>(s: seq<T>, key: T -> K, val: T -> V, i: nat)
    requires i < |s|
    requires forall j :: i < j < |s| ==> key(s[j]) != key(s[i])
    ensures key(s[i]) in ToMap(s, key, val)
    ensures ToMap(s, key, val)[key(s[i])] == val(s[i])
  {
    if i < |s| - 1 {
      var init := s[..|s| - 1];
      assert init[i] == s[i];
      ToMapLastWins(init, key, val, i);
    }
  }

  /** Every image of an element is among the distinct images. */
  lemma DistinctMapCovers<T, U(!new)>(s: seq<T>, f: T -> U)
    ensures forall i :: 0 <= i < |s| ==> f(s[i]) in Distinct(Map(s, f))
  {
    forall i | 0 <= i < |s| ensures f(s[i]) in Distinct(Map(s, f)) {
      assert Map(s, f)[i] == f(s[i]);
    }
  }

  /** Mapping a selection of `s` gives a selection of the images of `s`. */
  lemma MapMonotone<T, U>(sub: seq<T>, s: seq<T>, f: T -> U)
    requires forall i :: 0 <= i < |sub| ==> sub[i] in s
    ensures forall y :: y in Map(sub, f) ==> y in Map(s, f)
  {
    forall y | y in Map(sub, f) ensures y in Map(s, f) {
      var l :| 0 <= l < |sub| && Map(sub, f)[l] == y;
      var n :| 0 <= n < |s| && s[n] == sub[l];
      assert Map(s, f)[n] == y;
    }
  }

  /**
   * Drawing from fewer elements gives no more distinct images, and a
   * non-empty selection has at least one.
   */
  lemma DistinctMapBounded<T, U(!new)>(sub: seq<T>, s: seq<T>, f: T -> U)
    requires forall i :: 0 <= i < |sub| ==> sub[i] in s
    ensures 0 < |sub| ==> 0 < |Distinct(Map(sub, f))|
    ensures |Distinct(Map(sub, f))| <= |Distinct(Map(s, f))|
  {
    if 0 < |sub| {
      var m := Map(sub, f);
      assert m[0] in m;
      assert m[0] in Distinct(m);
    }
    DistinctImagesWithin(sub, s, f);
    NoDupShorter(Distinct(Map(sub, f)), Distinct(Map(s, f)));
  }

  /** Every distinct image of a selection is a distinct image of the whole. */
  lemma DistinctImagesWithin<T, U(!new)>(sub: seq<T>, s: seq<T>, f: T -> U)
    requires forall i :: 0 <= i < |sub| ==> sub[i] in s
    ensures forall k :: 0 <= k < |Distinct(Map(sub, f))| ==> Distinct(Map(sub, f))[k] in Distinct(Map(s, f))
  {
    var small := Distinct(Map(sub, f));
    MapMonotone(sub, s, f);
    forall k | 0 <= k < |small| ensures small[k] in Distinct(Map(s, f)) {
      var y := small[k];
      assert y in Map(sub, f);
      assert y in Map(s, f);
    }
  }
}
