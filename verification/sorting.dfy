/**
 * Comparison-based sorting as the source uses it: Python's `sorted` /
 * `list.sort` and JavaScript's `Array.prototype.sort` are both stable, so a
 * sort is modelled as a stable insertion sort under a "sorts at or before"
 * relation `le` that is a total preorder (ties allowed).
 *
 * Also defines Python's string order (lexicographic by code point) and the
 * comparator builders the modules use.
 */
module Sorting {
  import Seqs

  /** `le` is total and transitive: a sound comparator with possible ties. */
  ghost predicate TotalPreorder<T(!new)>(le: (T, T) -> bool) {
    && (forall a, b :: le(a, b) || le(b, a))
    && (forall a, b, c :: le(a, b) && le(b, c) ==> le(a, c))
  }

  /** Every earlier element sorts at or before every later one. */
  predicate Sorted<T>(s: seq<T>, le: (T, T) -> bool) {
    forall i, j :: 0 <= i < j < |s| ==> le(s[i], s[j])
  }

  /** Inserts `x` after every element that does not sort strictly after it. */
  function Insert<T>(x: T, s: seq<T>, le: (T, T) -> bool): (r: seq<T>)
    ensures multiset(r) == multiset(s) + multiset{x}
    ensures |r| == |s| + 1
  {
    if |s| == 0 then [x]
    else if !le(s[0], x) then [x] + s
    else
      assert s == [s[0]] + s[1..];
      [s[0]] + Insert(x, s[1..], le)
  }

  /** Stable sort of `s` under `le`; the result is a permutation of `s`. */
  function SortBy<T>(s: seq<T>, le: (T, T) -> bool): (r: seq<T>)
    ensures multiset(r) == multiset(s)
    ensures |r| == |s|
  {
    if |s| == 0 then []
    else
      assert s == s[..|s| - 1] + [s[|s| - 1]];
      Insert(s[|s| - 1], SortBy(s[..|s| - 1], le), le)
  }

  // ---------------------------------------------------------------------
  // Sorting lemmas

  lemma {:induction false} InsertSorted<T(!new)>(x: T, s: seq<T>, le: (T, T) -> bool)
    requires TotalPreorder(le)
    requires Sorted(s, le)
    ensures Sorted(Insert(x, s, le), le)
  {
    if |s| == 0 {
    } else if !le(s[0], x) {
      assert le(x, s[0]);
    } else {
      var tail := Insert(x, s[1..], le);
      InsertSorted(x, s[1..], le);
      forall j | 0 <= j < |tail|
        ensures le(s[0], tail[j])
      {
        assert tail[j] in multiset(tail);
        assert tail[j] == x || tail[j] in multiset(s[1..]);
        if tail[j] != x {
          var k :| 0 <= k < |s[1..]| && s[1..][k] == tail[j];
          assert s[1..][k] == s[k + 1];
        }
      }
    }
  }

  /** The result of `SortBy` is sorted whenever `le` is a total preorder. */
  lemma {:induction false} SortBySorted<T(!new)>(s: seq<T>, le: (T, T) -> bool)
    requires TotalPreorder(le)
    ensures Sorted(SortBy(s, le), le)
  {
    if |s| > 0 {
      SortBySorted(s[..|s| - 1], le);
      InsertSorted(s[|s| - 1], SortBy(s[..|s| - 1], le), le);
    }
  }

  lemma {:induction false} InsertAtEnd<T>(x: T, s: seq<T>, le: (T, T) -> bool)
    requires forall i :: 0 <= i < |s| ==> le(s[i], x)
    ensures Insert(x, s, le) == s + [x]
  {
    if |s| > 0 {
      InsertAtEnd(x, s[1..], le);
      assert [s[0]] + (s[1..] + [x]) == s + [x];
    }
  }

  /**
   * Sorting an already sorted sequence changes nothing (stability); in
   * particular a comparator that ties everything keeps the input order.
   */
  lemma {:induction false} SortByFixpoint<T>(s: seq<T>, le: (T, T) -> bool)
    requires Sorted(s, le)
    ensures SortBy(s, le) == s
  {
    if |s| > 0 {
      var init := s[..|s| - 1];
      SortByFixpoint(init, le);
      InsertAtEnd(s[|s| - 1], init, le);
      assert init + [s[|s| - 1]] == s;
    }
  }

  /** The elements that tie with `y` under `le`. */
  function Tied<T>(le: (T, T) -> bool, y: T): T -> bool {
    x => le(x, y) && le(y, x)
  }

  /**
   * When `p(x)` and every element up to a `p`-element sorts at or before `x`,
   * inserting `x` puts it after every `p`-element.
   */
  lemma {:induction false} InsertFilter<T>(x: T, t: seq<T>, le: (T, T) -> bool, p: T -> bool)
    requires p(x) ==> forall i, j :: 0 <= i <= j < |t| && p(t[j]) ==> le(t[i], x)
    ensures Seqs.Filter(Insert(x, t, le), p) == Seqs.Filter(t, p) + (if p(x) then [x] else [])
  {
    var tail := if p(x) then [x] else [];
    if |t| == 0 {
      assert [x][..0] == [];
    } else if !le(t[0], x) {
      Seqs.FilterCons(x, t, p);
      if p(x) {
        Seqs.FilterEmpty(t, p);
      }
    } else {
      var rest := t[1..];
      if p(x) {
        forall i, j | 0 <= i <= j < |rest| && p(rest[j]) ensures le(rest[i], x) {
          assert rest[i] == t[i + 1] && rest[j] == t[j + 1];
        }
      }
      var head := if p(t[0]) then [t[0]] else [];
      assert Seqs.Filter(Insert(x, t, le), p) == head + (Seqs.Filter(rest, p) + tail) by {
        InsertFilter(x, rest, le, p);
        Seqs.FilterCons(t[0], Insert(x, rest, le), p);
      }
      Seqs.FilterHead(t, p);
      Seqs.AppendAssoc(head, Seqs.Filter(rest, p), tail);
    }
  }

  /**
   * Inserting `x` into a sorted sequence puts it after every element it ties
   * with: among the elements tied with any `y`, `x` comes last.
   */
  lemma InsertStable<T(!new)>(x: T, t: seq<T>, le: (T, T) -> bool, y: T)
    requires TotalPreorder(le)
    requires Sorted(t, le)
    ensures Seqs.Filter(Insert(x, t, le), Tied(le, y))
         == Seqs.Filter(t, Tied(le, y)) + (if Tied(le, y)(x) then [x] else [])
  {
    var p := Tied(le, y);
    if p(x) {
      forall i, j | 0 <= i <= j < |t| && p(t[j]) ensures le(t[i], x) {
        assert le(t[i], t[j]) && le(t[j], y) && le(y, x);
      }
    }
    InsertFilter(x, t, le, p);
  }

  /**
   * `SortBy` is stable: the elements that tie with any `y` come out in the
   * order they came in.
   */
  lemma {:induction false} SortByStable<T(!new)>(s: seq<T>, le: (T, T) -> bool, y: T)
    requires TotalPreorder(le)
    ensures Seqs.Filter(SortBy(s, le), Tied(le, y)) == Seqs.Filter(s, Tied(le, y))
  {
    if |s| > 0 {
      var init, last, p := s[..|s| - 1], s[|s| - 1], Tied(le, y);
      var tail := if p(last) then [last] else [];
      assert Seqs.Filter(SortBy(s, le), p) == Seqs.Filter(SortBy(init, le), p) + tail by {
        SortBySorted(init, le);
        InsertStable(last, SortBy(init, le), le, y);
      }
      assert Seqs.Filter(s, p) == Seqs.Filter(init, p) + tail;
      SortByStable(init, le, y);
    }
  }

  /** Every element of the sorted output comes from the input and vice versa. */
  lemma SortBySameElements<T>(s: seq<T>, le: (T, T) -> bool)
    ensures forall i :: 0 <= i < |s| ==> s[i] in SortBy(s, le)
    ensures forall i :: 0 <= i < |SortBy(s, le)| ==> SortBy(s, le)[i] in s
  {
    var r := SortBy(s, le);
    forall i | 0 <= i < |s| ensures s[i] in r {
      assert s[i] in multiset(s);
    }
    forall i | 0 <= i < |r| ensures r[i] in s {
      assert r[i] in multiset(r);
    }
  }

  /** Every element of the input is in the sorted output. */
  lemma SortByKeeps<T>(s: seq<T>, le: (T, T) -> bool, x: T)
    requires x in s
    ensures x in SortBy(s, le)
  {
    assert x in multiset(s);
  }

  /** An element of the sorted output sits at some position of the input. */
  lemma SortByFrom<T>(s: seq<T>, le: (T, T) -> bool, x: T)
    requires x in SortBy(s, le)
    ensures exists i :: 0 <= i < |s| && s[i] == x
  {
    assert x in multiset(SortBy(s, le));
  }

  /** The first element of the sorted output is a least one, the last a greatest one. */
  lemma SortByEnds<T(!new)>(s: seq<T>, le: (T, T) -> bool)
    requires TotalPreorder(le) && |s| > 0
    ensures SortBy(s, le)[0] in s && SortBy(s, le)[|s| - 1] in s
    ensures forall i :: 0 <= i < |s| ==> le(SortBy(s, le)[0], s[i]) && le(s[i], SortBy(s, le)[|s| - 1])
  {
    var r := SortBy(s, le);
    SortBySorted(s, le);
    SortBySameElements(s, le);
    forall i | 0 <= i < |r| ensures le(r[i], r[i]) {
      var x := r[i];
      assert le(x, x);
    }
    SortedEnds(r, le);
  }

  lemma SortedEnds<T>(r: seq<T>, le: (T, T) -> bool)
    requires Sorted(r, le) && |r| > 0
    requires forall i :: 0 <= i < |r| ==> le(r[i], r[i])
    ensures forall x :: x in r ==> le(r[0], x) && le(x, r[|r| - 1])
  {
    forall x | x in r ensures le(r[0], x) && le(x, r[|r| - 1]) {
      var k :| 0 <= k < |r| && r[k] == x;
    }
  }

  lemma SortedHead<T>(a: seq<T>, b: seq<T>, le: (T, T) -> bool)
    requires Sorted(a, le) && Sorted(b, le) && |a| > 0 && |b| > 0
    requires multiset(a) == multiset(b)
    requires forall x, y :: le(x, y) && le(y, x) ==> x == y
    ensures a[0] == b[0]
  {
    assert b[0] in multiset(a) && a[0] in multiset(b);
    var k :| 0 <= k < |a| && a[k] == b[0];
    var l :| 0 <= l < |b| && b[l] == a[0];
    if k != 0 && l != 0 {
      assert le(a[0], b[0]) && le(b[0], a[0]);
    }
  }

  /**
   * Under an order with no ties between distinct elements, a sorted
   * arrangement of given elements is unique.
   */
  lemma {:induction false} SortedUnique<T>(a: seq<T>, b: seq<T>, le: (T, T) -> bool)
    requires Sorted(a, le) && Sorted(b, le)
    requires multiset(a) == multiset(b)
    requires forall x, y :: le(x, y) && le(y, x) ==> x == y
    ensures a == b
    decreases |a|
  {
    assert |a| == |b| by {
      assert |multiset(a)| == |a| && |multiset(b)| == |b|;
    }
    if |a| > 0 {
      SortedHead(a, b, le);
      TailMultiset(a);
      TailMultiset(b);
      SortedTail(a, le);
      SortedTail(b, le);
      SortedUnique(a[1..], b[1..], le);
      assert a == [a[0]] + a[1..] && b == [b[0]] + b[1..];
    }
  }

  lemma SortedTail<T>(a: seq<T>, le: (T, T) -> bool)
    requires Sorted(a, le) && |a| > 0
    ensures Sorted(a[1..], le)
  {
    forall i, j | 0 <= i < j < |a| - 1 ensures le(a[1..][i], a[1..][j]) {
      assert a[1..][i] == a[i + 1] && a[1..][j] == a[j + 1];
    }
  }

  lemma TailMultiset<T>(a: seq<T>)
    requires |a| > 0
    ensures multiset(a[1..]) == multiset(a) - multiset{a[0]}
  {
    assert a == [a[0]] + a[1..];
  }

  /** Sorting keeps every sum. */
  lemma SortBySum<T>(s: seq<T>, le: (T, T) -> bool, f: T -> int)
    ensures Seqs.Sum(SortBy(s, le), f) == Seqs.Sum(s, f)
  {
    Seqs.SumPermutation(SortBy(s, le), s, f);
  }

  /** Sorting a duplicate-free sequence leaves it duplicate-free. */
  lemma SortByNoDup<T>(s: seq<T>, le: (T, T) -> bool)
    requires Seqs.NoDup(s)
    ensures Seqs.NoDup(SortBy(s, le))
  {
    var r := SortBy(s, le);
    forall x ensures multiset(r)[x] <= 1 {
      MultisetAtMostOnce(s, x);
    }
    NoDupFromCounts(r);
  }

  /** A sequence in which nothing occurs twice has no duplicates. */
  lemma {:induction false} NoDupFromCounts<T>(r: seq<T>)
    requires forall x :: multiset(r)[x] <= 1
    ensures Seqs.NoDup(r)
  {
    if |r| > 0 {
      var init, x := r[..|r| - 1], r[|r| - 1];
      assert r == init + [x];
      assert multiset(r) == multiset(init) + multiset{x};
      forall y ensures multiset(init)[y] <= 1 {
        assert multiset(init)[y] <= multiset(r)[y];
      }
      NoDupFromCounts(init);
      assert multiset(r)[x] == multiset(init)[x] + multiset{x}[x];
      assert multiset(init)[x] == 0;
      forall i | 0 <= i < |init| ensures init[i] != x {
        assert init[i] in multiset(init);
      }
    }
  }

  /** Sorting keeps the keys of a sequence distinct when they were distinct. */
  lemma SortByNoDupKeys<T, K>(s: seq<T>, le: (T, T) -> bool, key: T -> K)
    requires Seqs.NoDup(Seqs.Map(s, key))
    ensures Seqs.NoDup(Seqs.Map(SortBy(s, le), key))
  {
    var r := SortBy(s, le);
    Seqs.NoDupMapIff(s, key);
    SortByNoDup(s, le);
    SortBySameElements(s, le);
    Seqs.NoDupMapIff(r, key);
  }

  lemma {:induction false} MultisetAtMostOnce<T>(s: seq<T>, x: T)
    requires Seqs.NoDup(s)
    ensures multiset(s)[x] <= 1
  {
    if |s| > 0 {
      var init := s[..|s| - 1];
      assert s == init + [s[|s| - 1]];
      MultisetAtMostOnce(init, x);
      if s[|s| - 1] == x {
        assert x !in init;
      }
    }
  }

  /** Sorting by a descending integer key puts larger keys first. */
  lemma SortByIntDescOrdered<T(!new)>(s: seq<T>, key: T -> int)
    ensures forall i, j :: 0 <= i < j < |SortBy(s, ByIntDesc(key))| ==>
      key(SortBy(s, ByIntDesc(key))[i]) >= key(SortBy(s, ByIntDesc(key))[j])
  {
    var r := SortBy(s, ByIntDesc(key));
    ByIntPreorder(key);
    SortBySorted(s, ByIntDesc(key));
    forall i, j | 0 <= i < j < |r| ensures key(r[i]) >= key(r[j]) {
      assert ByIntDesc(key)(r[i], r[j]);
    }
  }

  /** Sorting by a descending real key puts larger keys first. */
  lemma SortByRealDescOrdered<T(!new)>(s: seq<T>, key: T -> real)
    ensures forall i, j :: 0 <= i < j < |SortBy(s, ByRealDesc(key))| ==>
      key(SortBy(s, ByRealDesc(key))[i]) >= key(SortBy(s, ByRealDesc(key))[j])
  {
    var r := SortBy(s, ByRealDesc(key));
    ByRealPreorder(key);
    SortBySorted(s, ByRealDesc(key));
    forall i, j | 0 <= i < j < |r| ensures key(r[i]) >= key(r[j]) {
      assert ByRealDesc(key)(r[i], r[j]);
    }
  }

  /** Sorting distinct strings puts them in strictly increasing order. */
  lemma SortStringsStrict(s: seq<string>)
    requires Seqs.NoDup(s)
    ensures forall i, j :: 0 <= i < j < |SortBy(s, StrLe)| ==>
      StrLe(SortBy(s, StrLe)[i], SortBy(s, StrLe)[j]) && SortBy(s, StrLe)[i] != SortBy(s, StrLe)[j]
  {
    StrLePreorder();
    SortBySorted(s, StrLe);
    SortByNoDup(s, StrLe);
  }

  /** A sorted sequence read backwards is sorted by the reversed order. */
  lemma ReversedSorted<T>(a: seq<T>, le: (T, T) -> bool)
    requires Sorted(a, le)
    ensures Sorted(Seqs.Reversed(a), Reverse(le))
  {
    var r := Seqs.Reversed(a);
    forall i, j | 0 <= i < j < |r| ensures Reverse(le)(r[i], r[j]) {
      assert r[i] == a[|a| - 1 - i] && r[j] == a[|a| - 1 - j];
    }
  }

  /** Sorting strings latest first gives the ascending order read backwards. */
  lemma SortStringsDescending(s: seq<string>)
    ensures SortBy(s, Reverse(StrLe)) == Seqs.Reversed(SortBy(s, StrLe))
  {
    var asc, desc := SortBy(s, StrLe), SortBy(s, Reverse(StrLe));
    StrLePreorder();
    SortBySorted(s, StrLe);
    ReversePreorder(StrLe);
    SortBySorted(s, Reverse(StrLe));
    Seqs.ReversedSameElements(asc);
    ReversedSorted(asc, StrLe);
    forall x, y | Reverse(StrLe)(x, y) && Reverse(StrLe)(y, x) ensures x == y {
      StrLeAntisym(x, y);
    }
    SortedUnique(desc, Seqs.Reversed(asc), Reverse(StrLe));
  }

  // ---------------------------------------------------------------------
  // Python string order

  /** Python's `<=` on `str`: lexicographic by code point, a prefix first. */
  predicate StrLe(a: string, b: string) {
    if |a| == 0 then true
    else if |b| == 0 then false
    else if a[0] != b[0] then a[0] < b[0]
    else StrLe(a[1..], b[1..])
  }

  lemma {:induction false} StrLeTotal(a: string, b: string)
    ensures StrLe(a, b) || StrLe(b, a)
  {
    if |a| > 0 && |b| > 0 && a[0] == b[0] {
      StrLeTotal(a[1..], b[1..]);
    }
  }

  lemma {:induction false} StrLeTrans(a: string, b: string, c: string)
    requires StrLe(a, b) && StrLe(b, c)
    ensures StrLe(a, c)
  {
    if |a| > 0 && |b| > 0 && |c| > 0 && a[0] == b[0] && b[0] == c[0] {
      StrLeTrans(a[1..], b[1..], c[1..]);
    }
  }

  lemma {:induction false} StrLeAntisym(a: string, b: string)
    requires StrLe(a, b) && StrLe(b, a)
    ensures a == b
  {
    if |a| > 0 && |b| > 0 {
      StrLeAntisym(a[1..], b[1..]);
      assert a == [a[0]] + a[1..] && b == [b[0]] + b[1..];
    }
  }

  lemma StrLePreorder()
    ensures TotalPreorder(StrLe)
  {
    forall a, b ensures StrLe(a, b) || StrLe(b, a) {
      StrLeTotal(a, b);
    }
    forall a, b, c | StrLe(a, b) && StrLe(b, c) ensures StrLe(a, c) {
      StrLeTrans(a, b, c);
    }
  }

  // ---------------------------------------------------------------------
  // Comparator builders

  /** Ascending by an integer key. */
  function ByInt<T>(key: T -> int): (T, T) -> bool {
    (a, b) => key(a) <= key(b)
  }

  /** Descending by an integer key. */
  function ByIntDesc<T>(key: T -> int): (T, T) -> bool {
    (a, b) => key(a) >= key(b)
  }

  /** Descending by a real key. */
  function ByRealDesc<T>(key: T -> real): (T, T) -> bool {
    (a, b) => key(a) >= key(b)
  }

  /** Ascending by a real key. */
  function ByReal<T>(key: T -> real): (T, T) -> bool {
    (a, b) => key(a) <= key(b)
  }

  /** Ascending by a string key in Python order. */
  function ByStr<T>(key: T -> string): (T, T) -> bool {
    (a, b) => StrLe(key(a), key(b))
  }

  /** Descending by a string key in Python order. */
  function ByStrDesc<T>(key: T -> string): (T, T) -> bool {
    (a, b) => StrLe(key(b), key(a))
  }

  /** The reverse of a comparator. */
  function Reverse<T>(le: (T, T) -> bool): (T, T) -> bool {
    (a, b) => le(b, a)
  }

  /** Lexicographic combination: `first` decides, `second` breaks its ties. */
  function ThenBy<T>(first: (T, T) -> bool, second: (T, T) -> bool): (T, T) -> bool {
    (a, b) => first(a, b) && (!first(b, a) || second(a, b))
  }

  /** A sort direction: ascending keeps a comparator, descending reverses it. */
  datatype Direction = Asc | Desc

  function Oriented<T>(le: (T, T) -> bool, dir: Direction): (T, T) -> bool {
    if dir == Asc then le else Reverse(le)
  }

  lemma ByIntPreorder<T(!new)>(key: T -> int)
    ensures TotalPreorder(ByInt(key)) && TotalPreorder(ByIntDesc(key))
  {}

  lemma ByRealPreorder<T(!new)>(key: T -> real)
    ensures TotalPreorder(ByReal(key)) && TotalPreorder(ByRealDesc(key))
  {}

  lemma ByStrPreorder<T(!new)>(key: T -> string)
    ensures TotalPreorder(ByStr(key)) && TotalPreorder(ByStrDesc(key))
  {
    forall a, b ensures StrLe(key(a), key(b)) || StrLe(key(b), key(a)) {
      StrLeTotal(key(a), key(b));
    }
    forall a, b, c | StrLe(key(a), key(b)) && StrLe(key(b), key(c))
      ensures StrLe(key(a), key(c))
    {
      StrLeTrans(key(a), key(b), key(c));
    }
    forall a, b, c | StrLe(key(b), key(a)) && StrLe(key(c), key(b))
      ensures StrLe(key(c), key(a))
    {
      StrLeTrans(key(c), key(b), key(a));
    }
  }

  lemma ReversePreorder<T(!new)>(le: (T, T) -> bool)
    requires TotalPreorder(le)
    ensures TotalPreorder(Reverse(le))
  {}

  lemma ThenByPreorder<T(!new)>(first: (T, T) -> bool, second: (T, T) -> bool)
    requires TotalPreorder(first) && TotalPreorder(second)
    ensures TotalPreorder(ThenBy(first, second))
  {}

  lemma OrientedPreorder<T(!new)>(le: (T, T) -> bool, dir: Direction)
    requires TotalPreorder(le)
    ensures TotalPreorder(Oriented(le, dir))
  {
    ReversePreorder(le);
  }
}
