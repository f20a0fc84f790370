/**
 * The two array methods the table view calls with a callback:
 * `Array.prototype.sort(comparefn)`, a stable sort, and
 * `Array.prototype.filter(predicate)`. Both act on a copy and return a new
 * sequence.
 */
module JsArray {

  /**
   * A consistent comparator in the sense of the ECMAScript `sort`
   * specification: swapping the arguments negates the result, and "compares
   * no greater than" is transitive.
   */
  ghost predicate Consistent<T(!new)>(cmp: (T, T) -> int)
  {
    && (forall a, b :: cmp(b, a) == -cmp(a, b))
    && (forall a, b, c :: cmp(a, b) <= 0 && cmp(b, c) <= 0 ==> cmp(a, c) <= 0)
  }

  /** Every earlier element compares no greater than every later one. */
  predicate SortedWith<T>(s: seq<T>, cmp: (T, T) -> int)
  {
    forall i, j :: 0 <= i < j < |s| ==> cmp(s[i], s[j]) <= 0
  }

  /** Inserts `x` before the first element it compares no greater than. */
  function Insert<T>(x: T, t: seq<T>, cmp: (T, T) -> int): (r: seq<T>)
    ensures |r| == |t| + 1
    ensures multiset(r) == multiset(t) + multiset{x}
  {
    if t == [] then [x]
    else if cmp(x, t[0]) <= 0 then [x] + t
    else
      assert t == [t[0]] + t[1..];
      [t[0]] + Insert(x, t[1..], cmp)
  }

  /** `[...s].sort(cmp)`, as a stable insertion sort: a permutation of `s`. */
  function SortWith<T>(s: seq<T>, cmp: (T, T) -> int): (r: seq<T>)
    ensures |r| == |s|
    ensures multiset(r) == multiset(s)
  {
    if s == [] then []
    else
      assert s == [s[0]] + s[1..];
      Insert(s[0], SortWith(s[1..], cmp), cmp)
  }

  /** The tail of a sorted sequence is sorted. */
  lemma SortedTail<T>(s: seq<T>, cmp: (T, T) -> int)
    requires s != [] && SortedWith(s, cmp)
    ensures SortedWith(s[1..], cmp)
  {
    var tail := s[1..];
    forall i, j | 0 <= i < j < |tail|
      ensures cmp(tail[i], tail[j]) <= 0
    {
      assert tail[i] == s[i + 1] && tail[j] == s[j + 1];
    }
  }

  /** Every element of `s` compares no less than `y`. */
  predicate AllAbove<T>(y: T, s: seq<T>, cmp: (T, T) -> int)
  {
    forall j :: 0 <= j < |s| ==> cmp(y, s[j]) <= 0
  }

  /** A sorted sequence with an element in front that is below all of it is sorted. */
  lemma SortedCons<T>(y: T, s: seq<T>, cmp: (T, T) -> int)
    requires SortedWith(s, cmp) && AllAbove(y, s, cmp)
    ensures SortedWith([y] + s, cmp)
  {
    var r := [y] + s;
    forall i, j | 0 <= i < j < |r|
      ensures cmp(r[i], r[j]) <= 0
    {
      assert r[j] == s[j - 1];
      if i > 0 {
        assert r[i] == s[i - 1];
      }
    }
  }

  /** An element below the head of a sorted sequence is below all of it. */
  lemma BelowHead<T(!new)>(x: T, t: seq<T>, cmp: (T, T) -> int)
    requires Consistent(cmp) && t != [] && SortedWith(t, cmp) && cmp(x, t[0]) <= 0
    ensures AllAbove(x, t, cmp)
  {
    forall j | 0 <= j < |t|
      ensures cmp(x, t[j]) <= 0
    {
      if j > 0 {
        assert cmp(t[0], t[j]) <= 0;
      }
    }
  }

  /** The head of a sorted sequence, if below `x`, stays below everything after inserting `x` into the tail. */
  lemma HeadBelowInsert<T(!new)>(x: T, t: seq<T>, cmp: (T, T) -> int)
    requires Consistent(cmp) && t != [] && SortedWith(t, cmp) && cmp(x, t[0]) > 0
    ensures AllAbove(t[0], Insert(x, t[1..], cmp), cmp)
  {
    var tail := t[1..];
    var rest := Insert(x, tail, cmp);
    assert cmp(t[0], x) < 0;
    forall j | 0 <= j < |rest|
      ensures cmp(t[0], rest[j]) <= 0
    {
      var e := rest[j];
      assert e in multiset(rest);
      if e != x {
        assert e in multiset(tail);
        var m :| 0 <= m < |tail| && tail[m] == e;
        assert cmp(t[0], t[m + 1]) <= 0;
      }
    }
  }

  lemma {:induction false} InsertSorted<T(!new)>(x: T, t: seq<T>, cmp: (T, T) -> int)
    requires Consistent(cmp) && SortedWith(t, cmp)
    ensures SortedWith(Insert(x, t, cmp), cmp)
  {
    if t == [] {
    } else if cmp(x, t[0]) <= 0 {
      BelowHead(x, t, cmp);
      SortedCons(x, t, cmp);
    } else {
      SortedTail(t, cmp);
      InsertSorted(x, t[1..], cmp);
      HeadBelowInsert(x, t, cmp);
      SortedCons(t[0], Insert(x, t[1..], cmp), cmp);
    }
  }

  /** With a consistent comparator the result of the sort is ordered by it. */
  lemma {:induction false} SortWithSorted<T(!new)>(s: seq<T>, cmp: (T, T) -> int)
    requires Consistent(cmp)
    ensures SortedWith(SortWith(s, cmp), cmp)
  {
    if s != [] {
      SortWithSorted(s[1..], cmp);
      InsertSorted(s[0], SortWith(s[1..], cmp), cmp);
    }
  }

  /** The elements of `s` that compare equal to `y`, in their order in `s`. */
  function EquivFilter<T>(s: seq<T>, cmp: (T, T) -> int, y: T): seq<T>
  {
    if s == [] then []
    else (if cmp(s[0], y) == 0 then [s[0]] else []) + EquivFilter(s[1..], cmp, y)
  }

  /** Two elements that both compare equal to `y` compare equal to each other. */
  lemma EquivByWay<T(!new)>(a: T, b: T, y: T, cmp: (T, T) -> int)
    requires Consistent(cmp) && cmp(a, y) == 0 && cmp(b, y) == 0
    ensures cmp(a, b) == 0
  {
    assert cmp(y, b) == 0;
    assert cmp(a, b) <= 0;
    assert cmp(b, a) <= 0;
  }

  /** `EquivFilter` of a sequence with a given first element. */
  lemma EquivFilterCons<T>(h: T, s: seq<T>, cmp: (T, T) -> int, y: T)
    ensures EquivFilter([h] + s, cmp, y) == (if cmp(h, y) == 0 then [h] else []) + EquivFilter(s, cmp, y)
  {
    var r := [h] + s;
    assert r[0] == h && r[1..] == s;
  }

  /** A non-empty sequence is its head followed by its tail. */
  lemma HeadTail<T>(t: seq<T>)
    requires t != []
    ensures t == [t[0]] + t[1..]
  {
  }

  /** Two prefixes, one of them empty, can be put in front in either order. */
  lemma PrefixesCommute<T>(a: seq<T>, b: seq<T>, f: seq<T>)
    requires a == [] || b == []
    ensures a + (b + f) == b + (a + f)
  {
    if a == [] {
      assert a + (b + f) == b + f;
      assert a + f == f;
    } else {
      assert b + f == f;
      assert b + (a + f) == a + f;
    }
  }

  lemma {:induction false} InsertEquivFilter<T>(x: T, t: seq<T>, cmp: (T, T) -> int, y: T)
    requires cmp(x, y) == 0 ==> forall e :: e in t && cmp(e, y) == 0 ==> cmp(x, e) == 0
    ensures EquivFilter(Insert(x, t, cmp), cmp, y)
         == (if cmp(x, y) == 0 then [x] else []) + EquivFilter(t, cmp, y)
  {
    if t == [] {
      EquivFilterCons(x, [], cmp, y);
      assert [x] + [] == [x];
    } else if cmp(x, t[0]) <= 0 {
      EquivFilterCons(x, t, cmp, y);
    } else {
      var tail := t[1..];
      var f := EquivFilter(tail, cmp, y);
      var hx := if cmp(x, y) == 0 then [x] else [];
      var h0 := if cmp(t[0], y) == 0 then [t[0]] else [];
      var rest := Insert(x, tail, cmp);
      assert Insert(x, t, cmp) == [t[0]] + rest;
      EquivFilterCons(t[0], rest, cmp, y);
      assert cmp(x, y) == 0 ==> forall e :: e in tail && cmp(e, y) == 0 ==> cmp(x, e) == 0 by {
        assert forall e :: e in tail ==> e in t;
      }
      InsertEquivFilter(x, tail, cmp, y);
      assert EquivFilter(rest, cmp, y) == hx + f;
      HeadTail(t);
      EquivFilterCons(t[0], tail, cmp, y);
      assert EquivFilter(t, cmp, y) == h0 + f;
      assert t[0] in t;
      PrefixesCommute(h0, hx, f);
    }
  }

  /**
   * Stability: for every `y`, the elements comparing equal to `y` keep their
   * relative order.
   */
  lemma {:induction false} SortWithStable<T(!new)>(s: seq<T>, cmp: (T, T) -> int, y: T)
    requires Consistent(cmp)
    ensures EquivFilter(SortWith(s, cmp), cmp, y) == EquivFilter(s, cmp, y)
  {
    if s != [] {
      SortWithStable(s[1..], cmp, y);
      var sorted := SortWith(s[1..], cmp);
      if cmp(s[0], y) == 0 {
        forall e | e in sorted && cmp(e, y) == 0
          ensures cmp(s[0], e) == 0
        {
          EquivByWay(s[0], e, y, cmp);
        }
      }
      InsertEquivFilter(s[0], sorted, cmp, y);
    }
  }

  /** Sorting an already sorted sequence leaves it as it is. */
  lemma {:induction false} SortedIsFixedPoint<T>(s: seq<T>, cmp: (T, T) -> int)
    requires SortedWith(s, cmp)
    ensures SortWith(s, cmp) == s
  {
    if s != [] {
      var tail := s[1..];
      SortedTail(s, cmp);
      SortedIsFixedPoint(tail, cmp);
      assert s == [s[0]] + tail;
      if tail == [] {
        assert Insert(s[0], tail, cmp) == [s[0]];
      } else {
        assert tail[0] == s[1];
        assert Insert(s[0], tail, cmp) == [s[0]] + tail;
      }
    }
  }

  /** `s.filter(keep)`: the elements for which `keep` holds, in order. */
  function FilterWith<T>(s: seq<T>, keep: T -> bool): seq<T>
  {
    if s == [] then []
    else (if keep(s[0]) then [s[0]] else []) + FilterWith(s[1..], keep)
  }

  /** `a` is `b` with some elements left out, the rest in their order. */
  predicate IsSubsequence<T(==)>(a: seq<T>, b: seq<T>)
    decreases |b|
  {
    if a == [] then true
    else if b == [] then false
    else (a[0] == b[0] && IsSubsequence(a[1..], b[1..])) || IsSubsequence(a, b[1..])
  }

  /** The filter never lengthens its input, and keeps only elements satisfying `keep`. */
  lemma {:induction false} FilterWithSound<T>(s: seq<T>, keep: T -> bool)
    ensures |FilterWith(s, keep)| <= |s|
    ensures forall x :: x in FilterWith(s, keep) ==> keep(x)
  {
    if s != [] {
      FilterWithSound(s[1..], keep);
    }
  }

  /** Each element satisfying `keep` is kept as often as it occurs; the others are dropped. */
  lemma {:induction false} FilterWithCount<T>(s: seq<T>, keep: T -> bool)
    ensures forall x :: multiset(FilterWith(s, keep))[x] == if keep(x) then multiset(s)[x] else 0
  {
    if s != [] {
      FilterWithCount(s[1..], keep);
      HeadTail(s);
      var h := if keep(s[0]) then [s[0]] else [];
      assert multiset(s) == multiset{s[0]} + multiset(s[1..]);
      assert multiset(h + FilterWith(s[1..], keep)) == multiset(h) + multiset(FilterWith(s[1..], keep));
    }
  }

  /** The kept elements are in their order in the input. */
  lemma {:induction false} FilterWithOrdered<T>(s: seq<T>, keep: T -> bool)
    ensures IsSubsequence(FilterWith(s, keep), s)
  {
    if s != [] {
      FilterWithOrdered(s[1..], keep);
      var rest := FilterWith(s[1..], keep);
      if keep(s[0]) {
        var r := [s[0]] + rest;
        assert r[0] == s[0] && r[1..] == rest;
      } else {
        assert FilterWith(s, keep) == rest;
      }
    }
  }

  /** Every element of a subsequence is an element of the whole. */
  lemma {:induction false} SubsequenceElements<T>(a: seq<T>, b: seq<T>)
    requires IsSubsequence(a, b)
    ensures forall x :: x in a ==> x in b
    decreases |b|
  {
    if a != [] {
      if a[0] == b[0] && IsSubsequence(a[1..], b[1..]) {
        SubsequenceElements(a[1..], b[1..]);
        HeadTail(a);
      } else {
        SubsequenceElements(a, b[1..]);
      }
    }
  }

  /** A subsequence of an ordered sequence is ordered. */
  lemma {:induction false} SubsequenceSorted<T>(a: seq<T>, b: seq<T>, cmp: (T, T) -> int)
    requires IsSubsequence(a, b) && SortedWith(b, cmp)
    ensures SortedWith(a, cmp)
    decreases |b|
  {
    if a != [] {
      SortedTail(b, cmp);
      if a[0] == b[0] && IsSubsequence(a[1..], b[1..]) {
        SubsequenceSorted(a[1..], b[1..], cmp);
        SubsequenceElements(a[1..], b[1..]);
        forall j | 0 <= j < |a[1..]|
          ensures cmp(a[0], a[1..][j]) <= 0
        {
          assert a[1..][j] in b[1..];
          var m :| 0 <= m < |b[1..]| && b[1..][m] == a[1..][j];
          assert b[1..][m] == b[m + 1];
        }
        SortedCons(a[0], a[1..], cmp);
        HeadTail(a);
      } else {
        SubsequenceSorted(a, b[1..], cmp);
      }
    }
  }

  /** Two sequences with the same multiset have the same elements. */
  lemma SameElements<T>(a: seq<T>, b: seq<T>)
    requires multiset(a) == multiset(b)
    ensures forall x :: x in a <==> x in b
  {
    forall x
      ensures x in a <==> x in b
    {
      assert x in a <==> x in multiset(a);
      assert x in b <==> x in multiset(b);
    }
  }
}
