/** Stable sorting by a comparator, as JavaScript's `Array.prototype.sort`
    does it since ES2019. A comparator `cmp(a, b)` of the source is
    represented by the relation `less(a, b)` = "cmp(a, b) < 0". When that
    relation is a strict weak order every stable sort yields the same
    sequence, so a functional insertion sort is a faithful model. */
module Sorting {
  import Text

  /** Irreflexive, transitive, and "not less" is transitive too, which is
      what any consistent numeric comparator yields. */
  ghost predicate StrictWeakOrder<T(!new)>(less: (T, T) -> bool) {
    && (forall a :: !less(a, a))
    && (forall a, b, c :: less(a, b) && less(b, c) ==> less(a, c))
    && (forall a, b, c {:trigger less(a, c), less(a, b)} {:trigger less(a, c), less(b, c)} ::
          less(a, c) ==> less(a, b) || less(b, c))
  }

  /** Neither precedes the other: the comparator returns 0. */
  predicate Tied<T>(less: (T, T) -> bool, a: T, b: T) {
    !less(a, b) && !less(b, a)
  }

  /** No element strictly precedes an element placed before it. */
  ghost predicate SortedBy<T>(s: seq<T>, less: (T, T) -> bool) {
    forall i, j :: 0 <= i < j < |s| ==> !less(s[j], s[i])
  }

  /** Places `x` in front of the first element of `s` that does not
      strictly precede it. */
  function Insert<T(!new)>(x: T, s: seq<T>, less: (T, T) -> bool): (r: seq<T>)
    requires StrictWeakOrder(less)
    requires SortedBy(s, less)
    ensures multiset(r) == multiset(s) + multiset{x}
    ensures SortedBy(r, less)
  {
    if |s| == 0 then [x]
    else if !less(s[0], x) then
      assert forall j :: 0 <= j < |s| ==> !less(s[j], x) by {
        forall j | 0 <= j < |s| ensures !less(s[j], x) {
          if j > 0 {
            assert !less(s[j], s[0]);
          }
        }
      }
      [x] + s
    else
      var t := Insert(x, s[1..], less);
      assert s == [s[0]] + s[1..];
      forall k | 0 <= k < |t| ensures !less(t[k], s[0]) {
        assert t[k] in multiset(t);
        if t[k] != x {
          assert t[k] in multiset(s[1..]);
          var m :| 0 <= m < |s[1..]| && s[1..][m] == t[k];
          assert t[k] == s[m + 1];
        }
      }
      [s[0]] + t
  }

  /** Insertion sort: a sorted permutation of `s`. */
  function Sort<T(!new)>(s: seq<T>, less: (T, T) -> bool): (r: seq<T>)
    requires StrictWeakOrder(less)
    ensures multiset(r) == multiset(s)
    ensures |r| == |s|
    ensures SortedBy(r, less)
  {
    if |s| == 0 then []
    else
      assert s == [s[0]] + s[1..];
      var r := Insert(s[0], Sort(s[1..], less), less);
      assert |r| == |multiset(r)|;
      r
  }

  /** The elements of `s` tied with `e`, in order. */
  function TiedWith<T>(s: seq<T>, e: T, less: (T, T) -> bool): seq<T> {
    if |s| == 0 then []
    else (if Tied(less, s[0], e) then [s[0]] else []) + TiedWith(s[1..], e, less)
  }

  lemma {:induction false} InsertStable<T(!new)>(x: T, s: seq<T>, e: T, less: (T, T) -> bool)
    requires StrictWeakOrder(less)
    requires SortedBy(s, less)
    ensures TiedWith(Insert(x, s, less), e, less)
         == (if Tied(less, x, e) then [x] else []) + TiedWith(s, e, less)
    decreases |s|
  {
    if |s| == 0 {
      assert Insert(x, s, less) == [x] + s;
      TiedWithCons(x, s, e, less);
    } else if !less(s[0], x) {
      assert Insert(x, s, less) == [x] + s;
      TiedWithCons(x, s, e, less);
    } else {
      SortedTail(s, less);
      var t := Insert(x, s[1..], less);
      var head := if Tied(less, s[0], e) then [s[0]] else [];
      var mid := if Tied(less, x, e) then [x] else [];
      var rest := TiedWith(s[1..], e, less);
      assert TiedWith(Insert(x, s, less), e, less) == head + TiedWith(t, e, less) by {
        assert Insert(x, s, less) == [s[0]] + t;
        TiedWithCons(s[0], t, e, less);
      }
      assert TiedWith(s, e, less) == head + rest by {
        assert s == [s[0]] + s[1..];
        TiedWithCons(s[0], s[1..], e, less);
      }
      // s[0] strictly precedes x, so they are not both tied with e
      assert head == [] || mid == [] by {
        assert less(s[0], e) || less(e, x);
      }
      InsertStable(x, s[1..], e, less);
      assert TiedWith(t, e, less) == mid + rest;
    }
  }

  lemma SortedTail<T>(s: seq<T>, less: (T, T) -> bool)
    requires |s| > 0 && SortedBy(s, less)
    ensures SortedBy(s[1..], less)
  {
    forall i, j | 0 <= i < j < |s[1..]| ensures !less(s[1..][j], s[1..][i]) {
      assert s[1..][j] == s[j + 1] && s[1..][i] == s[i + 1];
    }
  }

  lemma TiedWithCons<T>(x: T, s: seq<T>, e: T, less: (T, T) -> bool)
    ensures TiedWith([x] + s, e, less) == (if Tied(less, x, e) then [x] else []) + TiedWith(s, e, less)
  {
    assert ([x] + s)[1..] == s;
  }

  /** Stability: sorting keeps every class of tied elements in its input
      order. */
  lemma {:induction false} SortStable<T(!new)>(s: seq<T>, e: T, less: (T, T) -> bool)
    requires StrictWeakOrder(less)
    ensures TiedWith(Sort(s, less), e, less) == TiedWith(s, e, less)
    decreases |s|
  {
    if |s| > 0 {
      SortStable(s[1..], e, less);
      InsertStable(s[0], Sort(s[1..], less), e, less);
    }
  }

  /** Sorting an already sorted sequence leaves it as it is. */
  lemma {:induction false} SortSorted<T(!new)>(s: seq<T>, less: (T, T) -> bool)
    requires StrictWeakOrder(less)
    requires SortedBy(s, less)
    ensures Sort(s, less) == s
    decreases |s|
  {
    if |s| > 0 {
      SortedTail(s, less);
      SortSorted(s[1..], less);
      assert |s| > 1 ==> !less(s[1..][0], s[0]) by {
        if |s| > 1 {
          assert s[1..][0] == s[1];
        }
      }
      assert s == [s[0]] + s[1..];
    }
  }

  lemma TiedWithSubset<T>(s: seq<T>, e: T, less: (T, T) -> bool)
    ensures forall x :: x in TiedWith(s, e, less) ==> x in s && Tied(less, x, e)
  {
  }

  /** A prefix of a sorted sequence is sorted, and nothing left out of it
      strictly precedes anything kept in it: the prefix holds a top-k. */
  lemma PrefixOfSorted<T>(s: seq<T>, k: nat, less: (T, T) -> bool)
    requires SortedBy(s, less)
    requires k <= |s|
    ensures SortedBy(s[..k], less)
    ensures forall q :: q in multiset(s) - multiset(s[..k]) ==>
      forall i :: 0 <= i < k ==> !less(q, s[i])
  {
    assert s == s[..k] + s[k..];
    assert multiset(s) == multiset(s[..k]) + multiset(s[k..]);
    forall q | q in multiset(s) - multiset(s[..k])
      ensures forall i :: 0 <= i < k ==> !less(q, s[i])
    {
      assert q in multiset(s[k..]);
      var j :| 0 <= j < |s[k..]| && s[k..][j] == q;
      assert s[k + j] == q;
    }
  }

  /** Lexicographic string order, `Array.prototype.sort()`'s default. */
  lemma LexLessIsStrictWeak()
    ensures StrictWeakOrder(Text.LexLess)
  {
    forall a ensures !Text.LexLess(a, a) {
      Text.LexIrreflexive(a);
    }
    forall a, b, c | Text.LexLess(a, b) && Text.LexLess(b, c) ensures Text.LexLess(a, c) {
      Text.LexTransitive(a, b, c);
    }
    forall a, b, c | Text.LexLess(a, c) ensures Text.LexLess(a, b) || Text.LexLess(b, c) {
      if !Text.LexLess(a, b) && a != b {
        Text.LexTotal(a, b);
        Text.LexTransitive(b, a, c);
      }
    }
  }
}
