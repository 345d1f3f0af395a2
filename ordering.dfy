/**
  Sorting of path strings. `Below` is Python's `<=` on `str` (code point by
  code point, a proper prefix first). `SortBy` sorts by any total order; since
  a total order admits exactly one sorted arrangement of a multiset, it yields
  the same list as Python's `sorted` whenever that sorts by the same order.
 */
module Ordering {

  /** `a <= b` for Python strings. */
  predicate Below(a: string, b: string)
    decreases |a|
  {
    |a| == 0 || (|b| > 0 && (a[0] < b[0] || (a[0] == b[0] && Below(a[1..], b[1..]))))
  }

  ghost predicate IsTotalOrder(le: (string, string) -> bool)
  {
    && (forall a, b :: le(a, b) || le(b, a))
    && (forall a, b :: le(a, b) && le(b, a) ==> a == b)
    && (forall a, b, c :: le(a, b) && le(b, c) ==> le(a, c))
  }

  lemma {:induction false} BelowTotal(a: string, b: string)
    ensures Below(a, b) || Below(b, a)
    decreases |a|
  {
    if |a| > 0 && |b| > 0 && a[0] == b[0] {
      BelowTotal(a[1..], b[1..]);
    }
  }

  lemma {:induction false} BelowAntisymmetric(a: string, b: string)
    requires Below(a, b) && Below(b, a)
    ensures a == b
    decreases |a|
  {
    if |a| > 0 {
      BelowAntisymmetric(a[1..], b[1..]);
      assert a == [a[0]] + a[1..] && b == [b[0]] + b[1..];
    }
  }

  lemma {:induction false} BelowTransitive(a: string, b: string, c: string)
    requires Below(a, b) && Below(b, c)
    ensures Below(a, c)
    decreases |a|
  {
    if |a| > 0 && a[0] == b[0] && b[0] == c[0] {
      BelowTransitive(a[1..], b[1..], c[1..]);
    }
  }

  /** Python's string comparison is a total order. */
  lemma BelowIsTotalOrder()
    ensures IsTotalOrder(Below)
  {
    forall a, b ensures Below(a, b) || Below(b, a) { BelowTotal(a, b); }
    forall a, b | Below(a, b) && Below(b, a) ensures a == b { BelowAntisymmetric(a, b); }
    forall a, b, c | Below(a, b) && Below(b, c) ensures Below(a, c) { BelowTransitive(a, b, c); }
  }

  /** Past a common prefix, the first differing character decides the comparison. */
  lemma {:induction false} BelowAtFirstDifference(a: string, b: string, k: nat)
    requires k < |a| && k < |b|
    requires a[..k] == b[..k] && a[k] != b[k]
    ensures Below(a, b) <==> a[k] < b[k]
    decreases k
  {
    if k > 0 {
      assert a[0] == a[..k][0] && b[0] == b[..k][0];
      assert a[1..][..k - 1] == a[..k][1..] && b[1..][..k - 1] == b[..k][1..];
      BelowAtFirstDifference(a[1..], b[1..], k - 1);
    }
  }

  predicate SortedBy(le: (string, string) -> bool, s: seq<string>)
  {
    forall i, j :: 0 <= i < j < |s| ==> le(s[i], s[j])
  }

  /** Puts `x` before the first element it is `le`-below. */
  function Insert(le: (string, string) -> bool, x: string, s: seq<string>): (r: seq<string>)
    ensures multiset(r) == multiset(s) + multiset{x}
    ensures |r| == |s| + 1
  {
    if s == [] then [x]
    else if le(x, s[0]) then [x] + s
    else
      var t := Insert(le, x, s[1..]);
      assert s == [s[0]] + s[1..];
      [s[0]] + t
  }

  /** Insertion sort by `le`. */
  function SortBy(le: (string, string) -> bool, s: seq<string>): (r: seq<string>)
    ensures multiset(r) == multiset(s)
    ensures |r| == |s|
  {
    if s == [] then []
    else
      assert s == [s[0]] + s[1..];
      Insert(le, s[0], SortBy(le, s[1..]))
  }

  /** Sorting two elements swaps them exactly when the first is not below the second. */
  lemma SortTwo(le: (string, string) -> bool, x: string, y: string)
    ensures SortBy(le, [x, y]) == if le(x, y) then [x, y] else [y, x]
  {
    assert [x, y][1..] == [y];
    assert SortBy(le, [y]) == [y] by { assert [y][1..] == []; }
    assert [y][1..] == [];
  }

  lemma {:induction false} InsertSorted(le: (string, string) -> bool, x: string, s: seq<string>)
    requires IsTotalOrder(le)
    requires SortedBy(le, s)
    ensures SortedBy(le, Insert(le, x, s))
    decreases |s|
  {
    if s != [] && !le(x, s[0]) {
      var t := Insert(le, x, s[1..]);
      InsertSorted(le, x, s[1..]);
      assert le(s[0], x);
      forall k | 0 <= k < |t| ensures le(s[0], t[k]) {
        assert t[k] in multiset(t);
        assert t[k] in multiset(s[1..]) + multiset{x};
        if t[k] != x {
          assert t[k] in s[1..];
          var m :| 0 <= m < |s[1..]| && s[1..][m] == t[k];
          assert s[m + 1] == t[k];
        }
      }
      var r := [s[0]] + t;
      forall i, j | 0 <= i < j < |r| ensures le(r[i], r[j]) {
        if i > 0 { assert r[i] == t[i - 1] && r[j] == t[j - 1]; }
        else { assert r[j] == t[j - 1]; }
      }
    } else if s != [] {
      var r := [x] + s;
      forall i, j | 0 <= i < j < |r| ensures le(r[i], r[j]) {
        if i == 0 {
          assert r[j] == s[j - 1];
          if j > 1 { assert le(s[0], s[j - 1]); }
        } else {
          assert r[i] == s[i - 1] && r[j] == s[j - 1];
        }
      }
    }
  }

  /** `SortBy` sorts. */
  lemma {:induction false} SortBySorted(le: (string, string) -> bool, s: seq<string>)
    requires IsTotalOrder(le)
    ensures SortedBy(le, SortBy(le, s))
    decreases |s|
  {
    if s != [] {
      SortBySorted(le, s[1..]);
      InsertSorted(le, s[0], SortBy(le, s[1..]));
    }
  }

  /** In a sorted list the first element is below every element. */
  lemma FirstIsLeast(le: (string, string) -> bool, s: seq<string>, y: string)
    requires IsTotalOrder(le)
    requires SortedBy(le, s) && y in s
    ensures le(s[0], y)
  {
    var k :| 0 <= k < |s| && s[k] == y;
    if k == 0 {
      assert le(y, y) || le(y, y);
    }
  }

  /** Two sorted arrangements of the same multiset are the same list. */
  lemma {:induction false} SortedUnique(le: (string, string) -> bool, a: seq<string>, b: seq<string>)
    requires IsTotalOrder(le)
    requires SortedBy(le, a) && SortedBy(le, b)
    requires multiset(a) == multiset(b)
    ensures a == b
    decreases |a|
  {
    if a == [] {
      assert |multiset(b)| == 0;
    } else {
      assert |b| == |a| by { assert |multiset(a)| == |multiset(b)|; }
      assert a[0] in multiset(b) && b[0] in multiset(a);
      FirstIsLeast(le, b, a[0]);
      FirstIsLeast(le, a, b[0]);
      assert a[0] == b[0];
      assert a == [a[0]] + a[1..] && b == [b[0]] + b[1..];
      assert multiset(a[1..]) == multiset(a) - multiset{a[0]};
      assert multiset(b[1..]) == multiset(b) - multiset{b[0]};
      assert SortedBy(le, a[1..]) by {
        forall i, j | 0 <= i < j < |a[1..]| ensures le(a[1..][i], a[1..][j]) {
          assert a[1..][i] == a[i + 1] && a[1..][j] == a[j + 1];
        }
      }
      assert SortedBy(le, b[1..]) by {
        forall i, j | 0 <= i < j < |b[1..]| ensures le(b[1..][i], b[1..][j]) {
          assert b[1..][i] == b[i + 1] && b[1..][j] == b[j + 1];
        }
      }
      SortedUnique(le, a[1..], b[1..]);
    }
  }

  /**
    Sorting by a total order forgets the input order: two lists holding the
    same strings, in any order, sort to the same list.
   */
  lemma SortByForgetsOrder(le: (string, string) -> bool, a: seq<string>, b: seq<string>)
    requires IsTotalOrder(le)
    requires multiset(a) == multiset(b)
    ensures SortBy(le, a) == SortBy(le, b)
  {
    SortBySorted(le, a);
    SortBySorted(le, b);
    SortedUnique(le, SortBy(le, a), SortBy(le, b));
  }
}
