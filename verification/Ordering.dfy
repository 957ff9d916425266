/** The order in which JavaScript's default `sort()` puts strings, and that sort. */
module Ordering {
  import opened Common

  predicate Less(a: string, b: string) {
    b != [] && (a == [] || a[0] < b[0] || (a[0] == b[0] && Less(a[1..], b[1..])))
  }

  /** `b` goes on where `a` ends, or has the greater character where they first differ. */
  ghost predicate BeforeAt(a: string, b: string, k: nat) {
    k <= |a| && k < |b| && a[..k] == b[..k] && (k == |a| || a[k] < b[k])
  }

  lemma {:induction false} LessExact(a: string, b: string)
    ensures Less(a, b) <==> exists k: nat :: BeforeAt(a, b, k)
  {
    if a == [] || b == [] || a[0] != b[0] {
      assert BeforeAt(a, b, 0) <==> Less(a, b);
      assert forall k: nat | BeforeAt(a, b, k) && k > 0 :: a[..k][0] == b[..k][0];
    } else {
      LessExact(a[1..], b[1..]);
      forall k: nat ensures BeforeAt(a, b, k + 1) <==> BeforeAt(a[1..], b[1..], k) {
        if k < |a| && k + 1 < |b| {
          assert a[..k + 1] == [a[0]] + a[1..][..k] && b[..k + 1] == [b[0]] + b[1..][..k];
        }
      }
      assert forall k: nat | BeforeAt(a, b, k) :: k > 0 && BeforeAt(a[1..], b[1..], k - 1);
    }
  }

  lemma LessTotal(a: string, b: string)
    ensures a == b || Less(a, b) || Less(b, a)
  {
    if a != [] && b != [] {
      LessTotal(a[1..], b[1..]);
      assert a == [a[0]] + a[1..] && b == [b[0]] + b[1..];
    }
  }

  lemma LessAsymmetric(a: string, b: string)
    ensures !(Less(a, b) && Less(b, a))
  {}

  lemma LessTransitive(a: string, b: string, c: string)
    requires Less(a, b) && Less(b, c)
    ensures Less(a, c)
  {
    if a != [] && a[0] == b[0] == c[0] {
      LessTransitive(a[1..], b[1..], c[1..]);
    }
  }

  predicate Sorted(s: seq<string>) {
    forall i, j | 0 <= i < j < |s| :: !Less(s[j], s[i])
  }

  function Insert(x: string, s: seq<string>): seq<string> {
    if s == [] then [x]
    else if Less(s[0], x) then [s[0]] + Insert(x, s[1..])
    else [x] + s
  }

  /** The result of `s.sort()`. */
  function Sort(s: seq<string>): seq<string> {
    if s == [] then [] else Insert(s[0], Sort(s[1..]))
  }

  lemma {:induction false} InsertElements(x: string, s: seq<string>)
    ensures multiset(Insert(x, s)) == multiset([x] + s)
    ensures forall y :: y in Insert(x, s) <==> y == x || y in s
  {
    if s != [] && Less(s[0], x) {
      InsertElements(x, s[1..]);
      assert s == [s[0]] + s[1..];
      assert Insert(x, s) == [s[0]] + Insert(x, s[1..]);
      assert multiset([x] + s[1..]) == multiset{x} + multiset(s[1..]);
    }
  }

  lemma {:induction false} InsertSorted(x: string, s: seq<string>)
    requires Sorted(s)
    ensures Sorted(Insert(x, s))
  {
    if s != [] {
      if Less(s[0], x) {
        InsertSorted(x, s[1..]);
        InsertElements(x, s[1..]);
        LessAsymmetric(s[0], x);
        SortedCons(s[0], Insert(x, s[1..]));
      } else {
        forall y | y in s ensures !Less(y, x) {
          if Less(y, x) && y != s[0] {
            LessTotal(s[0], y);
            LessTransitive(s[0], y, x);
          }
        }
        SortedCons(x, s);
      }
    }
  }

  lemma SortedCons(x: string, s: seq<string>)
    requires Sorted(s)
    requires forall y | y in s :: !Less(y, x)
    ensures Sorted([x] + s)
  {
    var r := [x] + s;
    forall i, j | 0 <= i < j < |r| ensures !Less(r[j], r[i]) {
      assert r[j] == s[j - 1];
      if i > 0 { assert r[i] == s[i - 1]; }
    }
  }

  /** Sorting gives a sorted arrangement of exactly the elements that went in. */
  lemma {:induction false} SortSorts(s: seq<string>)
    ensures Sorted(Sort(s))
    ensures multiset(Sort(s)) == multiset(s)
    ensures |Sort(s)| == |s|
    ensures forall x :: x in Sort(s) <==> x in s
  {
    if s != [] {
      SortSorts(s[1..]);
      InsertSorted(s[0], Sort(s[1..]));
      InsertElements(s[0], Sort(s[1..]));
      assert s == [s[0]] + s[1..];
    }
    assert |multiset(Sort(s))| == |multiset(s)|;
    forall x ensures x in Sort(s) <==> x in s {
      assert x in Sort(s) <==> x in multiset(Sort(s));
      assert x in s <==> x in multiset(s);
    }
  }

  /** Two sorted duplicate-free sequences with the same elements are the same sequence. */
  lemma {:induction false} SortedUnique(a: seq<string>, b: seq<string>)
    requires Sorted(a) && Sorted(b) && Distinct(a) && Distinct(b)
    requires forall x :: x in a <==> x in b
    ensures a == b
  {
    assert a != [] ==> a[0] in b;
    assert b != [] ==> b[0] in a;
    if a != [] {
      LessTotal(a[0], b[0]);
      var i :| 0 <= i < |b| && b[i] == a[0];
      var j :| 0 <= j < |a| && a[j] == b[0];
      assert a[0] == b[0];
      forall x ensures x in a[1..] <==> x in b[1..] {
        assert x in a[1..] <==> x in a && x != a[0];
        assert x in b[1..] <==> x in b && x != b[0];
      }
      SortedUnique(a[1..], b[1..]);
    }
  }

  /** The elements of a finite set, in sorted order: `[...set].sort()`. */
  ghost function SortedElements(s: set<string>): (r: seq<string>)
    ensures Sorted(r) && Distinct(r)
    ensures forall x :: x in r <==> x in s
  {
    if s == {} then []
    else
      var x :| x in s;
      var rest := SortedElements(s - {x});
      InsertSorted(x, rest);
      InsertFresh(x, rest);
      Insert(x, rest)
  }

  lemma {:induction false} InsertFresh(x: string, s: seq<string>)
    requires Distinct(s) && x !in s
    ensures Distinct(Insert(x, s))
    ensures forall y :: y in Insert(x, s) <==> y == x || y in s
  {
    InsertElements(x, s);
    if s != [] && Less(s[0], x) {
      InsertFresh(x, s[1..]);
      assert s[0] !in s[1..];
      assert s[0] !in Insert(x, s[1..]);
    }
  }

  /** Sorting a duplicate-free listing of a set gives the set's sorted elements. */
  lemma SortListing(s: seq<string>, elements: set<string>)
    requires Distinct(s)
    requires forall x :: x in s <==> x in elements
    ensures Sort(s) == SortedElements(elements)
    ensures Distinct(Sort(s))
  {
    SortSorts(s);
    SortDistinct(s);
    SortedUnique(Sort(s), SortedElements(elements));
  }

  lemma {:induction false} SortDistinct(s: seq<string>)
    requires Distinct(s)
    ensures Distinct(Sort(s))
  {
    if s != [] {
      SortDistinct(s[1..]);
      SortSorts(s[1..]);
      InsertFresh(s[0], Sort(s[1..]));
    }
  }
}
