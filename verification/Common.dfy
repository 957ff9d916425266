/** Names shared by every module: identifiers of the coordination protocol and the two usual result types. */
module Common {

  type Path = string
  type AgentId = string
  type TaskId = string

  datatype Option<+T> = None | Some(value: T)

  datatype Result<+T, +E> = Success(value: T) | Failure(error: E)

  predicate Distinct<T(==)>(s: seq<T>) {
    forall i, j | 0 <= i < j < |s| :: s[i] != s[j]
  }

  /** A duplicate-free sequence drawn from a finite set is no longer than the set is large. */
  lemma {:induction false} DistinctFits<T>(s: seq<T>, pool: set<T>)
    requires Distinct(s)
    requires forall x | x in s :: x in pool
    ensures |s| <= |pool|
  {
    if s != [] {
      var rest := s[..|s| - 1];
      forall x | x in rest ensures x in pool - {s[|s| - 1]} {}
      DistinctFits(rest, pool - {s[|s| - 1]});
    }
  }

  // ----------------------------------------------------------------------- order

  /** `a` is `b` with some elements left out: what a filter keeps, in the order in which it came. */
  ghost predicate Subsequence<T>(a: seq<T>, b: seq<T>)
    decreases |b|
  {
    || a == []
    || (b != [] &&
        (|| Subsequence(a, b[..|b| - 1])
         || (a[|a| - 1] == b[|b| - 1] && Subsequence(a[..|a| - 1], b[..|b| - 1]))))
  }

  lemma SubsequenceKeep<T>(a: seq<T>, b: seq<T>, x: T)
    requires Subsequence(a, b)
    ensures Subsequence(a + [x], b + [x]) && Subsequence(a, b + [x])
  {
    assert (a + [x])[..|a|] == a && (b + [x])[..|b|] == b;
  }

  lemma {:induction false} SubsequenceSelf<T>(a: seq<T>)
    ensures Subsequence(a, a)
  {
    if a != [] { SubsequenceSelf(a[..|a| - 1]); }
  }

  lemma {:induction false} SubsequenceConcat<T>(a: seq<T>, b: seq<T>, c: seq<T>, d: seq<T>)
    requires Subsequence(a, b) && Subsequence(c, d)
    ensures Subsequence(a + c, b + d)
    decreases |d|
  {
    if d == [] {
      assert c == [] && a + c == a && b + d == b;
    } else {
      var m := |d| - 1;
      assert (b + d)[..|b + d| - 1] == b + d[..m];
      if Subsequence(c, d[..m]) {
        SubsequenceConcat(a, b, c, d[..m]);
      } else if c == [] {
        assert Subsequence(c, d[..m]);
      } else {
        SubsequenceConcat(a, b, c[..|c| - 1], d[..m]);
        assert (a + c)[..|a + c| - 1] == a + c[..|c| - 1];
      }
    }
  }

  /** What that means by position: earlier stays earlier. */
  lemma {:induction false} SubsequenceOrder<T>(a: seq<T>, b: seq<T>, i: nat, j: nat) returns (k: nat, l: nat)
    requires Subsequence(a, b) && i < j < |a|
    ensures k < l < |b| && a[i] == b[k] && a[j] == b[l]
    decreases |b|
  {
    var n := |b| - 1;
    if Subsequence(a, b[..n]) {
      k, l := SubsequenceOrder(a, b[..n], i, j);
    } else if j < |a| - 1 {
      k, l := SubsequenceOrder(a[..|a| - 1], b[..n], i, j);
    } else {
      k := SubsequenceAt(a[..|a| - 1], b[..n], i);
      l := n;
    }
  }

  lemma {:induction false} SubsequenceAt<T>(a: seq<T>, b: seq<T>, i: nat) returns (k: nat)
    requires Subsequence(a, b) && i < |a|
    ensures k < |b| && a[i] == b[k]
    decreases |b|
  {
    var n := |b| - 1;
    if Subsequence(a, b[..n]) {
      k := SubsequenceAt(a, b[..n], i);
    } else if i < |a| - 1 {
      k := SubsequenceAt(a[..|a| - 1], b[..n], i);
    } else {
      k := n;
    }
  }
}
