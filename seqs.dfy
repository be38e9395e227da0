/** Sequence helpers shared by the tag toggle and the class-list model. */
module Seqs {

  /** The elements of `s` other than `t`, in their original order
      (JavaScript's `s.filter((x) => x !== t)`). */
  function RemoveAll<T(==)>(s: seq<T>, t: T): (r: seq<T>)
    ensures |r| <= |s|
    ensures t !in r
    ensures forall i :: 0 <= i < |r| ==> r[i] in s && r[i] != t
    ensures forall i :: 0 <= i < |s| && s[i] != t ==> s[i] in r
    ensures t !in s ==> r == s
  {
    if s == [] then []
    else if s[0] == t then RemoveAll(s[1..], t)
    else [s[0]] + RemoveAll(s[1..], t)
  }

  /** `r` is obtained from `s` by deleting some elements, keeping the order of the rest. */
  ghost predicate SubsequenceOf<T>(r: seq<T>, s: seq<T>)
    decreases |s|
  {
    if r == [] then true
    else if s == [] then false
    else (r[0] == s[0] && SubsequenceOf(r[1..], s[1..])) || SubsequenceOf(r, s[1..])
  }

  /** Filtering distributes over concatenation: the surviving elements of
      `a` all come before those of `b`. */
  lemma {:induction false} RemoveAllConcat<T>(a: seq<T>, b: seq<T>, t: T)
    ensures RemoveAll(a + b, t) == RemoveAll(a, t) + RemoveAll(b, t)
  {
    if a == [] {
      assert a + b == b;
    } else {
      assert (a + b)[0] == a[0];
      assert (a + b)[1..] == a[1..] + b;
      RemoveAllConcat(a[1..], b, t);
    }
  }

  /** Filtering keeps the relative order of what it keeps. */
  lemma {:induction false} RemoveAllIsSubsequence<T>(s: seq<T>, t: T)
    ensures SubsequenceOf(RemoveAll(s, t), s)
  {
    if s != [] {
      RemoveAllIsSubsequence(s[1..], t);
      var rest := RemoveAll(s[1..], t);
      if s[0] != t {
        assert RemoveAll(s, t) == [s[0]] + rest;
        assert ([s[0]] + rest)[1..] == rest;
      } else {
        assert RemoveAll(s, t) == rest;
      }
    }
  }

  /** Filtering out `t` drops every copy of `t` and keeps every copy of
      everything else. */
  lemma {:induction false} RemoveAllCounts<T>(s: seq<T>, t: T)
    ensures multiset(RemoveAll(s, t))[t] == 0
    ensures forall x :: x != t ==> multiset(RemoveAll(s, t))[x] == multiset(s)[x]
  {
    if s != [] {
      RemoveAllCounts(s[1..], t);
      assert s == [s[0]] + s[1..];
      assert multiset(s) == multiset([s[0]]) + multiset(s[1..]);
    }
  }

  /** Every element of `s` is distinct. */
  predicate NoDuplicates<T(==)>(s: seq<T>) {
    forall i, j :: 0 <= i < j < |s| ==> s[i] != s[j]
  }

  /** A duplicate-free sequence has as many elements as its set of values. */
  lemma {:induction false} DistinctCardinality<T>(s: seq<T>)
    requires NoDuplicates(s)
    ensures |set x | x in s| == |s|
  {
    if s != [] {
      assert NoDuplicates(s[1..]) by {
        forall i, j | 0 <= i < j < |s[1..]| ensures s[1..][i] != s[1..][j] {
          assert s[1..][i] == s[i + 1] && s[1..][j] == s[j + 1];
        }
      }
      DistinctCardinality(s[1..]);
      assert s[0] !in s[1..];
      assert (set x | x in s) == {s[0]} + (set x | x in s[1..]);
    }
  }

  /** Filtering a duplicate-free sequence leaves it duplicate-free. */
  lemma {:induction false} RemoveAllKeepsDistinct<T>(s: seq<T>, t: T)
    requires NoDuplicates(s)
    ensures NoDuplicates(RemoveAll(s, t))
  {
    if s != [] {
      assert NoDuplicates(s[1..]) by {
        forall i, j | 0 <= i < j < |s[1..]| ensures s[1..][i] != s[1..][j] {
          assert s[1..][i] == s[i + 1] && s[1..][j] == s[j + 1];
        }
      }
      RemoveAllKeepsDistinct(s[1..], t);
      var rest := RemoveAll(s[1..], t);
      if s[0] != t {
        assert s[0] !in s[1..];
        var r := [s[0]] + rest;
        forall i, j | 0 <= i < j < |r| ensures r[i] != r[j] {
          if i == 0 { assert r[j] == rest[j - 1]; } else { assert r[i] == rest[i - 1] && r[j] == rest[j - 1]; }
        }
      }
    }
  }
}
