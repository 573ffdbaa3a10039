/** Order-preserving filtering of table rows, the shape of every `where` query
    and every `Array.prototype.filter` in the system. */
module Seqs {
  import opened Wrappers

  /** The elements of `s` that satisfy `keep`, in their original order. */
  function Filter<T>(s: seq<T>, keep: T -> bool): (r: seq<T>)
    ensures |r| <= |s|
  {
    if s == [] then []
    else if keep(s[0]) then [s[0]] + Filter(s[1..], keep)
    else Filter(s[1..], keep)
  }

  /** An element is kept exactly when it occurs in the input and passes the test. */
  lemma {:induction false} FilterMembership<T>(s: seq<T>, keep: T -> bool, x: T)
    ensures x in Filter(s, keep) <==> x in s && keep(x)
  {
    if s != [] {
      FilterMembership(s[1..], keep, x);
      assert s == [s[0]] + s[1..];
    }
  }

  /** Every element of the result passes the test and each kept element keeps its multiplicity. */
  lemma {:induction false} FilterCount<T>(s: seq<T>, keep: T -> bool, x: T)
    ensures multiset(Filter(s, keep))[x] == if keep(x) then multiset(s)[x] else 0
  {
    if s != [] {
      FilterCount(s[1..], keep, x);
      assert s == [s[0]] + s[1..];
    }
  }

  /** Filtering with a test every element passes changes nothing. */
  lemma {:induction false} FilterKeepsAll<T>(s: seq<T>, keep: T -> bool)
    requires forall i :: 0 <= i < |s| ==> keep(s[i])
    ensures Filter(s, keep) == s
  {
    if s != [] {
      FilterKeepsAll(s[1..], keep);
      assert s == [s[0]] + s[1..];
    }
  }

  /** Filtering with a test no element passes leaves nothing. */
  lemma {:induction false} FilterDropsAll<T>(s: seq<T>, keep: T -> bool)
    requires forall i :: 0 <= i < |s| ==> !keep(s[i])
    ensures Filter(s, keep) == []
  {
    if s != [] {
      FilterDropsAll(s[1..], keep);
    }
  }

  /** Filtering distributes over concatenation. */
  lemma {:induction false} FilterAppend<T>(a: seq<T>, b: seq<T>, keep: T -> bool)
    ensures Filter(a + b, keep) == Filter(a, keep) + Filter(b, keep)
  {
    if a == [] {
      assert a + b == b;
    } else {
      assert (a + b)[1..] == a[1..] + b;
      FilterAppend(a[1..], b, keep);
    }
  }

  /** The position of the first element that satisfies `hit`, if any. */
  function Find<T>(s: seq<T>, hit: T -> bool): (r: Option<nat>)
    ensures r.Some? ==> r.value < |s| && hit(s[r.value])
    ensures r.Some? ==> forall j :: 0 <= j < r.value ==> !hit(s[j])
    ensures r.None? ==> forall j :: 0 <= j < |s| ==> !hit(s[j])
  {
    if s == [] then None
    else if hit(s[0]) then Some(0)
    else
      var r := Find(s[1..], hit);
      if r.None? then None else Some(r.value + 1)
  }

  /** Appending one element after a concatenation, regrouped. */
  lemma SnocAssoc<T>(a: seq<T>, b: seq<T>, x: T)
    ensures (a + b) + [x] == a + (b + [x])
  {
  }

  /** The keys of `s` are pairwise distinct and all below `next`. */
  predicate KeysBelow<T>(s: seq<T>, key: T -> int, next: int) {
    (forall i, j :: 0 <= i < j < |s| ==> key(s[i]) != key(s[j]))
    && (forall i :: 0 <= i < |s| ==> key(s[i]) < next)
  }

  /** Filtering keeps the survivors' keys pairwise distinct and below a bound. */
  lemma {:induction false} FilterKeepsKeys<T>(s: seq<T>, keep: T -> bool, key: T -> int, next: int)
    requires KeysBelow(s, key, next)
    ensures KeysBelow(Filter(s, keep), key, next)
  {
    if s != [] {
      var u := s[1..];
      assert forall i :: 0 <= i < |u| ==> u[i] == s[i + 1];
      FilterKeepsKeys(u, keep, key, next);
      var t := Filter(u, keep);
      forall x | x in t ensures key(x) != key(s[0]) && key(x) < next {
        FilterMembership(u, keep, x);
        var j :| 0 <= j < |u| && u[j] == x;
        assert s[j + 1] == x;
      }
      if keep(s[0]) {
        var r := [s[0]] + t;
        assert Filter(s, keep) == r;
        forall i, j | 0 <= i < j < |r| ensures key(r[i]) != key(r[j]) {
          var y := t[j - 1];
          assert r[j] == y && y in t;
          if i == 0 {
            assert r[i] == s[0];
          } else {
            assert r[i] == t[i - 1];
          }
        }
        forall i | 0 <= i < |r| ensures key(r[i]) < next {
          if i > 0 { assert r[i] == t[i - 1]; }
        }
      } else {
        assert Filter(s, keep) == t;
      }
    }
  }

  /** Every element of a filtered sequence is an element of the input that passes the test. */
  lemma FilterElements<T>(s: seq<T>, keep: T -> bool)
    ensures forall i :: 0 <= i < |Filter(s, keep)| ==> Filter(s, keep)[i] in s && keep(Filter(s, keep)[i])
  {
    forall i | 0 <= i < |Filter(s, keep)| ensures Filter(s, keep)[i] in s && keep(Filter(s, keep)[i]) {
      FilterMembership(s, keep, Filter(s, keep)[i]);
    }
  }

  /** The elements in the opposite order. */
  function Reverse<T>(s: seq<T>): (r: seq<T>)
    ensures |r| == |s|
    ensures forall i :: 0 <= i < |s| ==> r[i] == s[|s| - 1 - i]
  {
    if s == [] then [] else Reverse(s[1..]) + [s[0]]
  }

  /** Two tests that agree on every element of `s` keep the same elements. */
  lemma {:induction false} FilterExt<T>(s: seq<T>, keep1: T -> bool, keep2: T -> bool)
    requires forall i :: 0 <= i < |s| ==> keep1(s[i]) == keep2(s[i])
    ensures Filter(s, keep1) == Filter(s, keep2)
  {
    if s != [] {
      assert forall i :: 0 <= i < |s[1..]| ==> s[1..][i] == s[i + 1];
      FilterExt(s[1..], keep1, keep2);
    }
  }
}
