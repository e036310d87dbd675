/** `Array.prototype.filter` and the distinct-value count `new Set(xs).size`,
    with the facts the pages rely on: a filter keeps exactly the elements that
    pass, each as often as it occurs, in their original order. */
module Seqs {

  function Filter<T(!new)>(s: seq<T>, p: T -> bool): (r: seq<T>)
    ensures |r| <= |s|
    ensures forall x :: x in r <==> x in s && p(x)
  {
    if s == [] then []
    else Filter(s[..|s| - 1], p) + (if p(s[|s| - 1]) then [s[|s| - 1]] else [])
  }

  /** Filtering distributes over concatenation. */
  lemma {:induction false} FilterAppend<T(!new)>(s: seq<T>, t: seq<T>, p: T -> bool)
    ensures Filter(s + t, p) == Filter(s, p) + Filter(t, p)
    decreases |t|
  {
    if t == [] {
      assert s + t == s;
    } else {
      var n := |t| - 1;
      assert (s + t)[..|s + t| - 1] == s + t[..n];
      FilterAppend(s, t[..n], p);
    }
  }

  /** Splicing an element into a sequence whose later part has nothing that
      passes puts it, when it passes, last in the filter. */
  lemma FilterSplice<T(!new)>(s: seq<T>, x: T, t: seq<T>, p: T -> bool)
    requires p(x) ==> Filter(t, p) == []
    ensures Filter(s + [x] + t, p) == Filter(s + t, p) + (if p(x) then [x] else [])
  {
    var sx := s + [x];
    assert sx + t == s + [x] + t;
    FilterAppend(sx, t, p);
    FilterAppend(s, t, p);
    assert sx[..|sx| - 1] == s && sx[|sx| - 1] == x;
    var a, b := Filter(s, p), Filter(t, p);
    var fx := if p(x) then [x] else [];
    assert Filter(sx, p) == a + fx;
    assert Filter(s + [x] + t, p) == a + fx + b;
    assert Filter(s + t, p) == a + b;
    if p(x) {
      assert b == [];
      assert a + fx + b == a + fx;
      assert a + b == a;
    } else {
      assert fx == [];
      assert a + fx + b == a + b;
    }
  }

  /** Each element is kept as often as it occurs when it passes, and never otherwise. */
  lemma {:induction false} FilterCounts<T(!new)>(s: seq<T>, p: T -> bool, x: T)
    ensures multiset(Filter(s, p))[x] == if p(x) then multiset(s)[x] else 0
  {
    if s != [] {
      var n := |s| - 1;
      FilterCounts(s[..n], p, x);
      assert s == s[..n] + [s[n]];
    }
  }

  /** `idx` lists, in increasing order, positions of `s` holding the elements of `r`. */
  ghost predicate Embedding<T>(r: seq<T>, s: seq<T>, idx: seq<nat>) {
    |idx| == |r| &&
    (forall k :: 0 <= k < |idx| ==> idx[k] < |s| && r[k] == s[idx[k]]) &&
    (forall k, l :: 0 <= k < l < |idx| ==> idx[k] < idx[l])
  }

  /** An embedding into a prefix is one into the whole sequence, and extends by the last element. */
  lemma EmbedSnoc<T>(r: seq<T>, s: seq<T>, idx: seq<nat>)
    requires |s| > 0 && Embedding(r, s[..|s| - 1], idx)
    ensures Embedding(r, s, idx)
    ensures Embedding(r + [s[|s| - 1]], s, idx + [|s| - 1])
    ensures |s| - 1 !in idx
  {
    var n := |s| - 1;
    forall k | 0 <= k < |idx| ensures idx[k] < n && r[k] == s[idx[k]] {
      assert s[..n][idx[k]] == s[idx[k]];
    }
  }

  /** A filter keeps the passing elements in their original order: its result
      sits in the input at increasing positions, which are exactly the positions
      of the passing elements. */
  lemma {:induction false} FilterOrder<T(!new)>(s: seq<T>, p: T -> bool) returns (idx: seq<nat>)
    ensures Embedding(Filter(s, p), s, idx)
    ensures forall i :: 0 <= i < |s| ==> (p(s[i]) <==> i in idx)
  {
    if s == [] {
      idx := [];
    } else {
      var n := |s| - 1;
      var front := Filter(s[..n], p);
      var pre := FilterOrder(s[..n], p);
      EmbedSnoc(front, s, pre);
      FilterSnoc(s, p);
      idx := if p(s[n]) then pre + [n] else pre;
      forall i | 0 <= i < |s| ensures p(s[i]) <==> i in idx {
        if i < n {
          assert s[..n][i] == s[i];
          assert i in idx <==> i in pre;
        }
      }
    }
  }

  /** The filter of a non-empty sequence: that of all but its last element, then the last if it passes. */
  lemma FilterSnoc<T(!new)>(s: seq<T>, p: T -> bool)
    requires s != []
    ensures Filter(s, p) == Filter(s[..|s| - 1], p) + (if p(s[|s| - 1]) then [s[|s| - 1]] else [])
  {
  }

  /** The positions of `s` whose element passes `p`. */
  function Passing<T>(s: seq<T>, p: T -> bool): set<nat> {
    set i: nat | i < |s| && p(s[i])
  }

  /** The passing positions of a non-empty sequence: those of all but its
      last element, then the last position if it passes. */
  lemma PassingSnoc<T>(s: seq<T>, p: T -> bool)
    requires s != []
    ensures Passing(s, p) == Passing(s[..|s| - 1], p) + (if p(s[|s| - 1]) then {|s| - 1} else {})
    ensures |s| - 1 !in Passing(s[..|s| - 1], p)
  {
    var n := |s| - 1;
    forall i: nat | i < n ensures s[..n][i] == s[i] { }
  }

  /** A filter is as long as the number of positions that pass. */
  lemma {:induction false} FilterLength<T(!new)>(s: seq<T>, p: T -> bool)
    ensures |Filter(s, p)| == |Passing(s, p)|
  {
    if s != [] {
      var n := |s| - 1;
      FilterLength(s[..n], p);
      FilterSnoc(s, p);
      PassingSnoc(s, p);
    }
  }

  /** When every element passes, the filter changes nothing. */
  lemma {:induction false} FilterAll<T(!new)>(s: seq<T>, p: T -> bool)
    requires forall i :: 0 <= i < |s| ==> p(s[i])
    ensures Filter(s, p) == s
  {
    if s != [] {
      FilterAll(s[..|s| - 1], p);
    }
  }

  /** Filtering again with the same test changes nothing. */
  lemma FilterIdempotent<T(!new)>(s: seq<T>, p: T -> bool)
    ensures Filter(Filter(s, p), p) == Filter(s, p)
  {
    var r := Filter(s, p);
    forall i | 0 <= i < |r| ensures p(r[i]) {
      assert r[i] in r;
    }
    FilterAll(r, p);
  }

  /** `new Set(s.map(f))`. */
  function Distinct<T, U>(s: seq<T>, f: T -> U): set<U> {
    set i | 0 <= i < |s| :: f(s[i])
  }

  /** There are never more distinct values than elements. */
  lemma {:induction false} DistinctAtMost<T, U>(s: seq<T>, f: T -> U)
    ensures |Distinct(s, f)| <= |s|
  {
    if s != [] {
      var n := |s| - 1;
      DistinctAtMost(s[..n], f);
      assert Distinct(s, f) == Distinct(s[..n], f) + {f(s[n])} by {
        forall u | u in Distinct(s[..n], f) ensures u in Distinct(s, f) {
          var i :| 0 <= i < n && f(s[..n][i]) == u;
          assert s[..n][i] == s[i];
        }
        forall u | u in Distinct(s, f) ensures u in Distinct(s[..n], f) + {f(s[n])} {
          var i :| 0 <= i < |s| && f(s[i]) == u;
          if i < n { assert s[..n][i] == s[i]; }
        }
      }
      if f(s[n]) !in Distinct(s[..n], f) {
        assert |Distinct(s[..n], f) + {f(s[n])}| == |Distinct(s[..n], f)| + 1;
      } else {
        assert Distinct(s[..n], f) + {f(s[n])} == Distinct(s[..n], f);
      }
    }
  }
}
