/** Sequence helpers shared by the tables: selection, first match and sorting by a text key. */
module Seqs {
  import opened Wrappers
  import opened Text

  /** The elements of `s` that satisfy `p`, in their order in `s` (a WHERE clause). */
  function Filter<T>(s: seq<T>, p: T -> bool): (r: seq<T>)
    ensures |r| <= |s|
    ensures forall i :: 0 <= i < |r| ==> r[i] in s && p(r[i])
    ensures forall i :: 0 <= i < |s| && p(s[i]) ==> s[i] in r
    ensures multiset(r) <= multiset(s)
  {
    if s == [] then [] else
      assert s == [s[0]] + s[1..];
      (if p(s[0]) then [s[0]] else []) + Filter(s[1..], p)
  }

  /** The first element of `s` that satisfies `p`, if any. */
  function FirstWhere<T>(s: seq<T>, p: T -> bool): (r: Option<T>)
    ensures r.None? <==> forall i :: 0 <= i < |s| ==> !p(s[i])
    ensures r.Some? ==> exists i :: 0 <= i < |s| && s[i] == r.value && p(s[i])
                          && forall j :: 0 <= j < i ==> !p(s[j])
  {
    if s == [] then None
    else if p(s[0]) then Some(s[0])
    else
      var t := FirstWhere(s[1..], p);
      assert t.Some? ==> exists i :: 1 <= i < |s| && s[i] == t.value && p(s[i])
                          && forall j :: 0 <= j < i ==> !p(s[j]) by {
        if t.Some? {
          var i :| 0 <= i < |s[1..]| && s[1..][i] == t.value && p(s[1..][i])
                   && forall j :: 0 <= j < i ==> !p(s[1..][j]);
          assert s[i + 1] == t.value && forall j :: 0 <= j < i + 1 ==> !p(s[j]) by {
            forall j | 0 <= j < i + 1 ensures !p(s[j]) {
              if j > 0 { assert s[j] == s[1..][j - 1]; }
            }
          }
        }
      }
      t
  }

  /** `s` is in ascending order of `key` (the binary string order). */
  predicate SortedBy<T>(s: seq<T>, key: T -> string) {
    forall i, j :: 0 <= i < j < |s| ==> LexLe(key(s[i]), key(s[j]))
  }

  /** Inserts `x` before the first element whose key it does not exceed. */
  function InsertBy<T>(x: T, s: seq<T>, key: T -> string): (r: seq<T>)
    requires SortedBy(s, key)
    ensures SortedBy(r, key)
    ensures multiset(r) == multiset(s) + multiset{x}
  {
    if s == [] then [x]
    else if LexLe(key(x), key(s[0])) then
      assert forall y :: y in s ==> LexLe(key(s[0]), key(y)) by {
        forall y | y in s ensures LexLe(key(s[0]), key(y)) {
          var k :| 0 <= k < |s| && s[k] == y;
          if k == 0 { LexLeReflexive(key(y)); }
        }
      }
      assert forall y :: y in s ==> LexLe(key(x), key(y)) by {
        forall y | y in s ensures LexLe(key(x), key(y)) {
          LexLeTransitive(key(x), key(s[0]), key(y));
        }
      }
      [x] + s
    else
      var t := InsertBy(x, s[1..], key);
      LexLeTotal(key(x), key(s[0]));
      assert forall y :: y in t ==> LexLe(key(s[0]), key(y)) by {
        forall y | y in t ensures LexLe(key(s[0]), key(y)) {
          assert y in multiset(t);
          if y != x {
            assert y in multiset(s[1..]);
            var k :| 0 <= k < |s[1..]| && s[1..][k] == y;
            assert s[k + 1] == y;
          }
        }
      }
      assert s == [s[0]] + s[1..];
      [s[0]] + t
  }

  lemma {:induction false} LexLeReflexive(a: string)
    ensures LexLe(a, a)
    decreases |a|
  {
    if a != [] { LexLeReflexive(a[1..]); }
  }

  /** Orders `s` ascending by `key` (an ORDER BY clause); the result is a permutation of `s`. */
  function SortBy<T>(s: seq<T>, key: T -> string): (r: seq<T>)
    ensures SortedBy(r, key)
    ensures multiset(r) == multiset(s)
  {
    if s == [] then [] else
      assert s == [s[0]] + s[1..];
      InsertBy(s[0], SortBy(s[1..], key), key)
  }

  /** A sorted sequence starts with an element of least key. */
  lemma SortedHeadIsLeast<T>(s: seq<T>, key: T -> string)
    requires SortedBy(s, key) && s != []
    ensures forall y :: y in s ==> LexLe(key(s[0]), key(y))
  {
    forall y | y in s ensures LexLe(key(s[0]), key(y)) {
      var k :| 0 <= k < |s| && s[k] == y;
      if k == 0 { LexLeReflexive(key(y)); }
    }
  }

  /** Every two elements of `s`, in order, satisfy `P`. */
  predicate Pairwise<T>(s: seq<T>, P: (T, T) -> bool) {
    forall i, j :: 0 <= i < j < |s| ==> P(s[i], s[j])
  }

  /** Selecting elements keeps a pairwise property. */
  lemma {:induction false} FilterPairwise<T>(s: seq<T>, p: T -> bool, P: (T, T) -> bool)
    requires Pairwise(s, P)
    ensures Pairwise(Filter(s, p), P)
    decreases |s|
  {
    if s != [] {
      var tail := s[1..];
      assert Pairwise(tail, P) by {
        forall i, j | 0 <= i < j < |tail| ensures P(tail[i], tail[j]) {
          assert tail[i] == s[i + 1] && tail[j] == s[j + 1];
        }
      }
      FilterPairwise(tail, p, P);
      var ft := Filter(tail, p);
      if p(s[0]) {
        var r := [s[0]] + ft;
        forall i, j | 0 <= i < j < |r| ensures P(r[i], r[j]) {
          if i == 0 {
            assert r[j] == ft[j - 1] && ft[j - 1] in tail;
            var k :| 0 <= k < |tail| && tail[k] == ft[j - 1];
            assert s[k + 1] == r[j];
          } else {
            assert r[i] == ft[i - 1] && r[j] == ft[j - 1];
          }
        }
        assert Filter(s, p) == r;
      } else {
        assert Filter(s, p) == [] + ft;
        assert [] + ft == ft;
      }
    }
  }

  lemma {:induction false} FilterAppend<T>(a: seq<T>, b: seq<T>, p: T -> bool)
    ensures Filter(a + b, p) == Filter(a, p) + Filter(b, p)
    decreases |a|
  {
    if a == [] {
      assert a + b == b;
    } else {
      assert (a + b)[0] == a[0];
      assert (a + b)[1..] == a[1..] + b;
      FilterAppend(a[1..], b, p);
    }
  }

  /** A permutation has the same elements. */
  lemma SortedKeepsMembers<T>(s: seq<T>, r: seq<T>)
    requires multiset(r) == multiset(s)
    ensures forall i :: 0 <= i < |r| ==> r[i] in s
    ensures forall i :: 0 <= i < |s| ==> s[i] in r
  {
    forall i | 0 <= i < |r| ensures r[i] in s {
      assert r[i] in multiset(r);
    }
    forall i | 0 <= i < |s| ensures s[i] in r {
      assert s[i] in multiset(s);
    }
  }

  /** A condition every element satisfies selects the whole sequence. */
  lemma {:induction false} FilterKeepsAll<T>(s: seq<T>, p: T -> bool)
    requires forall i :: 0 <= i < |s| ==> p(s[i])
    ensures Filter(s, p) == s
    decreases |s|
  {
    if s != [] {
      assert p(s[0]);
      FilterKeepsAll(s[1..], p);
    }
  }

  /** Selecting from a sorted sequence keeps it sorted. */
  lemma {:induction false} FilterSorted<T>(s: seq<T>, key: T -> string, q: T -> bool)
    requires SortedBy(s, key)
    ensures SortedBy(Filter(s, q), key)
    decreases |s|
  {
    if s != [] {
      var tail := s[1..];
      assert SortedBy(tail, key) by {
        forall i, j | 0 <= i < j < |tail| ensures LexLe(key(tail[i]), key(tail[j])) {
          assert tail[i] == s[i + 1] && tail[j] == s[j + 1];
        }
      }
      FilterSorted(tail, key, q);
      var ft := Filter(tail, q);
      if q(s[0]) {
        var r := [s[0]] + ft;
        forall i, j | 0 <= i < j < |r| ensures LexLe(key(r[i]), key(r[j])) {
          if i == 0 {
            assert r[j] == ft[j - 1] && ft[j - 1] in tail;
            var k :| 0 <= k < |tail| && tail[k] == ft[j - 1];
            assert s[k + 1] == r[j];
          } else {
            assert r[i] == ft[i - 1] && r[j] == ft[j - 1];
          }
        }
        assert Filter(s, q) == r;
      } else {
        assert Filter(s, q) == ft;
      }
    }
  }

  /** Selecting from `[x] + s`. */
  lemma FilterCons<T>(x: T, s: seq<T>, q: T -> bool)
    ensures Filter([x] + s, q) == (if q(x) then [x] else []) + Filter(s, q)
  {
    assert ([x] + s)[0] == x && ([x] + s)[1..] == s;
  }

  /** The tail of a sorted sequence is sorted. */
  lemma SortedTail<T>(s: seq<T>, key: T -> string)
    requires SortedBy(s, key) && s != []
    ensures SortedBy(s[1..], key)
  {
    var tail := s[1..];
    forall i, j | 0 <= i < j < |tail| ensures LexLe(key(tail[i]), key(tail[j])) {
      assert tail[i] == s[i + 1] && tail[j] == s[j + 1];
    }
  }

  /** An element no greater than the head of a sorted sequence goes in front of any selection from it. */
  lemma InsertBeforeSelection<T>(x: T, t: seq<T>, key: T -> string, q: T -> bool)
    requires SortedBy(t, key) && t != [] && LexLe(key(x), key(t[0]))
    requires SortedBy(Filter(t, q), key)
    ensures InsertBy(x, Filter(t, q), key) == [x] + Filter(t, q)
  {
    var ft := Filter(t, q);
    if ft != [] {
      assert ft[0] in t;
      SortedHeadIsLeast(t, key);
      LexLeTransitive(key(x), key(t[0]), key(ft[0]));
    }
  }

  /** Selecting after inserting `x` is inserting `x`, when it is selected, after selecting. */
  lemma {:induction false} FilterInsertBy<T>(x: T, t: seq<T>, key: T -> string, q: T -> bool)
    requires SortedBy(t, key)
    ensures SortedBy(Filter(t, q), key)
    ensures Filter(InsertBy(x, t, key), q) == if q(x) then InsertBy(x, Filter(t, q), key) else Filter(t, q)
    decreases |t|
  {
    FilterSorted(t, key, q);
    if t == [] {
      FilterCons(x, [], q);
    } else if LexLe(key(x), key(t[0])) {
      assert InsertBy(x, t, key) == [x] + t;
      FilterCons(x, t, q);
      if q(x) {
        InsertBeforeSelection(x, t, key, q);
      }
    } else {
      SortedTail(t, key);
      FilterInsertBy(x, t[1..], key, q);
      FilterInsertAfterHead(x, t, key, q);
    }
  }

  /** The step of `FilterInsertBy` where `x` goes after the head of `t`. */
  lemma FilterInsertAfterHead<T>(x: T, t: seq<T>, key: T -> string, q: T -> bool)
    requires SortedBy(t, key) && t != [] && !LexLe(key(x), key(t[0]))
    requires SortedBy(t[1..], key) && SortedBy(Filter(t[1..], q), key) && SortedBy(Filter(t, q), key)
    requires Filter(InsertBy(x, t[1..], key), q) == if q(x) then InsertBy(x, Filter(t[1..], q), key) else Filter(t[1..], q)
    ensures Filter(InsertBy(x, t, key), q) == if q(x) then InsertBy(x, Filter(t, q), key) else Filter(t, q)
  {
    var it := InsertBy(x, t[1..], key);
    var ft := Filter(t[1..], q);
    var head: seq<T> := if q(t[0]) then [t[0]] else [];
    assert InsertBy(x, t, key) == [t[0]] + it;
    FilterCons(t[0], it, q);
    assert Filter(t, q) == head + ft;
    assert Filter(InsertBy(x, t, key), q) == head + Filter(it, q);
    if !q(t[0]) {
      assert head + Filter(it, q) == Filter(it, q);
      assert head + ft == ft;
    } else if q(x) {
      InsertAfterHead(x, t[0], ft, key);
    }
  }

  /** `x`, which exceeds `y`, is inserted into `[y] + s` after `y`. */
  lemma InsertAfterHead<T>(x: T, y: T, s: seq<T>, key: T -> string)
    requires !LexLe(key(x), key(y)) && SortedBy([y] + s, key) && SortedBy(s, key)
    ensures InsertBy(x, [y] + s, key) == [y] + InsertBy(x, s, key)
  {
    var g := [y] + s;
    assert g[0] == y && g[1..] == s;
  }

  /** Selecting from a sorted sequence gives the sorted selection. */
  lemma {:induction false} FilterSortBy<T>(s: seq<T>, key: T -> string, q: T -> bool)
    ensures Filter(SortBy(s, key), q) == SortBy(Filter(s, q), key)
    decreases |s|
  {
    if s != [] {
      var x, tail := s[0], s[1..];
      var sorted := SortBy(tail, key);
      assert SortBy(s, key) == InsertBy(x, sorted, key);
      FilterSortBy(tail, key, q);
      FilterInsertBy(x, sorted, key, q);
      assert s == [x] + tail;
      FilterCons(x, tail, q);
      var ft := Filter(tail, q);
      if q(x) {
        var f := Filter(s, q);
        assert f == [x] + ft;
        assert f[0] == x && f[1..] == ft;
        calc {
          Filter(SortBy(s, key), q);
          Filter(InsertBy(x, sorted, key), q);
          InsertBy(x, Filter(sorted, q), key);
          InsertBy(x, SortBy(ft, key), key);
          SortBy(f, key);
        }
      } else {
        assert Filter(s, q) == ft;
        calc {
          Filter(SortBy(s, key), q);
          Filter(InsertBy(x, sorted, key), q);
          Filter(sorted, q);
          SortBy(ft, key);
        }
      }
    }
  }

  /** Two selections can be made in either order. */
  lemma {:induction false} FilterCommutes<T>(s: seq<T>, p: T -> bool, q: T -> bool)
    ensures Filter(Filter(s, p), q) == Filter(Filter(s, q), p)
    decreases |s|
  {
    if s != [] {
      var tail := s[1..];
      FilterCommutes(tail, p, q);
      assert s == [s[0]] + tail;
      var fp := (if p(s[0]) then [s[0]] else []) + Filter(tail, p);
      var fq := (if q(s[0]) then [s[0]] else []) + Filter(tail, q);
      assert Filter(s, p) == fp && Filter(s, q) == fq;
      if p(s[0]) { assert fp[0] == s[0] && fp[1..] == Filter(tail, p); } else { assert fp == Filter(tail, p); }
      if q(s[0]) { assert fq[0] == s[0] && fq[1..] == Filter(tail, q); } else { assert fq == Filter(tail, q); }
    }
  }
}
