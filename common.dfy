/**
 * Small shared vocabulary: optional values, results, and the list
 * operations (`filter`, `map`) that the JavaScript code uses on arrays.
 */
module Common {

  /** JavaScript `null`/`undefined` versus a present value. */
  datatype Option<+T> = None | Some(value: T)

  /** A value, or the error an operation raises instead of returning. */
  datatype Result<+T, +E> = Ok(value: T) | Err(error: E)

  /** No element occurs twice. */
  predicate Distinct<T(==)>(s: seq<T>)
  {
    forall i, j :: 0 <= i < j < |s| ==> s[i] != s[j]
  }

  /** `xs.filter(p)`: the elements of `s` satisfying `p`, in their original order. */
  function Filter<T(==,!new)>(s: seq<T>, p: T -> bool): (r: seq<T>)
    ensures |r| <= |s|
  {
    if s == [] then []
    else Filter(s[..|s| - 1], p) + (if p(s[|s| - 1]) then [s[|s| - 1]] else [])
  }

  /** The filtered sequence holds exactly the elements satisfying `p`. */
  lemma {:induction false} FilterMembers<T(!new)>(s: seq<T>, p: T -> bool)
    ensures forall x :: x in Filter(s, p) <==> x in s && p(x)
    ensures forall i :: 0 <= i < |Filter(s, p)| ==> p(Filter(s, p)[i])
  {
    if s != [] {
      var init := s[..|s| - 1];
      FilterMembers(init, p);
      assert s == init + [s[|s| - 1]];
    }
  }

  /** Filtering a sequence without repetitions gives one without repetitions. */
  lemma {:induction false} FilterDistinct<T(!new)>(s: seq<T>, p: T -> bool)
    requires Distinct(s)
    ensures Distinct(Filter(s, p))
  {
    if s != [] {
      var init, x := s[..|s| - 1], s[|s| - 1];
      FilterDistinct(init, p);
      FilterMembers(init, p);
      assert forall i :: 0 <= i < |init| ==> init[i] == s[i];
    }
  }

  /** Filtering a sequence extended at the end filters the new element on its own. */
  lemma FilterSnoc<T(!new)>(s: seq<T>, x: T, p: T -> bool)
    ensures Filter(s + [x], p) == Filter(s, p) + (if p(x) then [x] else [])
  {
    assert (s + [x])[..|s + [x]| - 1] == s;
  }

  /** `s` occurs in `t` in order, possibly with other elements in between. */
  predicate Subsequence<T(==)>(s: seq<T>, t: seq<T>)
  {
    if s == [] then true
    else if t == [] then false
    else if s[|s| - 1] == t[|t| - 1] then Subsequence(s[..|s| - 1], t[..|t| - 1])
    else Subsequence(s, t[..|t| - 1])
  }

  /** Filtering keeps the surviving elements in their relative order. */
  lemma {:induction false} FilterIsSubsequence<T(!new)>(s: seq<T>, p: T -> bool)
    ensures Subsequence(Filter(s, p), s)
  {
    if s != [] {
      var init, x := s[..|s| - 1], s[|s| - 1];
      assert s == init + [x];
      FilterIsSubsequence(init, p);
      if p(x) {
        assert Filter(s, p) == Filter(init, p) + [x];
        assert (Filter(init, p) + [x])[..|Filter(s, p)| - 1] == Filter(init, p);
      } else {
        assert Filter(s, p) == Filter(init, p);
        SubsequenceDropLast(Filter(init, p), init, x);
      }
    }
  }

  /** A subsequence of `t` is a subsequence of `t` extended at the end. */
  lemma {:induction false} SubsequenceDropLast<T>(s: seq<T>, t: seq<T>, x: T)
    requires Subsequence(s, t)
    ensures Subsequence(s, t + [x])
    decreases |t|, 1
  {
    assert (t + [x])[..|t + [x]| - 1] == t;
    if s != [] && s[|s| - 1] == x {
      SubsequenceInit(s, t);
    }
  }

  /** Removing the last element of a subsequence keeps it a subsequence. */
  lemma {:induction false} SubsequenceInit<T>(s: seq<T>, t: seq<T>)
    requires s != [] && Subsequence(s, t)
    ensures Subsequence(s[..|s| - 1], t)
    decreases |t|, 0
  {
    var ti, y := t[..|t| - 1], t[|t| - 1];
    assert ti + [y] == t;
    if s[|s| - 1] != y {
      SubsequenceInit(s, ti);
    }
    SubsequenceDropLast(s[..|s| - 1], ti, y);
  }

  /** `items.map(f)`. */
  function MapSeq<T, R>(f: T -> R, items: seq<T>): (r: seq<R>)
    ensures |r| == |items|
    ensures forall i :: 0 <= i < |items| ==> r[i] == f(items[i])
  {
    seq(|items|, i requires 0 <= i < |items| => f(items[i]))
  }

  /** `xs.reverse()`, as a value. */
  function Reverse<T>(s: seq<T>): (r: seq<T>)
    ensures |r| == |s|
    ensures forall i :: 0 <= i < |s| ==> r[i] == s[|s| - 1 - i]
  {
    seq(|s|, i requires 0 <= i < |s| => s[|s| - 1 - i])
  }

  /** Filtering by two predicates that agree on the elements gives the same result. */
  lemma {:induction false} FilterCongruent<T(!new)>(s: seq<T>, p: T -> bool, q: T -> bool)
    requires forall x :: x in s ==> p(x) == q(x)
    ensures Filter(s, p) == Filter(s, q)
  {
    if s != [] {
      FilterCongruent(s[..|s| - 1], p, q);
    }
  }

  /** Filtering again by a stronger predicate is filtering once by it. */
  lemma {:induction false} FilterFilter<T(!new)>(s: seq<T>, p: T -> bool, q: T -> bool)
    requires forall x :: x in s && q(x) ==> p(x)
    ensures Filter(Filter(s, p), q) == Filter(s, q)
  {
    if s != [] {
      var init, x := s[..|s| - 1], s[|s| - 1];
      assert forall y :: y in init ==> y in s;
      FilterFilter(init, p, q);
      var f := Filter(init, p);
      if p(x) {
        assert Filter(s, p) == f + [x];
        FilterSnoc(f, x, q);
        assert Filter(f + [x], q) == Filter(f, q) + (if q(x) then [x] else []);
      } else {
        assert Filter(s, p) == f;
        assert !q(x);
        assert Filter(s, q) == Filter(init, q);
      }
    }
  }

  /** Filtering keeps an injective labelling injective. */
  lemma {:induction false} FilterKeepsInjective<T(!new), K>(s: seq<T>, p: T -> bool, f: T -> K)
    requires forall i, j :: 0 <= i < j < |s| ==> f(s[i]) != f(s[j])
    ensures forall i, j :: 0 <= i < j < |Filter(s, p)| ==> f(Filter(s, p)[i]) != f(Filter(s, p)[j])
  {
    if s != [] {
      var init, x := s[..|s| - 1], s[|s| - 1];
      FilterKeepsInjective(init, p, f);
      var r0 := Filter(init, p);
      FilterMembers(init, p);
      var r := r0 + (if p(x) then [x] else []);
      assert Filter(s, p) == r;
      forall i, j | 0 <= i < j < |r| ensures f(r[i]) != f(r[j]) {
        if j < |r0| {
          assert r[i] == r0[i] && r[j] == r0[j];
          assert f(r0[i]) != f(r0[j]);
        } else {
          assert r[i] == r0[i] && r[j] == x == s[|s| - 1];
          assert r0[i] in init;
          var k :| 0 <= k < |init| && init[k] == r0[i];
          assert s[k] == r0[i];
          assert f(s[k]) != f(s[|s| - 1]);
        }
      }
    }
  }
}
