/** The array operations the handlers are built from: `filter`, `map` with a
    conditional replacement, `find`, and pairwise properties of a sequence. */
module Seqs {
  import opened Wrappers

  /** `Array.prototype.filter`: the elements satisfying `keep`, in their original order. */
  function Filter<T>(s: seq<T>, keep: T -> bool): (r: seq<T>)
    ensures |r| <= |s|
    ensures forall i :: 0 <= i < |r| ==> r[i] in s && keep(r[i])
    ensures forall i :: 0 <= i < |s| && keep(s[i]) ==> s[i] in r
    ensures (forall i :: 0 <= i < |s| ==> keep(s[i])) ==> r == s
  {
    if |s| == 0 then []
    else
      assert [s[0]] + s[1..] == s;
      (if keep(s[0]) then [s[0]] else []) + Filter(s[1..], keep)
  }

  /** Filtering distributes over concatenation, so the kept elements stay in order. */
  lemma {:induction false} FilterConcat<T>(a: seq<T>, b: seq<T>, keep: T -> bool)
    ensures Filter(a + b, keep) == Filter(a, keep) + Filter(b, keep)
  {
    if |a| == 0 {
      assert a + b == b;
    } else {
      assert (a + b)[1..] == a[1..] + b;
      FilterConcat(a[1..], b, keep);
    }
  }

  /** Filtering out the one rejected element between two kept runs joins the runs,
      in order. */
  lemma FilterDropsOne<T>(a: seq<T>, x: T, b: seq<T>, keep: T -> bool)
    requires forall i :: 0 <= i < |a| ==> keep(a[i])
    requires forall i :: 0 <= i < |b| ==> keep(b[i])
    requires !keep(x)
    ensures Filter(a + [x] + b, keep) == a + b
  {
    assert Filter(a, keep) == a;
    assert Filter(b, keep) == b;
    assert Filter([x], keep) == [];
    assert Filter(a + [x], keep) == a by { FilterConcat(a, [x], keep); }
    FilterConcat(a + [x], b, keep);
  }

  /** A map that rewrites the selected elements with `f` and keeps every other one. */
  function Replace<T>(s: seq<T>, sel: T -> bool, f: T -> T): (r: seq<T>)
    ensures |r| == |s|
    ensures forall i :: 0 <= i < |s| ==> r[i] == (if sel(s[i]) then f(s[i]) else s[i])
  {
    if |s| == 0 then [] else [if sel(s[0]) then f(s[0]) else s[0]] + Replace(s[1..], sel, f)
  }

  /** `Array.prototype.map`. */
  function Map<T, U>(s: seq<T>, f: T -> U): (r: seq<U>)
    ensures |r| == |s|
    ensures forall i :: 0 <= i < |s| ==> r[i] == f(s[i])
  {
    if |s| == 0 then [] else [f(s[0])] + Map(s[1..], f)
  }

  /** Mapping with `g` after `f` is the identity when `g` undoes `f`. */
  lemma {:induction false} MapInverse<T, U>(s: seq<T>, f: T -> U, g: U -> T)
    requires forall i :: 0 <= i < |s| ==> g(f(s[i])) == s[i]
    ensures Map(Map(s, f), g) == s
  {
    if |s| > 0 {
      MapInverse(s[1..], f, g);
      assert Map(Map(s, f), g) == [s[0]] + s[1..];
    }
  }

  /** `Array.prototype.findIndex`, as an option: the first position satisfying `p`. */
  function FindIndex<T>(s: seq<T>, p: T -> bool): (r: Option<nat>)
    ensures r.Some? ==> r.value < |s| && p(s[r.value])
    ensures r.Some? ==> forall j :: 0 <= j < r.value ==> !p(s[j])
    ensures r.None? <==> forall j :: 0 <= j < |s| ==> !p(s[j])
  {
    if |s| == 0 then None
    else if p(s[0]) then Some(0)
    else match FindIndex(s[1..], p)
      case None => None
      case Some(k) => Some(k + 1)
  }

  /** `Array.prototype.find`: the first element satisfying `p`, if any. */
  function Find<T>(s: seq<T>, p: T -> bool): (r: Option<T>)
    ensures r.Some? ==> r.value in s && p(r.value)
    ensures r.Some? ==> exists k :: 0 <= k < |s| && s[k] == r.value && forall j :: 0 <= j < k ==> !p(s[j])
    ensures r.None? <==> forall i :: 0 <= i < |s| ==> !p(s[i])
  {
    match FindIndex(s, p)
    case None => None
    case Some(k) => Some(s[k])
  }

  /** Every earlier element is related to every later one by `ok`. */
  predicate Pairwise<T>(s: seq<T>, ok: (T, T) -> bool) {
    forall i, j :: 0 <= i < j < |s| ==> ok(s[i], s[j])
  }

  /** Prepending `x` keeps a pairwise property when `x` is related to every element. */
  lemma PairwisePrepend<T>(x: T, s: seq<T>, ok: (T, T) -> bool)
    requires Pairwise(s, ok)
    requires forall i :: 0 <= i < |s| ==> ok(x, s[i])
    ensures Pairwise([x] + s, ok)
  {
    var t := [x] + s;
    forall i, j | 0 <= i < j < |t|
      ensures ok(t[i], t[j])
    {
      if i > 0 {
        assert t[i] == s[i - 1] && t[j] == s[j - 1];
      } else {
        assert t[j] == s[j - 1];
      }
    }
  }

  /** Filtering keeps a pairwise property: it only ever removes elements. */
  lemma {:induction false} FilterPairwise<T>(s: seq<T>, keep: T -> bool, ok: (T, T) -> bool)
    requires Pairwise(s, ok)
    ensures Pairwise(Filter(s, keep), ok)
  {
    if |s| > 0 {
      var tail := s[1..];
      assert Pairwise(tail, ok) by {
        forall i, j | 0 <= i < j < |tail|
          ensures ok(tail[i], tail[j])
        {
          assert tail[i] == s[i + 1] && tail[j] == s[j + 1];
        }
      }
      FilterPairwise(tail, keep, ok);
      var ft := Filter(tail, keep);
      if keep(s[0]) {
        forall i | 0 <= i < |ft|
          ensures ok(s[0], ft[i])
        {
          assert ft[i] in tail;
          var k :| 0 <= k < |tail| && tail[k] == ft[i];
          assert s[k + 1] == ft[i];
        }
        PairwisePrepend(s[0], ft, ok);
      } else {
        assert Filter(s, keep) == ft;
      }
    }
  }
}
