/** List operations the Kotlin collection pipelines are built from (`filter`, `any`, `firstOrNull`). */
module Seqs {
  import opened Wrappers

  /** `filter`: the elements that satisfy `p`, in their original order. */
  function Filter<T(!new)>(s: seq<T>, p: T -> bool): (r: seq<T>)
    ensures |r| <= |s|
    ensures forall x :: x in r <==> x in s && p(x)
    ensures forall i :: 0 <= i < |r| ==> p(r[i])
  {
    if s == [] then []
    else if p(s[0]) then [s[0]] + Filter(s[1..], p)
    else Filter(s[1..], p)
  }

  lemma {:induction false} FilterAppend<T(!new)>(a: seq<T>, b: seq<T>, p: T -> bool)
    ensures Filter(a + b, p) == Filter(a, p) + Filter(b, p)
  {
    var t := a + b;
    if a != [] {
      assert t[0] == a[0] && t[1..] == a[1..] + b;
      FilterAppend(a[1..], b, p);
      assert Filter(t, p) == (if p(a[0]) then [a[0]] else []) + Filter(t[1..], p);
      assert Filter(a, p) == (if p(a[0]) then [a[0]] else []) + Filter(a[1..], p);
    } else {
      assert t == b;
    }
  }

  lemma {:induction false} FilterAll<T(!new)>(s: seq<T>, p: T -> bool)
    requires forall x :: x in s ==> p(x)
    ensures Filter(s, p) == s
  {
    if s != [] {
      FilterAll(s[1..], p);
    }
  }

  /** Index of the first element satisfying `p` (`indexOfFirst`, or the element `firstOrNull` returns). */
  function FirstIndex<T>(s: seq<T>, p: T -> bool): (r: Option<nat>)
    ensures r.None? <==> forall i :: 0 <= i < |s| ==> !p(s[i])
    ensures r.Some? ==> r.value < |s| && p(s[r.value]) && forall i :: 0 <= i < r.value ==> !p(s[i])
  {
    if s == [] then None
    else if p(s[0]) then Some(0)
    else match FirstIndex(s[1..], p)
      case None => None
      case Some(k) => Some(k + 1)
  }

  /** The element `firstOrNull { p }` returns. */
  function FirstOrNone<T(!new)>(s: seq<T>, p: T -> bool): (r: Option<T>)
    ensures r.Some? ==> r.value in s && p(r.value)
    ensures r.None? <==> forall x :: x in s ==> !p(x)
  {
    match FirstIndex(s, p)
    case None => None
    case Some(k) => Some(s[k])
  }

  /** `map(f)` where `f` throws on some inputs: the first element `f` rejects fails the whole map. */
  function MapAll<T, U>(s: seq<T>, f: T -> Option<U>): (r: Option<seq<U>>)
    ensures r.Some? <==> forall i :: 0 <= i < |s| ==> f(s[i]).Some?
    ensures r.Some? ==> |r.value| == |s| && forall i :: 0 <= i < |s| ==> Some(r.value[i]) == f(s[i])
  {
    if s == [] then Some([])
    else match (f(s[0]), MapAll(s[1..], f))
      case (Some(v), Some(vs)) => Some([v] + vs)
      case _ => None
  }

  /** A map every element of which succeeds, with known results, gives those results. */
  lemma MapAllOf<T, U>(s: seq<T>, f: T -> Option<U>, r: seq<U>)
    requires |s| == |r| && forall i :: 0 <= i < |s| ==> f(s[i]) == Some(r[i])
    ensures MapAll(s, f) == Some(r)
  {
    var m := MapAll(s, f).value;
    forall i | 0 <= i < |s| ensures m[i] == r[i] {
      assert Some(m[i]) == f(s[i]);
    }
    assert m == r;
  }

  /** Mapping the kept elements fails exactly when a kept element fails, and every result
      comes from a kept element. */
  lemma MapAllFilter<T(!new), U(!new)>(s: seq<T>, p: T -> bool, f: T -> Option<U>)
    ensures MapAll(Filter(s, p), f).Some? <==> forall x :: x in s && p(x) ==> f(x).Some?
    ensures MapAll(Filter(s, p), f).Some? ==>
      forall v :: v in MapAll(Filter(s, p), f).value ==> exists x :: x in s && p(x) && f(x) == Some(v)
  {
    var kept := Filter(s, p);
    if MapAll(kept, f).Some? {
      var vs := MapAll(kept, f).value;
      forall v | v in vs
        ensures exists x :: x in s && p(x) && f(x) == Some(v)
      {
        var i :| 0 <= i < |vs| && vs[i] == v;
        assert kept[i] in kept;
      }
    } else {
      var i :| 0 <= i < |kept| && f(kept[i]).None?;
      assert kept[i] in kept;
    }
  }
}
