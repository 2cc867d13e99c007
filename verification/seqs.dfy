/** The array methods the routes chain together: `findIndex` / `find`
    (first match from a start row) and `map(...).filter(...)`, with
    `filter` as the special case whose map is the identity. */
module Seqs {
  import opened Wrappers

  /** `xs.findIndex(pred)` restricted to positions `start..`: the first
      position at or after `start` whose element satisfies `pred`. */
  function FirstFrom<T>(xs: seq<T>, start: nat, pred: T -> bool): (r: Option<nat>)
    ensures r.Some? ==> start <= r.value < |xs| && pred(xs[r.value])
    ensures r.Some? ==> forall j :: start <= j < r.value ==> !pred(xs[j])
    ensures r.None? ==> forall j :: start <= j < |xs| ==> !pred(xs[j])
    decreases |xs| - start
  {
    if start >= |xs| then None
    else if pred(xs[start]) then Some(start)
    else FirstFrom(xs, start + 1, pred)
  }

  /** Maps every element and keeps the defined results, in order. */
  function FilterMap<A, B>(xs: seq<A>, f: A -> Option<B>): (ys: seq<B>)
    ensures |ys| <= |xs|
  {
    if xs == [] then []
    else
      var rest := FilterMap(xs[1..], f);
      match f(xs[0])
      case Some(y) => [y] + rest
      case None => rest
  }

  /** Every position moved one place to the right. */
  function Shift(idx: seq<nat>): (r: seq<nat>)
    ensures |r| == |idx|
    ensures forall k :: 0 <= k < |idx| ==> r[k] == idx[k] + 1
  {
    seq(|idx|, k requires 0 <= k < |idx| => idx[k] + 1)
  }

  /** The positions of `xs` that `FilterMap` keeps, in increasing order. */
  function KeptIndices<A, B>(xs: seq<A>, f: A -> Option<B>): seq<nat> {
    if xs == [] then []
    else if f(xs[0]).Some? then [0] + Shift(KeptIndices(xs[1..], f))
    else Shift(KeptIndices(xs[1..], f))
  }

  /** The selection facts `FilterMapSelects` states, for given `xs`, `ys`
      and `idx`. */
  ghost predicate SelectedBy<A, B>(xs: seq<A>, f: A -> Option<B>, ys: seq<B>, idx: seq<nat>) {
    && |idx| == |ys|
    && (forall k :: 0 <= k < |idx| ==> idx[k] < |xs| && f(xs[idx[k]]) == Some(ys[k]))
    && (forall k, l :: 0 <= k < l < |idx| ==> idx[k] < idx[l])
    && (forall i :: 0 <= i < |xs| ==> (f(xs[i]).Some? <==> i in idx))
  }

  lemma {:induction false} KeptCount<A, B>(xs: seq<A>, f: A -> Option<B>)
    ensures |KeptIndices(xs, f)| == |FilterMap(xs, f)|
  {
    if xs != [] {
      KeptCount(xs[1..], f);
    }
  }

  lemma {:induction false} KeptValues<A, B>(xs: seq<A>, f: A -> Option<B>)
    ensures |KeptIndices(xs, f)| == |FilterMap(xs, f)|
    ensures forall k :: 0 <= k < |KeptIndices(xs, f)| ==>
              KeptIndices(xs, f)[k] < |xs| && f(xs[KeptIndices(xs, f)[k]]) == Some(FilterMap(xs, f)[k])
  {
    KeptCount(xs, f);
    if xs != [] {
      var t := xs[1..];
      KeptValues(t, f);
      var tidx := KeptIndices(t, f);
      var tys := FilterMap(t, f);
      var rest := Shift(tidx);
      forall k | 0 <= k < |rest| ensures rest[k] < |xs| && f(xs[rest[k]]) == Some(tys[k]) {
        assert xs[rest[k]] == t[tidx[k]];
      }
    }
  }

  lemma {:induction false} KeptIncreasing<A, B>(xs: seq<A>, f: A -> Option<B>)
    ensures forall k :: 0 <= k < |KeptIndices(xs, f)| ==> KeptIndices(xs, f)[k] < |xs|
    ensures forall k, l :: 0 <= k < l < |KeptIndices(xs, f)| ==> KeptIndices(xs, f)[k] < KeptIndices(xs, f)[l]
  {
    if xs != [] {
      KeptIncreasing(xs[1..], f);
    }
  }

  lemma {:induction false} KeptExactly<A, B>(xs: seq<A>, f: A -> Option<B>)
    ensures forall i :: 0 <= i < |xs| ==> (f(xs[i]).Some? <==> i in KeptIndices(xs, f))
  {
    if xs != [] {
      var t := xs[1..];
      KeptExactly(t, f);
      var tidx := KeptIndices(t, f);
      var rest := Shift(tidx);
      forall i | 1 <= i < |xs| ensures f(xs[i]).Some? <==> i in rest {
        assert xs[i] == t[i - 1];
        if i - 1 in tidx {
          var k :| 0 <= k < |tidx| && tidx[k] == i - 1;
          assert rest[k] == i;
        }
        if i in rest {
          var k :| 0 <= k < |rest| && rest[k] == i;
          assert tidx[k] == i - 1;
        }
      }
      assert 0 !in rest;
    }
  }

  /** `KeptIndices` is the witness that `FilterMap` is an order-preserving
      selection: output `k` is the mapped element at position `idx[k]`, the
      positions increase, and a position is kept exactly when `f` is
      defined there. */
  lemma FilterMapSelects<A, B>(xs: seq<A>, f: A -> Option<B>)
    ensures SelectedBy(xs, f, FilterMap(xs, f), KeptIndices(xs, f))
  {
    KeptValues(xs, f);
    KeptIncreasing(xs, f);
    KeptExactly(xs, f);
  }

  /** Dropping every element leaves nothing. */
  lemma {:induction false} FilterMapNone<A, B>(xs: seq<A>, f: A -> Option<B>)
    requires forall i :: 0 <= i < |xs| ==> f(xs[i]).None?
    ensures FilterMap(xs, f) == []
  {
    if xs != [] {
      FilterMapNone(xs[1..], f);
    }
  }

  /** Keeping every element unchanged is the identity. */
  lemma {:induction false} FilterMapAll<A>(xs: seq<A>, f: A -> Option<A>)
    requires forall i :: 0 <= i < |xs| ==> f(xs[i]) == Some(xs[i])
    ensures FilterMap(xs, f) == xs
  {
    if xs != [] {
      FilterMapAll(xs[1..], f);
    }
  }
}
