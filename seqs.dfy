/** Generic sequence helpers shared by the modules that scan lists in order. */
module Seqs {

  /** The index of the first element of `xs` that satisfies `p`, or `|xs|`. */
  function FirstIndexWhere<T>(xs: seq<T>, p: T -> bool): (k: nat)
    ensures k <= |xs|
    ensures forall j :: 0 <= j < k ==> !p(xs[j])
    ensures k < |xs| ==> p(xs[k])
  {
    if xs == [] || p(xs[0]) then 0 else 1 + FirstIndexWhere(xs[1..], p)
  }

  /** The first index where `p` holds is the one past a run of failures that ends
      at a success or at the end of `xs`. */
  lemma FirstIndexWhereAt<T>(xs: seq<T>, p: T -> bool, i: nat)
    requires i <= |xs|
    requires forall j :: 0 <= j < i ==> !p(xs[j])
    requires i == |xs| || p(xs[i])
    ensures FirstIndexWhere(xs, p) == i
  {
  }

  /** `[f(x) for x in xs]`, built from the end as a loop that appends does. */
  function Map<X, Y>(f: X -> Y, xs: seq<X>): (ys: seq<Y>)
    ensures |ys| == |xs|
    ensures forall i :: 0 <= i < |xs| ==> ys[i] == f(xs[i])
  {
    if xs == [] then [] else Map(f, xs[..|xs| - 1]) + [f(xs[|xs| - 1])]
  }

  /** One more element mapped at the end. */
  lemma MapSnoc<X, Y>(f: X -> Y, xs: seq<X>, i: nat)
    requires i < |xs|
    ensures Map(f, xs[..i + 1]) == Map(f, xs[..i]) + [f(xs[i])]
  {
    assert xs[..i + 1][..i] == xs[..i];
  }

  /** When every image under `f` satisfies `p` and every image under `g` satisfies
      `q`, the first part of the concatenation satisfies `p` and the rest `q`. */
  lemma MapAppendAll<X, Z, Y>(f: X -> Y, xs: seq<X>, g: Z -> Y, zs: seq<Z>, p: Y -> bool, q: Y -> bool)
    requires forall x :: p(f(x))
    requires forall z :: q(g(z))
    ensures forall i :: 0 <= i < |xs| ==> p((Map(f, xs) + Map(g, zs))[i])
    ensures forall j :: |xs| <= j < |xs| + |zs| ==> q((Map(f, xs) + Map(g, zs))[j])
  {
    forall k | 0 <= k < |xs| + |zs|
      ensures (Map(f, xs) + Map(g, zs))[k] == if k < |xs| then f(xs[k]) else g(zs[k - |xs|])
    {
      MapAppendAt(f, xs, g, zs, k);
    }
  }

  /** Position `k` of a concatenation of two mapped sequences is the image of the
      element it came from. */
  lemma MapAppendAt<X, Z, Y>(f: X -> Y, xs: seq<X>, g: Z -> Y, zs: seq<Z>, k: nat)
    requires k < |xs| + |zs|
    ensures |Map(f, xs) + Map(g, zs)| == |xs| + |zs|
    ensures (Map(f, xs) + Map(g, zs))[k] == if k < |xs| then f(xs[k]) else g(zs[k - |xs|])
  {
  }

  /** When a projection of every image under `f` is given by `fk` and under `g` by
      `gk`, the projections of a concatenation of mapped sequences follow their
      elements. */
  lemma MapAppendKeys<X, Z, Y, K>(f: X -> Y, xs: seq<X>, g: Z -> Y, zs: seq<Z>, key: Y -> K, fk: X -> K, gk: Z -> K)
    requires forall x :: key(f(x)) == fk(x)
    requires forall z :: key(g(z)) == gk(z)
    ensures |Map(f, xs) + Map(g, zs)| == |xs| + |zs|
    ensures forall i :: 0 <= i < |xs| ==> key((Map(f, xs) + Map(g, zs))[i]) == fk(xs[i])
    ensures forall j :: 0 <= j < |zs| ==> key((Map(f, xs) + Map(g, zs))[|xs| + j]) == gk(zs[j])
  {
    var ys := Map(f, xs) + Map(g, zs);
    forall i | 0 <= i < |xs|
      ensures key(ys[i]) == fk(xs[i])
    {
      MapAppendAt(f, xs, g, zs, i);
    }
    forall j | 0 <= j < |zs|
      ensures key(ys[|xs| + j]) == gk(zs[j])
    {
      MapAppendAt(f, xs, g, zs, |xs| + j);
    }
  }
}
