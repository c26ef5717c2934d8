/** Sequence helpers used by the chunkers: mapping, filtering, concatenation of a
    list of lists, sums, and the successful results of a list of service calls. */
module Seqs {
  import opened Outcomes

  /** `f` applied to every element, in order. */
  function Map<A, B>(xs: seq<A>, f: A -> B): (ys: seq<B>)
    ensures |ys| == |xs|
    ensures forall k :: 0 <= k < |xs| ==> ys[k] == f(xs[k])
  {
    if xs == [] then [] else [f(xs[0])] + Map(xs[1..], f)
  }

  lemma MapAppend<A, B>(xs: seq<A>, ys: seq<A>, f: A -> B)
    ensures Map(xs + ys, f) == Map(xs, f) + Map(ys, f)
  {
    assert forall k :: 0 <= k < |xs + ys| ==> Map(xs + ys, f)[k] == (Map(xs, f) + Map(ys, f))[k];
  }

  /** The elements of `xs` that satisfy `keep`, in order. */
  function Filter<T>(xs: seq<T>, keep: T -> bool): (ys: seq<T>)
    ensures |ys| <= |xs|
    ensures forall k :: 0 <= k < |ys| ==> keep(ys[k])
  {
    if xs == [] then []
    else
      var n := |xs| - 1;
      Filter(xs[..n], keep) + (if keep(xs[n]) then [xs[n]] else [])
  }

  /** Filtering drops exactly the elements that fail `keep`. */
  lemma {:induction false} FilterMember<T>(xs: seq<T>, keep: T -> bool, x: T)
    ensures x in Filter(xs, keep) <==> x in xs && keep(x)
  {
    if xs != [] {
      var n := |xs| - 1;
      FilterMember(xs[..n], keep, x);
      assert xs == xs[..n] + [xs[n]];
    }
  }

  lemma {:induction false} FilterAppend<T>(xs: seq<T>, ys: seq<T>, keep: T -> bool)
    ensures Filter(xs + ys, keep) == Filter(xs, keep) + Filter(ys, keep)
    decreases |ys|
  {
    if ys == [] {
      assert xs + ys == xs;
    } else {
      var n := |ys| - 1;
      FilterAppend(xs, ys[..n], keep);
      assert (xs + ys)[..|xs| + n] == xs + ys[..n];
    }
  }

  /** The values of the successful results, in order: what a loop collects when it
      appends the result of each call that did not raise and skips the others. */
  function Successes<T>(rs: seq<Result<T>>): (vs: seq<T>)
    ensures |vs| <= |rs|
  {
    if rs == [] then []
    else
      var n := |rs| - 1;
      Successes(rs[..n]) + (if rs[n].Success? then [rs[n].value] else [])
  }

  /** Nothing is collected exactly when every call failed. */
  lemma {:induction false} SuccessesEmpty<T>(rs: seq<Result<T>>)
    ensures Successes(rs) == [] <==> forall k :: 0 <= k < |rs| ==> rs[k].Failure?
  {
    if rs != [] {
      var n := |rs| - 1;
      SuccessesEmpty(rs[..n]);
      assert forall k :: 0 <= k < n ==> rs[..n][k] == rs[k];
    }
  }

  /** A value is collected exactly when some call returned it. */
  lemma {:induction false} SuccessesMember<T>(rs: seq<Result<T>>, v: T)
    ensures v in Successes(rs) <==> Success(v) in rs
  {
    if rs != [] {
      var n := |rs| - 1;
      SuccessesMember(rs[..n], v);
      assert rs == rs[..n] + [rs[n]];
    }
  }

  /** When no call fails, every result is collected, in place. */
  lemma {:induction false} SuccessesAll<T>(rs: seq<Result<T>>)
    requires forall k :: 0 <= k < |rs| ==> rs[k].Success?
    ensures |Successes(rs)| == |rs|
    ensures forall k :: 0 <= k < |rs| ==> Successes(rs)[k] == rs[k].value
  {
    if rs != [] {
      var n := |rs| - 1;
      SuccessesAll(rs[..n]);
    }
  }

  /** The concatenation of all the lists in `xss`, in order. */
  function Flatten<T>(xss: seq<seq<T>>): seq<T>
  {
    if xss == [] then [] else xss[0] + Flatten(xss[1..])
  }

  lemma {:induction false} FlattenAppend<T>(xss: seq<seq<T>>, yss: seq<seq<T>>)
    ensures Flatten(xss + yss) == Flatten(xss) + Flatten(yss)
  {
    if xss == [] {
      assert xss + yss == yss;
    } else {
      assert (xss + yss)[1..] == xss[1..] + yss;
      FlattenAppend(xss[1..], yss);
    }
  }

  /** Sum of `cost` over the elements of `xs`. */
  function SumOf<T>(xs: seq<T>, cost: T -> nat): nat
  {
    if xs == [] then 0 else cost(xs[0]) + SumOf(xs[1..], cost)
  }

  lemma {:induction false} SumOfAppend<T>(xs: seq<T>, x: T, cost: T -> nat)
    ensures SumOf(xs + [x], cost) == SumOf(xs, cost) + cost(x)
  {
    if xs == [] {
      assert xs + [x] == [x];
    } else {
      assert (xs + [x])[1..] == xs[1..] + [x];
      SumOfAppend(xs[1..], x, cost);
    }
  }
}
