/**
 * Searches over sequences that the tools' line and argument loops share:
 * the first element with a property (a loop that stops there) and the last
 * one (a loop that overwrites a variable each time). The property is a
 * parameter, so these facts are proved once for every caller.
 */
module Seqs {
  import opened Wrappers

  /** The position of the first element with property `p`. */
  function FirstIndex<T>(xs: seq<T>, p: T -> bool): (r: Option<nat>)
    ensures r.Some? ==> r.value < |xs|
    decreases |xs|
  {
    if xs == [] then None
    else if p(xs[0]) then Some(0)
    else
      match FirstIndex(xs[1..], p)
      case None => None
      case Some(k) => Some(k + 1)
  }

  /** No element has `p` exactly when there is no first one; the first one has it and none before it does. */
  lemma {:induction false} FirstIndexSpec<T>(xs: seq<T>, p: T -> bool)
    ensures FirstIndex(xs, p).None? <==> forall i :: 0 <= i < |xs| ==> !p(xs[i])
    ensures FirstIndex(xs, p).Some? ==>
              var k := FirstIndex(xs, p).value;
              p(xs[k]) && forall i :: 0 <= i < k ==> !p(xs[i])
    decreases |xs|
  {
    if xs != [] && !p(xs[0]) {
      var tail := xs[1..];
      FirstIndexSpec(tail, p);
      assert forall i :: 0 <= i < |tail| ==> tail[i] == xs[i + 1];
      if FirstIndex(tail, p).None? {
        forall i | 0 <= i < |xs| ensures !p(xs[i]) {
          if i > 0 {
            assert xs[i] == tail[i - 1];
          }
        }
      }
    }
  }

  /** An element with `p` after elements without it is the first one. */
  lemma FirstIndexAt<T>(xs: seq<T>, p: T -> bool, i: nat)
    requires i < |xs| && p(xs[i])
    requires forall j :: 0 <= j < i ==> !p(xs[j])
    ensures FirstIndex(xs, p) == Some(i)
  {
    FirstIndexSpec(xs, p);
    var k := FirstIndex(xs, p);
    assert k.Some?;
    assert !(k.value < i) && !(i < k.value);
  }

  /**
   * A prefix without `p` extended by one element: that element is the first
   * with `p` in the whole sequence, or the longer prefix is still without `p`.
   */
  lemma FirstIndexStep<T>(xs: seq<T>, p: T -> bool, i: nat)
    requires i < |xs| && FirstIndex(xs[..i], p).None?
    ensures p(xs[i]) ==> FirstIndex(xs, p) == Some(i)
    ensures !p(xs[i]) ==> FirstIndex(xs[..i + 1], p).None?
  {
    var init := xs[..i];
    var longer := xs[..i + 1];
    FirstIndexSpec(init, p);
    assert forall j :: 0 <= j < i ==> init[j] == xs[j];
    if p(xs[i]) {
      FirstIndexAt(xs, p, i);
    } else {
      FirstIndexSpec(longer, p);
      assert forall j :: 0 <= j <= i ==> longer[j] == xs[j];
    }
  }

  /** A first element found in a prefix is the first in the whole sequence. */
  lemma FirstIndexPrefix<T>(xs: seq<T>, p: T -> bool, j: nat)
    requires j <= |xs| && FirstIndex(xs[..j], p).Some?
    ensures FirstIndex(xs, p) == FirstIndex(xs[..j], p)
  {
    var init := xs[..j];
    FirstIndexSpec(init, p);
    var k := FirstIndex(init, p).value;
    assert forall i :: 0 <= i <= k ==> init[i] == xs[i];
    FirstIndexAt(xs, p, k);
  }

  /** The position of the last element with property `p`. */
  function LastIndex<T>(xs: seq<T>, p: T -> bool): (r: Option<nat>)
    ensures r.Some? ==> r.value < |xs|
  {
    if xs == [] then None
    else if p(xs[|xs| - 1]) then Some(|xs| - 1)
    else LastIndex(xs[..|xs| - 1], p)
  }

  /** No element has `p` exactly when there is no last one; the last one has it and none after it does. */
  lemma {:induction false} LastIndexSpec<T>(xs: seq<T>, p: T -> bool)
    ensures LastIndex(xs, p).None? <==> forall i :: 0 <= i < |xs| ==> !p(xs[i])
    ensures LastIndex(xs, p).Some? ==>
              var k := LastIndex(xs, p).value;
              p(xs[k]) && forall i :: k < i < |xs| ==> !p(xs[i])
    decreases |xs|
  {
    if xs != [] && !p(xs[|xs| - 1]) {
      var init := xs[..|xs| - 1];
      LastIndexSpec(init, p);
      assert forall i :: 0 <= i < |init| ==> init[i] == xs[i];
    }
  }

  /** Extending a prefix by one element: that element is the last with `p`, or the earlier answer stands. */
  lemma LastIndexStep<T>(xs: seq<T>, p: T -> bool, i: nat)
    requires i < |xs|
    ensures LastIndex(xs[..i + 1], p) == if p(xs[i]) then Some(i) else LastIndex(xs[..i], p)
  {
    assert xs[..i + 1][..i] == xs[..i];
  }

  /** Some element has property `p`. */
  predicate AnyHas<T>(xs: seq<T>, p: T -> bool)
  {
    exists i :: 0 <= i < |xs| && p(xs[i])
  }

  /** Extending a prefix by one element adds exactly that element's verdict. */
  lemma AnyHasStep<T>(xs: seq<T>, p: T -> bool, i: nat)
    requires i < |xs|
    ensures AnyHas(xs[..i + 1], p) <==> AnyHas(xs[..i], p) || p(xs[i])
  {
    var longer := xs[..i + 1];
    if AnyHas(longer, p) {
      var j :| 0 <= j < |longer| && p(longer[j]);
      if j < i {
        assert xs[..i][j] == longer[j];
      }
    }
    if AnyHas(xs[..i], p) {
      var j :| 0 <= j < i && p(xs[..i][j]);
      assert longer[j] == xs[..i][j];
    }
    assert longer[i] == xs[i];
  }

  /** The number of elements with property `p`. */
  function Count<T>(xs: seq<T>, p: T -> bool): (n: nat)
    ensures n <= |xs|
  {
    if xs == [] then 0 else Count(xs[..|xs| - 1], p) + (if p(xs[|xs| - 1]) then 1 else 0)
  }

  /** Extending a prefix by one element counts that element once if it has `p`. */
  lemma CountStep<T>(xs: seq<T>, p: T -> bool, i: nat)
    requires i < |xs|
    ensures Count(xs[..i + 1], p) == Count(xs[..i], p) + (if p(xs[i]) then 1 else 0)
  {
    assert xs[..i + 1][..i] == xs[..i];
  }

  /** Nothing is counted exactly when no element has `p`. */
  lemma {:induction false} CountZero<T>(xs: seq<T>, p: T -> bool)
    ensures Count(xs, p) == 0 <==> !AnyHas(xs, p)
  {
    if xs != [] {
      var init := xs[..|xs| - 1];
      CountZero(init, p);
      AnyHasStep(xs, p, |xs| - 1);
      assert xs[..|xs|] == xs;
    }
  }

  /** The set of `f(x)` over the elements `x` with property `p`. */
  function Collect<T, U>(xs: seq<T>, p: T -> bool, f: T -> U): set<U>
  {
    if xs == [] then {}
    else Collect(xs[..|xs| - 1], p, f) + (if p(xs[|xs| - 1]) then {f(xs[|xs| - 1])} else {})
  }

  /** A value is collected exactly when some element with `p` maps to it. */
  lemma {:induction false} CollectSpec<T, U>(xs: seq<T>, p: T -> bool, f: T -> U, v: U)
    ensures v in Collect(xs, p, f) <==> exists i :: 0 <= i < |xs| && p(xs[i]) && f(xs[i]) == v
  {
    if xs != [] {
      var init := xs[..|xs| - 1];
      CollectSpec(init, p, f, v);
      if v in Collect(init, p, f) {
        var i :| 0 <= i < |init| && p(init[i]) && f(init[i]) == v;
        assert xs[i] == init[i];
      } else if exists i :: 0 <= i < |xs| && p(xs[i]) && f(xs[i]) == v {
        var i :| 0 <= i < |xs| && p(xs[i]) && f(xs[i]) == v;
        if i < |init| {
          assert init[i] == xs[i];
        }
      }
    }
  }

  /** Extending a prefix by one element collects that element's value if it has `p`. */
  lemma CollectStep<T, U>(xs: seq<T>, p: T -> bool, f: T -> U, i: nat)
    requires i < |xs|
    ensures Collect(xs[..i + 1], p, f) == Collect(xs[..i], p, f) + (if p(xs[i]) then {f(xs[i])} else {})
  {
    assert xs[..i + 1][..i] == xs[..i];
  }

  /** There are no more distinct values than elements with `p`. */
  lemma {:induction false} CollectAtMostCount<T, U>(xs: seq<T>, p: T -> bool, f: T -> U)
    ensures |Collect(xs, p, f)| <= Count(xs, p)
  {
    if xs != [] {
      CollectAtMostCount(xs[..|xs| - 1], p, f);
    }
  }
  /** The elements with property `p`, in their order. */
  function Filter<T>(xs: seq<T>, p: T -> bool): (r: seq<T>)
    ensures |r| == Count(xs, p)
  {
    if xs == [] then []
    else Filter(xs[..|xs| - 1], p) + (if p(xs[|xs| - 1]) then [xs[|xs| - 1]] else [])
  }

  /** Extending a prefix by one element keeps that element if it has `p`. */
  lemma FilterStep<T>(xs: seq<T>, p: T -> bool, i: nat)
    requires i < |xs|
    ensures Filter(xs[..i + 1], p) == Filter(xs[..i], p) + (if p(xs[i]) then [xs[i]] else [])
  {
    assert xs[..i + 1][..i] == xs[..i];
  }

  /** A value is kept exactly when it occurs with property `p`. */
  lemma {:induction false} FilterSpec<T>(xs: seq<T>, p: T -> bool, v: T)
    ensures v in Filter(xs, p) <==> v in xs && p(v)
  {
    if xs != [] {
      var init := xs[..|xs| - 1];
      FilterSpec(init, p, v);
      assert xs == init + [xs[|xs| - 1]];
    }
  }
}
