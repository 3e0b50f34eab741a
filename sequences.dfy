/**
 * First-seen order: the distinct elements of a sequence, each placed where it
 * first occurs. This is the iteration order of a JavaScript `Map` or `Set`
 * filled by scanning the sequence, and of an array grown by "push unless
 * `includes`".
 */
module Sequences {

  ghost predicate Distinct<T>(xs: seq<T>)
  {
    forall i, j :: 0 <= i < j < |xs| ==> xs[i] != xs[j]
  }

  /** Adds `x` at the end unless it is already present. */
  function AppendNew(xs: seq<string>, x: string): (r: seq<string>)
    ensures forall y :: y in r <==> y in xs || y == x
    ensures Distinct(xs) ==> Distinct(r)
    ensures x in xs ==> r == xs
    ensures x !in xs ==> |r| == |xs| + 1 && r[..|xs|] == xs
  {
    if x in xs then xs else xs + [x]
  }

  /** The distinct elements of `xs` in the order of their first occurrence. */
  function FirstSeen(xs: seq<string>): (r: seq<string>)
    ensures Distinct(r)
    ensures forall y :: y in r <==> y in xs
    ensures |r| <= |xs|
  {
    if xs == [] then [] else AppendNew(FirstSeen(xs[..|xs| - 1]), xs[|xs| - 1])
  }

  lemma FirstSeenSnoc(xs: seq<string>, x: string)
    ensures FirstSeen(xs + [x]) == AppendNew(FirstSeen(xs), x)
  {
    assert (xs + [x])[..|xs|] == xs;
  }

  /** The sequences of `xss` one after the other. */
  function Concat<T>(xss: seq<seq<T>>): seq<T>
  {
    if xss == [] then [] else Concat(xss[..|xss| - 1]) + xss[|xss| - 1]
  }

  /** Every element of a concatenation comes from one of the parts. */
  lemma {:induction false} ConcatIndex<T>(xss: seq<seq<T>>, i: nat)
    requires i < |Concat(xss)|
    ensures exists k, j :: 0 <= k < |xss| && 0 <= j < |xss[k]| && Concat(xss)[i] == xss[k][j]
  {
    var n := |xss| - 1;
    var front := Concat(xss[..n]);
    if i < |front| {
      ConcatIndex(xss[..n], i);
      var k, j :| 0 <= k < n && 0 <= j < |xss[..n][k]| && front[i] == xss[..n][k][j];
      assert xss[..n][k] == xss[k];
    } else {
      assert Concat(xss)[i] == xss[n][i - |front|];
    }
  }

  /** Every element of every part is in the concatenation. */
  lemma {:induction false} ConcatIncludes<T>(xss: seq<seq<T>>, k: nat, j: nat)
    requires k < |xss| && j < |xss[k]|
    ensures xss[k][j] in Concat(xss)
  {
    var n := |xss| - 1;
    var front := Concat(xss[..n]);
    if k < n {
      ConcatIncludes(xss[..n], k, j);
      assert xss[..n][k] == xss[k];
    } else {
      assert Concat(xss)[|front| + j] == xss[k][j];
    }
  }

  /** A property of every entry with its position survives appending one more entry that has it. */
  lemma EveryAppended<T>(p: (T, nat) -> bool, xs: seq<T>, x: T)
    requires forall k :: 0 <= k < |xs| ==> p(xs[k], k)
    requires p(x, |xs|)
    ensures forall k :: 0 <= k < |xs + [x]| ==> p((xs + [x])[k], k)
  {
    forall k | 0 <= k < |xs + [x]|
      ensures p((xs + [x])[k], k)
    {
      if k < |xs| {
        assert (xs + [x])[k] == xs[k];
      }
    }
  }

  /** Position of the first occurrence of `x`. */
  function IndexOf(xs: seq<string>, x: string): (i: nat)
    requires x in xs
    ensures i < |xs| && xs[i] == x
    ensures forall j :: 0 <= j < i ==> xs[j] != x
  {
    if xs[0] == x then 0 else 1 + IndexOf(xs[1..], x)
  }

  /** Appending never moves a first occurrence. */
  lemma IndexOfPrefix(xs: seq<string>, ys: seq<string>, x: string)
    requires x in xs
    ensures IndexOf(xs + ys, x) == IndexOf(xs, x)
  {
    var i := IndexOf(xs, x);
    assert (xs + ys)[i] == x;
  }

  /** An element met for the first time at the end has its first occurrence there. */
  lemma IndexOfNew(xs: seq<string>, x: string)
    requires x !in xs
    ensures IndexOf(xs + [x], x) == |xs|
  {
    assert (xs + [x])[|xs|] == x;
  }

  /**
   * First-seen order: of two entries of `FirstSeen(xs)`, the earlier one
   * occurs first in `xs`.
   */
  lemma {:induction false} FirstSeenOrder(xs: seq<string>, i: nat, j: nat)
    requires i < j < |FirstSeen(xs)|
    ensures FirstSeen(xs)[i] in xs && FirstSeen(xs)[j] in xs
    ensures IndexOf(xs, FirstSeen(xs)[i]) < IndexOf(xs, FirstSeen(xs)[j])
  {
    var init, last := xs[..|xs| - 1], xs[|xs| - 1];
    assert xs == init + [last];
    var p := FirstSeen(init);
    var r := FirstSeen(xs);
    assert r == AppendNew(p, last);
    if j < |p| {
      assert r[i] == p[i] && r[j] == p[j];
      FirstSeenOrder(init, i, j);
      IndexOfPrefix(init, [last], p[i]);
      IndexOfPrefix(init, [last], p[j]);
    } else {
      assert last !in init && r[j] == last && r[i] == p[i];
      IndexOfNew(init, last);
      IndexOfPrefix(init, [last], p[i]);
    }
  }
}
