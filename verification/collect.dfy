/**
 * The loop shape shared by the KML decoders: walk a sequence with
 * `enumerate(xs, start=idx)`, keep the results that are present, skip the
 * rest without error.
 */
module Collecting {
  import opened Wrappers

  /** The present results of `f` over `xs`, where `xs[j]` is passed its
      position `idx + j`. */
  function Collect<A, B>(xs: seq<A>, idx: nat, f: (A, nat) -> Option<B>): seq<B>
    decreases |xs|
  {
    if |xs| == 0 then []
    else
      var y := f(xs[0], idx);
      (if y.Some? then [y.value] else []) + Collect(xs[1..], idx + 1, f)
  }

  /** Every result comes from some element, passed its own position. */
  lemma {:induction false} CollectFrom<A, B>(xs: seq<A>, idx: nat, f: (A, nat) -> Option<B>, i: nat)
    requires i < |Collect(xs, idx, f)|
    ensures exists j :: 0 <= j < |xs| && f(xs[j], idx + j) == Some(Collect(xs, idx, f)[i])
    decreases |xs|
  {
    var y := f(xs[0], idx);
    var head := if y.Some? then [y.value] else [];
    var rest := Collect(xs[1..], idx + 1, f);
    assert Collect(xs, idx, f) == head + rest;
    if i < |head| {
      assert f(xs[0], idx + 0) == Some(Collect(xs, idx, f)[i]);
    } else {
      CollectFrom(xs[1..], idx + 1, f, i - |head|);
      var j :| 0 <= j < |xs[1..]| && f(xs[1..][j], idx + 1 + j) == Some(rest[i - |head|]);
      assert f(xs[j + 1], idx + (j + 1)) == Some(Collect(xs, idx, f)[i]);
    }
  }

  lemma {:induction false} CollectAppend<A, B>(a: seq<A>, b: seq<A>, idx: nat, f: (A, nat) -> Option<B>)
    ensures Collect(a + b, idx, f) == Collect(a, idx, f) + Collect(b, idx + |a|, f)
    decreases |a|
  {
    if |a| == 0 {
      assert a + b == b;
    } else {
      assert (a + b)[1..] == a[1..] + b;
      CollectAppend(a[1..], b, idx + 1, f);
    }
  }

  lemma CollectSingle<A, B>(x: A, idx: nat, f: (A, nat) -> Option<B>)
    ensures Collect([x], idx, f) == if f(x, idx).Some? then [f(x, idx).value] else []
  {
    assert [x][1..] == [];
  }

  /** The element at position `k` contributes its own result between those
      of the elements before and after it. */
  lemma CollectAt<A, B>(xs: seq<A>, idx: nat, f: (A, nat) -> Option<B>, k: nat)
    requires k < |xs|
    ensures var y := f(xs[k], idx + k);
      Collect(xs, idx, f) ==
        Collect(xs[..k], idx, f) + (if y.Some? then [y.value] else []) + Collect(xs[k + 1..], idx + k + 1, f)
  {
    assert xs == xs[..k] + ([xs[k]] + xs[k + 1..]);
    CollectAppend(xs[..k], [xs[k]] + xs[k + 1..], idx, f);
    CollectAppend([xs[k]], xs[k + 1..], idx + k, f);
    CollectSingle(xs[k], idx + k, f);
  }

  lemma {:induction false} CollectLength<A, B>(xs: seq<A>, idx: nat, f: (A, nat) -> Option<B>)
    ensures |Collect(xs, idx, f)| <= |xs|
    decreases |xs|
  {
    if |xs| > 0 {
      CollectLength(xs[1..], idx + 1, f);
    }
  }

  /** Nothing is collected exactly when no element has a result. */
  lemma {:induction false} CollectEmpty<A, B>(xs: seq<A>, idx: nat, f: (A, nat) -> Option<B>)
    ensures |Collect(xs, idx, f)| == 0 <==> forall j :: 0 <= j < |xs| ==> f(xs[j], idx + j).None?
    decreases |xs|
  {
    if |xs| > 0 {
      CollectEmpty(xs[1..], idx + 1, f);
      assert forall j :: 1 <= j < |xs| ==> xs[j] == xs[1..][j - 1] && idx + j == idx + 1 + (j - 1);
    }
  }

  /** A step that ignores positions collects the same wherever it starts. */
  lemma {:induction false} CollectShift<A, B>(xs: seq<A>, i: nat, j: nat, f: (A, nat) -> Option<B>)
    requires forall x: A, a: nat, b: nat :: f(x, a) == f(x, b)
    ensures Collect(xs, i, f) == Collect(xs, j, f)
    decreases |xs|
  {
    if |xs| > 0 {
      CollectShift(xs[1..], i + 1, j + 1, f);
      assert f(xs[0], i) == f(xs[0], j);
    }
  }
}
