/** ChalGen: a random number of blocks, picked at random without repetition by redrawing.
    The random source is the list of numbers it will deliver; a call that has not ended
    when the list runs out is still drawing. */
module Challenge {
  import opened Wrappers
  import opened Numerals

  datatype QElement = QElement(I: int, V: seq<byte>)

  /** The values drawn, in order of first appearance. */
  function Distinct(draws: seq<nat>): seq<nat> {
    if draws == [] then []
    else
      var front, last := draws[..|draws| - 1], draws[|draws| - 1];
      Distinct(front) + (if last in front then [] else [last])
  }

  function FirstPositive(draws: seq<nat>): Option<nat> {
    if draws == [] then None else if draws[0] > 0 then Some(draws[0]) else FirstPositive(draws[1..])
  }

  /** `lengths` are draws from 0 to N, `indices` draws below N, `scalars` the random coefficients. */
  method ChalGen(N: nat, lengths: seq<nat>, indices: seq<nat>, scalars: nat -> seq<byte>)
    returns (r: Option<seq<QElement>>)
    requires forall i :: 0 <= i < |lengths| ==> lengths[i] <= N
    requires forall i :: 0 <= i < |indices| ==> indices[i] < N
    ensures var l := FirstPositive(lengths);
            r.Some? <==> l.Some? && |Distinct(indices)| >= l.value
    ensures r.Some? ==>
              && |r.value| == FirstPositive(lengths).value
              && forall i :: 0 <= i < |r.value| ==> r.value[i] == QElement(Distinct(indices)[i], scalars(i))
  {
    var d := 0;
    while d < |lengths| && lengths[d] == 0
      invariant 0 <= d <= |lengths|
      invariant FirstPositive(lengths) == FirstPositive(lengths[d..])
    {
      d := d + 1;
    }
    if d == |lengths| {
      return None;
    }
    var l := lengths[d];
    var challenge := new QElement[l](_ => QElement(0, []));
    var used: set<nat> := {};
    var j := 0;
    for i := 0 to l
      invariant 0 <= j <= |indices|
      invariant used == Elements(indices[..j])
      invariant Picked(challenge[..i], indices[..j], scalars)
    {
      j := Redraw(indices, j, used);
      if j == |indices| {
        assert indices[..j] == indices;
        return None;
      }
      assert indices[..j + 1][..j] == indices[..j];
      used := used + {indices[j]};
      challenge[i] := QElement(indices[j], scalars(i));
      j := j + 1;
    }
    DistinctExtends(indices, j);
    return Some(challenge[..]);
  }

  /** The picks are the distinct draws so far, each with its own coefficient. */
  ghost predicate Picked(picks: seq<QElement>, draws: seq<nat>, scalars: nat -> seq<byte>) {
    && |Distinct(draws)| == |picks|
    && forall k :: 0 <= k < |picks| ==> picks[k] == QElement(Distinct(draws)[k], scalars(k))
  }

  /** The inner loop: draws from `start` on until one is unused. */
  method Redraw(indices: seq<nat>, start: nat, used: set<nat>) returns (j: nat)
    requires start <= |indices| && used == Elements(indices[..start])
    ensures start <= j <= |indices| && Elements(indices[..j]) == used
    ensures Distinct(indices[..j]) == Distinct(indices[..start])
    ensures j < |indices| ==> indices[j] !in used
  {
    j := start;
    while j < |indices| && indices[j] in used
      invariant start <= j <= |indices| && Elements(indices[..j]) == used
      invariant Distinct(indices[..j]) == Distinct(indices[..start])
    {
      assert indices[..j + 1][..j] == indices[..j];
      assert indices[..j + 1] == indices[..j] + [indices[j]];
      j := j + 1;
    }
  }

  // ----- what the picks mean

  lemma {:induction false} DistinctExtends(draws: seq<nat>, j: nat)
    requires j <= |draws|
    ensures Distinct(draws[..j]) <= Distinct(draws)
    decreases |draws|
  {
    if j == |draws| {
      assert draws[..j] == draws;
    } else {
      var front := draws[..|draws| - 1];
      assert front[..j] == draws[..j];
      DistinctExtends(front, j);
    }
  }

  lemma {:induction false} DistinctProperties(draws: seq<nat>)
    ensures forall x :: x in Distinct(draws) <==> x in draws
    ensures forall i, j :: 0 <= i < j < |Distinct(draws)| ==> Distinct(draws)[i] != Distinct(draws)[j]
    decreases |draws|
  {
    if draws != [] {
      var front, last := draws[..|draws| - 1], draws[|draws| - 1];
      DistinctProperties(front);
      assert draws == front + [last];
      assert last in front <==> last in Distinct(front);
    }
  }

  /** Indices below N, pairwise distinct, are at most N; if there are fewer, one is unused. */
  lemma {:induction false} Pigeonhole(xs: seq<nat>, N: nat)
    requires forall i :: 0 <= i < |xs| ==> xs[i] < N
    requires forall i, j :: 0 <= i < j < |xs| ==> xs[i] != xs[j]
    ensures |xs| <= N
    ensures |xs| < N ==> exists x: nat :: x < N && x !in xs
  {
    var all, got := Below(N), Elements(xs);
    CountDistinct(xs);
    assert got <= all;
    SubsetSize(got, all);
    if |xs| < N {
      assert got != all;
      var x :| x in all && x !in got;
      assert x < N && x !in xs;
    }
  }

  function Below(N: nat): (s: set<nat>)
    ensures |s| == N && forall x: nat :: x in s <==> x < N
  {
    if N == 0 then {} else Below(N - 1) + {N - 1}
  }

  function Elements(xs: seq<nat>): set<nat> {
    set x | x in xs
  }

  lemma {:induction false} CountDistinct(xs: seq<nat>)
    requires forall i, j :: 0 <= i < j < |xs| ==> xs[i] != xs[j]
    ensures |Elements(xs)| == |xs|
    decreases |xs|
  {
    if xs != [] {
      var front, last := xs[..|xs| - 1], xs[|xs| - 1];
      CountDistinct(front);
      assert xs == front + [last] && last !in front;
      assert Elements(xs) == Elements(front) + {last};
    }
  }

  lemma SubsetSize(a: set<nat>, b: set<nat>)
    requires a <= b
    ensures |a| <= |b|
  {
    assert b == a + (b - a);
  }

  /** A finished challenge has between 1 and N elements with pairwise distinct in-range indices. */
  lemma ChallengeIsSample(N: nat, lengths: seq<nat>, indices: seq<nat>, q: seq<QElement>)
    requires forall i :: 0 <= i < |lengths| ==> lengths[i] <= N
    requires forall i :: 0 <= i < |indices| ==> indices[i] < N
    requires FirstPositive(lengths) == Some(|q|) && |q| <= |Distinct(indices)|
    requires forall i :: 0 <= i < |q| ==> q[i].I == Distinct(indices)[i]
    ensures 1 <= |q| <= N
    ensures forall i :: 0 <= i < |q| ==> 0 <= q[i].I < N
    ensures forall i, j :: 0 <= i < j < |q| ==> q[i].I != q[j].I
  {
    DistinctProperties(indices);
    FirstPositiveIsDraw(lengths);
    assert forall i :: 0 <= i < |q| ==> Distinct(indices)[i] in indices;
  }

  /** Draw i is positive, and none before it. */
  ghost predicate FirstAt(draws: seq<nat>, i: nat) {
    i < |draws| && draws[i] > 0 && forall j :: 0 <= j < i ==> draws[j] == 0
  }

  lemma {:induction false} FirstPositiveIsDraw(draws: seq<nat>)
    ensures forall i: nat :: FirstAt(draws, i) ==> FirstPositive(draws) == Some(draws[i])
    ensures FirstPositive(draws).Some? ==> FirstPositive(draws).value in draws && FirstPositive(draws).value > 0
    ensures FirstPositive(draws).None? <==> forall i :: 0 <= i < |draws| ==> draws[i] == 0
    decreases |draws|
  {
    if draws != [] {
      FirstPositiveIsDraw(draws[1..]);
      assert forall i :: 0 < i < |draws| ==> draws[i] == draws[1..][i - 1];
      forall i: nat | FirstAt(draws, i) ensures FirstPositive(draws) == Some(draws[i]) {
        if i > 0 {
          assert FirstAt(draws[1..], i - 1);
        }
      }
    }
  }

  /** While fewer than l <= N picks are made, a redraw can still hit an unused index, and any
      such draw makes the next pick. */
  lemma RedrawCanSucceed(N: nat, indices: seq<nat>, l: nat)
    requires forall i :: 0 <= i < |indices| ==> indices[i] < N
    requires |Distinct(indices)| < l <= N
    ensures exists x: nat :: x < N && Distinct(indices + [x]) == Distinct(indices) + [x]
  {
    DistinctProperties(indices);
    assert forall i :: 0 <= i < |Distinct(indices)| ==> Distinct(indices)[i] in indices;
    Pigeonhole(Distinct(indices), N);
    var x: nat :| x < N && x !in Distinct(indices);
    assert (indices + [x])[..|indices|] == indices;
    assert Distinct(indices + [x]) == Distinct(indices) + [x];
  }

  /** With N == 0 the first loop never ends: no length drawn is positive. */
  lemma EmptyFileNeverChallenged(lengths: seq<nat>)
    requires forall i :: 0 <= i < |lengths| ==> lengths[i] <= 0
    ensures FirstPositive(lengths) == None
  {
    FirstPositiveIsDraw(lengths);
  }
}
