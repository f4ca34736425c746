/** Moving rows up and down is complete: every arrangement can be reached, and the number of
    inversions is exactly the smallest number of move requests that reaches it. */
module MoveDistance {
  import opened Wrappers
  import opened OrderedRows

  // ----- inversions of a sequence of numbers --------------------------------------------

  ghost function Below(x: nat, s: seq<nat>): (n: nat)
    ensures n <= |s|
  {
    if s == [] then 0 else (if s[0] < x then 1 else 0) + Below(x, s[1..])
  }

  lemma BelowFirst(x: nat, s: seq<nat>)
    requires s != []
    ensures s[0] < x ==> Below(x, s) > 0
  {}

  /** The number of pairs i < j with p[i] > p[j]. */
  ghost function Inversions(p: seq<nat>): nat {
    if p == [] then 0 else Below(p[0], p[1..]) + Inversions(p[1..])
  }

  lemma {:induction false} InversionsBound(p: seq<nat>)
    ensures 2 * Inversions(p) <= |p| * (|p| - 1)
  {
    if p != [] {
      InversionsBound(p[1..]);
      var n := |p|;
      assert n * (n - 1) == (n - 1) * (n - 2) + 2 * (n - 1);
    }
  }

  lemma {:induction false} BelowSwap(x: nat, s: seq<nat>, i: nat)
    requires i + 1 < |s|
    ensures Below(x, Swap(s, i, i + 1)) == Below(x, s)
  {
    var s' := Swap(s, i, i + 1);
    if i == 0 {
      assert s'[1..][1..] == s[1..][1..];
    } else {
      assert s'[1..] == Swap(s[1..], i - 1, i);
      BelowSwap(x, s[1..], i - 1);
    }
  }

  /** Exchanging two unequal neighbours changes the number of inversions by one. */
  lemma {:induction false} SwapInversions(p: seq<nat>, i: nat)
    requires i + 1 < |p| && p[i] != p[i + 1]
    ensures Inversions(Swap(p, i, i + 1)) == Inversions(p) + (if p[i] > p[i + 1] then -1 else 1)
  {
    var p' := Swap(p, i, i + 1);
    if i == 0 {
      assert p'[1..][1..] == p[1..][1..];
    } else {
      assert p'[1..] == Swap(p[1..], i - 1, i);
      BelowSwap(p[0], p[1..], i - 1);
      SwapInversions(p[1..], i - 1);
    }
  }

  lemma {:induction false} NoneBelow(x: nat, s: seq<nat>)
    requires Inversions(s) == 0 && (s != [] ==> x <= s[0])
    ensures Below(x, s) == 0
  {
    if s != [] {
      NoneBelow(x, s[1..]);
    }
  }

  lemma {:induction false} FindDescent(p: seq<nat>) returns (i: nat)
    requires Inversions(p) > 0
    ensures i + 1 < |p| && p[i] > p[i + 1]
  {
    if Inversions(p[1..]) > 0 {
      i := FindDescent(p[1..]);
      i := i + 1;
    } else {
      i := 0;
      if p[1..] == [] || p[0] <= p[1] { NoneBelow(p[0], p[1..]); }
    }
  }

  lemma {:induction false} IncreasingHasNone(p: seq<nat>)
    requires Increasing(p)
    ensures Inversions(p) == 0
  {
    if p != [] {
      assert forall i, j :: 0 <= i < j < |p| - 1 ==> p[1..][i] < p[1..][j];
      IncreasingHasNone(p[1..]);
      NoneBelow(p[0], p[1..]);
    }
  }

  /** Without inversions, distinct numbers below n in a sequence of length n are 0, 1, 2 ... */
  lemma {:induction false} NoInversions(p: seq<nat>, from: nat, k: nat)
    requires Inversions(p) == 0 && NoDup(p) && k < |p|
    requires forall i :: 0 <= i < |p| ==> from <= p[i] < from + |p|
    ensures p[k] == from + k
  {
    FirstIsFrom(p, from);
    if k > 0 {
      var q := p[1..];
      assert forall i :: 0 <= i < |q| ==> q[i] == p[i + 1] && q[i] != p[0];
      NoInversions(q, from + 1, k - 1);
    }
  }

  lemma {:induction false} FirstIsFrom(p: seq<nat>, from: nat)
    requires Inversions(p) == 0 && NoDup(p) && p != []
    requires forall i :: 0 <= i < |p| ==> from <= p[i] < from + |p|
    ensures p[0] == from
  {
    Spread(p, |p| - 1);
  }

  /** Distinct numbers without inversions grow by at least one per position. */
  lemma {:induction false} Spread(p: seq<nat>, k: nat)
    requires Inversions(p) == 0 && NoDup(p) && k < |p|
    ensures p[0] + k <= p[k]
  {
    if k > 0 {
      var q := p[1..];
      assert forall i :: 0 <= i < |q| ==> q[i] == p[i + 1];
      Spread(q, k - 1);
      assert p[0] != p[1];
      BelowFirst(p[0], q);
    }
  }

  // ----- arrangements --------------------------------------------------------------------

  ghost predicate Arrangement(l: seq<Id>, target: seq<Id>) {
    && NoDup(l) && NoDup(target) && |l| == |target|
    && forall k :: 0 <= k < |l| ==> l[k] in target
  }

  ghost function Ranks(l: seq<Id>, target: seq<Id>): (p: seq<nat>)
    requires forall k :: 0 <= k < |l| ==> l[k] in target
    ensures |p| == |l| && forall k :: 0 <= k < |l| ==> p[k] == IndexOf(target, l[k])
  {
    seq(|l|, k requires 0 <= k < |l| => IndexOf(target, l[k]))
  }

  /** How far apart two arrangements are. */
  ghost function Distance(l: seq<Id>, target: seq<Id>): nat
    requires Arrangement(l, target)
  {
    Inversions(Ranks(l, target))
  }

  ghost predicate OnlyMoves(ms: seq<Op>) {
    forall k :: 0 <= k < |ms| ==> ms[k].Move?
  }

  lemma DistanceZero(l: seq<Id>, target: seq<Id>)
    requires Arrangement(l, target)
    ensures Distance(l, target) == 0 <==> l == target
  {
    var p := Ranks(l, target);
    assert NoDup(p) by {
      forall i, j | 0 <= i < j < |p| ensures p[i] != p[j] { assert target[p[i]] != target[p[j]]; }
    }
    if Distance(l, target) == 0 {
      forall k | 0 <= k < |l| ensures l[k] == target[k] { NoInversions(p, 0, k); }
    }
    if l == target {
      assert Increasing(p);
      IncreasingHasNone(p);
    }
  }

  lemma SwapDistance(l: seq<Id>, target: seq<Id>, i: nat)
    requires Arrangement(l, target) && i + 1 < |l|
    ensures Arrangement(Swap(l, i, i + 1), target)
    ensures var p := Ranks(l, target);
      p[i] != p[i + 1] &&
      Distance(Swap(l, i, i + 1), target) == Distance(l, target) + (if p[i] > p[i + 1] then -1 else 1)
  {
    var p := Ranks(l, target);
    SwapFacts(l, i, i + 1);
    assert target[p[i]] == l[i] && target[p[i + 1]] == l[i + 1] && l[i] != l[i + 1];
    assert Ranks(Swap(l, i, i + 1), target) == Swap(p, i, i + 1);
    SwapInversions(p, i);
  }

  /** One move request changes the distance to any arrangement by at most one. */
  lemma MoveDistance(l: seq<Id>, target: seq<Id>, op: Op)
    requires Arrangement(l, target) && op.Move?
    ensures Arrangement(ListStep(l, op), target)
    ensures -1 <= Distance(ListStep(l, op), target) - Distance(l, target) <= 1
  {
    if op.id in l {
      var i := IndexOf(l, op.id);
      var j := Neighbour(i, op.direction);
      if 0 <= j < |l| {
        if j < i { SwapFacts(l, i, j); SwapDistance(l, target, j); } else { SwapDistance(l, target, i); }
      }
    }
  }

  /** Any arrangement is reached by as many moves as there are inversions ... */
  lemma {:induction false} Reach(l: seq<Id>, target: seq<Id>) returns (ms: seq<Op>)
    requires Arrangement(l, target)
    ensures OnlyMoves(ms) && |ms| == Distance(l, target) && ListRun(l, ms) == target
    decreases Distance(l, target)
  {
    if Distance(l, target) == 0 {
      DistanceZero(l, target);
      ms := [];
    } else {
      var i := FindDescent(Ranks(l, target));
      SwapDistance(l, target, i);
      var op := Move(l[i], "down");
      assert ListStep(l, op) == Swap(l, i, i + 1);
      var rest := Reach(Swap(l, i, i + 1), target);
      ms := [op] + rest;
      assert ms[1..] == rest;
    }
  }

  /** ... and never by fewer. */
  lemma {:induction false} NoShorter(l: seq<Id>, target: seq<Id>, ms: seq<Op>)
    requires Arrangement(l, target) && OnlyMoves(ms) && ListRun(l, ms) == target
    ensures Distance(l, target) <= |ms|
    decreases |ms|
  {
    if ms == [] {
      DistanceZero(l, target);
    } else {
      MoveDistance(l, target, ms[0]);
      NoShorter(ListStep(l, ms[0]), target, ms[1..]);
    }
  }

  /** On the table itself: from any state with distinct orders, every arrangement of the
      displayed rows is reached by some sequence of at most n(n-1)/2 move requests, and the
      returned sequence is a shortest one. */
  lemma EveryArrangementIsReachable(t: Table, target: seq<Id>) returns (ms: seq<Op>)
    requires DistinctOrders(t) && Arrangement(Sorted(t), target)
    ensures OnlyMoves(ms) && Sorted(Run(t, ms)) == target
    ensures 2 * |ms| <= |target| * (|target| - 1)
    ensures forall other :: OnlyMoves(other) && Sorted(Run(t, other)) == target ==> |ms| <= |other|
  {
    ms := Reach(Sorted(t), target);
    RunRefines(t, ms);
    InversionsBound(Ranks(Sorted(t), target));
    forall other | OnlyMoves(other) && Sorted(Run(t, other)) == target ensures |ms| <= |other| {
      RunRefines(t, other);
      NoShorter(Sorted(t), target, other);
    }
  }
}
