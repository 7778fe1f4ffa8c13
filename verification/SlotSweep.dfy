/**
  The monthly cost of a slot commitment as a function of its size in 50-slot
  increments, and why looking at its corners is enough to find the cheapest.
 */
module SlotSweep {
  import opened Wrappers

  /** Increments above k that bucket demands of ms increments pay for on demand. */
  function Over(ms: seq<nat>, k: nat): nat {
    if ms == [] then 0 else Over(ms[..|ms| - 1], k) + (if ms[|ms| - 1] > k then ms[|ms| - 1] - k else 0)
  }

  /** Buckets whose demand exceeds k increments. */
  function CountAbove(ms: seq<nat>, k: nat): (n: nat)
    ensures n > 0 ==> exists i :: 0 <= i < |ms| && ms[i] > k
  {
    if ms == [] then 0
    else
      var rest := ms[..|ms| - 1];
      assert forall i :: 0 <= i < |rest| ==> rest[i] == ms[i];
      CountAbove(rest, k) + (if ms[|ms| - 1] > k then 1 else 0)
  }

  datatype Rates = Rates(payg: real, commit: real)

  predicate NonNegative(r: Rates) { r.payg >= 0.0 && r.commit >= 0.0 }

  /** Cost of committing k increments, in units of one increment for one bucket. */
  function Cost(r: Rates, ms: seq<nat>, k: nat): real {
    r.commit * (|ms| * k) as real + r.payg * Over(ms, k) as real
  }

  /** What one more increment adds to the cost. */
  function Slope(r: Rates, ms: seq<nat>, k: nat): real {
    r.commit * |ms| as real - r.payg * CountAbove(ms, k) as real
  }

  /** Zero, and every demand level: the only places where the cost bends. */
  predicate Corner(ms: seq<nat>, k: nat) { k == 0 || k in ms }

  lemma {:induction false} OverStep(ms: seq<nat>, k: nat)
    ensures Over(ms, k) == Over(ms, k + 1) + CountAbove(ms, k)
  {
    if ms == [] {
    } else {
      OverStep(ms[..|ms| - 1], k);
    }
  }

  lemma CostStep(r: Rates, ms: seq<nat>, k: nat)
    ensures Cost(r, ms, k + 1) == Cost(r, ms, k) + Slope(r, ms, k)
  {
    hide Over, CountAbove;
    OverStep(ms, k);
    var n := CountAbove(ms, k);
    var o := Over(ms, k + 1);
    assert |ms| * (k + 1) == |ms| * k + |ms|;
    Distribute(r.commit, (|ms| * k) as real, |ms| as real);
    Distribute(r.payg, o as real, n as real);
  }

  lemma Distribute(a: real, x: real, y: real)
    ensures a * (x + y) == a * x + a * y
  {
  }

  /** The cost does not bend between corners. */
  lemma {:induction false} CountBetweenCorners(ms: seq<nat>, k: nat)
    requires k > 0 && k !in ms
    ensures CountAbove(ms, k - 1) == CountAbove(ms, k)
  {
    if ms == [] {
    } else {
      assert ms[|ms| - 1] in ms;
      CountBetweenCorners(ms[..|ms| - 1], k);
    }
  }

  lemma SlopeBetweenCorners(r: Rates, ms: seq<nat>, k: nat)
    requires !Corner(ms, k)
    ensures Slope(r, ms, k - 1) == Slope(r, ms, k)
  {
    hide CountAbove;
    CountBetweenCorners(ms, k);
  }

  /** Where the cost is not falling, some corner to the left is no dearer. */
  lemma {:induction false} CornerToTheLeft(r: Rates, ms: seq<nat>, k: nat) returns (v: nat)
    requires Corner(ms, k) || Slope(r, ms, k) >= 0.0
    ensures Corner(ms, v) && v <= k && Cost(r, ms, v) <= Cost(r, ms, k)
    decreases k
  {
    hide Cost, Slope;
    if Corner(ms, k) {
      v := k;
    } else {
      SlopeBetweenCorners(r, ms, k);
      CostStep(r, ms, k - 1);
      v := CornerToTheLeft(r, ms, k - 1);
    }
  }

  /** Where the cost is falling, some corner to the right is strictly cheaper. */
  lemma {:induction false} CornerToTheRight(r: Rates, ms: seq<nat>, k: nat, top: nat) returns (v: nat)
    requires NonNegative(r) && forall i :: 0 <= i < |ms| ==> ms[i] <= top
    requires Corner(ms, k) || Slope(r, ms, k) < 0.0
    ensures Corner(ms, v) && v >= k && Cost(r, ms, v) <= Cost(r, ms, k)
    ensures Corner(ms, k) || Cost(r, ms, v) < Cost(r, ms, k)
    decreases top - k
  {
    hide Cost, Slope;
    if Corner(ms, k) {
      v := k;
    } else {
      FallingBelowTop(r, ms, k, top);
      CostStep(r, ms, k);
      if !Corner(ms, k + 1) {
        SlopeBetweenCorners(r, ms, k + 1);
      }
      v := CornerToTheRight(r, ms, k + 1, top);
    }
  }

  lemma FallingBelowTop(r: Rates, ms: seq<nat>, k: nat, top: nat)
    requires NonNegative(r) && (forall i :: 0 <= i < |ms| ==> ms[i] <= top) && Slope(r, ms, k) < 0.0
    ensures k < top
  {
    var n := CountAbove(ms, k);
    if n == 0 {
      NonNegativeProduct(r.commit, |ms| as real);
    }
  }

  /** For every commitment some corner costs no more, and one that costs the same is no larger. */
  lemma CornerIsEnough(r: Rates, ms: seq<nat>, k: nat, top: nat) returns (v: nat)
    requires NonNegative(r) && forall i :: 0 <= i < |ms| ==> ms[i] <= top
    ensures Corner(ms, v) && Cost(r, ms, v) <= Cost(r, ms, k)
    ensures v <= k || Cost(r, ms, v) < Cost(r, ms, k)
  {
    hide Cost, Slope;
    if Corner(ms, k) || Slope(r, ms, k) >= 0.0 {
      v := CornerToTheLeft(r, ms, k);
    } else {
      v := CornerToTheRight(r, ms, k, top);
    }
  }
}
