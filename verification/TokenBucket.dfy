/**
  The hourly token bucket of the profile jobs. Time is in hours, and both time
  and tokens are exact reals.
 */
module TokenBucket {
  import opened Wrappers

  datatype Bucket = Bucket(cap: real, tokens: real, last: real)

  predicate Valid(b: Bucket) { 0.0 <= b.tokens <= b.cap }

  function Refill(b: Bucket, now: real): Bucket {
    if now > b.last then Bucket(b.cap, RMin(b.cap, b.tokens + (now - b.last) * b.cap), now) else b
  }

  function Allowed(b: Bucket, now: real): bool { Refill(b, now).tokens >= 1.0 }

  function After(b: Bucket, now: real): Bucket {
    var r := Refill(b, now);
    if r.tokens < 1.0 then r else r.(tokens := r.tokens - 1.0)
  }

  class HourlyBucket {
    const cap: real
    var tokens: real
    var last: real

    constructor (perHour: nat, now: real)
      ensures State() == Bucket(perHour as real, perHour as real, now) && Valid(State())
    {
      cap, tokens, last := perHour as real, perHour as real, now;
    }

    function State(): Bucket
      reads this
    {
      Bucket(cap, tokens, last)
    }

    method Allow(now: real) returns (ok: bool)
      requires Valid(State())
      modifies this
      ensures Valid(State())
      ensures ok == Allowed(old(State()), now) && State() == After(old(State()), now)
    {
      AfterValid(State(), now);
      var el := now - last;
      if el > 0.0 {
        tokens := RMin(cap, tokens + el * cap);
        last := now;
      }
      if tokens < 1.0 {
        return false;
      }
      tokens := tokens - 1.0;
      ok := true;
    }
  }

  lemma RefillValid(b: Bucket, now: real)
    requires Valid(b)
    ensures Valid(Refill(b, now))
  {
    if now > b.last {
      var gained := (now - b.last) * b.cap;
      NonNegativeProduct(now - b.last, b.cap);
      assert Refill(b, now).tokens == RMin(b.cap, b.tokens + gained);
    }
  }

  lemma AfterValid(b: Bucket, now: real)
    requires Valid(b)
    ensures Valid(After(b, now))
  {
    hide Refill;
    RefillValid(b, now);
  }

  // ---------------------------------------------------------------- any sequence of calls

  function AfterAll(b: Bucket, times: seq<real>): Bucket {
    if times == [] then b else After(AfterAll(b, times[..|times| - 1]), times[|times| - 1])
  }

  /** How many of the calls at these times are let through. */
  function Admitted(b: Bucket, times: seq<real>): nat {
    if times == [] then 0
    else Admitted(b, times[..|times| - 1]) + (if Allowed(AfterAll(b, times[..|times| - 1]), times[|times| - 1]) then 1 else 0)
  }

  lemma {:induction false} AfterAllValid(b: Bucket, times: seq<real>)
    requires Valid(b)
    ensures Valid(AfterAll(b, times)) && AfterAll(b, times).cap == b.cap
  {
    hide Refill, After;
    if times == [] {
    } else {
      AfterAllValid(b, times[..|times| - 1]);
      AfterValid(AfterAll(b, times[..|times| - 1]), times[|times| - 1]);
      SameCap(AfterAll(b, times[..|times| - 1]), times[|times| - 1]);
    }
  }

  lemma SameCap(b: Bucket, now: real)
    ensures After(b, now).cap == b.cap
  {
  }

  predicate Within(times: seq<real>, lo: real, hi: real) { forall i :: 0 <= i < |times| ==> lo <= times[i] <= hi }

  /** What the bucket can still let through before hi, if nothing refills it before lo. */
  function Credit(b: Bucket, lo: real, hi: real): real {
    if b.last < lo then b.cap + b.cap * (hi - lo) else b.tokens + b.cap * RMax(0.0, hi - b.last)
  }

  /** A call in [lo, hi] that is let through costs one credit, and no call adds any. */
  lemma CreditSpent(b: Bucket, lo: real, hi: real, now: real)
    requires Valid(b) && lo <= now <= hi
    ensures Credit(After(b, now), lo, hi) <= Credit(b, lo, hi) - (if Allowed(b, now) then 1.0 else 0.0)
  {
    hide Credit;
    RefillCredit(b, lo, hi, now);
    TokenIsCredit(Refill(b, now), lo, hi);
  }

  lemma TokenIsCredit(r: Bucket, lo: real, hi: real)
    requires r.last >= lo
    ensures Credit(r.(tokens := r.tokens - 1.0), lo, hi) == Credit(r, lo, hi) - 1.0
  {
  }

  lemma RefillCredit(b: Bucket, lo: real, hi: real, now: real)
    requires Valid(b) && lo <= now <= hi
    ensures Credit(Refill(b, now), lo, hi) <= Credit(b, lo, hi)
  {
    if now > b.last {
      var gained := b.cap * (now - b.last);
      assert b.cap * (hi - b.last) == b.cap * (hi - now) + gained;
      if b.last < lo {
        assert b.cap * (hi - lo) == b.cap * (hi - now) + b.cap * (now - lo);
        NonNegativeProduct(b.cap, now - lo);
      }
    }
  }

  /** Calls made in any interval of hi - lo hours, in whatever order, number at most cap * (1 + hi - lo). */
  lemma {:induction false} AdmittedBound(b: Bucket, times: seq<real>, lo: real, hi: real)
    requires Valid(b) && lo <= hi && Within(times, lo, hi)
    ensures Admitted(b, times) as real <= Credit(b, lo, hi) - Credit(AfterAll(b, times), lo, hi)
    ensures Admitted(b, times) as real <= b.cap * (1.0 + (hi - lo))
  {
    hide Refill, After, Credit;
    if times == [] {
    } else {
      var init, now := times[..|times| - 1], times[|times| - 1];
      AdmittedBound(b, init, lo, hi);
      AfterAllValid(b, init);
      CreditSpent(AfterAll(b, init), lo, hi, now);
    }
    AfterAllValid(b, times);
    CreditRange(b, lo, hi);
    CreditRange(AfterAll(b, times), lo, hi);
  }

  lemma CreditRange(b: Bucket, lo: real, hi: real)
    requires Valid(b) && lo <= hi
    ensures 0.0 <= Credit(b, lo, hi) <= b.cap * (1.0 + (hi - lo))
  {
    NonNegativeProduct(b.cap, hi - lo);
    assert b.cap * (1.0 + (hi - lo)) == b.cap + b.cap * (hi - lo);
    if b.last >= lo && hi > b.last {
      assert b.cap * (hi - lo) == b.cap * (hi - b.last) + b.cap * (b.last - lo);
      NonNegativeProduct(b.cap, b.last - lo);
      NonNegativeProduct(b.cap, hi - b.last);
    }
  }

  /** Until it is full a bucket gains its cap an hour, evenly; a clock that goes back gains nothing. */
  lemma RefillIsEven(b: Bucket, hours: real)
    requires Valid(b)
    ensures hours > 0.0 && b.tokens + b.cap * hours <= b.cap ==>
              Refill(b, b.last + hours) == Bucket(b.cap, b.tokens + b.cap * hours, b.last + hours)
    ensures hours <= 0.0 ==> Refill(b, b.last + hours) == b
    ensures After(b, b.last + hours).last == if hours > 0.0 then b.last + hours else b.last
  {
    assert (b.last + hours - b.last) * b.cap == b.cap * hours;
  }

  /** An hour without calls fills the bucket. */
  lemma IdleHourFills(b: Bucket, now: real)
    requires Valid(b) && now >= b.last + 1.0
    ensures Refill(b, now).tokens == b.cap
  {
    NonNegativeProduct(b.cap, now - b.last - 1.0);
    assert b.cap * (now - b.last) == b.cap * (now - b.last - 1.0) + b.cap;
  }

  /** A bucket with k tokens lets k calls through at once, and is k tokens poorer. */
  lemma {:induction false} BurstAllowed(b: Bucket, times: seq<real>)
    requires Valid(b) && |times| as real <= b.tokens && forall i :: 0 <= i < |times| ==> times[i] == b.last
    ensures Admitted(b, times) == |times|
    ensures AfterAll(b, times) == b.(tokens := b.tokens - |times| as real)
  {
    if times == [] {
    } else {
      BurstAllowed(b, times[..|times| - 1]);
    }
  }
}
