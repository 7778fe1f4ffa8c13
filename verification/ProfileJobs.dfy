/** Profile jobs behind a per-address cache, a single flight per address and the hourly bucket. */
module ProfileJobs {
  import opened Wrappers
  import opened TokenBucket

  const CACHE_TTL: real := 1.0 / 6.0
  const CACHE_MAX: nat := 2000
  const JOB_TIMEOUT: real := 1.0 / 30.0
  const MAX_PER_HOUR: real := 600.0

  // ---------------------------------------------------------------- the cache

  datatype Entry<R> = Entry(run: R, expires: real)

  function Live<R>(cache: map<string, Entry<R>>, now: real): map<string, Entry<R>> {
    map a | a in cache && now <= cache[a].expires :: cache[a]
  }

  /** A full cache first drops what has expired, and does not take the entry if it is still full. */
  function Stored<R>(cache: map<string, Entry<R>>, addr: string, run: R, now: real): map<string, Entry<R>> {
    var kept := if |cache| >= CACHE_MAX then Live(cache, now) else cache;
    if |cache| >= CACHE_MAX && |kept| >= CACHE_MAX then kept else kept[addr := Entry(run, now + CACHE_TTL)]
  }

  predicate Hit<R>(cache: map<string, Entry<R>>, addr: string, now: real) { addr in cache && now <= cache[addr].expires }

  class ProfileCache<R> {
    var entries: map<string, Entry<R>>

    constructor ()
      ensures entries == map[]
    {
      entries := map[];
    }

    method Cached(addr: string, now: real) returns (r: Option<R>)
      ensures r.Some? <==> Hit(entries, addr, now)
      ensures r.Some? ==> r.value == entries[addr].run
    {
      if addr !in entries || now > entries[addr].expires {
        return None;
      }
      r := Some(entries[addr].run);
    }

    method Store(addr: string, run: R, now: real)
      modifies this
      ensures entries == Stored(old(entries), addr, run, now)
    {
      if |entries| >= CACHE_MAX {
        var before := entries;
        var rest := entries.Keys;
        while rest != {}
          invariant before == old(entries) && rest <= before.Keys
          invariant forall a :: a in entries <==> a in before && (a in rest || now <= before[a].expires)
          invariant forall a :: a in entries ==> entries[a] == before[a]
          decreases |rest|
        {
          var k :| k in rest;
          if now > before[k].expires {
            entries := entries - {k};
          }
          rest := rest - {k};
        }
        assert entries == Live(old(entries), now);
        if |entries| >= CACHE_MAX {
          return;
        }
      }
      entries := entries[addr := Entry(run, now + CACHE_TTL)];
    }
  }

  // ---------------------------------------------------------------- the system

  datatype Phase = Checking | Running(job: nat)

  /** Set when the job ends: lasting tells whether its answer may be cached, kept whether it entered the cache. */
  datatype Job = Job(addr: string, start: real, finish: Option<real>, lasting: bool, kept: bool, billed: nat)

  /** Addresses are strings and times hours; the clock never runs backwards. */
  datatype System = System(bucket: Bucket, cache: map<string, Entry<()>>, flying: map<string, Phase>, jobs: seq<Job>, now: real)

  datatype Action =
    | Lookup(addr: string)
    | Decide(addr: string)
    | Finish(addr: string, lasting: bool, billed: nat)

  /** A lookup is served from the cache, joins the flight for its address, or starts one. */
  predicate LookupStep(a: System, b: System, addr: string) {
    b == if Hit(a.cache, addr, b.now) || addr in a.flying then a.(now := b.now)
         else a.(now := b.now, flying := a.flying[addr := Checking])
  }

  /** Inside its flight: the cache again, then the bucket, then the job. */
  predicate DecideStep(a: System, b: System, addr: string) {
    addr in a.flying && a.flying[addr].Checking? &&
    b == if Hit(a.cache, addr, b.now) then a.(now := b.now, flying := a.flying - {addr})
         else if !Allowed(a.bucket, b.now) then a.(now := b.now, flying := a.flying - {addr}, bucket := After(a.bucket, b.now))
         else a.(now := b.now, bucket := After(a.bucket, b.now), flying := a.flying[addr := Running(|a.jobs|)],
                 jobs := a.jobs + [Job(addr, b.now, None, false, false, 0)])
  }

  predicate FinishStep(a: System, b: System, addr: string, lasting: bool, billed: nat) {
    addr in a.flying && a.flying[addr].Running? && a.flying[addr].job < |a.jobs| &&
    var cache := if lasting then Stored(a.cache, addr, (), b.now) else a.cache;
    var i := a.flying[addr].job;
    b == a.(now := b.now, flying := a.flying - {addr}, cache := cache,
            jobs := a.jobs[i := a.jobs[i].(finish := Some(b.now), lasting := lasting, kept := lasting && Hit(cache, addr, b.now + CACHE_TTL), billed := billed)])
  }

  predicate Step(a: System, b: System, act: Action) {
    a.now <= b.now &&
    match act
    case Lookup(addr) => LookupStep(a, b, addr)
    case Decide(addr) => DecideStep(a, b, addr)
    case Finish(addr, lasting, billed) => FinishStep(a, b, addr, lasting, billed)
  }

  /**
    What an address gets, on every step: a lookup starts a flight exactly when
    there is neither a cached answer nor a flight already, and a flight starts a
    job exactly when there is still no answer and the bucket has a token, which
    it then loses.
   */
  lemma ServedExactly(a: System, b: System, act: Action)
    requires Step(a, b, act)
    ensures act.Lookup? ==> (act.addr in b.flying && act.addr !in a.flying <==> !Hit(a.cache, act.addr, b.now) && act.addr !in a.flying)
    ensures act.Lookup? ==> b.jobs == a.jobs && b.cache == a.cache && b.bucket == a.bucket
    ensures |b.jobs| == |a.jobs| + 1 <==> act.Decide? && !Hit(a.cache, act.addr, b.now) && Allowed(a.bucket, b.now)
    ensures |b.jobs| > |a.jobs| ==> b.bucket == After(a.bucket, b.now) && b.jobs[|a.jobs|].addr == act.addr && act.addr in b.flying
    ensures act.Decide? && |b.jobs| == |a.jobs| ==> act.addr !in b.flying
    ensures act.Finish? ==> act.addr !in b.flying
  {
    hide Allowed, After, Hit, Stored;
  }

  predicate Init(s: System) {
    Valid(s.bucket) && s.cache == map[] && s.flying == map[] && s.jobs == []
  }

  predicate Run(trace: seq<System>, acts: seq<Action>) {
    |trace| == |acts| + 1 && Init(trace[0]) && forall i :: 0 <= i < |acts| ==> Step(trace[i], trace[i + 1], acts[i])
  }

  // ---------------------------------------------------------------- no job is repeated while its answer is cached

  /** A job of an address starts only after the earlier ones ended, and after a cached answer has expired. */
  predicate Separate(e: Job, l: Job) {
    e.addr == l.addr ==> e.finish.Some? && e.finish.value <= l.start && (e.kept ==> e.finish.value + CACHE_TTL < l.start)
  }

  predicate JobOk(s: System, i: nat)
    requires i < |s.jobs|
  {
    var j := s.jobs[i];
    && (j.finish.None? ==> j.addr in s.flying && s.flying[j.addr] == Running(i))
    && (j.finish.Some? ==> j.start <= j.finish.value <= s.now)
    && (j.finish.Some? && j.kept && s.now <= j.finish.value + CACHE_TTL ==> Hit(s.cache, j.addr, j.finish.value + CACHE_TTL))
    && (j.finish.None? ==> j.start <= s.now)
  }

  predicate FlightOk(s: System, addr: string)
    requires addr in s.flying
  {
    s.flying[addr].Running? ==> s.flying[addr].job < |s.jobs| && s.jobs[s.flying[addr].job].addr == addr && s.jobs[s.flying[addr].job].finish.None?
  }

  predicate Inv(s: System) {
    && Valid(s.bucket)
    && (forall i :: 0 <= i < |s.jobs| ==> JobOk(s, i))
    && (forall addr :: addr in s.flying ==> FlightOk(s, addr))
    && (forall i, j :: 0 <= i < j < |s.jobs| ==> Separate(s.jobs[i], s.jobs[j]))
  }

  lemma StoredHit(cache: map<string, Entry<()>>, addr: string, other: string, now: real, until: real)
    requires now <= until && Hit(cache, other, until)
    requires other == addr ==> until <= now + CACHE_TTL
    ensures Hit(Stored(cache, addr, (), now), other, until)
  {
  }

  lemma LookupKeeps(a: System, b: System, addr: string)
    requires Inv(a) && a.now <= b.now && LookupStep(a, b, addr)
    ensures Inv(b)
  {
    hide Separate, Hit;
    forall i | 0 <= i < |b.jobs| ensures JobOk(b, i) {
      assert JobOk(a, i);
    }
    forall k | k in b.flying ensures FlightOk(b, k) {
      if k in a.flying {
        assert FlightOk(a, k);
      }
    }
  }

  lemma DecideKeeps(a: System, b: System, addr: string)
    requires Inv(a) && a.now <= b.now && DecideStep(a, b, addr)
    ensures Inv(b)
  {
    hide Allowed, After, Valid;
    AfterValid(a.bucket, b.now);
    forall i | 0 <= i < |a.jobs| ensures JobOk(b, i) {
      assert JobOk(a, i);
    }
    forall k | k in b.flying ensures FlightOk(b, k) {
      if k in a.flying {
        assert FlightOk(a, k);
      }
    }
    if |b.jobs| > |a.jobs| {
      forall i | 0 <= i < |a.jobs| ensures Separate(a.jobs[i], b.jobs[|a.jobs|]) {
        assert JobOk(a, i);
      }
    }
  }

  lemma FinishKeeps(a: System, b: System, addr: string, lasting: bool, billed: nat)
    requires Inv(a) && a.now <= b.now && FinishStep(a, b, addr, lasting, billed)
    ensures Inv(b)
  {
    hide Stored, Hit;
    var done := a.flying[addr].job;
    assert FlightOk(a, addr) && JobOk(a, done);
    forall i | 0 <= i < |b.jobs| ensures JobOk(b, i) {
      assert JobOk(a, i);
      var j := a.jobs[i];
      if i != done && j.finish.Some? && j.kept && b.now <= j.finish.value + CACHE_TTL {
        StoredHit(a.cache, addr, j.addr, b.now, j.finish.value + CACHE_TTL);
      }
    }
    forall k | k in b.flying ensures FlightOk(b, k) {
      assert FlightOk(a, k);
    }
    forall i, j | 0 <= i < j < |b.jobs| ensures Separate(b.jobs[i], b.jobs[j]) {
      assert Separate(a.jobs[i], a.jobs[j]) && JobOk(a, j);
    }
  }

  lemma StepKeeps(a: System, b: System, act: Action)
    requires Inv(a) && Step(a, b, act)
    ensures Inv(b)
  {
    hide Inv, LookupStep, DecideStep, FinishStep;
    match act
    case Lookup(addr) => LookupKeeps(a, b, addr);
    case Decide(addr) => DecideKeeps(a, b, addr);
    case Finish(addr, lasting, billed) => FinishKeeps(a, b, addr, lasting, billed);
  }

  lemma {:induction false} RunKeeps(trace: seq<System>, acts: seq<Action>, n: nat)
    requires Run(trace, acts) && n < |trace|
    ensures Inv(trace[n])
    decreases n
  {
    hide Inv, Step;
    if n == 0 {
      InitInv(trace[0]);
    } else {
      RunKeeps(trace, acts, n - 1);
      StepKeeps(trace[n - 1], trace[n], acts[n - 1]);
    }
  }

  lemma InitInv(s: System)
    requires Init(s)
    ensures Inv(s)
  {
  }

  /**
    In every run two jobs of one address never overlap, and while the answer of
    the earlier one is cached the later one is not started, so not billed.
   */
  lemma NoRepeatedJob(trace: seq<System>, acts: seq<Action>, n: nat, i: nat, j: nat)
    requires Run(trace, acts) && n < |trace| && i < j < |trace[n].jobs|
    requires trace[n].jobs[i].addr == trace[n].jobs[j].addr
    ensures var e, l := trace[n].jobs[i], trace[n].jobs[j];
            e.finish.Some? && e.finish.value <= l.start && (e.kept ==> e.finish.value + CACHE_TTL < l.start)
  {
    hide Step, JobOk, FlightOk;
    RunKeeps(trace, acts, n);
    assert Separate(trace[n].jobs[i], trace[n].jobs[j]);
  }

  // ---------------------------------------------------------------- how many jobs an interval can start

  predicate StartedIn(j: Job, lo: real, hi: real) { lo <= j.start <= hi }

  function CountStarted(jobs: seq<Job>, lo: real, hi: real): nat {
    if jobs == [] then 0 else CountStarted(jobs[..|jobs| - 1], lo, hi) + (if StartedIn(jobs[|jobs| - 1], lo, hi) then 1 else 0)
  }

  function BilledIn(jobs: seq<Job>, lo: real, hi: real): nat {
    if jobs == [] then 0 else BilledIn(jobs[..|jobs| - 1], lo, hi) + (if StartedIn(jobs[|jobs| - 1], lo, hi) then jobs[|jobs| - 1].billed else 0)
  }

  /** What a bucket of cap an hour lets through in [lo, hi]. */
  function Allowance(cap: real, lo: real, hi: real): real { cap * (1.0 + (hi - lo)) }

  /** Jobs started in [lo, hi], and the credit left while the interval lasts, are within the interval's allowance. */
  predicate Rationed(s: System, cap: real, lo: real, hi: real) {
    && Valid(s.bucket) && s.bucket.cap == cap
    && CountStarted(s.jobs, lo, hi) as real <= Allowance(cap, lo, hi)
    && (s.now < lo ==> CountStarted(s.jobs, lo, hi) == 0)
    && (lo <= s.now <= hi ==> CountStarted(s.jobs, lo, hi) as real + Credit(s.bucket, lo, hi) <= Allowance(cap, lo, hi))
    && forall i :: 0 <= i < |s.jobs| ==> s.jobs[i].start <= s.now
  }

  lemma {:induction false} NoneStarted(jobs: seq<Job>, lo: real, hi: real)
    requires forall i :: 0 <= i < |jobs| ==> jobs[i].start < lo
    ensures CountStarted(jobs, lo, hi) == 0
  {
    if jobs == [] {
    } else {
      NoneStarted(jobs[..|jobs| - 1], lo, hi);
    }
  }

  lemma {:induction false} CountSameStarts(a: seq<Job>, b: seq<Job>, lo: real, hi: real)
    requires |a| == |b| && forall i :: 0 <= i < |a| ==> a[i].start == b[i].start
    ensures CountStarted(a, lo, hi) == CountStarted(b, lo, hi)
  {
    if a == [] {
    } else {
      CountSameStarts(a[..|a| - 1], b[..|b| - 1], lo, hi);
    }
  }

  /** Time passing alone keeps the ration. */
  lemma WaitKeepsRation(s: System, now: real, cap: real, lo: real, hi: real)
    requires Rationed(s, cap, lo, hi) && lo <= hi && s.now <= now
    ensures Rationed(s.(now := now), cap, lo, hi)
  {
    hide Credit, CountStarted, Valid;
    CreditRange(s.bucket, lo, hi);
    if s.now < lo {
      NoneStarted(s.jobs, lo, hi);
    }
  }

  lemma StepKeepsRation(a: System, b: System, act: Action, cap: real, lo: real, hi: real)
    requires Step(a, b, act) && Rationed(a, cap, lo, hi) && lo <= hi
    ensures Rationed(b, cap, lo, hi)
  {
    hide Credit, CountStarted, Valid, Allowed, After, Hit, Stored, Allowance;
    WaitKeepsRation(a, b.now, cap, lo, hi);
    if act.Decide? && b.bucket != a.bucket {
      CallKeepsRation(a.(now := b.now), b, cap, lo, hi);
    } else if act.Decide? && b.jobs != a.jobs {
      CallKeepsRation(a.(now := b.now), b, cap, lo, hi);
    } else if act.Finish? {
      CountSameStarts(a.jobs, b.jobs, lo, hi);
    }
  }

  lemma CountSnoc(jobs: seq<Job>, j: Job, lo: real, hi: real)
    ensures CountStarted(jobs + [j], lo, hi) == CountStarted(jobs, lo, hi) + (if StartedIn(j, lo, hi) then 1 else 0)
  {
    assert (jobs + [j])[..|jobs|] == jobs;
  }

  lemma CreditNonNegative(b: Bucket, lo: real, hi: real)
    requires Valid(b) && lo <= hi
    ensures Credit(b, lo, hi) >= 0.0
  {
    CreditRange(b, lo, hi);
  }

  /** A call to the bucket starts a job only for a credit. */
  lemma CallKeepsRation(a: System, b: System, cap: real, lo: real, hi: real)
    requires Rationed(a, cap, lo, hi) && lo <= hi && a.now == b.now && b.bucket == After(a.bucket, b.now)
    requires b.jobs == a.jobs || (Allowed(a.bucket, b.now) && exists addr :: b.jobs == a.jobs + [Job(addr, b.now, None, false, false, 0)])
    ensures Rationed(b, cap, lo, hi)
  {
    hide Credit, Valid, Allowed, After, CountStarted, Allowance;
    AfterValid(a.bucket, b.now);
    SameCap(a.bucket, b.now);
    var before, after := CountStarted(a.jobs, lo, hi), CountStarted(b.jobs, lo, hi);
    var taken := if Allowed(a.bucket, b.now) then 1 else 0;
    if b.jobs != a.jobs {
      var addr :| b.jobs == a.jobs + [Job(addr, b.now, None, false, false, 0)];
      CountSnoc(a.jobs, Job(addr, b.now, None, false, false, 0), lo, hi);
    }
    assert after <= before + (if lo <= b.now <= hi then taken else 0);
    if lo <= b.now <= hi {
      CreditSpent(a.bucket, lo, hi, b.now);
      CreditNonNegative(b.bucket, lo, hi);
      assert after as real + Credit(b.bucket, lo, hi) <= Allowance(cap, lo, hi);
    } else {
      assert after <= before;
    }
  }

  lemma {:induction false} RunRationed(trace: seq<System>, acts: seq<Action>, n: nat, lo: real, hi: real)
    requires Run(trace, acts) && n < |trace| && lo <= hi
    ensures Rationed(trace[n], trace[0].bucket.cap, lo, hi)
    decreases n
  {
    hide Step, Rationed;
    if n == 0 {
      InitRationed(trace[0], lo, hi);
    } else {
      RunRationed(trace, acts, n - 1, lo, hi);
      StepKeepsRation(trace[n - 1], trace[n], acts[n - 1], trace[0].bucket.cap, lo, hi);
    }
  }

  lemma InitRationed(s: System, lo: real, hi: real)
    requires Init(s) && lo <= hi
    ensures Rationed(s, s.bucket.cap, lo, hi)
  {
    hide Credit;
    CreditRange(s.bucket, lo, hi);
    assert s.bucket.cap * (1.0 + (hi - lo)) >= 0.0;
  }

  lemma {:induction false} BilledBound(jobs: seq<Job>, lo: real, hi: real, maxBytes: nat)
    requires forall i :: 0 <= i < |jobs| ==> jobs[i].billed <= maxBytes
    ensures BilledIn(jobs, lo, hi) <= maxBytes * CountStarted(jobs, lo, hi)
  {
    if jobs == [] {
    } else {
      var n := |jobs| - 1;
      BilledBound(jobs[..n], lo, hi, maxBytes);
      var c := CountStarted(jobs[..n], lo, hi);
      assert maxBytes * (c + 1) == maxBytes * c + maxBytes;
    }
  }

  /**
    In every run, any interval of hi - lo hours starts at most cap * (1 + hi - lo)
    jobs, and if no job bills more than maxBytes they bill at most that many times it.
   */
  lemma JobsPerInterval(trace: seq<System>, acts: seq<Action>, n: nat, lo: real, hi: real, maxBytes: nat)
    requires Run(trace, acts) && n < |trace| && lo <= hi
    requires forall i :: 0 <= i < |trace[n].jobs| ==> trace[n].jobs[i].billed <= maxBytes
    ensures var cap := trace[0].bucket.cap;
            CountStarted(trace[n].jobs, lo, hi) as real <= cap * (1.0 + (hi - lo)) &&
            BilledIn(trace[n].jobs, lo, hi) as real <= maxBytes as real * (cap * (1.0 + (hi - lo)))
  {
    hide Step, CountStarted, BilledIn, Credit;
    RunRationed(trace, acts, n, lo, hi);
    BilledBound(trace[n].jobs, lo, hi, maxBytes);
    ScaleBound(maxBytes, CountStarted(trace[n].jobs, lo, hi), trace[0].bucket.cap * (1.0 + (hi - lo)));
  }

  lemma ScaleBound(m: nat, c: nat, x: real)
    requires c as real <= x
    ensures (m * c) as real <= m as real * x
  {
    assert (m * c) as real == m as real * c as real;
    assert m as real * c as real <= m as real * x;
  }

  // ---------------------------------------------------------------- why every lasting answer finds room

  /** Every cache entry is the answer of a job of its address. */
  predicate Backs(j: Job, addr: string, e: Entry<()>) { j.addr == addr && j.finish == Some(e.expires - CACHE_TTL) }

  predicate Backed(s: System) {
    forall a :: a in s.cache ==> exists i :: 0 <= i < |s.jobs| && Backs(s.jobs[i], a, s.cache[a])
  }

  /** No job outlives its own timeout. */
  predicate Punctual(s: System) {
    forall i :: 0 <= i < |s.jobs| && s.jobs[i].finish.Some? ==> s.jobs[i].finish.value <= s.jobs[i].start + JOB_TIMEOUT
  }

  /** Every lasting answer was kept. */
  predicate AllKept(s: System) {
    forall i :: 0 <= i < |s.jobs| && s.jobs[i].finish.Some? ==> (s.jobs[i].kept <==> s.jobs[i].lasting)
  }

  lemma StepKeepsBacked(a: System, b: System, act: Action)
    requires Inv(a) && Backed(a) && Step(a, b, act)
    ensures Backed(b)
  {
    hide Inv, Step, Backs;
    forall addr | addr in b.cache ensures exists i :: 0 <= i < |b.jobs| && Backs(b.jobs[i], addr, b.cache[addr]) {
      if addr in a.cache && b.cache[addr] == a.cache[addr] {
        var i :| 0 <= i < |a.jobs| && Backs(a.jobs[i], addr, a.cache[addr]);
        EndedJobStays(a, b, act, i, addr, a.cache[addr]);
      } else {
        var i := NewEntryBacked(a, b, act, addr);
      }
    }
  }

  /** Only a finishing job of an address writes its entry. */
  lemma OnlyFinishCaches(a: System, b: System, act: Action, addr: string)
    requires Step(a, b, act) && addr in b.cache && (addr !in a.cache || b.cache[addr] != a.cache[addr])
    ensures act.Finish? && act.lasting && act.addr == addr && b.cache[addr].expires == b.now + CACHE_TTL
  {
    hide LookupStep, DecideStep, FinishStep;
    match act
    case Lookup(x) => LookupCachesNothing(a, b, x);
    case Decide(x) => DecideCachesNothing(a, b, x);
    case Finish(x, lasting, billed) => FinishCaches(a, b, x, lasting, billed, addr);
  }

  lemma LookupCachesNothing(a: System, b: System, addr: string)
    requires LookupStep(a, b, addr)
    ensures b.cache == a.cache
  {
  }

  lemma DecideCachesNothing(a: System, b: System, addr: string)
    requires DecideStep(a, b, addr)
    ensures b.cache == a.cache
  {
    hide Allowed, After, Hit;
  }

  lemma FinishCaches(a: System, b: System, addr: string, lasting: bool, billed: nat, other: string)
    requires FinishStep(a, b, addr, lasting, billed)
    ensures other in b.cache && (other !in a.cache || b.cache[other] != a.cache[other]) ==>
              lasting && addr == other && b.cache[other].expires == b.now + CACHE_TTL
  {
    hide Hit;
  }

  lemma NewEntryBacked(a: System, b: System, act: Action, addr: string) returns (i: nat)
    requires Inv(a) && Step(a, b, act) && addr in b.cache && (addr !in a.cache || b.cache[addr] != a.cache[addr])
    ensures i < |b.jobs| && Backs(b.jobs[i], addr, b.cache[addr])
  {
    hide Separate, JobOk, Allowed, After, Valid, Hit, Stored;
    OnlyFinishCaches(a, b, act, addr);
    assert FlightOk(a, addr);
    i := a.flying[addr].job;
  }

  lemma EndedJobStays(a: System, b: System, act: Action, i: nat, addr: string, e: Entry<()>)
    requires Inv(a) && Step(a, b, act) && i < |a.jobs| && Backs(a.jobs[i], addr, e)
    ensures i < |b.jobs| && Backs(b.jobs[i], addr, e)
  {
    hide Separate, JobOk, Allowed, After, Valid, Hit, Stored;
    if act.Finish? {
      assert FlightOk(a, act.addr);
    }
  }

  /** The addresses of the jobs started in [lo, hi]. */
  function AddrsStarted(jobs: seq<Job>, lo: real, hi: real): set<string> {
    if jobs == [] then {}
    else AddrsStarted(jobs[..|jobs| - 1], lo, hi) + (if StartedIn(jobs[|jobs| - 1], lo, hi) then {jobs[|jobs| - 1].addr} else {})
  }

  lemma {:induction false} FewAddrs(jobs: seq<Job>, lo: real, hi: real)
    ensures |AddrsStarted(jobs, lo, hi)| <= CountStarted(jobs, lo, hi)
  {
    if jobs == [] {
    } else {
      FewAddrs(jobs[..|jobs| - 1], lo, hi);
    }
  }

  lemma {:induction false} AddrStarted(jobs: seq<Job>, lo: real, hi: real, i: nat)
    requires i < |jobs| && StartedIn(jobs[i], lo, hi)
    ensures jobs[i].addr in AddrsStarted(jobs, lo, hi)
  {
    if i == |jobs| - 1 {
    } else {
      AddrStarted(jobs[..|jobs| - 1], lo, hi, i);
    }
  }

  /** The live entries are answers of jobs started in the last twelve minutes, of which there are at most 720. */
  lemma LiveEntriesFew(s: System, cap: real, now: real)
    requires Backed(s) && Punctual(s) && cap <= MAX_PER_HOUR && s.now <= now
    requires Rationed(s, cap, now - (CACHE_TTL + JOB_TIMEOUT), now)
    ensures |Live(s.cache, now)| < CACHE_MAX
  {
    hide Credit, CountStarted, AddrsStarted, Valid;
    var lo := now - (CACHE_TTL + JOB_TIMEOUT);
    var live := Live(s.cache, now);
    forall addr | addr in live ensures addr in AddrsStarted(s.jobs, lo, now) {
      var i :| 0 <= i < |s.jobs| && Backs(s.jobs[i], addr, s.cache[addr]);
      AddrStarted(s.jobs, lo, now, i);
    }
    assert live.Keys <= AddrsStarted(s.jobs, lo, now);
    SubsetSize(live.Keys, AddrsStarted(s.jobs, lo, now));
    FewAddrs(s.jobs, lo, now);
    AllowanceOfTwelveMinutes(cap);
    assert |live| == |live.Keys|;
  }

  lemma AllowanceOfTwelveMinutes(cap: real)
    requires cap <= MAX_PER_HOUR
    ensures cap * (1.0 + (CACHE_TTL + JOB_TIMEOUT)) <= 720.0
  {
    assert CACHE_TTL + JOB_TIMEOUT == 0.2;
  }

  lemma StepKeepsAnswers(a: System, b: System, act: Action, cap: real)
    requires Inv(a) && Backed(a) && AllKept(a) && Punctual(a) && Step(a, b, act) && cap <= MAX_PER_HOUR
    requires Rationed(a, cap, b.now - (CACHE_TTL + JOB_TIMEOUT), b.now)
    ensures AllKept(b)
  {
    hide Separate, JobOk, Allowed, After, Valid, CountStarted, Credit, Backs;
    if act.Finish? {
      assert FlightOk(a, act.addr);
      LiveEntriesFew(a, cap, b.now);
      RoomForAnswer(a.cache, act.addr, b.now);
    }
  }

  lemma RoomForAnswer(cache: map<string, Entry<()>>, addr: string, now: real)
    requires |Live(cache, now)| < CACHE_MAX
    ensures Hit(Stored(cache, addr, (), now), addr, now + CACHE_TTL)
  {
  }

  /** With at most 600 jobs an hour, none of which outlives two minutes, the cache always has room. */
  lemma {:induction false} LastingAnswersKept(trace: seq<System>, acts: seq<Action>, n: nat)
    requires Run(trace, acts) && n < |trace| && trace[0].bucket.cap <= MAX_PER_HOUR
    requires forall m :: 0 <= m <= n ==> Punctual(trace[m])
    ensures AllKept(trace[n]) && Backed(trace[n])
    decreases n
  {
    hide Step, Inv, Backed, AllKept, Punctual, Rationed;
    if n == 0 {
      NothingCached(trace[0]);
    } else {
      LastingAnswersKept(trace, acts, n - 1);
      RunKeeps(trace, acts, n - 1);
      var now := trace[n].now;
      RunRationed(trace, acts, n - 1, now - (CACHE_TTL + JOB_TIMEOUT), now);
      StepKeepsBacked(trace[n - 1], trace[n], acts[n - 1]);
      StepKeepsAnswers(trace[n - 1], trace[n], acts[n - 1], trace[0].bucket.cap);
    }
  }

  lemma NothingCached(s: System)
    requires Init(s)
    ensures AllKept(s) && Backed(s)
  {
  }

  /**
    Under the configured limits, repeated or concurrent lookups never bill
    twice: after a job with a lasting answer no other of its address starts for
    ten minutes, and after any job none starts before that one has ended.
   */
  lemma NeverBilledTwice(trace: seq<System>, acts: seq<Action>, n: nat, i: nat, j: nat)
    requires Run(trace, acts) && n < |trace| && i < j < |trace[n].jobs| && trace[n].jobs[i].addr == trace[n].jobs[j].addr
    requires trace[0].bucket.cap <= MAX_PER_HOUR && forall m :: 0 <= m <= n ==> Punctual(trace[m])
    ensures var e, l := trace[n].jobs[i], trace[n].jobs[j];
            e.finish.Some? && e.finish.value <= l.start && (e.lasting ==> e.finish.value + CACHE_TTL < l.start)
  {
    hide Step, Punctual, Backed;
    NoRepeatedJob(trace, acts, n, i, j);
    LastingAnswersKept(trace, acts, n);
  }
}
