/**
 EU 868 MHz duty cycle enforcement (src/lora/duty_cycle.rs).

 Three views of one budget, from the code up:
   - `DutyCycleLimiter`, the ring of sixty one-minute buckets the code rotates in place;
   - `Window`, the same buckets listed by age, with the limiter's operations as functions;
   - a log of accepted charges, the thing the regulation speaks about.
 The class is proved to compute the functions on `Window`, and `Window` is proved to
 refine the log; every statement about whole runs is then made about the log.
 */
module DutyCycle {
  import opened Prelude

  const BUCKET_COUNT: nat := 60
  const BUCKET_MS: nat := 60_000
  const HOUR_MS: nat := 3_600_000
  /** What sixty buckets guarantee: the head bucket is only partly elapsed. */
  const GUARANTEED_MS: nat := 3_540_000

  // ----- The sub-band table --------------------------------------------------

  function EuDutyCyclePermille(freqHz: nat): Option<nat> {
    if 433_050_000 <= freqHz <= 434_790_000 then Some(100)
    else if 868_000_000 <= freqHz <= 868_600_000 then Some(10)
    else if 868_700_000 <= freqHz <= 869_200_000 then Some(1)
    else if 869_400_000 <= freqHz <= 869_650_000 then Some(100)
    else if 869_700_000 <= freqHz <= 870_000_000 then Some(10)
    else if 863_000_000 <= freqHz < 870_000_000 then Some(1)
    else None
  }

  function EuBandKey(freqHz: nat): nat {
    if 433_050_000 <= freqHz <= 434_790_000 then 1
    else if 868_000_000 <= freqHz <= 868_600_000 then 2
    else if 868_700_000 <= freqHz <= 869_200_000 then 3
    else if 869_400_000 <= freqHz <= 869_650_000 then 4
    else if 869_700_000 <= freqHz <= 870_000_000 then 5
    else if 863_000_000 <= freqHz < 870_000_000 then 6
    else 0
  }

  function AllowanceMs(freqHz: nat): Option<nat> {
    match EuDutyCyclePermille(freqHz)
    case Some(permille) => Some(permille * 3_600)
    case None => None
  }

  // ----- Sums ----------------------------------------------------------------

  function Sum(s: seq<nat>): nat {
    if s == [] then 0 else Sum(Init(s)) + Last(s)
  }

  lemma {:induction false} SumConcat(a: seq<nat>, b: seq<nat>)
    ensures Sum(a + b) == Sum(a) + Sum(b)
  {
    if b == [] {
      assert a + b == a;
    } else {
      assert Init(a + b) == a + Init(b);
      SumConcat(a, Init(b));
    }
  }

  lemma {:induction false} SumZeros(s: seq<nat>)
    requires forall i :: 0 <= i < |s| ==> s[i] == 0
    ensures Sum(s) == 0
  {
    if s != [] {
      SumZeros(Init(s));
    }
  }

  lemma {:induction false} SumPrefix(s: seq<nat>, n: nat)
    requires n <= |s|
    ensures Sum(s[..n]) + Sum(s[n..]) == Sum(s)
  {
    SumConcat(s[..n], s[n..]);
    assert s[..n] + s[n..] == s;
  }

  // ----- The budget by age ---------------------------------------------------

  /** `ages[k]` is the airtime charged k buckets before the one starting at `start`. */
  datatype Window = Window(ages: seq<nat>, start: nat, allowance: Option<nat>) {
    predicate Valid() {
      ages != [] && (allowance.Some? ==> Sum(ages) <= allowance.value)
    }

    /** The time the ring covers: with sixty buckets, an hour. */
    function Span(): nat {
      |ages| * BUCKET_MS
    }

    /** What it guarantees, its head bucket being only partly elapsed: with sixty, 59 minutes. */
    function Guaranteed(): nat
      requires ages != []
    {
      |ages| * BUCKET_MS - BUCKET_MS
    }
  }

  datatype ClaimResult = Accepted | Refused(retryAfterMs: Option<nat>)

  function Zeros(n: nat): (z: seq<nat>)
    ensures |z| == n && forall i :: 0 <= i < n ==> z[i] == 0
  {
    seq(n, i => 0)
  }

  /** Every bucket becomes `n` older; those that reach the full count are gone. */
  function Age(ages: seq<nat>, n: nat): (r: seq<nat>)
    ensures |r| == |ages|
  {
    if n >= |ages| then Zeros(|ages|) else Zeros(n) + ages[..|ages| - n]
  }

  /** `now_ms.saturating_sub(head_start_ms) / BUCKET_MS`. */
  function Elapsed(start: nat, now: nat): nat {
    (if start <= now then now - start else 0) / BUCKET_MS
  }

  function Advance(w: Window, now: nat): Window
    requires w.ages != []
  {
    var n := Elapsed(w.start, now);
    w.(ages := Age(w.ages, n), start := if n >= |w.ages| then now else w.start + n * BUCKET_MS)
  }

  /** Whether `airtime` fits once the oldest `n` buckets have expired. */
  predicate FitsAfter(ages: seq<nat>, n: nat, airtime: nat, allowance: nat)
    requires n <= |ages|
  {
    Sum(ages[..|ages| - n]) + airtime <= allowance
  }

  /** The least number of expiries after which `airtime` fits, searching upwards from `n`. */
  function FirstFit(ages: seq<nat>, n: nat, airtime: nat, allowance: nat): nat
    requires n <= |ages| && airtime <= allowance
    decreases |ages| - n
  {
    if n == |ages| || FitsAfter(ages, n, airtime, allowance) then n else FirstFit(ages, n + 1, airtime, allowance)
  }

  function TryClaim(w: Window, now: nat, airtime: nat): (Window, ClaimResult)
    requires w.ages != []
  {
    match w.allowance
    case None => (w, Accepted)
    case Some(allowance) =>
      if airtime > allowance then (w, Refused(None))
      else
        var a := Advance(w, now);
        if Sum(a.ages) + airtime <= allowance then
          (a.(ages := a.ages[0 := a.ages[0] + airtime]), Accepted)
        else
          var readyAt := a.start + FirstFit(a.ages, 1, airtime, allowance) * BUCKET_MS;
          (a, Refused(Some(if now <= readyAt then readyAt - now else 0)))
  }

  /** An empty ring of `n` buckets. */
  function FreshRing(n: nat, allowance: Option<nat>): (w: Window) {
    Window(Zeros(n), 0, allowance)
  }

  function Fresh(freqHz: nat): (w: Window) {
    FreshRing(BUCKET_COUNT, AllowanceMs(freqHz))
  }

  lemma FreshIsValid(n: nat, allowance: Option<nat>)
    requires n >= 1
    ensures FreshRing(n, allowance).Valid()
  {
    SumZeros(Zeros(n));
  }

  // ----- What one call keeps -------------------------------------------------

  lemma AgeShrinks(ages: seq<nat>, n: nat)
    ensures Sum(Age(ages, n)) == Sum(ages[..if n <= |ages| then |ages| - n else 0]) <= Sum(ages)
  {
    if n < |ages| {
      SumConcat(Zeros(n), ages[..|ages| - n]);
      SumZeros(Zeros(n));
      SumPrefix(ages, |ages| - n);
    } else {
      SumZeros(Zeros(|ages|));
    }
  }

  lemma SumHead(ages: seq<nat>, extra: nat)
    requires |ages| > 0
    ensures Sum(ages[0 := ages[0] + extra]) == Sum(ages) + extra
  {
    SumPrefix(ages, 1);
    SumPrefix(ages[0 := ages[0] + extra], 1);
    assert ages[0 := ages[0] + extra][1..] == ages[1..];
    assert Sum(ages[..1]) == ages[0] by { assert Init(ages[..1]) == []; }
    assert Sum(ages[0 := ages[0] + extra][..1]) == ages[0] + extra by { assert Init(ages[0 := ages[0] + extra][..1]) == []; }
  }

  lemma ClaimKeepsValid(w: Window, now: nat, airtime: nat)
    requires w.Valid()
    ensures TryClaim(w, now, airtime).0.Valid()
    ensures TryClaim(w, now, airtime).0.allowance == w.allowance
    ensures |TryClaim(w, now, airtime).0.ages| == |w.ages|
  {
    var a := Advance(w, now);
    AgeShrinks(w.ages, Elapsed(w.start, now));
    SumHead(a.ages, airtime);
  }

  /** After advancing to a time not before the head's start, the head bucket covers it. */
  lemma AdvanceCovers(w: Window, now: nat)
    requires w.ages != [] && w.start <= now
    ensures Advance(w, now).start <= now < Advance(w, now).start + BUCKET_MS
  {}

  /** Advancing in two steps leaves the same airtime at every age as advancing in one. */
  lemma AdvanceInTwoSteps(w: Window, t1: nat, t2: nat)
    requires w.ages != [] && t1 <= t2
    ensures Advance(Advance(w, t1), t2).ages == Advance(w, t2).ages
    ensures Elapsed(w.start, t2) < |w.ages| ==> Advance(Advance(w, t1), t2) == Advance(w, t2)
    ensures Elapsed(w.start, t2) >= |w.ages| ==> Advance(w, t2).ages == Zeros(|w.ages|)
  {
    var n1, n := Elapsed(w.start, t1), Elapsed(w.start, t2);
    if n1 < |w.ages| {
      assert Elapsed(w.start + n1 * BUCKET_MS, t2) == n - n1;
    }
    assert Advance(Advance(w, t1), t2).ages == Age(w.ages, n);
  }

  // ----- The log and its refinement ------------------------------------------

  /** Airtime accepted for a transmission starting at `at`. */
  datatype Charge = Charge(at: nat, airtime: nat)

  /** Airtime of the charges made at or after `lo` and before `hi`. */
  ghost function SumIn(log: seq<Charge>, lo: int, hi: int): nat {
    if log == [] then 0
    else SumIn(Init(log), lo, hi) + (if lo <= Last(log).at < hi then Last(log).airtime else 0)
  }

  lemma {:induction false} SumInSplit(log: seq<Charge>, lo: int, mid: int, hi: int)
    requires lo <= mid <= hi
    ensures SumIn(log, lo, mid) + SumIn(log, mid, hi) == SumIn(log, lo, hi)
  {
    if log != [] {
      SumInSplit(Init(log), lo, mid, hi);
    }
  }

  lemma {:induction false} SumInOutside(log: seq<Charge>, lo: int, hi: int)
    requires forall c :: c in log ==> !(lo <= c.at < hi)
    ensures SumIn(log, lo, hi) == 0
  {
    if log != [] {
      SumInOutside(Init(log), lo, hi);
    }
  }

  lemma SumInAppend(log: seq<Charge>, c: Charge, lo: int, hi: int)
    ensures SumIn(log + [c], lo, hi) == SumIn(log, lo, hi) + if lo <= c.at < hi then c.airtime else 0
  {
    assert Init(log + [c]) == log;
  }

  lemma SumInWiden(log: seq<Charge>, lo: int, hi: int, lo': int, hi': int)
    requires lo' <= lo <= hi <= hi'
    ensures SumIn(log, lo, hi) <= SumIn(log, lo', hi')
  {
    SumInSplit(log, lo', lo, hi');
    SumInSplit(log, lo, hi, hi');
  }

  /** Every bucket holds exactly the airtime of the charges made in its minute. */
  ghost predicate Refines(w: Window, log: seq<Charge>) {
    && w.ages != []
    && (forall k :: 0 <= k < |w.ages| ==> w.ages[k] == SumIn(log, w.start - k * BUCKET_MS, w.start - k * BUCKET_MS + BUCKET_MS))
    && (forall c :: c in log ==> c.at < w.start + BUCKET_MS)
  }

  lemma FreshRefines(n: nat, allowance: Option<nat>)
    requires n >= 1
    ensures Refines(FreshRing(n, allowance), [])
  {}

  lemma AdvanceRefines(w: Window, log: seq<Charge>, now: nat)
    requires Refines(w, log)
    ensures Refines(Advance(w, now), log)
  {
    var n, a := Elapsed(w.start, now), Advance(w, now);
    forall k | 0 <= k < |w.ages|
      ensures a.ages[k] == SumIn(log, a.start - k * BUCKET_MS, a.start - k * BUCKET_MS + BUCKET_MS)
    {
      if n >= |w.ages| || k < n {
        SumInOutside(log, a.start - k * BUCKET_MS, a.start - k * BUCKET_MS + BUCKET_MS);
      } else {
        assert a.ages[k] == w.ages[k - n];
        assert a.start - k * BUCKET_MS == w.start - (k - n) * BUCKET_MS;
      }
    }
  }

  lemma ChargeRefines(w: Window, log: seq<Charge>, now: nat, airtime: nat)
    requires Refines(w, log) && w.start <= now < w.start + BUCKET_MS
    ensures Refines(w.(ages := w.ages[0 := w.ages[0] + airtime]), log + [Charge(now, airtime)])
  {
    var w' := w.(ages := w.ages[0 := w.ages[0] + airtime]);
    var log' := log + [Charge(now, airtime)];
    forall k | 0 <= k < |w.ages|
      ensures w'.ages[k] == SumIn(log', w'.start - k * BUCKET_MS, w'.start - k * BUCKET_MS + BUCKET_MS)
    {
      SumInAppend(log, Charge(now, airtime), w.start - k * BUCKET_MS, w.start - k * BUCKET_MS + BUCKET_MS);
    }
  }

  lemma {:induction false} PrefixSumIsLogSum(w: Window, log: seq<Charge>, n: nat)
    requires Refines(w, log) && n <= |w.ages|
    ensures Sum(w.ages[..n]) == SumIn(log, w.start - n * BUCKET_MS + BUCKET_MS, w.start + BUCKET_MS)
  {
    if n == 0 {
      SumInOutside(log, w.start + BUCKET_MS, w.start + BUCKET_MS);
    } else {
      PrefixSumIsLogSum(w, log, n - 1);
      assert Init(w.ages[..n]) == w.ages[..n - 1];
      SumInSplit(log, w.start - n * BUCKET_MS + BUCKET_MS, w.start - n * BUCKET_MS + 2 * BUCKET_MS, w.start + BUCKET_MS);
    }
  }

  /** The spent total is the log's airtime since the start of the oldest bucket. */
  lemma SpentIsLogSum(w: Window, log: seq<Charge>)
    requires Refines(w, log)
    ensures Sum(w.ages) == SumIn(log, w.start - w.Guaranteed(), w.start + BUCKET_MS)
  {
    PrefixSumIsLogSum(w, log, |w.ages|);
    assert w.ages[..|w.ages|] == w.ages;
  }

  /** At every moment the spent total lies between the exact sums over n - 1 and n minutes. */
  lemma SpentBetweenExactSums(w: Window, log: seq<Charge>, now: nat)
    requires Refines(w, log) && w.start <= now
    requires forall c :: c in log ==> c.at <= now
    ensures SumIn(log, now - w.Guaranteed(), now + 1) <= Sum(Advance(w, now).ages) <= SumIn(log, now - w.Span() + 1, now + 1)
  {
    hide Sum, SumIn;
    var a := Advance(w, now);
    AdvanceCovers(w, now);
    AdvanceRefines(w, log, now);
    SpentIsLogSum(a, log);
    SumInOutside(log, now + 1, a.start + BUCKET_MS);
    SumInSplit(log, a.start - w.Guaranteed(), now + 1, a.start + BUCKET_MS);
    SumInWiden(log, now - w.Guaranteed(), now + 1, a.start - w.Guaranteed(), now + 1);
    SumInWiden(log, a.start - w.Guaranteed(), now + 1, now - w.Span() + 1, now + 1);
  }

  // ----- Whole runs ----------------------------------------------------------

  datatype Request = Request(now: nat, airtime: nat)

  ghost predicate Nondecreasing(reqs: seq<Request>) {
    forall i, j :: 0 <= i < j < |reqs| ==> reqs[i].now <= reqs[j].now
  }

  /** The limiter's state and the log of accepted charges after a run of requests. */
  ghost function Run(w: Window, reqs: seq<Request>): (r: (Window, seq<Charge>))
    requires w.ages != []
    ensures |r.0.ages| == |w.ages|
  {
    if reqs == [] then (w, [])
    else
      var (w1, log) := Run(w, Init(reqs));
      var q := Last(reqs);
      var (w2, result) := TryClaim(w1, q.now, q.airtime);
      (w2, if result.Accepted? then log + [Charge(q.now, q.airtime)] else log)
  }

  /** Airtime accepted in the closed window of `window` ms starting at `lo`. */
  ghost function SumFrom(log: seq<Charge>, lo: int, window: int): nat {
    SumIn(log, lo, lo + window + 1)
  }

  /** No closed window of that length holds more than the allowance. */
  ghost predicate WindowSafe(log: seq<Charge>, allowance: nat, window: int) {
    forall lo: int :: SumFrom(log, lo, window) <= allowance
  }

  /** The invariant of every reachable state, `last` being the time of the latest request. */
  ghost predicate Reachable(w: Window, log: seq<Charge>, last: nat) {
    && w.Valid() && w.allowance.Some?
    && w.start <= last
    && (forall c :: c in log ==> c.at <= last)
    && Refines(w, log)
    && WindowSafe(log, w.allowance.value, w.Guaranteed())
  }

  /** A charge that fits the window up to it fits every window. */
  lemma ChargeKeepsWindowSafe(log: seq<Charge>, c: Charge, allowance: nat, window: nat)
    requires WindowSafe(log, allowance, window) && forall d :: d in log ==> d.at <= c.at
    requires SumIn(log, c.at - window, c.at + 1) + c.airtime <= allowance
    ensures WindowSafe(log + [c], allowance, window)
  {
    forall lo: int ensures SumFrom(log + [c], lo, window) <= allowance {
      assert SumFrom(log, lo, window) <= allowance;
      SumInAppend(log, c, lo, lo + window + 1);
      if lo <= c.at < lo + window + 1 {
        SumInOutside(log, c.at + 1, lo + window + 1);
        SumInSplit(log, lo, c.at + 1, lo + window + 1);
        SumInWiden(log, lo, c.at + 1, c.at - window, c.at + 1);
      }
    }
  }

  lemma ClaimKeepsReachable(w: Window, log: seq<Charge>, last: nat, q: Request)
    requires Reachable(w, log, last) && last <= q.now
    ensures var (w', result) := TryClaim(w, q.now, q.airtime);
            Reachable(w', if result.Accepted? then log + [Charge(q.now, q.airtime)] else log, q.now)
  {
    hide SumIn, Sum, WindowSafe, FirstFit;
    var (w', result) := TryClaim(w, q.now, q.airtime);
    var a, allowance, c := Advance(w, q.now), w.allowance.value, Charge(q.now, q.airtime);
    ClaimKeepsValid(w, q.now, q.airtime);
    AdvanceCovers(w, q.now);
    AdvanceRefines(w, log, q.now);
    if result.Accepted? {
      ChargeRefines(a, log, q.now, q.airtime);
      SpentBetweenExactSums(w, log, q.now);
      ChargeKeepsWindowSafe(log, c, allowance, w.Guaranteed());
    }
  }

  lemma {:induction false} RunIsReachable(n: nat, allowance: nat, reqs: seq<Request>)
    requires n >= 1 && Nondecreasing(reqs)
    ensures var (w, log) := Run(FreshRing(n, Some(allowance)), reqs);
            && |w.ages| == n && w.allowance == Some(allowance)
            && Reachable(w, log, if reqs == [] then 0 else Last(reqs).now)
  {
    var w0 := FreshRing(n, Some(allowance));
    if reqs == [] {
      FreshIsValid(n, Some(allowance));
      FreshRefines(n, Some(allowance));
    } else {
      RunIsReachable(n, allowance, Init(reqs));
      var (w, log) := Run(w0, Init(reqs));
      ClaimKeepsReachable(w, log, if |reqs| == 1 then 0 else Last(Init(reqs)).now, Last(reqs));
      ClaimKeepsValid(w, Last(reqs).now, Last(reqs).airtime);
    }
  }

  /**
   Window safety, for a ring of any number n of buckets: over any run, any closed n - 1
   minutes hold at most the allowance.
   */
  lemma AirtimeInAnyWindowIsWithinAllowance(n: nat, allowance: nat, reqs: seq<Request>, lo: int)
    requires n >= 1 && Nondecreasing(reqs)
    ensures SumIn(Run(FreshRing(n, Some(allowance)), reqs).1, lo, lo + (n - 1) * BUCKET_MS + 1) <= allowance
  {
    RunIsReachable(n, allowance, reqs);
    assert SumFrom(Run(FreshRing(n, Some(allowance)), reqs).1, lo, (n - 1) * BUCKET_MS) <= allowance;
  }

  /** With the sixty buckets of the code: any closed 59 minutes. */
  lemma AirtimeInAny59MinutesIsWithinAllowance(freqHz: nat, reqs: seq<Request>, lo: int)
    requires AllowanceMs(freqHz).Some? && Nondecreasing(reqs)
    ensures SumIn(Run(Fresh(freqHz), reqs).1, lo, lo + GUARANTEED_MS + 1) <= AllowanceMs(freqHz).value
  {
    AirtimeInAnyWindowIsWithinAllowance(BUCKET_COUNT, AllowanceMs(freqHz).value, reqs, lo);
  }

  /** A claim that an exact limiter over the n minutes would admit, given the same history, is admitted. */
  lemma NeverStricterThanExactWindow(w: Window, log: seq<Charge>, last: nat, q: Request)
    requires Reachable(w, log, last) && last <= q.now
    requires SumIn(log, q.now - w.Span() + 1, q.now + 1) + q.airtime <= w.allowance.value
    ensures TryClaim(w, q.now, q.airtime).1 == Accepted
  {
    SpentBetweenExactSums(w, log, q.now);
  }

  // ----- The retry hint ------------------------------------------------------

  lemma {:induction false} FirstFitIsLeast(ages: seq<nat>, n: nat, airtime: nat, allowance: nat)
    requires n <= |ages| && airtime <= allowance
    ensures n <= FirstFit(ages, n, airtime, allowance) <= |ages|
    ensures FitsAfter(ages, FirstFit(ages, n, airtime, allowance), airtime, allowance)
    ensures forall m :: n <= m < FirstFit(ages, n, airtime, allowance) ==> !FitsAfter(ages, m, airtime, allowance)
    decreases |ages| - n
  {
    if n < |ages| && !FitsAfter(ages, n, airtime, allowance) {
      FirstFitIsLeast(ages, n + 1, airtime, allowance);
    }
  }

  lemma FitsMonotone(ages: seq<nat>, m: nat, n: nat, airtime: nat, allowance: nat)
    requires m <= n <= |ages| && FitsAfter(ages, m, airtime, allowance)
    ensures FitsAfter(ages, n, airtime, allowance)
  {
    SumPrefix(ages[..|ages| - m], |ages| - n);
    assert ages[..|ages| - m][..|ages| - n] == ages[..|ages| - n];
  }

  /** A claim at `now` is accepted iff it fits once the buckets elapsed by then have expired. */
  lemma AcceptedIffFits(w: Window, now: nat, airtime: nat)
    requires w.Valid() && w.allowance.Some? && airtime <= w.allowance.value
    ensures TryClaim(w, now, airtime).1.Accepted?
            <==> FitsAfter(w.ages, Min(Elapsed(w.start, now), |w.ages|), airtime, w.allowance.value)
  {
    AgeShrinks(w.ages, Elapsed(w.start, now));
  }

  lemma FitsAtOnceIff(ages: seq<nat>, airtime: nat, allowance: nat)
    ensures FitsAfter(ages, 0, airtime, allowance) <==> Sum(ages) + airtime <= allowance
  {
    assert ages[..|ages|] == ages;
  }

  /** After a refusal with a hint, the same claim succeeds `d` ms later iff `d` reaches the hint. */
  lemma RetryHintIsExact(w: Window, now: nat, airtime: nat, d: nat)
    requires w.Valid() && w.start <= now
    requires var result := TryClaim(w, now, airtime).1; result.Refused? && result.retryAfterMs.Some?
    ensures var (w', result) := TryClaim(w, now, airtime);
            var r := result.retryAfterMs.value;
            0 < r <= w.Span() && (TryClaim(w', now + d, airtime).1.Accepted? <==> d >= r)
  {
    hide FitsAfter, FirstFit, Age;
    var (a, result) := TryClaim(w, now, airtime);
    var allowance := w.allowance.value;
    var first := FirstFit(a.ages, 1, airtime, allowance);
    ClaimKeepsValid(w, now, airtime);
    AdvanceCovers(w, now);
    FirstFitIsLeast(a.ages, 1, airtime, allowance);
    AcceptedIffFits(a, now + d, airtime);
    var n := Min(Elapsed(a.start, now + d), |w.ages|);
    FitsAtOnceIff(a.ages, airtime, allowance);
    if n >= first {
      FitsMonotone(a.ages, first, n, airtime, allowance);
    }
    assert d >= result.retryAfterMs.value <==> Elapsed(a.start, now + d) >= first;
  }

  lemma {:induction false} RunKeepsAllowance(w: Window, reqs: seq<Request>)
    requires w.Valid()
    ensures Run(w, reqs).0.Valid() && Run(w, reqs).0.allowance == w.allowance
  {
    if reqs != [] {
      RunKeepsAllowance(w, Init(reqs));
      ClaimKeepsValid(Run(w, Init(reqs)).0, Last(reqs).now, Last(reqs).airtime);
    }
  }

  /** A refusal carries no hint exactly when no later call for that airtime can succeed. */
  lemma NoHintMeansNever(w: Window, now: nat, airtime: nat)
    requires w.Valid() && w.start <= now && TryClaim(w, now, airtime).1.Refused?
    ensures TryClaim(w, now, airtime).1 == Refused(None) <==>
            forall reqs: seq<Request>, t: nat :: !TryClaim(Run(TryClaim(w, now, airtime).0, reqs).0, t, airtime).1.Accepted?
  {
    var w' := TryClaim(w, now, airtime).0;
    ClaimKeepsValid(w, now, airtime);
    if TryClaim(w, now, airtime).1 == Refused(None) {
      forall reqs: seq<Request>, t: nat ensures !TryClaim(Run(w', reqs).0, t, airtime).1.Accepted? {
        RunKeepsAllowance(w', reqs);
      }
    } else {
      RetryHintIsExact(w, now, airtime, w.Span());
      assert Run(w', []).0 == w';
      assert TryClaim(Run(w', []).0, now + w.Span(), airtime).1.Accepted?;
    }
  }

  /** A refused claim is invisible to the call after it. */
  lemma RefusalLeavesNoTrace(w: Window, t1: nat, a1: nat, t2: nat, a2: nat)
    requires w.Valid() && w.start <= t1 <= t2
    requires TryClaim(w, t1, a1).1.Refused?
    ensures TryClaim(TryClaim(w, t1, a1).0, t2, a2).1 == TryClaim(w, t2, a2).1
  {
    AdvanceInTwoSteps(w, t1, t2);
    SumZeros(Zeros(|w.ages|));
  }

  lemma RunStep(w: Window, reqs: seq<Request>, q: Request)
    requires w.ages != []
    ensures var (w1, log) := Run(w, reqs);
            var (w2, result) := TryClaim(w1, q.now, q.airtime);
            Run(w, reqs + [q]) == (w2, if result.Accepted? then log + [Charge(q.now, q.airtime)] else log)
  {
    assert Init(reqs + [q]) == reqs;
  }

  /** The spent total at `now`, read off the log. */
  lemma SpentNow(w: Window, log: seq<Charge>, last: nat, now: nat)
    requires Reachable(w, log, last) && last <= now
    ensures Advance(w, now).start <= now < Advance(w, now).start + BUCKET_MS
    ensures Sum(Advance(w, now).ages) == SumIn(log, Advance(w, now).start - w.Guaranteed(), now + 1)
  {
    var a := Advance(w, now);
    AdvanceCovers(w, now);
    AdvanceRefines(w, log, now);
    SpentIsLogSum(a, log);
    SumInOutside(log, now + 1, a.start + BUCKET_MS);
    SumInSplit(log, a.start - w.Guaranteed(), now + 1, a.start + BUCKET_MS);
  }

  /** A claim that fits what the ring still sees of the log is admitted and logged. */
  lemma AdmitStep(w: Window, log: seq<Charge>, last: nat, q: Request, reqs: seq<Request>, w0: Window)
    returns (w': Window)
    requires w0.ages != [] && Run(w0, reqs) == (w, log)
    requires Reachable(w, log, last) && last <= q.now && q.airtime <= w.allowance.value
    requires SumIn(log, Advance(w, q.now).start - w.Guaranteed(), q.now + 1) + q.airtime <= w.allowance.value
    ensures w'.start == Advance(w, q.now).start && w'.allowance == w.allowance
    ensures Run(w0, reqs + [q]) == (w', log + [Charge(q.now, q.airtime)])
    ensures Reachable(w', log + [Charge(q.now, q.airtime)], q.now)
  {
    hide FirstFit, Age, Sum, SumIn, WindowSafe, Refines, Run;
    w' := TryClaim(w, q.now, q.airtime).0;
    SpentNow(w, log, last, q.now);
    RunStep(w0, reqs, q);
    ClaimKeepsReachable(w, log, last, q);
  }

  lemma OneChargeSum(c: Charge, lo: int, hi: int)
    ensures SumIn([c], lo, hi) == if lo <= c.at < hi then c.airtime else 0
  {
    SumInAppend([], c, lo, hi);
    assert [] + [c] == [c];
  }

  lemma TwoChargesSum(c: Charge, d: Charge, lo: int, hi: int)
    ensures SumIn([c] + [d], lo, hi) == SumIn([c], lo, hi) + SumIn([d], lo, hi)
    ensures SumIn([c], lo, hi) == if lo <= c.at < hi then c.airtime else 0
    ensures SumIn([d], lo, hi) == if lo <= d.at < hi then d.airtime else 0
  {
    SumInAppend([c], d, lo, hi);
    OneChargeSum(c, lo, hi);
    OneChargeSum(d, lo, hi);
  }

  // ----- The hour the limiter does not enforce -------------------------------

  /** The run whose first claim an hour later no longer sees, though it is not yet an hour old. */
  function EarlySpending(allowance: nat, small: nat): seq<Request>
    requires small <= allowance
  {
    [Request(BUCKET_MS - 1, allowance - small)] + [Request(BUCKET_MS, small)]
  }

  lemma AllowanceSpentEarly(freqHz: nat, small: nat, now: nat) returns (w2: Window, log: seq<Charge>)
    requires AllowanceMs(freqHz).Some? && small <= AllowanceMs(freqHz).value
    requires HOUR_MS <= now < HOUR_MS + BUCKET_MS - 1
    ensures Run(Fresh(freqHz), EarlySpending(AllowanceMs(freqHz).value, small)) == (w2, log) && Reachable(w2, log, BUCKET_MS)
    ensures w2.start == BUCKET_MS && w2.allowance == AllowanceMs(freqHz)
    ensures SumIn(log, HOUR_MS - GUARANTEED_MS, now + 1) == small
    ensures SumIn(log, now - HOUR_MS + 1, now + 1) == AllowanceMs(freqHz).value
  {
    hide Sum, FirstFit, Age;
    var w0, reqs := Fresh(freqHz), EarlySpending(AllowanceMs(freqHz).value, small);
    var q1, q2 := reqs[0], reqs[1];
    var c1, c2 := Charge(q1.now, q1.airtime), Charge(q2.now, q2.airtime);
    RunIsReachable(BUCKET_COUNT, AllowanceMs(freqHz).value, []);
    var w1 := AdmitStep(w0, [], 0, q1, [], w0);
    assert [] + [q1] == [q1] && [] + [c1] == [c1];
    OneChargeSum(c1, BUCKET_MS - GUARANTEED_MS, q2.now + 1);
    w2 := AdmitStep(w1, [c1], q1.now, q2, [q1], w0);
    log := [c1] + [c2];
    TwoChargesSum(c1, c2, HOUR_MS - GUARANTEED_MS, now + 1);
    TwoChargesSum(c1, c2, now - HOUR_MS + 1, now + 1);
  }

  /**
   The regulation speaks of any one hour. With sixty buckets, one of them partly elapsed,
   a claim made `phase` ms into a minute no longer sees what was sent after `phase` ms of the
   minute that has just left the ring. For every sub-band, every phase but the last one and
   every packet length there is a run of accepted claims that puts twice the allowance, less
   one packet, into an hour.
   */
  lemma HourCanHoldTwice(freqHz: nat, phase: nat, small: nat)
    requires AllowanceMs(freqHz).Some? && small <= AllowanceMs(freqHz).value && phase < BUCKET_MS - 1
    ensures var now, allowance := HOUR_MS + phase, AllowanceMs(freqHz).value;
            var reqs, q := EarlySpending(allowance, small), Request(now, allowance - small);
            && AcceptedAtPhase(freqHz, reqs, q, phase)
            && HourSum(freqHz, reqs, q) == 2 * allowance - small
  {
    hide Sum, FirstFit, Reachable, Age;
    var now, allowance := HOUR_MS + phase, AllowanceMs(freqHz).value;
    var w0, reqs, q := Fresh(freqHz), EarlySpending(allowance, small), Request(now, allowance - small);
    var w2, log := AllowanceSpentEarly(freqHz, small, now);
    assert Elapsed(w2.start, now) == BUCKET_COUNT - 1;
    var w3 := AdmitStep(w2, log, BUCKET_MS, q, reqs, w0);
    SumInAppend(log, Charge(now, allowance - small), now - HOUR_MS + 1, now + 1);
    AcceptedIfLogged(w0, reqs, q);
  }

  /**
   After an idle hour the ring starts afresh, and two equal claims alone can be accepted within
   it: at the full allowance, they reach twice that.
   */
  lemma HourCanHoldTwiceAfterIdle(freqHz: nat, airtime: nat)
    requires AllowanceMs(freqHz).Some? && airtime <= AllowanceMs(freqHz).value
    ensures var reqs, q := [Request(BUCKET_MS - 1, airtime)], Request(HOUR_MS, airtime);
            && AcceptedAtPhase(freqHz, reqs, q, 0)
            && HourSum(freqHz, reqs, q) == 2 * airtime
            && Run(Fresh(freqHz), reqs).1 == [Charge(BUCKET_MS - 1, airtime)]
            && Run(Fresh(freqHz), reqs + [q]).1 == [Charge(BUCKET_MS - 1, airtime), Charge(HOUR_MS, airtime)]
  {
    hide Sum, FirstFit, Reachable, Age;
    var w0, q1, q := Fresh(freqHz), Request(BUCKET_MS - 1, airtime), Request(HOUR_MS, airtime);
    var c1 := Charge(q1.now, q1.airtime);
    RunIsReachable(BUCKET_COUNT, AllowanceMs(freqHz).value, []);
    var w1 := AdmitStep(w0, [], 0, q1, [], w0);
    assert [] + [q1] == [q1] && [] + [c1] == [c1];
    OneChargeSum(c1, HOUR_MS - GUARANTEED_MS, HOUR_MS + 1);
    OneChargeSum(c1, 1, HOUR_MS + 1);
    var w2 := AdmitStep(w1, [c1], q1.now, q, [q1], w0);
    SumInAppend([c1], Charge(q.now, q.airtime), 1, HOUR_MS + 1);
    AcceptedIfLogged(w0, [q1], q);
  }

  lemma AcceptedIfLogged(w0: Window, reqs: seq<Request>, q: Request)
    requires |w0.ages| == BUCKET_COUNT && Run(w0, reqs + [q]).1 == Run(w0, reqs).1 + [Charge(q.now, q.airtime)]
    ensures TryClaim(Run(w0, reqs).0, q.now, q.airtime).1.Accepted?
  {
    hide TryClaim;
    RunStep(w0, reqs, q);
  }

  /** A claim accepted after a run of claims, `phase` ms into the minute of the head bucket. */
  ghost predicate AcceptedAtPhase(freqHz: nat, reqs: seq<Request>, q: Request, phase: nat) {
    var w := Run(Fresh(freqHz), reqs).0;
    && Nondecreasing(reqs + [q])
    && TryClaim(w, q.now, q.airtime).1.Accepted?
    && q.now - Advance(w, q.now).start == phase
  }

  /** Airtime accepted in the hour that ends with the claim. */
  ghost function HourSum(freqHz: nat, reqs: seq<Request>, q: Request): nat {
    SumIn(Run(Fresh(freqHz), reqs + [q]).1, q.now - HOUR_MS + 1, q.now + 1)
  }

  ghost predicate NoShorterThan(reqs: seq<Request>, least: nat) {
    forall r :: r in reqs ==> r.airtime >= least
  }

  lemma EndOfMinuteKeepsTheHour(freqHz: nat, reqs: seq<Request>, q: Request)
    requires AllowanceMs(freqHz).Some? && AcceptedAtPhase(freqHz, reqs, q, BUCKET_MS - 1)
    ensures HourSum(freqHz, reqs, q) <= AllowanceMs(freqHz).value
  {
    hide TryClaim, Reachable, Advance;
    var (w, log) := Run(Fresh(freqHz), reqs);
    PrefixNondecreasing(reqs, q);
    RunIsReachable(BUCKET_COUNT, AllowanceMs(freqHz).value, reqs);
    ExactAtTheEndOfAMinute(w, log, if reqs == [] then 0 else Last(reqs).now, q);
    RunStep(Fresh(freqHz), reqs, q);
    SumInAppend(log, Charge(q.now, q.airtime), q.now - HOUR_MS + 1, q.now + 1);
  }

  lemma PrefixNondecreasing(reqs: seq<Request>, q: Request)
    requires Nondecreasing(reqs + [q])
    ensures Nondecreasing(reqs) && (reqs != [] ==> Last(reqs).now <= q.now)
  {
    forall i, j | 0 <= i < j < |reqs| ensures reqs[i].now <= reqs[j].now {
      assert (reqs + [q])[i].now <= (reqs + [q])[j].now;
    }
    if reqs != [] {
      assert (reqs + [q])[|reqs| - 1].now <= (reqs + [q])[|reqs|].now;
    }
  }

  /**
   Exactly when the hour of the regulation is kept: for every sub-band and every least packet
   length, the accepted claims made `phase` ms into a minute all keep the hour ending with
   them within the allowance if and only if that is the minute's last millisecond.
   */
  lemma HourKeptIffEndOfMinute(freqHz: nat, phase: nat, least: nat)
    requires AllowanceMs(freqHz).Some? && phase < BUCKET_MS && 1 <= least && 2 * least <= AllowanceMs(freqHz).value
    ensures phase == BUCKET_MS - 1 <==>
            forall reqs: seq<Request>, q: Request :: AcceptedAtPhase(freqHz, reqs, q, phase) && NoShorterThan(reqs + [q], least) ==>
              HourSum(freqHz, reqs, q) <= AllowanceMs(freqHz).value
  {
    hide AcceptedAtPhase, HourSum;
    var allowance := AllowanceMs(freqHz).value;
    if phase == BUCKET_MS - 1 {
      forall reqs: seq<Request>, q: Request | AcceptedAtPhase(freqHz, reqs, q, phase)
        ensures HourSum(freqHz, reqs, q) <= allowance
      {
        EndOfMinuteKeepsTheHour(freqHz, reqs, q);
      }
    } else {
      HourCanHoldTwice(freqHz, phase, least);
      var reqs, q := EarlySpending(allowance, least), Request(HOUR_MS + phase, allowance - least);
      assert AcceptedAtPhase(freqHz, reqs, q, phase) && NoShorterThan(reqs + [q], least) && HourSum(freqHz, reqs, q) > allowance;
    }
  }

  /** Twice is also the most: no closed hour ever holds more than two allowances. */
  lemma HourHoldsAtMostTwice(freqHz: nat, reqs: seq<Request>, lo: int)
    requires AllowanceMs(freqHz).Some? && Nondecreasing(reqs)
    ensures SumIn(Run(Fresh(freqHz), reqs).1, lo, lo + HOUR_MS + 1) <= 2 * AllowanceMs(freqHz).value
  {
    var log := Run(Fresh(freqHz), reqs).1;
    AirtimeInAny59MinutesIsWithinAllowance(freqHz, reqs, lo);
    AirtimeInAny59MinutesIsWithinAllowance(freqHz, reqs, lo + GUARANTEED_MS + 1);
    SumInSplit(log, lo, lo + GUARANTEED_MS + 1, lo + HOUR_MS + 1);
    SumInWiden(log, lo + GUARANTEED_MS + 1, lo + HOUR_MS + 1, lo + GUARANTEED_MS + 1, lo + 2 * GUARANTEED_MS + 2);
  }

  /** In the last millisecond of a minute the ring decides exactly as a sliding window of n minutes would. */
  lemma ExactAtTheEndOfAMinute(w: Window, log: seq<Charge>, last: nat, q: Request)
    requires Reachable(w, log, last) && last <= q.now && Advance(w, q.now).start + BUCKET_MS - 1 == q.now
    ensures TryClaim(w, q.now, q.airtime).1.Accepted?
            <==> SumIn(log, q.now - w.Span() + 1, q.now + 1) + q.airtime <= w.allowance.value
  {
    SpentNow(w, log, last, q.now);
  }
}
