/** The ring of buckets the firmware rotates in place (src/lora/duty_cycle.rs). */
module Limiter {
  import opened Prelude
  import opened DutyCycle

  /** The slot k buckets back from the head, wrapping round. */
  function Slot(head: nat, k: nat): (slot: nat)
    requires head < BUCKET_COUNT && k < BUCKET_COUNT
    ensures slot < BUCKET_COUNT && slot == (head + BUCKET_COUNT - k) % BUCKET_COUNT
  {
    if k <= head then head - k else head + BUCKET_COUNT - k
  }

  lemma OldestSlot(head: nat, n: nat)
    requires head < BUCKET_COUNT && 1 <= n <= BUCKET_COUNT
    ensures (head + n) % BUCKET_COUNT == Slot(head, BUCKET_COUNT - n)
  {
    assert head + n < 2 * BUCKET_COUNT;
  }

  /** The ring read by age. */
  function Ages(buckets: seq<nat>, head: nat): (ages: seq<nat>)
    requires |buckets| == BUCKET_COUNT && head < BUCKET_COUNT
    ensures |ages| == BUCKET_COUNT
    ensures forall k :: 0 <= k < BUCKET_COUNT ==> ages[k] == buckets[Slot(head, k)]
  {
    seq(BUCKET_COUNT, k requires 0 <= k < BUCKET_COUNT => buckets[Slot(head, k)])
  }

  function Reverse(s: seq<nat>): (r: seq<nat>)
    ensures |r| == |s| && forall k :: 0 <= k < |s| ==> r[k] == s[|s| - 1 - k]
  {
    seq(|s|, k requires 0 <= k < |s| => s[|s| - 1 - k])
  }

  lemma {:induction false} SumReverse(s: seq<nat>)
    ensures Sum(Reverse(s)) == Sum(s)
  {
    if s != [] {
      SumReverse(Init(s));
      assert Reverse(s) == [Last(s)] + Reverse(Init(s));
      SumConcat([Last(s)], Reverse(Init(s)));
      assert Init([Last(s)]) == [];
    }
  }

  /** The order in which the buckets are summed does not matter. */
  lemma SumAges(buckets: seq<nat>, head: nat)
    requires |buckets| == BUCKET_COUNT && head < BUCKET_COUNT
    ensures Sum(Ages(buckets, head)) == Sum(buckets)
  {
    var a, b := buckets[..head + 1], buckets[head + 1..];
    forall k | 0 <= k < BUCKET_COUNT ensures Ages(buckets, head)[k] == (Reverse(a) + Reverse(b))[k] {
      assert Ages(buckets, head)[k] == buckets[Slot(head, k)];
    }
    assert Ages(buckets, head) == Reverse(a) + Reverse(b);
    SumConcat(Reverse(a), Reverse(b));
    SumReverse(a);
    SumReverse(b);
    SumPrefix(buckets, head + 1);
  }

  lemma AgeEnds(ages: seq<nat>, n: nat)
    ensures Age(ages, 0) == ages
    ensures n >= |ages| ==> Age(ages, n) == Zeros(|ages|)
  {}

  lemma AgeByOne(ages: seq<nat>, n: nat)
    requires n + 1 < |ages|
    ensures Age(ages, n + 1) == [0] + Init(Age(ages, n))
  {}

  /** Expiring one more bucket frees the next-oldest age. */
  lemma FreedStep(ages: seq<nat>, n: nat)
    requires |ages| == BUCKET_COUNT && 1 <= n <= BUCKET_COUNT
    ensures Sum(ages[BUCKET_COUNT - n..]) == Sum(ages[BUCKET_COUNT - n + 1..]) + ages[BUCKET_COUNT - n]
    ensures Sum(ages) - Sum(ages[BUCKET_COUNT - n..]) == Sum(ages[..BUCKET_COUNT - n])
  {
    assert ages[BUCKET_COUNT - n..] == [ages[BUCKET_COUNT - n]] + ages[BUCKET_COUNT - n + 1..];
    SumConcat([ages[BUCKET_COUNT - n]], ages[BUCKET_COUNT - n + 1..]);
    assert Init([ages[BUCKET_COUNT - n]]) == [];
    SumPrefix(ages, BUCKET_COUNT - n);
  }

  lemma FirstFitStep(ages: seq<nat>, n: nat, airtime: nat, allowance: nat)
    requires n <= |ages| && airtime <= allowance
    ensures FirstFit(ages, n, airtime, allowance)
            == if n == |ages| || FitsAfter(ages, n, airtime, allowance) then n else FirstFit(ages, n + 1, airtime, allowance)
  {}

  lemma AgesOfZeros(buckets: seq<nat>, head: nat)
    requires |buckets| == BUCKET_COUNT && head < BUCKET_COUNT && forall i :: 0 <= i < |buckets| ==> buckets[i] == 0
    ensures Ages(buckets, head) == Zeros(BUCKET_COUNT)
  {}

  /** Moving the head on and clearing the new head slot makes every bucket one older. */
  lemma RotateAges(buckets: seq<nat>, head: nat)
    requires |buckets| == BUCKET_COUNT && head < BUCKET_COUNT
    ensures var head' := (head + 1) % BUCKET_COUNT;
            Ages(buckets[head' := 0], head') == [0] + Init(Ages(buckets, head))
  {
    var head' := (head + 1) % BUCKET_COUNT;
    forall k | 0 <= k < BUCKET_COUNT
      ensures Ages(buckets[head' := 0], head')[k] == ([0] + Init(Ages(buckets, head)))[k]
    {
      if k > 0 {
        assert Slot(head', k) == Slot(head, k - 1) && Slot(head', k) != head';
      }
    }
  }

  /** One turn of the rotation, as a step of the ages. */
  lemma RotateStep(ages: seq<nat>, n: nat, buckets: seq<nat>, head: nat)
    requires |buckets| == |ages| == BUCKET_COUNT && head < BUCKET_COUNT && n + 1 < BUCKET_COUNT
    requires Ages(buckets, head) == Age(ages, n)
    ensures var head' := (head + 1) % BUCKET_COUNT; Ages(buckets[head' := 0], head') == Age(ages, n + 1)
  {
    hide Ages, Age;
    AgeByOne(ages, n);
    RotateAges(buckets, head);
  }

  lemma ChargeHead(buckets: seq<nat>, head: nat, airtime: nat)
    requires |buckets| == BUCKET_COUNT && head < BUCKET_COUNT
    ensures var ages := Ages(buckets, head);
            Ages(buckets[head := buckets[head] + airtime], head) == ages[0 := ages[0] + airtime]
  {
    var ages := Ages(buckets, head);
    var charged := ages[0 := ages[0] + airtime];
    forall k | 0 <= k < BUCKET_COUNT
      ensures Ages(buckets[head := buckets[head] + airtime], head)[k] == charged[k]
    {
      assert k > 0 ==> Slot(head, k) != head;
    }
  }

  /** The ring itself: its ages, start and allowance are a `Window`. */
  class DutyCycleLimiter {
    const buckets: array<nat>
    var head: nat
    var headStartMs: nat
    const allowanceMs: Option<nat>

    ghost predicate Valid()
      reads this, buckets
    {
      && buckets.Length == BUCKET_COUNT && head < BUCKET_COUNT && View().Valid()
      && (allowanceMs.Some? ==> allowanceMs.value <= 360_000)
    }

    ghost function View(): (w: Window)
      reads this, buckets
      requires buckets.Length == BUCKET_COUNT && head < BUCKET_COUNT
      ensures |w.ages| == BUCKET_COUNT
    {
      Window(Ages(buckets[..], head), headStartMs, allowanceMs)
    }

    constructor ForFrequency(freqHz: nat)
      ensures Valid() && View() == Fresh(freqHz)
      ensures fresh(buckets)
    {
      allowanceMs := AllowanceMs(freqHz);
      buckets := new nat[BUCKET_COUNT](i => 0);
      head, headStartMs := 0, 0;
      new;
      AgesOfZeros(buckets[..], head);
      FreshIsValid(BUCKET_COUNT, allowanceMs);
    }

    /** Adds up the ring slot by slot, which comes to the sum over the ages. */
    method SpentMs() returns (spent: nat)
      requires Valid()
      ensures spent == Sum(View().ages)
    {
      spent := 0;
      for i := 0 to buckets.Length
        invariant spent == Sum(buckets[..i])
      {
        assert Init(buckets[..i + 1]) == buckets[..i];
        spent := spent + buckets[i];
      }
      assert buckets[..buckets.Length] == buckets[..];
      SumAges(buckets[..], head);
    }

    /** Rotates the ring in place so that the head covers `now`. */
    method Advance(now: nat)
      requires Valid()
      modifies this, buckets
      ensures Valid() && View() == DutyCycle.Advance(old(View()), now)
    {
      hide Sum, FirstFit, Ages, Age;
      ghost var w := View();
      var elapsed := (if headStartMs <= now then now - headStartMs else 0) / BUCKET_MS;
      AgeShrinks(w.ages, elapsed);
      AgeEnds(w.ages, elapsed);
      if elapsed >= BUCKET_COUNT {
        forall i | 0 <= i < buckets.Length {
          buckets[i] := 0;
        }
        head := 0;
        headStartMs := now;
        AgesOfZeros(buckets[..], head);
        return;
      }
      for i := 0 to elapsed
        invariant head < BUCKET_COUNT
        invariant headStartMs == w.start + i * BUCKET_MS
        invariant Ages(buckets[..], head) == Age(w.ages, i)
      {
        ghost var before, oldHead := buckets[..], head;
        head := (head + 1) % BUCKET_COUNT;
        buckets[head] := 0;
        headStartMs := headStartMs + BUCKET_MS;
        assert buckets[..] == before[head := 0];
        RotateStep(w.ages, i, before, oldHead);
      }
    }

    /** The refusal's walk over the buckets, oldest first; it always finds the expiry that frees enough. */
    method ReleasingExpiry(spent: nat, airtime: nat) returns (expired: nat)
      requires Valid() && allowanceMs.Some? && airtime <= allowanceMs.value
      requires spent == Sum(View().ages)
      ensures expired == FirstFit(View().ages, 1, airtime, allowanceMs.value)
    {
      hide FirstFit, Ages;
      var allowance := allowanceMs.value;
      ghost var ages := View().ages;
      var freed := 0;
      expired := 1;
      while expired <= BUCKET_COUNT
        invariant 1 <= expired <= BUCKET_COUNT + 1
        invariant freed == Sum(ages[BUCKET_COUNT - expired + 1..])
        invariant expired <= BUCKET_COUNT ==> FirstFit(ages, 1, airtime, allowance) == FirstFit(ages, expired, airtime, allowance)
        invariant expired > BUCKET_COUNT ==> !FitsAfter(ages, BUCKET_COUNT, airtime, allowance)
      {
        OldestSlot(head, expired);
        freed := freed + buckets[(head + expired) % BUCKET_COUNT];
        FreedStep(ages, expired);
        assert freed <= spent;
        FirstFitStep(ages, expired, airtime, allowance);
        if spent - freed + airtime <= allowance {
          return;
        }
        expired := expired + 1;
      }
      assert false;
    }

    method TryClaim(now: nat, airtime: nat) returns (result: ClaimResult)
      requires Valid()
      modifies this, buckets
      ensures Valid() && (View(), result) == DutyCycle.TryClaim(old(View()), now, airtime)
    {
      hide Sum, FirstFit;
      ClaimKeepsValid(View(), now, airtime);
      if allowanceMs.None? {
        return Accepted;
      }
      var allowance := allowanceMs.value;
      if airtime > allowance {
        return Refused(None);
      }
      Advance(now);
      ghost var ages := View().ages;
      var spent := SpentMs();
      assert spent + airtime < U32_SIZE;
      if spent + airtime <= allowance {
        ghost var before := buckets[..];
        buckets[head] := buckets[head] + airtime;
        assert buckets[..] == before[head := before[head] + airtime];
        ChargeHead(before, head, airtime);
        return Accepted;
      }
      var expired := ReleasingExpiry(spent, airtime);
      var readyAt := headStartMs + expired * BUCKET_MS;
      return Refused(Some(if now <= readyAt then readyAt - now else 0));
    }
  }
}
