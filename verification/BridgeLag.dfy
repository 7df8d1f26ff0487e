/** What lag costs the bridge: exactly when it stays busy for ever, and a run that gets there. */
module BridgeLag {
  import opened Prelude
  import opened Correlation
  import opened BridgeProtocol

  lemma LostAreInFlight(s: System)
    requires Invariant(s)
    ensures s.lost <= s.bridge.inFlight.Keys && |s.lost| <= |s.bridge.inFlight|
  {
    forall q | q in s.lost ensures q in s.bridge.inFlight.Keys {
      assert (Places(s) + multiset(s.lost))[q] == multiset(s.bridge.inFlight.Keys)[q];
    }
    SubsetIsSmaller(s.lost, s.bridge.inFlight.Keys);
  }

  lemma LostStaysLost(s: System, step: Step)
    requires Enabled(s, step)
    ensures s.lost <= Next(s, step).lost
  {}

  ghost predicate Extends(steps: seq<Step>, more: seq<Step>) {
    |steps| <= |more| && more[..|steps|] == steps
  }

  /** Once four responses were lost to lag, every later well-formed downlink is answered busy. */
  lemma {:induction false} FourLostMeansBusyForEver(steps: seq<Step>, more: seq<Step>, payload: seq<u8>, id: Option<u32>, encodable: bool)
    requires Possible(steps) && Possible(more) && Extends(steps, more) && |Run(steps).lost| >= MAX_IN_FLIGHT
    ensures Run(steps).lost <= Run(more).lost
    ensures OnDownlink(Run(more).bridge, Downlink(payload, id, encodable)).1 == Reject(TxResult(Busy, id, None))
    decreases |more|
  {
    hide Invariant, Next;
    if more == steps {
    } else {
      assert Init(more)[..|steps|] == steps;
      FourLostMeansBusyForEver(steps, Init(more), payload, id, encodable);
      LostStaysLost(Run(Init(more)), Last(more));
    }
    RunInvariant(more);
    LostAreInFlight(Run(more));
    SubsetIsSmaller(Run(steps).lost, Run(more).lost);
    Disassemble(Run(more));
  }

  // ----- The converse: fewer than four lost, and the bridge recovers ---------

  lemma Extend(steps: seq<Step>, step: Step)
    requires Possible(steps) && Enabled(Run(steps), step) && (step.DownlinkArrives? ==> Young(Run(steps)))
    ensures Possible(steps + [step]) && Run(steps + [step]) == Next(Run(steps), step)
  {
    assert Init(steps + [step]) == steps;
  }

  ghost predicate Drained(s: System) {
    s.commands == [] && s.executing.None? && s.responses == []
  }

  ghost function Remaining(s: System): nat {
    3 * |s.commands| + (if s.executing.Some? then 2 else 0) + |s.responses|
  }

  /** The next step of emptying the pipeline: read first, so that nothing more is lost. */
  ghost function DrainStep(s: System): Step
    requires !Drained(s)
  {
    if s.responses != [] then BridgeReads else if s.executing.Some? then RadioFinishes(OtherResponse) else RadioTakes
  }

  lemma DrainStepLosesNothing(s: System)
    requires !Drained(s)
    ensures Enabled(s, DrainStep(s))
    ensures Next(s, DrainStep(s)).lost == s.lost && Remaining(Next(s, DrainStep(s))) < Remaining(s)
  {}

  /** Every run can be continued until nothing is on its way any more, losing nothing. */
  lemma {:induction false} Drain(steps: seq<Step>) returns (more: seq<Step>)
    requires Possible(steps)
    ensures Possible(more) && Extends(steps, more) && Drained(Run(more)) && Run(more).lost == Run(steps).lost
    decreases Remaining(Run(steps))
  {
    hide Next, Enabled, Drained, Remaining;
    var s := Run(steps);
    if Drained(s) {
      more := steps;
    } else {
      DrainStepLosesNothing(s);
      Extend(steps, DrainStep(s));
      more := Drain(steps + [DrainStep(s)]);
      assert more[..|steps|] == more[..|steps| + 1][..|steps|];
    }
  }

  lemma DrainedHoldsOnlyLost(s: System)
    requires Invariant(s) && Drained(s)
    ensures s.bridge.inFlight.Keys == s.lost && |s.bridge.inFlight| == |s.lost|
  {
    hide Numbered, Ticketed, Answered;
    assert Places(s) == multiset{};
    forall q ensures q in s.lost <==> q in s.bridge.inFlight.Keys {
      assert (Places(s) + multiset(s.lost))[q] == multiset(s.bridge.inFlight.Keys)[q];
    }
    assert |s.bridge.inFlight| == |s.bridge.inFlight.Keys|;
  }

  ghost predicate AnswersBusy(s: System, payload: seq<u8>, id: Option<u32>, encodable: bool) {
    OnDownlink(s.bridge, Downlink(payload, id, encodable)).1 == Reject(TxResult(Busy, id, None))
  }

  /**
   The bridge recovers iff fewer than four responses were lost to lag: in every possible run,
   all continuations answer every well-formed downlink busy if and only if four were lost.
   */
  lemma BusyForEverIffFourLost(steps: seq<Step>)
    requires Possible(steps)
    ensures |Run(steps).lost| >= MAX_IN_FLIGHT <==>
            forall more: seq<Step>, payload: seq<u8>, id: Option<u32>, encodable: bool ::
              Possible(more) && Extends(steps, more) ==> AnswersBusy(Run(more), payload, id, encodable)
  {
    hide AnswersBusy;
    if |Run(steps).lost| >= MAX_IN_FLIGHT {
      forall more: seq<Step>, payload: seq<u8>, id: Option<u32>, encodable: bool | Possible(more) && Extends(steps, more)
        ensures AnswersBusy(Run(more), payload, id, encodable)
      {
        StaysBusy(steps, more, payload, id, encodable);
      }
    } else {
      var more := Drain(steps);
      RunInvariant(more);
      DrainedHoldsOnlyLost(Run(more));
      NotBusy(Run(more));
      assert !AnswersBusy(Run(more), [], None, true);
    }
  }

  lemma StaysBusy(steps: seq<Step>, more: seq<Step>, payload: seq<u8>, id: Option<u32>, encodable: bool)
    requires Possible(steps) && Possible(more) && Extends(steps, more) && |Run(steps).lost| >= MAX_IN_FLIGHT
    ensures AnswersBusy(Run(more), payload, id, encodable)
  {
    FourLostMeansBusyForEver(steps, more, payload, id, encodable);
  }

  lemma NotBusy(s: System)
    requires |s.bridge.inFlight| < MAX_IN_FLIGHT
    ensures !AnswersBusy(s, [], None, true)
  {}

  // ----- A run that loses four -----------------------------------------------

  const PLAIN: Parsed := Downlink([], None, true)

  /** `n` downlinks arrive and are executed one after the other; the bridge reads nothing. */
  ghost function Unread(n: nat): seq<Step> {
    if n == 0 then [] else Unread(n - 1) + [DownlinkArrives(PLAIN)] + [RadioTakes] + [RadioFinishes(TxComplete)]
  }

  function Below(d: nat): (ids: set<u16>)
    requires d <= U16_SIZE
    ensures |ids| == d && forall q: u16 :: q in ids <==> q < d
  {
    if d == 0 then {} else Below(d - 1) + {d - 1}
  }

  /** Nothing but the first `n` responses on its way, from the d-th on; the d before were lost. */
  ghost predicate Backlog(s: System, n: nat, d: nat) {
    && d <= n <= MAX_IN_FLIGHT
    && s.commands == [] && s.executing.None?
    && |s.bridge.inFlight| == n && s.bridge.nextSequence == s.issued == n && (forall q :: q in s.bridge.inFlight ==> q < n)
    && |s.responses| >= n - d && (forall i :: 0 <= i < n - d ==> s.responses[i] == CommandResponse(WiFi, i + d, TxComplete))
    && s.lost == Below(d)
  }

  lemma UnreadStep(s: System, n: nat)
    requires Backlog(s, n, 0) && |s.responses| == n && n < MAX_IN_FLIGHT
    ensures var s1 := Next(s, DownlinkArrives(PLAIN));
            && Young(s) && Enabled(s1, RadioTakes)
            && var s2 := Next(s1, RadioTakes);
            && Enabled(s2, RadioFinishes(TxComplete))
            && var s3 := Next(s2, RadioFinishes(TxComplete));
            && Backlog(s3, n + 1, 0) && |s3.responses| == n + 1
  {
    assert |s.bridge.inFlight[n := None]| == n + 1;
  }

  lemma {:induction false} UnreadRun(n: nat)
    requires n <= MAX_IN_FLIGHT
    ensures Possible(Unread(n)) && Backlog(Run(Unread(n)), n, 0) && |Run(Unread(n)).responses| == n
  {
    hide Next, Enabled, Backlog, Young;
    if n == 0 {
      NothingYet();
    } else {
      UnreadRun(n - 1);
      var steps := Unread(n - 1);
      UnreadStep(Run(steps), n - 1);
      AlwaysArrives(Run(steps));
      Extend(steps, DownlinkArrives(PLAIN));
      Extend(steps + [DownlinkArrives(PLAIN)], RadioTakes);
      Extend(steps + [DownlinkArrives(PLAIN)] + [RadioTakes], RadioFinishes(TxComplete));
    }
  }

  lemma AlwaysArrives(s: System)
    ensures Enabled(s, DownlinkArrives(PLAIN))
  {}

  lemma NothingYet()
    ensures Backlog(Boot(), 0, 0)
  {}

  /** Then `k` other messages are published. */
  ghost function Flooded(k: nat): seq<Step> {
    if k == 0 then Unread(MAX_IN_FLIGHT) else Flooded(k - 1) + [OthersPublish(HubRaw)]
  }

  lemma FloodFills(s: System)
    requires Backlog(s, MAX_IN_FLIGHT, 0) && |s.responses| < RESPONSE_CHANNEL_SIZE
    ensures Backlog(Publish(s, HubRaw), MAX_IN_FLIGHT, 0) && |Publish(s, HubRaw).responses| == |s.responses| + 1
  {
    hide Below;
  }

  lemma FloodDrops(s: System, d: nat)
    requires d < MAX_IN_FLIGHT && Backlog(s, MAX_IN_FLIGHT, d) && |s.responses| == RESPONSE_CHANNEL_SIZE
    ensures Backlog(Publish(s, HubRaw), MAX_IN_FLIGHT, d + 1) && |Publish(s, HubRaw).responses| == RESPONSE_CHANNEL_SIZE
  {
    assert s.responses[0] == CommandResponse(WiFi, d, TxComplete);
    assert Below(d + 1) == Below(d) + {d};
  }

  lemma FloodStep(s: System, k: nat)
    requires k < 2 * MAX_IN_FLIGHT
    requires var d := if k > MAX_IN_FLIGHT then k - MAX_IN_FLIGHT else 0;
             Backlog(s, MAX_IN_FLIGHT, d) && |s.responses| == MAX_IN_FLIGHT + k - d
    ensures Enabled(s, OthersPublish(HubRaw))
    ensures var d' := if k + 1 > MAX_IN_FLIGHT then k + 1 - MAX_IN_FLIGHT else 0;
            var s' := Next(s, OthersPublish(HubRaw));
            Backlog(s', MAX_IN_FLIGHT, d') && |s'.responses| == MAX_IN_FLIGHT + k + 1 - d'
  {
    hide Backlog, Publish;
    if k < MAX_IN_FLIGHT {
      FloodFills(s);
    } else {
      FloodDrops(s, k - MAX_IN_FLIGHT);
    }
  }

  lemma {:induction false} FloodedRun(k: nat)
    requires k <= 2 * MAX_IN_FLIGHT
    ensures var d := if k > MAX_IN_FLIGHT then k - MAX_IN_FLIGHT else 0;
            && Possible(Flooded(k)) && Backlog(Run(Flooded(k)), MAX_IN_FLIGHT, d)
            && |Run(Flooded(k)).responses| == MAX_IN_FLIGHT + k - d
  {
    hide Next, Enabled, Backlog;
    if k == 0 {
      UnreadRun(MAX_IN_FLIGHT);
    } else {
      FloodedRun(k - 1);
      FloodStep(Run(Flooded(k - 1)), k - 1);
      Extend(Flooded(k - 1), OthersPublish(HubRaw));
    }
  }

  /** Four downlinks executed and eight other messages, none of them read, and four responses are lost. */
  lemma EightMessagesLoseFour()
    ensures Possible(Flooded(8)) && |Flooded(8)| == 20 && |Run(Flooded(8)).lost| == MAX_IN_FLIGHT
  {
    hide Next, Enabled, Unread, Run, Possible, Below, Flooded;
    FloodedRun(8);
    UnreadLength(4);
    FloodedLength(8);
  }

  lemma {:induction false} UnreadLength(n: nat)
    ensures |Unread(n)| == 3 * n
  {
    if n > 0 {
      UnreadLength(n - 1);
    }
  }

  lemma {:induction false} FloodedLength(k: nat)
    ensures |Flooded(k)| == |Unread(MAX_IN_FLIGHT)| + k
  {
    if k > 0 {
      FloodedLength(k - 1);
    }
  }

  // ----- How long an id may stay out -----------------------------------------

  ghost predicate AgesUpTo(s: System, limit: nat) {
    forall q :: q in s.number ==> s.issued - s.number[q] <= limit
  }

  lemma AgesStep(s: System, step: Step)
    requires AgesUpTo(s, U16_SIZE) && Enabled(s, step) && (step.DownlinkArrives? ==> Young(s))
    ensures AgesUpTo(Next(s, step), U16_SIZE)
  {}

  lemma {:induction false} RunAges(steps: seq<Step>)
    requires Possible(steps)
    ensures AgesUpTo(Run(steps), U16_SIZE)
  {
    hide Next, Enabled, AgesUpTo, Young;
    if steps == [] {
      assert AgesUpTo(Boot(), U16_SIZE) by { NoAges(); }
    } else {
      RunAges(Init(steps));
      AgesStep(Run(Init(steps)), Last(steps));
    }
  }

  lemma NoAges()
    ensures AgesUpTo(Boot(), U16_SIZE)
  {}

  lemma FullAgeMeansNext(s: System, q: u16)
    requires Numbered(s.bridge.nextSequence, s.issued, s.number) && q in s.number && s.issued - s.number[q] == U16_SIZE
    ensures q == s.bridge.nextSequence
  {}

  lemma OldestIsNext(s: System)
    requires Invariant(s) && AgesUpTo(s, U16_SIZE)
    ensures s.bridge.nextSequence !in s.bridge.inFlight <==> Young(s)
  {
    hide Invariant, Located, Bounded, Numbered, Ticketed, Answered;
    Disassemble(s);
    if Young(s) {
      YoungMeansFresh(s);
    } else {
      var q :| q in s.number && s.issued - s.number[q] >= U16_SIZE;
      FullAgeMeansNext(s, q);
      assert q in s.bridge.inFlight.Keys;
    }
  }

  /**
   The assumption on ids is tight: in every possible run the next downlink gets an id of its
   own if and only if no entry has seen 65,536 issued since it was.
   */
  lemma NextIdIsFreeIffYoung(steps: seq<Step>)
    requires Possible(steps)
    ensures Run(steps).bridge.nextSequence !in Run(steps).bridge.inFlight <==> Young(Run(steps))
  {
    hide Invariant, Young, AgesUpTo;
    RunInvariant(steps);
    RunAges(steps);
    OldestIsNext(Run(steps));
  }
}
