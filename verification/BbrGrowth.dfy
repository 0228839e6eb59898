/** STARTUP ends: as long as bandwidth estimates stay bounded, only boundedly many rounds
    can pass before the sender decides that it has reached the full bandwidth. */
module BbrGrowth {
  import opened Arithmetic
  import opened Wrappers
  import WF = WindowedFilter
  import SS = SamplerState
  import opened BbrState
  import opened BbrProofs
  import opened BbrRuns

  function Power(b: nat, k: nat): (p: nat)
    requires b > 0
    ensures p > 0
  {
    if k == 0 then 1 else b * Power(b, k - 1)
  }

  // ----- One check

  /** Bandwidths are multiples of 8, so the 25 percent target is not rounded down. */
  lemma TargetIsExact(last: nat)
    requires last % 8 == 0
    ensures SS.Truncate(last as real * STARTUP_GROWTH_TARGET) == last / 8 * 10
  {
    var k := last / 8;
    assert last as real * 1.25 == (k * 10) as real;
  }

  /** The search has used m checks and raised the bandwidth k times by a quarter or more. */
  ghost predicate Progress(g: Search, m: nat, k: nat, numStartupRtts: nat) {
    && !g.atFullBandwidth
    && g.bandwidthAtLastRound % 8 == 0
    && if g.bandwidthAtLastRound == 0 then m == 0
       else
         && m <= 1 + k * numStartupRtts + g.roundsWithoutGain
         && g.roundsWithoutGain < numStartupRtts
         && g.bandwidthAtLastRound * Power(4, k) >= 8 * Power(5, k)
  }

  /** A check that does not end the search uses one of finitely many rounds or raises the bar. */
  lemma CheckMakesProgress(g: Search, m: nat, k: nat, n: nat, bandwidth: nat, loss: bool) returns (k': nat)
    requires n > 0 && bandwidth > 0 && bandwidth % 8 == 0
    requires Progress(g, m, k, n) && !CheckGrowth(g, bandwidth, loss, n).atFullBandwidth
    ensures Progress(CheckGrowth(g, bandwidth, loss, n), m + 1, k', n)
  {
    var last := g.bandwidthAtLastRound;
    TargetIsExact(last);
    if last == 0 {
      k' := 0;
    } else if bandwidth >= last / 8 * 10 {
      k' := k + 1;
      RaiseIsFourFifths(last, bandwidth, Power(4, k), Power(5, k));
      assert (k + 1) * n == k * n + n;
    } else {
      k' := k;
    }
  }

  lemma RaiseIsFourFifths(last: nat, bandwidth: nat, p4: nat, p5: nat)
    requires last % 8 == 0 && bandwidth >= last / 8 * 10 && last * p4 >= 8 * p5
    ensures bandwidth * (4 * p4) >= 8 * (5 * p5)
  {
    assert 4 * bandwidth >= 5 * last;
    MulMonotone(5 * last, 4 * bandwidth, p4);
    assert (5 * last) * p4 == 5 * (last * p4) && (4 * bandwidth) * p4 == bandwidth * (4 * p4);
  }

  // ----- The bandwidth filter holds multiples of 8

  ghost predicate Octets(f: WF.Estimates) {
    f.best.sample % 8 == 0 && f.second.sample % 8 == 0 && f.third.sample % 8 == 0
  }

  lemma UpdateKeepsOctets(f: WF.Estimates, window: nat, x: WF.Estimate)
    requires Octets(f) && x.sample % 8 == 0
    ensures Octets(WF.Updated(f, window, x))
  {
    hide WF.Age;
  }

  lemma MeasuredKeepsOctets(s: Bbr, e: Event)
    requires Octets(s.maxBandwidth) && e.report.sampleMaxBandwidth % 8 == 0
    ensures Octets(Measured(s, e).maxBandwidth)
  {
    hide WF.Updated, Octets, Acknowledged, CountLosses, UpdateMinRtt;
    var s1 := Acknowledged(s, e);
    UpdateKeepsOctets(s1.maxBandwidth, BANDWIDTH_WINDOW, WF.Estimate(e.report.sampleMaxBandwidth, s1.roundTripCount));
  }

  /** Events keep the filter's estimates multiples of 8, as the sampler's reports are. */
  lemma EventKeepsOctets(s: Bbr, c: Config, e: Event)
    requires c.highGain != 0.0 && Octets(s.maxBandwidth) && e.report.sampleMaxBandwidth % 8 == 0
    ensures Octets(OnEvent(s, c, e).maxBandwidth)
  {
    hide Measured, Moded, Sized, Octets, IsRoundStart, MinRttExpired;
    MeasuredKeepsOctets(s, e);
  }

  // ----- Runs of events

  /** Whether an event makes the sender check for full bandwidth. */
  predicate Checks(s: Bbr, e: Event) {
    IsRoundStart(s, e) && !s.search.atFullBandwidth && !Measured(s, e).lastSampleIsAppLimited
  }

  /** The search moves only by checks, each on the bandwidth estimate of its event. */
  lemma SearchMovesByChecks(s: Bbr, c: Config, e: Event)
    requires c.Valid() && ModeInv(s, c)
    ensures OnEvent(s, c, e).search ==
      if Checks(s, e) then
        CheckGrowth(s.search, Bandwidth(Measured(s, e)), TooManyLosses(Measured(s, e), e.report), c.numStartupRtts)
      else s.search
  {
    hide Measured, IsRoundStart, MinRttExpired, Sized, UpdateCycle, ExitStartupOrDrain, EnterOrExitProbeRtt,
        TooManyLosses, CheckGrowth;
  }

  /** Whether an action is an event that checks. */
  predicate ActionChecks(s: Bbr, a: Action) { a.Acked? && Checks(s, a.event) }

  /** The checks made on a run. */
  function ChecksMade(states: seq<Bbr>, actions: seq<Action>): (cs: seq<Check>)
    requires |states| == |actions| + 1
  {
    var n := |actions|;
    if n == 0 then []
    else ChecksMade(states[..n], actions[..n - 1]) + CheckOf(states[n - 1], actions[n - 1])
  }

  function CheckOf(s: Bbr, a: Action): (cs: seq<Check>) {
    if ActionChecks(s, a)
    then [Check(Bandwidth(Measured(s, a.event)), TooManyLosses(Measured(s, a.event), a.event.report))] else []
  }

  lemma OtherActionsKeepSearch(s: Bbr, c: Config, a: Action)
    requires c.highGain != 0.0 && s.maxDatagramSize > 0 && !a.Acked?
    ensures Step(s, c, a).search == s.search && Step(s, c, a).maxBandwidth == s.maxBandwidth
  {
    hide Rescale, OnEvent;
  }

  lemma StartsEmpty(states: seq<Bbr>, c: Config, actions: seq<Action>)
    requires c.highGain != 0.0 && IsRun(states, c, actions)
    ensures states[0].search == Search(false, 0, 0) && Octets(states[0].maxBandwidth)
  {
  }

  lemma ShorterRun(states: seq<Bbr>, c: Config, actions: seq<Action>, n: nat)
    requires c.highGain != 0.0 && IsRun(states, c, actions) && n <= |actions|
    ensures IsRun(states[..n + 1], c, actions[..n])
  {
    hide Step, Allowed, Initial;
  }

  lemma InvKeepsModes(s: Bbr, c: Config)
    requires c.highGain != 0.0 && Inv(s, c)
    ensures ModeInv(s, c)
  {
  }

  /** One more action moves the search over the checks as it moves the sender's. */
  lemma OneMoreAction(s: Bbr, c: Config, a: Action, cs: seq<Check>)
    requires c.Valid() && Inv(s, c) && s.maxDatagramSize > 0 && s.search == Searched(cs, c.numStartupRtts)
    ensures Step(s, c, a).search == Searched(cs + CheckOf(s, a), c.numStartupRtts)
  {
    hide OnEvent, Resized, Measured, Checks, CheckGrowth, Inv, TooManyLosses;
    var checks := cs + CheckOf(s, a);
    if a.Acked? {
      InvKeepsModes(s, c);
      SearchMovesByChecks(s, c, a.event);
      if Checks(s, a.event) {
        assert checks[..|checks| - 1] == cs;
      } else {
        assert checks == cs;
      }
    } else {
      OtherActionsKeepSearch(s, c, a);
      assert checks == cs;
    }
  }

  /** The search of a run is the search over its checks. */
  lemma {:induction false} SearchOfRun(states: seq<Bbr>, c: Config, actions: seq<Action>)
    requires c.Valid() && IsRun(states, c, actions)
    ensures states[|actions|].search == Searched(ChecksMade(states, actions), c.numStartupRtts)
    decreases |actions|
  {
    hide Step, Searched, CheckOf, Inv, IsRun;
    RunLength(states, c, actions);
    var n := |actions|;
    if n == 0 {
      StartsEmpty(states, c, actions);
      SearchedNothing(c.numStartupRtts);
    } else {
      RunStep(states, c, actions, n - 1);
      ShorterRun(states, c, actions, n - 1);
      SearchOfRun(states[..n], c, actions[..n - 1]);
      OneMoreAction(states[n - 1], c, actions[n - 1], ChecksMade(states[..n], actions[..n - 1]));
    }
  }

  lemma SearchedNothing(n: nat)
    ensures Searched([], n) == Search(false, 0, 0)
  {
  }

  /** On any run, an action reaches full bandwidth exactly if it is a check that either is the
      last of n stalled ones in a row, measured against the bandwidth before them, or stalls
      with too many losses. */
  lemma FullBandwidthIff(states: seq<Bbr>, c: Config, actions: seq<Action>)
    requires c.Valid() && IsRun(states, c, actions) && actions != []
    requires !states[|actions| - 1].search.atFullBandwidth
    ensures var n, cs := c.numStartupRtts, ChecksMade(states, actions);
            states[|actions|].search.atFullBandwidth <==>
              && ActionChecks(states[|actions| - 1], actions[|actions| - 1])
              && (LastStall(cs, n, n) || (cs[|cs| - 1].tooManyLosses && LastStall(cs, n, 1)))
  {
    hide ActionChecks, Measured, TooManyLosses, Searched, LastStall, IsRun;
    RunLength(states, c, actions);
    var n := |actions| - 1;
    var before := ChecksMade(states[..n + 1], actions[..n]);
    ShorterRun(states, c, actions, n);
    SearchOfRun(states, c, actions);
    SearchOfRun(states[..n + 1], c, actions[..n]);
    var cs := ChecksMade(states, actions);
    assert cs == before + CheckOf(states[n], actions[n]) && states[..n + 1][n] == states[n];
    if ActionChecks(states[n], actions[n]) {
      assert cs[..|cs| - 1] == before;
      FullMeansStalled(cs, c.numStartupRtts);
    } else {
      assert cs == before;
    }
  }

  /** A run of a connection in which reports are multiples of 8, as the sampler guarantees,
      and every check sees an estimate between 1 and the bound. */
  ghost predicate StartupRun(states: seq<Bbr>, c: Config, actions: seq<Action>, bound: nat)
    requires c.highGain != 0.0
  {
    && |states| == |actions| + 1 && IsRun(states, c, actions)
    && (forall i :: 0 <= i < |actions| ==> OctetReport(actions[i]))
    && (forall i :: 0 <= i < |actions| && ActionChecks(states[i], actions[i]) ==>
          0 < Bandwidth(Measured(states[i], actions[i].event)) <= bound)
  }

  ghost predicate OctetReport(a: Action) { a.Acked? ==> a.event.report.sampleMaxBandwidth % 8 == 0 }

  lemma ShorterStartup(states: seq<Bbr>, c: Config, actions: seq<Action>, bound: nat, n: nat)
    requires c.highGain != 0.0 && StartupRun(states, c, actions, bound) && n <= |actions|
    ensures StartupRun(states[..n + 1], c, actions[..n], bound)
  {
    hide IsRun, Measured, ActionChecks;
    ShorterRun(states, c, actions, n);
  }

  lemma {:induction false} RunKeepsOctets(states: seq<Bbr>, c: Config, actions: seq<Action>, bound: nat, i: nat)
    requires c.Valid() && StartupRun(states, c, actions, bound) && i <= |actions|
    ensures Octets(states[i].maxBandwidth)
  {
    hide OnEvent, Resized, Measured, ActionChecks, Inv, Octets, IsRun;
    if i == 0 {
      StartsEmpty(states, c, actions);
    } else {
      var s, a := states[i - 1], actions[i - 1];
      RunKeepsOctets(states, c, actions, bound, i - 1);
      RunStep(states, c, actions, i - 1);
      assert OctetReport(a);
      if a.Acked? {
        EventKeepsOctets(s, c, a.event);
      } else {
        OtherActionsKeepSearch(s, c, a);
      }
    }
  }

  lemma {:induction false} RunMakesProgress(states: seq<Bbr>, c: Config, actions: seq<Action>, bound: nat)
      returns (k: nat)
    requires c.Valid() && StartupRun(states, c, actions, bound)
    requires !states[|actions|].search.atFullBandwidth
    ensures Progress(states[|actions|].search, |ChecksMade(states, actions)|, k, c.numStartupRtts)
    ensures states[|actions|].search.bandwidthAtLastRound <= bound
    decreases |actions|
  {
    hide OnEvent, Resized, Measured, Checks, CheckGrowth, Inv, TooManyLosses, Progress, Octets, IsRun;
    var n := |actions|;
    if n == 0 {
      k := 0;
      StartsEmpty(states, c, actions);
      NoProgress(states[0].search, c.numStartupRtts);
    } else {
      var s, a := states[n - 1], actions[n - 1];
      RunStep(states, c, actions, n - 1);
      ShorterStartup(states, c, actions, bound, n - 1);
      if a.Acked? {
        var bandwidth, loss := Bandwidth(Measured(s, a.event)), TooManyLosses(Measured(s, a.event), a.event.report);
        InvKeepsModes(s, c);
        SearchMovesByChecks(s, c, a.event);
        CheckKeepsFull(s.search, bandwidth, loss, c.numStartupRtts);
        k := RunMakesProgress(states[..n], c, actions[..n - 1], bound);
        if Checks(s, a.event) {
          RunKeepsOctets(states, c, actions, bound, n - 1);
          MeasuredKeepsOctets(s, a.event);
          BestIsOctets(Measured(s, a.event).maxBandwidth);
          k := CheckMakesProgress(s.search, |ChecksMade(states[..n], actions[..n - 1])|, k, c.numStartupRtts,
                                  bandwidth, loss);
        }
      } else {
        OtherActionsKeepSearch(s, c, a);
        k := RunMakesProgress(states[..n], c, actions[..n - 1], bound);
      }
    }
  }

  lemma NoProgress(g: Search, n: nat)
    requires g == Search(false, 0, 0)
    ensures Progress(g, 0, 0, n)
  {
  }

  lemma BestIsOctets(f: WF.Estimates)
    requires Octets(f)
    ensures f.best.sample % 8 == 0
  {
  }

  lemma CheckKeepsFull(g: Search, bandwidth: nat, loss: bool, n: nat)
    ensures g.atFullBandwidth ==> CheckGrowth(g, bandwidth, loss, n).atFullBandwidth
    ensures CheckGrowth(g, bandwidth, loss, n).bandwidthAtLastRound == g.bandwidthAtLastRound
         || CheckGrowth(g, bandwidth, loss, n).bandwidthAtLastRound == bandwidth
    ensures g.bandwidthAtLastRound % 8 == 0 ==>
              g.bandwidthAtLastRound <= CheckGrowth(g, bandwidth, loss, n).bandwidthAtLastRound
  {
    if g.bandwidthAtLastRound % 8 == 0 { TargetIsExact(g.bandwidthAtLastRound); }
  }

  /** A run that makes m checks without reaching full bandwidth has seen k raises
      by a quarter, where m <= (k + 1) * numStartupRtts and (5/4)^k <= bound / 8. */
  lemma StartupChecksAreBounded(states: seq<Bbr>, c: Config, actions: seq<Action>, bound: nat) returns (k: nat)
    requires c.Valid() && StartupRun(states, c, actions, bound)
    requires !states[|actions|].search.atFullBandwidth
    ensures |ChecksMade(states, actions)| <= (k + 1) * c.numStartupRtts
    ensures |ChecksMade(states, actions)| > 0 ==> 8 * Power(5, k) <= bound * Power(4, k)
  {
    hide ChecksMade;
    k := RunMakesProgress(states, c, actions, bound);
    var g := states[|actions|].search;
    MulMonotone(g.bandwidthAtLastRound, bound, Power(4, k));
    assert (k + 1) * c.numStartupRtts == k * c.numStartupRtts + c.numStartupRtts;
  }

  lemma {:induction false} QuarterRaisesGrow(k: nat)
    ensures 4 * Power(5, k) >= (4 + k) * Power(4, k)
  {
    if k > 0 {
      QuarterRaisesGrow(k - 1);
      var p4, p5 := Power(4, k - 1), Power(5, k - 1);
      assert 4 * (5 * p5) == 5 * (4 * p5);
      assert 5 * ((3 + k) * p4) >= (4 + k) * (4 * p4) by {
        assert 5 * ((3 + k) * p4) == (15 + 5 * k) * p4;
        assert (4 + k) * (4 * p4) == (16 + 4 * k) * p4;
        MulMonotone(16 + 4 * k, 15 + 5 * k, p4);
      }
    }
  }

  lemma FactorsCompare(k: nat, bound: nat, p4: nat, p5: nat)
    requires p4 > 0 && 4 * p5 >= (4 + k) * p4 && 8 * p5 <= bound * p4
    ensures 2 * (4 + k) <= bound
  {
    assert (2 * (4 + k)) * p4 == 2 * ((4 + k) * p4);
    assert (bound + 1) * p4 == bound * p4 + p4;
    if bound < 2 * (4 + k) { MulMonotone(bound + 1, 2 * (4 + k), p4); }
  }

  lemma RaisesAreBounded(k: nat, bound: nat)
    requires 8 * Power(5, k) <= bound * Power(4, k)
    ensures k <= bound / 2
  {
    hide Power;
    QuarterRaisesGrow(k);
    FactorsCompare(k, bound, Power(4, k), Power(5, k));
  }

  // ----- Rounds, whatever the flag

  /** An event that starts a round, with a latest sample not limited by the application. */
  predicate StartsFreshRound(s: Bbr, a: Action) {
    a.Acked? && IsRoundStart(s, a.event) && !Measured(s, a.event).lastSampleIsAppLimited
  }

  function FreshRounds(states: seq<Bbr>, actions: seq<Action>): (m: nat)
    requires |states| == |actions| + 1
  {
    var n := |actions|;
    if n == 0 then 0
    else FreshRounds(states[..n], actions[..n - 1]) + if StartsFreshRound(states[n - 1], actions[n - 1]) then 1 else 0
  }

  /** Full bandwidth once reached stays, on any action. */
  lemma FullStays(states: seq<Bbr>, c: Config, actions: seq<Action>, i: nat)
    requires c.Valid() && IsRun(states, c, actions) && i < |actions|
    ensures states[i].search.atFullBandwidth ==> states[i + 1].search.atFullBandwidth
  {
    hide OnEvent, Resized, Inv, IsRun, CheckGrowth, Measured, Checks, TooManyLosses;
    RunLength(states, c, actions);
    RunStep(states, c, actions, i);
    var s, a := states[i], actions[i];
    if a.Acked? {
      InvKeepsModes(s, c);
      SearchMovesByChecks(s, c, a.event);
      CheckKeepsFull(s.search, Bandwidth(Measured(s, a.event)), TooManyLosses(Measured(s, a.event), a.event.report),
                     c.numStartupRtts);
    } else {
      OtherActionsKeepSearch(s, c, a);
    }
  }

  /** As long as full bandwidth is not reached, every fresh round start checks. */
  lemma {:induction false} FreshRoundsCheck(states: seq<Bbr>, c: Config, actions: seq<Action>)
    requires c.Valid() && IsRun(states, c, actions) && !states[|actions|].search.atFullBandwidth
    ensures FreshRounds(states, actions) == |ChecksMade(states, actions)|
    decreases |actions|
  {
    hide Measured, Inv, IsRun, IsRoundStart;
    RunLength(states, c, actions);
    var n := |actions|;
    if n > 0 {
      FullStays(states, c, actions, n - 1);
      ShorterRun(states, c, actions, n - 1);
      FreshRoundsCheck(states[..n], c, actions[..n - 1]);
    }
  }

  /** In numbers: with estimates of at most `bound` bits per second, full bandwidth is reached
      on every run with more than (bound / 2 + 1) * numStartupRtts fresh round starts. */
  lemma StartupEnds(states: seq<Bbr>, c: Config, actions: seq<Action>, bound: nat)
    requires c.Valid() && StartupRun(states, c, actions, bound)
    requires FreshRounds(states, actions) > (bound / 2 + 1) * c.numStartupRtts
    ensures states[|actions|].search.atFullBandwidth
  {
    hide FreshRounds, ChecksMade, Power, OnEvent, Resized, Measured, ActionChecks, ModeInv, IsRun;
    if !states[|actions|].search.atFullBandwidth {
      FreshRoundsCheck(states, c, actions);
      var k := StartupChecksAreBounded(states, c, actions, bound);
      MulMonotone(0, bound / 2 + 1, c.numStartupRtts);
      RaisesAreBounded(k, bound);
      MulMonotone(k + 1, bound / 2 + 1, c.numStartupRtts);
    }
  }

  /** An event that starts a fresh round and reports eight bits per second. */
  function FreshEvent(s: Bbr): Event {
    Event(0, 0, [AckedPacket(s.currentRoundTripEnd + 1, 1)], [],
          Report(8, false, SS.INF_RTT, Some(SS.NO_STATE), 0, 1, 0, 1, 0), 1, 0)
  }

  lemma FreshEventMeasures(s: Bbr, c: Config)
    requires c.highGain != 0.0 && Bandwidth(s) <= 8
    ensures var e := FreshEvent(s);
            && StartsFreshRound(s, Acked(e)) && e.Valid()
            && Bandwidth(Measured(s, e)) == 8 && Bandwidth(OnEvent(s, c, e)) == 8
  {
    hide UpdateRecovery, CountRound, Moded, Sized, MinRttExpired;
  }

  /** There are such runs with any number of rounds. */
  lemma {:induction false} RoundsGoOn(c: Config, m: nat) returns (states: seq<Bbr>, actions: seq<Action>)
    requires c.Valid()
    ensures StartupRun(states, c, actions, 8) && FreshRounds(states, actions) == m == |actions|
    ensures Bandwidth(states[m]) <= 8
  {
    hide OnEvent, Resized, Measured, IsRoundStart, IsRun;
    if m == 0 {
      states, actions := [Initial(c, 1)], [];
      NewRun(c, 1);
    } else {
      var before, acts := RoundsGoOn(c, m - 1);
      var s := before[m - 1];
      var a := Acked(FreshEvent(s));
      FreshEventMeasures(s, c);
      LongerRun(before, c, acts, a);
      states, actions := before + [Step(s, c, a)], acts + [a];
      assert states[..m] == before && actions[..m - 1] == acts;
    }
  }

  // ----- Pacing before full bandwidth

  /** Before full bandwidth the pacing rate goes down at most once: in the event that stops
      watching for overshooting. */
  lemma PacingRateRises(s: Bbr, c: Config, e: Event)
    requires c.highGain != 0.0 && !OnEvent(s, c, e).search.atFullBandwidth && s.pacingRate > 0
    ensures || OnEvent(s, c, e).pacingRate >= s.pacingRate
            || (s.detectOvershooting && !OnEvent(s, c, e).detectOvershooting)
    ensures !s.detectOvershooting ==> !OnEvent(s, c, e).detectOvershooting
  {
    hide Measured, Moded, UpdateWindow, UpdateRecoveryWindow, IsRoundStart, MinRttExpired, SS.BandwidthFromDelta,
        SS.Truncate;
  }
}
