/** What the bandwidth estimate is over whole runs: the windowed maximum of the samples taken,
    and each of those a slope the sampler has measured (internal/congestion/bbr/bbr_sender.go). */
module EstimateLaws {
  import opened PacketQueue
  import SS = SamplerState
  import WF = WindowedFilter
  import opened BbrState
  import opened BbrProofs
  import opened BbrRuns
  import BbrGrowth
  import opened BbrWhole
  import opened SamplerHistory
  import opened SampleLaws
  import opened ModeLaws

  /** The sample an event gives the filter, with its round: none if nothing was acked, or if it was
      limited by the application and is no larger than the estimate. */
  function Taken(s: Bbr, e: Event): (xs: seq<WF.Estimate>)
    ensures |xs| <= 1
  {
    var rep := e.report;
    if rep.bytesAcked > 0 && (!rep.sampleIsAppLimited || rep.sampleMaxBandwidth > s.maxBandwidth.best.sample) then
      [WF.Estimate(rep.sampleMaxBandwidth, s.roundTripCount + if PassesEnd(s, e) then 1 else 0)]
    else []
  }

  /** The estimates and flags after an event. */
  lemma EventEstimate(s: Bbr, c: Config, e: Event)
    requires c.highGain != 0.0
    ensures var z, xs, last := OnEvent(s, c, e), Taken(s, e), e.report.lastPacketSendState;
            && z.maxBandwidth == (if xs == [] then s.maxBandwidth else WF.Updated(s.maxBandwidth, 10, xs[0]))
            && z.roundTripCount == s.roundTripCount + (if PassesEnd(s, e) then 1 else 0)
            && z.lastSampleIsAppLimited == (if last.Some? then last.value.isAppLimited else s.lastSampleIsAppLimited)
            && z.hasNoAppLimitedSample == (s.hasNoAppLimitedSample || (last.Some? && !last.value.isAppLimited))
  {
    hide Measured, Moded, Sized, WF.Updated, MinRttExpired;
    MeasuredIs(s, e);
    MeasuredEstimate(s, e);
    RoundsStay(Measured(s, e), c, e, IsRoundStart(s, e), MinRttExpired(s, e.now, e.report));
  }

  lemma MeasuredEstimate(s: Bbr, e: Event)
    ensures var m, xs, last := Measured(s, e), Taken(s, e), e.report.lastPacketSendState;
            && m.maxBandwidth == (if xs == [] then s.maxBandwidth else WF.Updated(s.maxBandwidth, 10, xs[0]))
            && m.lastSampleIsAppLimited == (if last.Some? then last.value.isAppLimited else s.lastSampleIsAppLimited)
            && m.hasNoAppLimitedSample == (s.hasNoAppLimitedSample || (last.Some? && !last.value.isAppLimited))
  {
    hide SumAcked, SumLost, UpdateRecovery, WF.Updated;
  }

  lemma RoundsStay(m: Bbr, c: Config, e: Event, rs: bool, old_: bool)
    requires c.highGain != 0.0
    ensures Sized(Moded(m, c, e, rs, old_), c, e, rs).roundTripCount == m.roundTripCount
  {
    hide Moded, Sized;
  }

  // ----- Runs

  /** The samples that the actions of a run give the filter. */
  function AllTaken(states: seq<Bbr>, actions: seq<Action>): (xs: seq<WF.Estimate>)
    requires |states| == |actions| + 1
  {
    var n := |actions| - 1;
    if n < 0 then [] else AllTaken(states[..n + 1], actions[..n]) + TakenBy(states[n], actions[n])
  }

  function TakenBy(s: Bbr, a: Action): (xs: seq<WF.Estimate>)
    ensures |xs| <= 1
  {
    if a.Acked? then Taken(s, a.event) else []
  }

  lemma StepEstimate(s: Bbr, c: Config, a: Action, xs: seq<WF.Estimate>)
    requires c.highGain != 0.0 && s.maxDatagramSize > 0 && s.maxBandwidth == WF.Run(xs, 10)
    ensures var z := Step(s, c, a);
            z.maxBandwidth == WF.Run(xs + TakenBy(s, a), 10) && z.roundTripCount >= s.roundTripCount
    ensures forall x :: x in TakenBy(s, a) ==> s.roundTripCount <= x.time <= Step(s, c, a).roundTripCount
  {
    hide OnEvent, Rescale, WF.Updated;
    if a.Acked? { EventEstimate(s, c, a.event); }
    if TakenBy(s, a) != [] {
      assert TakenBy(s, a) == [TakenBy(s, a)[0]];
      WF.RunOneMore(xs, 10, TakenBy(s, a)[0]);
    } else {
      assert xs + [] == xs;
    }
  }

  /** On every run the estimates are those of the filter over the samples taken, in their order. */
  lemma {:induction false} EstimateOfRun(states: seq<Bbr>, c: Config, actions: seq<Action>)
    requires c.Valid() && IsRun(states, c, actions)
    ensures var n, xs := |actions|, AllTaken(states, actions);
            && states[n].maxBandwidth == WF.Run(xs, 10)
            && WF.TimesNeverDecrease(xs) && forall x :: x in xs ==> x.time <= states[n].roundTripCount
    decreases |actions|
  {
    hide Step, Inv, IsRun, TakenBy, WF.Run;
    RunLength(states, c, actions);
    var n := |actions| - 1;
    if n < 0 {
      NothingTaken(states, c, actions);
    } else {
      BbrGrowth.ShorterRun(states, c, actions, n);
      EstimateOfRun(states[..n + 1], c, actions[..n]);
      RunStep(states, c, actions, n);
      StepEstimate(states[n], c, actions[n], AllTaken(states[..n + 1], actions[..n]));
      assert states[..n + 1][n] == states[n];
    }
  }

  lemma NothingTaken(states: seq<Bbr>, c: Config, actions: seq<Action>)
    requires c.highGain != 0.0 && IsRun(states, c, actions) && actions == []
    ensures states[0].maxBandwidth == WF.Run([], 10)
  {
  }

  /** Which action gave the filter sample k. */
  lemma {:induction false} TakenFrom(states: seq<Bbr>, actions: seq<Action>, k: nat) returns (j: nat)
    requires |states| == |actions| + 1 && k < |AllTaken(states, actions)|
    ensures j < |actions| && TakenBy(states[j], actions[j]) == [AllTaken(states, actions)[k]]
    ensures forall i :: j < i < |actions| && TakenBy(states[i], actions[i]) != [] ==>
              exists l :: k < l < |AllTaken(states, actions)| &&
                  TakenBy(states[i], actions[i]) == [AllTaken(states, actions)[l]]
    decreases |actions|
  {
    hide TakenBy;
    var n := |actions| - 1;
    var before, xs := AllTaken(states[..n + 1], actions[..n]), AllTaken(states, actions);
    assert forall i :: 0 <= i <= n ==> states[..n + 1][i] == states[i];
    if k < |before| {
      j := TakenFrom(states[..n + 1], actions[..n], k);
      forall i | j < i < |actions| && TakenBy(states[i], actions[i]) != []
        ensures exists l :: k < l < |xs| && TakenBy(states[i], actions[i]) == [xs[l]]
      {
        if i < n {
          var l :| k < l < |before| && TakenBy(states[..n + 1][i], actions[..n][i]) == [before[l]];
          assert xs[l] == before[l];
        } else {
          assert TakenBy(states[n], actions[n]) == [xs[|before|]];
        }
      }
    } else {
      j := n;
      assert TakenBy(states[n], actions[n]) == [xs[|before|]];
    }
  }

  /** The estimate of a reachable state, unless it is zero, is the bandwidth reported for event j,
      at most ten rounds before the last sample taken, and no later sample was larger. */
  lemma EstimateIsSample(states: seq<Bbr>, c: Config, actions: seq<Action>) returns (j: nat)
    requires c.Valid() && IsRun(states, c, actions) && states[|actions|].maxBandwidth.best.sample > 0
    ensures var x := states[|actions|].maxBandwidth.best;
            && j < |actions| && actions[j].Acked? && TakenBy(states[j], actions[j]) == [x]
            && x.sample == actions[j].event.report.sampleMaxBandwidth
            && forall i :: j < i < |actions| && TakenBy(states[i], actions[i]) != [] ==>
                 && TakenBy(states[i], actions[i])[0].sample <= x.sample
                 && TakenBy(states[i], actions[i])[0].time - x.time <= 10
  {
    hide IsRun, WF.Run, Taken;
    RunLength(states, c, actions);
    var xs := AllTaken(states, actions);
    EstimateOfRun(states, c, actions);
    if xs == [] { EmptyFilter(); }
    var k, _, _ := WF.RunTracks(xs, 10);
    var x := xs[k];
    assert x == states[|actions|].maxBandwidth.best;
    j := TakenFrom(states, actions, k);
    TakenIs(states[j], actions[j], x);
    forall i | j < i < |actions| && TakenBy(states[i], actions[i]) != []
      ensures TakenBy(states[i], actions[i])[0].sample <= x.sample
      ensures TakenBy(states[i], actions[i])[0].time - x.time <= 10
    {
      var l :| k < l < |xs| && TakenBy(states[i], actions[i]) == [xs[l]];
      WF.LeadsFrom(x, xs, k, l);
    }
  }

  lemma EmptyFilter()
    ensures WF.Run([], 10).best.sample == 0
  {
  }

  lemma TakenIs(s: Bbr, a: Action, x: WF.Estimate)
    requires TakenBy(s, a) == [x]
    ensures a.Acked? && x.sample == a.event.report.sampleMaxBandwidth
  {
  }

  // ----- The whole sender

  /** A sampler that reports a bandwidth of an event has measured it as the slope of packet i. */
  ghost predicate IsMeasured(s: SS.State, now: nat, acked: seq<AckedPacket>, bandwidth: nat, i: nat) {
    exists r: SS.State, a: SS.AckPoint, x: SS.Sample ::
      IsMeasuredAs(s, now, Numbers(acked), bandwidth, i, r, a, x)
  }

  /** Sample x of packet i, measured from point a, has the bandwidth; r is the sampler with the
      candidates that are left by then. */
  ghost predicate IsMeasuredAs(s: SS.State, now: nat, acked: seq<int>, bandwidth: nat, i: nat, r: SS.State,
                               a: SS.AckPoint, x: SS.Sample)
  {
    var m := s.packets.AsMap();
    && i < |acked| && acked[i] in m && x.bandwidth == bandwidth
    && r.overestimateAvoidance == s.overestimateAvoidance
    && (exists d :: 0 <= d <= |s.candidates| && r.candidates == s.candidates[d..])
    && IsFrom(r, m[acked[i]], a)
    && IsSample(r, m[acked[i]], a, s.totalBytesAcked + KnownBytes(m, acked[..i + 1]), now, x)
  }

  lemma ReportIsMeasured(s: SS.State, b: Bbr, a: Call) returns (i: nat)
    requires a.Congestion? && SamplerOk(s, a.now) && EventOf(s, b, a).report.sampleMaxBandwidth > 0
    ensures IsMeasured(s, a.now, a.acked, EventOf(s, b, a).report.sampleMaxBandwidth, i)
  {
    hide SS.CongestionEvent, SS.PacketsOk, SS.PointsOk, Queue.AsMap, IsFrom, IsSample, SentBy, Target;
    var s1 := MaybeAppLimited(s, b, a.priorInFlight, a.statsMinRtt);
    var j, r, p, x := EventBandwidthIsSlope(s1, a.now, Numbers(a.acked), a.lost, Bandwidth(b), SS.INF_BANDWIDTH, false,
                                            RoundOf(b, a.acked));
    assert IsMeasuredAs(s, a.now, Numbers(a.acked), EventOf(s, b, a).report.sampleMaxBandwidth, j, r, p, x);
    i := j;
  }

  /** The estimate of a whole sender, in every reachable state, is zero or a slope measured in an
      earlier event of the run. */
  lemma EstimateIsMeasured(ws: seq<Whole>, c: Config, calls: seq<Call>) returns (j: nat, i: nat)
    requires c.Valid() && IsWholeRun(ws, c, calls)
    requires |ws| == |calls| + 1 && ws[|calls|].b.maxBandwidth.best.sample > 0
    ensures j < |calls| && calls[j].Congestion?
    ensures IsMeasured(ws[j].sampler, calls[j].now, calls[j].acked, ws[|calls|].b.maxBandwidth.best.sample, i)
  {
    hide IsRun, IsWholeRun, TakenBy, IsMeasured, SamplerOk, WholeInv;
    WholeRunIsRun(ws, c, calls);
    j := EstimateIsSample(Machine(ws), c, Actions(ws, c, calls));
    WholeRunIsOk(ws, c, calls);
    CallOf(ws, c, calls, j);
    i := ReportIsMeasured(ws[j].sampler, ws[j].b, calls[j]);
  }

  lemma CallOf(ws: seq<Whole>, c: Config, calls: seq<Call>, j: nat)
    requires c.Valid() && IsWholeRun(ws, c, calls) && j < |calls| && Actions(ws, c, calls)[j].Acked?
    ensures Permitted(ws[j], calls[j]) && calls[j].Congestion? && SamplerOk(ws[j].sampler, calls[j].now)
    ensures Actions(ws, c, calls)[j] == Acked(EventOf(ws[j].sampler, ws[j].b, calls[j]))
  {
    hide WholeInv, SamplerOk, EventOf;
    WholeRunIsOk(ws, c, calls);
    SamplerLater(ws[j].sampler, ws[j].clock, calls[j].now);
  }
}
