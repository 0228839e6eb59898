/** What the rounds, the recovery, the minimum RTT, PROBE_RTT and the rates of the BBR sender
    amount to over whole runs. */
module BbrRuns {
  import opened Arithmetic
  import SS = SamplerState
  import opened BbrState
  import opened BbrProofs

  /** Packets are sent with numbers that never decrease. */
  ghost predicate SendsInOrder(states: seq<Bbr>, actions: seq<Action>)
    requires |states| == |actions| + 1
  {
    forall i :: 0 <= i < |actions| && actions[i].Sent? ==> states[i].lastSentPacket <= actions[i].packetNumber
  }

  lemma RunLength(states: seq<Bbr>, c: Config, actions: seq<Action>)
    requires c.highGain != 0.0 && IsRun(states, c, actions)
    ensures |states| == |actions| + 1
  {
  }

  /** A step of a run, with the invariant before it. */
  lemma RunStep(states: seq<Bbr>, c: Config, actions: seq<Action>, i: nat)
    requires c.Valid() && IsRun(states, c, actions) && i < |actions|
    ensures Inv(states[i], c) && Allowed(states[i], actions[i])
    ensures states[i].maxDatagramSize > 0 && states[i + 1] == Step(states[i], c, actions[i])
  {
    hide Step, ModeInv, GetCongestionWindow, CanSend;
    WindowAlwaysInBounds(states, c, actions, i);
  }

  lemma NewRun(c: Config, size: int)
    requires c.Valid() && size > 0
    ensures IsRun([Initial(c, size)], c, [])
  {
  }

  /** A run goes on with any action allowed in its last state. */
  lemma LongerRun(states: seq<Bbr>, c: Config, actions: seq<Action>, a: Action)
    requires c.Valid() && IsRun(states, c, actions) && Allowed(states[|actions|], a)
    ensures states[|actions|].maxDatagramSize > 0
    ensures IsRun(states + [Step(states[|actions|], c, a)], c, actions + [a])
  {
    hide Step, Inv, Initial, Allowed, GetCongestionWindow, CanSend;
    WindowAlwaysInBounds(states, c, actions, |actions|);
    InvIsSized(states[|actions|], c);
  }

  lemma InvIsSized(s: Bbr, c: Config)
    requires c.Valid() && Inv(s, c)
    ensures s.maxDatagramSize > 0
  {
  }

  // ----- Round trips

  /** An event leaves the round's end where it was or moves it to the last packet sent, and
      moves it there when a round starts. */
  lemma EventRound(s: Bbr, c: Config, e: Event)
    requires c.Valid()
    ensures var z := OnEvent(s, c, e);
            && z.lastSentPacket == s.lastSentPacket
            && (z.currentRoundTripEnd == s.currentRoundTripEnd || z.currentRoundTripEnd == s.lastSentPacket)
            && (IsRoundStart(s, e) ==> z.currentRoundTripEnd == s.lastSentPacket)
  {
    hide TakeReport, UpdateMinRtt, CountLosses, Moded, Sized, MinRttExpired, SumAcked, SumLost;
    AcknowledgedRound(s, e);
  }

  lemma AcknowledgedRound(s: Bbr, e: Event)
    ensures var a := Acknowledged(s, e);
            && (a.currentRoundTripEnd == s.currentRoundTripEnd || a.currentRoundTripEnd == s.lastSentPacket)
            && (IsRoundStart(s, e) ==> a.currentRoundTripEnd == s.lastSentPacket)
  {
    hide SumAcked, SumLost, CountRound, UpdateRecovery;
  }

  lemma OtherActionsKeepRound(s: Bbr, c: Config, a: Action)
    requires c.highGain != 0.0 && s.maxDatagramSize > 0 && !a.Acked?
    ensures var z := Step(s, c, a);
            && z.currentRoundTripEnd == s.currentRoundTripEnd && z.endRecoveryAt == s.endRecoveryAt
            && z.recoveryState == s.recoveryState && z.search == s.search && z.mode == s.mode && z.minRtt == s.minRtt
            && z.exitProbeRttAt == s.exitProbeRttAt && z.probeRttRoundPassed == s.probeRttRoundPassed
            && z.lastSentPacket == if a.Sent? then a.packetNumber else s.lastSentPacket
  {
    hide Rescale, OnEvent;
  }

  /** From state i on the round's end lies between the last packet then sent and now sent. */
  lemma {:induction false} RoundEndAdvances(states: seq<Bbr>, c: Config, actions: seq<Action>, i: nat, j: nat)
    requires c.Valid() && IsRun(states, c, actions) && SendsInOrder(states, actions) && i <= j < |states|
    ensures states[i].currentRoundTripEnd <= states[j].currentRoundTripEnd <= states[j].lastSentPacket
    ensures states[i].lastSentPacket <= states[j].lastSentPacket
    decreases j
  {
    hide Step, Inv;
    if j > i {
      RoundEndAdvances(states, c, actions, i, j - 1);
      RoundEndStep(states, c, actions, j - 1);
    } else if j > 0 {
      RoundEndAdvances(states, c, actions, j - 1, j - 1);
      RoundEndStep(states, c, actions, j - 1);
    }
  }

  lemma RoundEndStep(states: seq<Bbr>, c: Config, actions: seq<Action>, i: nat)
    requires c.Valid() && IsRun(states, c, actions) && SendsInOrder(states, actions) && i < |actions|
    requires states[i].currentRoundTripEnd <= states[i].lastSentPacket
    ensures states[i].currentRoundTripEnd <= states[i + 1].currentRoundTripEnd <= states[i + 1].lastSentPacket
    ensures states[i].lastSentPacket <= states[i + 1].lastSentPacket
  {
    hide OnEvent, Resized, Inv, OnPacketSent;
    RunStep(states, c, actions, i);
    if actions[i].Acked? {
      EventRound(states[i], c, actions[i].event);
    } else {
      OtherActionsKeepRound(states[i], c, actions[i]);
    }
  }

  predicate StartsRound(s: Bbr, a: Action) { a.Acked? && IsRoundStart(s, a.event) }

  /** Rounds are round trips: between two round starts a packet is acknowledged that was
      sent after the first of them. */
  lemma RoundsAreRoundTrips(states: seq<Bbr>, c: Config, actions: seq<Action>, i: nat, j: nat)
    requires c.Valid() && IsRun(states, c, actions) && SendsInOrder(states, actions) && i < j < |actions|
    requires StartsRound(states[i], actions[i]) && StartsRound(states[j], actions[j])
    requires var acked := actions[j].event.acked; acked[|acked| - 1].number >= 0
    ensures var acked := actions[j].event.acked; acked[|acked| - 1].number > states[i].lastSentPacket
  {
    hide OnEvent, Resized, Inv;
    RunStep(states, c, actions, i);
    EventRound(states[i], c, actions[i].event);
    RoundEndAdvances(states, c, actions, i + 1, j);
  }

  // ----- Recovery

  lemma EventRecovery(s: Bbr, c: Config, e: Event)
    requires c.Valid()
    ensures var z, a := OnEvent(s, c, e), Acknowledged(s, e);
            z.recoveryState == a.recoveryState && z.endRecoveryAt == a.endRecoveryAt
            && (s.search.atFullBandwidth ==> z.search.atFullBandwidth)
  {
    hide Acknowledged, TakeReport, UpdateMinRtt, CountLosses, Moded, Sized, IsRoundStart, MinRttExpired;
    hide UpdatePacingRate, UpdateWindow, UpdateRecoveryWindow;
  }

  /** At full bandwidth an event with losses and acknowledgements puts the sender in recovery
      until packets sent after it are acked. */
  lemma LossStartsRecovery(s: Bbr, c: Config, e: Event)
    requires c.Valid() && s.search.atFullBandwidth && e.acked != [] && e.lost != []
    ensures var z := OnEvent(s, c, e);
            z.search.atFullBandwidth && z.recoveryState != NotInRecovery && z.endRecoveryAt == s.lastSentPacket
  {
    hide OnEvent, SumAcked, SumLost, CountRound, UpdateRecovery;
    EventRecovery(s, c, e);
  }

  /** An event with losses alone neither starts recovery nor extends it. */
  lemma LossAloneIsIgnored(s: Bbr, c: Config, e: Event)
    requires c.Valid() && e.acked == []
    ensures var z := OnEvent(s, c, e); z.recoveryState == s.recoveryState && z.endRecoveryAt == s.endRecoveryAt
  {
    hide OnEvent, SumAcked, SumLost;
    EventRecovery(s, c, e);
  }

  /** The number of the last packet an action acknowledges. */
  predicate Acks(a: Action, above: int) {
    a.Acked? && a.event.acked != [] && a.event.acked[|a.event.acked| - 1].number > above
  }

  lemma CalmEvent(s: Bbr, c: Config, e: Event)
    requires c.Valid() && s.search.atFullBandwidth && (e.lost == [] || e.acked == [])
    ensures var z := OnEvent(s, c, e);
            && z.search.atFullBandwidth && z.endRecoveryAt == s.endRecoveryAt
            && (z.recoveryState == NotInRecovery <==>
                  s.recoveryState == NotInRecovery || Acks(Action.Acked(e), s.endRecoveryAt))
  {
    hide OnEvent, SumAcked, SumLost, CountRound, UpdateRecovery;
    EventRecovery(s, c, e);
  }

  /** An event with losses and acknowledgements. */
  predicate LosesAndAcks(a: Action) { a.Acked? && a.event.acked != [] && a.event.lost != [] }

  /** At full bandwidth, after event i with losses and acknowledgements and as long as no
      further one comes, recovery is over exactly if since then an event has acknowledged a
      packet sent after the loss was noticed. */
  lemma {:induction false} RecoveryEndsIff(states: seq<Bbr>, c: Config, actions: seq<Action>, i: nat, n: nat)
    requires c.Valid() && IsRun(states, c, actions) && i < n < |states|
    requires states[i].search.atFullBandwidth && LosesAndAcks(actions[i])
    requires forall j :: i < j < n ==> !LosesAndAcks(actions[j])
    ensures states[n].search.atFullBandwidth && states[n].endRecoveryAt == states[i].lastSentPacket
    ensures states[n].recoveryState == NotInRecovery <==>
              exists j :: i < j < n && Acks(actions[j], states[i].lastSentPacket)
    decreases n
  {
    hide OnEvent, Resized, Inv, Acks;
    RunStep(states, c, actions, n - 1);
    if n == i + 1 {
      LossStartsRecovery(states[i], c, actions[i].event);
    } else {
      RecoveryEndsIff(states, c, actions, i, n - 1);
      var s, a := states[n - 1], actions[n - 1];
      assert !LosesAndAcks(a);
      if a.Acked? {
        CalmEvent(s, c, a.event);
      } else {
        OtherActionsKeepRound(s, c, a);
        AcksNothing(a, states[i].lastSentPacket);
      }
    }
  }

  lemma AcksNothing(a: Action, above: int)
    requires !a.Acked?
    ensures !Acks(a, above)
  {
  }

  // ----- The minimum RTT

  /** An event with an RTT sample takes the smaller one, or the sample when there was none
      or the old one had expired. */
  lemma EventMinRtt(s: Bbr, c: Config, e: Event)
    requires c.Valid()
    ensures OnEvent(s, c, e).minRtt ==
              if e.report.sampleRtt == SS.INF_RTT then s.minRtt
              else if s.minRtt == 0 || MinRttExpired(s, e.now, e.report) then e.report.sampleRtt
              else Min(s.minRtt, e.report.sampleRtt)
  {
    hide Acknowledged, TakeReport, CountLosses, Moded, Sized, IsRoundStart;
  }

  predicate Samples(s: Bbr, a: Action) { a.Acked? && a.event.report.sampleRtt != SS.INF_RTT }

  predicate Expires(s: Bbr, a: Action) { a.Acked? && MinRttExpired(s, a.event.now, a.event.report) }

  /** As long as it does not expire, the minimum RTT is the smallest of its old value and
      the samples since. */
  lemma {:induction false} MinRttIsMinimum(states: seq<Bbr>, c: Config, actions: seq<Action>, i: nat, n: nat)
    requires c.Valid() && IsRun(states, c, actions) && i <= n < |states|
    requires states[i].minRtt > 0
    requires forall j :: i <= j < n ==> !Expires(states[j], actions[j])
    requires forall j :: i <= j < n && Samples(states[j], actions[j]) ==> actions[j].event.report.sampleRtt > 0
    ensures 0 < states[n].minRtt <= states[i].minRtt
    ensures forall j :: i <= j < n && Samples(states[j], actions[j]) ==>
              states[n].minRtt <= actions[j].event.report.sampleRtt
    ensures states[n].minRtt == states[i].minRtt
         || exists j :: i <= j < n && Samples(states[j], actions[j])
                        && states[n].minRtt == actions[j].event.report.sampleRtt
    decreases n
  {
    hide OnEvent, Resized, Inv, MinRttExpired, OnPacketSent;
    if n > i {
      MinRttIsMinimum(states, c, actions, i, n - 1);
      var s, a := states[n - 1], actions[n - 1];
      RunStep(states, c, actions, n - 1);
      assert !Expires(s, a);
      if a.Acked? {
        EventMinRtt(s, c, a.event);
      } else {
        OtherActionsKeepRound(s, c, a);
      }
      assert Samples(s, a) ==> s.minRtt > 0;
    }
  }

  // ----- The length of PROBE_RTT

  /** What an event in PROBE_RTT does to the exit: it sets the exit time, waits, or leaves. */
  ghost predicate ProbeStep(s: Bbr, z: Bbr, c: Config, e: Event, isRoundStart: bool) {
    if s.exitProbeRttAt == 0 then z.mode == ProbeRtt && (z.exitProbeRttAt == 0 || SetsExit(z, c, e))
    else if e.now >= s.exitProbeRttAt && (s.probeRttRoundPassed || isRoundStart) then z.mode != ProbeRtt
    else
      && z.mode == ProbeRtt && z.exitProbeRttAt == s.exitProbeRttAt
      && z.probeRttRoundPassed == (s.probeRttRoundPassed || isRoundStart)
  }

  lemma InProbeRttSteps(s: Bbr, c: Config, e: Event, isRoundStart: bool, expired: bool)
    requires s.mode == ProbeRtt
    ensures ProbeStep(s, EnterOrExitProbeRtt(s, c, e, isRoundStart, expired), c, e, isRoundStart)
  {
    hide StartOffset;
  }

  lemma NothingToExit(s: Bbr, c: Config, e: Event)
    requires c.highGain != 0.0 && s.mode == ProbeRtt
    ensures ExitStartupOrDrain(s, c, e) == s
  {
    hide Target;
  }

  lemma ModedInProbeRtt(s: Bbr, c: Config, e: Event, isRoundStart: bool, expired: bool)
    requires c.highGain != 0.0 && s.mode == ProbeRtt
    ensures ProbeStep(s, Moded(s, c, e, isRoundStart, expired), c, e, isRoundStart)
  {
    hide CheckFullBandwidth, EnterOrExitProbeRtt, ExitStartupOrDrain, SetsExit;
    var s2 := if isRoundStart && !s.search.atFullBandwidth then CheckFullBandwidth(s, c, e.report) else s;
    NothingToExit(s2, c, e);
    InProbeRttSteps(s2, c, e, isRoundStart, expired);
  }

  /** An event in PROBE_RTT. */
  lemma EventInProbeRtt(s: Bbr, c: Config, e: Event)
    requires c.Valid() && s.mode == ProbeRtt
    ensures ProbeStep(s, OnEvent(s, c, e), c, e, IsRoundStart(s, e))
  {
    hide Measured, Moded, Sized, MinRttExpired, IsRoundStart;
    ModedInProbeRtt(Measured(s, e), c, e, IsRoundStart(s, e), MinRttExpired(s, e.now, e.report));
  }

  /** The event found few bytes in flight, and PROBE_RTT can end 200 ms later. */
  predicate SetsExit(z: Bbr, c: Config, e: Event) {
    && z.exitProbeRttAt == e.now + PROBE_RTT_TIME && !z.probeRttRoundPassed
    && z.bytesInFlight < z.minCongestionWindow + c.maxPacketBufferSize
  }

  /** An event that enters PROBE_RTT. */
  lemma EventEntersProbeRtt(s: Bbr, c: Config, e: Event)
    requires c.Valid() && s.mode != ProbeRtt && OnEvent(s, c, e).mode == ProbeRtt
    ensures var z := OnEvent(s, c, e); z.exitProbeRttAt == 0 || SetsExit(z, c, e)
  {
    hide Measured, Sized, CheckFullBandwidth, MinRttExpired, IsRoundStart, UpdateCycle, Target;
  }

  /** Since the entry (event i) either the exit time is not set, or event k has set it and a
      round is counted as passed only if one has started since. */
  lemma {:induction false} ProbeRttSoFar(states: seq<Bbr>, c: Config, actions: seq<Action>, i: nat, n: nat)
      returns (k: nat)
    requires c.Valid() && IsRun(states, c, actions) && i < n < |states|
    requires states[i].mode != ProbeRtt && forall j :: i < j <= n ==> states[j].mode == ProbeRtt
    ensures states[n].exitProbeRttAt != 0 ==>
              && i <= k < n && actions[k].Acked? && SetsExit(states[k + 1], c, actions[k].event)
              && states[n].exitProbeRttAt == actions[k].event.now + PROBE_RTT_TIME
              && (states[n].probeRttRoundPassed ==> exists r :: k < r < n && StartsRound(states[r], actions[r]))
    decreases n
  {
    hide OnEvent, Resized, Inv, SetsExit, OnPacketSent, StartsRound;
    var s, a := states[n - 1], actions[n - 1];
    RunStep(states, c, actions, n - 1);
    k := n - 1;
    if n == i + 1 {
      if a.Acked? {
        EventEntersProbeRtt(s, c, a.event);
        SetExitIsFresh(states[n], c, a.event);
      } else {
        OtherActionsKeepRound(s, c, a);
        assert false;
      }
    } else {
      var k0 := ProbeRttSoFar(states, c, actions, i, n - 1);
      if a.Acked? {
        EventInProbeRtt(s, c, a.event);
        StartsRoundIs(s, a);
        if s.exitProbeRttAt == 0 {
          SetExitIsFresh(states[n], c, a.event);
        } else {
          k := k0;
        }
      } else {
        OtherActionsKeepRound(s, c, a);
        k := k0;
      }
    }
  }

  lemma StartsRoundIs(s: Bbr, a: Action)
    requires a.Acked?
    ensures StartsRound(s, a) == IsRoundStart(s, a.event)
  {
  }

  lemma SetExitIsFresh(z: Bbr, c: Config, e: Event)
    ensures SetsExit(z, c, e) ==> z.exitProbeRttAt == e.now + PROBE_RTT_TIME && !z.probeRttRoundPassed
  {
  }

  /** PROBE_RTT, entered by event i and left by event n, lasts until at least 200 ms after an
      event that found few bytes in flight, and a round starts after that event. */
  lemma ProbeRttLasts(states: seq<Bbr>, c: Config, actions: seq<Action>, i: nat, n: nat) returns (k: nat)
    requires c.Valid() && IsRun(states, c, actions) && i < n < |actions|
    requires states[i].mode != ProbeRtt && states[n + 1].mode != ProbeRtt
    requires forall j :: i < j <= n ==> states[j].mode == ProbeRtt
    ensures i <= k < n && actions[k].Acked? && actions[n].Acked?
    ensures states[k + 1].bytesInFlight < states[k + 1].minCongestionWindow + c.maxPacketBufferSize
    ensures actions[n].event.now >= actions[k].event.now + PROBE_RTT_TIME
    ensures exists r :: k < r <= n && StartsRound(states[r], actions[r])
  {
    hide OnEvent, Resized, Inv, OnPacketSent, IsRoundStart;
    k := ProbeRttSoFar(states, c, actions, i, n);
    var s, a := states[n], actions[n];
    RunStep(states, c, actions, n);
    if a.Acked? {
      EventInProbeRtt(s, c, a.event);
      if !s.probeRttRoundPassed { assert StartsRound(states[n], actions[n]); }
    } else {
      OtherActionsKeepRound(s, c, a);
      assert false;
    }
  }

  // ----- The search for the full bandwidth

  /** One check of the search: the estimate, and whether losses alone end it. */
  datatype Check = Check(bandwidth: nat, tooManyLosses: bool)

  function Searched(cs: seq<Check>, n: nat): (g: Search) {
    if cs == [] then Search(false, 0, 0)
    else
      var last := cs[|cs| - 1];
      CheckGrowth(Searched(cs[..|cs| - 1], n), last.bandwidth, last.tooManyLosses, n)
  }

  /** The estimate is less than a quarter above the one of the last raise. */
  predicate Stalls(bandwidth: nat, atLastRaise: nat) {
    bandwidth < SS.Truncate(atLastRaise as real * STARTUP_GROWTH_TARGET)
  }

  /** The last k checks all stall, measured against the bandwidth before them. */
  ghost predicate LastStall(cs: seq<Check>, n: nat, k: nat) {
    && k <= |cs|
    && forall j :: |cs| - k <= j < |cs| ==> Stalls(cs[j].bandwidth, Searched(cs[..|cs| - k], n).bandwidthAtLastRound)
  }

  lemma OneMoreCheck(cs: seq<Check>, n: nat)
    requires cs != []
    ensures var last, g0, g := cs[|cs| - 1], Searched(cs[..|cs| - 1], n), Searched(cs, n);
            if Stalls(last.bandwidth, g0.bandwidthAtLastRound) then
              && g.roundsWithoutGain == g0.roundsWithoutGain + 1 && g.bandwidthAtLastRound == g0.bandwidthAtLastRound
              && (g.atFullBandwidth <==> g0.atFullBandwidth || g.roundsWithoutGain >= n || last.tooManyLosses)
            else
              && g.roundsWithoutGain == 0 && g.bandwidthAtLastRound == last.bandwidth
              && g.atFullBandwidth == g0.atFullBandwidth
  {
    hide SS.Truncate;
  }

  lemma LastStallOneMore(cs: seq<Check>, n: nat, k: nat)
    requires cs != [] && k > 0
    requires LastStall(cs[..|cs| - 1], n, k - 1) && k <= |cs|
    requires Stalls(cs[|cs| - 1].bandwidth, Searched(cs[..|cs| - k], n).bandwidthAtLastRound)
    ensures LastStall(cs, n, k)
  {
    hide Searched, Stalls;
    assert cs[..|cs| - 1][..|cs| - k] == cs[..|cs| - k];
  }

  lemma LastStallOneLess(cs: seq<Check>, n: nat, k: nat)
    requires 0 < k <= |cs| && LastStall(cs, n, k)
    ensures LastStall(cs[..|cs| - 1], n, k - 1)
    ensures Stalls(cs[|cs| - 1].bandwidth, Searched(cs[..|cs| - k], n).bandwidthAtLastRound)
  {
    hide Searched, Stalls;
    assert cs[..|cs| - 1][..|cs| - k] == cs[..|cs| - k];
  }

  /** The count of rounds without gain is the length of the stretch of stalled checks at the end. */
  lemma {:induction false} StallCount(cs: seq<Check>, n: nat)
    ensures var g := Searched(cs, n);
            && LastStall(cs, n, g.roundsWithoutGain)
            && g.bandwidthAtLastRound == Searched(cs[..|cs| - g.roundsWithoutGain], n).bandwidthAtLastRound
    decreases |cs|
  {
    hide Stalls, CheckGrowth;
    if cs != [] {
      StallCount(cs[..|cs| - 1], n);
      OneMoreCheck(cs, n);
      var k := Searched(cs, n).roundsWithoutGain;
      if k > 0 {
        assert cs[..|cs| - 1][..|cs| - k] == cs[..|cs| - k];
        LastStallOneMore(cs, n, k);
      } else {
        assert cs[..|cs|] == cs;
      }
    }
  }

  lemma {:induction false} FewStallsBeforeFull(cs: seq<Check>, n: nat)
    requires n > 0
    ensures !Searched(cs, n).atFullBandwidth ==> Searched(cs, n).roundsWithoutGain < n
    decreases |cs|
  {
    hide Stalls, CheckGrowth;
    if cs != [] {
      FewStallsBeforeFull(cs[..|cs| - 1], n);
      OneMoreCheck(cs, n);
    }
  }

  /** k stalled checks in a row count k rounds. */
  lemma {:induction false} StallsCount(cs: seq<Check>, n: nat, k: nat)
    requires LastStall(cs, n, k)
    ensures Searched(cs, n).bandwidthAtLastRound == Searched(cs[..|cs| - k], n).bandwidthAtLastRound
    ensures Searched(cs, n).roundsWithoutGain >= k
    ensures 0 < n <= k ==> Searched(cs, n).atFullBandwidth
    decreases k
  {
    hide Stalls, CheckGrowth, Searched, LastStall;
    if k > 0 {
      assert 0 < k <= |cs| by { StallLength(cs, n, k); }
      LastStallOneLess(cs, n, k);
      StallsCount(cs[..|cs| - 1], n, k - 1);
      assert cs[..|cs| - 1][..|cs| - k] == cs[..|cs| - k];
      OneMoreCheck(cs, n);
    } else {
      assert cs[..|cs|] == cs;
    }
  }

  lemma StallLength(cs: seq<Check>, n: nat, k: nat)
    requires LastStall(cs, n, k)
    ensures k <= |cs|
  {
  }

  /** A search that has not ended ends with a check exactly if that completes n stalled checks
      in a row, all measured against the bandwidth before them, or stalls with too many losses. */
  lemma FullMeansStalled(cs: seq<Check>, n: nat)
    requires n > 0 && cs != [] && !Searched(cs[..|cs| - 1], n).atFullBandwidth
    ensures Searched(cs, n).atFullBandwidth <==>
              LastStall(cs, n, n) || (cs[|cs| - 1].tooManyLosses && LastStall(cs, n, 1))
  {
    hide Stalls, CheckGrowth, Searched, LastStall;
    StallCount(cs, n);
    FewStallsBeforeFull(cs[..|cs| - 1], n);
    OneMoreCheck(cs, n);
    LastStallsIff(cs, n);
    if LastStall(cs, n, n) { StallsCount(cs, n, n); }
  }

  lemma LastStallsIff(cs: seq<Check>, n: nat)
    requires cs != []
    ensures LastStall(cs, n, 1) <==> Stalls(cs[|cs| - 1].bandwidth, Searched(cs[..|cs| - 1], n).bandwidthAtLastRound)
  {
    hide Stalls, Searched;
  }

  // ----- Rates and windows

  /** In PROBE_BW the pacing rate stays between 0.75 and 1.25 times the bandwidth estimate,
      rounded down. */
  lemma PacingRateInProbeBw(s: Bbr, c: Config, e: Event)
    requires c.Valid() && ModeInv(s, c)
    requires OnEvent(s, c, e).mode == ProbeBw && Bandwidth(OnEvent(s, c, e)) > 0
    ensures var z := OnEvent(s, c, e);
            0.75 * Bandwidth(z) as real - 1.0 < z.pacingRate as real <= 1.25 * Bandwidth(z) as real
  {
    hide Measured, Moded, IsRoundStart, MinRttExpired, UpdateWindow, UpdateRecoveryWindow, CheckOvershoot, TargetRate;
    EventKeepsModes(s, c, e);
    var m := Moded(Measured(s, e), c, e, IsRoundStart(s, e), MinRttExpired(s, e.now, e.report));
    GainedRate(m);
  }

  lemma GainedRate(s: Bbr)
    ensures 0.75 <= s.pacingGain <= 1.25 ==>
              0.75 * Bandwidth(s) as real - 1.0 < TargetRate(s) as real <= 1.25 * Bandwidth(s) as real
  {
    var g, bw := s.pacingGain, Bandwidth(s) as real;
    if 0.75 <= g <= 1.25 {
      ProductNotNegative(g - 0.75, bw);
      ProductNotNegative(1.25 - g, bw);
      assert (g - 0.75) * bw == g * bw - 0.75 * bw && (1.25 - g) * bw == 1.25 * bw - g * bw;
    }
  }

  lemma ProductNotNegative(x: real, y: real)
    requires x >= 0.0 && y >= 0.0
    ensures x * y >= 0.0
  {
  }

  /** An event lets the congestion window grow by at most the bytes it acknowledges. */
  lemma WindowGrowsByAcked(s: Bbr, c: Config, e: Event)
    requires c.Valid() && WindowInv(s, c)
    ensures OnEvent(s, c, e).congestionWindow <= s.congestionWindow + e.report.bytesAcked
  {
    hide Measured, Moded, UpdatePacingRate, UpdateRecoveryWindow, IsRoundStart, MinRttExpired, NextCongestionWindow;
    var m := Moded(Measured(s, e), c, e, IsRoundStart(s, e), MinRttExpired(s, e.now, e.report));
    NextWindowClamped(UpdatePacingRate(m, c, e.report.bytesLost, e.statsMinRtt), c, e.report, e.statsMinRtt);
  }

  /** Packet conservation: in recovery the recovery window always leaves room for as many
      bytes as the event acknowledged. */
  lemma PacketConservation(s: Bbr, c: Config, e: Event)
    requires c.Valid() && OnEvent(s, c, e).recoveryState != NotInRecovery
    ensures var z := OnEvent(s, c, e); z.recoveryWindow >= z.bytesInFlight + e.report.bytesAcked
  {
    hide Measured, Moded, UpdatePacingRate, UpdateWindow, IsRoundStart, MinRttExpired;
  }

  // ----- What a caller of the sender can rely on

  lemma EventGuarantees(s: Bbr, c: Config, e: Event)
    requires c.Valid() && Inv(s, c)
    ensures var z := OnEvent(s, c, e);
            && Inv(z, c) && ModeChange(s, z)
            && z.minCongestionWindow <= GetCongestionWindow(z) <= z.maxCongestionWindow && CanSend(z, 0)
            && z.congestionWindow <= s.congestionWindow + e.report.bytesAcked
            && (!z.search.atFullBandwidth ==> z.congestionWindow >= s.congestionWindow)
            && (z.recoveryState != NotInRecovery ==> z.recoveryWindow >= z.bytesInFlight + e.report.bytesAcked)
  {
    hide OnEvent, ModeInv, ModeChange;
    EventKeepsWindows(s, c, e);
    EventKeepsModes(s, c, e);
    WindowGrowsByAcked(s, c, e);
    if OnEvent(s, c, e).recoveryState != NotInRecovery { PacketConservation(s, c, e); }
    LimitsInOrder(OnEvent(s, c, e), c);
  }

  lemma ResizeGuarantees(s: Bbr, c: Config, size: int)
    requires c.Valid() && Inv(s, c) && size >= s.maxDatagramSize
    ensures var z := Resized(s, size);
            Inv(z, c) && z.congestionWindow >= s.congestionWindow && CanSend(z, 0) && KeepsModes(s, z)
  {
    hide Rescale, Resized;
    ResizeKeepsWindows(s, c, size);
    ResizeKeepsModes(s, size);
    LimitsInOrder(Resized(s, size), c);
  }
}
