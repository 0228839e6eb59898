/** The sampler's bookkeeping against the history of its calls: what its counters, its point to
    measure from and its snapshots of packets mean (internal/congestion/bbr/bandwidth_sampler.go). */
module SamplerHistory {
  import opened Arithmetic
  import opened Wrappers
  import opened PacketQueue
  import opened SamplerState

  /** The point the next packets are measured from: when the packet acked last was sent, when it
      was acked, and the bytes sent up to it. */
  datatype Anchor = Anchor(sentTime: nat, ackTime: nat, totalBytesSent: nat)

  function AnchorOf(s: State): Anchor {
    Anchor(s.lastAckedPacketSentTime, s.lastAckedPacketAckTime, s.totalBytesSentAtLastAckedPacket)
  }

  // ----- Acknowledging

  /** The bytes of the packets that are remembered. */
  function KnownBytes(m: map<int, SentState>, acked: seq<int>): (n: nat) {
    if acked == [] then 0 else (if acked[0] in m then m[acked[0]].size else 0) + KnownBytes(m, acked[1..])
  }

  /** The last remembered packet of a list. */
  function LastKnown(m: map<int, SentState>, acked: seq<int>): Option<SentState> {
    if acked == [] then None
    else if LastKnown(m, acked[1..]).Some? then LastKnown(m, acked[1..])
    else if acked[0] in m then Some(m[acked[0]]) else None
  }

  function Anchored(a: Anchor, m: map<int, SentState>, ackTime: nat, acked: seq<int>): Anchor {
    var q := LastKnown(m, acked);
    if q.Some? then Anchor(q.value.sentTime, ackTime, q.value.totalBytesSent) else a
  }

  /** A remembered packet sent after the application stopped limiting the rate has been acked. */
  ghost predicate LeavesLimit(m: map<int, SentState>, acked: seq<int>, end: int) {
    exists n :: n in acked && n in m && (end == -1 || n > end)
  }

  lemma PacketInMap(s: State, n: int)
    ensures s.Packet(n).Some? <==> n in s.packets.AsMap()
    ensures n in s.packets.AsMap() ==> s.Packet(n).value == s.packets.AsMap()[n]
  {
  }

  ghost predicate KeepsSending(s: State, z: State) {
    && z.packets == s.packets && z.totalBytesSent == s.totalBytesSent && z.lastSentPacket == s.lastSentPacket
    && z.endOfAppLimitedPhase == s.endOfAppLimitedPhase
  }

  /** One acknowledgement. */
  lemma AckIs(s: State, ackTime: nat, n: int)
    requires s.Inv()
    ensures var z, m := PacketAcked(s, ackTime, n).0, s.packets.AsMap();
            && KeepsSending(s, z) && z.totalBytesLost == s.totalBytesLost
            && z.totalBytesAcked == s.totalBytesAcked + KnownBytes(m, [n])
            && AnchorOf(z) == Anchored(AnchorOf(s), m, ackTime, [n])
            && (z.isAppLimited <==> s.isAppLimited && !LeavesLimit(m, [n], s.endOfAppLimitedPhase))
  {
    hide PacketsOk, PointsOk, Pruned, A0Point, BandwidthFromDelta, SendRate, RecentAckPoints.Update, Queue.AsMap;
    PacketInMap(s, n);
    LastOfOne(s.packets.AsMap(), n);
    assert [n][1..] == [];
    assert n in [n];
  }

  lemma LastOfOne(m: map<int, SentState>, n: int)
    ensures LastKnown(m, [n]) == if n in m then Some(m[n]) else None
  {
    assert [n][1..] == [];
    assert LastKnown(m, []) == None;
  }

  lemma AnchoredOneMore(a: Anchor, m: map<int, SentState>, ackTime: nat, acked: seq<int>)
    requires acked != []
    ensures Anchored(a, m, ackTime, acked) == Anchored(Anchored(a, m, ackTime, [acked[0]]), m, ackTime, acked[1..])
  {
    LastOfOne(m, acked[0]);
  }

  lemma LeavesOneMore(m: map<int, SentState>, acked: seq<int>, end: int)
    requires acked != []
    ensures LeavesLimit(m, acked, end) <==> LeavesLimit(m, [acked[0]], end) || LeavesLimit(m, acked[1..], end)
  {
    assert acked == [acked[0]] + acked[1..];
  }

  /** The acknowledgements of an event, in order. */
  lemma {:induction false} AcksAre(s: State, ackTime: nat, acked: seq<int>, e: EventSample, rate: nat)
    requires s.Inv()
    ensures var z, m := AckAll(s, ackTime, acked, e, rate).0, s.packets.AsMap();
            && KeepsSending(s, z) && z.totalBytesLost == s.totalBytesLost
            && z.totalBytesAcked == s.totalBytesAcked + KnownBytes(m, acked)
            && AnchorOf(z) == Anchored(AnchorOf(s), m, ackTime, acked)
            && (z.isAppLimited <==> s.isAppLimited && !LeavesLimit(m, acked, s.endOfAppLimitedPhase))
    decreases |acked|
  {
    hide State.Inv, PacketAcked, WithSample, LeavesLimit, Queue.AsMap;
    if acked == [] {
      NothingLeaves(s.packets.AsMap(), s.endOfAppLimitedPhase);
    } else {
      var m := s.packets.AsMap();
      var (s', sample) := PacketAcked(s, ackTime, acked[0]);
      AckIs(s, ackTime, acked[0]);
      AckedKeepsInv(s, ackTime, acked[0]);
      LeavesOneMore(m, acked, s.endOfAppLimitedPhase);
      AnchoredOneMore(AnchorOf(s), m, ackTime, acked);
      assert [acked[0]][1..] == [];
      if sample.stateAtSend.None? {
        AcksAre(s', ackTime, acked[1..], e, rate);
      } else {
        SampleStateIsOk(s, ackTime, acked[0]);
        AcksAre(s', ackTime, acked[1..], WithSample(e, sample, s'.totalBytesAcked),
                if sample.sendRate != INF_BANDWIDTH then Max(rate, sample.sendRate) else rate);
      }
    }
  }

  lemma NothingLeaves(m: map<int, SentState>, end: int)
    ensures !LeavesLimit(m, [], end)
  {
  }

  function LostBytes(lost: seq<Lost>): (n: nat) {
    if lost == [] then 0 else lost[0].bytes + LostBytes(lost[1..])
  }

  lemma {:induction false} LossesAre(s: State, lost: seq<Lost>, last: Option<SentState>)
    ensures LoseAll(s, lost, last).0 == s.(totalBytesLost := s.totalBytesLost + LostBytes(lost))
    decreases |lost|
  {
    if lost != [] {
      var known := s.Packet(lost[0].number);
      LossesAre(s.(totalBytesLost := s.totalBytesLost + lost[0].bytes), lost[1..], if known.Some? then known else last);
    }
  }

  lemma EndKeeps(s: State, bandwidthEstimate: nat, isNewMaxBandwidth: bool, round: nat)
    requires s.Inv()
    ensures var z := AckEventEnd(s, bandwidthEstimate, isNewMaxBandwidth, round).0;
            && KeepsSending(s, z) && z.totalBytesLost == s.totalBytesLost && z.totalBytesAcked == s.totalBytesAcked
            && AnchorOf(z) == AnchorOf(s) && z.isAppLimited == s.isAppLimited
  {
    hide PacketsOk, PointsOk, TrackerUpdated;
  }

  /** What a congestion event changes. */
  lemma EventIs(s: State, ackTime: nat, acked: seq<int>, lost: seq<Lost>, maxBandwidth: nat, upperBound: nat,
                limitBySendRate: bool, round: nat)
    requires s.Inv()
    ensures var m := s.packets.AsMap();
            var z := CongestionEvent(s, ackTime, acked, lost, maxBandwidth, upperBound, limitBySendRate, round).0;
            && KeepsSending(s, z) && z.totalBytesLost == s.totalBytesLost + LostBytes(lost)
            && z.totalBytesAcked == s.totalBytesAcked + KnownBytes(m, acked)
            && AnchorOf(z) == Anchored(AnchorOf(s), m, ackTime, acked)
            && (z.isAppLimited <==> s.isAppLimited && !LeavesLimit(m, acked, s.endOfAppLimitedPhase))
  {
    hide PacketsOk, PointsOk, AckAll, AckEventEnd, LoseAll, LeavesLimit, Queue.AsMap;
    LossesAre(s, lost, None);
    var s1 := s.(totalBytesLost := s.totalBytesLost + LostBytes(lost));
    if acked == [] {
      NothingLeaves(s.packets.AsMap(), s.endOfAppLimitedPhase);
    } else {
      AcksAre(s1, ackTime, acked, NO_EVENT, 0);
      AckAllKeepsInv(s1, ackTime, acked, NO_EVENT, 0);
      var (s2, e, maxSendRate) := AckAll(s1, ackTime, acked, NO_EVENT, 0);
      var best := Max(maxBandwidth, e.sampleMaxBandwidth);
      EndKeeps(s2, Min(upperBound, if limitBySendRate then Max(best, maxSendRate) else best),
               e.sampleMaxBandwidth > maxBandwidth, round);
    }
  }

  // ----- Whole runs

  /** Consecutive states of a sampler. */
  ghost predicate IsSamplerRun(states: seq<State>, es: seq<Event>, window: nat) {
    && |states| == |es| + 1 && states[0] == NewState(window)
    && forall k :: 0 <= k < |es| ==> states[k].Inv() ==> states[k + 1] == Step(states[k], es[k])
  }

  /** The bytes of the packets sent that count. */
  function BytesSent(es: seq<Event>): (n: nat) {
    if es == [] then 0
    else
      var e := es[|es| - 1];
      BytesSent(es[..|es| - 1]) + if e.Send? && e.isRetransmittable then e.bytes else 0
  }

  predicate Opens(e: Event) { e.Send? && e.isRetransmittable && e.bytesInFlight == 0 }

  /** Where measuring starts after a history: at the last remembered packet acknowledged, or at
      the last packet sent with nothing in flight, whichever was later. */
  ghost function Expected(states: seq<State>, es: seq<Event>): Anchor
    requires |states| == |es| + 1
  {
    if es == [] then Anchor(0, 0, 0)
    else
      var n := |es| - 1;
      var before := Expected(states[..n + 1], es[..n]);
      if Opens(es[n]) then Anchor(es[n].sentTime, es[n].sentTime, BytesSent(es))
      else if es[n].Congestion? then Anchored(before, states[n].packets.AsMap(), es[n].ackTime, es[n].acked)
      else before
  }

  /** A remembered packet is what was known when event k sent it. */
  ghost predicate IsSnapshot(p: SentState, number: int, states: seq<State>, es: seq<Event>, k: nat)
    requires |states| == |es| + 1
  {
    && k < |es| && es[k].Send? && es[k].isRetransmittable && es[k].number == number
    && p.sentTime == es[k].sentTime && p.size == es[k].bytes && p.bytesInFlight == es[k].bytesInFlight + es[k].bytes
    && p.totalBytesSent == BytesSent(es[..k + 1])
    && Anchor(p.lastAckedPacketSentTime, p.lastAckedPacketAckTime, p.totalBytesSentAtLastAckedPacket)
    == Expected(states[..k + 2], es[..k + 1])
    && p.totalBytesAcked == states[k].totalBytesAcked && p.totalBytesLost == states[k].totalBytesLost
    && p.isAppLimited == states[k].isAppLimited
  }

  ghost predicate IsHistory(s: State, states: seq<State>, es: seq<Event>)
    requires |states| == |es| + 1
  {
    && s.totalBytesSent == BytesSent(es) && AnchorOf(s) == Expected(states, es)
    && forall n :: n in s.packets.AsMap() ==> exists k :: IsSnapshot(s.packets.AsMap()[n], n, states, es, k)
  }

  /** On every run the sampler has counted the bytes sent, measures from the packet acked last
      or from the last send with nothing in flight, and remembers packets as they were sent. */
  lemma {:induction false} RunsAreHistories(states: seq<State>, es: seq<Event>, window: nat)
    requires IsSamplerRun(states, es, window)
    ensures IsHistory(states[|es|], states, es)
    decreases |es|
  {
    hide State.Inv, Step, IsHistory;
    if es == [] {
      NewIsHistory(states, window);
    } else {
      var n := |es| - 1;
      RunsKeepInv(states, es, window, n);
      RunsAreHistories(states[..n + 1], es[..n], window);
      StepIsHistory(states, es, n);
    }
  }

  lemma NewIsHistory(states: seq<State>, window: nat)
    requires |states| == 1 && states[0] == NewState(window)
    ensures IsHistory(states[0], states, [])
  {
  }

  /** The anchor after a call. */
  ghost function AnchorAfter(s: State, sent: nat, e: Event): Anchor {
    if Opens(e) then Anchor(e.sentTime, e.sentTime, sent)
    else if e.Congestion? then Anchored(AnchorOf(s), s.packets.AsMap(), e.ackTime, e.acked)
    else AnchorOf(s)
  }

  /** What is remembered about the packet of a call. */
  function Snapshot(s: State, sent: nat, a: Anchor, e: Event): SentState
    requires e.Send?
  {
    SentState(e.sentTime, e.bytes, a.totalBytesSent, a.sentTime, a.ackTime, s.isAppLimited,
              sent, s.totalBytesAcked, s.totalBytesLost, e.bytesInFlight + e.bytes)
  }

  ghost function PacketsAfter(s: State, sent: nat, e: Event): (m: map<int, SentState>) {
    var m := s.packets.AsMap();
    match e
    case Send(_, n, _, _, isRetransmittable) =>
      if isRetransmittable && n > s.packets.Last() then m[n := Snapshot(s, sent, AnchorAfter(s, sent, e), e)] else m
    case RemoveObsolete(n) => Restrict(m, n)
    case Neuter(n) => m - {n}
    case _ => m
  }

  function Counted(e: Event): nat { if e.Send? && e.isRetransmittable then e.bytes else 0 }

  /** What a call changes of the counters and the remembered packets. */
  lemma StepIs(s: State, e: Event)
    requires s.Inv()
    ensures var z, sent := Step(s, e), s.totalBytesSent + Counted(e);
            && z.totalBytesSent == sent && AnchorOf(z) == AnchorAfter(s, sent, e)
            && z.packets.AsMap() == PacketsAfter(s, sent, e)
  {
    hide PacketsOk, PointsOk, CongestionEvent, PacketSent, Queue.AsMap, Removed, RemovedUpTo, Anchored, Queue.Valid;
    match e
    case Send(_, _, _, _, _) => SendIs(s, e);
    case Congestion(ackTime, acked, lost, maxBandwidth, upperBound, limitBySendRate, round) =>
      EventIs(s, ackTime, acked, lost, maxBandwidth, upperBound, limitBySendRate, round);
    case RemoveObsolete(n) => RemoveIs(s, n);
    case Neuter(n) => NeuterIs(s, n);
    case _ =>
  }

  lemma RemoveIs(s: State, n: int)
    requires s.Inv()
    ensures RemovedUpTo(s.packets, n).AsMap() == Restrict(s.packets.AsMap(), n)
  {
    hide PointsOk;
    RemoveUpToRestricts(s.packets, n);
  }

  lemma NeuterIs(s: State, n: int)
    requires s.Inv()
    ensures s.packets.Has(n) ==> s.packets.Valid() && Removed(s.packets, n).AsMap() == s.packets.AsMap() - {n}
    ensures !s.packets.Has(n) ==> s.packets.AsMap() - {n} == s.packets.AsMap()
  {
    hide PointsOk;
    if s.packets.Has(n) { RemoveDropsEntry(s.packets, n); }
  }

  lemma SendIs(s: State, e: Event)
    requires s.Inv() && e.Send?
    ensures var z := PacketSent(s, e.sentTime, e.number, e.bytes, e.bytesInFlight, e.isRetransmittable);
            var sent := s.totalBytesSent + Counted(e);
            && z.totalBytesSent == sent && AnchorOf(z) == AnchorAfter(s, sent, e)
            && z.packets.AsMap() == PacketsAfter(s, sent, e)
  {
    hide PointsOk, Queue.AsMap, Emplaced, Anchored;
    var sent := s.totalBytesSent + Counted(e);
    if e.isRetransmittable && e.number > s.packets.Last() {
      EmplaceAddsEntry(s.packets, e.number, Snapshot(s, sent, AnchorAfter(s, sent, e), e), NO_STATE);
    }
  }

  lemma StepIsHistory(states: seq<State>, es: seq<Event>, n: nat)
    requires |states| == |es| + 1 && |es| == n + 1 && states[n].Inv() && states[n + 1] == Step(states[n], es[n])
    requires IsHistory(states[n], states[..n + 1], es[..n])
    ensures IsHistory(states[n + 1], states, es)
  {
    hide State.Inv, Step, IsSnapshot, Queue.AsMap, Anchored, Opens;
    var s, z, e := states[n], states[n + 1], es[n];
    StepIs(s, e);
    assert states[..n + 1][n] == s;
    assert es == es[..n + 1] && states == states[..n + 2];
    forall number | number in z.packets.AsMap() ensures exists k :: IsSnapshot(z.packets.AsMap()[number], number,
        states, es, k)
    {
      var p := z.packets.AsMap()[number];
      if number in s.packets.AsMap() && p == s.packets.AsMap()[number] {
        var k: nat :| IsSnapshot(p, number, states[..n + 1], es[..n], k);
        SnapshotStays(p, number, states, es, n, k);
      } else {
        SnapshotIsNew(p, number, states, es, n);
      }
    }
  }

  lemma SnapshotStays(p: SentState, number: int, states: seq<State>, es: seq<Event>, n: nat, k: nat)
    requires |states| == |es| + 1 && n < |es| && IsSnapshot(p, number, states[..n + 1], es[..n], k)
    ensures IsSnapshot(p, number, states, es, k)
  {
    hide Expected, BytesSent;
    assert states[..n + 1][..k + 2] == states[..k + 2] && es[..n][..k + 1] == es[..k + 1];
  }

  lemma SnapshotIsNew(p: SentState, number: int, states: seq<State>, es: seq<Event>, n: nat)
    requires |states| == |es| + 1 && |es| == n + 1 && es[n].Send? && es[n].isRetransmittable && es[n].number == number
    requires p == Snapshot(states[n], BytesSent(es), Expected(states, es), es[n])
    ensures IsSnapshot(p, number, states, es, n)
  {
    hide Expected, BytesSent;
    assert states[..n + 2] == states && es[..n + 1] == es;
  }

  // ----- The other calls

  /** Forgetting a neutered packet counts its bytes; the application limits the rate up to the last
      packet sent; the heights of a reset tracker are the given one. */
  lemma SettingsAre(s: State, e: Event)
    requires s.Inv()
    ensures var z, m := Step(s, e), s.packets.AsMap();
            && z.totalBytesNeutered == s.totalBytesNeutered +
                 (if e.Neuter? && e.number in m then m[e.number].size else 0)
            && z.lastSentPacket == (if e.Send? then e.number else s.lastSentPacket)
            && (e.AppLimit? ==> z.isAppLimited && z.endOfAppLimitedPhase == s.lastSentPacket)
            && z.overestimateAvoidance == (s.overestimateAvoidance || e.AvoidOverestimates?)
            && (e.ReduceHeights? ==> z.tracker.reduceOnNewMax == e.value)
            && (e.ResetHeights? ==> z.tracker.heights.best == z.tracker.heights.second == z.tracker.heights.third
                                    && z.tracker.heights.best.event.extraAcked == e.height
                                    && z.tracker.heights.best.time == e.round)
  {
    hide PacketsOk, PointsOk, CongestionEvent, PacketSent, Queue.AsMap, Removed, RemovedUpTo, Queue.Valid;
    match e
    case Send(sentTime, number, bytes, bytesInFlight, isRetransmittable) =>
      SendKeepsOthers(s, sentTime, number, bytes, bytesInFlight, isRetransmittable);
    case Congestion(ackTime, acked, lost, maxBandwidth, upperBound, limitBySendRate, round) =>
      EventKeepsOthers(s, ackTime, acked, lost, maxBandwidth, upperBound, limitBySendRate, round);
    case Neuter(n) => PacketInMap(s, n);
    case _ =>
  }

  lemma SendKeepsOthers(s: State, sentTime: nat, n: nat, bytes: nat, bytesInFlight: int, isRetransmittable: bool)
    requires s.Inv()
    ensures var z := PacketSent(s, sentTime, n, bytes, bytesInFlight, isRetransmittable);
            && z.totalBytesNeutered == s.totalBytesNeutered && z.lastSentPacket == n
            && z.overestimateAvoidance == s.overestimateAvoidance
  {
    hide PacketsOk, PointsOk, EmplacedOrSame;
  }

  lemma {:induction false} AcksKeepOthers(s: State, ackTime: nat, acked: seq<int>, e: EventSample, rate: nat)
    requires s.Inv()
    ensures var z := AckAll(s, ackTime, acked, e, rate).0;
            z.totalBytesNeutered == s.totalBytesNeutered && z.overestimateAvoidance == s.overestimateAvoidance
    decreases |acked|
  {
    hide State.Inv, PacketAcked, WithSample;
    if acked != [] {
      var (s', x) := PacketAcked(s, ackTime, acked[0]);
      AckKeepsOthers(s, ackTime, acked[0]);
      AckedKeepsInv(s, ackTime, acked[0]);
      SampleStateIsOk(s, ackTime, acked[0]);
      AcksKeepOthers(s', ackTime, acked[1..],
                     if x.stateAtSend.None? then e else WithSample(e, x, s'.totalBytesAcked),
                     if x.stateAtSend.Some? && x.sendRate != INF_BANDWIDTH then Max(rate, x.sendRate) else rate);
    }
  }

  lemma AckKeepsOthers(s: State, ackTime: nat, n: int)
    requires s.Inv()
    ensures var z := PacketAcked(s, ackTime, n).0;
            z.totalBytesNeutered == s.totalBytesNeutered && z.overestimateAvoidance == s.overestimateAvoidance
  {
    hide PacketsOk, PointsOk, Pruned, A0Point, BandwidthFromDelta, SendRate, RecentAckPoints.Update;
  }

  lemma EventKeepsOthers(s: State, ackTime: nat, acked: seq<int>, lost: seq<Lost>, maxBandwidth: nat, upperBound: nat,
                         limitBySendRate: bool, round: nat)
    requires s.Inv()
    ensures var z := CongestionEvent(s, ackTime, acked, lost, maxBandwidth, upperBound, limitBySendRate, round).0;
            && z.totalBytesNeutered == s.totalBytesNeutered && z.lastSentPacket == s.lastSentPacket
            && z.overestimateAvoidance == s.overestimateAvoidance
  {
    hide PacketsOk, PointsOk, AckAll, LoseAll, TrackerUpdated, Queue.AsMap, LeavesLimit;
    LossesAre(s, lost, None);
    EventIs(s, ackTime, acked, lost, maxBandwidth, upperBound, limitBySendRate, round);
    if acked != [] {
      var s1 := s.(totalBytesLost := s.totalBytesLost + LostBytes(lost));
      AckAllKeepsInv(s1, ackTime, acked, NO_EVENT, 0);
      AcksKeepOthers(s1, ackTime, acked, NO_EVENT, 0);
    }
  }
}
