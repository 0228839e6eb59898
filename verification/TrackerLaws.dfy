/** Ack points, ack aggregation and the heights that are remembered, over runs
    (internal/congestion/bbr/bandwidth_sampler.go). */
module TrackerLaws {
  import opened Arithmetic
  import opened Wrappers
  import opened PacketQueue
  import AH = AckHeight
  import WF = WindowedFilter
  import opened SamplerState
  import opened SamplerHistory
  import opened SampleLaws

  // ----- The two most recent ack points

  /** The points kept after a history of acks. */
  function Kept(acks: seq<AckPoint>): RecentAckPoints {
    if acks == [] then NO_POINTS
    else
      var x := acks[|acks| - 1];
      Kept(acks[..|acks| - 1]).Update(x.ackTime, x.totalBytesAcked)
  }

  ghost predicate InOrder(acks: seq<AckPoint>) {
    && (forall i :: 0 <= i < |acks| ==> acks[i].ackTime > 0 && acks[i].totalBytesAcked > 0)
    && forall i, j :: 0 <= i <= j < |acks| ==> acks[i].ackTime <= acks[j].ackTime
  }

  /** Ack k is the last one before the time of the last ack. */
  ghost predicate IsEarlier(acks: seq<AckPoint>, k: nat)
    requires acks != []
  {
    var now := acks[|acks| - 1].ackTime;
    k < |acks| && acks[k].ackTime < now && forall j :: k < j < |acks| ==> acks[j].ackTime == now
  }

  /** With acks in the order of time the newer point is the last ack, and the older one the last ack
      at an earlier time; if there is none, it has no bytes. */
  lemma {:induction false} KeptAre(acks: seq<AckPoint>)
    requires acks != [] && InOrder(acks)
    ensures Kept(acks).newer == acks[|acks| - 1]
    ensures if acks[0].ackTime == acks[|acks| - 1].ackTime then Kept(acks).older == NO_POINT
            else exists k: nat :: IsEarlier(acks, k) && Kept(acks).older == acks[k]
    decreases |acks|
  {
    var n := |acks| - 1;
    var before, x := acks[..n], acks[n];
    if n == 0 {
      assert before == [];
      assert Kept(before) == NO_POINTS;
    } else {
      KeptAre(before);
      assert before[n - 1] == acks[n - 1] && before[0] == acks[0];
      hide Kept, InOrder;
      KeptStep(before, x, acks);
    }
  }

  lemma KeptStep(before: seq<AckPoint>, x: AckPoint, acks: seq<AckPoint>)
    requires before != [] && acks == before + [x] && InOrder(acks)
    requires Kept(before).newer == before[|before| - 1]
    requires if before[0].ackTime == before[|before| - 1].ackTime then Kept(before).older == NO_POINT
             else exists k: nat :: IsEarlier(before, k) && Kept(before).older == before[k]
    ensures Kept(acks) == Kept(before).Update(x.ackTime, x.totalBytesAcked)
    ensures Kept(acks).newer == x
    ensures if acks[0].ackTime == x.ackTime then Kept(acks).older == NO_POINT
            else exists k: nat :: IsEarlier(acks, k) && Kept(acks).older == acks[k]
  {
    var n := |before|;
    assert acks[..n] == before && acks[n] == x && acks[n - 1] == before[n - 1] && acks[0] == before[0];
    assert Kept(acks) == Kept(before).Update(x.ackTime, x.totalBytesAcked);
    hide Kept, IsEarlier;
    if x.ackTime > before[n - 1].ackTime {
      assert IsEarlier(acks, n - 1) by { JustBefore(acks); }
    } else if acks[0].ackTime != x.ackTime {
      var k: nat :| IsEarlier(before, k) && Kept(before).older == before[k];
      StillEarlier(before, x, k);
    }
  }

  lemma JustBefore(acks: seq<AckPoint>)
    requires |acks| >= 2 && acks[|acks| - 2].ackTime < acks[|acks| - 1].ackTime
    ensures IsEarlier(acks, |acks| - 2)
  {
  }

  lemma StillEarlier(before: seq<AckPoint>, x: AckPoint, k: nat)
    requires before != [] && IsEarlier(before, k) && x.ackTime == before[|before| - 1].ackTime
    ensures IsEarlier(before + [x], k) && (before + [x])[k] == before[k]
  {
  }

  /** So the point that becomes a candidate is the last ack before the newest time, or the newest
      one, if all acks have come at the same time. */
  lemma LessRecentIs(acks: seq<AckPoint>)
    requires acks != [] && InOrder(acks)
    ensures var p, last := Kept(acks).LessRecent(), acks[|acks| - 1];
            if acks[0].ackTime == last.ackTime then p == last else exists k: nat :: IsEarlier(acks, k) && p == acks[k]
  {
    hide Kept;
    KeptAre(acks);
    if acks[0].ackTime != acks[|acks| - 1].ackTime {
      var k: nat :| IsEarlier(acks, k) && Kept(acks).older == acks[k];
    }
  }

  /** A time that goes back replaces the newer point. */
  lemma BackInTime(acks: seq<AckPoint>, x: AckPoint)
    requires acks != [] && InOrder(acks) && x.ackTime < acks[|acks| - 1].ackTime
    ensures Kept(acks + [x]) == RecentAckPoints(Kept(acks).older, x)
  {
    assert (acks + [x])[..|acks|] == acks;
    KeptAre(acks);
  }

  /** Sending with nothing in flight starts over: with overestimate avoidance the time of the send
      is the only point, and the only candidate to measure from. */
  lemma OpeningClears(s: State, e: Event)
    requires s.Inv() && Opens(e)
    ensures var z, now := Step(s, e), AckPoint(e.sentTime, s.totalBytesAcked);
            if s.overestimateAvoidance then z.recent == RecentAckPoints(NO_POINT, now) && z.candidates == [now]
            else z.recent == s.recent && z.candidates == s.candidates
  {
    hide PacketsOk, PointsOk, EmplacedOrSame;
  }

  // ----- Ack aggregation

  /** What an ack event tells the tracker. */
  datatype Ack = Ack(bandwidth: nat, isNewMax: bool, round: nat, lastSent: int, lastAcked: int, ackTime: nat,
                     bytes: nat)

  /** The bytes that a bandwidth in bit/s explains since the epoch's start. */
  function Explained(t: Tracker, a: Ack): int
    requires t.epochStart <= a.ackTime
  {
    a.bandwidth * (a.ackTime - t.epochStart) / 8_000_000_000
  }

  /** A new epoch: the first one; or when the bytes of the epoch are explained by the bandwidth, with
      a margin for the threshold; or, if so wanted, when a packet is acked that was sent in it. */
  predicate Starts(t: Tracker, a: Ack)
    requires t.epochStart <= a.ackTime
  {
    || t.epochStart == 0
    || t.epochBytes as real <= t.threshold * Explained(t, a) as real
    || (t.newEpochAfterFullRound && t.lastSentBeforeEpoch != -1 && a.lastAcked != -1
        && a.lastAcked > t.lastSentBeforeEpoch)
  }

  function Told(t: Tracker, a: Ack): (Tracker, nat)
    requires t.threshold >= 1.0
  {
    TrackerUpdated(t, a.bandwidth, a.isNewMax, a.round, a.lastSent, a.lastAcked, a.ackTime, a.bytes)
  }

  lemma ExplainedIs(t: Tracker, a: Ack)
    requires t.epochStart <= a.ackTime
    ensures AH.BytesFromBandwidthAndTimeDelta(a.bandwidth, a.ackTime - t.epochStart) == Explained(t, a) >= 0
  {
    MulMonotone(0, a.ackTime - t.epochStart, a.bandwidth);
    assert (a.ackTime - t.epochStart) * a.bandwidth == a.bandwidth * (a.ackTime - t.epochStart);
  }

  /** An event starts an epoch, and nothing exceeds the bandwidth; or it adds to the epoch, and what
      exceeds the bandwidth are the bytes of the epoch less those explained. */
  lemma ToldIs(t: Tracker, a: Ack)
    requires t.threshold >= 1.0 && t.epochStart <= a.ackTime
    ensures var (t', extra) := Told(t, a);
            && t'.threshold == t.threshold && t'.newEpochAfterFullRound == t.newEpochAfterFullRound
            && if Starts(t, a) then
                 && extra == 0 && t'.epochStart == a.ackTime && t'.epochBytes == a.bytes
                 && t'.lastSentBeforeEpoch == a.lastSent && t'.epochs == t.epochs + 1
               else
                 && extra == t.epochBytes + a.bytes - Explained(t, a) && extra > a.bytes
                 && t'.epochStart == t.epochStart && t'.epochBytes == t.epochBytes + a.bytes
                 && t'.lastSentBeforeEpoch == t.lastSentBeforeEpoch && t'.epochs == t.epochs
  {
    hide AH.Recalculated, AH.Updated, AH.BytesFromBandwidthAndTimeDelta, Explained, StartsEpoch;
    ExplainedIs(t, a);
    StartsIs(t, a);
    StartsIs(Reduced(t, a.bandwidth, a.isNewMax), a);
    StartingIsSame(t, a);
    hide Starts;
    if !Starts(t, a) { StartsElse(t, a); }
  }

  /** An epoch that goes on has more bytes than are explained. */
  lemma StartsElse(t: Tracker, a: Ack)
    requires t.threshold >= 1.0 && t.epochStart <= a.ackTime && !Starts(t, a)
    ensures t.epochBytes > Explained(t, a)
  {
    hide AH.BytesFromBandwidthAndTimeDelta, Explained;
    ExplainedIs(t, a);
    KeepsUpIs(t, a);
    ThresholdAtLeastOne(t.threshold, t.epochBytes, Explained(t, a));
  }

  lemma KeepsUpIs(t: Tracker, a: Ack)
    requires t.threshold >= 1.0 && t.epochStart <= a.ackTime && Explained(t, a) >= 0
    ensures KeepsUp(t.threshold, t.epochBytes, Explained(t, a)) <==>
              t.epochBytes as real <= t.threshold * Explained(t, a) as real
  {
    hide Explained;
    var e := Explained(t, a) as real;
    assert t.threshold * e >= 0.0;
  }

  /** The tracker after a history of ack events, in the order of time. */
  function After(t: Tracker, acks: seq<Ack>): (r: Tracker)
    requires t.threshold >= 1.0
    ensures r.threshold == t.threshold
  {
    if acks == [] then t else Told(After(t, acks[..|acks| - 1]), acks[|acks| - 1]).0
  }

  function Bytes(acks: seq<Ack>): (n: nat) {
    if acks == [] then 0 else Bytes(acks[..|acks| - 1]) + acks[|acks| - 1].bytes
  }

  /** The first event starts an epoch, and the others add to it. */
  ghost predicate IsEpoch(t: Tracker, acks: seq<Ack>)
    requires t.threshold >= 1.0
  {
    && acks != [] && t.epochStart <= acks[0].ackTime && acks[0].ackTime > 0 && Starts(t, acks[0])
    && forall i :: 1 <= i < |acks| ==>
         && acks[0].ackTime <= acks[i].ackTime
         && After(t, acks[..i]).epochStart <= acks[i].ackTime && !Starts(After(t, acks[..i]), acks[i])
  }

  /** What the last event of an epoch reports are the bytes acked in the epoch less those that its
      bandwidth explains since the epoch's start. */
  lemma {:induction false} ExcessOfEpoch(t: Tracker, acks: seq<Ack>)
    requires t.threshold >= 1.0 && IsEpoch(t, acks)
    ensures After(t, acks).epochStart == acks[0].ackTime && After(t, acks).epochBytes == Bytes(acks)
    ensures var n := |acks| - 1;
            Told(After(t, acks[..n]), acks[n]).1 ==
              if n == 0 then 0
              else Bytes(acks) - acks[n].bandwidth * (acks[n].ackTime - acks[0].ackTime) / 8_000_000_000
    decreases |acks|
  {
    hide Told, Starts;
    var n := |acks| - 1;
    if n == 0 {
      assert acks[..0] == [];
      ToldIs(t, acks[0]);
    } else {
      ShorterEpoch(t, acks);
      ExcessOfEpoch(t, acks[..n]);
      assert acks[..n][0] == acks[0];
      assert !Starts(After(t, acks[..n]), acks[n]);
      ToldIs(After(t, acks[..n]), acks[n]);
    }
  }

  lemma ShorterEpoch(t: Tracker, acks: seq<Ack>)
    requires t.threshold >= 1.0 && |acks| >= 2 && IsEpoch(t, acks)
    ensures IsEpoch(t, acks[..|acks| - 1])
  {
    hide After, Starts;
    var n := |acks| - 1;
    forall i | 1 <= i < n
      ensures acks[..n][0].ackTime <= acks[..n][i].ackTime
      ensures After(t, acks[..n][..i]).epochStart <= acks[..n][i].ackTime
      ensures !Starts(After(t, acks[..n][..i]), acks[..n][i])
    {
      assert acks[..n][..i] == acks[..i];
    }
  }

  // ----- The heights that are remembered

  /** An aggregation enters the filter with its round, after a new maximum of the bandwidth has had
      all heights computed anew, if that is wanted. */
  lemma HeightsAre(t: Tracker, a: Ack)
    requires t.threshold >= 1.0 && t.epochStart <= a.ackTime
    ensures var (t', extra) := Told(t, a);
            var h := if t.reduceOnNewMax && a.isNewMax then AH.Recalculated(t.heights, t.window, a.bandwidth)
                     else t.heights;
            if Starts(t, a) then t'.heights == h
            else AH.Keys(t'.heights) == WF.Updated(AH.Keys(h), t.window, WF.Estimate(extra, a.round))
  {
    hide AH.Recalculated, AH.Updated, AH.BytesFromBandwidthAndTimeDelta, Explained, Starts, StartsEpoch, WF.Updated;
    ExplainedIs(t, a);
    StartsIs(t, a);
    StartsIs(Reduced(t, a.bandwidth, a.isNewMax), a);
    StartingIsSame(t, a);
  }

  lemma StartsIs(t: Tracker, a: Ack)
    requires t.threshold >= 1.0 && t.epochStart <= a.ackTime
    ensures StartsEpoch(t, a.bandwidth, a.lastAcked, a.ackTime) <==> Starts(t, a)
  {
    hide AH.BytesFromBandwidthAndTimeDelta, Explained, KeepsUp;
    ExplainedIs(t, a);
    KeepsUpIs(t, a);
  }

  lemma StartingIsSame(t: Tracker, a: Ack)
    requires t.epochStart <= a.ackTime
    ensures Starts(Reduced(t, a.bandwidth, a.isNewMax), a) == Starts(t, a)
  {
    hide AH.Recalculated;
  }

  /** What an aggregation exceeds a bandwidth by, if anything. */
  function Excess(e: AH.Height, bandwidth: nat): nat {
    var n := if e.timeDelta < 0 then 0 else bandwidth * e.timeDelta / 8_000_000_000;
    if n < e.bytesAcked then e.bytesAcked - n else 0
  }

  /** Heights computed anew for a bandwidth: the best is the largest excess of the three. */
  lemma RecalculatedBest(h: AH.Heights, window: nat, bandwidth: nat)
    requires AH.Roundless(h) && h.best.event.timeDelta >= 0 && h.second.event.timeDelta >= 0
    requires h.third.event.timeDelta >= 0
    ensures AH.Recalculated(h, window, bandwidth).best.event.extraAcked ==
              Max(Excess(h.best.event, bandwidth), Max(Excess(h.second.event, bandwidth),
                                                       Excess(h.third.event, bandwidth)))
  {
    hide AH.Updated, AH.BytesFromBandwidthAndTimeDelta, Excess;
    var h1 := AH.Reinserted(AH.NO_HEIGHTS, window, h.best.event, bandwidth);
    var h2 := AH.Reinserted(h1, window, h.second.event, bandwidth);
    AH.ReinsertedIsTimeless(AH.NO_HEIGHTS, window, h.best.event, bandwidth);
    AH.ReinsertedIsTimeless(h1, window, h.second.event, bandwidth);
    ReinsertedBest(AH.NO_HEIGHTS, window, h.best.event, bandwidth);
    ReinsertedBest(h1, window, h.second.event, bandwidth);
    ReinsertedBest(h2, window, h.third.event, bandwidth);
  }

  lemma ReinsertedBest(h: AH.Heights, window: nat, e: AH.Height, bandwidth: nat)
    requires AH.Timeless(h) && e.round == 0 && e.timeDelta >= 0
    ensures AH.Reinserted(h, window, e, bandwidth).best.event.extraAcked ==
              Max(h.best.event.extraAcked, Excess(e, bandwidth))
  {
    MulMonotone(0, e.timeDelta, bandwidth);
    assert e.timeDelta * bandwidth == bandwidth * e.timeDelta;
  }

  // ----- The tracker in an event of the sampler

  /** Acknowledging leaves these alone, and discards candidates from the front only. */
  ghost predicate KeepsTracker(s: State, z: State, d: nat) {
    && z.tracker == s.tracker && z.overestimateAvoidance == s.overestimateAvoidance
    && z.totalBytesAckedAfterLastAckEvent == s.totalBytesAckedAfterLastAckEvent
    && d <= |s.candidates| && z.candidates == s.candidates[d..]
  }

  lemma AckKeepsTracker(s: State, ackTime: nat, n: int) returns (d: nat)
    requires s.Inv()
    ensures KeepsTracker(s, PacketAcked(s, ackTime, n).0, d) && PacketAcked(s, ackTime, n).0.lastAckedPacket == n
  {
    hide PacketsOk, PointsOk, Pruned, Choice, BandwidthFromDelta, SendRate, RecentAckPoints.Update;
    d := AckDiscards(s, ackTime, n);
  }

  lemma {:induction false} AcksKeepTracker(s: State, ackTime: nat, acked: seq<int>, e: EventSample, rate: nat)
    returns (d: nat)
    requires s.Inv() && acked != []
    ensures var z := AckAll(s, ackTime, acked, e, rate).0;
            KeepsTracker(s, z, d) && z.lastAckedPacket == acked[|acked| - 1]
    decreases |acked|
  {
    hide State.Inv, PacketAcked, WithSample;
    var (s', x) := PacketAcked(s, ackTime, acked[0]);
    AckedKeepsInv(s, ackTime, acked[0]);
    SampleStateIsOk(s, ackTime, acked[0]);
    var d0 := AckKeepsTracker(s, ackTime, acked[0]);
    var e' := if x.stateAtSend.None? then e else WithSample(e, x, s'.totalBytesAcked);
    var rate' := if x.stateAtSend.Some? && x.sendRate != INF_BANDWIDTH then Max(rate, x.sendRate) else rate;
    if |acked| == 1 {
      d := d0;
      assert acked[1..] == [];
    } else {
      var d' := AcksKeepTracker(s', ackTime, acked[1..], e', rate');
      d := d0 + d';
      assert s.candidates[d0..][d'..] == s.candidates[d..];
    }
  }

  /** The estimate the tracker is given: the largest of the sender's and the event's, up to a bound. */
  function GivenBandwidth(e: EventSample, maxBandwidth: nat, upperBound: nat): nat {
    Min(upperBound, Max(maxBandwidth, e.sampleMaxBandwidth))
  }

  /** The end of an event. */
  lemma EndTells(s: State, a: Ack)
    requires s.Inv() && a.lastSent == s.lastSentPacket && a.lastAcked == s.lastAckedPacket
    requires a.ackTime == s.lastAckedPacketAckTime
    requires a.bytes == s.totalBytesAcked - s.totalBytesAckedAfterLastAckEvent
    ensures var (z, extra) := AckEventEnd(s, a.bandwidth, a.isNewMax, a.round);
            && z.totalBytesAckedAfterLastAckEvent == z.totalBytesAcked && z.recent == s.recent
            && (if a.bytes == 0 then z.tracker == s.tracker && extra == 0 else (z.tracker, extra) == Told(s.tracker, a))
            && z.candidates == s.candidates +
                 if a.bytes > 0 && s.overestimateAvoidance && extra == 0 then [z.recent.LessRecent()] else []
  {
    hide PacketsOk, PointsOk, TrackerUpdated, RecentAckPoints.LessRecent;
    if a.bytes == 0 { assert s.candidates + [] == s.candidates; }
  }

  /** What an event is given at its end. */
  lemma EventEnds(s: State, ackTime: nat, acked: seq<int>, lost: seq<Lost>, maxBandwidth: nat, upperBound: nat,
                  round: nat) returns (s2: State, d: nat)
    requires s.Inv() && acked != [] && LastKnown(s.packets.AsMap(), acked).Some?
    ensures var (z, e) := CongestionEvent(s, ackTime, acked, lost, maxBandwidth, upperBound, false, round);
            && s2.Inv() && KeepsTracker(s, s2, d) && s2.lastAckedPacket == acked[|acked| - 1]
            && s2.lastSentPacket == s.lastSentPacket && s2.lastAckedPacketAckTime == ackTime
            && (z, e.extraAcked) == AckEventEnd(s2, GivenBandwidth(e, maxBandwidth, upperBound),
                                                e.sampleMaxBandwidth > maxBandwidth, round)
  {
    hide PacketsOk, PointsOk, AckAll, AckEventEnd, LoseAll, Queue.AsMap, LeavesLimit;
    LossesAre(s, lost, None);
    var s1 := s.(totalBytesLost := s.totalBytesLost + LostBytes(lost));
    AcksAre(s1, ackTime, acked, NO_EVENT, 0);
    AckAllKeepsInv(s1, ackTime, acked, NO_EVENT, 0);
    d := AcksKeepTracker(s1, ackTime, acked, NO_EVENT, 0);
    s2 := AckAll(s1, ackTime, acked, NO_EVENT, 0).0;
  }

  /** An event whose packets are remembered tells the tracker the bytes acked since the last event,
      with the larger of the sender's estimate and its own, and reports what exceeds that. When
      nothing does, its less recent ack point becomes a candidate to measure from. */
  lemma EventAggregates(s: State, ackTime: nat, acked: seq<int>, lost: seq<Lost>, maxBandwidth: nat, upperBound: nat,
                        round: nat) returns (d: nat)
    requires s.Inv() && acked != [] && LastKnown(s.packets.AsMap(), acked).Some?
    ensures var (z, e) := CongestionEvent(s, ackTime, acked, lost, maxBandwidth, upperBound, false, round);
            var bytes := z.totalBytesAcked - s.totalBytesAckedAfterLastAckEvent;
            && z.totalBytesAckedAfterLastAckEvent == z.totalBytesAcked
            && bytes >= 0
            && (if bytes == 0 then z.tracker == s.tracker && e.extraAcked == 0
                else
                  (z.tracker, e.extraAcked) ==
                    Told(s.tracker, Ack(GivenBandwidth(e, maxBandwidth, upperBound),
                                        e.sampleMaxBandwidth > maxBandwidth, round, s.lastSentPacket,
                                        acked[|acked| - 1], ackTime, bytes)))
            && d <= |s.candidates|
            && z.candidates == s.candidates[d..] +
                 if bytes > 0 && s.overestimateAvoidance && e.extraAcked == 0 then [z.recent.LessRecent()] else []
  {
    hide PacketsOk, PointsOk, CongestionEvent, AckEventEnd, Queue.AsMap, RecentAckPoints.LessRecent, Told,
        LastKnown;
    var s2: State;
    s2, d := EventEnds(s, ackTime, acked, lost, maxBandwidth, upperBound, round);
    var (z, e) := CongestionEvent(s, ackTime, acked, lost, maxBandwidth, upperBound, false, round);
    var bw := GivenBandwidth(e, maxBandwidth, upperBound);
    EndKeeps(s2, bw, e.sampleMaxBandwidth > maxBandwidth, round);
    EndTells(s2, Ack(bw, e.sampleMaxBandwidth > maxBandwidth, round, s2.lastSentPacket, s2.lastAckedPacket,
                     s2.lastAckedPacketAckTime, s2.totalBytesAcked - s2.totalBytesAckedAfterLastAckEvent));
  }

  // ----- The threshold

  lemma EndKeepsThreshold(s: State, bandwidth: nat, isNewMax: bool, round: nat)
    requires s.Inv()
    ensures var z := AckEventEnd(s, bandwidth, isNewMax, round).0;
            z.tracker.threshold == s.tracker.threshold && z.overestimateAvoidance == s.overestimateAvoidance
  {
    hide PacketsOk, PointsOk, TrackerUpdated;
  }

  lemma EventKeepsThreshold(s: State, ackTime: nat, acked: seq<int>, lost: seq<Lost>, maxBandwidth: nat,
                            upperBound: nat, limitBySendRate: bool, round: nat)
    requires s.Inv()
    ensures var z := CongestionEvent(s, ackTime, acked, lost, maxBandwidth, upperBound, limitBySendRate, round).0;
            z.tracker.threshold == s.tracker.threshold && z.overestimateAvoidance == s.overestimateAvoidance
  {
    hide PacketsOk, PointsOk, AckAll, AckEventEnd, LoseAll;
    LossesAre(s, lost, None);
    if acked != [] {
      var s1 := s.(totalBytesLost := s.totalBytesLost + LostBytes(lost));
      AckAllKeepsInv(s1, ackTime, acked, NO_EVENT, 0);
      var d := AcksKeepTracker(s1, ackTime, acked, NO_EVENT, 0);
      var (s2, e, rate) := AckAll(s1, ackTime, acked, NO_EVENT, 0);
      var best := Max(maxBandwidth, e.sampleMaxBandwidth);
      EndKeepsThreshold(s2, Min(upperBound, if limitBySendRate then Max(best, rate) else best),
                        e.sampleMaxBandwidth > maxBandwidth, round);
    }
  }

  lemma SendKeepsThreshold(s: State, sentTime: nat, n: nat, bytes: nat, bytesInFlight: int, isRetransmittable: bool)
    requires s.Inv()
    ensures var z := PacketSent(s, sentTime, n, bytes, bytesInFlight, isRetransmittable);
            z.tracker == s.tracker && z.overestimateAvoidance == s.overestimateAvoidance
  {
    hide PacketsOk, PointsOk, EmplacedOrSame;
  }

  /** Aggregation counts from the bandwidth on, or, with overestimate avoidance, from twice that. */
  lemma {:induction false} ThresholdOfRun(states: seq<State>, es: seq<Event>, window: nat, i: nat)
    requires IsSamplerRun(states, es, window) && i < |states|
    ensures states[i].tracker.threshold == if states[i].overestimateAvoidance then 2.0 else 1.0
  {
    hide State.Inv, CongestionEvent, PacketSent;
    if i > 0 {
      ThresholdOfRun(states, es, window, i - 1);
      RunsKeepInv(states, es, window, i - 1);
      var s := states[i - 1];
      match es[i - 1]
      case Congestion(ackTime, acked, lost, maxBandwidth, upperBound, limitBySendRate, round) =>
        EventKeepsThreshold(s, ackTime, acked, lost, maxBandwidth, upperBound, limitBySendRate, round);
      case Send(sentTime, number, bytes, bytesInFlight, isRetransmittable) =>
        SendKeepsThreshold(s, sentTime, number, bytes, bytesInFlight, isRetransmittable);
      case _ =>
    }
  }
}
