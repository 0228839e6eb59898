/** The bandwidth sampler, updating its packet queue and candidate ring in place
    (internal/congestion/bbr/bandwidth_sampler.go). */
module Sampler {
  import opened Arithmetic
  import opened Wrappers
  import opened PacketQueue
  import RB = RingBuffer
  import AH = AckHeight
  import opened SamplerState

  class MaxAckHeightTracker {
    var maxAckHeightFilter: AH.Heights
    var windowLength: nat
    var aggregationEpochStartTime: nat
    var aggregationEpochBytes: nat
    var lastSentPacketNumberBeforeEpoch: int
    var numAckAggregationEpochs: nat
    var ackAggregationBandwidthThreshold: real
    var startNewAggregationEpochAfterFullRound: bool
    var reduceExtraAckedOnBandwidthIncrease: bool

    function View(): Tracker
      reads this
    {
      Tracker(aggregationEpochStartTime, aggregationEpochBytes, lastSentPacketNumberBeforeEpoch,
              numAckAggregationEpochs, ackAggregationBandwidthThreshold, startNewAggregationEpochAfterFullRound,
              maxAckHeightFilter, windowLength, reduceExtraAckedOnBandwidthIncrease)
    }

    constructor (windowLength: nat)
      ensures View() == NewState(windowLength).tracker
    {
      maxAckHeightFilter, this.windowLength := AH.NO_HEIGHTS, windowLength;
      aggregationEpochStartTime, aggregationEpochBytes := 0, 0;
      lastSentPacketNumberBeforeEpoch := INVALID_PACKET_NUMBER;
      numAckAggregationEpochs := 0;
      ackAggregationBandwidthThreshold := 1.0;
      startNewAggregationEpochAfterFullRound := false;
      reduceExtraAckedOnBandwidthIncrease := false;
    }

    /** The largest height remembered. */
    function Get(): (r: nat)
      reads this
    {
      maxAckHeightFilter.best.event.extraAcked
    }

    method Reset(newHeight: nat, newTime: nat)
      modifies this
      ensures View() == old(View()).(heights := AllHeights(newHeight, newTime)) && Get() == newHeight
    {
      var newEvent := AH.Entry(AH.Height(newHeight, 0, 0, newTime), newTime);
      maxAckHeightFilter := AH.Heights(newEvent, newEvent, newEvent);
    }

    method StartEpoch(lastSent: int, ackTime: nat, bytesAcked: nat)
      modifies this
      ensures View() == old(View()).(epochBytes := bytesAcked, epochStart := ackTime, lastSentBeforeEpoch := lastSent,
                                     epochs := old(View()).epochs + 1)
    {
      aggregationEpochBytes := bytesAcked;
      aggregationEpochStartTime := ackTime;
      lastSentPacketNumberBeforeEpoch := lastSent;
      numAckAggregationEpochs := numAckAggregationEpochs + 1;
    }

    /** Puts one remembered event back, if the bandwidth leaves anything of it. */
    method Reinsert(event: AH.Height, bandwidthEstimate: nat)
      modifies `maxAckHeightFilter
      ensures maxAckHeightFilter == AH.Reinserted(old(maxAckHeightFilter), windowLength, event, bandwidthEstimate)
    {
      hide AH.Updated, AH.BytesFromBandwidthAndTimeDelta;
      var expectedBytesAcked := AH.BytesFromBandwidthAndTimeDelta(bandwidthEstimate, event.timeDelta);
      if expectedBytesAcked < event.bytesAcked {
        var again := event.(extraAcked := event.bytesAcked - expectedBytesAcked);
        maxAckHeightFilter := AH.Updated(maxAckHeightFilter, windowLength, AH.Entry(again, again.round));
      }
    }

    /** Saves, clears and reinserts the remembered events. */
    method Reduce(bandwidthEstimate: nat)
      modifies `maxAckHeightFilter
      ensures maxAckHeightFilter == AH.Recalculated(old(maxAckHeightFilter), windowLength, bandwidthEstimate)
    {
      hide AH.Reinserted;
      var best, secondBest := maxAckHeightFilter.best.event, maxAckHeightFilter.second.event;
      var thirdBest := maxAckHeightFilter.third.event;
      maxAckHeightFilter := AH.NO_HEIGHTS;
      Reinsert(best, bandwidthEstimate);
      Reinsert(secondBest, bandwidthEstimate);
      Reinsert(thirdBest, bandwidthEstimate);
    }

    method Update(bandwidthEstimate: nat, isNewMaxBandwidth: bool, roundTripCount: nat, lastSentPacketNumber: int,
        lastAckedPacketNumber: int, ackTime: nat, bytesAcked: nat)
      returns (extra: nat)
      requires ackAggregationBandwidthThreshold >= 1.0
      modifies this
      ensures (View(), extra) == TrackerUpdated(old(View()), bandwidthEstimate, isNewMaxBandwidth, roundTripCount,
                lastSentPacketNumber, lastAckedPacketNumber, ackTime, bytesAcked)
    {
      hide KeepsUp, AH.BytesFromBandwidthAndTimeDelta, AH.Updated, AH.Recalculated;
      if reduceExtraAckedOnBandwidthIncrease && isNewMaxBandwidth {
        Reduce(bandwidthEstimate);
      }
      var forceNewEpoch := startNewAggregationEpochAfterFullRound
        && lastSentPacketNumberBeforeEpoch != INVALID_PACKET_NUMBER
        && lastAckedPacketNumber != INVALID_PACKET_NUMBER
        && lastAckedPacketNumber > lastSentPacketNumberBeforeEpoch;
      if aggregationEpochStartTime == 0 || forceNewEpoch {
        StartEpoch(lastSentPacketNumber, ackTime, bytesAcked);
        return 0;
      }
      var aggregationDelta := ackTime - aggregationEpochStartTime;
      var expectedBytesAcked := AH.BytesFromBandwidthAndTimeDelta(bandwidthEstimate, aggregationDelta);
      if KeepsUp(ackAggregationBandwidthThreshold, aggregationEpochBytes, expectedBytesAcked) {
        StartEpoch(lastSentPacketNumber, ackTime, bytesAcked);
        return 0;
      }
      ThresholdAtLeastOne(ackAggregationBandwidthThreshold, aggregationEpochBytes, expectedBytesAcked);
      aggregationEpochBytes := aggregationEpochBytes + bytesAcked;
      extra := aggregationEpochBytes - expectedBytesAcked;
      var newEvent := AH.Height(extra, aggregationEpochBytes, aggregationDelta, 0);
      maxAckHeightFilter := AH.Updated(maxAckHeightFilter, windowLength, AH.Entry(newEvent, roundTripCount));
    }
  }

  class BandwidthSampler {
    var totalBytesSent: nat
    var totalBytesAcked: nat
    var totalBytesLost: nat
    var totalBytesNeutered: nat
    var totalBytesSentAtLastAckedPacket: nat
    var lastAckedPacketSentTime: nat
    var lastAckedPacketAckTime: nat
    var lastSentPacket: int
    var lastAckedPacket: int
    var isAppLimited: bool
    var endOfAppLimitedPhase: int
    const connectionStateMap: PacketNumberIndexedQueue<SentState>
    var recentAckPoints: RecentAckPoints
    const a0Candidates: RB.RingBuffer<AckPoint>
    const maxAckHeightTracker: MaxAckHeightTracker
    var totalBytesAckedAfterLastAckEvent: nat
    var overestimateAvoidance: bool

    /** The objects that hold the sampler's state. */
    ghost function Repr(): set<object>
      reads connectionStateMap.entries, a0Candidates
    {
      {connectionStateMap, connectionStateMap.entries, connectionStateMap.entries.ring,
       a0Candidates, a0Candidates.ring, maxAckHeightTracker}
    }

    ghost predicate Valid()
      reads this, Repr(), connectionStateMap.entries, a0Candidates
    {
      && connectionStateMap.Valid() && a0Candidates.Valid()
      && connectionStateMap.entries.zero.entry == NO_STATE
      && connectionStateMap.entries as object != a0Candidates
      && connectionStateMap.entries.ring as object != a0Candidates.ring
      && View().Inv()
    }

    ghost function View(): State
      reads this, Repr(), connectionStateMap.entries, a0Candidates
      requires connectionStateMap.entries.Valid() && a0Candidates.Valid()
    {
      State(totalBytesSent, totalBytesAcked, totalBytesLost, totalBytesNeutered, totalBytesSentAtLastAckedPacket,
            lastAckedPacketSentTime, lastAckedPacketAckTime, lastSentPacket, lastAckedPacket,
            isAppLimited, endOfAppLimitedPhase, connectionStateMap.View(), recentAckPoints, a0Candidates.View(),
            maxAckHeightTracker.View(), totalBytesAckedAfterLastAckEvent, overestimateAvoidance)
    }

    constructor (queueSize: nat, bufferSize: nat, maxAckHeightTrackerWindowLength: nat)
      ensures Valid() && fresh(Repr()) && View() == NewState(maxAckHeightTrackerWindowLength)
    {
      hide PresentCount, Queue.AsMap, Queue.Valid, State.Inv;
      NewIsInv(maxAckHeightTrackerWindowLength);
      totalBytesSent, totalBytesAcked, totalBytesLost, totalBytesNeutered := 0, 0, 0, 0;
      totalBytesSentAtLastAckedPacket, totalBytesAckedAfterLastAckEvent := 0, 0;
      lastAckedPacketSentTime, lastAckedPacketAckTime := 0, 0;
      lastSentPacket, lastAckedPacket := INVALID_PACKET_NUMBER, INVALID_PACKET_NUMBER;
      isAppLimited, endOfAppLimitedPhase := false, INVALID_PACKET_NUMBER;
      connectionStateMap := new PacketNumberIndexedQueue<SentState>(queueSize, NO_STATE);
      recentAckPoints := NO_POINTS;
      a0Candidates := new RB.RingBuffer<AckPoint>(bufferSize, NO_POINT);
      maxAckHeightTracker := new MaxAckHeightTracker(maxAckHeightTrackerWindowLength);
      overestimateAvoidance := false;
    }

    method EnableOverestimateAvoidance()
      requires Valid()
      modifies this, Repr()
      ensures Valid() && Repr() == old(Repr()) && View() == Step(old(View()), AvoidOverestimates)
    {
      if overestimateAvoidance {
        return;
      }
      overestimateAvoidance := true;
      maxAckHeightTracker.ackAggregationBandwidthThreshold := 2.0;
      StepKeepsInv(old(View()), AvoidOverestimates);
    }

    /** SetReduceExtraAckedOnBandwidthIncrease */
    method SetReduceExtraAcked(value: bool)
      requires Valid()
      modifies Repr()
      ensures Valid() && Repr() == old(Repr()) && View() == Step(old(View()), ReduceHeights(value))
    {
      hide PresentCount, Queue.AsMap, Queue.Valid, Queue.Has, RB.Unrolled, PacketsOk, PointsOk;
      maxAckHeightTracker.reduceExtraAckedOnBandwidthIncrease := value;
    }

    /** The largest ack height remembered. */
    function MaxAckHeight(): (r: nat)
      reads this, Repr(), connectionStateMap.entries, a0Candidates
      requires Valid()
      ensures r == View().tracker.heights.best.event.extraAcked
    {
      maxAckHeightTracker.Get()
    }

    method ResetMaxAckHeightTracker(newHeight: nat, newTime: nat)
      requires Valid()
      modifies Repr()
      ensures Valid() && Repr() == old(Repr()) && View() == Step(old(View()), ResetHeights(newHeight, newTime))
      ensures totalBytesAcked == old(totalBytesAcked)
    {
      hide PresentCount, Queue.AsMap, Queue.Valid, Queue.Has, RB.Unrolled, PacketsOk, PointsOk;
      maxAckHeightTracker.Reset(newHeight, newTime);
    }

    /** Clears the ack points and candidates, and starts them with the present. */
    method RestartPoints(sentTime: nat)
      requires a0Candidates.Valid()
      modifies `recentAckPoints, a0Candidates, a0Candidates.ring
      ensures a0Candidates.Valid() && (a0Candidates.ring == old(a0Candidates.ring) || fresh(a0Candidates.ring))
      ensures recentAckPoints == NO_POINTS.Update(sentTime, totalBytesAcked)
      ensures a0Candidates.View() == [recentAckPoints.newer]
    {
      hide RB.Unrolled, RecentAckPoints.Update;
      recentAckPoints := NO_POINTS;
      recentAckPoints := recentAckPoints.Update(sentTime, totalBytesAcked);
      a0Candidates.Clear();
      a0Candidates.PushBack(recentAckPoints.newer);
    }

    /** What sending with nothing in flight does before the packet is recorded. */
    method Reopen(sentTime: nat)
      requires Repr() !! {this} && a0Candidates.Valid() && connectionStateMap.Valid()
      requires connectionStateMap.entries as object != a0Candidates
      requires connectionStateMap.entries.ring as object != a0Candidates.ring
      modifies this, a0Candidates, a0Candidates.ring
      ensures a0Candidates.Valid() && connectionStateMap.Valid()
      ensures a0Candidates.ring == old(a0Candidates.ring) || fresh(a0Candidates.ring)
      ensures View() == Reopened(old(View()), sentTime)
    {
      hide Emplaced, PresentCount, Queue.AsMap, Queue.Valid, Queue.Has, RB.Unrolled, RecentAckPoints.Update;
      lastAckedPacketAckTime := sentTime;
      if overestimateAvoidance {
        RestartPoints(sentTime);
      }
      totalBytesSentAtLastAckedPacket := totalBytesSent;
      lastAckedPacketSentTime := sentTime;
    }

    /** Remembers a packet that has been counted. */
    method Remember(sentTime: nat, packetNumber: nat, bytes: nat, bytesInFlight: int)
      requires connectionStateMap.Valid() && a0Candidates.Valid()
      requires connectionStateMap.entries as object != a0Candidates
      requires connectionStateMap.entries.ring as object != a0Candidates.ring
      requires connectionStateMap.entries.zero.entry == NO_STATE
      modifies connectionStateMap, connectionStateMap.entries, connectionStateMap.entries.ring
      ensures connectionStateMap.Valid() && a0Candidates.Valid()
      ensures connectionStateMap.entries.ring == old(connectionStateMap.entries.ring) ||
                fresh(connectionStateMap.entries.ring)
      ensures View() == Remembered(old(View()), sentTime, packetNumber, bytes, bytesInFlight)
    {
      hide Emplaced, PresentCount, Queue.AsMap, Queue.Has, Queue.Valid, RB.Unrolled;
      var ok := connectionStateMap.Emplace(packetNumber,
        SentState(sentTime, bytes, totalBytesSentAtLastAckedPacket, lastAckedPacketSentTime, lastAckedPacketAckTime,
                  isAppLimited, totalBytesSent, totalBytesAcked, totalBytesLost, bytesInFlight + bytes));
    }

    /** Counts a packet to be retransmitted if lost, and remembers it. */
    method Track(sentTime: nat, packetNumber: nat, bytes: nat, bytesInFlight: int)
      requires connectionStateMap.Valid() && a0Candidates.Valid()
      requires connectionStateMap.entries as object != a0Candidates
      requires connectionStateMap.entries.ring as object != a0Candidates.ring
      requires connectionStateMap.entries.zero.entry == NO_STATE
      modifies this, connectionStateMap, connectionStateMap.entries, connectionStateMap.entries.ring, a0Candidates,
                a0Candidates.ring
      ensures connectionStateMap.Valid() && a0Candidates.Valid()
      ensures connectionStateMap.entries.ring == old(connectionStateMap.entries.ring) ||
                fresh(connectionStateMap.entries.ring)
      ensures a0Candidates.ring == old(a0Candidates.ring) || fresh(a0Candidates.ring)
      ensures connectionStateMap.entries.ring as object != a0Candidates.ring
      ensures View() == Tracked(old(View()), sentTime, packetNumber, bytes, bytesInFlight)
    {
      hide PresentCount, Queue.AsMap, Queue.Has, Queue.Valid, Queue.Last, RB.Unrolled, Reopened, Remembered;
      totalBytesSent := totalBytesSent + bytes;
      if bytesInFlight == 0 {
        Reopen(sentTime);
      }
      Remember(sentTime, packetNumber, bytes, bytesInFlight);
    }

    method OnPacketSent(sentTime: nat, packetNumber: nat, bytes: nat, bytesInFlight: int, isRetransmittable: bool)
      requires Valid()
      modifies this, Repr()
      ensures Valid() && fresh(Repr() - old(Repr()))
      ensures View() == PacketSent(old(View()), sentTime, packetNumber, bytes, bytesInFlight, isRetransmittable)
    {
      hide PresentCount, Queue.AsMap, Queue.Has, Queue.Valid, Queue.Last, RB.Unrolled, State.Inv, Tracked;
      SentKeepsInv(View(), sentTime, packetNumber, bytes, bytesInFlight, isRetransmittable);
      lastSentPacket := packetNumber;
      if isRetransmittable {
        Track(sentTime, packetNumber, bytes, bytesInFlight);
      }
    }

    /** chooseA0Point: the candidate to measure from; candidates before it are discarded. */
    method ChooseA0Point(totalBytesAcked: nat) returns (a0: Option<AckPoint>)
      requires a0Candidates.Valid()
      modifies a0Candidates, a0Candidates.ring
      ensures a0Candidates.Valid() && a0Candidates.ring == old(a0Candidates.ring)
      ensures var cs := old(a0Candidates.View());
              if cs == [] then a0 == None && a0Candidates.View() == cs
              else a0 == Some(Choice(cs, totalBytesAcked)) && a0Candidates.View() == Pruned(cs, totalBytesAcked)
    {
      hide RB.Unrolled, PresentCount, Queue.AsMap, Queue.Valid, Queue.Has, Sorted;
      ghost var cs := a0Candidates.View();
      if a0Candidates.Empty() {
        return None;
      }
      if a0Candidates.Len() == 1 {
        return Some(a0Candidates.Front());
      }
      var i := 1;
      while i < a0Candidates.Len()
        invariant 1 <= i <= |cs|
        invariant a0Candidates.Valid() && a0Candidates.ring == old(a0Candidates.ring) && a0Candidates.View() == cs
        invariant ChoiceFrom(cs, i, totalBytesAcked) == ChoiceFrom(cs, 1, totalBytesAcked)
      {
        if a0Candidates.At(i).totalBytesAcked > totalBytesAcked {
          a0 := Some(a0Candidates.At(i - 1));
          if i > 1 {
            PopCandidates(i - 1);
          }
          return;
        }
        i := i + 1;
      }
      a0 := Some(a0Candidates.Back());
      PopWhileShrinking();
    }

    /** Pops candidates, reading the length again for every pop. */
    method PopWhileShrinking()
      requires a0Candidates.Valid() && a0Candidates.View() != []
      modifies a0Candidates, a0Candidates.ring
      ensures a0Candidates.Valid() && a0Candidates.ring == old(a0Candidates.ring)
      ensures var cs := old(a0Candidates.View()); a0Candidates.View() == cs[PopsFrom(0, |cs|)..]
    {
      hide RB.Unrolled;
      ghost var cs := a0Candidates.View();
      var k := 0;
      while k < a0Candidates.Len() - 1
        invariant 0 <= k < |cs|
        invariant a0Candidates.Valid() && a0Candidates.ring == old(a0Candidates.ring) && a0Candidates.View() == cs[k..]
        invariant k + PopsFrom(k, |cs| - k) == PopsFrom(0, |cs|)
        decreases |cs| - k
      {
        var dropped := a0Candidates.PopFront();
        assert cs[k..] == [cs[k]] + cs[k + 1..];
        k := k + 1;
      }
    }

    method PopCandidates(n: nat)
      requires a0Candidates.Valid() && n <= |a0Candidates.View()|
      modifies a0Candidates, a0Candidates.ring
      ensures a0Candidates.Valid() && a0Candidates.ring == old(a0Candidates.ring)
      ensures a0Candidates.View() == old(a0Candidates.View())[n..]
    {
      hide RB.Unrolled;
      ghost var cs := a0Candidates.View();
      for j := 0 to n
        invariant a0Candidates.Valid() && a0Candidates.ring == old(a0Candidates.ring) && a0Candidates.View() == cs[j..]
      {
        var dropped := a0Candidates.PopFront();
        assert cs[j..] == [cs[j]] + cs[j + 1..];
      }
    }

    /** The counters and ack points after an acknowledged packet, before its sample. */
    method CountAcked(ackTime: nat, packetNumber: int, p: SentState)
      requires connectionStateMap.Valid() && a0Candidates.Valid()
      modifies this
      ensures connectionStateMap.Valid() && a0Candidates.Valid()
      ensures View() == Acknowledged(old(View()), ackTime, packetNumber, p)
    {
      hide PresentCount, Queue.Valid, RB.Unrolled, RecentAckPoints.Update;
      SetLastAcked(ackTime, packetNumber, p);
      if overestimateAvoidance {
        recentAckPoints := recentAckPoints.Update(ackTime, totalBytesAcked);
      }
      LeaveAppLimited(packetNumber);
    }

    method SetLastAcked(ackTime: nat, packetNumber: int, p: SentState)
      modifies `lastAckedPacket, `totalBytesAcked, `totalBytesSentAtLastAckedPacket, `lastAckedPacketSentTime,
                `lastAckedPacketAckTime
      ensures lastAckedPacket == packetNumber && totalBytesAcked == old(totalBytesAcked) + p.size
      ensures totalBytesSentAtLastAckedPacket == p.totalBytesSent
      ensures lastAckedPacketSentTime == p.sentTime && lastAckedPacketAckTime == ackTime
    {
      lastAckedPacket := packetNumber;
      totalBytesAcked := totalBytesAcked + p.size;
      totalBytesSentAtLastAckedPacket := p.totalBytesSent;
      lastAckedPacketSentTime := p.sentTime;
      lastAckedPacketAckTime := ackTime;
    }

    /** The app-limited phase ends with a packet sent after it. */
    method LeaveAppLimited(packetNumber: int)
      modifies `isAppLimited
      ensures isAppLimited == (old(isAppLimited) && endOfAppLimitedPhase != INVALID_PACKET_NUMBER &&
                packetNumber <= endOfAppLimitedPhase)
    {
      if isAppLimited {
        if endOfAppLimitedPhase == INVALID_PACKET_NUMBER || packetNumber > endOfAppLimitedPhase {
          isAppLimited := false;
        }
      }
    }

    function Lookup(packetNumber: int): (r: Option<SentState>)
      reads this, Repr(), connectionStateMap.entries, a0Candidates
      requires Valid()
      ensures r == View().Packet(packetNumber)
    {
      var r := connectionStateMap.GetEntry(packetNumber);
      assert View().packets.Has(packetNumber) <==> packetNumber in View().packets.AsMap();
      r
    }

    /** onPacketAcknowledged: one acknowledged packet's sample. */
    method OnPacketAcknowledged(ackTime: nat, packetNumber: int) returns (sample: Sample)
      requires Valid()
      modifies this, Repr()
      ensures Valid() && Repr() == old(Repr())
      ensures (View(), sample) == PacketAcked(old(View()), ackTime, packetNumber)
    {
      hide State.Inv, PresentCount, Queue.AsMap, Queue.Valid, Queue.Has, RB.Unrolled, BandwidthFromDelta, Choice,
          Pruned, RecentAckPoints.Update;
      ghost var s := View();
      AckedKeepsInv(s, ackTime, packetNumber);
      var entry := Lookup(packetNumber);
      if entry.None? {
        lastAckedPacket := packetNumber;
        return NO_SAMPLE;
      }
      var p := entry.value;
      PacketIsOk(s, packetNumber);
      CountAcked(ackTime, packetNumber, p);
      if p.lastAckedPacketSentTime == 0 {
        return NO_SAMPLE;
      }
      var sendRate := INF_BANDWIDTH;
      if p.sentTime > p.lastAckedPacketSentTime {
        sendRate := BandwidthFromDelta(p.totalBytesSent - p.totalBytesSentAtLastAckedPacket,
                                       p.sentTime - p.lastAckedPacketSentTime);
      }
      var a0 := AckPoint(p.lastAckedPacketAckTime, p.totalBytesAcked);
      if overestimateAvoidance {
        var chosen := ChooseA0Point(p.totalBytesAcked);
        if chosen.Some? {
          a0 := chosen.value;
        }
      }
      if ackTime <= a0.ackTime {
        return NO_SAMPLE;
      }
      assert a0 == A0Point(Acknowledged(s, ackTime, packetNumber, p), p);
      A0NotBeyond(s, ackTime, packetNumber);
      var ackRate := BandwidthFromDelta(totalBytesAcked - a0.totalBytesAcked, ackTime - a0.ackTime);
      return Sample(Min(sendRate, ackRate), ackTime - p.sentTime, sendRate, Some(p));
    }

    method OnPacketLost(packetNumber: int, bytesLost: nat) returns (known: Option<SentState>)
      requires Valid()
      modifies this
      ensures Valid()
      ensures known == old(View()).Packet(packetNumber)
      ensures View() == old(View()).(totalBytesLost := old(View()).totalBytesLost + bytesLost)
    {
      hide PresentCount, Queue.AsMap, Queue.Valid, RB.Unrolled, PacketsOk, PointsOk;
      known := Lookup(packetNumber);
      totalBytesLost := totalBytesLost + bytesLost;
    }

    method OnPacketNeutered(packetNumber: nat)
      requires Valid()
      modifies this, Repr()
      ensures Valid() && Repr() == old(Repr()) && View() == Step(old(View()), Neuter(packetNumber))
    {
      hide PresentCount, Queue.Valid, RB.Unrolled, State.Inv, Removed;
      StepKeepsInv(View(), Neuter(packetNumber));
      assert View().packets.Has(packetNumber) <==> packetNumber in View().packets.AsMap();
      var removed := connectionStateMap.Remove(packetNumber);
      if removed.Some? {
        totalBytesNeutered := totalBytesNeutered + removed.value.size;
      }
    }

    method OnAppLimited()
      requires Valid()
      modifies this
      ensures Valid() && View() == Step(old(View()), AppLimit)
    {
      hide PresentCount, Queue.AsMap, Queue.Valid, RB.Unrolled, PacketsOk, PointsOk;
      isAppLimited := true;
      endOfAppLimitedPhase := lastSentPacket;
    }

    method RemoveObsoletePackets(leastUnacked: int)
      requires Valid()
      modifies this, Repr()
      ensures Valid() && Repr() == old(Repr()) && View() == Step(old(View()), RemoveObsolete(leastUnacked))
    {
      hide PresentCount, Queue.AsMap, Queue.Valid, RB.Unrolled, State.Inv, RemovedUpTo;
      StepKeepsInv(View(), RemoveObsolete(leastUnacked));
      connectionStateMap.RemoveUpTo(leastUnacked);
    }

    method OnAckEventEnd(bandwidthEstimate: nat, isNewMaxBandwidth: bool, roundTripCount: nat) returns (extraAcked: nat)
      requires Valid()
      modifies this, Repr()
      ensures Valid() && fresh(Repr() - old(Repr()))
      ensures (View(), extraAcked) == AckEventEnd(old(View()), bandwidthEstimate, isNewMaxBandwidth, roundTripCount)
    {
      hide PresentCount, Queue.AsMap, Queue.Valid, RB.Unrolled, PacketsOk, PointsOk, TrackerUpdated;
      AckEventEndKeepsInv(View(), bandwidthEstimate, isNewMaxBandwidth, roundTripCount);
      var newlyAckedBytes := totalBytesAcked - totalBytesAckedAfterLastAckEvent;
      if newlyAckedBytes == 0 {
        return 0;
      }
      totalBytesAckedAfterLastAckEvent := totalBytesAcked;
      extraAcked := maxAckHeightTracker.Update(bandwidthEstimate, isNewMaxBandwidth, roundTripCount, lastSentPacket,
          lastAckedPacket, lastAckedPacketAckTime, newlyAckedBytes);
      if overestimateAvoidance && extraAcked == 0 {
        a0Candidates.PushBack(recentAckPoints.LessRecent());
      }
    }

    method LoseAll(lostPackets: seq<Lost>) returns (last: Option<SentState>)
      requires Valid()
      modifies this
      ensures Valid() && (View(), last) == SamplerState.LoseAll(old(View()), lostPackets, None)
    {
      hide State.Inv, PresentCount, Queue.AsMap, Queue.Valid, Queue.Has, RB.Unrolled;
      last := None;
      for i := 0 to |lostPackets|
        invariant Valid()
        invariant SamplerState.LoseAll(View(), lostPackets[i..], last)
               == SamplerState.LoseAll(old(View()), lostPackets, None)
      {
        var p := lostPackets[i];
        var known := OnPacketLost(p.number, p.bytes);
        if known.Some? {
          last := known;
        }
        assert lostPackets[i..][1..] == lostPackets[i + 1..];
      }
      assert lostPackets[|lostPackets|..] == [];
    }

    method AckAll(ackTime: nat, ackedPackets: seq<int>) returns (e: EventSample, maxSendRate: nat)
      requires Valid()
      modifies this, Repr()
      ensures Valid() && Repr() == old(Repr())
      ensures (View(), e, maxSendRate) == SamplerState.AckAll(old(View()), ackTime, ackedPackets, NO_EVENT, 0)
    {
      hide State.Inv, PresentCount, Queue.AsMap, Queue.Valid, Queue.Has, RB.Unrolled, PacketAcked, WithSample;
      e, maxSendRate := NO_EVENT, 0;
      for i := 0 to |ackedPackets|
        invariant Valid() && Repr() == old(Repr())
        invariant SamplerState.AckAll(View(), ackTime, ackedPackets[i..], e, maxSendRate)
               == SamplerState.AckAll(old(View()), ackTime, ackedPackets, NO_EVENT, 0)
      {
        SampleStateIsOk(View(), ackTime, ackedPackets[i]);
        var sample := OnPacketAcknowledged(ackTime, ackedPackets[i]);
        assert ackedPackets[i..][1..] == ackedPackets[i + 1..];
        if sample.stateAtSend.Some? {
          e := WithSample(e, sample, totalBytesAcked);
          if sample.sendRate != INF_BANDWIDTH {
            maxSendRate := Max(maxSendRate, sample.sendRate);
          }
        }
      }
      assert ackedPackets[|ackedPackets|..] == [];
    }

    /** One ack or loss event: counts it, samples the acknowledged packets, and reports. */
    method OnCongestionEvent(ackTime: nat, ackedPackets: seq<int>, lostPackets: seq<Lost>, maxBandwidth: nat,
        upperBound: nat, limitBySendRate: bool, roundTripCount: nat)
      returns (e: EventSample)
      requires Valid()
      modifies this, Repr()
      ensures Valid() && fresh(Repr() - old(Repr()))
      ensures (View(), e) == CongestionEvent(old(View()), ackTime, ackedPackets, lostPackets, maxBandwidth,
                upperBound, limitBySendRate, roundTripCount)
    {
      hide State.Inv, PresentCount, Queue.AsMap, Queue.Valid, Queue.Has, RB.Unrolled, SamplerState.AckAll,
          SamplerState.LoseAll, AckEventEnd;
      KnownLossIsALoss(View(), lostPackets, None);
      var lastLost := LoseAll(lostPackets);
      if |ackedPackets| == 0 {
        return NO_EVENT.(lastPacketSendState := lastLost);
      }
      var maxSendRate;
      e, maxSendRate := AckAll(ackTime, ackedPackets);
      var isNewMaxBandwidth := e.sampleMaxBandwidth > maxBandwidth;
      var best := Max(maxBandwidth, e.sampleMaxBandwidth);
      if limitBySendRate {
        best := Max(best, maxSendRate);
      }
      var extraAcked := OnAckEventEnd(Min(upperBound, best), isNewMaxBandwidth, roundTripCount);
      e := e.(lastPacketSendState := LastSendState(lastLost, e.lastPacketSendState, ackedPackets, lostPackets),
          extraAcked := extraAcked);
    }
  }

  /** The point an ack rate is measured from has no more acknowledged bytes than now. */
  lemma A0NotBeyond(s: State, ackTime: nat, n: int)
    requires s.Inv() && s.Packet(n).Some?
    ensures var p := s.Packet(n).value;
            var s1 := Acknowledged(s, ackTime, n, p);
            A0Point(s1, p).totalBytesAcked <= s1.totalBytesAcked
  {
    PacketIsOk(s, n);
  }
}
