/** What a bandwidth sample is: the smaller of two slopes, between points given by the sends and
    acknowledgements of a run (internal/congestion/bbr/bandwidth_sampler.go). */
module SampleLaws {
  import opened Arithmetic
  import Pow2
  import opened Wrappers
  import opened PacketQueue
  import opened SamplerState
  import opened SamplerHistory

  // ----- Slopes

  /** r is the rate of `bytes` over `time` nanoseconds in bit/s, rounded down to a multiple of 8. */
  predicate IsSlope(r: int, bytes: int, time: int) {
    r * time <= 8_000_000_000 * bytes < (r + 8) * time
  }

  /** The 64-bit arithmetic does not wrap around for a rate. */
  predicate NoOverflow(bytes: int, time: int) {
    && 0 <= bytes && bytes * 1_000_000_000 < 0x1_0000_0000_0000_0000
    && (time > 0 ==> 8_000_000_000 * bytes < 0x1_0000_0000_0000_0000 * time)
  }

  lemma RateIsSlope(bytes: int, time: int)
    requires time > 0 && NoOverflow(bytes, time)
    ensures IsSlope(BandwidthFromDelta(bytes, time), bytes, time)
    ensures BandwidthFromDelta(bytes, time) < INF_BANDWIDTH
  {
    var x := bytes * SECOND;
    var q, r := x / time, x % time;
    assert x == time * q + r;
    assert time * q == q * time;
    assert 8 * q * time <= 8 * x;
    assert (8 * q + 8) * time == 8 * (q * time) + 8 * time;
    if 8 * q >= UINT64 {
      MulMonotone(UINT64, 8 * q, time);
    }
    assert BandwidthFromDelta(bytes, time) == 8 * q;
    assert 8 * q % 8 == 0;
  }

  /** Beyond that it does: 2^55 bytes more, 10^9 being a multiple of 2^9, give the same rate. */
  lemma RateWrapsAround(bytes: nat, time: nat)
    requires time > 0
    ensures BandwidthFromDelta(bytes + 0x80_0000_0000_0000, time) == BandwidthFromDelta(bytes, time)
  {
    var x: nat := bytes * SECOND;
    assert (bytes + 0x80_0000_0000_0000) * SECOND == x + 1_953_125 * UINT64;
    Multiples(x, 1_953_125);
  }

  lemma Multiples(x: nat, k: nat)
    ensures (x + k * UINT64) % UINT64 == x % UINT64
  {
    var q, r := x / UINT64, x % UINT64;
    Pow2.DivModUnique(x + k * UINT64, UINT64, q + k, r);
  }

  // ----- Where a packet's rates are measured from

  /** The candidate for a packet: the last one before the first, after the first one, with more
      bytes acked than the packet saw. */
  predicate IsCandidate(cs: seq<AckPoint>, k: nat, totalBytesAcked: nat) {
    && k < |cs|
    && (forall j :: 1 <= j <= k ==> cs[j].totalBytesAcked <= totalBytesAcked)
    && (k + 1 < |cs| ==> cs[k + 1].totalBytesAcked > totalBytesAcked)
  }

  /** The ack point for a packet: without overestimate avoidance the last ack before the packet
      was sent, with it a candidate. */
  predicate IsFrom(s: State, p: SentState, a: AckPoint) {
    if s.overestimateAvoidance && s.candidates != [] then
      exists k :: 0 <= k < |s.candidates| && IsCandidate(s.candidates, k, p.totalBytesAcked) && a == s.candidates[k]
    else a == AckPoint(p.lastAckedPacketAckTime, p.totalBytesAcked)
  }

  /** Nothing overflows in the sample of packet p. */
  predicate Measurable(p: SentState, a: AckPoint, acked: nat, ackTime: nat) {
    && NoOverflow(p.totalBytesSent - p.totalBytesSentAtLastAckedPacket, p.sentTime - p.lastAckedPacketSentTime)
    && NoOverflow(acked - a.totalBytesAcked, ackTime - a.ackTime)
  }

  /** The sample of an acknowledged packet: there is one if the packet was sent after a first
      point to measure from, and acknowledged after the ack point. Its bandwidth is the slope
      of the acks or, if the packet was sent later than the one acked last before, the slope of
      the sends, whichever is smaller. */
  predicate IsSample(s: State, p: SentState, a: AckPoint, acked: nat, ackTime: nat, x: Sample) {
    if p.lastAckedPacketSentTime == 0 || ackTime <= a.ackTime then x.stateAtSend == None && x.bandwidth == 0
    else
      && x.stateAtSend == Some(p) && x.rtt == ackTime - p.sentTime
      && (Measurable(p, a, acked, ackTime) ==>
            var sent, time := p.totalBytesSent - p.totalBytesSentAtLastAckedPacket,
                p.sentTime - p.lastAckedPacketSentTime;
            && x.bandwidth * (ackTime - a.ackTime) <= 8_000_000_000 * (acked - a.totalBytesAcked)
            && (time > 0 ==> x.bandwidth * time <= 8_000_000_000 * sent)
            && (IsSlope(x.bandwidth, acked - a.totalBytesAcked, ackTime - a.ackTime)
                || (time > 0 && IsSlope(x.bandwidth, sent, time)))
            && (if time > 0 then IsSlope(x.sendRate, sent, time) else x.sendRate == INF_BANDWIDTH))
  }

  lemma SampleIsSmallerSlope(s: State, ackTime: nat, n: int) returns (a: AckPoint)
    requires s.Inv()
    ensures var (s', x) := PacketAcked(s, ackTime, n);
            if s.Packet(n).None? then x == NO_SAMPLE
            else IsFrom(s, s.Packet(n).value, a) && IsSample(s, s.Packet(n).value, a, s'.totalBytesAcked, ackTime, x)
  {
    hide State.Inv, BandwidthFromDelta, Pruned, RecentAckPoints.Update;
    a := NO_POINT;
    if s.Packet(n).Some? {
      var p := s.Packet(n).value;
      a := A0Point(s, p);
      FromIs(s, p);
      SampleSlopes(s, ackTime, n, p, a);
    }
  }

  lemma FromIs(s: State, p: SentState)
    requires s.Inv()
    ensures IsFrom(s, p, A0Point(s, p))
  {
    hide State.Inv;
    if s.overestimateAvoidance && s.candidates != [] {
      ChoiceFromBounds(s.candidates, 1, p.totalBytesAcked);
      assert IsCandidate(s.candidates, ChoiceFrom(s.candidates, 1, p.totalBytesAcked), p.totalBytesAcked);
    }
  }

  /** What an acknowledged packet's sample consists of. */
  lemma SampleParts(s: State, ackTime: nat, n: int)
    requires s.Inv() && s.Packet(n).Some?
    ensures var p, (s', x) := s.Packet(n).value, PacketAcked(s, ackTime, n);
            var a := A0Point(s, p);
            if p.lastAckedPacketSentTime == 0 || ackTime <= a.ackTime then x == NO_SAMPLE
            else
              && p.totalBytesSentAtLastAckedPacket <= p.totalBytesSent && a.totalBytesAcked <= s'.totalBytesAcked
              && x == Sample(Min(SendRate(p), BandwidthFromDelta(s'.totalBytesAcked - a.totalBytesAcked,
                                                                 ackTime - a.ackTime)),
                             ackTime - p.sentTime, SendRate(p), Some(p))
  {
    hide PacketsOk, PointsOk, BandwidthFromDelta, Pruned, Choice, RecentAckPoints.Update, SendRate, A0Point;
    PacketIsOk(s, n);
    FromIsBelow(s, s.Packet(n).value);
    AckedKeepsInv(s, ackTime, n);
    FromIsKept(s, ackTime, n, s.Packet(n).value);
  }

  lemma FromIsBelow(s: State, p: SentState)
    requires s.Inv() && StateOk(p, s.totalBytesSent, s.totalBytesAcked)
    ensures A0Point(s, p).totalBytesAcked <= s.totalBytesAcked
  {
    hide PacketsOk;
  }

  lemma FromIsKept(s: State, ackTime: nat, n: int, p: SentState)
    ensures A0Point(Acknowledged(s, ackTime, n, p), p) == A0Point(s, p)
  {
    hide Choice, RecentAckPoints.Update;
  }

  lemma SampleSlopes(s: State, ackTime: nat, n: int, p: SentState, a: AckPoint)
    requires s.Inv() && s.Packet(n) == Some(p) && a == A0Point(s, p)
    ensures var (s', x) := PacketAcked(s, ackTime, n); IsSample(s, p, a, s'.totalBytesAcked, ackTime, x)
  {
    hide State.Inv, PacketAcked, BandwidthFromDelta, A0Point;
    SampleParts(s, ackTime, n);
    var acked := PacketAcked(s, ackTime, n).0.totalBytesAcked;
    if p.lastAckedPacketSentTime != 0 && ackTime > a.ackTime && Measurable(p, a, acked, ackTime) {
      RateIsSlope(acked - a.totalBytesAcked, ackTime - a.ackTime);
      var sent, time := p.totalBytesSent - p.totalBytesSentAtLastAckedPacket, p.sentTime - p.lastAckedPacketSentTime;
      var ackRate, x := BandwidthFromDelta(acked - a.totalBytesAcked, ackTime - a.ackTime),
          PacketAcked(s, ackTime, n).1;
      if time > 0 {
        RateIsSlope(sent, time);
        MulMonotone(x.bandwidth, SendRate(p), time);
      }
      MulMonotone(x.bandwidth, ackRate, ackTime - a.ackTime);
    }
  }

  // ----- The samples of an event

  /** A valid sample, and the bytes acked since its packet was sent. */
  datatype Item = Item(sample: Sample, inflight: int) {
    function Packet(): SentState
      requires sample.stateAtSend.Some?
    {
      sample.stateAtSend.value
    }
  }

  /** The valid samples of an event, in order. */
  function Items(s: State, ackTime: nat, acked: seq<int>): (items: seq<Item>)
    requires s.Inv()
    ensures forall x :: x in items ==> x.sample.stateAtSend.Some?
    decreases |acked|
  {
    if acked == [] then []
    else
      var (s', x) := PacketAcked(s, ackTime, acked[0]);
      AckedKeepsInv(s, ackTime, acked[0]);
      (if x.stateAtSend.None? then [] else [Item(x, s'.totalBytesAcked - x.stateAtSend.value.totalBytesAcked)])
      + Items(s', ackTime, acked[1..])
  }

  /** A report that has taken in samples: the largest bandwidth, with the flag of the first
      packet that reached it, the smallest RTT that is not zero, the largest number of bytes
      acked since a packet was sent, and the state of the last packet. */
  ghost predicate Reports(e': EventSample, e: EventSample, items: seq<Item>)
    requires forall x :: x in items ==> x.sample.stateAtSend.Some?
  {
    && (if e'.sampleMaxBandwidth > e.sampleMaxBandwidth then IsBest(e', items)
        else e'.sampleIsAppLimited == e.sampleIsAppLimited)
    && (e'.sampleRtt == e.sampleRtt || exists x :: x in items && x.sample.rtt == e'.sampleRtt != 0)
    && (e'.sampleMaxInflight == e.sampleMaxInflight || exists x :: x in items && x.inflight == e'.sampleMaxInflight)
    && e'.lastPacketSendState == (if items == [] then e.lastPacketSendState else Some(items[|items| - 1].Packet()))
    && IsBound(e', items)
    && e'.sampleMaxBandwidth >= e.sampleMaxBandwidth && e'.sampleRtt <= e.sampleRtt
    && e'.sampleMaxInflight >= e.sampleMaxInflight
  }

  ghost predicate IsBound(e: EventSample, items: seq<Item>) {
    forall x :: x in items ==>
      && x.sample.bandwidth <= e.sampleMaxBandwidth && x.inflight <= e.sampleMaxInflight
      && (x.sample.rtt != 0 ==> e.sampleRtt <= x.sample.rtt)
  }

  /** The bandwidth is that of a packet, and the flag that of the first such packet. */
  ghost predicate IsBest(e: EventSample, items: seq<Item>)
    requires forall x :: x in items ==> x.sample.stateAtSend.Some?
  {
    exists i :: 0 <= i < |items| && items[i].sample.bandwidth == e.sampleMaxBandwidth
      && items[i].Packet().isAppLimited == e.sampleIsAppLimited
      && forall j :: 0 <= j < i ==> items[j].sample.bandwidth < e.sampleMaxBandwidth
  }

  lemma ReportsNothing(e: EventSample)
    ensures Reports(e, e, [])
  {
  }

  /** Taking in one sample more. */
  lemma ReportsOneMore(e: EventSample, x: Item, acked: nat, e': EventSample, items: seq<Item>)
    requires x.sample.stateAtSend.Some? && (forall y :: y in items ==> y.sample.stateAtSend.Some?)
    requires x.Packet().totalBytesAcked <= acked && x.inflight == acked - x.Packet().totalBytesAcked
    requires Reports(e', WithSample(e, x.sample, acked), items)
    ensures Reports(e', e, [x] + items)
  {
    var all, e1 := [x] + items, WithSample(e, x.sample, acked);
    hide WithSample, IsBest, IsBound;
    WithSampleIs(e, x, acked);
    BestOneMore(e, x, e1, e', items);
    assert forall y :: y in all <==> y == x || y in items;
    BoundOneMore(e', x, items);
    if e1.sampleRtt != e.sampleRtt { assert x in all; }
    if e1.sampleMaxInflight != e.sampleMaxInflight { assert x in all; }
  }

  lemma WithSampleIs(e: EventSample, x: Item, acked: nat)
    requires x.sample.stateAtSend.Some?
    requires x.Packet().totalBytesAcked <= acked && x.inflight == acked - x.Packet().totalBytesAcked
    ensures var e1 := WithSample(e, x.sample, acked);
            && e1.lastPacketSendState == Some(x.Packet())
            && e1.sampleRtt == (if x.sample.rtt != 0 then Min(e.sampleRtt, x.sample.rtt) else e.sampleRtt)
            && e1.sampleMaxInflight == Max(e.sampleMaxInflight, x.inflight)
            && (if x.sample.bandwidth > e.sampleMaxBandwidth
                then e1.sampleMaxBandwidth == x.sample.bandwidth && e1.sampleIsAppLimited == x.Packet().isAppLimited
                else e1.sampleMaxBandwidth == e.sampleMaxBandwidth && e1.sampleIsAppLimited == e.sampleIsAppLimited)
  {
  }

  lemma BoundOneMore(e: EventSample, x: Item, items: seq<Item>)
    requires IsBound(e, items)
    requires x.sample.bandwidth <= e.sampleMaxBandwidth && x.inflight <= e.sampleMaxInflight
    requires x.sample.rtt != 0 ==> e.sampleRtt <= x.sample.rtt
    ensures IsBound(e, [x] + items)
  {
  }

  lemma BestOneMore(e: EventSample, x: Item, e1: EventSample, e': EventSample, items: seq<Item>)
    requires x.sample.stateAtSend.Some? && (forall y :: y in items ==> y.sample.stateAtSend.Some?)
    requires if x.sample.bandwidth > e.sampleMaxBandwidth
             then e1.sampleMaxBandwidth == x.sample.bandwidth && e1.sampleIsAppLimited == x.Packet().isAppLimited
             else e1.sampleMaxBandwidth == e.sampleMaxBandwidth && e1.sampleIsAppLimited == e.sampleIsAppLimited
    requires e'.sampleMaxBandwidth >= e1.sampleMaxBandwidth
    requires if e'.sampleMaxBandwidth > e1.sampleMaxBandwidth then IsBest(e', items)
             else e'.sampleIsAppLimited == e1.sampleIsAppLimited
    ensures if e'.sampleMaxBandwidth > e.sampleMaxBandwidth then IsBest(e', [x] + items)
            else e'.sampleIsAppLimited == e.sampleIsAppLimited
  {
    var all := [x] + items;
    if e'.sampleMaxBandwidth > e1.sampleMaxBandwidth {
      var i :| 0 <= i < |items| && items[i].sample.bandwidth == e'.sampleMaxBandwidth
        && items[i].Packet().isAppLimited == e'.sampleIsAppLimited
        && forall j :: 0 <= j < i ==> items[j].sample.bandwidth < e'.sampleMaxBandwidth;
      assert all[i + 1] == items[i];
      forall j | 0 <= j < i + 1 ensures all[j].sample.bandwidth < e'.sampleMaxBandwidth {
        if j > 0 { assert all[j] == items[j - 1]; }
      }
    } else if e1.sampleMaxBandwidth > e.sampleMaxBandwidth {
      assert all[0] == x;
    }
  }

  /** An event's report has taken in exactly the valid samples of its packets. */
  lemma {:induction false} AcksReport(s: State, ackTime: nat, acked: seq<int>, e: EventSample, rate: nat)
    requires s.Inv()
    ensures Reports(AckAll(s, ackTime, acked, e, rate).1, e, Items(s, ackTime, acked))
    decreases |acked|
  {
    hide State.Inv, PacketAcked, WithSample, Reports;
    if acked == [] {
      ReportsNothing(e);
    } else {
      var (s', x) := PacketAcked(s, ackTime, acked[0]);
      AckedKeepsInv(s, ackTime, acked[0]);
      if x.stateAtSend.None? {
        AcksReport(s', ackTime, acked[1..], e, rate);
        assert [] + Items(s', ackTime, acked[1..]) == Items(s', ackTime, acked[1..]);
      } else {
        SampleStateIsOk(s, ackTime, acked[0]);
        var rate' := if x.sendRate != INF_BANDWIDTH then Max(rate, x.sendRate) else rate;
        var item, e1 := Item(x, s'.totalBytesAcked - x.stateAtSend.value.totalBytesAcked),
            WithSample(e, x, s'.totalBytesAcked);
        AcksReport(s', ackTime, acked[1..], e1, rate');
        ReportsOneMore(e, item, s'.totalBytesAcked, AckAll(s', ackTime, acked[1..], e1, rate').1,
                       Items(s', ackTime, acked[1..]));
      }
    }
  }

  /** Every sample of an event is that of one of its packets j, taken when the packets before it
      have been acknowledged; candidates may have been discarded from the front by then. */
  lemma {:induction false} ItemIsSample(s: State, ackTime: nat, acked: seq<int>, i: nat)
    returns (j: nat, r: State, d: nat)
    requires s.Inv() && i < |Items(s, ackTime, acked)|
    ensures j < |acked| && r.Inv() && r.packets == s.packets && r.overestimateAvoidance == s.overestimateAvoidance
    ensures d <= |s.candidates| && r.candidates == s.candidates[d..]
    ensures r.totalBytesAcked == s.totalBytesAcked + KnownBytes(s.packets.AsMap(), acked[..j])
    ensures Items(s, ackTime, acked)[i].sample == PacketAcked(r, ackTime, acked[j]).1
    decreases |acked|
  {
    hide State.Inv, PacketAcked, Queue.AsMap;
    var (s', x) := PacketAcked(s, ackTime, acked[0]);
    AckedKeepsInv(s, ackTime, acked[0]);
    AckIs(s, ackTime, acked[0]);
    var d0 := AckDiscards(s, ackTime, acked[0]);
    if x.stateAtSend.Some? && i == 0 {
      j, r, d := 0, s, 0;
      assert acked[..0] == [];
    } else {
      var j', r', d' := ItemIsSample(s', ackTime, acked[1..], if x.stateAtSend.Some? then i - 1 else i);
      j, r, d := j' + 1, r', d0 + d';
      assert acked[..j][1..] == acked[1..][..j'];
      assert [acked[0]][1..] == [];
      assert s.candidates[d0..][d'..] == s.candidates[d..];
    }
  }

  lemma AckDiscards(s: State, ackTime: nat, n: int) returns (d: nat)
    requires s.Inv()
    ensures var z := PacketAcked(s, ackTime, n).0;
            && z.overestimateAvoidance == s.overestimateAvoidance
            && d <= |s.candidates| && z.candidates == s.candidates[d..]
  {
    hide PacketsOk, PointsOk, Pruned, Choice, BandwidthFromDelta, SendRate, RecentAckPoints.Update;
    d := 0;
    if s.candidates != [] && s.Packet(n).Some? {
      var d' := PrunedIsSuffix(s.candidates, s.Packet(n).value.totalBytesAcked);
      if PacketAcked(s, ackTime, n).0.candidates != s.candidates { d := d'; }
    }
  }

  /** The state of the last remembered packet that is lost. */
  function LastLost(m: map<int, SentState>, lost: seq<Lost>): Option<SentState> {
    if lost == [] then None
    else if lost[|lost| - 1].number in m then Some(m[lost[|lost| - 1].number])
    else LastLost(m, lost[..|lost| - 1])
  }

  lemma {:induction false} LossesFind(s: State, lost: seq<Lost>, last: Option<SentState>)
    ensures var known := LastLost(s.packets.AsMap(), lost);
            LoseAll(s, lost, last).1 == if known.Some? then known else last
    decreases |lost|
  {
    hide Queue.AsMap;
    if lost != [] {
      var known := s.Packet(lost[0].number);
      PacketInMap(s, lost[0].number);
      LossesFind(s.(totalBytesLost := s.totalBytesLost + lost[0].bytes), lost[1..],
                 if known.Some? then known else last);
      FirstLost(s.packets.AsMap(), lost);
    }
  }

  lemma {:induction false} FirstLost(m: map<int, SentState>, lost: seq<Lost>)
    requires lost != []
    ensures LastLost(m, lost) ==
              if LastLost(m, lost[1..]).Some? then LastLost(m, lost[1..])
              else if lost[0].number in m then Some(m[lost[0].number]) else None
    decreases |lost|
  {
    if |lost| > 1 {
      FirstLost(m, lost[..|lost| - 1]);
      assert lost[..|lost| - 1][1..] == lost[1..][..|lost| - 2];
    } else {
      assert lost[..0] == [] && lost[1..] == [];
    }
  }

  /** What the report of an event with acknowledgements starts from. */
  function NothingYet(extraAcked: nat): EventSample {
    EventSample(0, false, 0x7fff_ffff_ffff_ffff, 0, None, extraAcked)
  }

  /** The report of an event: what its packets' samples say, and the state of its last packet,
      lost or acknowledged with a sample, by number if there are both. */
  lemma EventReports(s: State, ackTime: nat, acked: seq<int>, lost: seq<Lost>, maxBandwidth: nat, upperBound: nat,
                     limitBySendRate: bool, round: nat)
    requires s.Inv() && acked != []
    ensures s.(totalBytesLost := s.totalBytesLost + LostBytes(lost)).Inv()
    ensures var e := CongestionEvent(s, ackTime, acked, lost, maxBandwidth, upperBound, limitBySendRate, round).1;
            var items := Items(s.(totalBytesLost := s.totalBytesLost + LostBytes(lost)), ackTime, acked);
            var lastAcked := if items == [] then None else Some(items[|items| - 1].Packet());
            var lastLost := LastLost(s.packets.AsMap(), lost);
            && Reports(e.(lastPacketSendState := lastAcked), NothingYet(e.extraAcked), items)
            && e.lastPacketSendState ==
               if lastAcked.None? || (lastLost.Some? && lost != [] && lost[|lost| - 1].number > acked[|acked| - 1])
               then lastLost else lastAcked
  {
    hide PacketsOk, PointsOk, AckEventEnd, AckAll, Items, Queue.AsMap, IsBest, IsBound;
    LossesAre(s, lost, None);
    LossesFind(s, lost, None);
    KnownLossIsALoss(s, lost, None);
    var s1 := s.(totalBytesLost := s.totalBytesLost + LostBytes(lost));
    AcksReport(s1, ackTime, acked, NO_EVENT, 0);
    ReportsExtra(s1, ackTime, acked, lost, AckAll(s1, ackTime, acked, NO_EVENT, 0).1,
        CongestionEvent(s, ackTime, acked, lost, maxBandwidth, upperBound, limitBySendRate, round).1.extraAcked);
  }

  lemma ReportsExtra(s: State, ackTime: nat, acked: seq<int>, lost: seq<Lost>, e: EventSample, extra: nat)
    requires s.Inv() && Reports(e, NO_EVENT, Items(s, ackTime, acked))
    ensures Reports(e.(extraAcked := extra), NothingYet(extra), Items(s, ackTime, acked))
  {
    hide Items, State.Inv;
  }

  /** An event without acknowledgements reports no bandwidth, no RTT, and its last known loss. */
  lemma LossesReport(s: State, ackTime: nat, lost: seq<Lost>, maxBandwidth: nat, upperBound: nat,
                     limitBySendRate: bool, round: nat)
    requires s.Inv()
    ensures CongestionEvent(s, ackTime, [], lost, maxBandwidth, upperBound, limitBySendRate, round).1
         == NothingYet(0).(lastPacketSendState := LastLost(s.packets.AsMap(), lost))
  {
    hide PacketsOk, PointsOk, Queue.AsMap, LoseAll;
    LossesFind(s, lost, None);
  }

  /** The bandwidth an event reports, if it is not zero, is that of the sample of one of its
      packets j: the smaller slope. Every other sample is at most that. */
  lemma EventBandwidthIsSlope(s: State, ackTime: nat, acked: seq<int>, lost: seq<Lost>, maxBandwidth: nat,
                              upperBound: nat, limitBySendRate: bool, round: nat)
    returns (j: nat, r: State, a: AckPoint, x: Sample)
    requires s.Inv()
    requires var e := CongestionEvent(s, ackTime, acked, lost, maxBandwidth, upperBound, limitBySendRate, round).1;
             e.sampleMaxBandwidth > 0
    ensures var e := CongestionEvent(s, ackTime, acked, lost, maxBandwidth, upperBound, limitBySendRate, round).1;
            var m := s.packets.AsMap();
            && j < |acked| && acked[j] in m && x.bandwidth == e.sampleMaxBandwidth
            && m[acked[j]].isAppLimited == e.sampleIsAppLimited
            && IsFrom(r, m[acked[j]], a)
            && IsSample(r, m[acked[j]], a, s.totalBytesAcked + KnownBytes(m, acked[..j + 1]), ackTime, x)
    ensures r.overestimateAvoidance == s.overestimateAvoidance
    ensures exists d :: 0 <= d <= |s.candidates| && r.candidates == s.candidates[d..]
  {
    hide State.Inv, PacketAcked, CongestionEvent, Items, IsFrom, IsSample, Queue.AsMap;
    if acked == [] {
      LossesReport(s, ackTime, lost, maxBandwidth, upperBound, limitBySendRate, round);
      assert false;
    } else {
      EventReports(s, ackTime, acked, lost, maxBandwidth, upperBound, limitBySendRate, round);
      var e := CongestionEvent(s, ackTime, acked, lost, maxBandwidth, upperBound, limitBySendRate, round).1;
      var s1 := s.(totalBytesLost := s.totalBytesLost + LostBytes(lost));
      var items := Items(s1, ackTime, acked);
      var i :| 0 <= i < |items| && items[i].sample.bandwidth == e.sampleMaxBandwidth
        && items[i].Packet().isAppLimited == e.sampleIsAppLimited;
      x := items[i].sample;
      var d: nat;
      j, r, d := ItemIsSample(s1, ackTime, acked, i);
      assert r.candidates == s.candidates[d..];
      a := SampleIsSmallerSlope(r, ackTime, acked[j]);
      OneSampleIs(r, ackTime, acked, j);
    }
  }

  /** The packet of a sample, and the bytes acked with it. */
  lemma OneSampleIs(r: State, ackTime: nat, acked: seq<int>, j: nat)
    requires r.Inv() && j < |acked| && PacketAcked(r, ackTime, acked[j]).1.stateAtSend.Some?
    ensures var m, (z, x) := r.packets.AsMap(), PacketAcked(r, ackTime, acked[j]);
            && acked[j] in m && r.Packet(acked[j]) == Some(m[acked[j]]) && x.stateAtSend == r.Packet(acked[j])
            && z.totalBytesAcked + KnownBytes(m, acked[..j]) == r.totalBytesAcked + KnownBytes(m, acked[..j + 1])
  {
    hide State.Inv, PacketAcked, Queue.AsMap;
    SampleStateIsOk(r, ackTime, acked[j]);
    PacketInMap(r, acked[j]);
    AckIs(r, ackTime, acked[j]);
    assert acked[..j + 1] == acked[..j] + [acked[j]];
    KnownBytesConcat(r.packets.AsMap(), acked[..j], [acked[j]]);
  }

  lemma {:induction false} KnownBytesConcat(m: map<int, SentState>, a: seq<int>, b: seq<int>)
    ensures KnownBytes(m, a + b) == KnownBytes(m, a) + KnownBytes(m, b)
  {
    if a == [] {
      assert a + b == b;
    } else {
      assert (a + b)[1..] == a[1..] + b;
      KnownBytesConcat(m, a[1..], b);
    }
  }
}
