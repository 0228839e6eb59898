/** The bandwidth sampler as a value, step by step
    (internal/congestion/bbr/bandwidth_sampler.go, internal/congestion/bbr/bandwidth.go). */
module SamplerState {
  import opened Arithmetic
  import opened Wrappers
  import opened PacketQueue
  import AH = AckHeight

  const SECOND := 1_000_000_000
  const UINT64 := 0x1_0000_0000_0000_0000
  const INF_BANDWIDTH := UINT64 - 1
  const INF_RTT := 0x7fff_ffff_ffff_ffff

  /** Bits per second from bytes over nanoseconds, in 64-bit unsigned arithmetic. The byte
      count must not be negative and the time must be positive. */
  function BandwidthFromDelta(bytes: int, delta: int): (r: nat)
    requires bytes >= 0 && delta > 0
    ensures r % 8 == 0 && r < UINT64
  {
    var perSecond := bytes * SECOND % UINT64 / delta;
    Times8(perSecond)
  }

  function Times8(x: nat): (r: nat)
    ensures r % 8 == 0 && r < UINT64
    ensures 8 * x < UINT64 ==> r == 8 * x
  {
    8 * x % UINT64
  }

  // ----- Ack points

  datatype AckPoint = AckPoint(ackTime: nat, totalBytesAcked: nat)

  /** The two most recent ack points at distinct times. */
  datatype RecentAckPoints = RecentAckPoints(older: AckPoint, newer: AckPoint) {
    function Update(ackTime: nat, totalBytesAcked: nat): RecentAckPoints {
      if ackTime < newer.ackTime then RecentAckPoints(older, AckPoint(ackTime, totalBytesAcked))
      else if ackTime > newer.ackTime then RecentAckPoints(newer, AckPoint(ackTime, totalBytesAcked))
      else RecentAckPoints(older, AckPoint(newer.ackTime, totalBytesAcked))
    }

    function LessRecent(): AckPoint {
      if older.totalBytesAcked != 0 then older else newer
    }
  }

  const NO_POINT := AckPoint(0, 0)
  const NO_POINTS := RecentAckPoints(NO_POINT, NO_POINT)

  // ----- Choosing the point to measure from

  /** chooseA0Point's search: the last candidate before the first one, from index i on,
      with more acknowledged bytes; the last one if there is none. */
  function ChoiceFrom(cs: seq<AckPoint>, i: nat, totalBytesAcked: nat): (k: nat)
    requires 1 <= i <= |cs|
    ensures i - 1 <= k < |cs|
    decreases |cs| - i
  {
    if i == |cs| then i - 1
    else if cs[i].totalBytesAcked > totalBytesAcked then i - 1
    else ChoiceFrom(cs, i + 1, totalBytesAcked)
  }

  /** The candidate a search over all of cs picks. */
  function Choice(cs: seq<AckPoint>, totalBytesAcked: nat): AckPoint
    requires cs != []
  {
    cs[ChoiceFrom(cs, 1, totalBytesAcked)]
  }

  /** How many pops `for k := 0; k < len-1; k++` does when the length is read again after
      each pop: about half of them. */
  function PopsFrom(k: nat, len: nat): (n: nat)
    ensures n <= len && (k + 1 < len ==> n > 0)
    ensures len > 0 ==> n < len
    decreases len
  {
    if k < len - 1 then 1 + PopsFrom(k + 1, len - 1) else 0
  }

  /** The candidates left after a choice. */
  function Pruned(cs: seq<AckPoint>, totalBytesAcked: nat): (r: seq<AckPoint>)
    requires cs != []
    ensures r != []
  {
    var k := ChoiceFrom(cs, 1, totalBytesAcked);
    if |cs| == 1 then cs
    else if k + 1 < |cs| then cs[k..]
    else cs[PopsFrom(0, |cs|)..]
  }

  /** Pops while the index grows and the length shrinks are half of what lies between them. */
  lemma {:induction false} PopsAreHalf(k: nat, len: nat)
    requires k <= len
    ensures PopsFrom(k, len) == (len - k) / 2
    decreases len
  {
    if k < len - 1 { PopsAreHalf(k + 1, len - 1); }
  }

  /** What a choice leaves: the chosen candidate and those behind it, if one with more bytes is
      among these; else, of the candidates that all fit, the half at the end. */
  lemma WhatIsLeft(cs: seq<AckPoint>, totalBytesAcked: nat)
    requires cs != []
    ensures var last, r := cs[|cs| - 1], Pruned(cs, totalBytesAcked);
            if |cs| > 1 && last.totalBytesAcked > totalBytesAcked && Sorted(cs)
            then exists k :: 0 <= k < |cs| && r == cs[k..] && r[0] == Choice(cs, totalBytesAcked)
            else last.totalBytesAcked <= totalBytesAcked && Sorted(cs) ==> r == cs[|cs| / 2..]
  {
    PopsAreHalf(0, |cs|);
    ChoiceFromBounds(cs, 1, totalBytesAcked);
    var k := ChoiceFrom(cs, 1, totalBytesAcked);
    if |cs| > 1 {
      assert cs[k..][0] == cs[k];
    } else {
      assert cs[0..] == cs;
    }
  }

  ghost predicate Sorted(cs: seq<AckPoint>) {
    forall i, j :: 0 <= i <= j < |cs| ==> cs[i].totalBytesAcked <= cs[j].totalBytesAcked
  }

  // ----- Ack aggregation

  datatype Tracker = Tracker(epochStart: nat, epochBytes: nat, lastSentBeforeEpoch: int, epochs: nat,
                             threshold: real, newEpochAfterFullRound: bool,
                             heights: AH.Heights, window: nat, reduceOnNewMax: bool)

  /** Go's conversion of a float64 to an integer: towards zero. */
  function Truncate(x: real): int {
    if x >= 0.0 then x.Floor else -((-x).Floor)
  }

  /** The bytes acked in an epoch do not exceed what the bandwidth explains. */
  predicate KeepsUp(threshold: real, epochBytes: nat, expected: int) {
    epochBytes <= Truncate(threshold * expected as real)
  }

  predicate StartsEpoch(t: Tracker, bandwidth: nat, lastAcked: int, ackTime: nat) {
    || t.epochStart == 0
    || (t.newEpochAfterFullRound && t.lastSentBeforeEpoch != INVALID_PACKET_NUMBER
        && lastAcked != INVALID_PACKET_NUMBER && lastAcked > t.lastSentBeforeEpoch)
    || KeepsUp(t.threshold, t.epochBytes, AH.BytesFromBandwidthAndTimeDelta(bandwidth, ackTime - t.epochStart))
  }

  /** The heights are computed anew when the bandwidth has a new maximum. */
  function Reduced(t: Tracker, bandwidth: nat, isNewMaxBandwidth: bool): (r: Tracker)
    ensures r == t.(heights := r.heights)
  {
    if t.reduceOnNewMax && isNewMaxBandwidth then t.(heights := AH.Recalculated(t.heights, t.window, bandwidth)) else t
  }

  /** An aggregation of the current epoch; its event is not told the round. */
  function Heightened(t: Tracker, extra: nat, delta: int, round: nat): (r: Tracker)
    ensures r == t.(heights := r.heights)
  {
    t.(heights := AH.Updated(t.heights, t.window, AH.Entry(AH.Height(extra, t.epochBytes, delta, 0), round)))
  }

  /** The aggregation epoch after an ack event, and the bytes acked beyond the bandwidth. */
  function TrackerUpdated(t: Tracker, bandwidth: nat, isNewMaxBandwidth: bool, round: nat, lastSent: int,
      lastAcked: int, ackTime: nat, bytesAcked: nat): (r: (Tracker, nat))
    requires t.threshold >= 1.0
    ensures r.0.threshold == t.threshold
    ensures r.1 == 0 <==> StartsEpoch(t, bandwidth, lastAcked, ackTime)
  {
    var t1 := Reduced(t, bandwidth, isNewMaxBandwidth);
    if StartsEpoch(t1, bandwidth, lastAcked, ackTime) then
      (t1.(epochBytes := bytesAcked, epochStart := ackTime, lastSentBeforeEpoch := lastSent,
           epochs := t1.epochs + 1), 0)
    else
      var delta := ackTime - t1.epochStart;
      var expected := AH.BytesFromBandwidthAndTimeDelta(bandwidth, delta);
      ThresholdAtLeastOne(t1.threshold, t1.epochBytes, expected);
      var extra := t1.epochBytes + bytesAcked - expected;
      (Heightened(t1.(epochBytes := t1.epochBytes + bytesAcked), extra, delta, round), extra)
  }

  lemma ThresholdAtLeastOne(threshold: real, epochBytes: nat, expected: int)
    requires threshold >= 1.0
    ensures !KeepsUp(threshold, epochBytes, expected) ==> epochBytes > expected
  {
    if expected >= 0 {
      var e := expected as real;
      assert threshold * e >= e by {
        assert (threshold - 1.0) * e >= 0.0;
        assert (threshold - 1.0) * e == threshold * e - e;
      }
    }
  }

  // ----- Pruning never changes an answer

  lemma {:induction false} ChoiceFromBounds(cs: seq<AckPoint>, i: nat, t: nat)
    requires 1 <= i <= |cs|
    ensures var k := ChoiceFrom(cs, i, t);
            && (forall j :: i <= j <= k ==> cs[j].totalBytesAcked <= t)
            && (k + 1 < |cs| ==> cs[k + 1].totalBytesAcked > t)
    decreases |cs| - i
  {
    if i < |cs| && cs[i].totalBytesAcked <= t { ChoiceFromBounds(cs, i + 1, t); }
  }

  /** A search that starts at a candidate with few enough bytes finds the same one. */
  lemma ChoiceOfSuffix(all: seq<AckPoint>, d: nat, t: nat)
    requires Sorted(all) && d < |all| && (d == 0 || all[d].totalBytesAcked <= t)
    ensures Choice(all[d..], t) == Choice(all, t)
  {
    var k, k' := ChoiceFrom(all, 1, t), ChoiceFrom(all[d..], 1, t);
    ChoiceFromBounds(all, 1, t);
    ChoiceFromBounds(all[d..], 1, t);
    assert all[d..][k'] == all[d + k'];
  }

  /** What is pruned lies before a candidate with few enough bytes. */
  lemma PrunedIsSuffix(cs: seq<AckPoint>, t: nat) returns (d: nat)
    requires cs != []
    ensures d < |cs| && Pruned(cs, t) == cs[d..]
    ensures d == 0 || cs[d].totalBytesAcked <= t
  {
    var k := ChoiceFrom(cs, 1, t);
    ChoiceFromBounds(cs, 1, t);
    d := if |cs| == 1 then 0 else if k + 1 < |cs| then k else PopsFrom(0, |cs|);
  }

  datatype CandidateOp = Push(point: AckPoint) | Choose(totalBytesAcked: nat)

  datatype OptionalPoint = NoPoint | Point(point: AckPoint)

  /** The answers of chooseA0Point when it prunes. */
  function Answers(cs: seq<AckPoint>, ops: seq<CandidateOp>): seq<OptionalPoint>
    decreases |ops|
  {
    if ops == [] then []
    else match ops[0]
      case Push(p) => Answers(cs + [p], ops[1..])
      case Choose(t) =>
        if cs == [] then [NoPoint] + Answers(cs, ops[1..])
        else [Point(Choice(cs, t))] + Answers(Pruned(cs, t), ops[1..])
  }

  /** The answers of a search over everything pushed so far. */
  function FullAnswers(all: seq<AckPoint>, ops: seq<CandidateOp>): seq<OptionalPoint>
    decreases |ops|
  {
    if ops == [] then []
    else match ops[0]
      case Push(p) => FullAnswers(all + [p], ops[1..])
      case Choose(t) => [if all == [] then NoPoint else Point(Choice(all, t))] + FullAnswers(all, ops[1..])
  }

  /** Pushed points keep the candidates sorted, and the arguments of choices never decrease. */
  ghost predicate Orderly(all: seq<AckPoint>, last: nat, ops: seq<CandidateOp>)
    decreases |ops|
  {
    ops != [] ==>
      match ops[0]
      case Push(p) => Sorted(all + [p]) && Orderly(all + [p], last, ops[1..])
      case Choose(t) => last <= t && Orderly(all, t, ops[1..])
  }

  /** The candidates kept are the pushed ones from index d on, and what is missing lies
      before a candidate whose bytes the last argument reached. */
  ghost predicate Hides(all: seq<AckPoint>, d: nat, last: nat) {
    Sorted(all) && (d == 0 || (d < |all| && all[d].totalBytesAcked <= last))
  }

  lemma HidesMore(all: seq<AckPoint>, d: nat, last: nat, t: nat) returns (d': nat)
    requires all != [] && Hides(all, d, last) && last <= t
    ensures Hides(all, d', t) && all[d..] != [] && Pruned(all[d..], t) == all[d'..]
    ensures Choice(all[d..], t) == Choice(all, t)
  {
    hide Choice, Pruned, Sorted;
    ChoiceOfSuffix(all, d, t);
    var e := PrunedIsSuffix(all[d..], t);
    d' := d + e;
    assert all[d..][e..] == all[d + e..] && all[d..][e] == all[d'];
  }

  /** Discarding candidates from the front never changes a later answer. */
  lemma {:induction false} PruningIsInvisible(all: seq<AckPoint>, d: nat, last: nat, ops: seq<CandidateOp>)
    requires Hides(all, d, last) && Orderly(all, last, ops)
    ensures Answers(all[d..], ops) == FullAnswers(all, ops)
    decreases |ops|
  {
    if ops != [] {
      hide Choice, Pruned, Sorted;
      match ops[0]
      case Push(p) =>
        PruningIsInvisible(all + [p], d, last, ops[1..]);
        assert all[d..] + [p] == (all + [p])[d..];
      case Choose(t) =>
        if all == [] {
          PruningIsInvisible(all, d, t, ops[1..]);
        } else {
          var d' := HidesMore(all, d, last, t);
          PruningIsInvisible(all, d', t, ops[1..]);
        }
    }
  }

  /** Choices whose arguments do decrease can be answered differently after pruning. */
  lemma PruningNeedsOrder(a: AckPoint, b: AckPoint, c: AckPoint)
    requires a == AckPoint(1, 10) && b == AckPoint(2, 20) && c == AckPoint(3, 30)
    ensures Choice(Pruned([a, b, c], 25), 15) == b && Choice([a, b, c], 15) == a
  {
    var cs := [a, b, c];
    assert ChoiceFrom(cs, 2, 25) == 1;
    assert cs[1..] == [b, c];
    assert ChoiceFrom([b, c], 1, 15) == 0;
    assert ChoiceFrom(cs, 1, 15) == 0;
  }

  // ----- The sampler's state

  /** What is remembered about a packet in flight. */
  datatype SentState = SentState(sentTime: nat, size: nat,
                                 totalBytesSentAtLastAckedPacket: nat,
                                 lastAckedPacketSentTime: nat, lastAckedPacketAckTime: nat,
                                 isAppLimited: bool,
                                 totalBytesSent: nat, totalBytesAcked: nat, totalBytesLost: nat, bytesInFlight: int)

  const NO_STATE := SentState(0, 0, 0, 0, 0, false, 0, 0, 0, 0)

  ghost predicate StateOk(p: SentState, sent: nat, acked: nat) {
    p.totalBytesSentAtLastAckedPacket <= p.totalBytesSent <= sent && p.totalBytesAcked <= acked
  }

  ghost predicate PacketsOk(q: Queue<SentState>, sent: nat, acked: nat) {
    q.Valid() && forall n :: n in q.AsMap() ==> StateOk(q.AsMap()[n], sent, acked)
  }

  ghost predicate PointsOk(recent: RecentAckPoints, candidates: seq<AckPoint>, acked: nat) {
    && recent.older.totalBytesAcked <= recent.newer.totalBytesAcked <= acked
    && Sorted(candidates)
    && (forall i :: 0 <= i < |candidates| ==> candidates[i].totalBytesAcked <= recent.LessRecent().totalBytesAcked)
  }

  datatype State = State(totalBytesSent: nat, totalBytesAcked: nat, totalBytesLost: nat, totalBytesNeutered: nat,
                         totalBytesSentAtLastAckedPacket: nat,
                         lastAckedPacketSentTime: nat, lastAckedPacketAckTime: nat,
                         lastSentPacket: int, lastAckedPacket: int,
                         isAppLimited: bool, endOfAppLimitedPhase: int,
                         packets: Queue<SentState>, recent: RecentAckPoints, candidates: seq<AckPoint>,
                         tracker: Tracker, totalBytesAckedAfterLastAckEvent: nat,
                         overestimateAvoidance: bool)
  {
    /** Byte counts of remembered packets and candidate points never exceed the current
        totals, and candidates are sorted and not beyond the less recent ack point. */
    ghost predicate Inv() {
      && PacketsOk(packets, totalBytesSent, totalBytesAcked)
      && PointsOk(recent, candidates, totalBytesAcked)
      && totalBytesSentAtLastAckedPacket <= totalBytesSent
      && totalBytesAckedAfterLastAckEvent <= totalBytesAcked
      && tracker.threshold >= 1.0
    }

    function Packet(n: int): Option<SentState> {
      if packets.Has(n) then Some(packets.slots[n - packets.first].entry) else None
    }
  }

  /** A bandwidth sample; no state at send means an invalid one. */
  datatype Sample = Sample(bandwidth: nat, rtt: int, sendRate: nat, stateAtSend: Option<SentState>)

  const NO_SAMPLE := Sample(0, 0, INF_BANDWIDTH, None)

  function EmplacedOrSame(q: Queue<SentState>, n: int, e: SentState): (r: Queue<SentState>)
    requires q.Valid()
  {
    if n > q.Last() then Emplaced(q, n, e, NO_STATE) else q
  }

  // ----- Sending

  function PacketSent(s: State, sentTime: nat, n: int, bytes: nat, bytesInFlight: int,
      isRetransmittable: bool): (r: State)
    requires s.packets.Valid() && n >= 0
  {
    var s1 := s.(lastSentPacket := n);
    if isRetransmittable then Tracked(s1, sentTime, n, bytes, bytesInFlight) else s1
  }

  function Tracked(s: State, sentTime: nat, n: int, bytes: nat, bytesInFlight: int): (r: State)
    requires s.packets.Valid() && n >= 0
  {
    var s1 := s.(totalBytesSent := s.totalBytesSent + bytes);
    Remembered(if bytesInFlight == 0 then Reopened(s1, sentTime) else s1, sentTime, n, bytes, bytesInFlight)
  }

  /** The snapshot of the sampler taken for a packet that has been counted. */
  function Remembered(s: State, sentTime: nat, n: int, bytes: nat, bytesInFlight: int): (r: State)
    requires s.packets.Valid()
  {
    s.(packets := EmplacedOrSame(s.packets, n,
         SentState(sentTime, bytes, s.totalBytesSentAtLastAckedPacket, s.lastAckedPacketSentTime,
             s.lastAckedPacketAckTime,
                   s.isAppLimited, s.totalBytesSent, s.totalBytesAcked, s.totalBytesLost, bytesInFlight + bytes)))
  }

  /** Sending with nothing in flight starts measuring anew. */
  function Reopened(s: State, sentTime: nat): (r: State) {
    var s1 := s.(lastAckedPacketAckTime := sentTime,
                 totalBytesSentAtLastAckedPacket := s.totalBytesSent,
                 lastAckedPacketSentTime := sentTime);
    if !s.overestimateAvoidance then s1
    else
      var recent := NO_POINTS.Update(sentTime, s.totalBytesAcked);
      s1.(recent := recent, candidates := [recent.newer])
  }

  lemma PacketsStayOk(q: Queue<SentState>, sent: nat, acked: nat, sent': nat, acked': nat)
    requires PacketsOk(q, sent, acked) && sent <= sent' && acked <= acked'
    ensures PacketsOk(q, sent', acked')
  {
    forall n | n in q.AsMap() ensures StateOk(q.AsMap()[n], sent', acked') {
      assert StateOk(q.AsMap()[n], sent, acked);
    }
  }

  lemma EmplaceKeepsOk(q: Queue<SentState>, n: int, e: SentState, sent: nat, acked: nat)
    requires PacketsOk(q, sent, acked) && n >= 0 && StateOk(e, sent, acked)
    ensures PacketsOk(EmplacedOrSame(q, n, e), sent, acked)
  {
    hide StateOk;
    if n > q.Last() { EmplaceAddsEntry(q, n, e, NO_STATE); }
  }

  lemma SentKeepsInv(s: State, sentTime: nat, n: int, bytes: nat, bytesInFlight: int, isRetransmittable: bool)
    requires s.Inv() && n >= 0
    ensures PacketSent(s, sentTime, n, bytes, bytesInFlight, isRetransmittable).Inv()
  {
    if isRetransmittable {
      hide PacketsOk, EmplacedOrSame;
      var s2 := s.(lastSentPacket := n, totalBytesSent := s.totalBytesSent + bytes);
      var s3 := if bytesInFlight == 0 then Reopened(s2, sentTime) else s2;
      var e := SentState(sentTime, bytes, s3.totalBytesSentAtLastAckedPacket,
                         s3.lastAckedPacketSentTime, s3.lastAckedPacketAckTime,
                         s3.isAppLimited, s3.totalBytesSent, s3.totalBytesAcked, s3.totalBytesLost,
                             bytesInFlight + bytes);
      PacketsStayOk(s.packets, s.totalBytesSent, s.totalBytesAcked, s2.totalBytesSent, s2.totalBytesAcked);
      EmplaceKeepsOk(s3.packets, n, e, s3.totalBytesSent, s3.totalBytesAcked);
    }
  }

  // ----- Acknowledging

  /** The send rate measured for an acknowledged packet; infinite if the packet was not
      sent after the packet acknowledged last before it. */
  function SendRate(p: SentState): (r: nat)
    requires p.totalBytesSentAtLastAckedPacket <= p.totalBytesSent
    ensures r == INF_BANDWIDTH || r % 8 == 0
  {
    if p.sentTime > p.lastAckedPacketSentTime then
      BandwidthFromDelta(p.totalBytesSent - p.totalBytesSentAtLastAckedPacket, p.sentTime - p.lastAckedPacketSentTime)
    else INF_BANDWIDTH
  }

  /** The counters after an acknowledged packet p, before the sample is taken. */
  function Acknowledged(s: State, ackTime: nat, n: int, p: SentState): (r: State) {
    var acked := s.totalBytesAcked + p.size;
    s.(lastAckedPacket := n,
       totalBytesAcked := acked,
       totalBytesSentAtLastAckedPacket := p.totalBytesSent,
       lastAckedPacketSentTime := p.sentTime,
       lastAckedPacketAckTime := ackTime,
       recent := if s.overestimateAvoidance then s.recent.Update(ackTime, acked) else s.recent,
       isAppLimited := s.isAppLimited && s.endOfAppLimitedPhase != INVALID_PACKET_NUMBER && n <= s.endOfAppLimitedPhase)
  }

  /** The point an ack rate is measured from. */
  function A0Point(s: State, p: SentState): AckPoint {
    if s.overestimateAvoidance && s.candidates != [] then Choice(s.candidates, p.totalBytesAcked)
    else AckPoint(p.lastAckedPacketAckTime, p.totalBytesAcked)
  }

  /** onPacketAcknowledged: the state after, and the sample. */
  function PacketAcked(s: State, ackTime: nat, n: int): (r: (State, Sample))
    requires s.Inv()
    ensures r.1.bandwidth % 8 == 0
  {
    if s.Packet(n).None? then (s.(lastAckedPacket := n), NO_SAMPLE)
    else
      var p := s.Packet(n).value;
      PacketIsOk(s, n);
      var s1 := Acknowledged(s, ackTime, n, p);
      if p.lastAckedPacketSentTime == 0 then (s1, NO_SAMPLE)
      else
        var sendRate := SendRate(p);
        var a0 := A0Point(s1, p);
        var s2 := if s1.overestimateAvoidance && s1.candidates != [] then
                    s1.(candidates := Pruned(s1.candidates, p.totalBytesAcked)) else s1;
        if ackTime <= a0.ackTime then (s2, NO_SAMPLE)
        else
          assert a0.totalBytesAcked <= s2.totalBytesAcked;
          var ackRate := BandwidthFromDelta(s2.totalBytesAcked - a0.totalBytesAcked, ackTime - a0.ackTime);
          (s2, Sample(Min(sendRate, ackRate), ackTime - p.sentTime, sendRate, Some(p)))
  }

  lemma PacketIsOk(s: State, n: int)
    requires s.Inv() && s.Packet(n).Some?
    ensures StateOk(s.Packet(n).value, s.totalBytesSent, s.totalBytesAcked)
  {
    assert n in s.packets.AsMap();
  }

  lemma LessRecentGrows(r: RecentAckPoints, ackTime: nat, acked: nat)
    requires r.older.totalBytesAcked <= r.newer.totalBytesAcked <= acked
    ensures var r' := r.Update(ackTime, acked);
            && r'.older.totalBytesAcked <= r'.newer.totalBytesAcked == acked
            && r.LessRecent().totalBytesAcked <= r'.LessRecent().totalBytesAcked <= acked
  {
  }

  lemma PruneKeepsPoints(r: RecentAckPoints, cs: seq<AckPoint>, acked: nat, t: nat)
    requires PointsOk(r, cs, acked) && cs != []
    ensures PointsOk(r, Pruned(cs, t), acked)
  {
    var d := PrunedIsSuffix(cs, t);
    hide Pruned;
  }

  lemma UpdateKeepsPoints(r: RecentAckPoints, cs: seq<AckPoint>, acked: nat, ackTime: nat, acked': nat)
    requires PointsOk(r, cs, acked) && acked <= acked'
    ensures PointsOk(r, cs, acked') && PointsOk(r.Update(ackTime, acked'), cs, acked')
  {
    LessRecentGrows(r, ackTime, acked');
  }

  lemma AckedKeepsInv(s: State, ackTime: nat, n: int)
    requires s.Inv()
    ensures PacketAcked(s, ackTime, n).0.Inv()
    ensures PacketAcked(s, ackTime, n).0.totalBytesAcked
         == s.totalBytesAcked + if s.Packet(n).Some? then s.Packet(n).value.size else 0
  {
    if s.Packet(n).Some? {
      var p := s.Packet(n).value;
      PacketIsOk(s, n);
      hide PacketsOk, PointsOk, Pruned, Choice, BandwidthFromDelta;
      var s1 := Acknowledged(s, ackTime, n, p);
      UpdateKeepsPoints(s.recent, s.candidates, s.totalBytesAcked, ackTime, s1.totalBytesAcked);
      PacketsStayOk(s.packets, s.totalBytesSent, s.totalBytesAcked, s1.totalBytesSent, s1.totalBytesAcked);
      if s1.candidates != [] {
        PruneKeepsPoints(s1.recent, s1.candidates, s1.totalBytesAcked, p.totalBytesAcked);
      }
    }
  }

  // ----- The end of an ack event

  function AckEventEnd(s: State, bandwidthEstimate: nat, isNewMaxBandwidth: bool, round: nat): (r: (State, nat))
    requires s.Inv()
  {
    var newlyAcked := s.totalBytesAcked - s.totalBytesAckedAfterLastAckEvent;
    if newlyAcked == 0 then (s, 0)
    else
      var (tracker, extra) := TrackerUpdated(s.tracker, bandwidthEstimate, isNewMaxBandwidth, round, s.lastSentPacket,
                                             s.lastAckedPacket, s.lastAckedPacketAckTime, newlyAcked);
      (s.(totalBytesAckedAfterLastAckEvent := s.totalBytesAcked, tracker := tracker,
          candidates := if s.overestimateAvoidance && extra == 0 then s.candidates + [s.recent.LessRecent()]
              else s.candidates),
       extra)
  }

  lemma AckEventEndKeepsInv(s: State, bandwidthEstimate: nat, isNewMaxBandwidth: bool, round: nat)
    requires s.Inv()
    ensures AckEventEnd(s, bandwidthEstimate, isNewMaxBandwidth, round).0.Inv()
  {
  }

  lemma RemoveUpToKeepsInv(s: State, n: int)
    requires s.Inv()
    ensures s.(packets := RemovedUpTo(s.packets, n)).Inv()
  {
    RemoveUpToRestricts(s.packets, n);
  }

  lemma NeuterKeepsInv(s: State, n: int)
    requires s.Inv() && s.packets.Has(n)
    ensures s.(packets := Removed(s.packets, n),
               totalBytesNeutered := s.totalBytesNeutered + s.Packet(n).value.size).Inv()
  {
    RemoveDropsEntry(s.packets, n);
  }

  // ----- Congestion events

  datatype Lost = Lost(number: int, bytes: nat)

  /** What an event reports to the sender. */
  datatype EventSample = EventSample(sampleMaxBandwidth: nat, sampleIsAppLimited: bool, sampleRtt: int,
                                     sampleMaxInflight: nat, lastPacketSendState: Option<SentState>, extraAcked: nat)

  const NO_EVENT := EventSample(0, false, INF_RTT, 0, None, 0)

  /** Counts the lost packets; the second result is the state of the last known one. */
  function LoseAll(s: State, lost: seq<Lost>, last: Option<SentState>): (r: (State, Option<SentState>))
    decreases |lost|
  {
    if lost == [] then (s, last)
    else
      var known := s.Packet(lost[0].number);
      LoseAll(s.(totalBytesLost := s.totalBytesLost + lost[0].bytes), lost[1..], if known.Some? then known else last)
  }

  lemma {:induction false} LoseAllOnlyCounts(s: State, lost: seq<Lost>, last: Option<SentState>)
    ensures exists bytes: nat :: LoseAll(s, lost, last).0 == s.(totalBytesLost := bytes) && bytes >= s.totalBytesLost
    decreases |lost|
  {
    if lost == [] {
      assert LoseAll(s, lost, last).0 == s.(totalBytesLost := s.totalBytesLost);
    } else {
      var known := s.Packet(lost[0].number);
      LoseAllOnlyCounts(s.(totalBytesLost := s.totalBytesLost + lost[0].bytes), lost[1..],
                        if known.Some? then known else last);
    }
  }

  /** Taking one packet's sample into an event's. */
  function WithSample(e: EventSample, sample: Sample, acked: nat): (r: EventSample)
    requires sample.stateAtSend.Some? && sample.stateAtSend.value.totalBytesAcked <= acked
  {
    var p := sample.stateAtSend.value;
    var e1 := e.(lastPacketSendState := Some(p));
    var e2 := if sample.rtt != 0 then e1.(sampleRtt := Min(e1.sampleRtt, sample.rtt)) else e1;
    var e3 := if sample.bandwidth > e2.sampleMaxBandwidth then
                e2.(sampleMaxBandwidth := sample.bandwidth, sampleIsAppLimited := p.isAppLimited) else e2;
    e3.(sampleMaxInflight := Max(e3.sampleMaxInflight, acked - p.totalBytesAcked))
  }

  /** Acknowledges the packets of an event in order and collects their samples and the
      largest finite send rate. */
  function AckAll(s: State, ackTime: nat, acked: seq<int>, e: EventSample,
      maxSendRate: nat): (r: (State, EventSample, nat))
    requires s.Inv()
    decreases |acked|
  {
    if acked == [] then (s, e, maxSendRate)
    else
      var (s', sample) := PacketAcked(s, ackTime, acked[0]);
      AckedKeepsInv(s, ackTime, acked[0]);
      if sample.stateAtSend.None? then AckAll(s', ackTime, acked[1..], e, maxSendRate)
      else
        SampleStateIsOk(s, ackTime, acked[0]);
        AckAll(s', ackTime, acked[1..], WithSample(e, sample, s'.totalBytesAcked),
               if sample.sendRate != INF_BANDWIDTH then Max(maxSendRate, sample.sendRate) else maxSendRate)
  }

  lemma SampleStateIsOk(s: State, ackTime: nat, n: int)
    requires s.Inv()
    ensures var (s', sample) := PacketAcked(s, ackTime, n);
            sample.stateAtSend.Some? ==>
              s.Packet(n).Some? && sample.stateAtSend == s.Packet(n) &&
                  sample.stateAtSend.value.totalBytesAcked <= s'.totalBytesAcked
  {
    AckedKeepsInv(s, ackTime, n);
    if s.Packet(n).Some? { PacketIsOk(s, n); }
  }

  lemma {:induction false} AckAllKeepsInv(s: State, ackTime: nat, acked: seq<int>, e: EventSample, maxSendRate: nat)
    requires s.Inv() && e.sampleMaxBandwidth % 8 == 0
    ensures var (s', e', rate) := AckAll(s, ackTime, acked, e, maxSendRate);
            && s'.Inv() && s'.totalBytesAcked >= s.totalBytesAcked
            && e'.sampleMaxBandwidth % 8 == 0 && e'.sampleMaxBandwidth >= e.sampleMaxBandwidth
            && e'.extraAcked == e.extraAcked && e'.sampleMaxInflight >= e.sampleMaxInflight
    decreases |acked|
  {
    if acked != [] {
      hide PacketAcked;
      var (s', sample) := PacketAcked(s, ackTime, acked[0]);
      AckedKeepsInv(s, ackTime, acked[0]);
      if sample.stateAtSend.None? {
        AckAllKeepsInv(s', ackTime, acked[1..], e, maxSendRate);
      } else {
        SampleStateIsOk(s, ackTime, acked[0]);
        AckAllKeepsInv(s', ackTime, acked[1..], WithSample(e, sample, s'.totalBytesAcked),
                       if sample.sendRate != INF_BANDWIDTH then Max(maxSendRate, sample.sendRate) else maxSendRate);
      }
    }
  }

  /** The send state reported for an event: that of the later packet, acked or lost. */
  function LastSendState(lastLost: Option<SentState>, lastAcked: Option<SentState>, acked: seq<int>,
      lost: seq<Lost>): Option<SentState>
    requires acked != [] && (lastLost.Some? ==> lost != [])
  {
    if lastLost.None? then lastAcked
    else if lastAcked.None? then lastLost
    else if lost[|lost| - 1].number > acked[|acked| - 1] then lastLost
    else lastAcked
  }

  lemma {:induction false} KnownLossIsALoss(s: State, lost: seq<Lost>, last: Option<SentState>)
    ensures LoseAll(s, lost, last).1.Some? ==> lost != [] || last.Some?
    decreases |lost|
  {
  }

  /** OnCongestionEvent: the state after an event, and its report. */
  function CongestionEvent(s: State, ackTime: nat, acked: seq<int>, lost: seq<Lost>,
                           maxBandwidth: nat, upperBound: nat, limitBySendRate: bool, round: nat)
      : (r: (State, EventSample))
    requires s.Inv()
  {
    var (s1, lastLost) := LoseAll(s, lost, None);
    LoseAllOnlyCounts(s, lost, None);
    KnownLossIsALoss(s, lost, None);
    if acked == [] then (s1, NO_EVENT.(lastPacketSendState := lastLost))
    else
      var (s2, e, maxSendRate) := AckAll(s1, ackTime, acked, NO_EVENT, 0);
      AckAllKeepsInv(s1, ackTime, acked, NO_EVENT, 0);
      var best := Max(maxBandwidth, e.sampleMaxBandwidth);
      var best' := if limitBySendRate then Max(best, maxSendRate) else best;
      var (s3, extra) := AckEventEnd(s2, Min(upperBound, best'), e.sampleMaxBandwidth > maxBandwidth, round);
      (s3, e.(lastPacketSendState := LastSendState(lastLost, e.lastPacketSendState, acked, lost), extraAcked := extra))
  }

  /** Every event keeps the invariant; acked bytes never go down, and the reported bandwidth
      is a multiple of 8 bits. */
  lemma CongestionEventKeepsInv(s: State, ackTime: nat, acked: seq<int>, lost: seq<Lost>,
                                maxBandwidth: nat, upperBound: nat, limitBySendRate: bool, round: nat)
    requires s.Inv()
    ensures var (s', e) := CongestionEvent(s, ackTime, acked, lost, maxBandwidth, upperBound, limitBySendRate, round);
            && s'.Inv() && s'.totalBytesAcked >= s.totalBytesAcked && s'.totalBytesLost >= s.totalBytesLost
            && e.sampleMaxBandwidth % 8 == 0
            && (acked == [] ==>
                  e.extraAcked == 0 && e.sampleMaxBandwidth == 0 && s'.totalBytesAcked == s.totalBytesAcked)
  {
    hide AckEventEnd, AckAll;
    var (s1, lastLost) := LoseAll(s, lost, None);
    LoseAllOnlyCounts(s, lost, None);
    if acked != [] {
      AckAllKeepsInv(s1, ackTime, acked, NO_EVENT, 0);
      var (s2, e, maxSendRate) := AckAll(s1, ackTime, acked, NO_EVENT, 0);
      AckAllKeepsLost(s1, ackTime, acked, NO_EVENT, 0);
      var best := Max(maxBandwidth, e.sampleMaxBandwidth);
      var best' := if limitBySendRate then Max(best, maxSendRate) else best;
      AckEventEndKeepsInv(s2, Min(upperBound, best'), e.sampleMaxBandwidth > maxBandwidth, round);
      AckEventEndKeepsTotals(s2, Min(upperBound, best'), e.sampleMaxBandwidth > maxBandwidth, round);
    }
  }

  lemma AckEventEndKeepsTotals(s: State, bandwidthEstimate: nat, isNewMaxBandwidth: bool, round: nat)
    requires s.Inv()
    ensures var s' := AckEventEnd(s, bandwidthEstimate, isNewMaxBandwidth, round).0;
            s'.totalBytesAcked == s.totalBytesAcked && s'.totalBytesLost == s.totalBytesLost
  {
  }

  lemma {:induction false} AckAllKeepsLost(s: State, ackTime: nat, acked: seq<int>, e: EventSample, maxSendRate: nat)
    requires s.Inv()
    ensures AckAll(s, ackTime, acked, e, maxSendRate).0.totalBytesLost == s.totalBytesLost
    decreases |acked|
  {
    if acked != [] {
      var (s', sample) := PacketAcked(s, ackTime, acked[0]);
      AckedKeepsInv(s, ackTime, acked[0]);
      if sample.stateAtSend.None? {
        AckAllKeepsLost(s', ackTime, acked[1..], e, maxSendRate);
      } else {
        SampleStateIsOk(s, ackTime, acked[0]);
        AckAllKeepsLost(s', ackTime, acked[1..], WithSample(e, sample, s'.totalBytesAcked),
                        if sample.sendRate != INF_BANDWIDTH then Max(maxSendRate, sample.sendRate) else maxSendRate);
      }
    }
  }

  // ----- Whole runs

  datatype Event =
    | Send(sentTime: nat, number: nat, bytes: nat, bytesInFlight: int, isRetransmittable: bool)
    | Congestion(ackTime: nat, acked: seq<int>, lost: seq<Lost>, maxBandwidth: nat, upperBound: nat,
        limitBySendRate: bool, round: nat)
    | ResetHeights(height: nat, round: nat)
    | Neuter(number: nat)
    | AppLimit
    | RemoveObsolete(leastUnacked: int)
    | AvoidOverestimates
    | ReduceHeights(value: bool)

  function NewState(window: nat): State {
    State(0, 0, 0, 0, 0, 0, 0, INVALID_PACKET_NUMBER, INVALID_PACKET_NUMBER, false, INVALID_PACKET_NUMBER,
          Queue([], INVALID_PACKET_NUMBER), NO_POINTS, [],
          Tracker(0, 0, INVALID_PACKET_NUMBER, 0, 1.0, false, AH.NO_HEIGHTS, window, false), 0, false)
  }

  lemma NewIsInv(window: nat)
    ensures NewState(window).Inv()
  {
  }

  /** The filter reset to one height. */
  function AllHeights(height: nat, round: nat): AH.Heights {
    var x := AH.Entry(AH.Height(height, 0, 0, round), round);
    AH.Heights(x, x, x)
  }

  function Step(s: State, e: Event): (s': State)
    requires s.Inv()
  {
    match e
    case Send(sentTime, number, bytes, bytesInFlight, isRetransmittable) =>
      PacketSent(s, sentTime, number, bytes, bytesInFlight, isRetransmittable)
    case Congestion(ackTime, acked, lost, maxBandwidth, upperBound, limitBySendRate, round) =>
      CongestionEvent(s, ackTime, acked, lost, maxBandwidth, upperBound, limitBySendRate, round).0
    case Neuter(number) =>
      if s.packets.Has(number) then
        s.(packets := Removed(s.packets, number),
           totalBytesNeutered := s.totalBytesNeutered + s.Packet(number).value.size)
      else s
    case AppLimit => s.(isAppLimited := true, endOfAppLimitedPhase := s.lastSentPacket)
    case RemoveObsolete(leastUnacked) => s.(packets := RemovedUpTo(s.packets, leastUnacked))
    case AvoidOverestimates =>
      if s.overestimateAvoidance then s else s.(overestimateAvoidance := true, tracker := s.tracker.(threshold := 2.0))
    case ReduceHeights(value) => s.(tracker := s.tracker.(reduceOnNewMax := value))
    case ResetHeights(height, round) => s.(tracker := s.tracker.(heights := AllHeights(height, round)))
  }

  lemma StepKeepsInv(s: State, e: Event)
    requires s.Inv()
    ensures Step(s, e).Inv()
  {
    hide PacketSent, CongestionEvent, PacketsOk, PointsOk;
    match e
    case Send(sentTime, number, bytes, bytesInFlight, isRetransmittable) =>
      SentKeepsInv(s, sentTime, number, bytes, bytesInFlight, isRetransmittable);
    case Congestion(ackTime, acked, lost, maxBandwidth, upperBound, limitBySendRate, round) =>
      CongestionEventKeepsInv(s, ackTime, acked, lost, maxBandwidth, upperBound, limitBySendRate, round);
    case Neuter(number) =>
      if s.packets.Has(number) { NeuterKeepsInv(s, number); }
    case AppLimit =>
    case RemoveObsolete(leastUnacked) =>
      RemoveUpToKeepsInv(s, leastUnacked);
    case AvoidOverestimates =>
    case ReduceHeights(_) =>
    case ResetHeights(_, _) =>
  }

  /** Every reachable state of the sampler satisfies the invariant, so every sample it can
      take is a non-negative number of bytes over a positive time. */
  lemma {:induction false} RunsKeepInv(states: seq<State>, es: seq<Event>, window: nat, i: nat)
    requires |states| == |es| + 1 && states[0] == NewState(window) && i <= |es|
    requires forall k :: 0 <= k < |es| ==> states[k].Inv() ==> states[k + 1] == Step(states[k], es[k])
    ensures states[i].Inv()
  {
    if i == 0 {
      NewIsInv(window);
    } else {
      RunsKeepInv(states, es, window, i - 1);
      StepKeepsInv(states[i - 1], es[i - 1]);
    }
  }
}
