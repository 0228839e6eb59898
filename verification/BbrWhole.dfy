/** The whole sender: the BBR state machine with its bandwidth sampler and its pacer
    (internal/congestion/bbr/bbr_sender.go). */
module BbrWhole {
  import opened Arithmetic
  import opened Wrappers
  import opened PacketQueue
  import SS = SamplerState
  import P = Pacer
  import Pow2
  import WF = WindowedFilter
  import opened BbrState
  import opened BbrProofs
  import opened BbrRuns
  import opened BbrGrowth

  /** `clock` is the time of the last operation. */
  datatype Whole = Whole(b: Bbr, sampler: SS.State, pacer: P.Bucket, clock: nat)

  /** A call of the QUIC library, with what the library's statistics and the random numbers
      are at that moment. */
  datatype Call =
    | Congestion(priorInFlight: int, now: nat, acked: seq<AckedPacket>, lost: seq<SS.Lost>, statsMinRtt: nat,
                 random: nat)
    | Send(now: nat, bytesInFlight: int, number: nat, bytes: nat, isRetransmittable: bool, statsMinRtt: nat)
    | SetSize(size: nat)

  /** Time does not go back, an event has an acked or lost packet, and datagrams do not shrink. */
  predicate Permitted(w: Whole, a: Call) {
    match a
    case Congestion(_, now, acked, lost, _, _) => w.clock <= now && (acked != [] || lost != [])
    case Send(now, _, _, _, _, _) => w.clock <= now
    case SetSize(size) => w.b.maxDatagramSize <= size
  }

  // ----- The sampler's part of an event

  /** No remembered packet was sent later than t. */
  ghost predicate SentBy(q: Queue<SS.SentState>, t: nat) {
    forall n :: n in q.AsMap() ==> q.AsMap()[n].sentTime <= t
  }

  ghost predicate SamplerOk(s: SS.State, clock: nat) { s.Inv() && SentBy(s.packets, clock) }

  function Numbers(ps: seq<AckedPacket>): (ns: seq<int>)
    ensures |ns| == |ps|
  {
    seq(|ps|, i requires 0 <= i < |ps| => ps[i].number)
  }

  /** maybeAppLimited: few bytes in flight mean that the application limits the rate. */
  function MaybeAppLimited(s: SS.State, b: Bbr, priorInFlight: int, statsMinRtt: nat): (r: SS.State)
    requires s.Inv()
    ensures r.Inv() && r.packets == s.packets && r.totalBytesAcked == s.totalBytesAcked
    ensures r.totalBytesLost == s.totalBytesLost
  {
    hide SS.PacketsOk, SS.PointsOk, Target;
    if priorInFlight < Target(b, statsMinRtt, 1.0) then SS.Step(s, SS.AppLimit) else s
  }

  /** The round an event belongs to. */
  function RoundOf(b: Bbr, acked: seq<AckedPacket>): nat {
    b.roundTripCount + if PassesRound(b, acked) then 1 else 0
  }

  /** The sampler's state and report after an event of the library. */
  function Sampled(s: SS.State, b: Bbr, a: Call): (r: (SS.State, SS.EventSample))
    requires a.Congestion? && SamplerOk(s, a.now)
    ensures SamplerOk(r.0, a.now) && r.1.sampleRtt > 0
    ensures r.1.sampleMaxBandwidth % 8 == 0 && r.1.sampleMaxBandwidth < SS.UINT64
    ensures r.0.totalBytesAcked >= s.totalBytesAcked && r.0.totalBytesLost >= s.totalBytesLost
  {
    hide SS.State.Inv, Target;
    var s1 := MaybeAppLimited(s, b, a.priorInFlight, a.statsMinRtt);
    var numbers := Numbers(a.acked);
    SS.CongestionEventKeepsInv(s1, a.now, numbers, a.lost, Bandwidth(b), SS.INF_BANDWIDTH, false,
        RoundOf(b, a.acked));
    EventKeepsPackets(s1, a.now, numbers, a.lost, Bandwidth(b), SS.INF_BANDWIDTH, false,
        RoundOf(b, a.acked));
    SS.CongestionEvent(s1, a.now, numbers, a.lost, Bandwidth(b), SS.INF_BANDWIDTH, false,
        RoundOf(b, a.acked))
  }

  /** RTT samples are positive, as time does not go back, and bandwidth samples fit in 64 bits. */
  lemma {:induction false} AckAllKeepsPackets(s: SS.State, ackTime: nat, acked: seq<int>, e: SS.EventSample, rate: nat)
    requires SamplerOk(s, ackTime) && e.sampleRtt > 0 && e.sampleMaxBandwidth < SS.UINT64
    ensures var (s', e', _) := SS.AckAll(s, ackTime, acked, e, rate);
            s'.packets == s.packets && e'.sampleRtt > 0 && e'.sampleMaxBandwidth < SS.UINT64
    decreases |acked|
  {
    if acked != [] {
      hide SS.State.Inv, SS.Choice, SS.Pruned, SS.BandwidthFromDelta;
      var (s', sample) := SS.PacketAcked(s, ackTime, acked[0]);
      SS.AckedKeepsInv(s, ackTime, acked[0]);
      SampleTakesTime(s, ackTime, acked[0]);
      if sample.stateAtSend.None? {
        AckAllKeepsPackets(s', ackTime, acked[1..], e, rate);
      } else {
        SS.SampleStateIsOk(s, ackTime, acked[0]);
        AckAllKeepsPackets(s', ackTime, acked[1..], SS.WithSample(e, sample, s'.totalBytesAcked),
                           if sample.sendRate != SS.INF_BANDWIDTH then Max(rate, sample.sendRate) else rate);
      }
    }
  }

  lemma SampleTakesTime(s: SS.State, ackTime: nat, n: int)
    requires SamplerOk(s, ackTime)
    ensures var (s', sample) := SS.PacketAcked(s, ackTime, n);
            s'.packets == s.packets && sample.rtt >= 0 && sample.bandwidth < SS.UINT64
  {
    hide SS.PacketsOk, SS.PointsOk, SS.Choice, SS.Pruned, SS.BandwidthFromDelta;
    if s.Packet(n).Some? {
      assert n in s.packets.AsMap();
      assert s.packets.AsMap()[n] == s.Packet(n).value;
    }
  }

  lemma EventKeepsPackets(s: SS.State, ackTime: nat, acked: seq<int>, lost: seq<SS.Lost>, maxBandwidth: nat,
                          upperBound: nat, limitBySendRate: bool, round: nat)
    requires SamplerOk(s, ackTime)
    ensures var (s', e) := SS.CongestionEvent(s, ackTime, acked, lost, maxBandwidth, upperBound, limitBySendRate,
                round);
            s'.packets == s.packets && e.sampleRtt > 0 && e.sampleMaxBandwidth < SS.UINT64
  {
    hide SS.PacketsOk, SS.PointsOk, SS.AckAll, SS.TrackerUpdated;
    var s1 := SS.LoseAll(s, lost, None).0;
    SS.LoseAllOnlyCounts(s, lost, None);
    if acked != [] {
      AckAllKeepsPackets(s1, ackTime, acked, SS.NO_EVENT, 0);
      SS.AckAllKeepsInv(s1, ackTime, acked, SS.NO_EVENT, 0);
    }
  }

  /** The event the state machine handles: the library's call with the sampler's report. */
  function EventOf(s: SS.State, b: Bbr, a: Call): (e: Event)
    requires a.Congestion? && SamplerOk(s, a.now)
    ensures e.priorInFlight == a.priorInFlight && e.now == a.now && e.acked == a.acked && e.lost == a.lost
    ensures e.report.sampleRtt > 0
    ensures e.report.sampleMaxBandwidth % 8 == 0 && e.report.sampleMaxBandwidth < SS.UINT64
  {
    var (s', x) := Sampled(s, b, a);
    Event(a.priorInFlight, a.now, a.acked, a.lost,
          Report(x.sampleMaxBandwidth, x.sampleIsAppLimited, x.sampleRtt, x.lastPacketSendState, x.extraAcked,
                 s'.totalBytesAcked - s.totalBytesAcked, s'.totalBytesLost - s.totalBytesLost, s'.totalBytesAcked,
                 s'.tracker.heights.best.event.extraAcked),
          a.statsMinRtt, a.random)
  }

  /** Packets below this number are forgotten. */
  function LeastUnacked(a: Call): int
    requires a.Congestion? && (a.acked != [] || a.lost != [])
  {
    if a.acked != [] then a.acked[|a.acked| - 1].number - 2 else a.lost[|a.lost| - 1].number + 1
  }

  /** A check for full bandwidth that finds the bandwidth risen, in a profile that then drops
      the ack heights. */
  predicate CheckResets(s: Bbr, c: Config) {
    c.expireAckAggregationInStartup && !s.lastSampleIsAppLimited
    && !Stalls(Bandwidth(s), s.search.bandwidthAtLastRound)
  }

  predicate ResetsHeights(b: Bbr, c: Config, e: Event) {
    IsRoundStart(b, e) && !b.search.atFullBandwidth && CheckResets(Measured(b, e), c)
  }

  /** Heights dropped in an event are not missed in it: it does not reach full bandwidth, and
      until then the window does not depend on them. */
  lemma ResetIsNotMissed(b: Bbr, c: Config, e: Event)
    requires c.Valid() && ModeInv(b, c) && ResetsHeights(b, c, e)
    ensures !OnEvent(b, c, e).search.atFullBandwidth
  {
    hide Measured, OnEvent, IsRoundStart, TooManyLosses;
    SearchMovesByChecks(b, c, e);
  }

  lemma WindowWithoutHeights(s: Bbr, c: Config, rep: Report, statsMinRtt: nat, m: nat)
    requires !s.search.atFullBandwidth
    ensures NextCongestionWindow(s, c, rep.(maxAckHeight := m), statsMinRtt) ==
              NextCongestionWindow(s, c, rep, statsMinRtt)
  {
  }

  /** What the mode transitions tell the sampler. */
  function SamplerMoved(s: SS.State, m: Bbr, c: Config, isRoundStart: bool, minRttExpired: bool): (r: SS.State)
    requires s.Inv()
    ensures r.Inv() && r.packets == s.packets
  {
    hide SS.PacketsOk, SS.PointsOk, CheckResets, EnteredProbeRtt;
    var s1 := if isRoundStart && !m.search.atFullBandwidth && CheckResets(m, c)
              then SS.Step(s, SS.ResetHeights(0, m.roundTripCount)) else s;
    if EnteredProbeRtt(m, minRttExpired).mode == ProbeRtt then SS.Step(s1, SS.AppLimit) else s1
  }

  /** What an event tells the sampler: a risen bandwidth can drop its heights, and PROBE_RTT
      limits the application. */
  function SamplerTold(s: SS.State, b: Bbr, c: Config, e: Event): (r: SS.State)
    requires s.Inv()
    ensures r.Inv() && r.packets == s.packets
  {
    SamplerMoved(s, Measured(b, e), c, IsRoundStart(b, e), MinRttExpired(b, e.now, e.report))
  }

  function SamplerLimited(s: SS.State, b: Bbr, c: Config, a: Call): (r: SS.State)
    requires a.Congestion? && SamplerOk(s, a.now)
    ensures SamplerOk(r, a.now)
  {
    SamplerTold(Sampled(s, b, a).0, b, c, EventOf(s, b, a))
  }

  /** The sampler after an event. */
  function SamplerAfter(s: SS.State, b: Bbr, c: Config, a: Call): (r: SS.State)
    requires a.Congestion? && (a.acked != [] || a.lost != []) && SamplerOk(s, a.now)
    ensures SamplerOk(r, a.now)
  {
    hide SS.PacketsOk, SS.PointsOk, SamplerLimited;
    RemoveKeepsOk(SamplerLimited(s, b, c, a), a.now, LeastUnacked(a));
    SS.Step(SamplerLimited(s, b, c, a), SS.RemoveObsolete(LeastUnacked(a)))
  }

  lemma ToldIsMoved(s: SS.State, b: Bbr, c: Config, e: Event)
    requires s.Inv()
    ensures SamplerTold(s, b, c, e) ==
              SamplerMoved(s, Measured(b, e), c, IsRoundStart(b, e), MinRttExpired(b, e.now, e.report))
  {
    hide SS.PacketsOk, SS.PointsOk, CheckResets, EnteredProbeRtt;
  }

  lemma MovingKeepsTotals(s: SS.State, m: Bbr, c: Config, isRoundStart: bool, minRttExpired: bool)
    requires s.Inv()
    ensures SamplerMoved(s, m, c, isRoundStart, minRttExpired).totalBytesAcked == s.totalBytesAcked
  {
    hide SS.PacketsOk, SS.PointsOk, CheckResets, EnteredProbeRtt;
  }

  lemma RemoveKeepsOk(s: SS.State, clock: nat, n: int)
    requires SamplerOk(s, clock)
    ensures SamplerOk(SS.Step(s, SS.RemoveObsolete(n)), clock)
  {
    SS.StepKeepsInv(s, SS.RemoveObsolete(n));
    RemoveUpToRestricts(s.packets, n);
  }

  // ----- Sending

  lemma SendKeepsOk(s: SS.State, clock: nat, now: nat, n: nat, bytes: nat, bytesInFlight: int, retransmittable: bool)
    requires SamplerOk(s, clock) && clock <= now
    ensures SamplerOk(SS.PacketSent(s, now, n, bytes, bytesInFlight, retransmittable), now)
  {
    SS.SentKeepsInv(s, now, n, bytes, bytesInFlight, retransmittable);
    hide SS.State.Inv, SS.Reopened, SS.Remembered, SentBy;
    InvHasQueue(s);
    SentLater(s.packets, clock, now);
    if retransmittable {
      var s1 := s.(lastSentPacket := n, totalBytesSent := s.totalBytesSent + bytes);
      ReopenKeepsPackets(s1, now);
      RememberKeepsTimes(if bytesInFlight == 0 then SS.Reopened(s1, now) else s1, now, n, bytes, bytesInFlight);
    }
  }

  lemma SentLater(q: Queue<SS.SentState>, clock: nat, now: nat)
    requires SentBy(q, clock) && clock <= now
    ensures SentBy(q, now)
  {
  }

  lemma RememberKeepsTimes(s: SS.State, now: nat, n: nat, bytes: nat, bytesInFlight: int)
    requires s.packets.Valid() && SentBy(s.packets, now)
    ensures SentBy(SS.Remembered(s, now, n, bytes, bytesInFlight).packets, now)
  {
    hide Queue.Valid, Queue.AsMap;
    if n > s.packets.Last() {
      EmplaceAddsEntry(s.packets, n,
        SS.SentState(now, bytes, s.totalBytesSentAtLastAckedPacket, s.lastAckedPacketSentTime,
                     s.lastAckedPacketAckTime, s.isAppLimited, s.totalBytesSent, s.totalBytesAcked,
                     s.totalBytesLost, bytesInFlight + bytes), SS.NO_STATE);
    }
  }

  lemma ReopenKeepsPackets(s: SS.State, now: nat)
    ensures SS.Reopened(s, now).packets == s.packets
  {
  }

  lemma InvHasQueue(s: SS.State)
    requires s.Inv()
    ensures s.packets.Valid()
  {
  }

  // ----- Estimates fit in 64 bits

  ghost predicate Fits(f: WF.Estimates) {
    f.best.sample < SS.UINT64 && f.second.sample < SS.UINT64 && f.third.sample < SS.UINT64
  }

  lemma MeasuredFits(s: Bbr, e: Event)
    requires Fits(s.maxBandwidth) && e.report.sampleMaxBandwidth < SS.UINT64
    ensures Fits(Measured(s, e).maxBandwidth)
  {
    hide Acknowledged, CountLosses, UpdateMinRtt, WF.Age;
  }

  lemma EventFits(s: Bbr, c: Config, e: Event)
    requires c.highGain != 0.0 && Fits(s.maxBandwidth) && e.report.sampleMaxBandwidth < SS.UINT64
    ensures Fits(OnEvent(s, c, e).maxBandwidth)
  {
    hide Measured, Moded, Sized, Fits, IsRoundStart, MinRttExpired;
    MeasuredFits(s, e);
  }

  // ----- Calls

  /** What holds of the three parts between calls. */
  ghost predicate WholeInv(w: Whole, c: Config)
    requires c.highGain != 0.0
  {
    && Inv(w.b, c) && Octets(w.b.maxBandwidth) && Fits(w.b.maxBandwidth)
    && SamplerOk(w.sampler, w.clock)
    && w.pacer.lastSentTime <= w.clock
  }

  /** The state machine's action in a call. */
  function ActionOf(w: Whole, a: Call): (act: Action)
    requires SamplerOk(w.sampler, w.clock) && Permitted(w, a)
  {
    match a
    case Congestion(_, _, _, _, _, _) => Acked(EventOf(w.sampler, w.b, a))
    case Send(_, bytesInFlight, number, _, _, _) => Sent(bytesInFlight, number)
    case SetSize(size) => Resize(size)
  }

  function Next(w: Whole, c: Config, a: Call): (r: Whole)
    requires c.highGain != 0.0 && w.b.maxDatagramSize > 0
    requires SamplerOk(w.sampler, w.clock) && w.pacer.lastSentTime <= w.clock && Permitted(w, a)
  {
    var b := Step(w.b, c, ActionOf(w, a));
    match a
    case Congestion(_, now, _, _, _, _) => Whole(b, SamplerAfter(w.sampler, w.b, c, a), w.pacer, now)
    case Send(now, bytesInFlight, number, bytes, isRetransmittable, statsMinRtt) =>
      Whole(b, SS.PacketSent(w.sampler, now, number, bytes, bytesInFlight, isRetransmittable),
            w.pacer.Sent(now, bytes, BandwidthForPacer(w.b, c, statsMinRtt)), now)
    case SetSize(size) => Whole(b, w.sampler, w.pacer.(maxDatagramSize := size), w.clock)
  }

  /** The sampler a profile asks for. */
  function StartSampler(c: Config): (r: SS.State)
    ensures r.Inv()
  {
    hide SS.PacketsOk, SS.PointsOk;
    SS.NewIsInv(BANDWIDTH_WINDOW);
    var s := SS.NewState(BANDWIDTH_WINDOW);
    var s1 := if c.overestimateAvoidance then SS.Step(s, SS.AvoidOverestimates) else s;
    SS.Step(s1, SS.ReduceHeights(c.reduceExtraAcked))
  }

  /** NewBbrSender, with the packet size that the pacer starts with. */
  function NewWhole(c: Config, size: int, pacerSize: nat, minPacingDelay: nat): Whole {
    Whole(Initial(c, size), StartSampler(c), P.NewBucket(pacerSize, minPacingDelay), 0)
  }

  lemma NewIs(c: Config, size: int, pacerSize: nat, minPacingDelay: nat)
    requires c.Valid() && size > 0
    ensures NewWhole(c, size, pacerSize, minPacingDelay) ==
              Whole(Initial(c, size), StartSampler(c), P.NewBucket(pacerSize, minPacingDelay), 0)
  {
  }

  lemma NewIsOk(c: Config, size: int, pacerSize: nat, minPacingDelay: nat)
    requires c.Valid() && size > 0
    ensures WholeInv(NewWhole(c, size, pacerSize, minPacingDelay), c)
  {
    hide ModeInv, WindowInv;
    InitialInv(c, size);
  }

  /** Every call keeps the invariants of all three parts. */
  lemma NextKeepsInv(w: Whole, c: Config, a: Call)
    requires c.Valid() && WholeInv(w, c) && w.b.maxDatagramSize > 0 && Permitted(w, a)
    ensures WholeInv(Next(w, c, a), c)
  {
    hide Step, Inv, Octets, Fits, SamplerOk, SamplerAfter, SS.PacketSent, BandwidthForPacer;
    var act := ActionOf(w, a);
    StepKeepsInv(w.b, c, act);
    match a
    case Congestion(_, _, _, _, _, _) =>
      SamplerLater(w.sampler, w.clock, a.now);
      EventKeepsOctets(w.b, c, EventOf(w.sampler, w.b, a));
      EventFits(w.b, c, EventOf(w.sampler, w.b, a));
      StepIsEvent(w.b, c, act.event);
    case Send(now, bytesInFlight, number, bytes, isRetransmittable, _) =>
      OtherActionsKeepSearch(w.b, c, act);
      SendKeepsOk(w.sampler, w.clock, now, number, bytes, bytesInFlight, isRetransmittable);
    case SetSize(_) =>
      OtherActionsKeepSearch(w.b, c, act);
  }

  lemma StepIsEvent(s: Bbr, c: Config, e: Event)
    requires c.highGain != 0.0 && s.maxDatagramSize > 0
    ensures Step(s, c, Acked(e)) == OnEvent(s, c, e)
  {
    hide OnEvent;
  }

  lemma SamplerLater(s: SS.State, clock: nat, now: nat)
    requires SamplerOk(s, clock) && clock <= now
    ensures SamplerOk(s, now)
  {
    hide SS.State.Inv;
  }

  /** What a method that handles a call has to do, and what it may rely on. */
  lemma NextIs(w: Whole, c: Config, a: Call)
    requires c.Valid() && WholeInv(w, c) && Permitted(w, a)
    ensures Inv(w.b, c) && w.b.maxDatagramSize > 0 && w.b.cycleOffset < GAIN_CYCLE_LENGTH
    ensures SamplerOk(w.sampler, w.clock) && w.pacer.lastSentTime <= w.clock
    ensures WholeInv(Next(w, c, a), c)
    ensures Next(w, c, a) ==
              match a
              case Congestion(_, now, acked, lost, _, _) =>
                Whole(OnEvent(w.b, c, EventOf(w.sampler, w.b, a)), SamplerAfter(w.sampler, w.b, c, a), w.pacer, now)
              case Send(now, bytesInFlight, n, bytes, isRetransmittable, statsMinRtt) =>
                Whole(OnPacketSent(w.b, bytesInFlight, n),
                      SS.PacketSent(w.sampler, now, n, bytes, bytesInFlight, isRetransmittable),
                      w.pacer.Sent(now, bytes, BandwidthForPacer(w.b, c, statsMinRtt)), now)
              case SetSize(size) => Whole(Resized(w.b, size), w.sampler, w.pacer.(maxDatagramSize := size), w.clock)
  {
    hide SamplerAfter, SS.PacketSent, BandwidthForPacer, OnEvent, Resized, OnPacketSent, Octets, Fits, SamplerOk;
    NextKeepsInv(w, c, a);
  }

  // ----- Runs

  /** Consecutive states of a whole sender, from its creation on. */
  ghost predicate IsWholeRun(ws: seq<Whole>, c: Config, calls: seq<Call>)
    requires c.highGain != 0.0
  {
    && |ws| == |calls| + 1
    && (exists size: int, pacerSize: nat, delay: nat :: size > 0 && ws[0] == NewWhole(c, size, pacerSize, delay))
    && forall i :: 0 <= i < |calls| ==>
         && Permitted(ws[i], calls[i])
         && (WholeInv(ws[i], c) && ws[i].b.maxDatagramSize > 0 ==> ws[i + 1] == Next(ws[i], c, calls[i]))
  }

  /** In every reachable state the invariants of all three parts hold. */
  lemma {:induction false} WholeRunsKeepInv(ws: seq<Whole>, c: Config, calls: seq<Call>, i: nat)
    requires c.Valid() && IsWholeRun(ws, c, calls) && i < |ws|
    ensures WholeInv(ws[i], c) && ws[i].b.maxDatagramSize > 0
  {
    hide WholeInv, Next, Permitted;
    if i == 0 {
      var size: int, pacerSize: nat, delay: nat :| size > 0 && ws[0] == NewWhole(c, size, pacerSize, delay);
      NewIsOk(c, size, pacerSize, delay);
    } else {
      WholeRunsKeepInv(ws, c, calls, i - 1);
      NextKeepsInv(ws[i - 1], c, calls[i - 1]);
    }
    InvHasSize(ws[i], c);
  }

  lemma InvHasSize(w: Whole, c: Config)
    requires c.highGain != 0.0 && WholeInv(w, c)
    ensures w.b.maxDatagramSize > 0
  {
  }

  /** A whole run goes on with any call permitted in its last state. */
  lemma LongerWholeRun(ws: seq<Whole>, c: Config, calls: seq<Call>, a: Call)
    requires c.Valid() && IsWholeRun(ws, c, calls) && Permitted(ws[|calls|], a)
    ensures WholeInv(ws[|calls|], c) && ws[|calls|].b.maxDatagramSize > 0
    ensures SamplerOk(ws[|calls|].sampler, ws[|calls|].clock) && ws[|calls|].pacer.lastSentTime <= ws[|calls|].clock
    ensures IsWholeRun(ws + [Next(ws[|calls|], c, a)], c, calls + [a])
  {
    hide WholeInv, Next, Permitted, NewWhole;
    WholeRunsKeepInv(ws, c, calls, |calls|);
    InvHasSampler(ws[|calls|], c);
  }

  lemma NewWholeRun(c: Config, size: int, pacerSize: nat, delay: nat)
    requires c.Valid() && size > 0
    ensures IsWholeRun([NewWhole(c, size, pacerSize, delay)], c, [])
  {
  }

  /** The states of the state machine on a run, and its actions. */
  function Machine(ws: seq<Whole>): (states: seq<Bbr>)
    ensures |states| == |ws| && forall i :: 0 <= i < |ws| ==> states[i] == ws[i].b
  {
    seq(|ws|, i requires 0 <= i < |ws| => ws[i].b)
  }

  lemma WholeRunIsOk(ws: seq<Whole>, c: Config, calls: seq<Call>)
    requires c.Valid() && IsWholeRun(ws, c, calls)
    ensures forall i :: 0 <= i < |calls| ==> WholeInv(ws[i], c) && SamplerOk(ws[i].sampler, ws[i].clock)
  {
    hide WholeInv, Next, Permitted;
    forall i | 0 <= i < |calls| ensures WholeInv(ws[i], c) && SamplerOk(ws[i].sampler, ws[i].clock) {
      WholeRunsKeepInv(ws, c, calls, i);
      InvHasSampler(ws[i], c);
    }
  }

  ghost function Actions(ws: seq<Whole>, c: Config, calls: seq<Call>): (actions: seq<Action>)
    requires c.Valid() && IsWholeRun(ws, c, calls)
    ensures |actions| == |calls|
    ensures forall i :: 0 <= i < |calls| ==> WholeInv(ws[i], c) && actions[i] == ActionOf(ws[i], calls[i])
  {
    hide WholeInv, Next, Permitted, ActionOf, SamplerOk;
    WholeRunIsOk(ws, c, calls);
    seq(|calls|, i requires 0 <= i < |calls| => ActionOf(ws[i], calls[i]))
  }

  lemma InvHasSampler(w: Whole, c: Config)
    requires c.highGain != 0.0 && WholeInv(w, c)
    ensures SamplerOk(w.sampler, w.clock) && w.pacer.lastSentTime <= w.clock
  {
  }

  /** A run of the whole sender is a run of the state machine, in which the reports are those
      of the sampler: multiples of 8, with positive RTT samples. */
  lemma WholeRunIsRun(ws: seq<Whole>, c: Config, calls: seq<Call>)
    requires c.Valid() && IsWholeRun(ws, c, calls)
    ensures var actions := Actions(ws, c, calls);
            && IsRun(Machine(ws), c, actions)
            && (forall i :: 0 <= i < |actions| ==> OctetReport(actions[i]))
            && (forall i :: 0 <= i < |actions| && actions[i].Acked? ==> actions[i].event.report.sampleRtt > 0)
  {
    hide WholeInv, Step, Initial;
    var states, actions := Machine(ws), Actions(ws, c, calls);
    forall i | 0 <= i < |actions|
      ensures Allowed(states[i], actions[i])
      ensures states[i].maxDatagramSize > 0 && states[i + 1] == Step(states[i], c, actions[i])
    {
      WholeRunsKeepInv(ws, c, calls, i);
      InvHasSampler(ws[i], c);
    }
  }

  /** So the minimum RTT of a whole sender, as long as it does not expire, is the smallest of
      its old value and the samples since. */
  lemma WholeMinRttIsMinimum(ws: seq<Whole>, c: Config, calls: seq<Call>, i: nat, n: nat)
    requires c.Valid() && IsWholeRun(ws, c, calls) && i <= n < |ws| && ws[i].b.minRtt > 0
    requires var actions := Actions(ws, c, calls); forall j :: i <= j < n ==> !Expires(ws[j].b, actions[j])
    ensures var actions := Actions(ws, c, calls);
            && 0 < ws[n].b.minRtt <= ws[i].b.minRtt
            && (forall j :: i <= j < n && Samples(ws[j].b, actions[j]) ==>
                  ws[n].b.minRtt <= actions[j].event.report.sampleRtt)
            && (ws[n].b.minRtt == ws[i].b.minRtt
                || exists j :: i <= j < n && Samples(ws[j].b, actions[j])
                               && ws[n].b.minRtt == actions[j].event.report.sampleRtt)
  {
    hide IsRun, IsWholeRun, Expires;
    var states, actions := Machine(ws), Actions(ws, c, calls);
    WholeRunIsRun(ws, c, calls);
    WholeRunLength(ws, c, calls);
    MinRttIsMinimum(states, c, actions, i, n);
  }

  lemma WholeRunLength(ws: seq<Whole>, c: Config, calls: seq<Call>)
    requires c.highGain != 0.0 && IsWholeRun(ws, c, calls)
    ensures |ws| == |calls| + 1
  {
  }

  // ----- STARTUP ends on every path

  /** Four raises by a quarter more than double the bandwidth. */
  lemma {:induction false} RaisesDouble(j: nat, k: nat)
    requires k >= 4 * j
    ensures Power(5, k) >= Pow2.Exp2(j) * Power(4, k)
    decreases k
  {
    if k == 0 {
      assert Pow2.Exp2(0) == 1;
    } else if j == 0 {
      RaisesDouble(0, k - 1);
      assert Pow2.Exp2(0) == 1;
    } else {
      RaisesDouble(j - 1, k - 4);
      var p4, p5, d := Power(4, k - 4), Power(5, k - 4), Pow2.Exp2(j - 1);
      FourMore(4, k - 4);
      FourMore(5, k - 4);
      DoubleOfDouble(p4, p5, d);
      assert Pow2.Exp2(j) == 2 * d;
    }
  }

  lemma FourMore(b: nat, k: nat)
    requires b == 4 || b == 5
    ensures Power(b, k + 4) == (if b == 4 then 256 else 625) * Power(b, k)
  {
    assert Power(b, k + 4) == b * Power(b, k + 3);
    assert Power(b, k + 3) == b * Power(b, k + 2);
    assert Power(b, k + 2) == b * Power(b, k + 1);
    assert Power(b, k + 1) == b * Power(b, k);
  }

  lemma DoubleOfDouble(p4: nat, p5: nat, d: nat)
    requires p5 >= d * p4
    ensures 625 * p5 >= (2 * d) * (256 * p4)
  {
    assert (2 * d) * (256 * p4) == 512 * (d * p4);
  }

  lemma Exp2Squared(a: nat, x: nat)
    requires Pow2.Exp2(a) == x
    ensures Pow2.Exp2(2 * a) == x * x && Pow2.Exp2(2 * a + 1) == 2 * (x * x)
  {
    Pow2.Exp2Adds(a, a);
  }

  lemma Exp2Of61()
    ensures Pow2.Exp2(61) == 0x2000_0000_0000_0000
  {
    hide Pow2.Exp2;
    Exp2Of7();
    Exp2Squared(7, 0x80);
    Exp2Squared(15, 0x8000);
    Exp2Squared(30, 0x4000_0000);
  }

  lemma Exp2Of7()
    ensures Pow2.Exp2(7) == 0x80
  {
    assert Pow2.Exp2(3) == 8;
    assert Pow2.Exp2(7) == 16 * Pow2.Exp2(3);
  }

  lemma Beyond64(p4: nat, p5: nat)
    requires p4 > 0 && p5 >= Pow2.Exp2(61) * p4
    ensures 8 * p5 > (SS.UINT64 - 1) * p4
  {
    Exp2Of61();
    assert 8 * (0x2000_0000_0000_0000 * p4) == (SS.UINT64 - 1) * p4 + p4;
  }

  /** 64 bits leave room for at most 243 raises. */
  lemma FewRaises(k: nat)
    requires 8 * Power(5, k) <= (SS.UINT64 - 1) * Power(4, k)
    ensures k <= 243
  {
    hide Power;
    if k >= 244 {
      RaisesDouble(61, k);
      Beyond64(Power(4, k), Power(5, k));
    }
  }

  /** The checks of a run see an estimate. */
  ghost predicate SeesBandwidth(ws: seq<Whole>, c: Config, calls: seq<Call>)
    requires c.Valid() && IsWholeRun(ws, c, calls)
  {
    forall i :: 0 <= i < |calls| && ActionChecks(ws[i].b, Actions(ws, c, calls)[i]) ==>
      Bandwidth(Measured(ws[i].b, Actions(ws, c, calls)[i].event)) > 0
  }

  /** On every run of the whole sender whose checks see an estimate at all, full bandwidth is
      reached after 244 * numStartupRtts fresh round starts at the latest. */
  lemma WholeStartupEnds(ws: seq<Whole>, c: Config, calls: seq<Call>)
    requires c.Valid() && IsWholeRun(ws, c, calls)
    requires SeesBandwidth(ws, c, calls)
    requires FreshRounds(Machine(ws), Actions(ws, c, calls)) > 244 * c.numStartupRtts
    ensures ws[|calls|].b.search.atFullBandwidth
  {
    hide Power, FreshRounds, ChecksMade, Measured, ActionChecks, IsRun, IsWholeRun, Fits;
    var states, actions := Machine(ws), Actions(ws, c, calls);
    WholeRunIsRun(ws, c, calls);
    WholeRunLength(ws, c, calls);
    WholeRunIsStartup(ws, c, calls);
    if !ws[|calls|].b.search.atFullBandwidth {
      FreshRoundsCheck(states, c, actions);
      var k := StartupChecksAreBounded(states, c, actions, SS.UINT64 - 1);
      FewRaises(k);
      MulMonotone(k + 1, 244, c.numStartupRtts);
    }
  }

  lemma WholeRunIsStartup(ws: seq<Whole>, c: Config, calls: seq<Call>)
    requires c.Valid() && IsWholeRun(ws, c, calls) && SeesBandwidth(ws, c, calls)
    ensures StartupRun(Machine(ws), c, Actions(ws, c, calls), SS.UINT64 - 1)
  {
    hide Measured, ActionChecks, IsRun, IsWholeRun, Inv, Octets, SamplerOk;
    var states, actions := Machine(ws), Actions(ws, c, calls);
    WholeRunIsRun(ws, c, calls);
    WholeRunLength(ws, c, calls);
    forall i | 0 <= i < |actions| && ActionChecks(states[i], actions[i])
      ensures actions[i].Acked? && 0 < Bandwidth(Measured(states[i], actions[i].event)) <= SS.UINT64 - 1
    {
      CheckIsEvent(states[i], actions[i]);
      MeasuredFits(states[i], actions[i].event);
    }
  }

  lemma CheckIsEvent(s: Bbr, a: Action)
    requires ActionChecks(s, a)
    ensures a.Acked?
  {
  }

  // ----- Pacing

  /** HasPacingBudget: for a datagram of the sender's size. */
  predicate HasPacingBudget(w: Whole, c: Config, statsMinRtt: nat, now: nat)
    requires w.pacer.lastSentTime <= now
  {
    w.pacer.Budget(now, BandwidthForPacer(w.b, c, statsMinRtt)) >= w.b.maxDatagramSize
  }

  function TimeUntilSend(w: Whole, c: Config, statsMinRtt: nat): nat {
    w.pacer.TimeUntilSend(BandwidthForPacer(w.b, c, statsMinRtt))
  }

  /** The pacer's datagram size is the sender's once it has been set, and until then the one
      it started with. */
  lemma {:induction false} PacerSize(ws: seq<Whole>, c: Config, calls: seq<Call>, i: nat)
    requires c.Valid() && IsWholeRun(ws, c, calls) && i < |ws|
    ensures if exists j :: 0 <= j < i && calls[j].SetSize? then ws[i].pacer.maxDatagramSize == ws[i].b.maxDatagramSize
            else
              && ws[i].pacer.maxDatagramSize == ws[0].pacer.maxDatagramSize
              && ws[i].b.maxDatagramSize == ws[0].b.maxDatagramSize
  {
    hide OnEvent, BandwidthForPacer, P.Bucket.Budget, Permitted, SamplerAfter, WholeInv, Rescale;
    if i > 0 {
      PacerSize(ws, c, calls, i - 1);
      WholeRunsKeepInv(ws, c, calls, i - 1);
      InvHasSampler(ws[i - 1], c);
      SizesMove(ws[i - 1], c, calls[i - 1]);
    }
  }

  lemma SizesMove(w: Whole, c: Config, a: Call)
    requires c.highGain != 0.0 && w.b.maxDatagramSize > 0
    requires SamplerOk(w.sampler, w.clock) && w.pacer.lastSentTime <= w.clock && Permitted(w, a)
    ensures var z := Next(w, c, a);
            if a.SetSize? then z.pacer.maxDatagramSize == z.b.maxDatagramSize == a.size
            else z.pacer.maxDatagramSize == w.pacer.maxDatagramSize && z.b.maxDatagramSize == w.b.maxDatagramSize
  {
    hide SamplerAfter, SS.PacketSent, BandwidthForPacer, Measured, Moded, Sized, IsRoundStart, MinRttExpired, Rescale;
  }

  /** A sender that waits can send: if the pacer does not start with a smaller datagram size
      than the sender, then in every reachable state there is pacing budget from the time
      that TimeUntilSend returns on, and, with nothing in flight, room in the window. */
  lemma WaitingSenderCanSend(ws: seq<Whole>, c: Config, calls: seq<Call>, i: nat, statsMinRtt: nat, now: nat)
    requires c.Valid() && IsWholeRun(ws, c, calls) && i < |ws|
    requires ws[0].b.maxDatagramSize <= ws[0].pacer.maxDatagramSize
    requires ws[i].clock <= now && TimeUntilSend(ws[i], c, statsMinRtt) <= now
    ensures ws[i].pacer.lastSentTime <= now && HasPacingBudget(ws[i], c, statsMinRtt, now) && CanSend(ws[i].b, 0)
  {
    hide BandwidthForPacer, P.Bucket.Budget, P.Bucket.TimeUntilSend, IsWholeRun, GetCongestionWindow, Inv, CanSend;
    WholeRunsKeepInv(ws, c, calls, i);
    PacerSize(ws, c, calls, i);
    P.WaitingIsEnough(ws[i].pacer, BandwidthForPacer(ws[i].b, c, statsMinRtt), now);
    WholeRunIsRun(ws, c, calls);
    WholeRunLength(ws, c, calls);
    WindowAlwaysInBounds(Machine(ws), c, Actions(ws, c, calls), i);
  }
}
