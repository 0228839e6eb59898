/** What the congestion window aims at, in numbers, and how it gets there
    (internal/congestion/bbr/bbr_sender.go). */
module WindowLaws {
  import opened Arithmetic
  import SS = SamplerState
  import opened BbrState
  import opened BbrProofs
  import opened BbrRuns

  // ----- The target of the window

  /** The minimum RTT in nanoseconds: the sender's, else the one of the connection's statistics,
      else 100 ms. */
  function Rtt(s: Bbr, statsMinRtt: nat): nat {
    if s.minRtt > 0 then s.minRtt else if statsMinRtt > 0 then statsMinRtt else 100_000_000
  }

  /** The bandwidth-delay product in bytes, of a bandwidth in bit/s and a time in nanoseconds. */
  function Bdp(s: Bbr, statsMinRtt: nat): real {
    (Rtt(s, statsMinRtt) * s.maxBandwidth.best.sample) as real / 8_000_000_000.0
  }

  /** t is `gain` times the bandwidth-delay product, less than gain + 1 bytes below it; that of
      the initial window when there is no product yet; and never below the minimum window. */
  predicate IsTarget(t: int, s: Bbr, statsMinRtt: nat, gain: real) {
    Aims(t, s.minCongestionWindow, Times(gain, Bdp(s, statsMinRtt)), Times(gain, s.initialCongestionWindow as real),
         gain + 1.0)
  }

  function Times(gain: real, x: real): real { gain * x }

  predicate Aims(t: int, least: int, product: real, initial: real, slack: real) {
    && t >= least
    && (t == least || t as real <= product || t as real <= initial)
    && (product >= slack ==> t as real > product - slack && (t == least || t as real <= product))
    && (product < 1.0 ==> t as real > initial - 1.0 && (t == least || t as real <= initial))
  }

  lemma TruncateIs(x: real)
    requires x >= 0.0
    ensures SS.Truncate(x) >= 0 && SS.Truncate(x) as real <= x < SS.Truncate(x) as real + 1.0
  {
  }

  lemma FloorIs(a: nat)
    ensures (a / 8 / SECOND) as real <= a as real / 8_000_000_000.0 < (a / 8 / SECOND) as real + 1.0
  {
    assert a / 8 / SECOND == a / 8_000_000_000;
    var q, r := a / 8_000_000_000, a % 8_000_000_000;
    assert a as real == q as real * 8_000_000_000.0 + r as real;
  }

  /** The product of an RTT and a bandwidth, and its whole bytes. */
  lemma BdpIs(rtt: nat, bandwidth: nat)
    ensures var n := BdpFromRttAndBandwidth(rtt, bandwidth);
            n as real <= (rtt * bandwidth) as real / 8_000_000_000.0 < n as real + 1.0
  {
    FloorIs(rtt * bandwidth);
  }

  lemma GainedIs(gain: real, n: int)
    requires gain >= 0.0 && n >= 0
    ensures Gained(gain, n) >= 0 && Gained(gain, n) as real <= gain * n as real < Gained(gain, n) as real + 1.0
  {
    ProductNotNegative(gain, n as real);
    TruncateIs(gain * n as real);
  }

  /** Rounding the product down before multiplying loses less than the gain, and rounding the
      result less than one more. */
  lemma RoundedTwice(gain: real, n: nat, x: real)
    requires gain >= 0.0 && n as real <= x < n as real + 1.0
    ensures Gained(gain, n) >= 0 && gain * x - gain - 1.0 < Gained(gain, n) as real <= gain * x
  {
    hide Gained;
    ProductNotNegative(gain, x - n as real);
    ProductNotNegative(gain, n as real + 1.0 - x);
    assert gain * (x - n as real) == gain * x - gain * n as real;
    assert gain * (n as real + 1.0 - x) == gain * n as real + gain - gain * x;
    GainedIs(gain, n);
  }

  lemma Aimed(least: int, n: int, i: int, product: real, initial: real, slack: real)
    requires product - slack < n as real <= product && n >= 0 && i >= 0
    requires i as real <= initial < i as real + 1.0
    ensures Aims(Max(if n == 0 then i else n, least), least, product, initial, slack)
  {
  }

  lemma TargetParts(s: Bbr, statsMinRtt: nat, gain: real)
    ensures Target(s, statsMinRtt, gain) ==
              Max(if Gained(gain, BdpFromRttAndBandwidth(Rtt(s, statsMinRtt), s.maxBandwidth.best.sample)) == 0
                  then Gained(gain, s.initialCongestionWindow)
                  else Gained(gain, BdpFromRttAndBandwidth(Rtt(s, statsMinRtt), s.maxBandwidth.best.sample)),
                  s.minCongestionWindow)
  {
    hide Gained, BdpFromRttAndBandwidth;
  }

  lemma TargetIs(s: Bbr, statsMinRtt: nat, gain: real)
    requires gain >= 0.0 && s.initialCongestionWindow >= 0
    ensures IsTarget(Target(s, statsMinRtt, gain), s, statsMinRtt, gain)
  {
    hide Gained, BdpFromRttAndBandwidth, Aims, Target, Rtt;
    var n := BdpFromRttAndBandwidth(Rtt(s, statsMinRtt), s.maxBandwidth.best.sample);
    TargetParts(s, statsMinRtt, gain);
    BdpIs(Rtt(s, statsMinRtt), s.maxBandwidth.best.sample);
    RoundedTwice(gain, n, Bdp(s, statsMinRtt));
    GainedIs(gain, s.initialCongestionWindow);
    Aimed(s.minCongestionWindow, Gained(gain, n), Gained(gain, s.initialCongestionWindow),
          Times(gain, Bdp(s, statsMinRtt)), Times(gain, s.initialCongestionWindow as real), gain + 1.0);
  }

  // ----- The window after an event

  /** The state of an event just before rate and windows are computed. */
  ghost function Unsized(s: Bbr, c: Config, e: Event): Bbr
    requires c.highGain != 0.0
  {
    Moded(Measured(s, e), c, e, IsRoundStart(s, e), MinRttExpired(s, e.now, e.report))
  }

  lemma UnsizedIs(s: Bbr, c: Config, e: Event)
    requires c.highGain != 0.0
    ensures OnEvent(s, c, e) == Sized(Unsized(s, c, e), c, e, IsRoundStart(s, e))
    ensures KeepsLimits(s, Unsized(s, c, e)) && Unsized(s, c, e).congestionWindow == s.congestionWindow
  {
    hide Measured, Moded, Sized, IsRoundStart, MinRttExpired;
  }

  /** What computing rate and windows leaves alone, and what the new window depends on. */
  lemma SizedIs(m: Bbr, c: Config, e: Event, isRoundStart: bool)
    ensures var z := Sized(m, c, e, isRoundStart);
            && KeepsLimits(m, z) && KeepsEstimates(m, z) && z.mode == m.mode && z.search == m.search
            && z.congestionWindowGain == m.congestionWindowGain
            && z.congestionWindow == if z.mode == ProbeRtt then m.congestionWindow
                                     else NextCongestionWindow(m, c, e.report, e.statsMinRtt)
  {
    hide NextCongestionWindow, UpdateRecoveryWindow, SS.BandwidthFromDelta, TargetRate, Overshoots;
    var p := UpdatePacingRate(m, c, e.report.bytesLost, e.statsMinRtt);
    PacedWindow(m, c, e.report, e.statsMinRtt);
    RecoveryKeepsGain(UpdateWindow(p, c, e.report, e.statsMinRtt), e.report);
  }

  lemma PacedWindow(m: Bbr, c: Config, rep: Report, statsMinRtt: nat)
    ensures var p := UpdatePacingRate(m, c, rep.bytesLost, statsMinRtt);
            && p.congestionWindowGain == m.congestionWindowGain
            && NextCongestionWindow(p, c, rep, statsMinRtt) == NextCongestionWindow(m, c, rep, statsMinRtt)
  {
    hide SS.BandwidthFromDelta, TargetRate, Overshoots, Gained, BdpFromRttAndBandwidth;
  }

  lemma RecoveryKeepsGain(m: Bbr, rep: Report)
    ensures UpdateRecoveryWindow(m, rep).congestionWindowGain == m.congestionWindowGain
  {
    hide NextRecoveryWindow;
  }

  function Clamp(w: int, least: int, most: int): int { Min(Max(w, least), most) }

  /** The window after an event: outside PROBE_RTT, where it stays, it is kept within its limits.
      At full bandwidth it is the target with the room that ack aggregation needs, or what it was
      and the bytes acked, if that is less. Before that it grows by the bytes acked, unless it
      has reached the target and the first 32 datagrams have been acked. */
  lemma WindowAfterEvent(s: Bbr, c: Config, e: Event) returns (t: int)
    requires c.highGain != 0.0 && OnEvent(s, c, e).congestionWindowGain >= 0.0 && s.initialCongestionWindow >= 0
    ensures var z, rep := OnEvent(s, c, e), e.report;
            && IsTarget(t, z, e.statsMinRtt, z.congestionWindowGain)
            && if z.mode == ProbeRtt then z.congestionWindow == s.congestionWindow
               else if z.search.atFullBandwidth then
                 z.congestionWindow == Clamp(Min(t + rep.maxAckHeight, s.congestionWindow + rep.bytesAcked),
                                             z.minCongestionWindow, z.maxCongestionWindow)
               else
                 var room := if c.ackAggregationInStartup then rep.extraAcked else 0;
                 var grows := s.congestionWindow < t + room || rep.totalBytesAcked < s.initialCongestionWindow;
                 z.congestionWindow == Clamp(if grows then s.congestionWindow + rep.bytesAcked else s.congestionWindow,
                                             z.minCongestionWindow, z.maxCongestionWindow)
  {
    hide OnEvent, Unsized, Sized, IsTarget, Target;
    var m := Unsized(s, c, e);
    UnsizedIs(s, c, e);
    SizedIs(m, c, e, IsRoundStart(s, e));
    var z := OnEvent(s, c, e);
    t := Target(z, e.statsMinRtt, z.congestionWindowGain);
    TargetIs(z, e.statsMinRtt, z.congestionWindowGain);
    SameTarget(m, z, e.statsMinRtt, z.congestionWindowGain);
  }

  lemma SameTarget(a: Bbr, b: Bbr, statsMinRtt: nat, gain: real)
    requires KeepsEstimates(a, b) && KeepsLimits(a, b)
    ensures Target(a, statsMinRtt, gain) == Target(b, statsMinRtt, gain)
  {
    hide Gained, BdpFromRttAndBandwidth;
  }

  /** The gain times the bandwidth-delay product after an event. */
  function Product(z: Bbr, e: Event): real { z.congestionWindowGain * Bdp(z, e.statsMinRtt) }

  predicate IsSteady(z: Bbr, e: Event) {
    && z.search.atFullBandwidth && z.mode != ProbeRtt && z.congestionWindowGain >= 0.0
    && Product(z, e) >= z.congestionWindowGain + 1.0
  }

  /** At full bandwidth the window is at most the gain times the bandwidth-delay product, or the
      minimum window, and the bytes of ack aggregation. It falls short of that by at most the gain and one
      byte, or it has grown by all bytes acked, or is at its maximum. */
  lemma WindowFollowsProduct(s: Bbr, c: Config, e: Event)
    requires c.Valid() && WindowInv(s, c) && IsSteady(OnEvent(s, c, e), e)
    ensures var z, rep := OnEvent(s, c, e), e.report;
            && (z.congestionWindow <= z.minCongestionWindow + rep.maxAckHeight
                || z.congestionWindow as real <= Product(z, e) + rep.maxAckHeight as real)
            && (z.congestionWindow as real > Product(z, e) - z.congestionWindowGain - 1.0 + rep.maxAckHeight as real
                || z.congestionWindow >= Min(s.congestionWindow + rep.bytesAcked, z.maxCongestionWindow))
  {
    hide OnEvent, Bdp;
    LimitsInOrder(s, c);
    EventKeepsWindows(s, c, e);
    LimitsInOrder(OnEvent(s, c, e), c);
    var t := WindowAfterEvent(s, c, e);
  }

  /** The bytes that the events of a run acknowledge. */
  function BytesAcked(actions: seq<Action>): (n: nat) {
    if actions == [] then 0
    else
      var a := actions[|actions| - 1];
      BytesAcked(actions[..|actions| - 1]) + if a.Acked? then a.event.report.bytesAcked else 0
  }

  /** An action that keeps the sender steady and aiming at `level` bytes or more. */
  ghost predicate AimsAt(z: Bbr, a: Action, level: int) {
    match a
    case Acked(e) =>
      IsSteady(z, e) && Product(z, e) - z.congestionWindowGain - 1.0 + e.report.maxAckHeight as real >= level as real
    case Sent(_, _) => true
    case Resize(_) => false
  }

  /** The window reaches what every event aims at, once that many bytes have been acked. */
  lemma {:induction false} WindowReachesProduct(states: seq<Bbr>, c: Config, actions: seq<Action>, level: int)
    requires c.Valid() && |states| == |actions| + 1 && WindowInv(states[0], c)
    requires forall i :: 0 <= i < |actions| ==>
               && (states[i].maxDatagramSize > 0 ==> states[i + 1] == Step(states[i], c, actions[i]))
               && AimsAt(states[i + 1], actions[i], level)
    ensures WindowInv(states[|actions|], c) && states[|actions|].maxCongestionWindow == states[0].maxCongestionWindow
    ensures states[|actions|].congestionWindow >=
              Min(level, Min(states[0].congestionWindow + BytesAcked(actions), states[0].maxCongestionWindow))
    decreases |actions|
  {
    hide OnEvent, Resized, IsSteady, Product, WindowInv;
    var n := |actions| - 1;
    if n >= 0 {
      WindowReachesProduct(states[..n + 1], c, actions[..n], level);
      assert states[..n + 1][n] == states[n];
      assert AimsAt(states[n + 1], actions[n], level);
      WindowIsIn(states[n], c);
      WindowStep(states[n], c, actions[n], level);
    } else {
      WindowIsIn(states[0], c);
    }
  }

  lemma WindowIsIn(s: Bbr, c: Config)
    requires c.highGain != 0.0 && WindowInv(s, c)
    ensures s.congestionWindow <= s.maxCongestionWindow && s.maxDatagramSize > 0
  {
  }

  lemma WindowStep(s: Bbr, c: Config, a: Action, level: int)
    requires c.Valid() && WindowInv(s, c) && s.maxDatagramSize > 0 && AimsAt(Step(s, c, a), a, level)
    ensures var z := Step(s, c, a);
            && WindowInv(z, c) && z.maxCongestionWindow == s.maxCongestionWindow
            && z.congestionWindow >=
               Min(level, Min(s.congestionWindow + (if a.Acked? then a.event.report.bytesAcked else 0),
                              s.maxCongestionWindow))
  {
    hide OnEvent, Product;
    match a
    case Acked(e) =>
      WindowFollowsProduct(s, c, e);
      EventKeepsWindows(s, c, e);
      EventKeepsLimits(s, c, e);
    case Sent(_, _) =>
  }

  lemma EventKeepsLimits(s: Bbr, c: Config, e: Event)
    requires c.highGain != 0.0
    ensures KeepsLimits(s, OnEvent(s, c, e))
  {
    hide Unsized, Sized;
    UnsizedIs(s, c, e);
    SizedIs(Unsized(s, c, e), c, e, IsRoundStart(s, e));
  }
}
