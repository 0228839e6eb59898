/** The filter of extra-acked events: which ack aggregations the sampler remembers
    (internal/congestion/bbr/bandwidth_sampler.go, internal/congestion/bbr/windowed_filter.go). */
module AckHeight {
  import WF = WindowedFilter

  const SECOND := 1_000_000_000

  /** Bytes acked beyond what the bandwidth explains, the bytes acked and the time they are
      computed from, and the round of the event. */
  datatype Height = Height(extraAcked: nat, bytesAcked: nat, timeDelta: int, round: nat)

  datatype Entry = Entry(event: Height, time: nat)

  /** The three estimates of the filter. */
  datatype Heights = Heights(best: Entry, second: Entry, third: Entry)

  const NO_ENTRY := Entry(Height(0, 0, 0, 0), 0)
  const NO_HEIGHTS := Heights(NO_ENTRY, NO_ENTRY, NO_ENTRY)

  function BytesFromBandwidthAndTimeDelta(bandwidth: nat, delta: int): int {
    TruncatedDiv(bandwidth * delta, SECOND * 8)
  }

  function TruncatedDiv(a: int, b: int): int
    requires b > 0
  {
    if a >= 0 then a / b else -((-a) / b)
  }

  /** The filter compares events by their extra bytes. */
  function Key(e: Entry): WF.Estimate { WF.Estimate(e.event.extraAcked, e.time) }

  function Keys(h: Heights): WF.Estimates { WF.Estimates(Key(h.best), Key(h.second), Key(h.third)) }

  function Updated(h: Heights, window: nat, x: Entry): (r: Heights)
    ensures Keys(r) == WF.Updated(Keys(h), window, Key(x))
  {
    var k := x.event.extraAcked;
    if h.best.event.extraAcked == 0 || k >= h.best.event.extraAcked || WF.Age(x.time, Key(h.third)) > window then
      Heights(x, x, x)
    else
      var second := if k >= h.second.event.extraAcked then x else h.second;
      var third := if k >= h.second.event.extraAcked || k >= h.third.event.extraAcked then x else h.third;
      if WF.Age(x.time, Key(h.best)) > window then
        if WF.Age(x.time, Key(second)) > window then Heights(third, x, x) else Heights(second, third, x)
      else if second.event.extraAcked == h.best.event.extraAcked && WF.Age(x.time, Key(second)) > window / 4 then
        Heights(h.best, x, x)
      else if third.event.extraAcked == second.event.extraAcked && WF.Age(x.time, Key(third)) > window / 2 then
        Heights(h.best, second, x)
      else Heights(h.best, second, third)
  }

  /** An event again, with the extra bytes a higher bandwidth leaves, if there are any. */
  function Reinserted(h: Heights, window: nat, e: Height, bandwidth: nat): Heights {
    var expected := BytesFromBandwidthAndTimeDelta(bandwidth, e.timeDelta);
    if expected < e.bytesAcked then
      Updated(h, window, Entry(e.(extraAcked := e.bytesAcked - expected), e.round))
    else h
  }

  /** All three estimates computed anew for a higher bandwidth. */
  function Recalculated(h: Heights, window: nat, bandwidth: nat): Heights {
    var h1 := Reinserted(NO_HEIGHTS, window, h.best.event, bandwidth);
    var h2 := Reinserted(h1, window, h.second.event, bandwidth);
    Reinserted(h2, window, h.third.event, bandwidth)
  }

  // ----- What recalculated heights are worth

  /** Events carry no round of their own. */
  ghost predicate Roundless(h: Heights) {
    h.best.event.round == 0 && h.second.event.round == 0 && h.third.event.round == 0
  }

  ghost predicate Timeless(h: Heights) { h.best.time == 0 && h.second.time == 0 && h.third.time == 0 }

  lemma UpdateKeepsRounds(h: Heights, window: nat, x: Entry)
    requires Roundless(h) && x.event.round == 0
    ensures Roundless(Updated(h, window, x))
    ensures Timeless(h) && x.time == 0 ==> Timeless(Updated(h, window, x))
  {
    hide WF.Updated;
  }

  /** Recalculated heights all carry the time zero, whatever the round is. */
  lemma RecalculatedIsTimeless(h: Heights, window: nat, bandwidth: nat)
    requires Roundless(h)
    ensures Roundless(Recalculated(h, window, bandwidth)) && Timeless(Recalculated(h, window, bandwidth))
  {
    hide Updated, BytesFromBandwidthAndTimeDelta;
    ReinsertedIsTimeless(NO_HEIGHTS, window, h.best.event, bandwidth);
    var h1 := Reinserted(NO_HEIGHTS, window, h.best.event, bandwidth);
    ReinsertedIsTimeless(h1, window, h.second.event, bandwidth);
    ReinsertedIsTimeless(Reinserted(h1, window, h.second.event, bandwidth), window, h.third.event, bandwidth);
  }

  lemma ReinsertedIsTimeless(h: Heights, window: nat, e: Height, bandwidth: nat)
    requires Roundless(h) && Timeless(h) && e.round == 0
    ensures Roundless(Reinserted(h, window, e, bandwidth)) && Timeless(Reinserted(h, window, e, bandwidth))
  {
    hide Updated, BytesFromBandwidthAndTimeDelta;
    var expected := BytesFromBandwidthAndTimeDelta(bandwidth, e.timeDelta);
    if expected < e.bytesAcked {
      UpdateKeepsRounds(h, window, Entry(e.(extraAcked := e.bytesAcked - expected), e.round));
    }
  }

  /** So the next event makes the filter forget all of them exactly if the connection is in a
      round beyond the window by then, or none of them is larger. */
  lemma RecalculationIsForgottenIff(h: Heights, window: nat, bandwidth: nat, x: Entry)
    requires Roundless(h)
    ensures var r := Recalculated(h, window, bandwidth);
            Updated(r, window, x) == Heights(x, x, x) <==>
              || x.time > window
              || r.best.event.extraAcked == 0 || x.event.extraAcked >= r.best.event.extraAcked
  {
    hide Recalculated;
    RecalculatedIsTimeless(h, window, bandwidth);
  }
}
