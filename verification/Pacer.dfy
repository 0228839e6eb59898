/** Token-bucket pacing (internal/congestion/bbr/pacer.go). Times are in nanoseconds,
    bandwidth in bytes per second; the arithmetic is that of a run without 64-bit overflow.
    The bandwidth an operation gets is what `getBandwidth` returns at that moment. */
module Pacer {
  import opened Arithmetic

  const MAX_BURST_PACKETS := 10
  const SECOND := 1_000_000_000

  /** The pacer's state, with the connection's constant. */
  datatype Bucket = Bucket(budgetAtLastSent: nat, maxDatagramSize: nat, lastSentTime: nat, minPacingDelay: nat)
  {
    function MaxBurstSize(bandwidth: nat): (r: nat) {
      Max(4 * minPacingDelay * bandwidth / SECOND, MAX_BURST_PACKETS * maxDatagramSize)
    }

    function Budget(now: nat, bandwidth: nat): (r: nat)
      requires lastSentTime == 0 || lastSentTime <= now
      ensures r <= MaxBurstSize(bandwidth)
    {
      if lastSentTime == 0 then MaxBurstSize(bandwidth)
      else Min(MaxBurstSize(bandwidth), budgetAtLastSent + bandwidth * (now - lastSentTime) / SECOND)
    }

    function Sent(sendTime: nat, size: nat, bandwidth: nat): (b: Bucket)
      requires lastSentTime == 0 || lastSentTime <= sendTime
    {
      var budget := Budget(sendTime, bandwidth);
      this.(budgetAtLastSent := if size > budget then 0 else budget - size, lastSentTime := sendTime)
    }

    /** 0 if a packet can be sent at once. */
    function TimeUntilSend(bandwidth: nat): (r: nat)
      requires bandwidth > 0
    {
      if budgetAtLastSent >= maxDatagramSize then 0
      else
        var diff := SECOND * (maxDatagramSize - budgetAtLastSent);
        lastSentTime + Max(minPacingDelay, diff / bandwidth + if diff % bandwidth > 0 then 1 else 0)
    }
  }

  function NewBucket(initialPacketSize: nat, minPacingDelay: nat): Bucket {
    Bucket(MAX_BURST_PACKETS * initialPacketSize, initialPacketSize, 0, minPacingDelay)
  }

  class Pacer {
    var budgetAtLastSent: nat
    var maxDatagramSize: nat
    var lastSentTime: nat
    const minPacingDelay: nat

    function View(): Bucket
      reads this
    {
      Bucket(budgetAtLastSent, maxDatagramSize, lastSentTime, minPacingDelay)
    }

    constructor (initialPacketSize: nat, minPacingDelay: nat)
      ensures View() == NewBucket(initialPacketSize, minPacingDelay)
    {
      budgetAtLastSent, maxDatagramSize := MAX_BURST_PACKETS * initialPacketSize, initialPacketSize;
      lastSentTime := 0;
      this.minPacingDelay := minPacingDelay;
    }

    function Budget(now: nat, bandwidth: nat): (r: nat)
      reads this
      requires lastSentTime == 0 || lastSentTime <= now
    {
      View().Budget(now, bandwidth)
    }

    method SentPacket(sendTime: nat, size: nat, bandwidth: nat)
      requires lastSentTime == 0 || lastSentTime <= sendTime
      modifies this
      ensures View() == old(View()).Sent(sendTime, size, bandwidth)
    {
      var budget := Budget(sendTime, bandwidth);
      if size > budget {
        budgetAtLastSent := 0;
      } else {
        budgetAtLastSent := budget - size;
      }
      lastSentTime := sendTime;
    }

    /** From the time returned on there is budget for a full packet. */
    function TimeUntilSend(bandwidth: nat): (r: nat)
      reads this
      requires bandwidth > 0
      ensures forall now :: lastSentTime <= now && r <= now ==> Budget(now, bandwidth) >= maxDatagramSize
    {
      AlwaysEnough(View(), bandwidth);
      View().TimeUntilSend(bandwidth)
    }

    method SetMaxDatagramSize(s: nat)
      modifies this
      ensures View() == old(View()).(maxDatagramSize := s)
    {
      maxDatagramSize := s;
    }
  }

  // ----- Waiting until the returned time is enough

  /** Rounding up the waiting time makes the bandwidth deliver the missing bytes. */
  lemma CeilingDelivers(need: nat, bw: nat, elapsed: nat)
    requires bw > 0
    requires var diff := SECOND * need; elapsed >= diff / bw + if diff % bw > 0 then 1 else 0
    ensures bw * elapsed / SECOND >= need
  {
    var diff := SECOND * need;
    var d := diff / bw + if diff % bw > 0 then 1 else 0;
    assert d * bw >= diff by {
      assert diff == bw * (diff / bw) + diff % bw;
      assert (diff / bw) * bw == bw * (diff / bw);
      assert (diff / bw + 1) * bw == (diff / bw) * bw + bw;
    }
    MulMonotone(d, elapsed, bw);
    assert bw * elapsed == elapsed * bw >= SECOND * need;
  }

  /** From the time TimeUntilSend returns on (or from the last send on, if it returns 0) there
      is budget for a full packet, so a sender that waits for it can send. */
  lemma WaitingIsEnough(b: Bucket, bw: nat, now: nat)
    requires bw > 0 && b.lastSentTime <= now && b.TimeUntilSend(bw) <= now
    ensures b.Budget(now, bw) >= b.maxDatagramSize
  {
    hide Bucket.MaxBurstSize;
    BurstHoldsPacket(b, bw);
    if b.lastSentTime > 0 && b.budgetAtLastSent < b.maxDatagramSize {
      CeilingDelivers(b.maxDatagramSize - b.budgetAtLastSent, bw, now - b.lastSentTime);
    } else if b.lastSentTime > 0 {
      MulMonotone(0, now - b.lastSentTime, bw);
    }
  }

  lemma BurstHoldsPacket(b: Bucket, bw: nat)
    ensures b.MaxBurstSize(bw) >= b.maxDatagramSize
  {
  }

  lemma AlwaysEnough(b: Bucket, bw: nat)
    requires bw > 0
    ensures forall now :: b.lastSentTime <= now && b.TimeUntilSend(bw) <= now ==> b.Budget(now, bw) >= b.maxDatagramSize
  {
    forall now | b.lastSentTime <= now && b.TimeUntilSend(bw) <= now ensures b.Budget(now, bw) >= b.maxDatagramSize {
      WaitingIsEnough(b, bw, now);
    }
  }

  /** One unit of time less would not deliver the missing bytes. */
  lemma CeilingIsTight(need: nat, bw: nat, elapsed: nat)
    requires bw > 0
    requires var diff := SECOND * need; elapsed < diff / bw + if diff % bw > 0 then 1 else 0
    ensures bw * elapsed / SECOND < need
  {
    var diff := SECOND * need;
    var q, r := diff / bw, diff % bw;
    assert diff == bw * q + r;
    if r > 0 {
      MulMonotone(elapsed, q, bw);
      assert bw * elapsed == elapsed * bw <= q * bw == bw * q < diff;
    } else {
      MulMonotone(elapsed + 1, q, bw);
      assert (elapsed + 1) * bw == elapsed * bw + bw;
      assert bw * elapsed == elapsed * bw < q * bw == bw * q == diff;
    }
    FloorBelow(bw * elapsed, need);
  }

  lemma FloorBelow(x: nat, need: nat)
    requires x < SECOND * need
    ensures x / SECOND < need
  {
  }

  /** When a packet has to wait, TimeUntilSend is the earliest time at which the minimal delay
      has passed and there is budget for a full packet. */
  lemma WaitingIsExact(b: Bucket, bw: nat, now: nat)
    requires bw > 0 && b.lastSentTime > 0 && b.budgetAtLastSent < b.maxDatagramSize && b.lastSentTime <= now
    ensures b.TimeUntilSend(bw) <= now <==>
              b.lastSentTime + b.minPacingDelay <= now && b.Budget(now, bw) >= b.maxDatagramSize
  {
    if b.TimeUntilSend(bw) <= now {
      WaitingIsEnough(b, bw, now);
    } else if b.lastSentTime + b.minPacingDelay <= now {
      CeilingIsTight(b.maxDatagramSize - b.budgetAtLastSent, bw, now - b.lastSentTime);
    }
  }

  /** Whatever its state, a pacer for datagrams of one size has budget for one of another size
      from the time on that it returns. */
  ghost predicate WaitingSuffices(pacerSize: nat, size: nat) {
    forall b: Bucket, bw: nat, now: nat ::
      b.maxDatagramSize == pacerSize && bw > 0 && b.lastSentTime <= now && b.TimeUntilSend(bw) <= now ==>
        b.Budget(now, bw) >= size
  }

  /** That is so exactly for sizes that are not larger. */
  lemma WaitingSufficesIff(pacerSize: nat, size: nat)
    ensures WaitingSuffices(pacerSize, size) <==> size <= pacerSize
  {
    if size <= pacerSize {
      forall b: Bucket, bw: nat, now: nat
        | b.maxDatagramSize == pacerSize && bw > 0 && b.lastSentTime <= now && b.TimeUntilSend(bw) <= now
        ensures b.Budget(now, bw) >= size
      {
        WaitingIsEnough(b, bw, now);
      }
    } else {
      var b := Bucket(pacerSize, pacerSize, 1, 0);
      assert b.TimeUntilSend(1) <= 1 && b.Budget(1, 1) < size;
    }
  }

  /** Between two times the budget grows by at most what the bandwidth delivers, rounded up,
      and never shrinks. */
  lemma BudgetGrows(b: Bucket, bw: nat, s: nat, t: nat)
    requires b.lastSentTime <= s <= t
    ensures b.Budget(s, bw) <= b.Budget(t, bw) <= b.Budget(s, bw) + bw * (t - s) / SECOND + 1
  {
    if b.lastSentTime > 0 {
      var e := s - b.lastSentTime;
      MulMonotone(e, t - b.lastSentTime, bw);
      assert bw * (t - b.lastSentTime) == bw * e + bw * (t - s) by {
        assert t - b.lastSentTime == e + (t - s);
      }
      FloorOfSum(bw * e, bw * (t - s));
    } else {
      MulMonotone(0, t - s, bw);
    }
  }

  lemma FloorOfSum(x: nat, y: nat)
    ensures x / SECOND <= (x + y) / SECOND <= x / SECOND + y / SECOND + 1
  {
  }

  // ----- How much can be sent in an interval

  /** A packet sent, with the bandwidth of that moment. */
  datatype Packet = Packet(time: nat, size: nat, bandwidth: nat)

  /** Packets sent one after the other, each within the budget at its time. */
  ghost predicate SentWithinBudget(b: Bucket, ps: seq<Packet>)
    decreases |ps|
  {
    ps != [] ==>
      && ps[0].time > 0
      && b.lastSentTime <= ps[0].time
      && ps[0].size <= b.Budget(ps[0].time, ps[0].bandwidth)
      && SentWithinBudget(b.Sent(ps[0].time, ps[0].size, ps[0].bandwidth), ps[1..])
  }

  function TotalSize(ps: seq<Packet>): (n: nat) {
    if ps == [] then 0 else ps[0].size + TotalSize(ps[1..])
  }

  lemma FloorsAdd(bw: nat, s: nat, t: nat)
    ensures bw * s / SECOND + bw * t / SECOND <= bw * (s + t) / SECOND
  {
    assert bw * (s + t) == bw * s + bw * t;
  }

  /** A larger bandwidth delivers no less in the same time. */
  lemma DeliveredGrows(bw: nat, limit: nat, elapsed: nat)
    requires bw <= limit
    ensures bw * elapsed / SECOND <= limit * elapsed / SECOND
  {
    MulMonotone(bw, limit, elapsed);
    DivMonotone(bw * elapsed, limit * elapsed);
  }

  lemma DivMonotone(x: nat, y: nat)
    requires x <= y
    ensures x / SECOND <= y / SECOND
  {
  }

  /** With a send at `b.lastSentTime` behind them, later packets use at most the budget left
      then plus what the largest bandwidth delivers until the last of them. */
  lemma {:induction false} LaterPackets(b: Bucket, ps: seq<Packet>, limit: nat)
    requires b.lastSentTime > 0 && ps != [] && SentWithinBudget(b, ps)
    requires forall p :: p in ps ==> p.bandwidth <= limit
    ensures ps[|ps| - 1].time >= b.lastSentTime
    ensures TotalSize(ps) <= b.budgetAtLastSent + limit * (ps[|ps| - 1].time - b.lastSentTime) / SECOND
    decreases |ps|
  {
    hide Bucket.MaxBurstSize;
    var p, rest := ps[0], ps[1..];
    var b' := b.Sent(p.time, p.size, p.bandwidth);
    var elapsed := p.time - b.lastSentTime;
    DeliveredGrows(p.bandwidth, limit, elapsed);
    if rest == [] {
      assert TotalSize(ps) == p.size;
    } else {
      LaterPackets(b', rest, limit);
      assert rest[|rest| - 1] == ps[|ps| - 1];
      FloorsAdd(limit, elapsed, ps[|ps| - 1].time - p.time);
    }
  }

  /** In any time interval, packets each sent within budget add up to at most one maximal
      burst plus what the bandwidth, at its largest, delivers between the first and the last. */
  lemma IntervalBound(b: Bucket, ps: seq<Packet>, limit: nat)
    requires ps != [] && SentWithinBudget(b, ps) && forall p :: p in ps ==> p.bandwidth <= limit
    ensures ps[|ps| - 1].time >= ps[0].time
    ensures TotalSize(ps) <=
              Max(4 * b.minPacingDelay * limit / 1_000_000_000, 10 * b.maxDatagramSize) +
              limit * (ps[|ps| - 1].time - ps[0].time) / 1_000_000_000
  {
    hide Bucket.MaxBurstSize;
    var p := ps[0];
    var b' := b.Sent(p.time, p.size, p.bandwidth);
    BurstIs(b, limit);
    BurstGrows(b, p.bandwidth, limit);
    if |ps| == 1 {
      assert ps[1..] == [];
      assert TotalSize(ps) == p.size;
    } else {
      LaterPackets(b', ps[1..], limit);
      assert ps[1..][|ps| - 2] == ps[|ps| - 1];
    }
  }

  lemma BurstGrows(b: Bucket, bw: nat, limit: nat)
    requires bw <= limit
    ensures b.MaxBurstSize(bw) <= b.MaxBurstSize(limit)
  {
    MulMonotone(bw, limit, 4 * b.minPacingDelay);
    assert 4 * b.minPacingDelay * bw == bw * (4 * b.minPacingDelay);
    assert 4 * b.minPacingDelay * limit == limit * (4 * b.minPacingDelay);
    DivMonotone(4 * b.minPacingDelay * bw, 4 * b.minPacingDelay * limit);
  }

  /** The largest burst: what the bandwidth delivers in four minimal delays, or ten packets. */
  lemma BurstIs(b: Bucket, bw: nat)
    ensures b.MaxBurstSize(bw) == Max(4 * b.minPacingDelay * bw / 1_000_000_000, 10 * b.maxDatagramSize)
  {
  }

  // ----- What is left of the budget

  function AfterAll(b: Bucket, ps: seq<Packet>): (r: Bucket)
    requires SentWithinBudget(b, ps)
    decreases |ps|
  {
    if ps == [] then b else AfterAll(b.Sent(ps[0].time, ps[0].size, ps[0].bandwidth), ps[1..])
  }

  /** Packets sent at one time, all at the same bandwidth, within one largest burst. */
  ghost predicate Burst(ps: seq<Packet>, t: nat, bw: nat) { forall p :: p in ps ==> p.time == t && p.bandwidth == bw }

  /** At one time any packets are within budget that together are, and the budget left is what
      they do not use. */
  lemma {:induction false} BudgetCanBeUsedUp(b: Bucket, ps: seq<Packet>, t: nat, bw: nat)
    requires t > 0 && b.lastSentTime <= t && Burst(ps, t, bw) && TotalSize(ps) <= b.Budget(t, bw)
    ensures SentWithinBudget(b, ps) && AfterAll(b, ps).lastSentTime <= t
    ensures AfterAll(b, ps).Budget(t, bw) == b.Budget(t, bw) - TotalSize(ps)
    decreases |ps|
  {
    hide Bucket.MaxBurstSize;
    if ps != [] {
      var b' := b.Sent(t, ps[0].size, bw);
      SameBurst(b, b', bw);
      BudgetCanBeUsedUp(b', ps[1..], t, bw);
    }
  }

  /** A new pacer lets any packets pass at once that add up to at most one largest burst. */
  lemma NewPacerAllowsBurst(size: nat, delay: nat, ps: seq<Packet>, t: nat, bw: nat)
    requires t > 0 && Burst(ps, t, bw)
    requires TotalSize(ps) <= Max(4 * delay * bw / 1_000_000_000, 10 * size)
    ensures var b := NewBucket(size, delay);
            && SentWithinBudget(b, ps) && AfterAll(b, ps).lastSentTime <= t
            && AfterAll(b, ps).Budget(t, bw) == Max(4 * delay * bw / 1_000_000_000, 10 * size) - TotalSize(ps)
  {
    BurstIs(NewBucket(size, delay), bw);
    BudgetCanBeUsedUp(NewBucket(size, delay), ps, t, bw);
  }

  /** What the bandwidth delivers between two times, in whole bytes. */
  function Delivered(bw: nat, s: nat, t: nat): (n: nat)
    requires s <= t
  {
    bw * (t - s) / 1_000_000_000
  }

  /** When the last of the packets is sent, if there are any. */
  function LastTime(b: Bucket, ps: seq<Packet>): nat { if ps == [] then b.lastSentTime else ps[|ps| - 1].time }

  /** Nothing delivered is lost: before each packet and at the end, what was there and has been
      delivered without having been sent is at most the largest burst. */
  ghost predicate NeverFull(b: Bucket, ps: seq<Packet>, now: nat, bw: nat) {
    && b.lastSentTime <= now
    && b.budgetAtLastSent + Delivered(bw, b.lastSentTime, now) - TotalSize(ps) <= b.MaxBurstSize(bw)
    && forall k :: 0 <= k < |ps| ==>
         && b.lastSentTime <= ps[k].time <= now
         && b.budgetAtLastSent + Delivered(bw, b.lastSentTime, ps[k].time) - TotalSize(ps[..k]) <= b.MaxBurstSize(bw)
  }

  /** At constant bandwidth the budget is what was there plus what has been delivered less what
      has been sent, if none of it was lost, up to one byte of rounding for each packet sent. */
  lemma {:induction false} BudgetIsConserved(b: Bucket, ps: seq<Packet>, now: nat, bw: nat)
    requires b.lastSentTime > 0 && SentWithinBudget(b, ps) && (forall p :: p in ps ==> p.bandwidth == bw)
    requires NeverFull(b, ps, now, bw)
    ensures AfterAll(b, ps).lastSentTime == LastTime(b, ps)
    ensures var left := b.budgetAtLastSent + Delivered(bw, b.lastSentTime, now) - TotalSize(ps);
            left - |ps| <= AfterAll(b, ps).Budget(now, bw) <= left
    decreases |ps|
  {
    hide Bucket.MaxBurstSize, Delivered;
    if ps != [] {
      var p, rest := ps[0], ps[1..];
      var b' := b.Sent(p.time, p.size, bw);
      assert p.bandwidth == bw;
      FirstIsNotFull(b, ps, now, bw);
      RestIsNotFull(b, ps, now, bw);
      BudgetIsConserved(b', rest, now, bw);
      DeliveredAdds(bw, b.lastSentTime, p.time, now);
    } else {
      DeliveredIs(b, bw, now);
    }
  }

  lemma DeliveredIs(b: Bucket, bw: nat, now: nat)
    requires 0 < b.lastSentTime <= now
    ensures b.Budget(now, bw) == Min(b.MaxBurstSize(bw), b.budgetAtLastSent + Delivered(bw, b.lastSentTime, now))
  {
  }

  lemma DeliveredAdds(bw: nat, s: nat, t: nat, u: nat)
    requires s <= t <= u
    ensures Delivered(bw, s, t) + Delivered(bw, t, u) <= Delivered(bw, s, u)
    ensures Delivered(bw, s, u) <= Delivered(bw, s, t) + Delivered(bw, t, u) + 1
  {
    assert bw * (u - s) == bw * (t - s) + bw * (u - t) by { assert u - s == (t - s) + (u - t); }
    FloorOfSum(bw * (t - s), bw * (u - t));
  }

  lemma FirstIsNotFull(b: Bucket, ps: seq<Packet>, now: nat, bw: nat)
    requires ps != [] && b.lastSentTime > 0 && NeverFull(b, ps, now, bw)
    ensures b.lastSentTime <= ps[0].time <= now
    ensures b.Budget(ps[0].time, bw) == b.budgetAtLastSent + Delivered(bw, b.lastSentTime, ps[0].time)
  {
    hide Bucket.MaxBurstSize;
    assert ps[..0] == [];
  }

  lemma RestIsNotFull(b: Bucket, ps: seq<Packet>, now: nat, bw: nat)
    requires ps != [] && b.lastSentTime > 0 && ps[0].bandwidth == bw && SentWithinBudget(b, ps)
    requires NeverFull(b, ps, now, bw)
    ensures NeverFull(b.Sent(ps[0].time, ps[0].size, bw), ps[1..], now, bw)
  {
    hide Bucket.MaxBurstSize, Delivered;
    var p, rest := ps[0], ps[1..];
    var b' := b.Sent(p.time, p.size, bw);
    FirstIsNotFull(b, ps, now, bw);
    SameBurst(b, b', bw);
    DeliveredAdds(bw, b.lastSentTime, p.time, now);
    TimesInOrder(b, ps);
    forall k | 0 <= k < |rest|
      ensures b'.lastSentTime <= rest[k].time <= now
      ensures b'.budgetAtLastSent + Delivered(bw, b'.lastSentTime, rest[k].time) - TotalSize(rest[..k])
              <= b'.MaxBurstSize(bw)
    {
      assert rest[k] == ps[k + 1];
      assert ps[..k + 1] == [p] + rest[..k];
      assert ps[..k + 1][1..] == rest[..k];
      DeliveredAdds(bw, b.lastSentTime, p.time, rest[k].time);
    }
  }

  lemma SameBurst(b: Bucket, b': Bucket, bw: nat)
    requires b'.minPacingDelay == b.minPacingDelay && b'.maxDatagramSize == b.maxDatagramSize
    ensures b'.MaxBurstSize(bw) == b.MaxBurstSize(bw)
  {
  }

  lemma {:induction false} TimesInOrder(b: Bucket, ps: seq<Packet>)
    requires SentWithinBudget(b, ps)
    ensures forall k :: 0 <= k < |ps| ==> b.lastSentTime <= ps[0].time <= ps[k].time
    decreases |ps|
  {
    hide Bucket.MaxBurstSize;
    if |ps| > 1 {
      TimesInOrder(b.Sent(ps[0].time, ps[0].size, ps[0].bandwidth), ps[1..]);
      forall k | 1 <= k < |ps| ensures ps[0].time <= ps[k].time { assert ps[k] == ps[1..][k - 1]; }
    }
  }
}
