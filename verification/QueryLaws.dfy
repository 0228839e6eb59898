/** Which packets the DNS rewriter takes for queries and answers, said in bytes and encoded
    extension headers (internal/dns_hijack.go). */
module QueryLaws {
  import opened Wrappers
  import opened Bytes
  import opened NatTable
  import opened Packet
  import opened DnsHijack
  import opened DnsProofs

  // ----- Chains of IPv6 extension headers

  /** A header of section 4 of RFC 8200, of RFC 4302 or of RFC 6275; its first byte names the
      header behind it. */
  datatype ExtHeader = ExtHeader(kind: byte, second: byte, rest: seq<byte>) {
    predicate Valid() {
      if kind == 44 then |rest| == 6
      else if kind == 51 then |rest| == second * 4 + 6
      else (kind == 0 || kind == 43 || kind == 60 || kind == 135) && |rest| == second * 8 + 6
    }
  }

  predicate AllValid(hs: seq<ExtHeader>) { forall h :: h in hs ==> h.Valid() }

  function FirstKind(hs: seq<ExtHeader>, proto: byte): byte { if hs == [] then proto else hs[0].kind }

  /** The bytes of a chain in front of an upper-layer protocol. */
  function EncodeChain(hs: seq<ExtHeader>, proto: byte): (b: seq<byte>) {
    if hs == [] then []
    else [FirstKind(hs[1..], proto), hs[0].second] + hs[0].rest + EncodeChain(hs[1..], proto)
  }

  /** The chain lies at `off`. */
  predicate HasChain(p: seq<byte>, off: nat, hs: seq<ExtHeader>, proto: byte) {
    off + |EncodeChain(hs, proto)| <= |p| && p[off..off + |EncodeChain(hs, proto)|] == EncodeChain(hs, proto)
  }

  /** A chain at `off` is one header and a chain behind it. */
  lemma ChainSplits(p: seq<byte>, off: nat, hs: seq<ExtHeader>, proto: byte)
    requires hs != []
    ensures var n := 2 + |hs[0].rest|;
            && |EncodeChain(hs, proto)| == n + |EncodeChain(hs[1..], proto)|
            && (HasChain(p, off, hs, proto) <==>
                  && off + n <= |p| && p[off] == FirstKind(hs[1..], proto) && p[off + 1] == hs[0].second
                  && p[off + 2..off + n] == hs[0].rest && HasChain(p, off + n, hs[1..], proto))
  {
    var n, tail := 2 + |hs[0].rest|, EncodeChain(hs[1..], proto);
    var head := [FirstKind(hs[1..], proto), hs[0].second] + hs[0].rest;
    assert EncodeChain(hs, proto) == head + tail;
    if off + n + |tail| <= |p| {
      var s := p[off..off + n + |tail|];
      SplitAgrees(s, head, tail);
      SliceParts(p, off, n, |tail|);
      HeaderAgrees(p, off, head);
    }
  }

  lemma SplitAgrees(s: seq<byte>, a: seq<byte>, b: seq<byte>)
    requires |s| == |a| + |b|
    ensures s == a + b <==> s[..|a|] == a && s[|a|..] == b
  {
    assert s == s[..|a|] + s[|a|..];
    assert (a + b)[..|a|] == a && (a + b)[|a|..] == b;
  }

  lemma SliceParts(p: seq<byte>, off: nat, n: nat, m: nat)
    requires off + n + m <= |p|
    ensures p[off..off + n + m][..n] == p[off..off + n] && p[off..off + n + m][n..] == p[off + n..off + n + m]
  {
  }

  lemma HeaderAgrees(p: seq<byte>, off: nat, head: seq<byte>)
    requires |head| >= 2 && off + |head| <= |p|
    ensures p[off..off + |head|] == head <==>
              p[off] == head[0] && p[off + 1] == head[1] && p[off + 2..off + |head|] == head[2..]
  {
    var s := p[off..off + |head|];
    assert s[0] == p[off] && s[1] == p[off + 1] && s[2..] == p[off + 2..off + |head|];
    assert s == [s[0], s[1]] + s[2..] && head == [head[0], head[1]] + head[2..];
  }

  /** The walk passes over an encoded chain to the protocol behind it. */
  lemma {:induction false} WalkPassesChain(p: seq<byte>, off: nat, hs: seq<ExtHeader>, proto: byte)
    requires AllValid(hs) && HasChain(p, off, hs, proto) && !IsExtHeader(proto)
    ensures SkipExtHeaders(p, FirstKind(hs, proto), off) == (proto, off + |EncodeChain(hs, proto)|)
    decreases |hs|
  {
    hide EncodeChain, HasChain;
    if hs == [] {
      assert |EncodeChain(hs, proto)| == 0 by { EmptyChain(p, off, proto); }
      assert HasChain(p, off, hs, proto);
    } else {
      ChainSplits(p, off, hs, proto);
      assert hs[0].Valid();
      WalkPassesChain(p, off + 2 + |hs[0].rest|, hs[1..], proto);
    }
  }

  lemma EmptyChain(p: seq<byte>, off: nat, proto: byte)
    ensures EncodeChain([], proto) == [] && (HasChain(p, off, [], proto) <==> off <= |p|)
  {
  }

  /** Whatever the walk passes over is an encoded chain. */
  lemma {:induction false} WalkedIsChain(p: seq<byte>, nh: byte, off: nat) returns (hs: seq<ExtHeader>)
    requires off <= |p| && SkipExtHeaders(p, nh, off).1 >= 0
    ensures var (proto, end) := SkipExtHeaders(p, nh, off);
            && AllValid(hs) && FirstKind(hs, proto) == nh && HasChain(p, off, hs, proto)
            && end == off + |EncodeChain(hs, proto)|
    decreases |p| - off
  {
    hide EncodeChain, HasChain;
    var (proto, end) := SkipExtHeaders(p, nh, off);
    if !IsExtHeader(nh) {
      hs := [];
      EmptyChain(p, off, proto);
    } else {
      var next := ExtHeaderEnd(p, nh, off);
      var tail := WalkedIsChain(p, p[off], next);
      var h := ExtHeader(nh, p[off + 1], p[off + 2..next]);
      assert h.Valid();
      hs := [h] + tail;
      assert hs[1..] == tail;
      ChainSplits(p, off, hs, proto);
    }
  }

  // ----- Where the ports are

  /** An IPv4 packet with 8 bytes behind a header of length n. */
  predicate Carries4(p: seq<byte>, n: nat) {
    |p| > 0 && p[0] / 16 == 4 && n == 4 * (p[0] % 16) && n >= 20 && n + 8 <= |p|
  }

  /** An IPv6 packet with 8 bytes of UDP behind a chain of n - 40 bytes. */
  ghost predicate Carries6(p: seq<byte>, n: nat) {
    |p| >= 48 && p[0] / 16 == 6 && n + 8 <= |p| && exists hs :: IsChain(p, hs, n)
  }

  predicate IsChain(p: seq<byte>, hs: seq<ExtHeader>, n: nat)
    requires |p| >= 48
  {
    && AllValid(hs) && p[6] == FirstKind(hs, 17) && n == 40 + |EncodeChain(hs, 17)| <= |p|
    && p[40..n] == EncodeChain(hs, 17)
  }

  lemma PortsOf(p: seq<byte>)
    ensures forall n: nat :: Carries4(p, n) || Carries6(p, n) <==> UdpOffset(p) == n
    ensures UdpOffset(p) >= 0 ==> (Carries4(p, UdpOffset(p)) <==> Version(p) == 4)
  {
    forall n: nat | Carries6(p, n) ensures UdpOffset(p) == n { Ports6(p, n); }
    if UdpOffset(p) >= 0 && Version(p) == 6 { Chain6(p); }
  }

  lemma Ports6(p: seq<byte>, n: nat)
    requires Carries6(p, n)
    ensures UdpOffset(p) == n
  {
    hide SkipExtHeaders, EncodeChain;
    var hs :| IsChain(p, hs, n);
    assert HasChain(p, 40, hs, 17);
    WalkPassesChain(p, 40, hs, 17);
  }

  lemma Chain6(p: seq<byte>)
    requires UdpOffset(p) >= 0 && Version(p) == 6
    ensures Carries6(p, UdpOffset(p))
  {
    hide SkipExtHeaders, EncodeChain;
    var hs := WalkedIsChain(p, p[6], 40);
    assert IsChain(p, hs, UdpOffset(p));
  }

  // ----- Queries

  /** An IPv4 packet to port 53 that is not a fragment, whatever its other flags. */
  predicate Dns4(p: seq<byte>, n: nat) {
    Carries4(p, n) && p[n + 2] == 0 && p[n + 3] == 53 && p[6] % 32 == 0 && p[7] == 0
  }

  /** An IPv6 packet to port 53; fragments are not told apart. */
  ghost predicate Dns6(p: seq<byte>, n: nat) {
    Carries6(p, n) && p[n + 2] == 0 && p[n + 3] == 53
  }

  ghost predicate Sharded(ts: seq<Table>) { |ts| == 16 && forall t :: t in ts ==> t.Valid() }

  /** The table that remembers under which address a port's query was sent. */
  predicate Remembers(ts: seq<Table>, key: Key, dst: Dst)
    requires |ts| == 16
  {
    key in ts[key.port % 16].pending && ts[key.port % 16].pending[key] == dst
  }

  predicate OthersAsBefore(ts: seq<Table>, ts': seq<Table>, port: nat) {
    |ts| == |ts'| == 16 && forall i :: 0 <= i < 16 && i != port % 16 ==> ts'[i] == ts[i]
  }

  lemma QueryIff(p: seq<byte>, h: Targets)
    ensures IsQuery(p, h) <==> exists n: nat :: (Dns4(p, n) && h.h4.Some?) || (Dns6(p, n) && h.h6.Some?)
    ensures forall n: nat :: Dns4(p, n) ==> UdpOffset(p) == n && Version(p) == 4
    ensures forall n: nat :: Dns6(p, n) ==> UdpOffset(p) == n && Version(p) == 6
  {
    hide UdpOffset, Carries6;
    PortsOf(p);
    if IsQuery(p, h) {
      var n := UdpOffset(p);
      assert (Dns4(p, n) && h.h4.Some?) || (Dns6(p, n) && h.h6.Some?);
    }
    forall n: nat | Dns6(p, n) ensures UdpOffset(p) == n && Version(p) == 6 { Version6(p, n); }
  }

  lemma Version6(p: seq<byte>, n: nat)
    requires Carries6(p, n)
    ensures p != [] && Version(p) == 6
  {
  }

  /** What is recorded for a query. */
  lemma RecordedIs(ts: seq<Table>, p: seq<byte>)
    requires Sharded(ts) && UdpOffset(p) >= 0
    ensures Remembers(Recorded(ts, p), QueryKey(p), QueryDst(p))
    ensures OthersAsBefore(ts, Recorded(ts, p), QueryKey(p).port)
  {
    hide QueryKey, QueryDst, UdpOffset;
  }

  /** An IPv4 query leaves for the configured server, and its own destination is remembered
      under its source address and port, in the shard of that port. */
  lemma QueryIsRedirected4(ts: seq<Table>, p: seq<byte>, h: Targets, n: nat)
    requires Sharded(ts) && Dns4(p, n) && h.h4.Some?
    ensures var q, ts', port := RewrittenQuery(p, h), StepShards(ts, Outbound(p), h), 256 * (p[n] as int) + p[n + 1];
            && |q| == |p| && q[16..20] == h.h4.value
            && (forall i :: 0 <= i < |p| && !(10 <= i < 12) && !(16 <= i < 20) && !(n + 6 <= i < n + 8) ==>
                  q[i] == p[i])
            && Remembers(ts', Key(p[12..16] + seq(12, _ => 0), port, true), p[16..20] + seq(12, _ => 0))
            && OthersAsBefore(ts, ts', port)
  {
    hide Redirected, UdpOffset, Remembers, OthersAsBefore, Recorded;
    QueryIff(p, h);
    RecordedIs(ts, p);
    RedirectKeepsRest(p, 16, h.h4.value, n);
    assert forall i: nat :: Touched(16, 4, n, i) ==> 10 <= i < 12 || 16 <= i < 20 || n + 6 <= i < n + 8;
  }

  /** The same for an IPv6 query, whatever extension headers it has. */
  lemma QueryIsRedirected6(ts: seq<Table>, p: seq<byte>, h: Targets, n: nat)
    requires Sharded(ts) && Dns6(p, n) && h.h6.Some?
    ensures var q, ts', port := RewrittenQuery(p, h), StepShards(ts, Outbound(p), h), 256 * (p[n] as int) + p[n + 1];
            && |q| == |p| && q[24..40] == h.h6.value
            && (forall i :: 0 <= i < |p| && !(24 <= i < 40) && !(n + 6 <= i < n + 8) ==> q[i] == p[i])
            && Remembers(ts', Key(p[8..24], port, false), p[24..40])
            && OthersAsBefore(ts, ts', port)
  {
    hide Redirected, UdpOffset, Remembers, OthersAsBefore, Recorded;
    QueryIff(p, h);
    RecordedIs(ts, p);
    RedirectKeepsRest(p, 24, h.h6.value, n);
    assert forall i: nat :: Touched(24, 16, n, i) ==> 24 <= i < 40 || n + 6 <= i < n + 8;
  }

  /** Every other packet leaves as it came, and nothing is remembered for it. */
  lemma OthersAreLeftAlone(ts: seq<Table>, p: seq<byte>, h: Targets)
    requires Sharded(ts)
    requires forall n: nat :: !(Dns4(p, n) && h.h4.Some?) && !(Dns6(p, n) && h.h6.Some?)
    ensures RewrittenQuery(p, h) == p && StepShards(ts, Outbound(p), h) == ts
  {
    hide IsQuery, Dns4, Dns6;
    QueryIff(p, h);
  }

  // ----- Answers

  /** A packet from port 53 of the configured server. */
  predicate FromServer4(r: seq<byte>, n: nat, h: Targets) {
    Carries4(r, n) && r[n] == 0 && r[n + 1] == 53 && h.h4.Some? && r[12..16] == h.h4.value
  }

  ghost predicate FromServer6(r: seq<byte>, n: nat, h: Targets) {
    Carries6(r, n) && r[n] == 0 && r[n + 1] == 53 && h.h6.Some? && r[8..24] == h.h6.value
  }

  lemma ResponseIff(r: seq<byte>, h: Targets)
    ensures IsResponse(r, h) <==> exists n: nat :: FromServer4(r, n, h) || FromServer6(r, n, h)
    ensures forall n: nat :: FromServer4(r, n, h) ==> UdpOffset(r) == n && Version(r) == 4
    ensures forall n: nat :: FromServer6(r, n, h) ==> UdpOffset(r) == n && Version(r) == 6
  {
    hide UdpOffset, Carries6;
    PortsOf(r);
    if IsResponse(r, h) {
      var n := UdpOffset(r);
      assert FromServer4(r, n, h) || FromServer6(r, n, h);
    }
    forall n: nat | FromServer6(r, n, h) ensures UdpOffset(r) == n && Version(r) == 6 { Version6(r, n); }
  }

  /** What RewriteResponse makes of a packet. */
  function Answered(ts: seq<Table>, r: seq<byte>, h: Targets): seq<byte>
    requires |ts| == 16
  {
    if IsResponse(r, h) then RewrittenResponse(r, h, Original(ts, r)) else r
  }

  /** An entry of the shard of a key's port has been used up. */
  predicate Forgets(ts: seq<Table>, ts': seq<Table>, key: Key)
    requires |ts| == 16
  {
    && OthersAsBefore(ts, ts', key.port)
    && ts'[key.port % 16] == ts[key.port % 16].(pending := ts[key.port % 16].pending - {key})
  }

  lemma TakenIs(ts: seq<Table>, r: seq<byte>)
    requires Sharded(ts) && UdpOffset(r) >= 0
    ensures Forgets(ts, Taken(ts, r), ResponseKey(r))
    ensures forall d :: Original(ts, r) == Some(d) <==> Remembers(ts, ResponseKey(r), d)
  {
    hide ResponseKey, UdpOffset;
  }

  /** The server's answer gets the remembered address as its source, and the entry of its own
      destination address and port is forgotten; with no entry it arrives as it came. */
  lemma AnswerIsRestored4(ts: seq<Table>, r: seq<byte>, h: Targets, n: nat)
    requires Sharded(ts) && FromServer4(r, n, h)
    ensures var key := Key(r[16..20] + seq(12, _ => 0), 256 * (r[n + 2] as int) + r[n + 3], true);
            var q, ts' := Answered(ts, r, h), StepShards(ts, Inbound(r), h);
            && |q| == |r| && Forgets(ts, ts', key)
            && (forall d :: Remembers(ts, key, d) ==> q[12..16] == d[..4])
            && (key !in ts[key.port % 16].pending ==> q == r)
  {
    hide Redirected, UdpOffset, Forgets, Remembers, Taken, Original;
    ResponseIff(r, h);
    TakenIs(ts, r);
    var key, orig := ResponseKey(r), Original(ts, r);
    assert orig.None? <==> key !in ts[key.port % 16].pending by { OriginalIs(ts, r); }
    if orig.Some? { RedirectKeepsRest(r, 12, orig.value[..4], n); }
  }

  lemma OriginalIs(ts: seq<Table>, r: seq<byte>)
    requires Sharded(ts) && UdpOffset(r) >= 0
    ensures Original(ts, r).None? <==> ResponseKey(r) !in ts[ResponseKey(r).port % 16].pending
  {
    hide ResponseKey, UdpOffset;
  }

  lemma AnswerIsRestored6(ts: seq<Table>, r: seq<byte>, h: Targets, n: nat)
    requires Sharded(ts) && FromServer6(r, n, h)
    ensures var key := Key(r[24..40], 256 * (r[n + 2] as int) + r[n + 3], false);
            var q, ts' := Answered(ts, r, h), StepShards(ts, Inbound(r), h);
            && |q| == |r| && Forgets(ts, ts', key)
            && (forall d :: Remembers(ts, key, d) ==> q[8..24] == d)
            && (key !in ts[key.port % 16].pending ==> q == r)
  {
    hide Redirected, UdpOffset, Forgets, Remembers, Taken, Original;
    ResponseIff(r, h);
    TakenIs(ts, r);
    var key, orig := ResponseKey(r), Original(ts, r);
    assert orig.None? <==> key !in ts[key.port % 16].pending by { OriginalIs(ts, r); }
    if orig.Some? { RedirectKeepsRest(r, 8, orig.value, n); }
  }

  /** Every other packet arrives as it came, and no entry is used up. */
  lemma OthersArriveUnchanged(ts: seq<Table>, r: seq<byte>, h: Targets)
    requires Sharded(ts) && forall n: nat :: !FromServer4(r, n, h) && !FromServer6(r, n, h)
    ensures Answered(ts, r, h) == r && StepShards(ts, Inbound(r), h) == ts
  {
    hide IsResponse, FromServer4, FromServer6;
    ResponseIff(r, h);
  }

  // ----- There and back

  /** An IPv4 answer to the asker's address and port comes back from the address that was asked,
      if no slot of the shard names the asker, none of the packets in between has the asker's
      key, and at most 255 of them are queries of the same shard. */
  lemma QueryThenAnswer4(ts: seq<Table>, p: seq<byte>, m: nat, es: seq<Event>, r: seq<byte>, n: nat, h: Targets)
    requires Sharded(ts) && forall t :: t in ts ==> |t.ring| == 256
    requires Dns4(p, m) && FromServer4(r, n, h)
    requires r[16..20] == p[12..16] && r[n + 2..n + 4] == p[m..m + 2]
    requires var key := Key(p[12..16] + seq(12, _ => 0), 256 * (p[m] as int) + p[m + 1], true);
             && key !in ts[key.port % 16].ring
             && QueryCount(OpsOn(es, h, key.port % 16)) <= 255
             && forall op :: op in OpsOn(es, h, key.port % 16) ==> !Mentions(op, key)
    ensures var after := RunShards(StepShards(ts, Outbound(p), h), es, h);
            Answered(after, r, h)[12..16] == p[16..20]
  {
    hide UdpOffset, RunShards, StepShards, OpsOn, RewrittenResponse, Original;
    QueryIff(p, h);
    ResponseIff(r, h);
    assert r[n + 2..n + 4] == [r[n + 2], r[n + 3]] && p[m..m + 2] == [p[m], p[m + 1]];
    DnsRoundTrip(ts, p, es, r, h);
  }

  /** The same for IPv6. */
  lemma QueryThenAnswer6(ts: seq<Table>, p: seq<byte>, m: nat, es: seq<Event>, r: seq<byte>, n: nat, h: Targets)
    requires Sharded(ts) && forall t :: t in ts ==> |t.ring| == 256
    requires Dns6(p, m) && FromServer6(r, n, h)
    requires r[24..40] == p[8..24] && r[n + 2..n + 4] == p[m..m + 2]
    requires var key := Key(p[8..24], 256 * (p[m] as int) + p[m + 1], false);
             && key !in ts[key.port % 16].ring
             && QueryCount(OpsOn(es, h, key.port % 16)) <= 255
             && forall op :: op in OpsOn(es, h, key.port % 16) ==> !Mentions(op, key)
    ensures var after := RunShards(StepShards(ts, Outbound(p), h), es, h);
            Answered(after, r, h)[8..24] == p[24..40]
  {
    hide UdpOffset, RunShards, StepShards, OpsOn, RewrittenResponse, Original;
    QueryIff(p, h);
    ResponseIff(r, h);
    assert r[n + 2..n + 4] == [r[n + 2], r[n + 3]] && p[m..m + 2] == [p[m], p[m + 1]];
    DnsRoundTrip(ts, p, es, r, h);
  }
}
