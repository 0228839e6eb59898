/** The outbound path of the tunnel: redirect DNS, clamp the MSS, forward
    (api/tunnel.go). */
module Outbound {
  import opened Bytes
  import opened Checksum
  import opened Packet
  import DnsHijack
  import DnsProofs
  import opened MssClamp
  import ClampProofs
  import opened Compose

  /** The packet after the in-place edits that precede WritePacket. */
  function Edited(p: seq<byte>, h: DnsHijack.Targets, mtu: int): (q: seq<byte>)
    ensures |q| == |p|
  {
    ClampedPacket(DnsHijack.RewrittenQuery(p, h), mtu)
  }

  /** What the device pump does with a packet it has read. */
  method SendPacket(rewriter: DnsHijack.DNSRewriter, pkt: array<byte>, mtu: int) returns (r: Composed)
    requires rewriter.Valid()
    modifies pkt, rewriter.shards, set s | s in rewriter.shards :: s.ring
    ensures rewriter.Valid()
    ensures var q := Edited(old(pkt[..]), old(rewriter.targets), mtu);
            if q == [] then r == Nothing
            else if Forwardable(q) then r == Datagram([0] + Forwarded(q))
            else r == Rejected
    ensures var p, ts := old(pkt[..]), old(rewriter.Tables());
            rewriter.Tables() == if DnsHijack.IsQuery(p, old(rewriter.targets)) then DnsHijack.Recorded(ts, p) else ts
  {
    hide DnsHijack.Recorded, DnsHijack.IsQuery, Clamped, Forwarded;
    rewriter.RewriteQuery(pkt);
    ClampMSSPacket(pkt, mtu);
    assert pkt[..] == Edited(old(pkt[..]), old(rewriter.targets), mtu);
    r := ComposeDatagram(pkt);
  }

  /** The upper-layer protocol of a packet and the offset of its header (-1: none). */
  function Upper(p: seq<byte>): (r: (byte, int))
    requires p != [] && FixedHeader(p) <= |p|
  {
    if Version(p) == 4 then (p[9], HeaderLen(p)) else SkipExtHeaders(p, p[6], 40)
  }

  /** A complete packet whose UDP or TCP checksum, if it carries either, passes the receiver's test. */
  predicate TransportOk(p: seq<byte>) {
    && p != [] && FixedHeader(p) <= |p|
    && var (proto, off) := Upper(p);
       (proto == 17 || proto == 6) && FixedHeader(p) <= off <= |p| ==> TransportVerifies(p, proto, off)
  }

  /** What the three edits ask of an outgoing packet. */
  predicate Sendable(p: seq<byte>) {
    && Forwardable(p)
    && TransportOk(p)
    && (Version(p) == 4 ==> HeaderLen(p) == 20)
    && (MssAt(p).Some? ==> (MssAt(p).value - SynAt(p)) % 2 == 0)
  }

  /** Where the checksum that a redirect adjusts lies: directly behind an IPv4 header of 20
      bytes whatever the protocol, and in a UDP header for IPv6. */
  lemma QueryIsAtUpper(p: seq<byte>, h: DnsHijack.Targets)
    requires Sendable(p) && DnsHijack.IsQuery(p, h)
    ensures Version(p) == 4 ==> UdpOffset(p) == 20 && Upper(p) == (p[9], 20)
    ensures Version(p) != 4 ==> Upper(p) == (17, UdpOffset(p)) && SynAt(p) < 0
  {
  }

  /** Segments that agree from the header fields on that say where the MSS is carry it at the same place. */
  lemma SameMss(p: seq<byte>, q: seq<byte>)
    requires |q| == |p| >= 20 && q[0] == p[0] && q[9] == p[9] && Version(p) == 4
    requires forall i :: HeaderLen(p) + 8 <= i < |p| ==> q[i] == p[i]
    ensures MssAt(q) == MssAt(p) && SynAt(q) == SynAt(p)
  {
    hide Walk;
    var t := SynAt(p);
    if t >= 0 {
      var n := DataOffset(p, t);
      assert q[t + 20..t + n] == p[t + 20..t + n];
    }
  }

  lemma RedirectedPacket(p: seq<byte>, h: DnsHijack.Targets)
    requires Sendable(p) && DnsHijack.IsQuery(p, h)
    ensures var q := DnsHijack.RewrittenQuery(p, h);
            && Sendable(q) && Version(q) == Version(p) && HeaderLen(q) == HeaderLen(p) && Hops(q) == Hops(p)
            && (if Version(p) == 4 then q[16..20] == h.h4.value else q[24..40] == h.h6.value)
  {
    hide TransportVerifies, DnsHijack.Redirected, SkipExtHeaders;
    QueryIsAtUpper(p, h);
    var at := if Version(p) == 4 then 16 else 24;
    var addr := if Version(p) == 4 then h.h4.value else h.h6.value;
    var off := UdpOffset(p);
    var q := DnsHijack.RewrittenQuery(p, h);
    DnsProofs.RedirectKeepsRest(p, at, addr, off);
    DnsProofs.RedirectKeepsOffset(p, at, addr);
    if Version(p) == 4 {
      DnsProofs.RedirectKeepsVerification(p, p[9], at, addr, off);
      SameMss(p, q);
    } else {
      DnsProofs.RedirectKeepsVerification(p, 17, at, addr, off);
      assert q[6] == p[6] && q[0] == p[0] && SynAt(q) < 0 && Upper(q) == (17, off);
    }
  }

  /** A clamp of an MSS at an even offset leaves the transport checksum valid. */
  lemma ClampKeepsTransport(p: seq<byte>, maxMSS: int)
    requires TransportOk(p) && (MssAt(p).Some? ==> (MssAt(p).value - SynAt(p)) % 2 == 0)
    ensures var q := Clamped(p, maxMSS);
            && Version(q) == Version(p) && HeaderLen(q) == HeaderLen(p) && Hops(q) == Hops(p)
            && TransportOk(q)
  {
    hide TransportVerifies, Clamped, SkipExtHeaders, MssAt;
    ClampProofs.ClampKeepsRest(p, maxMSS);
    if MssAt(p).Some? {
      TcpFollowsDirectly(p);
      ClampProofs.ClampKeepsChecksum(p, maxMSS);
      var q, t := Clamped(p, maxMSS), SynAt(p);
      assert q[0] == p[0] && q[6] == p[6] && q[7] == p[7] && q[8] == p[8] && q[9] == p[9];
      TcpFollowsDirectly(q);
    }
  }

  lemma TcpFollowsDirectly(p: seq<byte>)
    requires p != [] && FixedHeader(p) <= |p|
    ensures Version(p) != 4 && p[6] == 6 ==> Upper(p) == (6, 40)
  {
  }

  lemma ForwardedTransportOk(p: seq<byte>)
    requires Forwardable(p) && TransportOk(p)
    ensures TransportOk(Forwarded(p))
  {
    hide Forwarded, TransportSum;
    var q := Forwarded(p);
    ForwardedBytes(p);
    var (proto, off) := Upper(p);
    if Version(p) != 4 { UpperUnchanged(p, q); }
    if (proto == 17 || proto == 6) && FixedHeader(p) <= off <= |p| {
      ForwardedKeepsTransport(p, proto, off);
    }
  }

  lemma UpperUnchanged(p: seq<byte>, q: seq<byte>)
    requires |p| == |q| && |p| >= 40 && p[0] == q[0] && p[6] == q[6] && Version(p) != 4
    requires forall i :: 40 <= i < |p| ==> p[i] == q[i]
    ensures Upper(q) == Upper(p)
  {
    SameChain(p, q, p[6], 40);
  }

  lemma {:induction false} SameChain(p: seq<byte>, q: seq<byte>, nh: byte, off: nat)
    requires |p| == |q| && off <= |p|
    requires forall i :: off <= i < |p| ==> p[i] == q[i]
    ensures SkipExtHeaders(q, nh, off) == SkipExtHeaders(p, nh, off)
    decreases |p| - off
  {
    if IsExtHeader(nh) {
      var end := ExtHeaderEnd(p, nh, off);
      if end >= 0 { SameChain(p, q, p[off], end); }
    }
  }

  lemma ForwardedKeepsMss(p: seq<byte>)
    requires Forwardable(p)
    ensures MssAt(Forwarded(p)) == MssAt(p)
    ensures MssAt(p).Some? ==> Word(Forwarded(p), MssAt(p).value) == Word(p, MssAt(p).value)
  {
    hide Forwarded, Walk;
    ForwardedBytes(p);
    var q, t := Forwarded(p), SynAt(p);
    if t >= 0 {
      var n := DataOffset(p, t);
      assert q[t + 20..t + n] == p[t + 20..t + n];
    }
  }

  /** A clamp writes behind the addresses. */
  lemma DestinationKept(p: seq<byte>, maxMSS: int)
    requires Forwardable(p)
    ensures var q := Clamped(p, maxMSS);
            if Version(p) == 4 then q[16..20] == p[16..20] else q[24..40] == p[24..40]
  {
    hide Clamped, Walk;
    ClampProofs.ClampKeepsRest(p, maxMSS);
  }

  /** The outbound path turns a sendable packet into a datagram whose packet has one hop
      less, valid header and transport checksums, the configured DNS server as destination
      of a query, and no advertised MSS above the limit of its family. */
  lemma OutboundKeepsPacketsValid(p: seq<byte>, h: DnsHijack.Targets, mtu: int)
    requires Sendable(p)
    ensures var e := Edited(p, h, mtu);
            Forwardable(e) &&
            var q := Forwarded(e);
            && Hops(q) == Hops(p) - 1
            && Version(q) == Version(p)
            && (Version(p) == 4 ==> HeaderLen(q) == 20 && HeaderVerifies(q))
            && TransportOk(q)
            && (DnsHijack.IsQuery(p, h) ==>
                  if Version(p) == 4 then q[16..20] == h.h4.value else q[24..40] == h.h6.value)
            && (MssAt(q).Some? ==> Word(q, MssAt(q).value) <= Uint16(MSSForMTU(Version(p), mtu)))
  {
    hide DnsHijack.Redirected, Clamped, Forwarded, TransportVerifies, SkipExtHeaders, HeaderVerifies, MssAt,
        DnsHijack.IsQuery, UdpOffset;
    var e := Edited(p, h, mtu);
    var maxMSS := MSSForMTU(Version(p), mtu);
    var r := DnsHijack.RewrittenQuery(p, h);
    if DnsHijack.IsQuery(p, h) { RedirectedPacket(p, h); }
    assert Sendable(r) && Version(r) == Version(p) && Hops(r) == Hops(p);
    ClampKeepsTransport(r, maxMSS);
    ClampProofs.ClampIsIdempotent(r, maxMSS);
    DestinationKept(r, maxMSS);
    ForwardedBytes(e);
    ForwardedTransportOk(e);
    ForwardedKeepsMss(e);
    if Version(p) == 4 { ForwardedHeaderVerifies(e); }
  }
}
