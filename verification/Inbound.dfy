/** The inbound path of the tunnel: restore the source of DNS answers, clamp the MSS
    (api/tunnel.go). */
module Inbound {
  import opened Wrappers
  import opened Bytes
  import opened Checksum
  import opened Packet
  import opened NatTable
  import DnsHijack
  import DnsProofs
  import opened MssClamp
  import ClampProofs
  import Compose
  import opened Outbound

  /** The recorded destination that RewriteResponse finds for a packet, if it looks for one. */
  function Found(p: seq<byte>, h: DnsHijack.Targets, ts: seq<Table>): (orig: Option<Dst>)
    requires |ts| == DnsHijack.NUM_SHARDS
  {
    if DnsHijack.IsResponse(p, h) then DnsHijack.Original(ts, p) else None
  }

  /** The packet as it is written to the device. */
  function Delivered(p: seq<byte>, h: DnsHijack.Targets, orig: Option<Dst>, mtu: int): (q: seq<byte>)
    ensures |q| == |p|
  {
    ClampedPacket(DnsHijack.RewrittenResponse(p, h, orig), mtu)
  }

  /** What the inbound pump does with a packet it has read. */
  method ReceivePacket(rewriter: DnsHijack.DNSRewriter, pkt: array<byte>, mtu: int)
    requires rewriter.Valid()
    modifies pkt, rewriter.shards
    ensures rewriter.Valid() && rewriter.targets == old(rewriter.targets)
    ensures var p, h, ts := old(pkt[..]), old(rewriter.targets), old(rewriter.Tables());
            && pkt[..] == Delivered(p, h, Found(p, h, ts), mtu)
            && rewriter.Tables() == if DnsHijack.IsResponse(p, h) then DnsHijack.Taken(ts, p) else ts
  {
    hide DnsHijack.Taken, DnsHijack.Original, Clamped, DnsHijack.Redirected, UdpOffset;
    rewriter.RewriteResponse(pkt);
    ghost var tables := rewriter.Tables();
    ClampMSSPacket(pkt, mtu);
    assert rewriter.Tables() == tables;
  }

  /** What the two edits ask of an arriving packet. */
  predicate Receivable(p: seq<byte>) {
    TransportOk(p) && (MssAt(p).Some? ==> (MssAt(p).value - SynAt(p)) % 2 == 0)
  }

  /** Both packets claim the same header, and its checksum passes the receiver's test for both or neither. */
  ghost predicate SameHeader(p: seq<byte>, q: seq<byte>)
    requires p != [] && FixedHeader(p) <= |p| && |q| == |p|
  {
    && Version(q) == Version(p) && HeaderLen(q) == HeaderLen(p) && Compose.Hops(q) == Compose.Hops(p)
    && (Version(p) == 4 && 20 <= HeaderLen(p) <= |p| ==> (HeaderVerifies(q) <==> HeaderVerifies(p)))
  }

  /** A packet from port 53 is an IPv4 packet with anything behind its header, or UDP. */
  lemma ResponseIsAtUpper(p: seq<byte>, h: DnsHijack.Targets)
    requires DnsHijack.IsResponse(p, h)
    ensures Version(p) == 4 ==> UdpOffset(p) == HeaderLen(p) && Upper(p) == (p[9], HeaderLen(p))
    ensures Version(p) != 4 ==> Version(p) == 6 && Upper(p) == (17, UdpOffset(p)) && SynAt(p) < 0
  {
  }

  /** Restoring a source keeps the packet receivable. */
  lemma RestoredPacket(p: seq<byte>, h: DnsHijack.Targets, orig: Dst)
    requires Receivable(p) && DnsHijack.IsResponse(p, h)
    ensures var q := DnsHijack.RewrittenResponse(p, h, Some(orig));
            && Receivable(q) && SameHeader(p, q)
            && (if Version(p) == 4 then q[12..16] == orig[..4] && q[16..20] == p[16..20]
                else q[8..24] == orig && q[24..40] == p[24..40])
  {
    hide TransportVerifies, DnsHijack.Redirected, SkipExtHeaders, HeaderVerifies;
    ResponseIsAtUpper(p, h);
    var at := if Version(p) == 4 then 12 else 8;
    var addr: seq<byte> := if Version(p) == 4 then orig[..4] else orig;
    var off := UdpOffset(p);
    var q := DnsHijack.RewrittenResponse(p, h, Some(orig));
    DnsProofs.RedirectKeepsRest(p, at, addr, off);
    DnsProofs.RedirectKeepsOffset(p, at, addr);
    if Version(p) == 4 {
      DnsProofs.RedirectKeepsVerification(p, p[9], at, addr, off);
      DnsProofs.RedirectKeepsHeaderVerification(p, at, addr, off);
      SameMss(p, q);
    } else {
      DnsProofs.RedirectKeepsVerification(p, 17, at, addr, off);
      assert q[6] == p[6] && q[0] == p[0] && SynAt(q) < 0 && Upper(q) == (17, off);
    }
  }

  /** A clamp writes behind the IP header. */
  lemma ClampKeepsHeader(p: seq<byte>, maxMSS: int)
    requires p != [] && FixedHeader(p) <= |p|
    ensures var q := Clamped(p, maxMSS);
            && SameHeader(p, q)
            && (if Version(p) == 4 then q[12..20] == p[12..20] else q[8..40] == p[8..40])
  {
    hide Clamped, Walk, WordSum;
    ClampProofs.ClampKeepsRest(p, maxMSS);
    var q := Clamped(p, maxMSS);
    if Version(p) == 4 && 20 <= HeaderLen(p) <= |p| {
      assert q[..HeaderLen(p)] == p[..HeaderLen(p)];
    }
  }

  /** The inbound path hands a receivable packet of any protocol to the device with the hop
      count, the destination and the validity of the header checksum it had, a valid
      transport checksum, the recorded address as source of an answer and its own source
      otherwise, and no advertised MSS above the limit of its family. */
  lemma InboundKeepsPacketsValid(p: seq<byte>, h: DnsHijack.Targets, orig: Option<Dst>, mtu: int)
    requires Receivable(p) && (orig.Some? ==> DnsHijack.IsResponse(p, h))
    ensures var q := Delivered(p, h, orig, mtu);
            && SameHeader(p, q)
            && TransportOk(q)
            && (if Version(p) == 4
                then q[12..16] == (if orig.Some? then orig.value[..4] else p[12..16]) && q[16..20] == p[16..20]
                else q[8..24] == (if orig.Some? then orig.value else p[8..24]) && q[24..40] == p[24..40])
            && (MssAt(q).Some? ==> Word(q, MssAt(q).value) <= Uint16(MSSForMTU(Version(p), mtu)))
  {
    hide DnsHijack.Redirected, Clamped, TransportVerifies, SkipExtHeaders, HeaderVerifies, MssAt, UdpOffset;
    var r := DnsHijack.RewrittenResponse(p, h, orig);
    var maxMSS := MSSForMTU(Version(p), mtu);
    if orig.Some? { RestoredPacket(p, h, orig.value); }
    assert Receivable(r) && SameHeader(p, r);
    ClampKeepsTransport(r, maxMSS);
    ClampKeepsHeader(r, maxMSS);
    ClampProofs.ClampIsIdempotent(r, maxMSS);
    var q := Clamped(r, maxMSS);
    if Version(p) == 4 {
      assert q[12..16] == q[12..20][..4] && q[16..20] == q[12..20][4..];
      assert r[12..16] == r[12..20][..4] && r[16..20] == r[12..20][4..];
    } else {
      assert q[8..24] == q[8..40][..16] && q[24..40] == q[8..40][16..];
      assert r[8..24] == r[8..40][..16] && r[24..40] == r[8..40][16..];
    }
  }

  /** Through the whole inbound path, the answer to a query reaches the device with the
      address the query was sent to as its source. */
  lemma AnswerComesBack(ts: seq<Table>, p: seq<byte>, es: seq<DnsProofs.Event>, r: seq<byte>, h: DnsHijack.Targets,
                        mtu: int)
    requires |ts| == DnsHijack.NUM_SHARDS && forall t :: t in ts ==> t.Valid() && |t.ring| == DnsHijack.MAX_PER_SHARD
    requires DnsHijack.IsQuery(p, h) && DnsHijack.IsResponse(r, h) && DnsProofs.Answers(r, p)
    requires DnsHijack.QueryKey(p) !in ts[DnsHijack.QueryKey(p).port % DnsHijack.NUM_SHARDS].ring
    requires var key := DnsHijack.QueryKey(p);
             var ops := DnsProofs.OpsOn(es, h, key.port % DnsHijack.NUM_SHARDS);
             QueryCount(ops) <= DnsHijack.MAX_PER_SHARD - 1 && forall op :: op in ops ==> !Mentions(op, key)
    ensures var after := DnsProofs.RunShards(DnsProofs.StepShards(ts, DnsProofs.Outbound(p), h), es, h);
            var q := Delivered(r, h, Found(r, h, after), mtu);
            if Version(p) == 4 then q[12..16] == p[16..20] else q[8..24] == p[24..40]
  {
    hide DnsHijack.Redirected, Clamped, SkipExtHeaders, DnsProofs.RunShards, DnsProofs.StepShards, DnsProofs.OpsOn,
         QueryCount, DnsHijack.Original, DnsHijack.QueryKey;
    DnsProofs.DnsRoundTrip(ts, p, es, r, h);
    var after := DnsProofs.RunShards(DnsProofs.StepShards(ts, DnsProofs.Outbound(p), h), es, h);
    var r' := DnsHijack.RewrittenResponse(r, h, DnsHijack.Original(after, r));
    SameFamily(r, h, DnsHijack.Original(after, r));
    var q := Delivered(r, h, Found(r, h, after), mtu);
    ClampKeepsHeader(r', MSSForMTU(Version(r), mtu));
    if Version(p) == 4 {
      assert q[12..16] == q[12..20][..4] && r'[12..16] == r'[12..20][..4];
    } else {
      assert q[8..24] == q[8..40][..16] && r'[8..24] == r'[8..40][..16];
    }
  }

  lemma SameFamily(r: seq<byte>, h: DnsHijack.Targets, orig: Option<Dst>)
    requires DnsHijack.IsResponse(r, h)
    ensures var q := DnsHijack.RewrittenResponse(r, h, orig); q[0] == r[0] && FixedHeader(r) <= |r|
  {
    hide DnsHijack.Redirected;
    if orig.Some? {
      if Version(r) == 4 {
        DnsProofs.RedirectKeepsRest(r, 12, orig.value[..4], UdpOffset(r));
      } else {
        DnsProofs.RedirectKeepsRest(r, 8, orig.value, UdpOffset(r));
      }
    }
  }
}
