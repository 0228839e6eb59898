/** Packets over a connection (connect-ip/conn.go): what is sent, and what is let in. */
module Conn {
  import opened Wrappers
  import opened Bytes
  import opened Varint
  import opened IPRange
  import opened RangeCover
  import opened Packet
  import opened Compose
  import opened H2Datagram

  const ICMP := 1
  const ICMP_V6 := 58

  type Prefixes = seq<Prefix>

  datatype Route = Route(start: Addr, end: Addr, ipProtocol: byte)

  /** The addresses and routes of a connection. */
  datatype Policy = Policy(peerAddresses: Option<Prefixes>, assignedAddresses: Prefixes, localRoutes: seq<Route>) {
    predicate Valid() {
      && (peerAddresses.Some? ==> forall p :: p in peerAddresses.value ==> p.bits <= p.addr.BitLen())
      && forall p :: p in assignedAddresses ==> p.bits <= p.addr.BitLen()
    }
  }

  const FRESH := Policy(None, [], [])

  // ----- Incoming packets

  function Source(p: seq<byte>): (a: Addr)
    requires p != [] && FixedHeader(p) <= |p|
  {
    if Version(p) == 4 then Addr(true, Number(p[12..16])) else Addr(false, Number(p[8..24]))
  }

  function Destination(p: seq<byte>): (a: Addr)
    requires p != [] && FixedHeader(p) <= |p|
  {
    if Version(p) == 4 then Addr(true, Number(p[16..20])) else Addr(false, Number(p[24..40]))
  }

  function Protocol(p: seq<byte>): byte
    requires p != [] && FixedHeader(p) <= |p|
  {
    if Version(p) == 4 then p[9] else p[6]
  }

  predicate WellFormed(p: seq<byte>) {
    p != [] && (Version(p) == 4 || Version(p) == 6) && FixedHeader(p) <= |p|
  }

  predicate InPrefixes(prefixes: Prefixes, a: Addr)
    requires forall p :: p in prefixes ==> p.bits <= p.addr.BitLen()
  {
    exists i :: 0 <= i < |prefixes| && prefixes[i].Contains(a)
  }

  /** Whether one advertised route lets a packet in; ICMP always passes. */
  predicate RouteAllows(r: Route, p: seq<byte>)
    requires WellFormed(p)
  {
    && InRoute(r.start, r.end, Destination(p))
    && (Protocol(p) == (if Version(p) == 4 then ICMP else ICMP_V6) || r.ipProtocol == 0 || r.ipProtocol == Protocol(p))
  }

  /** handleIncomingProxiedPacket, for a packet it accepts. */
  method HandleIncomingProxiedPacket(pol: Policy, data: seq<byte>, allowAny: bool) returns (ok: bool)
    requires pol.Valid()
    ensures ok <==> Accepts(pol, data, allowAny)
  {
    hide Prefix.Contains, InRoute;
    if |data| == 0 { return false; }
    var src, dst, ipProto;
    var v := Version(data);
    if v == 4 {
      if |data| < 20 { return false; }
      src, dst, ipProto := Addr(true, Number(data[12..16])), Addr(true, Number(data[16..20])), data[9];
    } else if v == 6 {
      if |data| < 40 { return false; }
      src, dst, ipProto := Addr(false, Number(data[8..24])), Addr(false, Number(data[24..40])), data[6];
    } else {
      return false;
    }
    if pol.peerAddresses.Some? && !InPrefixes(pol.peerAddresses.value, src) { return false; }
    var isAllowedDst := allowAny;
    if |pol.assignedAddresses| > 0 {
      isAllowedDst := InPrefixes(pol.assignedAddresses, dst);
    }
    if !isAllowedDst {
      for i := 0 to |pol.localRoutes|
        invariant !isAllowedDst && forall j :: 0 <= j < i ==> !RouteAllows(pol.localRoutes[j], data)
      {
        var r := pol.localRoutes[i];
        if InRoute(r.start, r.end, dst)
           && ((v == 4 && ipProto == ICMP) || (v == 6 && ipProto == ICMP_V6)
               || r.ipProtocol == 0 || r.ipProtocol == ipProto) {
          return true;
        }
      }
    }
    return isAllowedDst;
  }

  /** The condition for letting a packet in. An assigned address makes allowAny void: the
      destination must then be assigned or routed. */
  predicate Accepts(pol: Policy, p: seq<byte>, allowAny: bool)
    requires pol.Valid()
  {
    && WellFormed(p)
    && (pol.peerAddresses.Some? ==> InPrefixes(pol.peerAddresses.value, Source(p)))
    && (  (pol.assignedAddresses == [] && allowAny)
       || InPrefixes(pol.assignedAddresses, Destination(p))
       || exists i :: 0 <= i < |pol.localRoutes| && RouteAllows(pol.localRoutes[i], p))
  }

  /** What ReadPacket makes of one datagram. */
  datatype Verdict = Malformed | Dropped | Take(packet: seq<byte>)

  function Judge(pol: Policy, data: seq<byte>, allowAny: bool): (v: Verdict)
    requires pol.Valid()
  {
    var contextID := Decode(data);
    if contextID.None? then Malformed
    else if contextID.value.value != 0 then Dropped
    else
      var p := data[contextID.value.n..];
      if Accepts(pol, p, allowAny) then Take(p) else Dropped
  }

  datatype Read = Read(verdict: Verdict, rest: seq<seq<byte>>)

  /** Where ReadPacket stops in a sequence of datagrams, if it does: at the first that is not dropped. */
  function FirstRead(pol: Policy, datagrams: seq<seq<byte>>, allowAny: bool): (r: Option<Read>)
    requires pol.Valid()
  {
    if datagrams == [] then None
    else
      var v := Judge(pol, datagrams[0], allowAny);
      if v.Dropped? then FirstRead(pol, datagrams[1..], allowAny) else Some(Read(v, datagrams[1..]))
  }

  /** Datagram payloads behind context ID zero, as the HTTP/2 stream hands them out. */
  function Tagged(ds: seq<seq<byte>>): (ts: seq<seq<byte>>) {
    if ds == [] then [] else [[0] + ds[0]] + Tagged(ds[1..])
  }

  /** The packets a connection lets in from a sequence of datagram payloads. */
  function Admitted(pol: Policy, ds: seq<seq<byte>>, allowAny: bool): (ps: seq<seq<byte>>)
    requires pol.Valid()
  {
    if ds == [] then []
    else (if Accepts(pol, ds[0], allowAny) then [ds[0]] else []) + Admitted(pol, ds[1..], allowAny)
  }

  lemma ContextZero(pol: Policy, p: seq<byte>, allowAny: bool)
    requires pol.Valid()
    ensures Decode([0] + p) == Some(Parsed(0, 1)) && ([0] + p)[1..] == p
    ensures Judge(pol, [0] + p, allowAny) == if Accepts(pol, p, allowAny) then Take(p) else Dropped
  {
    hide Accepts;
    assert [0] + ([0] + p)[1..1] == [0];
    NumberOfByte(0);
  }

  /** Over HTTP/2, ReadPacket never sees a malformed datagram: it stops at the first payload
      that is admitted, having used up k payloads, and the rest is still to be admitted. */
  lemma {:induction false} ReadsAdmitted(pol: Policy, ds: seq<seq<byte>>, allowAny: bool) returns (k: nat)
    requires pol.Valid()
    ensures k <= |ds|
    ensures var ps := Admitted(pol, ds, allowAny);
            if ps == [] then FirstRead(pol, Tagged(ds), allowAny) == None
            else FirstRead(pol, Tagged(ds), allowAny) == Some(Read(Take(ps[0]), Tagged(ds[k..])))
                 && Admitted(pol, ds[k..], allowAny) == ps[1..]
  {
    hide Judge, Accepts, Decode;
    if ds == [] {
      k := 0;
    } else {
      ContextZero(pol, ds[0], allowAny);
      assert Tagged(ds)[0] == [0] + ds[0] && Tagged(ds)[1..] == Tagged(ds[1..]);
      if Accepts(pol, ds[0], allowAny) {
        k := 1;
      } else {
        var k' := ReadsAdmitted(pol, ds[1..], allowAny);
        k := k' + 1;
        assert ds[1..][k'..] == ds[k..];
      }
    }
  }

  // ----- The connection

  class Conn {
    const stream: H2DatagramStream
    var policy: Policy

    constructor (stream: H2DatagramStream)
      ensures this.stream == stream && policy == FRESH
    {
      this.stream := stream;
      policy := FRESH;
    }

    /** A packet that can be forwarded is written as one DATAGRAM capsule; others are
        dropped without an error, except that an empty one fails. */
    method WritePacket(b: array<byte>) returns (ok: bool)
      requires b.Length < LIMIT - 1
      modifies b, stream`sent
      ensures var p := old(b[..]);
              if Forwardable(p) then
                && ok == stream.open && b[..] == Forwarded(p)
                && stream.sent == old(stream.sent) + if ok then CapsuleBytes(DATAGRAM, Forwarded(p)) else []
              else ok == (p != []) && b[..] == p && stream.sent == old(stream.sent)
    {
      hide Forwarded, Number, CapsuleBytes;
      var data := ComposeDatagram(b);
      match data {
        case Rejected => ok := true;
        case Nothing =>
          ok := stream.SendDatagram([]);
        case Datagram(d) =>
          ContextZero(FRESH, d[1..], true);
          assert d == [0] + d[1..] && d[1..] == Forwarded(old(b[..]));
          ok := stream.SendDatagram(d);
          assert !ok ==> stream.sent == old(stream.sent) + [];
      }
    }

    /** The next packet that is let in, cut to the length of the buffer. */
    method ReadPacket(b: array<byte>, allowAny: bool) returns (n: nat, ok: bool)
      requires policy.Valid()
      modifies b, stream`recvBuf, stream`chunks
      ensures var r := FirstRead(policy, Tagged(Datagrams(old(stream.Pending()))), allowAny);
              && (ok <==> r.Some? && r.value.verdict.Take?)
              && (ok ==> && n == (if |r.value.verdict.packet| <= b.Length then |r.value.verdict.packet| else b.Length)
                         && b[..] == r.value.verdict.packet[..n] + old(b[..])[n..])
              && (!ok ==> n == 0 && b[..] == old(b[..]))
              && (r.Some? ==> Tagged(Datagrams(stream.Pending())) == r.value.rest)
              && (r.None? ==> Datagrams(stream.Pending()) == [])
    {
      hide Datagrams, Remainder, IsSuffix, Joined, Accepts, Decode, H2DatagramStream.Pending;
      ghost var r := FirstRead(policy, Tagged(Datagrams(stream.Pending())), allowAny);
      while true
        invariant FirstRead(policy, Tagged(Datagrams(stream.Pending())), allowAny) == r && b[..] == old(b[..])
        decreases |Datagrams(stream.Pending())|
      {
        ghost var ds := Datagrams(stream.Pending());
        var data, _ := stream.ReceiveDatagram();
        if data.None? { return 0, false; }
        assert Tagged(ds)[0] == data.value && Tagged(ds)[1..] == Tagged(ds[1..]);
        var contextID, m, parsed := ParseVarint(data.value);
        if !parsed { return 0, false; }
        if contextID != 0 { continue; }
        var packet := data.value[m..];
        var accepted := HandleIncomingProxiedPacket(policy, packet, allowAny);
        if !accepted { continue; }
        n := if |packet| <= b.Length then |packet| else b.Length;
        forall i | 0 <= i < n { b[i] := packet[i]; }
        return n, true;
      }
    }
  }

  // ----- End to end

  /** What one end writes for a list of packets, while the stream stays open. */
  function Written(packets: seq<seq<byte>>): (s: seq<byte>)
    requires forall p :: p in packets ==> |p| < LIMIT - 1
  {
    if packets == [] then []
    else (if Forwardable(packets[0]) then CapsuleBytes(DATAGRAM, Forwarded(packets[0])) else []) + Written(packets[1..])
  }

  function AllForwarded(packets: seq<seq<byte>>): (qs: seq<seq<byte>>) {
    if packets == [] then []
    else (if Forwardable(packets[0]) then [Forwarded(packets[0])] else []) + AllForwarded(packets[1..])
  }

  lemma ForwardedIsAccepted(p: seq<byte>)
    requires Forwardable(p)
    ensures Accepts(FRESH, Forwarded(p), true)
  {
    hide Forwarded;
    ForwardedBytes(p);
  }

  /** Whatever packets are written at one end of a fresh connection, exactly the ones that
      can be forwarded arrive at the other, in order, each with only its hop count and
      header checksum changed; bytes of a capsule cut off at the end add nothing. */
  lemma {:induction false} PacketsArriveInOrder(packets: seq<seq<byte>>, tail: seq<byte>)
    requires (forall p :: p in packets ==> |p| < LIMIT - 1) && CapsuleAt(tail).None?
    ensures Datagrams(Written(packets) + tail) == AllForwarded(packets)
    ensures Admitted(FRESH, AllForwarded(packets), true) == AllForwarded(packets)
  {
    hide CapsuleAt, CapsuleBytes, Datagrams, Remainder, Forwarded, Accepts;
    if packets == [] {
      assert Written(packets) + tail == tail;
      Incomplete(tail);
    } else {
      PacketsArriveInOrder(packets[1..], tail);
      var p, later := packets[0], Written(packets[1..]) + tail;
      if Forwardable(p) {
        ForwardedIsAccepted(p);
        FirstOfWire(Item(DATAGRAM, Forwarded(p)), later);
        assert Written(packets) + tail == CapsuleBytes(DATAGRAM, Forwarded(p)) + later;
        assert AllForwarded(packets)[1..] == AllForwarded(packets[1..]);
      } else {
        assert Written(packets) + tail == later;
        assert AllForwarded(packets) == AllForwarded(packets[1..]);
      }
    }
  }
}
