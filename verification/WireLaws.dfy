/** Packets and capsules on the wire, byte by byte: what is forwarded and let in, and how
    capsules are laid out (connect-ip/conn.go, connect-ip/capsule.go, connect-ip/client_h2.go). */
module WireLaws {
  import opened Wrappers
  import opened Bytes
  import opened Pow2
  import opened Varint
  import opened IPRange
  import RangeCover
  import opened Compose
  import opened H2Datagram
  import opened CapsuleCodec
  import opened Conn

  // ----- Hops

  /** The hop count of an IPv4 or IPv6 packet, or 0 of anything else. */
  function HopsLeft(p: seq<byte>): nat {
    if |p| >= 20 && p[0] / 16 == 4 then p[8] else if |p| >= 40 && p[0] / 16 == 6 then p[7] else 0
  }

  /** The packet after k connections have forwarded it, if none has dropped it. */
  function Travelled(p: seq<byte>, k: nat): (r: Option<seq<byte>>)
    decreases k
  {
    if k == 0 then Some(p) else if Forwardable(p) then Travelled(Forwarded(p), k - 1) else None
  }

  /** Bytes that forwarding may change: hop count and IPv4 header checksum. */
  predicate IsHopByte(p: seq<byte>, i: nat) {
    if p != [] && p[0] / 16 == 4 then i == 8 || i == 10 || i == 11 else i == 7
  }

  /** A packet travels over exactly as many connections as it has hops left, less one, and loses one
      hop on each; no other byte but the IPv4 header checksum changes. */
  lemma {:induction false} HopsAreUsedUp(p: seq<byte>, k: nat)
    ensures Travelled(p, k).Some? <==> k == 0 || k < HopsLeft(p)
    ensures var q := Travelled(p, k);
            q.Some? ==>
              && |q.value| == |p| && (k > 0 ==> HopsLeft(q.value) == HopsLeft(p) - k)
              && forall i :: 0 <= i < |p| && !IsHopByte(p, i) ==> q.value[i] == p[i]
    decreases k
  {
    hide Forwarded;
    if k > 0 && Forwardable(p) {
      ForwardedBytes(p);
      HopsAreUsedUp(Forwarded(p), k - 1);
      assert Forwarded(p)[0] == p[0];
    }
  }

  // ----- What is let in

  /** The leading bits of address number v of a family agree with the prefix. */
  predicate Covers(p: Prefix, is4: bool, v: nat)
    requires p.bits <= p.addr.BitLen()
  {
    var n := (if p.addr.is4 then 32 else 128) - p.bits;
    p.addr.is4 == is4 && v / Exp2(n) == p.addr.value / Exp2(n)
  }

  predicate HasAddress(prefixes: seq<Prefix>, is4: bool, v: nat)
    requires forall p :: p in prefixes ==> p.bits <= p.addr.BitLen()
  {
    exists i :: 0 <= i < |prefixes| && Covers(prefixes[i], is4, v)
  }

  lemma HasAddressIs(prefixes: seq<Prefix>, a: Addr)
    requires forall p :: p in prefixes ==> p.bits <= p.addr.BitLen()
    ensures InPrefixes(prefixes, a) <==> HasAddress(prefixes, a.is4, a.value)
  {
    hide Exp2;
  }

  /** One of the routes covers the destination and is open for the protocol: for all of them, for
      this one, or for any if it is ICMP of the packet's family. */
  predicate IsRouted(routes: seq<Route>, dst: Addr, proto: byte) {
    exists i :: 0 <= i < |routes| && RangeCover.InRoute(routes[i].start, routes[i].end, dst)
      && (routes[i].ipProtocol == 0 || routes[i].ipProtocol == proto || proto == if dst.is4 then 1 else 58)
  }

  /** A packet is let in exactly if it has a complete IPv4 or IPv6 header, its source is one of the
      peer's addresses, if those are known, and its destination is assigned, or routed, or
      nothing is assigned and any destination will do. */
  lemma AcceptsIff(pol: Policy, p: seq<byte>, allowAny: bool)
    requires pol.Valid()
    ensures |p| >= 20 && p[0] / 16 == 4 ==>
              (Accepts(pol, p, allowAny) <==>
                 IsLetIn(pol, true, Number(p[12..16]), Number(p[16..20]), p[9], allowAny))
    ensures |p| >= 40 && p[0] / 16 == 6 ==>
              (Accepts(pol, p, allowAny) <==>
                 IsLetIn(pol, false, Number(p[8..24]), Number(p[24..40]), p[6], allowAny))
    ensures !(|p| >= 20 && p[0] / 16 == 4) && !(|p| >= 40 && p[0] / 16 == 6) ==> !Accepts(pol, p, allowAny)
  {
    hide InPrefixes, HasAddress, Number, RangeCover.InRoute;
    if WellFormed(p) {
      if pol.peerAddresses.Some? { HasAddressIs(pol.peerAddresses.value, Source(p)); }
      HasAddressIs(pol.assignedAddresses, Destination(p));
    }
  }

  predicate IsLetIn(pol: Policy, is4: bool, src: nat, dst: nat, proto: byte, allowAny: bool)
    requires pol.Valid()
  {
    && (pol.peerAddresses.Some? ==> HasAddress(pol.peerAddresses.value, is4, src))
    && (  HasAddress(pol.assignedAddresses, is4, dst)
       || IsRouted(pol.localRoutes, Addr(is4, dst), proto)
       || (allowAny && |pol.assignedAddresses| == 0))
  }

  /** Only datagrams of context ID zero are looked at. */
  lemma JudgedIs(pol: Policy, id: nat, p: seq<byte>, allowAny: bool)
    requires pol.Valid() && id < 0x4000_0000_0000_0000
    ensures Judge(pol, Encode(id) + p, allowAny) == if id == 0 && Accepts(pol, p, allowAny) then Take(p) else Dropped
  {
    hide Accepts, Decode, Encode;
    DecodeEncode(id, p);
    assert (Encode(id) + p)[Len(id)..] == p;
  }

  // ----- Capsules

  /** A DATAGRAM capsule starts with a zero byte. */
  lemma DatagramBytes(payload: seq<byte>, later: seq<byte>)
    requires |payload| < 0x4000_0000_0000_0000
    ensures Datagrams([0] + Encode(|payload|) + payload + later) == [payload] + Datagrams(later)
    ensures forall kind: nat :: 0 < kind < 0x4000_0000_0000_0000 ==>
              Datagrams(Encode(kind) + Encode(|payload|) + payload + later) == Datagrams(later)
  {
    hide CapsuleAt, Datagrams, Encode;
    ZeroByte();
    CapsuleIs(0, payload, later);
    forall kind: nat | 0 < kind < 0x4000_0000_0000_0000
      ensures Datagrams(Encode(kind) + Encode(|payload|) + payload + later) == Datagrams(later)
    {
      CapsuleIs(kind, payload, later);
      assert [] + Datagrams(later) == Datagrams(later);
    }
  }

  lemma CapsuleIs(kind: nat, payload: seq<byte>, later: seq<byte>)
    requires kind < LIMIT && |payload| < LIMIT
    ensures Datagrams(Encode(kind) + Encode(|payload|) + payload + later) ==
              (if kind == 0 then [payload] else []) + Datagrams(later)
  {
    hide CapsuleAt, Datagrams, Encode;
    FirstOfWire(Item(kind, payload), later);
    assert CapsuleBytes(kind, payload) + later == Encode(kind) + Encode(|payload|) + payload + later;
  }

  lemma ZeroByte()
    ensures Encode(0) == [0]
  {
    assert Spell(0, 0) == [];
  }

  /** The other capsules start with a byte of their own: 1 assigns addresses, 2 requests them and
      3 advertises routes. */
  lemma CapsuleTypes()
    ensures Encode(ADDRESS_ASSIGN) == [1] && Encode(ADDRESS_REQUEST) == [2] && Encode(ROUTE_ADVERTISEMENT) == [3]
  {
    assert Spell(0, 0) == [];
  }

  /** An entry: request ID, version, address and prefix length. */
  lemma AddressLayout(id: nat, ip: seq<byte>, bits: nat)
    requires id < LIMIT && (|ip| == 4 || |ip| == 16) && bits <= 8 * |ip|
    ensures var a := Addr(|ip| == 4, Number(ip));
            a.Valid() && AddressBytes(AddressEntry(id, Prefix(a, bits)))
                         == Encode(id) + [if |ip| == 4 then 4 else 6] + ip + [bits]
  {
    hide Number, Spell, Encode, Exp2;
    AddressOfBytes(ip);
  }

  /** A range: version, first and last address, and protocol. */
  lemma RouteLayout(start: seq<byte>, end: seq<byte>, proto: byte)
    requires |start| == |end| && (|start| == 4 || |start| == 16)
    ensures var is4 := |start| == 4;
            RouteBytes(IPRoute(Addr(is4, Number(start)), Addr(is4, Number(end)), proto))
            == [if is4 then 4 else 6] + start + end + [proto]
  {
    hide Number, Spell, Exp2;
    AddressOfBytes(start);
    AddressOfBytes(end);
  }

  lemma AddressOfBytes(ip: seq<byte>)
    requires |ip| == 4 || |ip| == 16
    ensures var a := Addr(|ip| == 4, Number(ip)); a.Valid() && AsSlice(a) == ip
  {
    hide Number, Spell;
    NumberThenSpell(ip);
    Exp256IsExp2(|ip|);
  }
}
