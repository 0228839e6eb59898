/** Where the fields of an IP packet lie, and what its checksums cover
    (internal/dns_hijack.go). */
module Packet {
  import opened Bytes
  import opened Checksum

  /** Hop-by-hop options, routing, destination options and mobility headers. */
  predicate IsOptionHeader(nh: byte) { nh == 0 || nh == 43 || nh == 60 || nh == 135 }

  predicate IsExtHeader(nh: byte) { IsOptionHeader(nh) || nh == 44 || nh == 51 }

  /** Where the extension header at off ends; -1 if the packet cuts it short. */
  function ExtHeaderEnd(p: seq<byte>, nh: byte, off: nat): (end: int)
    requires off <= |p| && IsExtHeader(nh)
    ensures end == -1 || off + 8 <= end <= |p|
    ensures end >= 0 ==> (end - off) % 4 == 0
  {
    if nh == 44 then
      if off + 8 > |p| then -1 else off + 8
    else if off + 2 > |p| then -1
    else
      var n: int := p[off + 1];
      var end := off + if nh == 51 then (n + 2) * 4 else n * 8 + 8;
      if end > |p| then -1 else end
  }

  /** The last next-header value of an IPv6 extension chain and the offset behind it;
      a chain cut short gives offset -1. */
  function SkipExtHeaders(p: seq<byte>, nh: byte, off: nat): (r: (byte, int))
    requires off <= |p|
    ensures r.1 == -1 || off <= r.1 <= |p|
    ensures r.1 >= 0 ==> (r.1 - off) % 4 == 0
    decreases |p| - off
  {
    if !IsExtHeader(nh) then (nh, off)
    else
      var end := ExtHeaderEnd(p, nh, off);
      if end < 0 then (0, -1) else SkipExtHeaders(p, p[off], end)
  }

  method SkipIPv6ExtHeaders(pkt: array<byte>, nextHeader: byte, start: nat) returns (nh: byte, off: int)
    requires start <= pkt.Length
    ensures (nh, off) == SkipExtHeaders(pkt[..], nextHeader, start)
  {
    nh, off := nextHeader, start;
    while true
      invariant 0 <= off <= pkt.Length
      invariant SkipExtHeaders(pkt[..], nh, off) == SkipExtHeaders(pkt[..], nextHeader, start)
      decreases pkt.Length - off
    {
      if IsOptionHeader(nh) {
        if off + 2 > pkt.Length { return 0, -1; }
        var hdrLen := (pkt[off + 1] as int) * 8 + 8;
        nh := pkt[off];
        off := off + hdrLen;
        if off > pkt.Length { return 0, -1; }
      } else if nh == 44 {
        if off + 8 > pkt.Length { return 0, -1; }
        nh := pkt[off];
        off := off + 8;
      } else if nh == 51 {
        if off + 2 > pkt.Length { return 0, -1; }
        var hdrLen := ((pkt[off + 1] as int) + 2) * 4;
        nh := pkt[off];
        off := off + hdrLen;
        if off > pkt.Length { return 0, -1; }
      } else {
        return nh, off;
      }
    }
  }

  function Version(p: seq<byte>): nat
    requires p != []
  {
    p[0] / 16
  }

  /** The header length without options or extension headers. */
  function FixedHeader(p: seq<byte>): nat
    requires p != []
  {
    if Version(p) == 4 then 20 else 40
  }

  /** The length the first byte of an IPv4 packet claims for the header. */
  function HeaderLen(p: seq<byte>): nat
    requires p != []
  {
    (p[0] % 16) * 4
  }

  /** The offset of the UDP header, or -1. The IPv4 protocol byte is not looked at. */
  function UdpOffset(p: seq<byte>): (off: int)
    ensures off == -1 || (p != [] && off >= 20 && off + 8 <= |p| && off % 4 == 0)
    ensures off >= 0 ==> Version(p) == 4 || (Version(p) == 6 && off >= 40 && |p| >= 48)
    ensures off >= 0 && Version(p) == 4 ==> off == HeaderLen(p)
  {
    if p == [] then -1
    else if Version(p) == 4 then
      if HeaderLen(p) < 20 || |p| < HeaderLen(p) + 8 then -1 else HeaderLen(p)
    else if Version(p) == 6 then
      if |p| < 48 then -1
      else
        var (nh, off) := SkipExtHeaders(p, p[6], 40);
        if off < 0 || nh != 17 || off + 8 > |p| then -1 else off
    else -1
  }

  method FindUdp(pkt: array<byte>) returns (off: int)
    ensures off == UdpOffset(pkt[..])
  {
    if pkt.Length < 1 { return -1; }
    if pkt[0] / 16 == 4 {
      var ihl := (pkt[0] % 16) * 4;
      if ihl < 20 || pkt.Length < ihl + 8 { return -1; }
      return ihl;
    }
    if pkt[0] / 16 == 6 {
      if pkt.Length < 48 { return -1; }
      var nh, o := SkipIPv6ExtHeaders(pkt, pkt[6], 40);
      if o < 0 || nh != 17 || o + 8 > pkt.Length { return -1; }
      return o;
    }
    return -1;
  }

  predicate IsFragment(p: seq<byte>) {
    |p| >= 8 && Word(p, 6) % 0x2000 != 0
  }

  // ----- What the checksums cover

  /** Both addresses, as the pseudo-header sums them. */
  function AddressSum(p: seq<byte>): nat
    requires p != [] && FixedHeader(p) <= |p|
  {
    if Version(p) == 4 then WordSum(p[12..20]) else WordSum(p[8..40])
  }

  /** Pseudo-header and upper-layer bytes from `off` on, for a protocol. */
  function TransportSum(p: seq<byte>, proto: byte, off: nat): nat
    requires p != [] && FixedHeader(p) <= off <= |p|
  {
    AddressSum(p) + proto + (|p| - off) + WordSum(p[off..])
  }

  /** The checksum a UDP header should carry, computed over the packet as it stands. */
  method ComputeUDPChecksum(pkt: seq<byte>) returns (r: word)
    ensures r == if UdpOffset(pkt) < 0 then 0 else FullChecksum(TransportSum(pkt, 17, UdpOffset(pkt)))
  {
    hide WordSum, AddressSum, UdpOffset, Fold, Word, Version, HeaderLen, TransportSum, FullChecksum;
    var udpOff := UdpOffset(pkt);
    if udpOff < 0 { return 0; }
    TransportSumParts(pkt, 17, udpOff);
    var sum: nat := AddressSum(pkt) + 17 + (|pkt| - udpOff);
    ghost var head := sum;
    var i := udpOff;
    while i + 1 < |pkt|
      invariant udpOff <= i <= |pkt| && i % 2 == 0
      invariant head + WordSum(pkt[udpOff..]) == sum + WordSum(pkt[i..])
    {
      WordSumStep(pkt, i);
      sum := sum + Word(pkt, i);
      i := i + 2;
    }
    WordSumEnd(pkt, i);
    assert |pkt| % 2 != 0 <==> i < |pkt|;
    if |pkt| % 2 != 0 {
      sum := sum + 256 * (pkt[|pkt| - 1] as int);
    }
    assert head + WordSum(pkt[udpOff..]) == sum;
    var folded := FoldCarry(sum);
    r := Not(folded);
    assert FullChecksum(sum) == Not(folded) by { FullChecksumIs(sum); }
  }

  lemma TransportSumParts(p: seq<byte>, proto: byte, off: nat)
    requires p != [] && FixedHeader(p) <= off <= |p|
    ensures TransportSum(p, proto, off) == AddressSum(p) + proto + (|p| - off) + WordSum(p[off..])
  {
  }

  /** The bytes the transport checksum covers: the pseudo-header with both addresses, the protocol
      and the length, and the upper-layer packet (section 8.1 of RFC 8200, RFC 768). */
  function PseudoPacket(p: seq<byte>, proto: byte, off: nat): seq<byte>
    requires p != [] && FixedHeader(p) <= off <= |p| < 0x1_0000
  {
    var n := |p| - off;
    (if p[0] / 16 == 4 then p[12..20] else p[8..40]) + [0, proto] + [n / 256, n % 256] + p[off..]
  }

  lemma TransportSumCovers(p: seq<byte>, proto: byte, off: nat)
    requires p != [] && FixedHeader(p) <= off <= |p| < 0x1_0000
    ensures TransportSum(p, proto, off) == Weighted(PseudoPacket(p, proto, off))
  {
    hide WordSum, Weighted;
    var a := if p[0] / 16 == 4 then p[12..20] else p[8..40];
    var n := |p| - off;
    var b, c: seq<byte> := [0, proto], [n / 256, n % 256];
    WordSumIsWeighted(PseudoPacket(p, proto, off));
    assert PseudoPacket(p, proto, off) == a + (b + (c + p[off..]));
    WordSumConcat(a, b + (c + p[off..]));
    WordSumConcat(b, c + p[off..]);
    WordSumConcat(c, p[off..]);
    TwoBytes(b);
    TwoBytes(c);
  }

  lemma TwoBytes(b: seq<byte>)
    requires |b| == 2
    ensures WordSum(b) == 256 * (b[0] as int) + b[1]
  {
    assert b[2..] == [];
  }

  lemma FullChecksumIs(sum: nat)
    ensures FullChecksum(sum) == Not(Fold(sum))
  {
  }

  /** A UDP checksum computed as zero is sent as 0xffff. */
  function MapZero(c: word): word { if c == 0 then 0xffff else c }

  /** The header checksum test of a receiver: the words sum to zero. */
  predicate HeaderVerifies(p: seq<byte>)
    requires p != [] && HeaderLen(p) <= |p|
  {
    Cong(WordSum(p[..HeaderLen(p)]), 0)
  }

  predicate TransportVerifies(p: seq<byte>, proto: byte, off: nat)
    requires p != [] && FixedHeader(p) <= off <= |p|
  {
    Cong(TransportSum(p, proto, off), 0)
  }

  /** The header checksum is the one computed from scratch, its own field taken as zero. */
  predicate HeaderChecksumCorrect(p: seq<byte>)
    requires p != [] && 20 <= HeaderLen(p) <= |p|
  {
    Word(p, 10) == FullChecksum(WordSum(PutWord(p, 10, 0)[..HeaderLen(p)]))
  }

  /** The UDP checksum is the one computed from scratch, zero written as 0xffff. */
  predicate UdpChecksumCorrect(p: seq<byte>, off: nat)
    requires p != [] && FixedHeader(p) <= off && off + 8 <= |p|
  {
    Word(p, off + 6) == MapZero(FullChecksum(TransportSum(PutWord(p, off + 6, 0), 17, off)))
  }

  // ----- From-scratch values and the receiver's test

  lemma FullChecksumVerifies(sum: nat, cs: word)
    requires sum > 0
    ensures cs == FullChecksum(sum) <==> Cong(sum + cs, 0) && cs != 0xffff
    ensures cs == MapZero(FullChecksum(sum)) <==> Cong(sum + cs, 0) && cs != 0
  {
    var q := FoldQuotient(sum);
    CongShift(Fold(sum) + cs, sum + cs, q);
    if Cong(sum + cs, 0) {
      var k := CongQuotient(Fold(sum) + cs, 0);
      assert k == 1 || k == 2;
    }
  }

  /** For a header, correct means verifying, and not written as 0xffff. */
  lemma HeaderCorrectIsVerifies(p: seq<byte>)
    requires p != [] && Version(p) == 4 && 20 <= HeaderLen(p) <= |p|
    ensures HeaderChecksumCorrect(p) <==> HeaderVerifies(p) && Word(p, 10) != 0xffff
  {
    var n := HeaderLen(p);
    var h := p[..n];
    PutInSlice(p, 10, Bytes2(0), 0, n);
    assert p[0..n] == h;
    assert PutWord(p, 10, 0)[0..n] == PutWord(p, 10, 0)[..n];
    WordSumPutWord(h, 10, 0);
    assert Word(h, 10) == Word(p, 10);
    var z := PutWord(h, 10, 0);
    assert WordSum(z) > 0 by {
      assert z[0] == p[0];
      assert WordSum(z) == Word(z, 0) + WordSum(z[2..]);
    }
    FullChecksumVerifies(WordSum(z), Word(p, 10));
  }

  lemma TransportSumPut(p: seq<byte>, proto: byte, off: nat, at: nat, w: word)
    requires p != [] && FixedHeader(p) <= off <= |p|
    requires off <= at && at + 2 <= |p| && (at - off) % 2 == 0
    ensures Version(PutWord(p, at, w)) == Version(p)
    ensures TransportSum(PutWord(p, at, w), proto, off) == TransportSum(p, proto, off) - Word(p, at) + w
  {
    var q := PutWord(p, at, w);
    assert q[0] == p[0];
    if Version(p) == 4 {
      PutElsewhere(p, at, Bytes2(w), 12, 20);
    } else {
      PutElsewhere(p, at, Bytes2(w), 8, 40);
    }
    PutInSlice(p, at, Bytes2(w), off, |p|);
    assert q[off..] == q[off..|q|] && p[off..] == p[off..|p|];
    WordSumPutWord(p[off..], at - off, w);
  }

  /** For UDP, correct means verifying, and a checksum field that is not zero. */
  lemma UdpCorrectIsVerifies(p: seq<byte>, off: nat)
    requires p != [] && FixedHeader(p) <= off && off + 8 <= |p|
    ensures UdpChecksumCorrect(p, off) <==> TransportVerifies(p, 17, off) && Word(p, off + 6) != 0
  {
    TransportSumPut(p, 17, off, off + 6, 0);
    FullChecksumVerifies(TransportSum(PutWord(p, off + 6, 0), 17, off), Word(p, off + 6));
  }
}
