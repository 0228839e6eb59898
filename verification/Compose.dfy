/** Preparing an outgoing packet: TTL, header checksum, context ID
    (connect-ip/conn.go, connect-ip/checksum.go). */
module Compose {
  import opened Bytes
  import opened Checksum
  import opened Packet

  datatype Composed = Datagram(data: seq<byte>) | Nothing | Rejected

  /** calculateIPv4Checksum: every word of the 20 bytes but the checksum field. */
  method CalculateIPv4Checksum(header: seq<byte>) returns (r: word)
    requires |header| == 20
    ensures r == FullChecksum(WordSum(PutWord(header, 10, 0)))
  {
    ghost var z := PutWord(header, 10, 0);
    var sum: nat, i := 0, 0;
    assert z[0..] == z;
    while i < |header|
      invariant 0 <= i <= 20 && i % 2 == 0
      invariant WordSum(z) == sum + WordSum(z[i..])
      decreases 20 - i
    {
      assert z[i..][2..] == z[i + 2..];
      assert Word(z, i) == if i == 10 then 0 else Word(header, i);
      if i != 10 {
        sum := sum + Word(header, i);
      }
      i := i + 2;
    }
    var folded := FoldCarry(sum);
    r := Not(folded);
  }

  /** The packet as it is sent: one hop used up, and for IPv4 a new checksum over 20 bytes. */
  function Forwarded(p: seq<byte>): (q: seq<byte>)
    requires p != [] && FixedHeader(p) <= |p| && p[if Version(p) == 4 then 8 else 7] > 0
    ensures |q| == |p|
  {
    if Version(p) == 4 then
      var p1 := p[8 := p[8] - 1];
      PutWord(p1, 10, FullChecksum(WordSum(PutWord(p1[..20], 10, 0))))
    else p[7 := p[7] - 1]
  }

  /** The hop count of a packet with a complete fixed header. */
  function Hops(p: seq<byte>): byte
    requires p != [] && FixedHeader(p) <= |p|
  {
    if Version(p) == 4 then p[8] else p[7]
  }

  predicate Forwardable(p: seq<byte>) {
    && p != []
    && (Version(p) == 4 || Version(p) == 6)
    && FixedHeader(p) <= |p|
    && Hops(p) > 1
  }

  /** composeDatagram: the packet behind context ID zero. */
  method ComposeDatagram(b: array<byte>) returns (r: Composed)
    modifies b
    ensures var p := old(b[..]);
            if p == [] then r == Nothing && b[..] == p
            else if Forwardable(p) then r == Datagram([0] + Forwarded(p)) && b[..] == Forwarded(p)
            else r == Rejected && b[..] == p
  {
    hide WordSum, Fold, Put;
    if b.Length == 0 { return Nothing; }
    var v := b[0] / 16;
    if v == 4 {
      if b.Length < 20 { return Rejected; }
      var ttl := b[8];
      if ttl <= 1 { return Rejected; }
      b[8] := b[8] - 1;
      var cs := CalculateIPv4Checksum(b[..20]);
      assert b[..] == old(b[..])[8 := ttl - 1];
      StoreWord(b, 10, cs);
    } else if v == 6 {
      if b.Length < 40 { return Rejected; }
      var hopLimit := b[7];
      if hopLimit <= 1 { return Rejected; }
      b[7] := b[7] - 1;
    } else {
      return Rejected;
    }
    return Datagram([0] + b[..]);
  }

  // ----- What is kept

  lemma ForwardedBytes(p: seq<byte>)
    requires Forwardable(p)
    ensures var q := Forwarded(p);
            && FixedHeader(q) == FixedHeader(p) && Version(q) == Version(p) && HeaderLen(q) == HeaderLen(p)
            && Hops(q) == Hops(p) - 1
            && forall i :: 0 <= i < |p| && (if Version(p) == 4 then i != 8 && i != 10 && i != 11 else i != 7) ==>
                q[i] == p[i]
  {
    hide WordSum, Put;
    var q := Forwarded(p);
    if Version(p) == 4 {
      var p1 := p[8 := p[8] - 1];
      var b := Bytes2(FullChecksum(WordSum(PutWord(p1[..20], 10, 0))));
      forall i | 0 <= i < |p| ensures q[i] == if 10 <= i < 12 then b[i - 10] else p1[i] {
        PutBytes(p1, 10, b, i);
      }
    }
  }

  /** Forwarding uses up exactly one hop and touches nothing the transport checksum covers. */
  lemma ForwardedKeepsTransport(p: seq<byte>, proto: byte, off: nat)
    requires Forwardable(p) && FixedHeader(p) <= off <= |p|
    ensures FixedHeader(Forwarded(p)) == FixedHeader(p)
    ensures TransportSum(Forwarded(p), proto, off) == TransportSum(p, proto, off)
  {
    hide WordSum, Forwarded;
    ForwardedBytes(p);
    var q := Forwarded(p);
    if Version(p) == 4 {
      assert q[12..20] == p[12..20];
    } else {
      assert q[8..40] == p[8..40];
    }
    assert q[off..] == p[off..];
  }

  /** The new IPv4 header checksum is right exactly if the header's options, which it does
      not cover, sum to zero; in particular for a header without options. */
  lemma ForwardedHeaderVerifies(p: seq<byte>)
    requires Forwardable(p) && Version(p) == 4 && 20 <= HeaderLen(p) <= |p|
    ensures HeaderLen(Forwarded(p)) == HeaderLen(p)
    ensures HeaderVerifies(Forwarded(p)) <==> Cong(WordSum(p[20..HeaderLen(p)]), 0)
    ensures HeaderLen(p) == 20 ==> HeaderVerifies(Forwarded(p))
  {
    hide WordSum, Put, Forwarded;
    ForwardedBytes(p);
    var q, n := Forwarded(p), HeaderLen(p);
    var h, opts := q[..20], q[20..n];
    assert q[..n] == h + opts;
    WordSumConcat(h, opts);
    assert opts == p[20..n];
    ForwardedFixedHeader(p);
    CongShift(WordSum(opts), WordSum(h) + WordSum(opts), WordSum(h) / 0xffff);
    assert n == 20 ==> WordSum(opts) == 0 by { EmptySum(opts); }
  }

  lemma EmptySum(s: seq<byte>)
    ensures s == [] ==> WordSum(s) == 0
  {
  }

  lemma ForwardedFixedHeader(p: seq<byte>)
    requires Forwardable(p) && Version(p) == 4
    ensures Cong(WordSum(Forwarded(p)[..20]), 0)
  {
    hide WordSum, Put, Fold;
    var p1 := p[8 := p[8] - 1];
    var h := p1[..20];
    var z := PutWord(h, 10, 0);
    var cs := FullChecksum(WordSum(z));
    PutInSlice(p1, 10, Bytes2(cs), 0, 20);
    assert p1[0..20] == h && Forwarded(p)[0..20] == Forwarded(p)[..20];
    WordSumPutWord(h, 10, cs);
    WordSumPutWord(h, 10, 0);
    var q := FoldQuotient(WordSum(z));
    CongFromQuotient(WordSum(z) + cs, 0, q + 1);
  }

  /** A header of 24 bytes whose option word is 1; the checksum field is still zero. */
  function HeaderWithOption(): (p: seq<byte>)
    ensures |p| == 24
  {
    [0x46, 0, 0, 24, 0, 0, 0, 0, 64, 17, 0, 0, 10, 0, 0, 1, 10, 0, 0, 2, 0, 0, 0, 1]
  }

  /** So there is a packet with a valid header checksum that is sent with an invalid one. */
  lemma OptionsBreakHeader() returns (p: seq<byte>)
    ensures Forwardable(p) && Version(p) == 4 && HeaderLen(p) == 24 <= |p| && HeaderVerifies(p)
    ensures HeaderLen(Forwarded(p)) == 24 && !HeaderVerifies(Forwarded(p))
  {
    hide Forwarded, HeaderVerifies, WordSum, Cong;
    p := WithValidHeader(HeaderWithOption());
    ForwardedHeaderVerifies(p);
    assert p[20..24] == [0, 0, 0, 1];
    OptionWords();
    OneIsNotZero();
  }

  lemma OneIsNotZero()
    ensures !Cong(1, 0)
  {
  }

  /** A checksum that makes a header verify. */
  lemma WithValidHeader(b: seq<byte>) returns (p: seq<byte>)
    requires |b| == 24 && Version(b) == 4 && HeaderLen(b) == 24 && b[10] == 0 && b[11] == 0
    ensures |p| == 24 && forall i :: 0 <= i < 24 && i != 10 && i != 11 ==> p[i] == b[i]
    ensures HeaderLen(p) == 24 && HeaderVerifies(p)
  {
    hide Put, FullChecksum, HeaderChecksumCorrect, HeaderVerifies, WordSum;
    var cs := FullChecksum(WordSum(b));
    p := PutWord(b, 10, cs);
    forall i | 0 <= i < 24 ensures i != 10 && i != 11 ==> p[i] == b[i] { PutBytes(b, 10, Bytes2(cs), i); }
    PutZeroBack(b, cs);
    CorrectByConstruction(p, b, cs);
    HeaderCorrectIsVerifies(p);
  }

  lemma PutZeroBack(b: seq<byte>, cs: word)
    requires |b| == 24 && b[10] == 0 && b[11] == 0
    ensures PutWord(PutWord(b, 10, cs), 10, 0) == b
  {
  }

  lemma CorrectByConstruction(p: seq<byte>, b: seq<byte>, cs: word)
    requires |p| == |b| == 24 && HeaderLen(p) == 24 && PutWord(p, 10, 0) == b && p == PutWord(b, 10, cs)
    requires cs == FullChecksum(WordSum(b))
    ensures HeaderChecksumCorrect(p)
  {
    hide WordSum, Fold, Put;
    WordPut(b, 10, cs);
    assert b[..24] == b;
  }

  lemma OptionWords()
    ensures WordSum([0, 0, 0, 1]) == 1
  {
    var s: seq<byte> := [0, 0, 0, 1];
    assert s[2..] == [0, 1] && s[2..][2..] == [];
    assert WordSum(s) == Word(s, 0) + WordSum(s[2..]);
    assert WordSum(s[2..]) == Word(s[2..], 0) + WordSum(s[2..][2..]);
  }
}
