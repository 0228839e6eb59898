/** What the DNS rewriter keeps: checksums, other bytes, and the original address. */
module DnsProofs {
  import opened Wrappers
  import opened Bytes
  import opened Checksum
  import opened NatTable
  import opened Packet
  import opened DnsHijack

  // ----- Bytes outside the address and checksum fields

  /** Whether a rewrite of the address at `at` may change byte i. */
  predicate Touched(at: nat, n: nat, off: nat, i: nat) {
    at <= i < at + n || (n == 4 && 10 <= i < 12) || off + 6 <= i < off + 8
  }

  /** A rewrite writes the address and the checksum fields, and no other byte. */
  lemma RedirectKeepsRest(p: seq<byte>, at: nat, addr: seq<byte>, off: nat)
    requires |addr| % 2 == 0 && 12 <= off && off + 8 <= |p| && at + |addr| <= off
    requires |addr| == 4 ==> 12 <= at
    ensures var q := Redirected(p, at, addr, off);
            q[at..at + |addr|] == addr && forall i :: 0 <= i < |p| && !Touched(at, |addr|, off, i) ==> q[i] == p[i]
  {
    var q := Redirected(p, at, addr, off);
    var o, n := Words(p[at..at + |addr|]), Words(addr);
    var q1 := Put(p, at, addr);
    var q2 := if |addr| == 4 then PutWord(q1, 10, Adjust(Word(p, 10), o, n)) else q1;
    forall i | 0 <= i < |p|
      ensures !Touched(at, |addr|, off, i) ==> q[i] == p[i]
      ensures at <= i < at + |addr| ==> q[i] == addr[i - at]
    {
      PutBytes(p, at, addr, i);
      if |addr| == 4 { PutBytes(q1, 10, Bytes2(Adjust(Word(p, 10), o, n)), i); }
      PutBytes(q2, off + 6, Bytes2(Word(q, off + 6)), i);
    }
  }

  // ----- Checksums

  /** The address field a rewrite may replace: destination or source of the packet's family. */
  predicate IsAddressField(p: seq<byte>, at: nat, n: nat)
    requires p != []
  {
    if Version(p) == 4 then n == 4 && (at == 12 || at == 16) else n == 16 && (at == 8 || at == 24)
  }

  lemma AddressSumPut(p: seq<byte>, at: nat, addr: seq<byte>)
    requires p != [] && IsAddressField(p, at, |addr|) && FixedHeader(p) <= |p|
    ensures Version(Put(p, at, addr)) == Version(p)
    ensures AddressSum(Put(p, at, addr)) == AddressSum(p) - Sum(Words(p[at..at + |addr|])) + Sum(Words(addr))
  {
    hide Put, Words, Sum, WordSum, SumOfNots, Adjust, Fold, Redirected;
    PutBytes(p, at, addr, 0);
    if Version(p) == 4 {
      WordSumPutInSlice(p, at, addr, 12, 20);
    } else {
      WordSumPutInSlice(p, at, addr, 8, 40);
    }
  }

  /** Replacing an address moves the transport sum by the change of its words. */
  lemma TransportSumPutAddress(p: seq<byte>, proto: byte, off: nat, at: nat, addr: seq<byte>)
    requires p != [] && IsAddressField(p, at, |addr|) && FixedHeader(p) <= off <= |p|
    ensures Version(Put(p, at, addr)) == Version(p)
    ensures TransportSum(Put(p, at, addr), proto, off)
         == TransportSum(p, proto, off) - Sum(Words(p[at..at + |addr|])) + Sum(Words(addr))
  {
    hide Put, Words, Sum, WordSum, SumOfNots, Adjust, Fold, Redirected;
    AddressSumPut(p, at, addr);
    PutBefore(p, at, addr, off);
  }

  /** The header checksum is not among the bytes the transport sum covers. */
  lemma TransportSumPutHeaderWord(p: seq<byte>, proto: byte, off: nat, w: word)
    requires p != [] && Version(p) == 4 && 20 <= off <= |p|
    ensures PutWord(p, 10, w)[0] == p[0]
    ensures TransportSum(PutWord(p, 10, w), proto, off) == TransportSum(p, proto, off)
  {
    hide Put, Words, Sum, WordSum, SumOfNots, Adjust, Fold, Redirected;
    PutBytes(p, 10, Bytes2(w), 0);
    PutElsewhere(p, 10, Bytes2(w), 12, 20);
    PutBefore(p, 10, Bytes2(w), off);
  }

  /** The three writes of a redirect, with the value of the last one made explicit. */
  lemma RedirectedIs(p: seq<byte>, at: nat, addr: seq<byte>, off: nat)
    requires p != [] && IsAddressField(p, at, |addr|) && FixedHeader(p) <= off && off + 8 <= |p|
    ensures var u := NewChecksum(p, at, addr, off + 6);
            Redirected(p, at, addr, off) ==
              if Version(p) == 4
              then PutWord(PutWord(Put(p, at, addr), 10, NewChecksum(p, at, addr, 10)), off + 6, MapZero(u))
              else PutWord(Put(p, at, addr), off + 6, u)
  {
  }

  /** The checksum at `cs` after the address at `at` has been replaced. */
  function NewChecksum(p: seq<byte>, at: nat, addr: seq<byte>, cs: nat): word
    requires |addr| % 2 == 0 && at + |addr| <= |p| && cs + 2 <= |p|
  {
    Adjust(Word(p, cs), Words(p[at..at + |addr|]), Words(addr))
  }

  /** The UDP checksum a redirect writes: IPv4 sends zero as 0xffff, IPv6 as it is. */
  function NewUdpChecksum(p: seq<byte>, at: nat, addr: seq<byte>, off: nat): word
    requires p != [] && |addr| % 2 == 0 && at + |addr| <= |p| && off + 8 <= |p|
  {
    var u := NewChecksum(p, at, addr, off + 6);
    if Version(p) == 4 then MapZero(u) else u
  }

  /** The transport sum after a redirect: new address, new checksum. */
  lemma RedirectedTransportSum(p: seq<byte>, proto: byte, at: nat, addr: seq<byte>, off: nat)
    requires p != [] && IsAddressField(p, at, |addr|) && FixedHeader(p) <= off && off + 8 <= |p|
    ensures var w := NewUdpChecksum(p, at, addr, off);
            var q := Redirected(p, at, addr, off);
            && Version(q) == Version(p)
            && Word(q, off + 6) == w
            && TransportSum(q, proto, off)
            == TransportSum(p, proto, off) - Sum(Words(p[at..at + |addr|])) + Sum(Words(addr)) - Word(p, off + 6) + w
  {
    hide Put, Words, Sum, WordSum, Word, Redirected, TransportSum, NewChecksum;
    var q1 := Put(p, at, addr);
    var w := NewUdpChecksum(p, at, addr, off);
    RedirectedIs(p, at, addr, off);
    TransportSumPutAddress(p, proto, off, at, addr);
    WordElsewhere(p, at, addr, off + 6);
    if Version(p) == 4 {
      var c := NewChecksum(p, at, addr, 10);
      TransportSumPutHeaderWord(q1, proto, off, c);
      WordElsewhere(q1, 10, Bytes2(c), off + 6);
      TransportSumPut(PutWord(q1, 10, c), proto, off, off + 6, w);
      WordPut(PutWord(q1, 10, c), off + 6, w);
    } else {
      TransportSumPut(q1, proto, off, off + 6, w);
      WordPut(q1, off + 6, w);
    }
  }

  /** The rewritten packet verifies exactly if the packet did, whatever protocol it is checked for. */
  lemma RedirectKeepsVerification(p: seq<byte>, proto: byte, at: nat, addr: seq<byte>, off: nat)
    requires p != [] && IsAddressField(p, at, |addr|) && FixedHeader(p) <= off && off + 8 <= |p|
    ensures var q := Redirected(p, at, addr, off);
            Version(q) == Version(p) && (TransportVerifies(q, proto, off) <==> TransportVerifies(p, proto, off))
  {
    hide Put, Words, Sum, WordSum, SumOfNots, Adjust, Fold, Redirected;
    var o, n, cs := Words(p[at..at + |addr|]), Words(addr), Word(p, off + 6);
    var u, w := NewChecksum(p, at, addr, off + 6), NewUdpChecksum(p, at, addr, off);
    RedirectedTransportSum(p, proto, at, addr, off);
    var rest := TransportSum(p, proto, off) - cs - Sum(o);
    AdjustTracks(cs, o, n, rest);
    CongShift(u + rest + Sum(n), w + rest + Sum(n), if w == u then 0 else 1);
  }

  /** IPv4 header: the rewritten packet verifies exactly if the packet did. */
  lemma RedirectKeepsHeaderVerification(p: seq<byte>, at: nat, addr: seq<byte>, off: nat)
    requires p != [] && Version(p) == 4 && IsAddressField(p, at, |addr|)
    requires 20 <= HeaderLen(p) <= off && off + 8 <= |p|
    ensures var q := Redirected(p, at, addr, off);
            && HeaderLen(q) == HeaderLen(p) && Version(q) == 4
            && (HeaderVerifies(q) <==> HeaderVerifies(p))
            && Word(q, 10) == NewChecksum(p, at, addr, 10)
  {
    hide Put, Words, Sum, WordSum, SumOfNots, Adjust, Fold, Redirected;
    var o, n := Words(p[at..at + 4]), Words(addr);
    var len, cs, c := HeaderLen(p), Word(p, 10), NewChecksum(p, at, addr, 10);
    var q1 := Put(p, at, addr);
    var q2 := PutWord(q1, 10, c);
    var b := Bytes2(NewUdpChecksum(p, at, addr, off));
    var q := Put(q2, off + 6, b);
    RedirectedIs(p, at, addr, off);
    PutBytes(p, at, addr, 0);
    PutBytes(q1, 10, Bytes2(c), 0);
    PutBytes(q2, off + 6, b, 0);
    WordElsewhere(p, at, addr, 10);
    WordPut(q1, 10, c);
    WordElsewhere(q2, off + 6, b, 10);
    WordSumPutInSlice(p, at, addr, 0, len);
    WordSumPutWordInSlice(q1, 10, c, 0, len);
    PutElsewhere(q2, off + 6, b, 0, len);
    assert p[0..len] == p[..len] && q[0..len] == q[..len];
    AdjustTracks(cs, o, n, WordSum(p[..len]) - cs - Sum(o));
  }

  // ----- Whole packets

  lemma {:induction false} ChainUnchanged(p: seq<byte>, q: seq<byte>, nh: byte, off: nat)
    requires |p| == |q| && off <= |p|
    requires SkipExtHeaders(p, nh, off).1 >= 0
    requires forall i :: off <= i < SkipExtHeaders(p, nh, off).1 ==> p[i] == q[i]
    ensures SkipExtHeaders(q, nh, off) == SkipExtHeaders(p, nh, off)
    decreases |p| - off
  {
    if IsExtHeader(nh) {
      var end := ExtHeaderEnd(p, nh, off);
      assert p[off] == q[off] && (nh != 44 ==> p[off + 1] == q[off + 1]);
      ChainUnchanged(p, q, p[off], end);
    }
  }

  /** A redirect leaves the UDP header where it was. */
  lemma RedirectKeepsOffset(p: seq<byte>, at: nat, addr: seq<byte>)
    requires UdpOffset(p) >= 0 && IsAddressField(p, at, |addr|)
    ensures UdpOffset(Redirected(p, at, addr, UdpOffset(p))) == UdpOffset(p)
  {
    hide Redirected, Put, Adjust, Words, SkipExtHeaders;
    var off := UdpOffset(p);
    var q := Redirected(p, at, addr, off);
    RedirectKeepsRest(p, at, addr, off);
    if Version(p) == 6 { ChainUnchanged(p, q, p[6], 40); }
  }

  /** IPv4: after a redirect both checksums are right if they were; for UDP, "were" only
      needs the receiver's test, so a zero ("no checksum") field comes out wrong unless
      zero happened to verify. */
  lemma RedirectChecksums4(p: seq<byte>, at: nat, addr: seq<byte>)
    requires UdpOffset(p) >= 0 && Version(p) == 4 && IsAddressField(p, at, |addr|)
    ensures var off := UdpOffset(p);
            var q := Redirected(p, at, addr, off);
            && UdpOffset(q) == off && Version(q) == 4
            && (HeaderVerifies(q) <==> HeaderVerifies(p))
            && (HeaderChecksumCorrect(p) ==> HeaderChecksumCorrect(q))
            && (UdpChecksumCorrect(q, off) <==> TransportVerifies(p, 17, off))
  {
    hide Redirected, Put, Words, TransportSum, WordSum, HeaderChecksumCorrect, UdpChecksumCorrect, HeaderVerifies;
    var off := UdpOffset(p);
    RedirectKeepsOffset(p, at, addr);
    RedirectKeepsHeaderVerification(p, at, addr, off);
    RedirectKeepsVerification(p, 17, at, addr, off);
    RedirectedTransportSum(p, 17, at, addr, off);
    HeaderCorrectIsVerifies(p);
    HeaderCorrectIsVerifies(Redirected(p, at, addr, off));
    UdpCorrectIsVerifies(Redirected(p, at, addr, off), off);
  }

  /** Replacing the address makes the updated checksum zero: the new address sums to the old
      one plus the checksum, and not everything added up is zero. */
  predicate LandsOnZero(p: seq<byte>, at: nat, addr: seq<byte>, cs: nat)
    requires |addr| % 2 == 0 && at + |addr| <= |p| && cs + 2 <= |p|
  {
    var o := Words(p[at..at + |addr|]);
    && Cong(Sum(Words(addr)), Word(p, cs) + Sum(o))
    && (Word(p, cs) != 0xffff || SumOfNots(o) > 0 || Sum(Words(addr)) > 0)
  }

  lemma NewChecksumIsZero(p: seq<byte>, at: nat, addr: seq<byte>, cs: nat)
    requires |addr| % 2 == 0 && at + |addr| <= |p| && cs + 2 <= |p|
    ensures NewChecksum(p, at, addr, cs) == 0 <==> LandsOnZero(p, at, addr, cs)
  {
    hide Words, Sum, SumOfNots, Fold, Word;
    var o, n, c := Words(p[at..at + |addr|]), Words(addr), Word(p, cs);
    SumOfNotsIsNegative(o);
    ZeroCondition(c, SumOfNots(o), Sum(o), Sum(n), |o|);
  }

  lemma ZeroCondition(c: word, nots: nat, sum: nat, new_: nat, k: nat)
    requires nots + sum == 0xffff * k
    ensures Not(Fold(Not(c) + nots + new_)) == 0 <==> Cong(new_, c + sum) && Not(c) + nots + new_ > 0
  {
    hide Fold;
    var s := Not(c) + nots + new_;
    assert s - (new_ - c - sum) == 0xffff * (k + 1);
    CongShift(new_ - c - sum, s, k + 1);
  }

  /** IPv6: the receiver's test is kept; the field is the from-scratch checksum exactly if
      the update does not land on zero, which is not mapped to 0xffff. */
  lemma RedirectChecksums6(p: seq<byte>, at: nat, addr: seq<byte>)
    requires UdpOffset(p) >= 0 && Version(p) == 6 && IsAddressField(p, at, |addr|)
    ensures var off := UdpOffset(p);
            var q := Redirected(p, at, addr, off);
            && UdpOffset(q) == off && Version(q) == 6
            && (TransportVerifies(q, 17, off) <==> TransportVerifies(p, 17, off))
            && (UdpChecksumCorrect(q, off) <==>
                  TransportVerifies(p, 17, off) && !LandsOnZero(p, at, addr, off + 6))
  {
    hide Redirected, Put, Words, TransportSum, UdpChecksumCorrect, NewChecksum, LandsOnZero;
    var off := UdpOffset(p);
    NewChecksumIsZero(p, at, addr, off + 6);
    RedirectKeepsOffset(p, at, addr);
    RedirectKeepsVerification(p, 17, at, addr, off);
    RedirectedTransportSum(p, 17, at, addr, off);
    UdpCorrectIsVerifies(Redirected(p, at, addr, off), off);
  }

  /** A 16-byte address with one chosen last word. */
  function LastWordAddr(w: word): Addr16 { seq(14, _ => 0) + Bytes2(w) }

  lemma {:induction false} ZeroSum(s: seq<byte>)
    requires forall i :: 0 <= i < |s| ==> s[i] == 0
    ensures WordSum(s) == 0
  {
    if |s| >= 2 { ZeroSum(s[2..]); }
  }

  lemma LastWordAddrSum(w: word)
    ensures Sum(Words(LastWordAddr(w))) == w
  {
    var z: seq<byte> := seq(14, _ => 0);
    ZeroSum(z);
    WordSumConcat(z, Bytes2(w));
    assert WordSum(Bytes2(w)) == w;
    WordSumIsSumOfWords(LastWordAddr(w));
  }

  /** For every verifying IPv6 query there is a server address whose redirect writes the
      checksum 0, which UDP over IPv6 does not allow. */
  lemma Ipv6CanWriteZeroChecksum(p: seq<byte>) returns (addr: Addr16)
    requires UdpOffset(p) >= 0 && Version(p) == 6 && TransportVerifies(p, 17, UdpOffset(p))
    ensures Word(Redirected(p, 24, addr, UdpOffset(p)), UdpOffset(p) + 6) == 0
    ensures !UdpChecksumCorrect(Redirected(p, 24, addr, UdpOffset(p)), UdpOffset(p))
  {
    hide *;
    var off := UdpOffset(p);
    var w := WordCongruentTo(Word(p, off + 6) + Sum(Words(p[24..40])));
    addr := LastWordAddr(w);
    LastWordAddrSum(w);
    assert LandsOnZero(p, 24, addr, off + 6) by { ReasonToLand(p, 24, addr, off + 6); }
    NewChecksumIsZero(p, 24, addr, off + 6);
    DestinationField(p);
    RedirectedWords(p, 24, addr, off);
    RedirectChecksums6(p, 24, addr);
    assert NewUdpChecksum(p, 24, addr, off) == NewChecksum(p, 24, addr, off + 6) by { NotMapped(p, 24, addr, off); }
  }

  lemma WordCongruentTo(n: nat) returns (w: word)
    ensures w > 0 && Cong(w, n)
  {
    w := if n % 0xffff == 0 then 0xffff else n % 0xffff;
    CongFromQuotient(n, w, if n % 0xffff == 0 then n / 0xffff - 1 else n / 0xffff);
    CongFromQuotient(w, n, if n % 0xffff == 0 then 1 - n / 0xffff else -(n / 0xffff));
  }

  lemma ReasonToLand(p: seq<byte>, at: nat, addr: seq<byte>, cs: nat)
    requires |addr| % 2 == 0 && at + |addr| <= |p| && cs + 2 <= |p|
    requires Cong(Sum(Words(addr)), Word(p, cs) + Sum(Words(p[at..at + |addr|]))) && Sum(Words(addr)) > 0
    ensures LandsOnZero(p, at, addr, cs)
  {
  }

  lemma DestinationField(p: seq<byte>)
    requires p != [] && Version(p) == 6
    ensures IsAddressField(p, 24, 16) && FixedHeader(p) == 40
  {
  }

  lemma NotMapped(p: seq<byte>, at: nat, addr: seq<byte>, off: nat)
    requires p != [] && Version(p) == 6 && |addr| % 2 == 0 && at + |addr| <= |p| && off + 8 <= |p|
    ensures NewUdpChecksum(p, at, addr, off) == NewChecksum(p, at, addr, off + 6)
  {
  }

  // ----- Which packets are unchanged

  /** Updating a checksum for words that stay the same turns 0xffff into zero and keeps every other value. */
  lemma AdjustNothing(c: word, w: seq<word>)
    requires w != []
    ensures Adjust(c, w, w) == if c == 0xffff then 0 else c
  {
    hide Fold, Sum, SumOfNots;
    SumOfNotsIsNegative(w);
    var s := Not(c) + SumOfNots(w) + Sum(w);
    var q := FoldQuotient(s);
    assert Fold(s) - Not(c) == 0xffff * (|w| - q);
  }

  lemma PutSame(p: seq<byte>, off: nat, n: nat)
    requires off + n <= |p|
    ensures Put(p, off, p[off..off + n]) == p
  {
  }

  lemma PutWordSame(p: seq<byte>, off: nat)
    requires off + 2 <= |p|
    ensures PutWord(p, off, Word(p, off)) == p
  {
    assert Bytes2(Word(p, off)) == p[off..off + 2];
    PutSame(p, off, 2);
  }

  /** A redirect changes nothing exactly if the address is already the new one and no
      checksum field holds a value that the update turns into another. */
  lemma RedirectChangesNothingIff(p: seq<byte>, at: nat, addr: seq<byte>, off: nat)
    requires p != [] && IsAddressField(p, at, |addr|) && FixedHeader(p) <= off && off + 8 <= |p|
    ensures Redirected(p, at, addr, off) == p <==>
              && p[at..at + |addr|] == addr
              && if Version(p) == 4 then Word(p, 10) != 0xffff && Word(p, off + 6) != 0 else Word(p, off + 6) != 0xffff
  {
    hide Put, Words, Adjust, Redirected, TransportSum;
    RedirectKeepsRest(p, at, addr, off);
    if p[at..at + |addr|] == addr {
      RedirectedIs(p, at, addr, off);
      PutSame(p, at, |addr|);
      assert Words(addr) != [];
      assert NewChecksum(p, at, addr, off + 6) == Adjust(Word(p, off + 6), Words(addr), Words(addr));
      AdjustNothing(Word(p, off + 6), Words(addr));
      AdjustNothing(Word(p, 10), Words(addr));
      RedirectedWords(p, at, addr, off);
      PutWordSame(p, 10);
      PutWordSame(p, off + 6);
    }
  }

  /** The checksum words a redirect leaves. */
  lemma RedirectedWords(p: seq<byte>, at: nat, addr: seq<byte>, off: nat)
    requires p != [] && IsAddressField(p, at, |addr|) && FixedHeader(p) <= off && off + 8 <= |p|
    ensures var q := Redirected(p, at, addr, off);
            && Word(q, off + 6) == NewUdpChecksum(p, at, addr, off)
            && (Version(p) == 4 ==> Word(q, 10) == NewChecksum(p, at, addr, 10))
  {
    hide Put, Words, Adjust, Redirected, Word;
    RedirectedIs(p, at, addr, off);
    var q1, u := Put(p, at, addr), NewUdpChecksum(p, at, addr, off);
    if Version(p) == 4 {
      var q2 := PutWord(q1, 10, NewChecksum(p, at, addr, 10));
      WordPut(q1, 10, NewChecksum(p, at, addr, 10));
      WordElsewhere(q2, off + 6, Bytes2(u), 10);
      WordPut(q2, off + 6, u);
    } else {
      WordPut(q1, off + 6, u);
    }
  }

  /** When RewriteQuery returns a packet unchanged: it is no query, or it was on its way to
      the configured server already and its checksum fields hold no alternative form of
      zero. The protocol byte of an IPv4 packet plays no part. */
  lemma QueryIsUnchangedIff(p: seq<byte>, h: Targets)
    ensures RewrittenQuery(p, h) == p <==>
              || !IsQuery(p, h)
              || (Version(p) == 4 && p[16..20] == h.h4.value && Word(p, 10) != 0xffff && Word(p, UdpOffset(p) + 6) != 0)
              || (Version(p) == 6 && p[24..40] == h.h6.value && Word(p, UdpOffset(p) + 6) != 0xffff)
  {
    hide Redirected, SkipExtHeaders, Word;
    if IsQuery(p, h) {
      if Version(p) == 4 {
        RedirectChangesNothingIff(p, 16, h.h4.value, UdpOffset(p));
      } else {
        RedirectChangesNothingIff(p, 24, h.h6.value, UdpOffset(p));
      }
    }
  }

  /** A TCP segment to port 53, with sequence number zero. */
  function TcpToPort53(): (p: seq<byte>)
    ensures |p| == 40
  {
    seq(40, i => if i == 0 then 0x45 else if i == 9 then 6 else if i == 23 then 53 else if i == 32 then 0x50 else 0)
  }

  /** So a TCP segment is rewritten like a query, whatever the server: its checksum verifies
      afterwards exactly if it did before, but the low half of its sequence number is
      overwritten. */
  lemma TcpSequenceIsOverwritten(h: Targets)
    requires h.h4.Some?
    ensures var p := TcpToPort53(); var q := RewrittenQuery(p, h);
            && p[9] == 6 && HeaderLen(p) == 20 && IsQuery(p, h)
            && p[26..28] == [0, 0] && q[26..28] != [0, 0]
            && Version(q) == 4 && (TransportVerifies(q, 6, 20) <==> TransportVerifies(p, 6, 20))
  {
    hide Redirected, TransportSum;
    var p := TcpToPort53();
    assert UdpOffset(p) == 20 && Word(p, 22) == 53;
    var q := Redirected(p, 16, h.h4.value, 20);
    RedirectKeepsVerification(p, 6, 16, h.h4.value, 20);
    RedirectedWords(p, 16, h.h4.value, 20);
    assert Word(q, 26) != 0;
    assert q[26..28] == [q[26], q[27]];
  }

  // ----- The original address comes back

  datatype Event = Outbound(p: seq<byte>) | Inbound(p: seq<byte>)

  /** What a packet event does to the shards. */
  function StepShards(ts: seq<Table>, e: Event, h: Targets): (r: seq<Table>)
    requires |ts| == NUM_SHARDS && forall t :: t in ts ==> t.Valid()
    ensures |r| == NUM_SHARDS && forall t :: t in r ==> t.Valid()
  {
    match e
    case Outbound(p) => if IsQuery(p, h) then Recorded(ts, p) else ts
    case Inbound(p) => if IsResponse(p, h) then Taken(ts, p) else ts
  }

  function RunShards(ts: seq<Table>, es: seq<Event>, h: Targets): (r: seq<Table>)
    requires |ts| == NUM_SHARDS && forall t :: t in ts ==> t.Valid()
    ensures |r| == NUM_SHARDS && forall t :: t in r ==> t.Valid()
    decreases |es|
  {
    if es == [] then ts else RunShards(StepShards(ts, es[0], h), es[1..], h)
  }

  /** The table operation of a packet event, if it has one. */
  function OpOf(e: Event, h: Targets): Option<Op> {
    match e
    case Outbound(p) => if IsQuery(p, h) then Some(Query(QueryKey(p), QueryDst(p))) else None
    case Inbound(p) => if IsResponse(p, h) then Some(Response(ResponseKey(p))) else None
  }

  /** The operations packet events perform on shard i. */
  function OpsOn(es: seq<Event>, h: Targets, i: nat): seq<Op>
    decreases |es|
  {
    if es == [] then []
    else
      var op := OpOf(es[0], h);
      (if op.Some? && op.value.key.port % NUM_SHARDS == i then [op.value] else []) + OpsOn(es[1..], h, i)
  }

  /** Shards evolve independently, each by its own operations. */
  lemma {:induction false} ShardsRunApart(ts: seq<Table>, es: seq<Event>, h: Targets, i: nat)
    requires |ts| == NUM_SHARDS && (forall t :: t in ts ==> t.Valid()) && i < NUM_SHARDS
    ensures RunShards(ts, es, h)[i] == Run(ts[i], OpsOn(es, h, i))
    decreases |es|
  {
    if es != [] {
      hide IsQuery, IsResponse, QueryKey, ResponseKey, QueryDst;
      var ts' := StepShards(ts, es[0], h);
      ShardsRunApart(ts', es[1..], h, i);
      var op, rest := OpOf(es[0], h), OpsOn(es[1..], h, i);
      if op.Some? && op.value.key.port % NUM_SHARDS == i {
        assert ts'[i] == Step(ts[i], op.value);
        assert ([op.value] + rest)[1..] == rest;
      } else {
        assert ts'[i] == ts[i];
        assert [] + rest == rest;
      }
    }
  }

  /** The address fields a response to a query carries: back to the asker's address and port. */
  predicate Answers(r: seq<byte>, p: seq<byte>)
    requires UdpOffset(p) >= 0 && UdpOffset(r) >= 0
  {
    && Version(r) == Version(p)
    && Word(r, UdpOffset(r) + 2) == Word(p, UdpOffset(p))
    && if Version(p) == 4 then r[16..20] == p[12..16] else r[24..40] == p[8..24]
  }

  /** The shards still know where a query was going. */
  lemma QueryIsRemembered(ts: seq<Table>, p: seq<byte>, es: seq<Event>, h: Targets)
    requires |ts| == NUM_SHARDS && forall t :: t in ts ==> t.Valid() && |t.ring| == MAX_PER_SHARD
    requires IsQuery(p, h)
    requires QueryKey(p) !in ts[QueryKey(p).port % NUM_SHARDS].ring
    requires var ops := OpsOn(es, h, QueryKey(p).port % NUM_SHARDS);
             QueryCount(ops) <= MAX_PER_SHARD - 1 && forall op :: op in ops ==> !Mentions(op, QueryKey(p))
    ensures var i := QueryKey(p).port % NUM_SHARDS;
            RunShards(StepShards(ts, Outbound(p), h), es, h)[i].Lookup(QueryKey(p)) == Some(QueryDst(p))
  {
    hide QueryKey, QueryDst, Run, OpsOn, QueryCount;
    var key := QueryKey(p);
    var i := key.port % NUM_SHARDS;
    var recorded := StepShards(ts, Outbound(p), h);
    assert ts[i] in ts;
    assert recorded[i] == ts[i].Record(key, QueryDst(p));
    ShardsRunApart(recorded, es, h, i);
    Retention(ts[i], key, QueryDst(p), OpsOn(es, h, i));
  }

  /** If no slot of its shard names a query's key, the answer is given the source the query
      was sent to, after any packets that do not use that key and contain at most 255
      redirected queries of the same shard. */
  lemma DnsRoundTrip(ts: seq<Table>, p: seq<byte>, es: seq<Event>, r: seq<byte>, h: Targets)
    requires |ts| == NUM_SHARDS && forall t :: t in ts ==> t.Valid() && |t.ring| == MAX_PER_SHARD
    requires IsQuery(p, h) && IsResponse(r, h) && Answers(r, p)
    requires QueryKey(p) !in ts[QueryKey(p).port % NUM_SHARDS].ring
    requires var ops := OpsOn(es, h, QueryKey(p).port % NUM_SHARDS);
             QueryCount(ops) <= MAX_PER_SHARD - 1 && forall op :: op in ops ==> !Mentions(op, QueryKey(p))
    ensures var after := RunShards(StepShards(ts, Outbound(p), h), es, h);
            var r' := RewrittenResponse(r, h, Original(after, r));
            if Version(p) == 4 then r'[12..16] == p[16..20] else r'[8..24] == p[24..40]
  {
    hide Redirected, SkipExtHeaders, RunShards, StepShards, OpsOn, QueryCount;
    QueryIsRemembered(ts, p, es, h);
    assert ResponseKey(r) == QueryKey(p);
    var d := QueryDst(p);
    if Version(p) == 4 {
      RedirectKeepsRest(r, 12, d[..4], UdpOffset(r));
      assert d[..4] == p[16..20];
    } else {
      RedirectKeepsRest(r, 8, d, UdpOffset(r));
    }
  }
}
