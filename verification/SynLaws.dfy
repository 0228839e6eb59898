/** Which packets are clamped, and to what, said in bytes and encoded TCP options
    (internal/mss_clamp.go). */
module SynLaws {
  import opened Wrappers
  import opened Bytes
  import opened Checksum
  import opened Packet
  import opened MssClamp
  import opened ClampProofs

  /** TCP directly behind the IP header: its header is at t, its options end at n. */
  predicate Tcp4(p: seq<byte>, t: nat, n: nat) {
    |p| >= 20 && p[0] / 16 == 4 && t == 4 * (p[0] % 16) && p[9] == 6 && TcpAt(p, t, n)
  }

  predicate Tcp6(p: seq<byte>, t: nat, n: nat) {
    |p| >= 40 && p[0] / 16 == 6 && t == 40 && p[6] == 6 && TcpAt(p, t, n)
  }

  /** The data offset covers the 20 fixed bytes, and the packet holds the whole header. */
  predicate TcpAt(p: seq<byte>, t: nat, n: nat) {
    20 <= t && t + 20 <= |p| && n == t + 4 * (p[t + 12] / 16) && t + 20 <= n <= |p|
  }

  /** A SYN or SYN-ACK, whatever its other flags. */
  predicate IsSyn(p: seq<byte>, t: nat, n: nat) {
    (Tcp4(p, t, n) || Tcp6(p, t, n)) && p[t + 13] / 2 % 2 == 1
  }

  /** The MSS an MTU allows: 40 bytes of IPv4 and TCP header less, or 60 of IPv6 and TCP; an
      MTU below that, or above 16 bits, wraps around. */
  function Limit(p: seq<byte>, mtu: int): word
    requires p != []
  {
    (if p[0] / 16 == 4 then mtu - 40 else mtu - 60) % 0x1_0000
  }

  /** The options begin with some that are no MSS and the MSS option behind them. */
  predicate Offers(p: seq<byte>, t: nat, n: nat, before: seq<TcpOption>, len: byte, v: word) {
    && (forall o :: o in before ==> o.Valid() && !o.Mss?)
    && var at := t + 20 + |EncodeAll(before)|;
       && at + 4 <= n <= |p| && p[t + 20..at] == EncodeAll(before)
       && p[at..at + 4] == [2, len, v / 256, v % 256]
  }

  lemma SynIff(p: seq<byte>)
    ensures forall t: nat, n: nat :: IsSyn(p, t, n) <==> SynAt(p) == t && n == t + DataOffset(p, t)
  {
  }

  /** The walk finds an offered MSS. */
  lemma OfferIsFound(p: seq<byte>, t: nat, n: nat, before: seq<TcpOption>, len: byte, v: word)
    requires IsSyn(p, t, n) && Offers(p, t, n, before, len, v)
    ensures var at := t + 22 + |EncodeAll(before)|; MssAt(p) == Some(at) && Word(p, at) == v
  {
    hide EncodeAll, Walk, SynAt;
    SynIff(p);
    var at := t + 20 + |EncodeAll(before)|;
    var mss, rest := Mss(len, v), p[at + 4..n];
    assert mss.Encode() == [2, len, v / 256, v % 256];
    SliceSplit(p, t + 20, at, n);
    SliceSplit(p, at, at + 4, n);
    WalkFindsFirstMss(before, mss, rest);
    assert p[at..at + 4][2] == p[at + 2] && p[at..at + 4][3] == p[at + 3];
  }

  /** A SYN that offers an MSS leaves with the smaller of that and the MSS the MTU allows;
      only the option's value and the checksum change, and nothing if it was small enough. */
  lemma OfferIsClamped(p: seq<byte>, mtu: int, t: nat, n: nat, before: seq<TcpOption>, len: byte, v: word)
    requires IsSyn(p, t, n) && Offers(p, t, n, before, len, v)
    ensures var q, m := ClampedPacket(p, mtu), if v <= Limit(p, mtu) then v else Limit(p, mtu);
            var at := t + 20 + |EncodeAll(before)|;
            && |q| == |p|
            && q[at..at + 4] == [2, len, m / 256, m % 256]
            && (forall i :: 0 <= i < |p| && !(at + 2 <= i < at + 4) && !(t + 16 <= i < t + 18) ==> q[i] == p[i])
            && (v <= Limit(p, mtu) ==> q == p)
  {
    hide EncodeAll, IsSyn, ClampedPacket, Limit, Word, MssAt, TcpOption.Valid;
    var at := t + 20 + |EncodeAll(before)|;
    OfferIsFound(p, t, n, before, len, v);
    OfferLies(p, t, n, before, len, v);
    ClampedIs(p, mtu, t, n);
    OptionBytes(p, ClampedPacket(p, mtu), at, len, v);
  }

  lemma OfferLies(p: seq<byte>, t: nat, n: nat, before: seq<TcpOption>, len: byte, v: word)
    requires IsSyn(p, t, n) && Offers(p, t, n, before, len, v)
    ensures var at := t + 20 + |EncodeAll(before)|;
            p != [] && at + 4 <= n <= |p| && p[at..at + 4] == [2, len, v / 256, v % 256]
  {
    hide EncodeAll;
  }

  /** What clamping does to the MSS value of a SYN. */
  lemma ClampedIs(p: seq<byte>, mtu: int, t: nat, n: nat)
    requires IsSyn(p, t, n) && MssAt(p).Some?
    ensures var q, at := ClampedPacket(p, mtu), MssAt(p).value;
            && |q| == |p| && Word(q, at) == (if Word(p, at) <= Limit(p, mtu) then Word(p, at) else Limit(p, mtu))
            && (forall i :: 0 <= i < |p| && !(at <= i < at + 2) && !(t + 16 <= i < t + 18) ==> q[i] == p[i])
            && (Word(p, at) <= Limit(p, mtu) ==> q == p)
  {
    hide EncodeAll, Walk, SynAt, MssAt, Put, Sub, Word;
    SynIff(p);
    ClampKeepsRest(p, MSSForMTU(p[0] / 16, mtu));
  }

  /** Four bytes with a word in the last two. */
  lemma OptionBytes(p: seq<byte>, q: seq<byte>, at: nat, len: byte, v: word)
    requires at + 4 <= |p| == |q| && p[at..at + 4] == [2, len, v / 256, v % 256]
    requires q[at] == p[at] && q[at + 1] == p[at + 1]
    ensures q[at..at + 4] == [2, len, Word(q, at + 2) / 256, Word(q, at + 2) % 256]
  {
    assert p[at..at + 4][0] == p[at] && p[at..at + 4][1] == p[at + 1];
    assert q[at..at + 4] == [q[at], q[at + 1], q[at + 2], q[at + 3]];
  }

  /** Nothing else is touched: if a packet changes, it is a SYN that offers an MSS larger
      than the MTU allows. */
  lemma OthersAreNotClamped(p: seq<byte>, mtu: int) returns (t: nat, n: nat, before: seq<TcpOption>, len: byte, v: word)
    ensures ClampedPacket(p, mtu) != p ==>
              IsSyn(p, t, n) && Offers(p, t, n, before, len, v) && v > Limit(p, mtu)
  {
    hide EncodeAll, Walk, SynAt, Offers, IsSyn, Put, Word;
    t, n, before, len, v := 0, 0, [], 0, 0;
    if MssAt(p).Some? {
      SynIff(p);
      t, n := SynAt(p), SynAt(p) + DataOffset(p, SynAt(p));
      before, len, v := MssIsOffered(p, t, n);
    }
  }

  lemma MssIsOffered(p: seq<byte>, t: nat, n: nat) returns (before: seq<TcpOption>, len: byte, v: word)
    requires MssAt(p).Some? && t == SynAt(p) && n == t + DataOffset(p, t)
    ensures Offers(p, t, n, before, len, v) && v == Word(p, MssAt(p).value)
  {
    hide EncodeAll, Walk, SynAt;
    var opts := p[t + 20..n];
    var at := Walk(opts, 0).value;
    before := FoundIsFirstMss(opts, 0);
    len, v := opts[at - 1], Word(opts, at);
    SliceOfSlice(p, t + 20, n, t + 20, t + 18 + at);
    FourOf(p, t + 20, n, at - 2);
  }

  lemma FourOf(p: seq<byte>, i: nat, n: nat, k: nat)
    requires i + k + 4 <= n <= |p|
    ensures var s := p[i..n]; p[i + k..i + k + 4] == [s[k], s[k + 1], s[k + 2], s[k + 3]]
  {
    var s, c := p[i..n], p[i + k..i + k + 4];
    assert c[0] == s[k] && c[1] == s[k + 1] && c[2] == s[k + 2] && c[3] == s[k + 3];
  }

  /** So without the SYN bit, or with no MSS among the options, the packet leaves as it came. */
  lemma NoSynNoChange(p: seq<byte>, mtu: int, t: nat, n: nat, os: seq<TcpOption>, rest: seq<byte>)
    requires Tcp4(p, t, n) || Tcp6(p, t, n)
    requires
      || p[t + 13] / 2 % 2 == 0
      || ((forall o :: o in os ==> o.Valid() && !o.Mss?)
          && p[t + 20..n] == EncodeAll(os) + rest && (rest == [] || rest[0] == 0))
    ensures ClampedPacket(p, mtu) == p
  {
    hide EncodeAll, Walk, SynAt, Put;
    SynIff(p);
    if IsSyn(p, t, n) { WalkFindsNoMss(os, rest); }
  }

  /** The TCP checksum of a clamped packet is as valid as it was exactly if the options in front
      of the MSS fill whole words, or the MSS shrinks by a multiple of 257, or not at all. */
  lemma OfferKeepsChecksum(p: seq<byte>, mtu: int, t: nat, n: nat, before: seq<TcpOption>, len: byte, v: word)
    requires IsSyn(p, t, n) && Offers(p, t, n, before, len, v) && FixedHeader(p) <= t && TransportVerifies(p, 6, t)
    ensures var q, m := ClampedPacket(p, mtu), Limit(p, mtu);
            && q != [] && FixedHeader(q) <= t <= |q|
            && (TransportVerifies(q, 6, t) <==> v <= m || |EncodeAll(before)| % 2 == 0 || (v - m) % 257 == 0)
  {
    hide EncodeAll, Walk, SynAt, MssAt, TransportVerifies, Clamped, Word;
    OfferIsFound(p, t, n, before, len, v);
    SynIff(p);
    ClampKeepsChecksum(p, MSSForMTU(p[0] / 16, mtu));
  }
}
