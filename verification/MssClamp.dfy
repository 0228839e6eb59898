/** Clamping the MSS option of TCP SYN segments in place (internal/mss_clamp.go). */
module MssClamp {
  import opened Wrappers
  import opened Bytes
  import opened Checksum
  import opened Packet

  // ----- The option walk

  /** The offset of the first MSS value at or after option offset i. */
  function Walk(opts: seq<byte>, i: nat): (r: Option<nat>)
    ensures r.Some? ==> i + 2 <= r.value && r.value + 2 <= |opts|
    decreases |opts| - i
  {
    if i >= |opts| || opts[i] == 0 then None
    else if opts[i] == 1 then Walk(opts, i + 1)
    else if opts[i] == 2 then (if i + 4 > |opts| then None else Some(i + 2))
    else if i + 1 >= |opts| || opts[i + 1] < 2 then None
    else Walk(opts, i + opts[i + 1])
  }

  method FindMSSOption(opts: seq<byte>) returns (offset: nat, value: word, found: bool)
    ensures found <==> Walk(opts, 0).Some?
    ensures found ==> offset == Walk(opts, 0).value && value == Word(opts, offset)
  {
    var i := 0;
    while i < |opts|
      invariant Walk(opts, i) == Walk(opts, 0)
      decreases |opts| - i
    {
      var kind := opts[i];
      if kind == 0 {
        return 0, 0, false;
      } else if kind == 1 {
        i := i + 1;
      } else if kind == 2 {
        if i + 4 > |opts| { return 0, 0, false; }
        return i + 2, Word(opts, i + 2), true;
      } else {
        if i + 1 >= |opts| { return 0, 0, false; }
        var length := opts[i + 1];
        if length < 2 { return 0, 0, false; }
        i := i + length;
      }
    }
    return 0, 0, false;
  }

  /** A TCP option list, apart from its end marker. */
  datatype TcpOption = Nop | Mss(len: byte, value: word) | Other(kind: byte, body: seq<byte>) {
    predicate Valid() { Other? ==> kind > 2 && |body| <= 253 }

    function Encode(): (b: seq<byte>)
      requires Valid()
    {
      match this
      case Nop => [1]
      case Mss(len, value) => [2, len] + Bytes2(value)
      case Other(kind, body) => [kind, |body| + 2] + body
    }
  }

  function EncodeAll(os: seq<TcpOption>): (b: seq<byte>)
    requires forall o :: o in os ==> o.Valid()
  {
    if os == [] then [] else os[0].Encode() + EncodeAll(os[1..])
  }

  lemma {:induction false} WalkShift(pre: seq<byte>, opts: seq<byte>, i: nat)
    ensures Walk(pre + opts, |pre| + i)
         == if Walk(opts, i).Some? then Some(|pre| + Walk(opts, i).value) else None
    decreases |opts| - i
  {
    var all := pre + opts;
    if i < |opts| {
      assert all[|pre| + i] == opts[i];
      if i + 1 < |opts| { assert all[|pre| + i + 1] == opts[i + 1]; }
      if opts[i] == 1 {
        WalkShift(pre, opts, i + 1);
      } else if opts[i] > 2 && i + 1 < |opts| && opts[i + 1] >= 2 {
        WalkShift(pre, opts, i + opts[i + 1]);
      }
    }
  }

  /** Soundness: the walk passes over options that hold no MSS. */
  lemma {:induction false} WalkSkips(os: seq<TcpOption>, rest: seq<byte>)
    requires forall o :: o in os ==> o.Valid() && !o.Mss?
    ensures Walk(EncodeAll(os) + rest, 0)
         == if Walk(rest, 0).Some? then Some(|EncodeAll(os)| + Walk(rest, 0).value) else None
  {
    hide Walk, TcpOption.Encode;
    if os == [] {
      assert EncodeAll(os) + rest == rest;
    } else {
      var e, tail := os[0].Encode(), EncodeAll(os[1..]) + rest;
      assert os[0].Valid() && !os[0].Mss?;
      assert EncodeAll(os) + rest == e + tail;
      WalkPasses(os[0], tail);
      WalkSkips(os[1..], rest);
    }
  }

  lemma WalkPasses(o: TcpOption, tail: seq<byte>)
    requires o.Valid() && !o.Mss?
    ensures Walk(o.Encode() + tail, 0)
         == if Walk(tail, 0).Some? then Some(|o.Encode()| + Walk(tail, 0).value) else None
  {
    hide Walk, TcpOption.Encode;
    WalkShift(o.Encode(), tail, 0);
    WalkStep(o, tail);
  }

  lemma WalkStep(o: TcpOption, tail: seq<byte>)
    requires o.Valid() && !o.Mss?
    ensures Walk(o.Encode() + tail, 0) == Walk(o.Encode() + tail, |o.Encode()|)
  {
    var s := o.Encode() + tail;
    if o.Nop? {
      assert s[0] == 1;
    } else {
      assert s[0] == o.kind && s[1] == |o.body| + 2;
    }
  }

  /** The walk finds the first MSS of an encoded option list. */
  lemma WalkFindsFirstMss(before: seq<TcpOption>, mss: TcpOption, rest: seq<byte>)
    requires (forall o :: o in before ==> o.Valid() && !o.Mss?) && mss.Mss?
    ensures var opts := EncodeAll(before) + (mss.Encode() + rest);
            Walk(opts, 0) == Some(|EncodeAll(before)| + 2) && Word(opts, |EncodeAll(before)| + 2) == mss.value
  {
    hide Walk, EncodeAll, TcpOption.Encode, Word;
    WalkSkips(before, mss.Encode() + rest);
    MssComesFirst(mss, rest);
    WordShift(EncodeAll(before), mss.Encode() + rest, 2);
  }

  lemma MssComesFirst(mss: TcpOption, rest: seq<byte>)
    requires mss.Mss?
    ensures Walk(mss.Encode() + rest, 0) == Some(2) && Word(mss.Encode() + rest, 2) == mss.value
  {
  }

  lemma WordShift(pre: seq<byte>, s: seq<byte>, i: nat)
    requires i + 2 <= |s|
    ensures Word(pre + s, |pre| + i) == Word(s, i)
  {
  }

  /** The walk finds nothing in an encoded option list without MSS. */
  lemma WalkFindsNoMss(os: seq<TcpOption>, rest: seq<byte>)
    requires forall o :: o in os ==> o.Valid() && !o.Mss?
    requires rest == [] || rest[0] == 0
    ensures Walk(EncodeAll(os) + rest, 0) == None
  {
    WalkSkips(os, rest);
  }

  lemma EncodeOneMore(o: TcpOption, os: seq<TcpOption>)
    requires o.Valid() && forall x :: x in os ==> x.Valid()
    ensures EncodeAll([o] + os) == o.Encode() + EncodeAll(os)
  {
    assert ([o] + os)[1..] == os;
  }

  lemma SliceSplit(s: seq<byte>, i: nat, j: nat, k: nat)
    requires i <= j <= k <= |s|
    ensures s[i..k] == s[i..j] + s[j..k]
  {
  }

  /** Completeness: an MSS the walk finds is the first one of an option list. */
  lemma {:induction false} FoundIsFirstMss(opts: seq<byte>, i: nat) returns (before: seq<TcpOption>)
    requires i <= |opts| && Walk(opts, i).Some?
    ensures forall o :: o in before ==> o.Valid() && !o.Mss?
    ensures var at := Walk(opts, i).value;
            opts[i..at - 2] == EncodeAll(before) && opts[at - 2] == 2
    decreases |opts| - i
  {
    hide EncodeAll, TcpOption.Encode;
    if opts[i] == 2 {
      before := [];
      assert EncodeAll(before) == [] by { EncodeNone(); }
    } else {
      var j := if opts[i] == 1 then i + 1 else i + opts[i + 1];
      var o := if opts[i] == 1 then Nop else Other(opts[i], opts[i + 2..j]);
      EncodedAt(opts, i, j, o);
      var rest := FoundIsFirstMss(opts, j);
      before := [o] + rest;
      EncodeOneMore(o, rest);
      SliceSplit(opts, i, j, Walk(opts, j).value - 2);
    }
  }

  lemma EncodeNone()
    ensures EncodeAll([]) == []
  {
  }

  lemma EncodedAt(opts: seq<byte>, i: nat, j: nat, o: TcpOption)
    requires i < j <= |opts|
    requires (o == Nop && opts[i] == 1 && j == i + 1)
          || (opts[i] > 2 && j >= i + 2 && opts[i + 1] == j - i && o == Other(opts[i], opts[i + 2..j]))
    ensures o.Valid() && o.Encode() == opts[i..j]
  {
  }

  // ----- Clamping

  /** uint16(x) */
  function Uint16(x: int): word { x % 0x1_0000 }

  /** The offset of the TCP header of a SYN segment whose header is complete, or -1. */
  function SynAt(p: seq<byte>): (t: int)
    ensures t >= 0 ==> p != [] && FixedHeader(p) <= t && t + 20 <= |p| && 20 <= DataOffset(p, t) <= |p| - t
    ensures t >= 0 ==> (Version(p) == 4 && t == HeaderLen(p) && p[9] == 6) || (Version(p) == 6 && t == 40 && p[6] == 6)
  {
    if p == [] || (Version(p) != 4 && Version(p) != 6) || |p| < FixedHeader(p) then -1
    else
      var t := if Version(p) == 4 then HeaderLen(p) else 40;
      var proto := if Version(p) == 4 then p[9] else p[6];
      if t < 20 || |p| < t || proto != 6 || |p| < t + 20 then -1
      else if p[t + 13] / 2 % 2 == 0 || DataOffset(p, t) < 20 || |p| < t + DataOffset(p, t) then -1
      else t
  }

  function DataOffset(p: seq<byte>, t: nat): nat
    requires t + 20 <= |p|
  {
    (p[t + 12] / 16) * 4
  }

  /** Where the MSS value of a SYN segment lies. */
  function MssAt(p: seq<byte>): (r: Option<nat>)
    ensures r.Some? ==> SynAt(p) >= 0 && SynAt(p) + 22 <= r.value && r.value + 2 <= SynAt(p) + DataOffset(p, SynAt(p))
  {
    var t := SynAt(p);
    if t < 0 then None
    else
      var w := Walk(p[t + 20..t + DataOffset(p, t)], 0);
      if w.None? then None else Some(t + 20 + w.value)
  }

  function Clamped(p: seq<byte>, maxMSS: int): (q: seq<byte>)
    ensures |q| == |p|
  {
    var at := MssAt(p);
    if at.None? || Word(p, at.value) <= Uint16(maxMSS) then p
    else
      var t := SynAt(p);
      PutWord(PutWord(p, at.value, Uint16(maxMSS)), t + 16,
              Sub(Word(p, t + 16), Word(p, at.value), Uint16(maxMSS)))
  }

  /** The header checks of ClampMSS. */
  method FindSyn(packet: array<byte>) returns (tcpOff: int)
    ensures tcpOff == SynAt(packet[..])
  {
    if packet.Length < 1 { return -1; }
    var version := packet[0] / 16;
    var ipHdrLen: nat;
    var protocol;
    if version == 4 {
      if packet.Length < 20 { return -1; }
      var ihl := (packet[0] % 16) * 4;
      if ihl < 20 || packet.Length < ihl { return -1; }
      protocol := packet[9];
      ipHdrLen := ihl;
    } else if version == 6 {
      if packet.Length < 40 { return -1; }
      protocol := packet[6];
      ipHdrLen := 40;
    } else {
      return -1;
    }
    if protocol != 6 { return -1; }
    tcpOff := ipHdrLen;
    if packet.Length < tcpOff + 20 { return -1; }
    var flags := packet[tcpOff + 13];
    if flags / 2 % 2 == 0 { return -1; }
    var dataOff: nat := (packet[tcpOff + 12] / 16) * 4;
    if dataOff < 20 || packet.Length < tcpOff + dataOff { return -1; }
  }

  method ClampMSS(packet: array<byte>, maxMSS: int)
    modifies packet
    ensures packet[..] == Clamped(old(packet[..]), maxMSS)
  {
    hide Walk, Sub, Put, SynAt, Version, HeaderLen;
    var tcpOff := FindSyn(packet);
    if tcpOff < 0 { return; }
    var dataOff: nat := (packet[tcpOff + 12] / 16) * 4;
    assert packet[..][tcpOff + 20..tcpOff + dataOff] == packet[tcpOff + 20..tcpOff + dataOff];
    var mssOff, mssVal, found := FindMSSOption(packet[tcpOff + 20..tcpOff + dataOff]);
    if !found || mssVal <= Uint16(maxMSS) { return; }
    var newMSS := Uint16(maxMSS);
    var off := tcpOff + 20 + mssOff;
    var csum := OnesComplementSub(Word(packet[..], tcpOff + 16), Word(packet[..], off), newMSS);
    StoreWord(packet, off, newMSS);
    StoreWord(packet, tcpOff + 16, csum);
  }

  function MSSForMTU(version: nat, mtu: int): int {
    if version == 6 then mtu - 60 else mtu - 40
  }

  function ClampedPacket(p: seq<byte>, mtu: int): (q: seq<byte>)
    ensures |q| == |p|
  {
    if p == [] then p else Clamped(p, MSSForMTU(Version(p), mtu))
  }

  method ClampMSSPacket(packet: array<byte>, mtu: int)
    modifies packet
    ensures packet[..] == ClampedPacket(old(packet[..]), mtu)
  {
    if packet.Length < 1 { return; }
    var maxMSS := MSSForMTU(packet[0] / 16, mtu);
    ClampMSS(packet, maxMSS);
  }
}
