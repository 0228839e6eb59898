/** What the parsers accept from any input, not only from what the encoders write
    (connect-ip/client_h2.go, connect-ip/capsule.go). */
module ParseLaws {
  import opened Wrappers
  import opened Pow2
  import opened Bytes
  import opened Varint
  import opened IPRange
  import opened H2Datagram
  import opened CapsuleCodec
  import opened CapsuleProofs

  // ----- Varints

  /** The length that the two highest bits of a byte announce. */
  function Announced(first: byte): nat {
    if first < 64 then 1 else if first < 128 then 2 else if first < 192 then 4 else 8
  }

  /** What they add to the number. */
  function Marked(n: nat): nat {
    if n == 1 then 0 else if n == 2 then 0x4000 else if n == 4 then 0x8000_0000 else 0xc000_0000_0000_0000
  }

  /** A varint is read from any input that holds as many bytes as its first one announces; its
      value is theirs without the mark. No form is refused for being longer than needed. */
  lemma DecodeIff(s: seq<byte>)
    ensures Decode(s).Some? <==> s != [] && Announced(s[0]) <= |s|
    ensures Decode(s).Some? ==>
              var n := Announced(s[0]);
              Number(s[..n]) >= Marked(n) && Decode(s).value == Parsed(Number(s[..n]) - Marked(n), n)
  {
    hide Number, Exp256;
    if s != [] && Announced(s[0]) <= |s| {
      var n := Width(s[0]);
      assert n == Announced(s[0]) && Mark(n) == Marked(n);
      WithoutMark(s[..n]);
      assert s[..n][1..] == s[1..n];
    }
  }

  /** So every number below 2^62 can be written in each of the four lengths it fits in. */
  lemma AnyLength(v: nat, n: nat, rest: seq<byte>)
    requires n in {1, 2, 4, 8}
    requires v < if n == 1 then 64 else if n == 2 then 0x4000 else if n == 4 then 0x4000_0000 else LIMIT
    ensures Decode(Spell(v + Marked(n), n) + rest) == Some(Parsed(v, n))
  {
    hide Number, Exp256, Spell;
    var s := Spell(v + Marked(n), n);
    PowersOf256();
    SpellThenNumber(v + Marked(n), n);
    NumberByFirstByte(s);
    NumberThenSpell(s[1..]);
    assert Announced(s[0]) == n;
    DecodeIff(s + rest);
    assert (s + rest)[..n] == s;
  }

  /** A capsule is read from any input that holds a type, a length and that many bytes, in whatever
      form the two numbers are written; and from no other. */
  lemma CapsuleIff(s: seq<byte>, kind: nat, payload: seq<byte>, size: nat)
    ensures CapsuleAt(s) == Some(Capsule(kind, payload, size)) <==>
              exists k: nat, l: nat :: IsCapsule(s, kind, payload, size, k, l)
  {
    hide Decode;
    if CapsuleAt(s) == Some(Capsule(kind, payload, size)) {
      var k := Decode(s).value.n;
      assert IsCapsule(s, kind, payload, size, k, Decode(s[k..]).value.n);
    }
  }

  /** Type and length take k and l bytes. */
  predicate IsCapsule(s: seq<byte>, kind: nat, payload: seq<byte>, size: nat, k: nat, l: nat) {
    && k <= |s| && Decode(s) == Some(Parsed(kind, k)) && Decode(s[k..]) == Some(Parsed(|payload|, l))
    && size == k + l + |payload| <= |s| && s[k + l..size] == payload
  }

  // ----- Entries

  /** A prefix that is read is valid and masked, and the bytes are those it would be written as. */
  lemma PrefixIsSpelled(s: seq<byte>)
    requires PrefixAt(s).Entry?
    ensures var p, n := PrefixAt(s).value, PrefixAt(s).size;
            && p.Valid() && p.addr.value % Exp2(p.addr.BitLen() - p.bits) == 0
            && n <= |s| && s[..n] == [if p.addr.is4 then 4 else 6] + AsSlice(p.addr) + [p.bits]
  {
    hide Number, Spell, Exp2;
    var n := if s[0] == 4 then 4 else 16;
    var ip := s[1..][..n];
    NumberThenSpell(ip);
    Exp256IsExp2(n);
    assert s[..n + 2] == [s[0]] + ip + [s[1..][n]];
  }

  /** An entry of an address list: a request ID in any form, and a masked prefix. */
  lemma AddressIsSpelled(s: seq<byte>, strict: bool)
    requires AddressAt(s, strict).Entry?
    ensures var e, n := AddressAt(s, strict).value, AddressAt(s, strict).size;
            var p, w := e.ipPrefix, Announced(s[0]);
            && p.Valid() && e.Masked() && w <= n <= |s| && Decode(s) == Some(Parsed(e.requestID, w))
            && s[w..n] == [if p.addr.is4 then 4 else 6] + AsSlice(p.addr) + [p.bits]
  {
    hide Number, Spell, Exp2, PrefixAt, Decode;
    DecodeIff(s);
    var w := Width(s[0]);
    PrefixIsSpelled(s[w..]);
    var n := PrefixAt(s[w..]).size;
    assert s[w..][..n] == s[w..w + n];
  }

  /** A range that is read is in order, and the bytes are those it would be written as. */
  lemma RouteIsSpelled(s: seq<byte>)
    requires RouteAt(s).Entry?
    ensures var r, n := RouteAt(s).value, RouteAt(s).size;
            && r.Valid() && r.startIP.is4 == r.endIP.is4 && r.startIP.value <= r.endIP.value
            && n <= |s|
            && s[..n] == [if r.startIP.is4 then 4 else 6] + AsSlice(r.startIP) + AsSlice(r.endIP) + [r.ipProtocol]
  {
    hide Number, Spell, Exp2;
    var n := if s[0] == 4 then 4 else 16;
    var start, end := s[1..][..n], s[1..][n..][..n];
    NumberThenSpell(start);
    NumberThenSpell(end);
    Exp256IsExp2(n);
    assert s[..2 * n + 2] == [s[0]] + start + end + [s[1..][n..][n]];
  }

  // ----- Lists

  /** The input is the bytes of the ranges one after the other, and at its end a range cut where
      the end of the input counts as clean, or nothing. */
  predicate SpellsRoutes(s: seq<byte>, rs: seq<IPRoute>)
    decreases |rs|
  {
    if rs == [] then IsCleanTail(s)
    else
      var n := |RouteBytes(rs[0])|;
      rs[0].InOrder() && n <= |s| && s[..n] == RouteBytes(rs[0]) && SpellsRoutes(s[n..], rs[1..])
  }

  /** Nothing, or a version and then nothing or one or two addresses, the two in order. */
  predicate IsCleanTail(s: seq<byte>) {
    s == [] || ((s[0] == 4 || s[0] == 6)
                && var n := if s[0] == 4 then 4 else 16;
                   |s| == 1 || |s| == 1 + n
                   || (|s| == 1 + 2 * n && Number(s[1..1 + n]) <= Number(s[1 + n..1 + 2 * n])))
  }

  lemma RoutesEnd(s: seq<byte>)
    ensures RouteAt(s) == EndOfInput <==> IsCleanTail(s)
  {
    hide Number;
    if s != [] && (s[0] == 4 || s[0] == 6) {
      var n := if s[0] == 4 then 4 else 16;
      if |s| >= 1 + 2 * n {
        assert s[1..][..n] == s[1..1 + n] && s[1..][n..][..n] == s[1 + n..1 + 2 * n];
      }
    }
  }

  /** A list of ranges is accepted from exactly the inputs that spell it. */
  lemma {:induction false} RoutesIff(s: seq<byte>, rs: seq<IPRoute>)
    requires forall r :: r in rs ==> r.Valid()
    ensures Routes(s) == Ok(rs) <==> SpellsRoutes(s, rs)
    decreases |s|
  {
    hide RouteAt, RouteBytes, IsCleanTail;
    RoutesEnd(s);
    match RouteAt(s)
    case EndOfInput =>
      if SpellsRoutes(s, rs) && rs != [] { SpelledRoute(s, rs[0]); }
    case Failed =>
      if SpellsRoutes(s, rs) && rs != [] { SpelledRoute(s, rs[0]); }
    case Entry(r, n) =>
      RouteIsSpelled(s);
      assert RouteBytes(r) == s[..n] by { RouteBytesAre(r); }
      if rs != [] {
        RoutesIff(s[n..], rs[1..]);
        if SpellsRoutes(s, rs) { SpelledRoute(s, rs[0]); }
        assert rs == [rs[0]] + rs[1..];
        if Routes(s[n..]).Ok? { assert ([r] + Routes(s[n..]).value)[1..] == Routes(s[n..]).value; }
      }
  }

  lemma RouteBytesAre(r: IPRoute)
    ensures RouteBytes(r) == [if r.startIP.is4 then 4 else 6] + AsSlice(r.startIP) + AsSlice(r.endIP) + [r.ipProtocol]
  {
  }

  lemma SpelledRoute(s: seq<byte>, r: IPRoute)
    requires r.Valid() && r.InOrder() && |RouteBytes(r)| <= |s| && s[..|RouteBytes(r)|] == RouteBytes(r)
    ensures RouteAt(s) == Entry(r, |RouteBytes(r)|)
  {
    hide RouteAt, RouteBytes;
    RouteAtBytes(r, s[|RouteBytes(r)|..]);
    assert s == RouteBytes(r) + s[|RouteBytes(r)|..];
  }

  /** The input is the bytes of the entries one after the other, each with its request ID in any
      form, and at its end nothing or an entry cut where the end of the input counts as clean. */
  ghost predicate SpellsAddresses(s: seq<byte>, es: seq<AddressEntry>, strict: bool)
    decreases |es|
  {
    if es == [] then IsCleanAddressTail(s, strict)
    else IsSpelled(s, es[0]) && SpellsAddresses(s[EntrySize(s, es[0])..], es[1..], strict)
  }

  function EntrySize(s: seq<byte>, e: AddressEntry): nat
    requires s != []
  {
    Announced(s[0]) + e.ipPrefix.addr.BitLen() / 8 + 2
  }

  ghost predicate IsSpelled(s: seq<byte>, e: AddressEntry)
    ensures IsSpelled(s, e) ==> s != [] && EntrySize(s, e) <= |s|
  {
    && s != [] && e.ipPrefix.Valid() && e.Masked() && EntrySize(s, e) <= |s|
    && Decode(s) == Some(Parsed(e.requestID, Announced(s[0])))
    && s[Announced(s[0])..EntrySize(s, e)] == PrefixBytes(e.ipPrefix)
  }

  /** Nothing, or a cut request ID, if the reader does not mind, or a whole one and then nothing,
      a version, or a version and an address. */
  predicate IsCleanAddressTail(s: seq<byte>, strict: bool) {
    || s == []
    || (|s| < Announced(s[0]) && !strict)
    || |s| == Announced(s[0])
    || (|s| > Announced(s[0])
        && var v := s[Announced(s[0])];
           (v == 4 || v == 6) && |s| - Announced(s[0]) in {1, 1 + if v == 4 then 4 else 16})
  }

  lemma AddressesEnd(s: seq<byte>, strict: bool)
    ensures AddressAt(s, strict) == EndOfInput <==> IsCleanAddressTail(s, strict)
  {
    hide Number, Exp2, Decode;
  }

  lemma SpelledAddress(s: seq<byte>, e: AddressEntry, strict: bool)
    requires IsSpelled(s, e)
    ensures AddressAt(s, strict) == Entry(e, EntrySize(s, e))
  {
    hide Number, Exp2, Decode, PrefixAt, PrefixBytes;
    DecodeIff(s);
    var w, n := Announced(s[0]), EntrySize(s, e);
    PrefixAtBytes(e.ipPrefix, s[n..]);
    assert s[w..] == s[w..n] + s[n..];
  }

  lemma EntryIsSpelled(s: seq<byte>, strict: bool)
    requires AddressAt(s, strict).Entry?
    ensures IsSpelled(s, AddressAt(s, strict).value)
    ensures AddressAt(s, strict).size == EntrySize(s, AddressAt(s, strict).value)
  {
    hide Number, Exp2, Decode, PrefixAt, Spell;
    AddressIsSpelled(s, strict);
    var e, n, w := AddressAt(s, strict).value, AddressAt(s, strict).size, Announced(s[0]);
    assert |s[w..n]| == n - w;
  }

  /** A list of addresses is accepted from exactly the inputs that spell it. */
  lemma {:induction false} AddressesIff(s: seq<byte>, es: seq<AddressEntry>, strict: bool)
    ensures Addresses(s, strict) == Ok(es) <==> SpellsAddresses(s, es, strict)
    decreases |s|
  {
    hide AddressAt, IsSpelled, IsCleanAddressTail, EntrySize;
    AddressesEnd(s, strict);
    if es != [] && IsSpelled(s, es[0]) { SpelledAddress(s, es[0], strict); }
    match AddressAt(s, strict)
    case EndOfInput =>
    case Failed =>
    case Entry(e, n) =>
      EntryIsSpelled(s, strict);
      if es != [] {
        AddressesIff(s[n..], es[1..], strict);
        assert es == [es[0]] + es[1..];
        if Addresses(s[n..], strict).Ok? {
          assert ([e] + Addresses(s[n..], strict).value)[1..] == Addresses(s[n..], strict).value;
        }
      }
  }
}
