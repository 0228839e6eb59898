/** The address and route capsules (connect-ip/capsule.go; sections 4.7.1 to 4.7.3 of RFC 9484). */
module CapsuleCodec {
  import opened Wrappers
  import opened Pow2
  import opened Bytes
  import opened Varint
  import opened IPRange
  import RangeCover
  import opened H2Datagram

  const ADDRESS_ASSIGN := 1
  const ADDRESS_REQUEST := 2
  const ROUTE_ADVERTISEMENT := 3

  /** An assigned or a requested address. */
  datatype AddressEntry = AddressEntry(requestID: nat, ipPrefix: Prefix) {
    ghost predicate Valid() { requestID < LIMIT && ipPrefix.Valid() }

    /** No host bit of the prefix is set. */
    predicate Masked()
      requires ipPrefix.bits <= ipPrefix.addr.BitLen()
    {
      ipPrefix.addr.value % Exp2(ipPrefix.addr.BitLen() - ipPrefix.bits) == 0
    }

    function Len(): (n: nat) { Varint.Len(requestID) + 1 + ipPrefix.addr.BitLen() / 8 + 1 }
  }

  /** A range of addresses and the protocol it is open for; 0 stands for all. */
  datatype IPRoute = IPRoute(startIP: Addr, endIP: Addr, ipProtocol: byte) {
    ghost predicate Valid() { startIP.Valid() && endIP.Valid() }

    predicate InOrder() { startIP.is4 == endIP.is4 && startIP.value <= endIP.value }

    function Len(): (n: nat) { 1 + startIP.BitLen() / 8 + endIP.BitLen() / 8 + 1 }
  }

  function AsSlice(a: Addr): (s: seq<byte>)
    ensures |s| == a.BitLen() / 8
  {
    Spell(a.value, a.BitLen() / 8)
  }

  function VersionByte(a: Addr): byte { if a.is4 then 4 else 6 }

  function AddressBytes(e: AddressEntry): (s: seq<byte>)
    requires e.Valid()
    ensures |s| == e.Len()
  {
    Exp2Eight();
    Encode(e.requestID) + [VersionByte(e.ipPrefix.addr)] + AsSlice(e.ipPrefix.addr) + [e.ipPrefix.bits]
  }

  function RouteBytes(r: IPRoute): (s: seq<byte>)
    ensures |s| == r.Len()
  {
    [VersionByte(r.startIP)] + AsSlice(r.startIP) + AsSlice(r.endIP) + [r.ipProtocol]
  }

  function AddressBody(es: seq<AddressEntry>): (s: seq<byte>)
    requires forall e :: e in es ==> e.Valid()
  {
    if es == [] then [] else AddressBytes(es[0]) + AddressBody(es[1..])
  }

  function RouteBody(rs: seq<IPRoute>): (s: seq<byte>) {
    if rs == [] then [] else RouteBytes(rs[0]) + RouteBody(rs[1..])
  }

  // ----- Appending

  lemma {:induction false} AddressBodyOneMore(es: seq<AddressEntry>, i: nat)
    requires i < |es| && forall e :: e in es ==> e.Valid()
    ensures AddressBody(es[..i + 1]) == AddressBody(es[..i]) + AddressBytes(es[i])
  {
    hide AddressBytes;
    if i == 0 {
      assert es[..1][1..] == [] && es[..0] == [];
    } else {
      AddressBodyOneMore(es[1..], i - 1);
      assert es[..i + 1][1..] == es[1..][..i] && es[..i][1..] == es[1..][..i - 1];
    }
  }

  lemma {:induction false} RouteBodyOneMore(rs: seq<IPRoute>, i: nat)
    requires i < |rs|
    ensures RouteBody(rs[..i + 1]) == RouteBody(rs[..i]) + RouteBytes(rs[i])
  {
    hide RouteBytes;
    if i == 0 {
      assert rs[..1][1..] == [] && rs[..0] == [];
    } else {
      RouteBodyOneMore(rs[1..], i - 1);
      assert rs[..i + 1][1..] == rs[1..][..i] && rs[..i][1..] == rs[1..][..i - 1];
    }
  }

  /** append of an ADDRESS_ASSIGN or ADDRESS_REQUEST capsule. The length it announces, added
      up from the entries' lengths, is the length of the body that follows. */
  method AppendAddresses(b: seq<byte>, capsuleType: nat, addresses: seq<AddressEntry>) returns (r: seq<byte>)
    requires capsuleType == ADDRESS_ASSIGN || capsuleType == ADDRESS_REQUEST
    requires (forall e :: e in addresses ==> e.Valid()) && |AddressBody(addresses)| < LIMIT
    ensures r == b + CapsuleBytes(capsuleType, AddressBody(addresses))
  {
    hide AddressBytes, AddressBody, Encode, Spell, AddressEntry.Len;
    assert AddressBody(addresses[..0]) == [] by { NoAddresses(); }
    var totalLen: nat := 0;
    for i := 0 to |addresses|
      invariant totalLen == |AddressBody(addresses[..i])|
    {
      AddressBodyOneMore(addresses, i);
      assert addresses[i].Valid();
      totalLen := totalLen + addresses[i].Len();
    }
    assert addresses[..|addresses|] == addresses;
    var head := Encode(capsuleType) + Encode(totalLen);
    r := b + Encode(capsuleType) + Encode(totalLen);
    assert r == b + head;
    for i := 0 to |addresses|
      invariant r == b + head + AddressBody(addresses[..i])
    {
      var e := addresses[i];
      AddressBodyOneMore(addresses, i);
      assert e.Valid();
      Exp2Eight();
      ghost var before := r;
      r := r + Encode(e.requestID);
      r := r + [if e.ipPrefix.addr.is4 then 4 else 6];
      r := r + AsSlice(e.ipPrefix.addr);
      r := r + [e.ipPrefix.bits];
      assert r == before + AddressBytes(e) by { AppendedPieces(before, e); }
    }
  }

  lemma NoAddresses()
    ensures AddressBody([]) == []
  {
  }

  lemma AppendedPieces(before: seq<byte>, e: AddressEntry)
    requires e.Valid() && e.ipPrefix.bits < 256
    ensures before + Encode(e.requestID) + [VersionByte(e.ipPrefix.addr)] + AsSlice(e.ipPrefix.addr) + [e.ipPrefix.bits]
         == before + AddressBytes(e)
  {
  }

  /** append of a ROUTE_ADVERTISEMENT capsule. */
  method AppendRoutes(b: seq<byte>, routes: seq<IPRoute>) returns (r: seq<byte>)
    requires |RouteBody(routes)| < LIMIT
    ensures r == b + CapsuleBytes(ROUTE_ADVERTISEMENT, RouteBody(routes))
  {
    hide RouteBytes, RouteBody, Encode, Spell, IPRoute.Len;
    assert RouteBody(routes[..0]) == [] by { NoRoutes(); }
    var totalLen: nat := 0;
    for i := 0 to |routes|
      invariant totalLen == |RouteBody(routes[..i])|
    {
      RouteBodyOneMore(routes, i);
      totalLen := totalLen + routes[i].Len();
    }
    assert routes[..|routes|] == routes;
    var head := Encode(ROUTE_ADVERTISEMENT) + Encode(totalLen);
    r := b + Encode(ROUTE_ADVERTISEMENT) + Encode(totalLen);
    assert r == b + head;
    for i := 0 to |routes|
      invariant r == b + head + RouteBody(routes[..i])
    {
      var route := routes[i];
      RouteBodyOneMore(routes, i);
      ghost var before := r;
      r := r + [if route.startIP.is4 then 4 else 6];
      r := r + AsSlice(route.startIP);
      r := r + AsSlice(route.endIP);
      r := r + [route.ipProtocol];
      assert r == before + RouteBytes(route) by { AppendedRoutePieces(before, route); }
    }
  }

  lemma NoRoutes()
    ensures RouteBody([]) == []
  {
  }

  lemma AppendedRoutePieces(before: seq<byte>, r: IPRoute)
    ensures before + [VersionByte(r.startIP)] + AsSlice(r.startIP) + AsSlice(r.endIP) + [r.ipProtocol]
         == before + RouteBytes(r)
  {
  }

  // ----- Reading

  /** One entry read, the clean end of the input (io.EOF), or an error. */
  datatype Outcome<+T> = Entry(value: T, size: nat) | EndOfInput | Failed

  /** What parseAddress finds at the start of the input. The end of the input counts as
      clean wherever a read finds no byte at all; `strict` says whether the varint library
      makes an exception for an end inside a varint. */
  function AddressAt(s: seq<byte>, strict: bool): (o: Outcome<AddressEntry>)
    ensures o.Entry? ==> 0 < o.size <= |s| && o.value.ipPrefix.bits <= o.value.ipPrefix.addr.BitLen()
  {
    if s == [] then EndOfInput
    else if |s| < Width(s[0]) then (if strict then Failed else EndOfInput)
    else
      var o := PrefixAt(s[Width(s[0])..]);
      if o.Entry? then Entry(AddressEntry(Decode(s).value.value, o.value), Width(s[0]) + o.size)
      else if o.EndOfInput? then EndOfInput
      else Failed
  }

  /** The version byte, address and prefix length. */
  function PrefixAt(s: seq<byte>): (o: Outcome<Prefix>)
    ensures o.Entry? ==> 0 < o.size <= |s| && o.value.bits <= o.value.addr.BitLen()
  {
    if s == [] then EndOfInput
    else if s[0] != 4 && s[0] != 6 then Failed
    else
      var n := if s[0] == 4 then 4 else 16;
      if |s| == 1 then EndOfInput
      else if |s| < 1 + n then Failed
      else if |s| == 1 + n then EndOfInput
      else
        var p := Prefix(Addr(s[0] == 4, Number(s[1..][..n])), s[1..][n]);
        if p.bits > p.addr.BitLen() || p.addr.value % Exp2(p.addr.BitLen() - p.bits) != 0 then Failed
        else Entry(p, n + 2)
  }

  /** What parseIPAddressRange finds at the start of the input. */
  function RouteAt(s: seq<byte>): (o: Outcome<IPRoute>)
    ensures o.Entry? ==> 0 < o.size <= |s|
  {
    if s == [] then EndOfInput
    else if s[0] != 4 && s[0] != 6 then Failed
    else
      var n := if s[0] == 4 then 4 else 16;
      if |s| == 1 then EndOfInput
      else if |s| < 1 + n then Failed
      else if |s| == 1 + n then EndOfInput
      else if |s| < 1 + 2 * n then Failed
      else
        var start, end := Addr(s[0] == 4, Number(s[1..][..n])), Addr(s[0] == 4, Number(s[1..][n..][..n]));
        if RangeCover.Compare(start, end) > 0 then Failed
        else if |s| == 1 + 2 * n then EndOfInput
        else Entry(IPRoute(start, end, s[1..][n..][n]), 2 * n + 2)
  }

  /** A list in front of the entries read after it. */
  function Prepended<T>(es: seq<T>, r: Result<seq<T>>): (p: Result<seq<T>>) {
    if r.Ok? then Ok(es + r.value) else Err
  }

  lemma PrependNothing<T>(r: Result<seq<T>>)
    ensures Prepended([], r) == r
  {
    if r.Ok? { assert [] + r.value == r.value; }
  }

  lemma PrependOneMore<T>(es: seq<T>, e: T, r: Result<seq<T>>)
    ensures Prepended(es + [e], r) == Prepended(es, Prepended([e], r))
  {
    if r.Ok? { assert es + [e] + r.value == es + ([e] + r.value); }
  }

  lemma DropDrop(s: seq<byte>, i: nat, j: nat)
    requires i + j <= |s|
    ensures s[i..][j..] == s[i + j..]
  {
  }

  /** All entries up to the clean end of the input. */
  function Addresses(s: seq<byte>, strict: bool): (r: Result<seq<AddressEntry>>)
    decreases |s|
  {
    match AddressAt(s, strict)
    case EndOfInput => Ok([])
    case Failed => Err
    case Entry(e, n) =>
      Prepended([e], Addresses(s[n..], strict))
  }

  function Routes(s: seq<byte>): (r: Result<seq<IPRoute>>)
    decreases |s|
  {
    match RouteAt(s)
    case EndOfInput => Ok([])
    case Failed => Err
    case Entry(e, n) =>
      Prepended([e], Routes(s[n..]))
  }

  datatype ReadError = NoError | EOF | UnexpectedEOF | OtherError

  /** An input that is consumed by reading. */
  class Reader {
    var rest: seq<byte>

    constructor (s: seq<byte>)
      ensures rest == s
    {
      rest := s;
    }

    method ReadByte() returns (b: byte, err: ReadError)
      modifies this
      ensures if old(rest) == [] then err == EOF && rest == []
              else err == NoError && b == old(rest)[0] && rest == old(rest)[1..]
    {
      if |rest| == 0 { return 0, EOF; }
      b, err := rest[0], NoError;
      rest := rest[1..];
    }

    /** io.ReadFull: n bytes; EOF if there are none, UnexpectedEOF if there are too few. */
    method ReadFull(n: nat) returns (data: seq<byte>, err: ReadError)
      requires n > 0
      modifies this
      ensures if |old(rest)| >= n then err == NoError && data == old(rest)[..n] && rest == old(rest)[n..]
              else rest == [] && err == if old(rest) == [] then EOF else UnexpectedEOF
    {
      if |rest| >= n {
        data, err := rest[..n], NoError;
        rest := rest[n..];
      } else {
        data, err := rest, if |rest| == 0 then EOF else UnexpectedEOF;
        rest := [];
      }
    }

    /** quicvarint.Read */
    method ReadVarint(strict: bool) returns (v: nat, err: ReadError)
      modifies this
      ensures var s := old(rest);
              if s == [] then err == EOF
              else if |s| < Width(s[0]) then err == if strict then UnexpectedEOF else EOF
              else err == NoError && v == Decode(s).value.value && rest == s[Width(s[0])..]
    {
      var n, ok;
      ghost var s := rest;
      if |rest| == 0 { return 0, EOF; }
      v, n, ok := ParseVarint(rest);
      if ok {
        rest := rest[n..];
        err := NoError;
      } else {
        rest := [];
        err := if strict then UnexpectedEOF else EOF;
      }
    }
  }

  function ErrorOf<T>(o: Outcome<T>): ReadError {
    match o
    case Entry(_, _) => NoError
    case EndOfInput => EOF
    case Failed => OtherError
  }

  /** Errors other than EOF are all alike to the callers. */
  predicate SameError(a: ReadError, b: ReadError) {
    (a == NoError <==> b == NoError) && (a == EOF <==> b == EOF)
  }

  method ParsePrefix(r: Reader) returns (p: Prefix, err: ReadError)
    modifies r
    ensures var o := PrefixAt(old(r.rest));
            SameError(err, ErrorOf(o)) && (o.Entry? ==> p == o.value && r.rest == old(r.rest)[o.size..])
  {
    hide Number, Exp2;
    p := Prefix(Addr(true, 0), 0);
    var ipVersion, data, prefixLen;
    ipVersion, err := r.ReadByte();
    if err != NoError { return; }
    if ipVersion != 4 && ipVersion != 6 { return p, OtherError; }
    data, err := r.ReadFull(if ipVersion == 4 then 4 else 16);
    if err != NoError { return; }
    var ip := Addr(ipVersion == 4, Number(data));
    prefixLen, err := r.ReadByte();
    if err != NoError { return; }
    if prefixLen > ip.BitLen() { return p, OtherError; }
    if ip.value % Exp2(ip.BitLen() - prefixLen) != 0 { return p, OtherError; }
    p := Prefix(ip, prefixLen);
    DropDrop(old(r.rest), 1, |data|);
    DropDrop(old(r.rest), 1 + |data|, 1);
  }

  method ParseAddress(r: Reader, strict: bool) returns (e: AddressEntry, err: ReadError)
    modifies r
    ensures var o := AddressAt(old(r.rest), strict);
            SameError(err, ErrorOf(o)) && (o.Entry? ==> e == o.value && r.rest == old(r.rest)[o.size..])
  {
    hide PrefixAt, Number;
    e := AddressEntry(0, Prefix(Addr(true, 0), 0));
    var requestID, prefix;
    ghost var s := r.rest;
    requestID, err := r.ReadVarint(strict);
    if err != NoError { return; }
    prefix, err := ParsePrefix(r);
    if err != NoError { return; }
    e := AddressEntry(requestID, prefix);
    DropDrop(s, Width(s[0]), PrefixAt(s[Width(s[0])..]).size);
  }

  /** parseAddressAssignCapsule and parseAddressRequestCapsule */
  method ParseAddressCapsule(r: Reader, strict: bool) returns (result: Result<seq<AddressEntry>>)
    modifies r
    ensures result == Addresses(old(r.rest), strict)
  {
    hide AddressAt, PrefixAt;
    var entries: seq<AddressEntry> := [];
    PrependNothing(Addresses(r.rest, strict));
    while true
      invariant Addresses(old(r.rest), strict) == Prepended(entries, Addresses(r.rest, strict))
      decreases |r.rest|
    {
      ghost var s := r.rest;
      var e, err := ParseAddress(r, strict);
      if err != NoError {
        if err == EOF {
          assert entries + [] == entries;
          return Ok(entries);
        }
        return Err;
      }
      PrependOneMore(entries, e, Addresses(r.rest, strict));
      entries := entries + [e];
    }
  }

  method ParseIPAddressRange(r: Reader) returns (route: IPRoute, err: ReadError)
    modifies r
    ensures var o := RouteAt(old(r.rest));
            SameError(err, ErrorOf(o)) && (o.Entry? ==> route == o.value && r.rest == old(r.rest)[o.size..])
  {
    hide Number, RangeCover.Compare;
    route := IPRoute(Addr(true, 0), Addr(true, 0), 0);
    var ipVersion, start, end, ipProtocol;
    ipVersion, err := r.ReadByte();
    if err != NoError { return; }
    if ipVersion != 4 && ipVersion != 6 { return route, OtherError; }
    start, err := r.ReadFull(if ipVersion == 4 then 4 else 16);
    if err != NoError { return; }
    end, err := r.ReadFull(if ipVersion == 4 then 4 else 16);
    if err != NoError { return; }
    var startIP, endIP := Addr(ipVersion == 4, Number(start)), Addr(ipVersion == 4, Number(end));
    if RangeCover.Compare(startIP, endIP) > 0 { return route, OtherError; }
    ipProtocol, err := r.ReadByte();
    if err != NoError { return; }
    route := IPRoute(startIP, endIP, ipProtocol);
    DropDrop(old(r.rest), 1, |start|);
    DropDrop(old(r.rest), 1 + |start|, |end|);
    DropDrop(old(r.rest), 1 + |start| + |end|, 1);
  }

  method ParseRouteAdvertisementCapsule(r: Reader) returns (result: Result<seq<IPRoute>>)
    modifies r
    ensures result == Routes(old(r.rest))
  {
    hide RouteAt;
    var ranges: seq<IPRoute> := [];
    PrependNothing(Routes(r.rest));
    while true
      invariant Routes(old(r.rest)) == Prepended(ranges, Routes(r.rest))
      decreases |r.rest|
    {
      ghost var s := r.rest;
      var range, err := ParseIPAddressRange(r);
      if err != NoError {
        if err == EOF {
          assert ranges + [] == ranges;
          return Ok(ranges);
        }
        return Err;
      }
      PrependOneMore(ranges, range, Routes(r.rest));
      ranges := ranges + [range];
    }
  }
}
