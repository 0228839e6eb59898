/** Reading back appended capsules, whole and cut short. */
module CapsuleProofs {
  import opened Wrappers
  import opened Pow2
  import opened Bytes
  import opened Varint
  import opened IPRange
  import opened H2Datagram
  import opened CapsuleCodec

  // ----- One entry

  lemma AddressNumber(a: Addr)
    requires a.Valid()
    ensures Number(AsSlice(a)) == a.value
  {
    hide Number, Spell;
    Exp256IsExp2(a.BitLen() / 8);
    SpellThenNumber(a.value, a.BitLen() / 8);
  }

  function PrefixBytes(p: Prefix): (s: seq<byte>)
    requires p.Valid()
    ensures |s| == p.addr.BitLen() / 8 + 2
  {
    [VersionByte(p.addr)] + AsSlice(p.addr) + [p.bits]
  }

  lemma PrefixAtBytes(p: Prefix, rest: seq<byte>)
    requires p.Valid()
    ensures PrefixAt(PrefixBytes(p) + rest)
         == if p.addr.value % Exp2(p.addr.BitLen() - p.bits) == 0 then Entry(p, |PrefixBytes(p)|) else Failed
  {
    hide Number, Spell, Exp2;
    var s, n := PrefixBytes(p) + rest, p.addr.BitLen() / 8;
    assert s[1..][..n] == AsSlice(p.addr);
    AddressNumber(p.addr);
  }

  /** A prefix cut short is never an entry; which cuts count as a clean end. */
  lemma PrefixAtCut(p: Prefix, m: nat)
    requires p.Valid() && m < |PrefixBytes(p)|
    ensures PrefixAt(PrefixBytes(p)[..m])
         == if m == 0 || m == 1 || m == |PrefixBytes(p)| - 1 then EndOfInput else Failed
  {
    hide Number, Spell, Exp2;
  }

  lemma AddressBytesParts(e: AddressEntry)
    requires e.Valid()
    ensures AddressBytes(e) == Encode(e.requestID) + PrefixBytes(e.ipPrefix)
    ensures Width(AddressBytes(e)[0]) == Varint.Len(e.requestID)
  {
    hide Number, Spell, Exp2, Encode, Width;
    EncodedFirstByte(e.requestID);
  }

  lemma AddressAtBytes(e: AddressEntry, rest: seq<byte>, strict: bool)
    requires e.Valid()
    ensures AddressAt(AddressBytes(e) + rest, strict) == if e.Masked() then Entry(e, e.Len()) else Failed
  {
    hide Number, Encode, Width, Decode, PrefixAt, PrefixBytes, AddressBytes, Exp2;
    AddressBytesParts(e);
    var id, p := Encode(e.requestID), PrefixBytes(e.ipPrefix);
    var s := AddressBytes(e) + rest;
    assert s == id + (p + rest);
    DecodeEncode(e.requestID, p + rest);
    assert s[|id|..] == p + rest;
    PrefixAtBytes(e.ipPrefix, rest);
  }

  /** The cuts inside an entry that look like the end of the input. */
  predicate CleanCut(e: AddressEntry, m: nat, strict: bool) {
    var l := Varint.Len(e.requestID);
    || m == 0
    || (m < l && !strict)
    || m == l
    || m == l + 1
    || m == e.Len() - 1
  }

  lemma AddressAtCut(e: AddressEntry, m: nat, strict: bool)
    requires e.Valid() && m < e.Len()
    ensures AddressAt(AddressBytes(e)[..m], strict) == if CleanCut(e, m, strict) then EndOfInput else Failed
  {
    hide Number, Encode, Width, Decode, PrefixAt, PrefixBytes, AddressBytes, Exp2;
    AddressBytesParts(e);
    var id, p := Encode(e.requestID), PrefixBytes(e.ipPrefix);
    var s := AddressBytes(e)[..m];
    if m >= |id| {
      assert s[|id|..] == p[..m - |id|];
      PrefixAtCut(e.ipPrefix, m - |id|);
    }
  }

  // ----- Lists of addresses

  ghost predicate AllValid(es: seq<AddressEntry>) {
    forall e :: e in es ==> e.Valid()
  }

  ghost predicate AllMasked(es: seq<AddressEntry>)
    requires AllValid(es)
  {
    forall e :: e in es ==> e.Valid() && e.Masked()
  }

  lemma AllMaskedFirst(es: seq<AddressEntry>)
    requires es != [] && AllValid(es)
    ensures es[0].Valid() && AllValid(es[1..])
    ensures AllMasked(es) <==> es[0].Masked() && AllMasked(es[1..])
  {
    assert es[0] in es;
    if es[0].Masked() && AllMasked(es[1..]) {
      forall e | e in es ensures e.Valid() && e.Masked() { if e != es[0] { assert e in es[1..]; } }
    }
  }

  /** Parsing an appended body gives the same list back exactly if every prefix is masked;
      a single host bit makes the receiver reject the whole capsule. */
  lemma {:induction false} AddressRoundTrip(es: seq<AddressEntry>, strict: bool)
    requires AllValid(es)
    ensures Addresses(AddressBody(es), strict) == if AllMasked(es) then Ok(es) else Err
  {
    hide AddressAt, AddressBytes, AllMasked, AddressEntry.Masked, AddressEntry.Len;
    if es == [] {
      assert Addresses([], strict) == Ok([]) by { NothingToRead(strict); }
      assert AllMasked(es) by { NothingMasked(); }
    } else {
      AllMaskedFirst(es);
      AddressRoundTrip(es[1..], strict);
      AddressAtBytes(es[0], AddressBody(es[1..]), strict);
      assert AddressBody(es)[|AddressBytes(es[0])|..] == AddressBody(es[1..]);
      assert es == [es[0]] + es[1..];
    }
  }

  lemma NothingToRead(strict: bool)
    ensures Addresses([], strict) == Ok([]) && Routes([]) == Ok([])
  {
  }

  lemma NothingMasked()
    ensures AllMasked([])
  {
  }

  /** A body cut at any byte gives an error, or exactly the whole entries before the cut:
      k entries are whole, and the list is accepted exactly if the cut is a clean one. */
  lemma {:induction false} CutAddresses(es: seq<AddressEntry>, n: nat, strict: bool) returns (k: nat)
    requires AllValid(es) && AllMasked(es) && n <= |AddressBody(es)|
    ensures k <= |es| && AllValid(es[..k]) && |AddressBody(es[..k])| <= n
    ensures k == |es| ==> n == |AddressBody(es)|
    ensures k < |es| ==> es[k].Valid() && n < |AddressBody(es[..k])| + es[k].Len()
    ensures Addresses(AddressBody(es)[..n], strict)
         == if k == |es| || CleanCut(es[k], n - |AddressBody(es[..k])|, strict) then Ok(es[..k]) else Err
  {
    hide AddressAt, AddressBytes, AllMasked, AddressEntry.Masked, AddressEntry.Len, CleanCut;
    assert AddressBody([]) == [] by { NoAddresses(); }
    if es == [] {
      k := 0;
      assert AddressBody(es)[..n] == [];
      NothingToRead(strict);
    } else {
      AllMaskedFirst(es);
      var first, body := AddressBytes(es[0]), AddressBody(es[1..]);
      if n < |first| {
        k := 0;
        assert AddressBody(es)[..n] == first[..n];
        AddressAtCut(es[0], n, strict);
      } else {
        var k' := CutAddresses(es[1..], n - |first|, strict);
        k := k' + 1;
        AddressAtBytes(es[0], body[..n - |first|], strict);
        assert AddressBody(es)[..n] == first + body[..n - |first|];
        assert AddressBody(es)[..n][|first|..] == body[..n - |first|];
        assert es[..k][1..] == es[1..][..k'] && es[..k][0] == es[0];
        assert es[..k] == [es[0]] + es[1..][..k'];
      }
    }
  }

  /** So a missing last byte goes unnoticed: the last entry is dropped without an error. */
  lemma MissingLastByteIsAccepted(es: seq<AddressEntry>, strict: bool)
    requires es != [] && AllValid(es) && AllMasked(es)
    ensures AddressBody(es) != []
    ensures var s := AddressBody(es);
            Addresses(s[..|s| - 1], strict) == Ok(es[..|es| - 1])
  {
    hide AddressAt, AddressBytes, AllMasked, AddressEntry.Masked, Addresses;
    var last := |es| - 1;
    AddressBodyOneMore(es, last);
    assert es[..last + 1] == es;
    assert es[last].Valid();
    var n := |AddressBody(es)| - 1;
    var k := CutAddresses(es, n, strict);
    if k < last { BodyGrows(es, k + 1, last); AddressBodyOneMore(es, k); }
  }

  lemma {:induction false} BodyGrows(es: seq<AddressEntry>, i: nat, j: nat)
    requires AllValid(es) && i <= j <= |es|
    ensures AllValid(es[..i]) && AllValid(es[..j]) && |AddressBody(es[..i])| <= |AddressBody(es[..j])|
    decreases j - i
  {
    hide AddressBytes;
    if i < j {
      BodyGrows(es, i, j - 1);
      AddressBodyOneMore(es, j - 1);
    }
  }

  // ----- Lists of routes

  lemma RouteAtBytes(r: IPRoute, rest: seq<byte>)
    requires r.Valid()
    ensures r.InOrder() ==> RouteAt(RouteBytes(r) + rest) == Entry(r, r.Len())
    ensures !r.InOrder() && r.startIP.is4 == r.endIP.is4 ==> RouteAt(RouteBytes(r) + rest) == Failed
    ensures !r.InOrder() ==> !(RouteAt(RouteBytes(r) + rest).Entry? && RouteAt(RouteBytes(r) + rest).value == r)
  {
    hide Number, Spell, Exp2;
    if r.startIP.is4 == r.endIP.is4 {
      var s, n := RouteBytes(r) + rest, r.startIP.BitLen() / 8;
      assert s[1..][..n] == AsSlice(r.startIP);
      assert s[1..][n..][..n] == AsSlice(r.endIP);
      AddressNumber(r.startIP);
      AddressNumber(r.endIP);
    }
  }

  /** Parsing an appended route list gives it back exactly if every range is of one family
      and its start is not above its end. */
  lemma {:induction false} RouteRoundTrip(rs: seq<IPRoute>)
    requires forall r :: r in rs ==> r.Valid()
    ensures Routes(RouteBody(rs)) == Ok(rs) <==> forall r :: r in rs ==> r.InOrder()
  {
    hide RouteAt, RouteBytes, IPRoute.InOrder, IPRoute.Len;
    if rs == [] {
      NothingToRead(true);
    } else {
      RouteRoundTrip(rs[1..]);
      RouteAtBytes(rs[0], RouteBody(rs[1..]));
      assert RouteBody(rs)[|RouteBytes(rs[0])|..] == RouteBody(rs[1..]);
      assert rs == [rs[0]] + rs[1..];
      if rs[0].InOrder() && Routes(RouteBody(rs[1..])).Ok? {
        assert ([rs[0]] + Routes(RouteBody(rs[1..])).value)[1..] == Routes(RouteBody(rs[1..])).value;
      }
    }
  }

  predicate CleanRouteCut(r: IPRoute, m: nat) {
    var n := r.startIP.BitLen() / 8;
    m == 0 || m == 1 || m == 1 + n || m == 1 + 2 * n
  }

  lemma RouteAtCut(r: IPRoute, m: nat)
    requires r.Valid() && r.InOrder() && m < r.Len()
    ensures RouteAt(RouteBytes(r)[..m]) == if CleanRouteCut(r, m) then EndOfInput else Failed
  {
    hide Number, Spell, Exp2;
    var s, n := RouteBytes(r)[..m], r.startIP.BitLen() / 8;
    if m == 1 + 2 * n {
      assert s[1..][..n] == AsSlice(r.startIP);
      assert s[1..][n..][..n] == AsSlice(r.endIP);
      AddressNumber(r.startIP);
      AddressNumber(r.endIP);
    }
  }

  /** The same for routes cut at any byte. */
  lemma {:induction false} CutRoutes(rs: seq<IPRoute>, n: nat) returns (k: nat)
    requires (forall r :: r in rs ==> r.Valid() && r.InOrder()) && n <= |RouteBody(rs)|
    ensures k <= |rs| && |RouteBody(rs[..k])| <= n
    ensures k == |rs| ==> n == |RouteBody(rs)|
    ensures k < |rs| ==> n < |RouteBody(rs[..k])| + rs[k].Len()
    ensures Routes(RouteBody(rs)[..n])
         == if k == |rs| || CleanRouteCut(rs[k], n - |RouteBody(rs[..k])|) then Ok(rs[..k]) else Err
  {
    hide RouteAt, RouteBytes, IPRoute.InOrder, IPRoute.Len, CleanRouteCut;
    assert RouteBody([]) == [] by { NoRoutes(); }
    if rs == [] {
      k := 0;
      assert RouteBody(rs)[..n] == [];
      NothingToRead(true);
    } else {
      var first, body := RouteBytes(rs[0]), RouteBody(rs[1..]);
      if n < |first| {
        k := 0;
        assert RouteBody(rs)[..n] == first[..n];
        RouteAtCut(rs[0], n);
      } else {
        var k' := CutRoutes(rs[1..], n - |first|);
        k := k' + 1;
        RouteAtBytes(rs[0], body[..n - |first|]);
        assert RouteBody(rs)[..n] == first + body[..n - |first|];
        assert RouteBody(rs)[..n][|first|..] == body[..n - |first|];
        assert rs[..k][1..] == rs[1..][..k'] && rs[..k][0] == rs[0];
        assert rs[..k] == [rs[0]] + rs[1..][..k'];
      }
    }
  }

  // ----- Whole capsules

  /** An appended capsule is read back from any stream it starts: its type, its entries, and
      where the next capsule begins. */
  lemma AppendedCapsuleIsRead(capsuleType: nat, es: seq<AddressEntry>, later: seq<byte>, strict: bool)
    requires AllValid(es) && capsuleType < LIMIT && |AddressBody(es)| < LIMIT
    ensures var c := CapsuleAt(CapsuleBytes(capsuleType, AddressBody(es)) + later);
            && c.Some? && c.value.kind == capsuleType
            && Addresses(c.value.payload, strict) == (if AllMasked(es) then Ok(es) else Err)
            && (CapsuleBytes(capsuleType, AddressBody(es)) + later)[c.value.size..] == later
  {
    hide CapsuleAt, CapsuleBytes, Addresses, AddressBody, AllMasked;
    CapsuleOfBytes(capsuleType, AddressBody(es), later);
    AddressRoundTrip(es, strict);
  }
}
