/** Variable-length integers (section 16 of RFC 9000): the two highest bits of the first
    byte give the length, the rest is the number, most significant byte first. */
module Varint {
  import opened Wrappers
  import opened Bytes

  const LIMIT := 0x4000_0000_0000_0000

  /** The bytes of the shortest encoding. */
  function Len(v: nat): (n: nat)
    ensures 1 <= n <= 8
  {
    if v < 0x40 then 1 else if v < 0x4000 then 2 else if v < 0x4000_0000 then 4 else 8
  }

  /** What the two highest bits of the first byte add to a number of n bytes. */
  function Mark(n: nat): nat {
    if n == 1 then 0
    else if n == 2 then 0x4000
    else if n == 4 then 0x8000_0000
    else 0xc000_0000_0000_0000
  }

  function Encode(v: nat): (s: seq<byte>)
    requires v < LIMIT
    ensures |s| == Len(v)
  {
    Spell(v + Mark(Len(v)), Len(v))
  }

  /** The length of the encoding that starts with a byte. */
  function Width(first: byte): (n: nat)
    ensures 1 <= n <= 8
  {
    if first / 64 == 0 then 1 else if first / 64 == 1 then 2 else if first / 64 == 2 then 4 else 8
  }

  datatype Parsed = Parsed(value: nat, n: nat)

  /** The varint at the start of a byte string, if it is complete. */
  function Decode(s: seq<byte>): (r: Option<Parsed>)
    ensures r.Some? ==> 1 <= r.value.n <= 8 && r.value.n <= |s|
  {
    if s == [] || |s| < Width(s[0]) then None
    else Some(Parsed(Number([s[0] % 64] + s[1..Width(s[0])]), Width(s[0])))
  }

  /** parseVarint */
  method ParseVarint(buf: seq<byte>) returns (v: nat, n: nat, ok: bool)
    ensures ok <==> Decode(buf).Some?
    ensures ok ==> Decode(buf).value == Parsed(v, n) && v < LIMIT
  {
    hide Number;
    if |buf| == 0 { return 0, 0, false; }
    n := Width(buf[0]);
    if |buf| < n { return 0, 0, false; }
    var first: byte := buf[0] % 64;
    v := first;
    NumberOfByte(first);
    assert [first] == [first] + buf[1..1];
    for i := 1 to n
      invariant v == Number([first] + buf[1..i])
    {
      assert [first] + buf[1..i + 1] == ([first] + buf[1..i]) + [buf[i]];
      NumberOfAppended([first] + buf[1..i], buf[i]);
      v := 256 * v + buf[i];
    }
    ok := true;
    DecodedInRange(buf);
  }

  lemma NumberOfByte(b: byte)
    ensures Number([b]) == b
  {
    assert [b] == [] + [b];
    NumberOfAppended([], b);
    assert Number([]) == 0;
  }

  // ----- Numbers and their first byte

  lemma {:induction false} NumberByFirstByte(s: seq<byte>)
    requires s != []
    ensures Number(s) == s[0] * Exp256(|s| - 1) + Number(s[1..])
  {
    var n := |s| - 1;
    if n > 0 {
      NumberByFirstByte(s[..n]);
      assert s[..n][1..] == s[1..][..n - 1];
      FirstByteStep(s[0], Exp256(n - 1), Number(s[1..n]), s[n]);
    } else {
      NumberOfByte(s[0]);
      assert s == [s[0]];
    }
  }

  lemma FirstByteStep(b: nat, e: nat, rest: nat, last: nat)
    ensures 256 * (b * e + rest) + last == b * (256 * e) + (256 * rest + last)
  {
    assert b * (256 * e) == 256 * (b * e);
  }

  lemma PowersOf256()
    ensures Exp256(0) == 1 && Exp256(1) == 0x100 && Exp256(2) == 0x1_0000 && Exp256(3) == 0x100_0000
    ensures Exp256(4) == 0x1_0000_0000 && Exp256(7) == 0x100_0000_0000_0000 && Exp256(8) == 0x1_0000_0000_0000_0000
  {
    assert Exp256(2) == 0x1_0000;
    assert Exp256(4) == 0x1_0000_0000;
    assert Exp256(6) == 0x1_0000_0000_0000;
  }

  lemma MarkOfByte(b: byte, n: nat)
    requires n == Width(b)
    ensures b * Exp256(n - 1) == (b % 64) * Exp256(n - 1) + Mark(n)
  {
    hide Exp256;
    PowersOf256();
    var q, r, e := b / 64, b % 64, Exp256(n - 1);
    assert b * e == r * e + q * (64 * e) by {
      assert b == 64 * q + r;
      assert (64 * q + r) * e == 64 * q * e + r * e;
    }
  }

  lemma BelowMark(r: nat, e: nat, rest: nat)
    requires r < 64 && rest < e
    ensures r * e + rest < 64 * e
  {
    assert (63 - r) * e >= 0;
  }

  /** Clearing the two highest bits of the first byte takes the mark off. */
  lemma WithoutMark(s: seq<byte>)
    requires s != [] && |s| == Width(s[0])
    ensures Number([s[0] % 64] + s[1..]) == Number(s) - Mark(|s|)
    ensures Number(s) - Mark(|s|) < 64 * Exp256(|s| - 1)
  {
    hide *;
    var t: seq<byte> := [s[0] % 64] + s[1..];
    NumberByFirstByte(s);
    NumberByFirstByte(t);
    assert t[1..] == s[1..];
    NumberThenSpell(s[1..]);
    MarkOfByte(s[0], |s|);
    BelowMark(s[0] % 64, Exp256(|s| - 1), Number(s[1..]));
  }

  lemma DecodedInRange(s: seq<byte>)
    ensures Decode(s).Some? ==> Decode(s).value.value < LIMIT && Len(Decode(s).value.value) <= Decode(s).value.n
  {
    hide Number, Exp256;
    if Decode(s).Some? {
      var n := Width(s[0]);
      WithoutMark(s[..n]);
      assert s[..n][1..] == s[1..n];
      PowersOf256();
    }
  }

  // ----- Round trips

  /** The first byte of an encoding announces its length. */
  lemma EncodedFirstByte(v: nat)
    requires v < LIMIT
    ensures Width(Encode(v)[0]) == Len(v)
    ensures Number(Encode(v)) == v + Mark(Len(v))
  {
    hide Number, Exp256, Spell;
    var s, n := Encode(v), Len(v);
    PowersOf256();
    SpellThenNumber(v + Mark(n), n);
    NumberByFirstByte(s);
    NumberThenSpell(s[1..]);
  }

  /** Decoding what was encoded gives the number back and leaves the rest alone. */
  lemma DecodeEncode(v: nat, rest: seq<byte>)
    requires v < LIMIT
    ensures Decode(Encode(v) + rest) == Some(Parsed(v, Len(v)))
  {
    hide Number, Encode, Width, Len, Mark;
    var s, n := Encode(v), Len(v);
    EncodedFirstByte(v);
    WithoutMark(s);
    assert (s + rest)[1..n] == s[1..];
  }

  /** The encoding is the shortest byte string that decodes to its number, and the only one
      of its length. */
  lemma EncodeIsShortest(s: seq<byte>)
    requires Decode(s).Some?
    ensures var d := Decode(s).value;
            && d.value < LIMIT && Len(d.value) <= d.n
            && (Len(d.value) == d.n ==> s[..d.n] == Encode(d.value))
  {
    hide Number, Spell;
    DecodedInRange(s);
    var t := s[..Width(s[0])];
    WithoutMark(t);
    assert t[1..] == s[1..|t|];
    NumberThenSpell(t);
  }

  /** More bytes do not change a complete varint. */
  lemma DecodeIsStable(a: seq<byte>, b: seq<byte>)
    requires Decode(a).Some?
    ensures Decode(a + b) == Decode(a)
  {
    hide Number;
    var n := Width(a[0]);
    assert (a + b)[1..n] == a[1..n];
  }
}
