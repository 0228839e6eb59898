/** Address ranges and the CIDR prefixes that cover them (connect-ip/iprange.go). */
module IPRange {
  import opened Pow2
  import opened Bytes

  // ----- Addresses and prefixes

  /** An IP address: its family, and its bits read as a number. */
  datatype Addr = Addr(is4: bool, value: nat) {
    function BitLen(): nat { if is4 then 32 else 128 }

    ghost predicate Valid() { value < Exp2(BitLen()) }

    /** The 16-byte form; an IPv4 address is embedded as ::ffff:a.b.c.d. */
    function As16(): (s: seq<byte>)
      ensures |s| == 16
    {
      if is4 then [0, 0, 0, 0, 0, 0, 0, 0, 0, 0, 0xff, 0xff] + Spell(value, 4) else Spell(value, 16)
    }
  }

  datatype Prefix = Prefix(addr: Addr, bits: nat) {
    ghost predicate Valid() { addr.Valid() && bits <= addr.BitLen() }

    /** Whether the first `bits` bits of an address agree with the prefix. */
    predicate Contains(ip: Addr)
      requires bits <= addr.BitLen()
    {
      && ip.is4 == addr.is4
      && ip.value / Exp2(addr.BitLen() - bits) == addr.value / Exp2(addr.BitLen() - bits)
    }
  }

  // ----- The byte masks

  /** Bitwise or. */
  function Or(a: nat, b: nat): (r: nat)
  {
    if a == 0 && b == 0 then 0 else 2 * Or(a / 2, b / 2) + if a % 2 == 1 || b % 2 == 1 then 1 else 0
  }

  /** Bitwise and. */
  function And(a: nat, b: nat): (r: nat)
  {
    if a == 0 || b == 0 then 0 else 2 * And(a / 2, b / 2) + if a % 2 == 1 && b % 2 == 1 then 1 else 0
  }

  lemma {:induction false} OrOfBits(a: nat, b: nat, n: nat)
    requires a < Exp2(n) && b < Exp2(n)
    ensures Or(a, b) < Exp2(n)
    decreases n
  {
    if n > 0 { OrOfBits(a / 2, b / 2, n - 1); }
  }

  lemma {:induction false} OrZero(a: nat)
    ensures Or(a, 0) == a
  {
    if a > 0 { OrZero(a / 2); }
  }

  lemma Exp2Eight()
    ensures Exp2(8) == 256
  {
    assert Exp2(4) == 16;
    Exp2Adds(4, 4);
  }

  function OrLowMask(b: byte, k: nat): (r: byte)
    requires k <= 8
  {
    Exp2Eight();
    Exp2Monotone(k, 8);
    OrOfBits(b, Exp2(k) - 1, 8);
    Or(b, Exp2(k) - 1)
  }

  function AndLowMask(b: byte, k: nat): (r: nat) {
    And(b, Exp2(k) - 1)
  }

  lemma OnesHalve(k: nat)
    requires k > 0
    ensures (Exp2(k) - 1) / 2 == Exp2(k - 1) - 1 && (Exp2(k) - 1) % 2 == 1 && Exp2(k) == 2 * Exp2(k - 1)
  {
    hide Exp2;
    Exp2Doubles(k);
    HalfOfOdd(Exp2(k - 1));
  }

  lemma Exp2Doubles(k: nat)
    requires k > 0
    ensures Exp2(k) == 2 * Exp2(k - 1)
  {
  }

  lemma HalfOfOdd(d: int)
    requires d > 0
    ensures (2 * d - 1) / 2 == d - 1 && (2 * d - 1) % 2 == 1
  {
  }

  /** Or with k ones fills the k lowest bits. */
  lemma {:induction false} OrFills(a: nat, k: nat)
    ensures Or(a, Exp2(k) - 1) == a - a % Exp2(k) + Exp2(k) - 1
  {
    hide Exp2, Or;
    if k == 0 {
      OrZero(a);
      NoOnes(a);
    } else {
      OrFills(a / 2, k - 1);
      OrStep(a, k, Exp2(k) - 1);
    }
  }

  lemma NoOnes(a: nat)
    ensures Exp2(0) == 1 && a % 1 == 0
  {
  }

  lemma OrStep(a: nat, k: nat, ones: nat)
    requires k > 0 && ones == Exp2(k) - 1
    ensures Or(a / 2, Exp2(k - 1) - 1) == a / 2 - a / 2 % Exp2(k - 1) + Exp2(k - 1) - 1 ==>
              Or(a, ones) == a - a % Exp2(k) + Exp2(k) - 1
  {
    hide Exp2;
    OnesHalve(k);
    ModByLastBit(a, k);
  }

  /** And with k ones keeps the k lowest bits. */
  lemma {:induction false} AndKeeps(a: nat, k: nat)
    ensures And(a, Exp2(k) - 1) == a % Exp2(k)
  {
    hide Exp2;
    if k == 0 || a == 0 {
      NothingToKeep(a, k);
    } else {
      AndKeeps(a / 2, k - 1);
      AndStep(a, k, Exp2(k) - 1);
    }
  }

  lemma NothingToKeep(a: nat, k: nat)
    requires k == 0 || a == 0
    ensures And(a, Exp2(k) - 1) == a % Exp2(k)
  {
    hide Exp2;
    assert Exp2(0) == 1 by { Exp2Zero(); }
    DivModUnique(a, Exp2(k), if a == 0 then 0 else a, 0);
  }

  lemma Exp2Zero()
    ensures Exp2(0) == 1
  {
  }

  lemma AndStep(a: nat, k: nat, ones: nat)
    requires k > 0 && ones == Exp2(k) - 1 && And(a / 2, Exp2(k - 1) - 1) == a / 2 % Exp2(k - 1)
    ensures And(a, ones) == a % Exp2(k)
  {
    hide Exp2;
    OnesHalve(k);
    ModByLastBit(a, k);
  }

  lemma ModByLastBit(a: nat, k: nat)
    requires k > 0
    ensures a % Exp2(k) == 2 * ((a / 2) % Exp2(k - 1)) + a % 2
  {
    var d := Exp2(k - 1);
    var q, r := a / 2 / d, a / 2 % d;
    assert a == 2 * (q * d + r) + a % 2;
    MulAssoc(q, 2, d);
    DivModUnique(a, 2 * d, q, 2 * r + a % 2);
  }

  // ----- Masking the host bits of a byte string, from the last byte up

  function SetLow(s: seq<byte>, h: nat): (r: seq<byte>)
    requires h <= 8 * |s|
    ensures |r| == |s|
  {
    if h == 0 then s
    else
      var k, n := if h < 8 then h else 8, |s| - 1;
      SetLow(s[..n], h - k) + [OrLowMask(s[n], k)]
  }

  predicate LowClear(s: seq<byte>, h: nat)
    requires h <= 8 * |s|
  {
    h == 0 ||
    var k, n := if h < 8 then h else 8, |s| - 1;
    AndLowMask(s[n], k) == 0 && LowClear(s[..n], h - k)
  }

  /** The address n with its h lowest bits set. */
  function LastOf(n: nat, h: nat): (r: nat)
  {
    n - n % Exp2(h) + Exp2(h) - 1
  }

  lemma Exp2Byte(h: nat)
    requires h >= 8
    ensures Exp2(h) == 256 * Exp2(h - 8)
  {
    hide Exp2;
    Exp2Eight();
    Exp2Adds(8, h - 8);
  }

  lemma LastOfByLastByte(m: nat, b: nat, h: nat)
    requires b < 256
    ensures h < 8 ==> LastOf(256 * m + b, h) == 256 * m + (b - b % Exp2(h) + Exp2(h) - 1)
    ensures h >= 8 ==> LastOf(256 * m + b, h) == 256 * LastOf(m, h - 8) + 255
  {
    hide Exp2;
    ModByLastByte(m, b, h);
    if h >= 8 { Exp2Byte(h); }
  }

  lemma NumberByLastByte(s: seq<byte>)
    requires s != []
    ensures Number(s) == 256 * Number(s[..|s| - 1]) + s[|s| - 1]
  {
  }

  lemma SetLowByLastByte(s: seq<byte>, h: nat)
    requires 0 < h <= 8 * |s|
    ensures var k, n := if h < 8 then h else 8, |s| - 1;
            SetLow(s, h) == SetLow(s[..n], h - k) + [OrLowMask(s[n], k)]
  {
  }

  lemma LowClearByLastByte(s: seq<byte>, h: nat)
    requires 0 < h <= 8 * |s|
    ensures var k, n := if h < 8 then h else 8, |s| - 1;
            LowClear(s, h) <==> AndLowMask(s[n], k) == 0 && LowClear(s[..n], h - k)
  {
  }

  lemma {:induction false} SetLowNumber(s: seq<byte>, h: nat)
    requires h <= 8 * |s|
    ensures Number(SetLow(s, h)) == LastOf(Number(s), h)
  {
    hide Number, SetLow, Exp2, Or, LastOf;
    if h == 0 {
      NoBits(s);
    } else {
      var k, n := if h < 8 then h else 8, |s| - 1;
      SetLowNumber(s[..n], h - k);
      SetLowByLastByte(s, h);
      NumberOfAppended(SetLow(s[..n], h - k), OrLowMask(s[n], k));
      NumberByLastByte(s);
      LastOfByLastByte(Number(s[..n]), s[n], h);
      OrFills(s[n], k);
      AllBits(s[n]);
      NoBits(s[..n]);
    }
  }

  lemma NoBits(s: seq<byte>)
    ensures SetLow(s, 0) == s && LastOf(Number(s), 0) == Number(s)
  {
  }

  lemma AllBits(b: byte)
    ensures b - b % Exp2(8) + Exp2(8) - 1 == 255
  {
    Exp2Eight();
  }

  lemma {:induction false} LowClearNumber(s: seq<byte>, h: nat)
    requires h <= 8 * |s|
    ensures LowClear(s, h) <==> Number(s) % Exp2(h) == 0
  {
    if h > 0 {
      var k, n := if h < 8 then h else 8, |s| - 1;
      LowClearNumber(s[..n], h - k);
      LowClearStep(s, h);
    }
  }

  lemma LowClearStep(s: seq<byte>, h: nat)
    requires 0 < h <= 8 * |s|
    requires var k, n := if h < 8 then h else 8, |s| - 1; LowClear(s[..n], h - k) <==> Number(s[..n]) % Exp2(h - k) == 0
    ensures LowClear(s, h) <==> Number(s) % Exp2(h) == 0
  {
    hide Number, LowClear, Exp2, And;
    var k, n := if h < 8 then h else 8, |s| - 1;
    LowClearByLastByte(s, h);
    NumberByLastByte(s);
    AndKeeps(s[n], k);
    ModByLastByte(Number(s[..n]), s[n], h);
    if h >= 8 { Exp2Eight(); }
    NothingClear(s[..n]);
  }

  lemma NothingClear(s: seq<byte>)
    ensures LowClear(s, 0)
  {
  }

  /** Bytes left of the masked ones take no part. */
  lemma {:induction false} MaskIgnoresPrefix(p: seq<byte>, s: seq<byte>, h: nat)
    requires h <= 8 * |s|
    ensures SetLow(p + s, h) == p + SetLow(s, h)
    ensures LowClear(p + s, h) == LowClear(s, h)
  {
    if h > 0 {
      var k, n := if h < 8 then h else 8, |s| - 1;
      MaskIgnoresPrefix(p, s[..n], h - k);
      assert (p + s)[..|p| + n] == p + s[..n];
    }
  }

  lemma As16Number(a: Addr)
    requires a.Valid()
    ensures a.is4 ==> Number(a.As16()[12..16]) == a.value
    ensures !a.is4 ==> Number(a.As16()) == a.value
  {
    Exp256IsExp2(4);
    Exp256IsExp2(16);
    if a.is4 {
      SpellThenNumber(a.value, 4);
      assert a.As16()[12..16] == Spell(a.value, 4);
    } else {
      SpellThenNumber(a.value, 16);
    }
  }

  lemma {:induction false} Exp256IsExp2(k: nat)
    ensures Exp256(k) == Exp2(8 * k)
  {
    if k > 0 {
      Exp256IsExp2(k - 1);
      Exp2Adds(8, 8 * (k - 1));
      Exp2Eight();
    }
  }

  lemma LastOfInFamily(a: Addr, h: nat)
    requires a.Valid() && h <= a.BitLen()
    ensures a.value <= LastOf(a.value, h) < Exp2(a.BitLen())
  {
    hide Exp2;
    var W, d := a.BitLen(), Exp2(h);
    Exp2Adds(W - h, h);
    var m := a.value - a.value % d;
    DivModUnique(m, d, a.value / d, 0);
    DivModUnique(Exp2(W), d, Exp2(W - h), 0);
    AlignedApart(m, Exp2(W), d);
  }

  lemma MaskedSuffix(p: seq<byte>, q: seq<byte>, h: nat)
    requires h <= 8 * |q|
    ensures Number(SetLow(p + q, h)[|p|..]) == LastOf(Number(q), h)
    ensures LowClear(p + q, h) <==> Number(q) % Exp2(h) == 0
  {
    MaskIgnoresPrefix(p, q, h);
    SetLowNumber(q, h);
    LowClearNumber(q, h);
    assert SetLow(p + q, h)[|p|..] == SetLow(q, h);
  }

  lemma MaskedAddress(a: Addr, h: nat)
    requires a.Valid() && h <= a.BitLen()
    ensures a.is4 ==> Number(SetLow(a.As16(), h)[12..16]) == LastOf(a.value, h)
    ensures !a.is4 ==> Number(SetLow(a.As16(), h)) == LastOf(a.value, h)
    ensures Addr(a.is4, LastOf(a.value, h)).Valid()
    ensures LowClear(a.As16(), h) <==> a.value % Exp2(h) == 0
  {
    hide SetLow, LowClear, Exp2, Number, LastOf, Spell, Addr.As16;
    LastOfInFamily(a, h);
    As16Number(a);
    if a.is4 {
      var s := a.As16();
      assert s == s[..12] + s[12..16];
      MaskedSuffix(s[..12], s[12..16], h);
      assert SetLow(s, h)[12..16] == SetLow(s, h)[12..];
    } else {
      SetLowNumber(a.As16(), h);
      LowClearNumber(a.As16(), h);
    }
  }

  method LastIPInPrefix(prefix: Prefix) returns (last: Addr)
    requires prefix.Valid()
    ensures last == Addr(prefix.addr.is4, LastOf(prefix.addr.value, prefix.addr.BitLen() - prefix.bits))
    ensures last.Valid()
  {
    hide SetLow, Exp2, Number, LastOf, Or, Spell, Addr.As16;
    var addr := prefix.addr;
    ghost var s, H := addr.As16(), addr.BitLen() - prefix.bits;
    var bits := new byte[16];
    forall j | 0 <= j < 16 { bits[j] := addr.As16()[j]; }
    assert bits[..] == s;
    var hostBits := addr.BitLen() - prefix.bits;
    var i := 15;
    assert s[..16] == s && SetLow(s, H) + bits[16..] == SetLow(s, H);
    while i >= 0 && hostBits > 0
      invariant -1 <= i <= 15 && 0 <= hostBits <= 8 * (i + 1)
      invariant bits[..i + 1] == s[..i + 1]
      invariant SetLow(s, H) == SetLow(s[..i + 1], hostBits) + bits[i + 1..]
    {
      var bitsInThisByte := if hostBits < 8 then hostBits else 8;
      assert s[..i + 1][..i] == s[..i];
      SetLowByLastByte(s[..i + 1], hostBits);
      bits[i] := OrLowMask(bits[i], bitsInThisByte);
      hostBits := hostBits - bitsInThisByte;
      assert bits[i..] == [OrLowMask(s[i], bitsInThisByte)] + bits[i + 1..];
      i := i - 1;
    }
    NoBits(s[..i + 1]);
    assert bits[..] == SetLow(s, H);
    MaskedAddress(addr, H);
    if addr.is4 {
      last := Addr(true, Number(bits[12..16]));
    } else {
      last := Addr(false, Number(bits[..]));
    }
  }

  method IsAligned(addr: Addr, prefixLen: nat) returns (aligned: bool)
    requires addr.Valid() && prefixLen <= addr.BitLen()
    ensures aligned <==> addr.value % Exp2(addr.BitLen() - prefixLen) == 0
  {
    hide LowClear, Exp2, And, Spell, Addr.As16;
    var bits := addr.As16();
    var hostBits := addr.BitLen() - prefixLen;
    ghost var H := hostBits;
    MaskedAddress(addr, H);
    var i := 15;
    assert bits[..16] == bits;
    while i >= 0 && hostBits > 0
      invariant -1 <= i <= 15 && 0 <= hostBits <= 8 * (i + 1)
      invariant LowClear(bits, H) == LowClear(bits[..i + 1], hostBits)
    {
      var bitsInThisByte := if hostBits < 8 then hostBits else 8;
      assert bits[..i + 1][..i] == bits[..i];
      LowClearByLastByte(bits[..i + 1], hostBits);
      if AndLowMask(bits[i], bitsInThisByte) != 0 {
        return false;
      }
      hostBits := hostBits - bitsInThisByte;
      i := i - 1;
    }
    NothingClear(bits[..i + 1]);
    return true;
  }

  // ----- Blocks: what a prefix means

  /** The 2^h addresses from `start` on. */
  datatype Block = Block(start: nat, h: nat) {
    function End(): nat { start + Exp2(h) }
    predicate Has(x: nat) { start <= x < End() }

    /** A CIDR block of a W-bit family. */
    ghost predicate Cidr(W: nat) { h <= W && start % Exp2(h) == 0 && End() <= Exp2(W) }
  }

  predicate Fits(c: nat, b: nat, h: nat) {
    c % Exp2(h) == 0 && c + Exp2(h) - 1 <= b
  }

  /** The search of findLargestPrefix, one host bit at a time. */
  function Grow(c: nat, b: nat, h: nat, W: nat): (r: nat)
    requires h <= W && Fits(c, b, h)
    ensures h <= r <= W && Fits(c, b, r)
    decreases W - h
  {
    if h < W && Fits(c, b, h + 1) then Grow(c, b, h + 1, W) else h
  }

  /** Stopping at the first size that fails loses nothing: no larger block fits either. */
  lemma {:induction false} GrowIsLargest(c: nat, b: nat, h: nat, W: nat, k: nat)
    requires h <= W && Fits(c, b, h)
    requires k <= W && Fits(c, b, k)
    ensures k <= Grow(c, b, h, W)
    decreases W - h
  {
    if h < W && Fits(c, b, h + 1) {
      GrowIsLargest(c, b, h + 1, W, k);
    } else if h < k {
      AlignedDown(c, h + 1, k);
      Exp2Monotone(h + 1, k);
    }
  }

  function Largest(c: nat, b: nat, W: nat): (r: nat)
    requires c <= b
    ensures r <= W && Fits(c, b, r)
  {
    Grow(c, b, 0, W)
  }

  lemma LargestFits(c: nat, b: nat, W: nat)
    requires c <= b
    ensures var h := Largest(c, b, W); c % Exp2(h) == 0 && c + Exp2(h) - 1 <= b
  {
  }

  /** The blocks the greedy loop takes from c on. */
  function Greedy(c: nat, b: nat, W: nat): (g: seq<Block>)
    decreases b + 1 - c
  {
    if c > b then [] else
      var h := Largest(c, b, W);
      [Block(c, h)] + Greedy(c + Exp2(h), b, W)
  }

  function AsPrefix(is4: bool, block: Block): (p: Prefix)
    requires block.h <= if is4 then 32 else 128
    ensures p.bits <= p.addr.BitLen()
  {
    var addr := Addr(is4, block.start);
    Prefix(addr, addr.BitLen() - block.h)
  }

  method FindLargestPrefix(start: Addr, end: Addr) returns (p: Prefix)
    requires start.Valid() && end.Valid() && start.is4 == end.is4 && start.value <= end.value
    ensures p.Valid()
    ensures p == AsPrefix(start.is4, Block(start.value, Largest(start.value, end.value, start.BitLen())))
  {
    ghost var W, c, b := start.BitLen(), start.value, end.value;
    if start == end {
      Exp2Monotone(0, Largest(c, b, W));
      return Prefix(start, start.BitLen());
    }
    var prefixLen := start.BitLen();
    while prefixLen > 0
      invariant 0 <= prefixLen <= W
      invariant Fits(c, b, W - prefixLen) && Largest(c, b, W) == Grow(c, b, W - prefixLen, W)
    {
      var larger := LastIPInPrefix(Prefix(start, prefixLen - 1));
      var aligned := IsAligned(start, prefixLen - 1);
      if larger.value > end.value || !aligned {
        break;
      }
      prefixLen := prefixLen - 1;
    }
    p := Prefix(start, prefixLen);
  }

  function AsPrefixes(is4: bool, g: seq<Block>): (ps: seq<Prefix>)
    requires forall i :: 0 <= i < |g| ==> g[i].h <= if is4 then 32 else 128
    ensures |ps| == |g|
  {
    seq(|g|, i requires 0 <= i < |g| => AsPrefix(is4, g[i]))
  }

  lemma {:induction false} GreedyWithinFamily(c: nat, b: nat, W: nat, i: nat)
    requires i < |Greedy(c, b, W)|
    ensures Greedy(c, b, W)[i].h <= W
    decreases i
  {
    if i > 0 { GreedyWithinFamily(c + Exp2(Largest(c, b, W)), b, W, i - 1); }
  }

  method RangeToPrefixes(start: Addr, end: Addr) returns (prefixes: seq<Prefix>)
    requires start.Valid() && end.Valid() && start.is4 == end.is4
    ensures forall i :: 0 <= i < |Greedy(start.value, end.value, start.BitLen())| ==>
                        Greedy(start.value, end.value, start.BitLen())[i].h <= start.BitLen()
    ensures prefixes == AsPrefixes(start.is4, Greedy(start.value, end.value, start.BitLen()))
  {
    hide Exp2, Largest, Fits;
    ghost var W, b := start.BitLen(), end.value;
    ghost var g := Greedy(start.value, b, W);
    forall i | 0 <= i < |g| ensures g[i].h <= W { GreedyWithinFamily(start.value, b, W, i); }
    prefixes := [];
    var current := start;
    while current.value <= end.value
      invariant current.is4 == start.is4 && current.Valid()
      invariant |prefixes| <= |g| && prefixes == AsPrefixes(start.is4, g)[..|prefixes|]
      invariant g[|prefixes|..] == Greedy(current.value, b, W)
      decreases b + 1 - current.value
    {
      ghost var n, h := |prefixes|, Largest(current.value, b, W);
      assert g[n..][0] == Block(current.value, h) && g[n..][1..] == g[n + 1..];
      assert current.value % Exp2(h) == 0 && current.value + Exp2(h) - 1 <= b by { LargestFits(current.value, b, W); }
      var prefix := FindLargestPrefix(current, end);
      prefixes := prefixes + [prefix];
      var lastIP := LastIPInPrefix(prefix);
      if lastIP.value >= end.value {
        assert g[n + 1..] == [];
        break;
      }
      current := Addr(lastIP.is4, lastIP.value + 1);
    }
  }
}
