/** Bytes, and the big-endian numbers they spell. */
module Bytes {

  type byte = x: int | 0 <= x < 256

  /** The number a byte string spells, most significant byte first. */
  function Number(s: seq<byte>): (n: nat)
  {
    if s == [] then 0 else 256 * Number(s[..|s| - 1]) + s[|s| - 1]
  }

  lemma NumberOfAppended(s: seq<byte>, b: byte)
    ensures Number(s + [b]) == 256 * Number(s) + b
  {
    assert (s + [b])[..|s|] == s;
  }

  /** The k lowest bytes of n, most significant first. */
  function Spell(n: nat, k: nat): (s: seq<byte>)
    ensures |s| == k
  {
    if k == 0 then [] else Spell(n / 256, k - 1) + [n % 256]
  }

  function Exp256(k: nat): nat {
    if k == 0 then 1 else 256 * Exp256(k - 1)
  }

  lemma {:induction false} SpellThenNumber(n: nat, k: nat)
    requires n < Exp256(k)
    ensures Number(Spell(n, k)) == n
  {
    if k > 0 {
      SpellThenNumber(n / 256, k - 1);
      assert Spell(n, k)[..k - 1] == Spell(n / 256, k - 1);
    }
  }

  lemma {:induction false} NumberThenSpell(s: seq<byte>)
    ensures Number(s) < Exp256(|s|)
    ensures Spell(Number(s), |s|) == s
  {
    if s != [] {
      NumberThenSpell(s[..|s| - 1]);
      assert s == s[..|s| - 1] + [s[|s| - 1]];
    }
  }
}
