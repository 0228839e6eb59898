/** One's-complement checksums: sums of 16-bit words, folding, and the incremental
    update of section 3 of RFC 1624 (internal/dns_hijack.go, internal/mss_clamp.go). */
module Checksum {
  import opened Bytes

  type word = x: int | 0 <= x < 0x1_0000

  /** The bitwise complement of a 16-bit word. */
  function Not(w: word): word { 0xffff - w }

  function Word(s: seq<byte>, i: nat): word
    requires i + 1 < |s|
  {
    256 * (s[i] as int) + s[i + 1]
  }

  /** The sum of the big-endian words of a byte string, an odd last byte padded with zero. */
  function WordSum(s: seq<byte>): (sum: nat)
  {
    if |s| == 0 then 0
    else if |s| == 1 then 256 * (s[0] as int)
    else Word(s, 0) + WordSum(s[2..])
  }

  function Sum(ws: seq<word>): (sum: nat) {
    if ws == [] then 0 else Sum(ws[..|ws| - 1]) + ws[|ws| - 1]
  }

  function SumOfNots(ws: seq<word>): (sum: nat) {
    if ws == [] then 0 else SumOfNots(ws[..|ws| - 1]) + Not(ws[|ws| - 1])
  }

  // ----- Folding

  /** Adding the carries back in until 16 bits remain: the residue modulo 0xffff,
      in the range 1..0xffff unless the sum is zero. */
  function Fold(sum: nat): (r: word)
    ensures r % 0xffff == sum % 0xffff
    ensures r == 0 <==> sum == 0
  {
    if sum < 0x1_0000 then sum else Fold(sum % 0x1_0000 + sum / 0x1_0000)
  }

  /** Congruence modulo 0xffff, the equality of one's-complement arithmetic. */
  predicate Cong(a: int, b: int) { (a - b) % 0xffff == 0 }

  lemma FoldQuotient(s: nat) returns (q: int)
    ensures s == Fold(s) + 0xffff * q
  {
    q := s / 0xffff - Fold(s) / 0xffff;
  }

  lemma CongQuotient(a: int, b: int) returns (q: int)
    requires Cong(a, b)
    ensures a == b + 0xffff * q
  {
    q := (a - b) / 0xffff;
  }

  lemma CongFromQuotient(a: int, b: int, q: int)
    requires a == b + 0xffff * q
    ensures Cong(a, b)
  {
    MultipleIsCong(q);
  }

  lemma MultipleIsCong(k: int)
    ensures Cong(0xffff * k, 0)
  {
  }

  lemma CongShift(a: int, b: int, q: int)
    requires a + 0xffff * q == b
    ensures Cong(a, 0) <==> Cong(b, 0)
  {
    if Cong(a, 0) {
      var k := CongQuotient(a, 0);
      MultipleIsCong(k + q);
    }
    if Cong(b, 0) {
      var k := CongQuotient(b, 0);
      MultipleIsCong(k - q);
    }
  }

  method FoldCarry(sum: nat) returns (r: word)
    ensures r == Fold(sum)
  {
    var s := sum;
    while s / 0x1_0000 != 0
      invariant Fold(s) == Fold(sum)
      decreases s
    {
      s := s % 0x1_0000 + s / 0x1_0000;
    }
    r := s;
  }

  // ----- The incremental update

  function Adjust(cs: word, old_: seq<word>, new_: seq<word>): word {
    Not(Fold(Not(cs) + SumOfNots(old_) + Sum(new_)))
  }

  method AdjustChecksum(cs: word, oldWords: seq<word>, newWords: seq<word>) returns (r: word)
    ensures r == Adjust(cs, oldWords, newWords)
  {
    var sum: nat := Not(cs);
    for i := 0 to |oldWords|
      invariant sum == Not(cs) + SumOfNots(oldWords[..i])
    {
      assert oldWords[..i + 1][..i] == oldWords[..i];
      sum := sum + Not(oldWords[i]);
    }
    assert oldWords[..|oldWords|] == oldWords;
    for i := 0 to |newWords|
      invariant sum == Not(cs) + SumOfNots(oldWords) + Sum(newWords[..i])
    {
      assert newWords[..i + 1][..i] == newWords[..i];
      sum := sum + newWords[i];
    }
    assert newWords[..|newWords|] == newWords;
    var folded := FoldCarry(sum);
    r := Not(folded);
  }

  lemma {:induction false} SumOfNotsIsNegative(ws: seq<word>)
    ensures SumOfNots(ws) + Sum(ws) == 0xffff * |ws|
  {
    if ws != [] { SumOfNotsIsNegative(ws[..|ws| - 1]); }
  }

  /** The update keeps the distance to the right checksum: the new value is right for the
      changed words exactly if the old one was for the old words. */
  lemma AdjustTracks(cs: word, old_: seq<word>, new_: seq<word>, rest: int)
    ensures Cong(cs + rest + Sum(old_), 0) <==> Cong(Adjust(cs, old_, new_) + rest + Sum(new_), 0)
  {
    SumOfNotsIsNegative(old_);
    var q := FoldQuotient(Not(cs) + SumOfNots(old_) + Sum(new_));
    var a, b := cs + rest + Sum(old_), Adjust(cs, old_, new_) + rest + Sum(new_);
    CongShift(a, b, q - |old_|);
  }

  /** onesComplementSub: the same update for one word, written on the checksum itself. */
  function Sub(hc: word, old_: word, new_: word): word {
    Fold(hc + (0xffff - new_) + old_)
  }

  method OnesComplementSub(hc: word, oldWord: word, newWord: word) returns (r: word)
    ensures r == Sub(hc, oldWord, newWord)
  {
    var s: nat := hc + (0xffff - newWord) + oldWord;
    r := FoldCarry(s);
  }

  /** Both forms of the update of one word give congruent checksums. */
  lemma SubAgreesWithAdjust(cs: word, old_: word, new_: word)
    ensures Cong(Sub(cs, old_, new_), Adjust(cs, [old_], [new_]))
  {
    assert Sum([new_]) == Sum([]) + new_ && SumOfNots([old_]) == SumOfNots([]) + Not(old_);
    var p := FoldQuotient(Not(cs) + Not(old_) + new_);
    var q := FoldQuotient(cs + (0xffff - new_) + old_);
    CongFromQuotient(Sub(cs, old_, new_), Adjust(cs, [old_], [new_]), 2 - p - q);
  }

  // ----- Full computation

  /** ipChecksum of a header. */
  function FullChecksum(sum: nat): word { Not(Fold(sum)) }

  method IpChecksum(hdr: seq<byte>) returns (r: word)
    ensures r == FullChecksum(WordSum(hdr))
  {
    var sum: nat, i := 0, 0;
    assert hdr[0..] == hdr;
    while i + 1 < |hdr|
      invariant 0 <= i <= |hdr| && i % 2 == 0
      invariant WordSum(hdr) == sum + WordSum(hdr[i..])
    {
      sum := sum + Word(hdr, i);
      assert hdr[i..][2..] == hdr[i + 2..];
      i := i + 2;
    }
    if |hdr| % 2 != 0 {
      sum := sum + 256 * (hdr[|hdr| - 1] as int);
    }
    assert WordSum(hdr) == sum;
    var folded := FoldCarry(sum);
    r := Not(folded);
  }

  lemma WordSumStep(s: seq<byte>, i: nat)
    requires i + 2 <= |s|
    ensures WordSum(s[i..]) == Word(s, i) + WordSum(s[i + 2..])
  {
    assert s[i..][2..] == s[i + 2..];
  }

  /** What is left behind the last whole word: nothing, or one byte padded with zero. */
  lemma WordSumEnd(s: seq<byte>, i: nat)
    requires i <= |s| <= i + 1
    ensures WordSum(s[i..]) == if i == |s| then 0 else 256 * (s[i] as int)
  {
  }

  // ----- Word sums of edited byte strings

  function Put(s: seq<byte>, off: nat, b: seq<byte>): (r: seq<byte>)
    requires off + |b| <= |s|
    ensures |r| == |s|
  {
    s[..off] + b + s[off + |b|..]
  }

  function Bytes2(w: word): (b: seq<byte>)
    ensures |b| == 2 && Word(b, 0) == w
  {
    [w / 256, w % 256]
  }

  function PutWord(s: seq<byte>, off: nat, w: word): (r: seq<byte>)
    requires off + 2 <= |s|
    ensures |r| == |s|
  {
    Put(s, off, Bytes2(w))
  }

  method StoreWord(pkt: array<byte>, off: nat, w: word)
    requires off + 2 <= pkt.Length
    modifies pkt
    ensures pkt[..] == PutWord(old(pkt[..]), off, w)
  {
    pkt[off] := w / 256;
    pkt[off + 1] := w % 256;
  }

  /** The words of a byte string of even length. */
  function Words(s: seq<byte>): (ws: seq<word>)
    requires |s| % 2 == 0
    ensures |ws| == |s| / 2
  {
    if s == [] then [] else Words(s[..|s| - 2]) + [Word(s, |s| - 2)]
  }

  lemma {:induction false} WordSumConcat(a: seq<byte>, b: seq<byte>)
    requires |a| % 2 == 0
    ensures WordSum(a + b) == WordSum(a) + WordSum(b)
  {
    if a == [] {
      assert a + b == b;
    } else {
      assert (a + b)[2..] == a[2..] + b;
      WordSumConcat(a[2..], b);
    }
  }

  lemma {:induction false} WordSumIsSumOfWords(s: seq<byte>)
    requires |s| % 2 == 0
    ensures WordSum(s) == Sum(Words(s))
  {
    if s != [] {
      var n := |s| - 2;
      assert s == s[..n] + s[n..];
      WordSumConcat(s[..n], s[n..]);
      WordSumIsSumOfWords(s[..n]);
    }
  }

  /** Overwriting whole aligned words moves the word sum by the difference. */
  lemma WordSumPut(s: seq<byte>, off: nat, b: seq<byte>)
    requires off % 2 == 0 && |b| % 2 == 0 && off + |b| <= |s|
    ensures WordSum(Put(s, off, b)) == WordSum(s) - WordSum(s[off..off + |b|]) + WordSum(b)
  {
    hide WordSum;
    var x, m, y := s[..off], s[off..off + |b|], s[off + |b|..];
    assert s == x + (m + y) && Put(s, off, b) == x + (b + y);
    WordSumConcat(x, m + y);
    WordSumConcat(m, y);
    WordSumConcat(x, b + y);
    WordSumConcat(b, y);
  }

  lemma WordSumPutWord(s: seq<byte>, off: nat, w: word)
    requires off % 2 == 0 && off + 2 <= |s|
    ensures WordSum(PutWord(s, off, w)) == WordSum(s) - Word(s, off) + w
  {
    WordSumPut(s, off, Bytes2(w));
    assert WordSum(Bytes2(w)) == w;
    assert WordSum(s[off..off + 2]) == Word(s, off);
  }

  /** Fields that do not overlap do not see each other's updates. */
  lemma PutElsewhere(s: seq<byte>, off: nat, b: seq<byte>, i: nat, j: nat)
    requires off + |b| <= |s| && i <= j <= |s| && (j <= off || off + |b| <= i)
    ensures Put(s, off, b)[i..j] == s[i..j]
  {
  }

  lemma PutBefore(s: seq<byte>, off: nat, b: seq<byte>, i: nat)
    requires off + |b| <= i <= |s|
    ensures Put(s, off, b)[i..] == s[i..]
  {
  }

  lemma PutBytes(s: seq<byte>, off: nat, b: seq<byte>, i: nat)
    requires off + |b| <= |s| && i < |s|
    ensures Put(s, off, b)[i] == if off <= i < off + |b| then b[i - off] else s[i]
  {
  }

  /** A slice around an update is the slice, updated. */
  lemma PutInSlice(s: seq<byte>, off: nat, b: seq<byte>, i: nat, j: nat)
    requires i <= off && off + |b| <= j <= |s|
    ensures Put(s, off, b)[i..j] == Put(s[i..j], off - i, b)
  {
  }

  lemma SliceOfSlice(s: seq<byte>, i: nat, j: nat, k: nat, l: nat)
    requires i <= k <= l <= j <= |s|
    ensures s[i..j][k - i..l - i] == s[k..l]
  {
    assert s[..j][i..][..l - i] == s[i..l];
    assert s[i..j][..l - i] == s[i..l];
  }

  lemma WordSumReplaced(t: seq<byte>, at: nat, b: seq<byte>, m: seq<byte>, r: seq<byte>)
    requires at % 2 == 0 && |b| % 2 == 0 && at + |b| <= |t| && m == t[at..at + |b|] && r == Put(t, at, b)
    ensures WordSum(r) == WordSum(t) - Sum(Words(m)) + Sum(Words(b))
  {
    hide *;
    WordSumPut(t, at, b);
    WordSumIsSumOfWords(m);
    WordSumIsSumOfWords(b);
  }

  /** Overwriting words inside a slice moves the word sum of the slice by the difference. */
  lemma WordSumPutInSlice(s: seq<byte>, off: nat, b: seq<byte>, i: nat, j: nat)
    requires i <= off && off + |b| <= j <= |s| && (off - i) % 2 == 0 && |b| % 2 == 0
    ensures WordSum(Put(s, off, b)[i..j]) == WordSum(s[i..j]) - Sum(Words(s[off..off + |b|])) + Sum(Words(b))
  {
    hide *;
    PutInSlice(s, off, b, i, j);
    SliceAt(s, i, j, off, |b|);
    WordSumReplaced(s[i..j], off - i, b, s[off..off + |b|], Put(s, off, b)[i..j]);
  }

  lemma SliceAt(s: seq<byte>, i: nat, j: nat, k: nat, n: nat)
    requires i <= k && k + n <= j <= |s|
    ensures s[k..k + n] == s[i..j][k - i..k - i + n]
  {
    SliceOfSlice(s, i, j, k, k + n);
  }

  lemma WordElsewhere(s: seq<byte>, off: nat, b: seq<byte>, i: nat)
    requires off + |b| <= |s| && i + 2 <= |s| && (i + 2 <= off || off + |b| <= i)
    ensures Word(Put(s, off, b), i) == Word(s, i)
  {
    PutBytes(s, off, b, i);
    PutBytes(s, off, b, i + 1);
  }

  lemma WordPut(s: seq<byte>, off: nat, w: word)
    requires off + 2 <= |s|
    ensures Word(PutWord(s, off, w), off) == w
  {
    PutBytes(s, off, Bytes2(w), off);
    PutBytes(s, off, Bytes2(w), off + 1);
  }

  lemma WordSumPutWordInSlice(s: seq<byte>, off: nat, w: word, i: nat, j: nat)
    requires i <= off && off + 2 <= j <= |s| && (off - i) % 2 == 0
    ensures WordSum(PutWord(s, off, w)[i..j]) == WordSum(s[i..j]) - Word(s, off) + w
  {
    hide WordSum, Put;
    PutInSlice(s, off, Bytes2(w), i, j);
    WordSumPutWord(s[i..j], off - i, w);
  }

  // ----- Word sums, byte by byte

  /** The sum of bytes, those at even places times 256. */
  function Weighted(s: seq<byte>): (sum: nat) {
    if s == [] then 0 else Weighted(s[..|s| - 1]) + (s[|s| - 1] as int) * if |s| % 2 == 1 then 256 else 1
  }

  lemma {:induction false} WordSumIsWeighted(s: seq<byte>)
    ensures WordSum(s) == Weighted(s)
    decreases |s|
  {
    var n := |s| - 1;
    if n >= 0 {
      WordSumIsWeighted(s[..n]);
      WordSumOneMore(s);
    }
  }

  lemma {:induction false} WordSumOneMore(s: seq<byte>)
    requires s != []
    ensures WordSum(s) == WordSum(s[..|s| - 1]) + (s[|s| - 1] as int) * if |s| % 2 == 1 then 256 else 1
    decreases |s|
  {
    var n := |s| - 1;
    if n >= 2 {
      WordSumOneMore(s[2..]);
      assert s[2..][..n - 2] == s[..n][2..];
    } else if n == 1 {
      assert s[2..] == [];
    }
  }
}
