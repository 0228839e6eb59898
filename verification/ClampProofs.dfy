/** What MSS clamping keeps: every other byte, the place of the option, and the checksum. */
module ClampProofs {
  import opened Wrappers
  import opened Bytes
  import opened Checksum
  import opened Packet
  import opened MssClamp

  lemma ClampKeepsRest(p: seq<byte>, maxMSS: int)
    ensures var q := Clamped(p, maxMSS);
            MssAt(p).None? ==> q == p
    ensures var q, at := Clamped(p, maxMSS), MssAt(p);
            at.Some? ==>
              var t, v := SynAt(p), Word(p, at.value);
              && Word(q, at.value) == (if v <= Uint16(maxMSS) then v else Uint16(maxMSS))
              && forall i :: 0 <= i < |p| && !(at.value <= i < at.value + 2) && !(t + 16 <= i < t + 18) ==> q[i] == p[i]
  {
    hide Put, MssAt, SynAt, Sub;
    var at := MssAt(p);
    if at.Some? && Word(p, at.value) > Uint16(maxMSS) {
      var t := SynAt(p);
      var q1 := PutWord(p, at.value, Uint16(maxMSS));
      var b := Bytes2(Sub(Word(p, t + 16), Word(p, at.value), Uint16(maxMSS)));
      WordPut(p, at.value, Uint16(maxMSS));
      WordElsewhere(q1, t + 16, b, at.value);
      forall i | 0 <= i < |p| && !(at.value <= i < at.value + 2) && !(t + 16 <= i < t + 18)
        ensures Clamped(p, maxMSS)[i] == p[i]
      {
        PutBytes(p, at.value, Bytes2(Uint16(maxMSS)), i);
        PutBytes(q1, t + 16, b, i);
      }
    }
  }

  lemma {:induction false} WalkUnchanged(a: seq<byte>, b: seq<byte>, i: nat)
    requires |a| == |b| && Walk(a, i).Some?
    requires forall j :: i <= j < Walk(a, i).value ==> a[j] == b[j]
    ensures Walk(b, i) == Walk(a, i)
    decreases |a| - i
  {
    assert a[i] == b[i];
    if a[i] == 1 {
      WalkUnchanged(a, b, i + 1);
    } else if a[i] > 2 {
      assert a[i + 1] == b[i + 1];
      WalkUnchanged(a, b, i + a[i + 1]);
    }
  }

  /** A clamped packet is the same SYN segment with the MSS option at the same place. */
  lemma ClampKeepsPlace(p: seq<byte>, maxMSS: int)
    ensures SynAt(Clamped(p, maxMSS)) == SynAt(p)
    ensures MssAt(Clamped(p, maxMSS)) == MssAt(p)
  {
    hide Clamped, Walk;
    ClampKeepsRest(p, maxMSS);
    var q, at := Clamped(p, maxMSS), MssAt(p);
    if at.Some? {
      var t := SynAt(p);
      var n := DataOffset(p, t);
      assert q[0] == p[0] && q[6] == p[6] && q[9] == p[9] && q[t + 12] == p[t + 12] && q[t + 13] == p[t + 13];
      WalkUnchanged(p[t + 20..t + n], q[t + 20..t + n], 0);
    }
  }

  /** The advertised MSS ends up at most the limit, and clamping again changes nothing. */
  lemma ClampIsIdempotent(p: seq<byte>, maxMSS: int)
    ensures var q := Clamped(p, maxMSS);
            && (MssAt(q).Some? ==> Word(q, MssAt(q).value) <= Uint16(maxMSS))
            && Clamped(q, maxMSS) == q
  {
    ClampKeepsPlace(p, maxMSS);
    ClampKeepsRest(p, maxMSS);
  }

  // ----- The TCP checksum

  /** How much overwriting one word of a slice moves its sum: at an odd offset the two
      bytes count with their places swapped. */
  function Weight(w: word, odd: bool): nat {
    if odd then 256 * (w % 256) + w / 256 else w
  }

  lemma WordSumPutAnywhere(s: seq<byte>, off: nat, w: word)
    requires off + 2 <= |s| && (off % 2 == 1 ==> off + 3 <= |s|)
    ensures WordSum(PutWord(s, off, w)) == WordSum(s) - Weight(Word(s, off), off % 2 == 1) + Weight(w, off % 2 == 1)
  {
    if off % 2 == 0 {
      WordSumPutWord(s, off, w);
    } else {
      WordSumPutOdd(s, off, w);
    }
  }

  lemma WordSumPutOdd(s: seq<byte>, off: nat, w: word)
    requires off % 2 == 1 && off + 3 <= |s|
    ensures WordSum(PutWord(s, off, w)) == WordSum(s) - Weight(Word(s, off), true) + Weight(w, true)
  {
    hide WordSum, Put;
    var x, y, z, v := s[off - 1], w / 256, w % 256, s[off + 2];
    var b: seq<byte> := [x, y, z, v];
    PutWidened(s, off, w);
    assert (off - 1) % 2 == 0;
    WordSumPut(s, off - 1, b);
    var a := s[off - 1..off - 1 + |b|];
    FourBytes(a);
    FourBytes(b);
    OddWeight4(a, Word(s, off));
    OddWeight4(b, w);
  }

  /** The word in the middle of four bytes counts with its bytes swapped. */
  lemma OddWeight4(b: seq<byte>, w: word)
    requires |b| == 4 && w == 256 * (b[1] as int) + b[2]
    ensures Word(b, 0) + Word(b, 2) == 256 * (b[0] as int) + b[3] + Weight(w, true)
  {
  }

  /** Writing two bytes is writing four of which the outer two stay. */
  lemma PutWidened(s: seq<byte>, off: nat, w: word)
    requires 1 <= off && off + 3 <= |s|
    ensures PutWord(s, off, w) == Put(s, off - 1, [s[off - 1], w / 256, w % 256, s[off + 2]])
  {
    hide Put;
    var b := [s[off - 1], w / 256, w % 256, s[off + 2]];
    forall i | 0 <= i < |s| ensures PutWord(s, off, w)[i] == Put(s, off - 1, b)[i] {
      PutBytes(s, off, Bytes2(w), i);
      PutBytes(s, off - 1, b, i);
    }
  }

  lemma FourBytes(b: seq<byte>)
    requires |b| == 4
    ensures WordSum(b) == Word(b, 0) + Word(b, 2)
  {
    assert b[2..][2..] == [];
    assert WordSum(b) == Word(b, 0) + WordSum(b[2..]);
    assert WordSum(b[2..]) == Word(b[2..], 0) + WordSum(b[2..][2..]);
  }

  /** The transport sum with a word at any offset behind the transport header's start replaced. */
  lemma TransportSumPutAnywhere(p: seq<byte>, proto: byte, off: nat, at: nat, w: word)
    requires p != [] && FixedHeader(p) <= off <= at && at + 2 <= |p| && ((at - off) % 2 == 1 ==> at + 3 <= |p|)
    ensures Version(PutWord(p, at, w)) == Version(p)
    ensures var odd := (at - off) % 2 == 1;
            TransportSum(PutWord(p, at, w), proto, off)
            == TransportSum(p, proto, off) - Weight(Word(p, at), odd) + Weight(w, odd)
  {
    hide WordSum, Put;
    PutBytes(p, at, Bytes2(w), 0);
    if Version(p) == 4 {
      PutElsewhere(p, at, Bytes2(w), 12, 20);
    } else {
      PutElsewhere(p, at, Bytes2(w), 8, 40);
    }
    PutInSlice(p, at, Bytes2(w), off, |p|);
    assert PutWord(p, at, w)[off..] == PutWord(p, at, w)[off..|p|] && p[off..] == p[off..|p|];
    WordSumPutAnywhere(p[off..], at - off, w);
  }

  /** What a clamp that happens adds to the transport sum. */
  lemma ClampedTransportSum(p: seq<byte>, maxMSS: int)
    requires MssAt(p).Some? && Word(p, MssAt(p).value) > Uint16(maxMSS)
    ensures var t, at, m := SynAt(p), MssAt(p).value, Uint16(maxMSS);
            var odd := (at - t) % 2 == 1;
            var c := Sub(Word(p, t + 16), Word(p, at), m);
            var q := Clamped(p, maxMSS);
            && Version(q) == Version(p)
            && TransportSum(q, 6, t)
            == TransportSum(p, 6, t) - Weight(Word(p, at), odd) + Weight(m, odd) - Word(p, t + 16) + c
  {
    hide Put, Sub, MssAt, SynAt, TransportSum, Weight;
    var t, at, m := SynAt(p), MssAt(p).value, Uint16(maxMSS);
    assert (at - t) % 2 == 1 ==> at + 3 <= t + DataOffset(p, t);
    TransportSumPutAnywhere(p, 6, t, at, m);
    var q1 := PutWord(p, at, m);
    WordElsewhere(p, at, Bytes2(m), t + 16);
    TransportSumPut(q1, 6, t, t + 16, Sub(Word(p, t + 16), Word(p, at), m));
  }

  lemma SubChange(c: word, v: word, m: word) returns (k: int)
    ensures Sub(c, v, m) - c == v - m + 0xffff * k
  {
    var q := FoldQuotient(c + (0xffff - m) + v);
    k := 1 - q;
  }

  /** 255 d is a multiple of 65535 = 255 * 257 exactly if d is one of 257. */
  lemma Times255(d: int)
    ensures Cong(255 * d, 0) <==> d % 257 == 0
  {
    if Cong(255 * d, 0) {
      var k := CongQuotient(255 * d, 0);
      assert d == 257 * k;
    }
    if d % 257 == 0 {
      MultipleIsCong(d / 257);
    }
  }

  /** A clamp keeps the TCP checksum valid exactly if it changes nothing, or the MSS value
      is word-aligned in the segment, or old and new value differ by a multiple of 257. */
  lemma ClampKeepsChecksum(p: seq<byte>, maxMSS: int)
    requires SynAt(p) >= 0 && TransportVerifies(p, 6, SynAt(p))
    ensures var t, at, q := SynAt(p), MssAt(p), Clamped(p, maxMSS);
            && Version(q) == Version(p) && FixedHeader(q) <= t
            && (TransportVerifies(q, 6, t) <==>
                  at.None? || Word(p, at.value) <= Uint16(maxMSS) || (at.value - t) % 2 == 0
                  || (Word(p, at.value) - Uint16(maxMSS)) % 257 == 0)
  {
    hide MssAt, SynAt, Sub, Weight, TransportSum, Put;
    var at := MssAt(p);
    if at.Some? && Word(p, at.value) > Uint16(maxMSS) {
      var t, v, m, c := SynAt(p), Word(p, at.value), Uint16(maxMSS), Word(p, SynAt(p) + 16);
      ClampedTransportSum(p, maxMSS);
      var k := SubChange(c, v, m);
      var before, after := TransportSum(p, 6, t), TransportSum(Clamped(p, maxMSS), 6, t);
      if (at.value - t) % 2 == 0 {
        assert Weight(v, false) == v && Weight(m, false) == m by { EvenWeight(v); EvenWeight(m); }
        CongShift(before, after, k);
      } else {
        OddClamp(before, after, v, m, k);
      }
    }
  }

  lemma OddClamp(before: nat, after: nat, v: word, m: word, k: int)
    requires Cong(before, 0)
    requires after == before - Weight(v, true) + Weight(m, true) + v - m + 0xffff * k
    ensures Cong(after, 0) <==> (v - m) % 257 == 0
  {
    hide Cong, Weight;
    var kv := OddWeight(v);
    var km := OddWeight(m);
    var b := CongQuotient(before, 0);
    var d: int := m as int - v;
    CongShift(255 * d, after, b + k - kv + km);
    Times255(d);
    NegationDivides(d, 257);
  }

  lemma NegationDivides(d: int, n: int)
    requires n == 257
    ensures d % n == 0 <==> (-d) % n == 0
  {
  }

  lemma EvenWeight(w: word)
    ensures Weight(w, false) == w
  {
  }

  lemma OddWeight(w: word) returns (k: int)
    ensures Weight(w, true) == 256 * w + 0xffff * k
  {
    k := -(w / 256);
  }

  // ----- A clamp that breaks the checksum

  /** A SYN segment whose MSS option of 1460 follows a single NOP, so that its value lies at
      an odd offset; the checksum field is still zero. */
  function OddSyn(): (p: seq<byte>)
    ensures |p| == 48
  {
    [0x45, 0, 0, 48, 0, 0, 0, 0, 64, 6, 0, 0, 10, 0, 0, 1, 10, 0, 0, 2]
    + [4, 0, 1, 187, 0, 0, 0, 0, 0, 0, 0, 0, 0x70, 2, 0, 0, 0, 0, 0, 0]
    + [1, 2, 4, 0x05, 0xb4, 0, 0, 0]
  }

  lemma OddSynHasMss(p: seq<byte>)
    requires |p| == 48 && forall i :: 0 <= i < 48 && i != 36 && i != 37 ==> p[i] == OddSyn()[i]
    ensures SynAt(p) == 20 && MssAt(p) == Some(43) && Word(p, 43) == 1460
  {
    var opts := p[40..48];
    assert opts[0] == 1 && opts[1] == 2;
    assert Walk(opts, 0) == Walk(opts, 1) == Some(3);
  }

  /** A checksum that makes a segment verify. */
  lemma WithValidChecksum(b: seq<byte>) returns (p: seq<byte>)
    requires |b| == 48 && Version(b) == 4 && Word(b, 36) == 0 && TransportSum(b, 6, 20) > 0
    ensures |p| == 48 && p[0] == b[0] && forall i :: 0 <= i < 48 && i != 36 && i != 37 ==> p[i] == b[i]
    ensures TransportVerifies(p, 6, 20)
  {
    hide Put, TransportSum, Word;
    var cs := FullChecksum(TransportSum(b, 6, 20));
    p := PutWord(b, 36, cs);
    forall i | 0 <= i < 48 ensures i != 36 && i != 37 ==> p[i] == b[i] {
      PutBytes(b, 36, Bytes2(cs), i);
    }
    TransportSumPut(b, 6, 20, 36, cs);
    FullChecksumVerifies(TransportSum(b, 6, 20), cs);
  }

  /** For every limit below 1460 that is not a multiple of 257 away from it, there is a SYN
      with a valid checksum that clamping makes invalid. */
  lemma ClampCanBreakChecksum(maxMSS: int) returns (p: seq<byte>)
    requires 0 <= maxMSS < 1460 && (1460 - maxMSS) % 257 != 0
    ensures SynAt(p) == 20 && Version(p) == 4 && TransportVerifies(p, 6, 20)
    ensures Version(Clamped(p, maxMSS)) == 4 && |Clamped(p, maxMSS)| == |p| &&
              !TransportVerifies(Clamped(p, maxMSS), 6, 20)
  {
    hide Clamped, Walk, WordSum, Put;
    var b := OddSyn();
    p := WithValidChecksum(b);
    OddSynHasMss(p);
    ClampKeepsChecksum(p, maxMSS);
  }
}
