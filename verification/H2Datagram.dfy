/** Datagrams over an HTTP/2 stream of capsules (connect-ip/client_h2.go). */
module H2Datagram {
  import opened Wrappers
  import opened Bytes
  import opened Varint

  const DATAGRAM := 0

  // ----- Capsules (section 3.2 of RFC 9297)

  datatype Capsule = Capsule(kind: nat, payload: seq<byte>, size: nat)

  /** The capsule at the start of a byte string, if it is complete. */
  function CapsuleAt(s: seq<byte>): (r: Option<Capsule>)
    ensures r.Some? ==> 2 <= r.value.size <= |s|
  {
    var kind := Decode(s);
    if kind.None? then None
    else
      var length := Decode(s[kind.value.n..]);
      if length.None? then None
      else
        var header := kind.value.n + length.value.n;
        if |s| < header + length.value.value then None
        else Some(Capsule(kind.value.value, s[header..header + length.value.value], header + length.value.value))
  }

  function CapsuleBytes(kind: nat, payload: seq<byte>): (s: seq<byte>)
    requires kind < LIMIT && |payload| < LIMIT
  {
    Encode(kind) + (Encode(|payload|) + payload)
  }

  /** The value of a 64-bit signed integer variable. */
  function Int64(x: int): int { (x + 0x8000_0000_0000_0000) % 0x1_0000_0000_0000_0000 - 0x8000_0000_0000_0000 }

  /** parseCapsule. Lengths are below 2^62, so the total length does not overflow and the
      error for that is never returned. */
  method ParseCapsule(buf: seq<byte>) returns (capsuleType: nat, payload: seq<byte>, consumed: nat, ok: bool,
      malformed: bool)
    ensures !malformed
    ensures ok <==> CapsuleAt(buf).Some?
    ensures ok ==> CapsuleAt(buf).value == Capsule(capsuleType, payload, consumed)
  {
    hide Decode;
    var typeLen, payloadLen, payloadLenLen, complete;
    capsuleType, typeLen, complete := ParseVarint(buf);
    if !complete { return 0, [], 0, false, false; }
    payloadLen, payloadLenLen, complete := ParseVarint(buf[typeLen..]);
    if !complete { return 0, [], 0, false, false; }
    var headerLen := typeLen + payloadLenLen;
    var totalLen := Int64(headerLen + payloadLen);
    malformed := totalLen < headerLen;
    if malformed || |buf| < totalLen { return 0, [], 0, false, malformed; }
    return capsuleType, buf[headerLen..totalLen], totalLen, true, false;
  }

  /** More bytes do not change a complete capsule. */
  lemma CapsuleIsStable(a: seq<byte>, b: seq<byte>)
    requires CapsuleAt(a).Some?
    ensures CapsuleAt(a + b) == CapsuleAt(a)
  {
    hide Decode;
    var n := Decode(a).value.n;
    DecodeIsStable(a, b);
    DecodeIsStable(a[n..], b);
    assert (a + b)[n..] == a[n..] + b;
    var c := CapsuleAt(a).value;
    assert (a + b)[..c.size] == a[..c.size];
  }

  lemma CapsuleOfBytes(kind: nat, payload: seq<byte>, rest: seq<byte>)
    requires kind < LIMIT && |payload| < LIMIT
    ensures CapsuleAt(CapsuleBytes(kind, payload) + rest)
         == Some(Capsule(kind, payload, |CapsuleBytes(kind, payload)|))
  {
    hide Decode, Encode, Len;
    var k, l := Encode(kind), Encode(|payload|);
    var s := CapsuleBytes(kind, payload) + rest;
    assert s == k + (l + payload + rest);
    DecodeEncode(kind, l + payload + rest);
    assert s[|k|..] == l + (payload + rest);
    DecodeEncode(|payload|, payload + rest);
    assert s[|k| + |l|..|k| + |l| + |payload|] == payload;
  }

  /** A capsule that is cut short is not complete at any point. */
  lemma CutCapsuleIsIncomplete(kind: nat, payload: seq<byte>, n: nat)
    requires kind < LIMIT && |payload| < LIMIT && n < |CapsuleBytes(kind, payload)|
    ensures CapsuleAt(CapsuleBytes(kind, payload)[..n]) == None
  {
    hide CapsuleBytes, CapsuleAt;
    var s := CapsuleBytes(kind, payload);
    if CapsuleAt(s[..n]).Some? {
      CapsuleIsStable(s[..n], s[n..]);
      assert s[..n] + s[n..] == s == s + [];
      CapsuleOfBytes(kind, payload, []);
      assert false;
    }
  }

  // ----- Streams

  /** The payloads of the complete DATAGRAM capsules at the start of a stream, in order. */
  function Datagrams(s: seq<byte>): (ds: seq<seq<byte>>)
    decreases |s|
  {
    var c := CapsuleAt(s);
    if c.None? then []
    else if c.value.kind == DATAGRAM then [c.value.payload] + Datagrams(s[c.value.size..])
    else Datagrams(s[c.value.size..])
  }

  /** What remains of a stream behind its complete capsules. */
  function Remainder(s: seq<byte>): (r: seq<byte>)
    ensures CapsuleAt(r).None?
    decreases |s|
  {
    var c := CapsuleAt(s);
    if c.None? then s else Remainder(s[c.value.size..])
  }

  lemma {:induction false} RemainderIsSuffix(s: seq<byte>)
    ensures |Remainder(s)| <= |s| && Remainder(s) == s[|s| - |Remainder(s)|..]
    decreases |s|
  {
    hide CapsuleAt;
    var c := CapsuleAt(s);
    if c.Some? {
      var rest := s[c.value.size..];
      RemainderIsSuffix(rest);
      assert rest[|rest| - |Remainder(rest)|..] == s[|s| - |Remainder(rest)|..];
    }
  }

  function Joined(chunks: seq<seq<byte>>): (s: seq<byte>) {
    if chunks == [] then [] else chunks[0] + Joined(chunks[1..])
  }

  lemma JoinedFirst(chunks: seq<seq<byte>>)
    requires chunks != []
    ensures Joined(chunks) == chunks[0] + Joined(chunks[1..])
  {
  }

  lemma {:induction false} JoinedOneMore(chunks: seq<seq<byte>>, k: nat)
    requires k < |chunks|
    ensures Joined(chunks[..k + 1]) == Joined(chunks[..k]) + chunks[k]
  {
    if k > 0 {
      JoinedOneMore(chunks[1..], k - 1);
      assert chunks[..k + 1][1..] == chunks[1..][..k] && chunks[..k][1..] == chunks[1..][..k - 1];
    } else {
      assert Joined(chunks[..1]) == chunks[0] + Joined(chunks[..1][1..]);
    }
  }

  /** A capsule that is complete in the buffer is the first one of the whole stream. */
  lemma ConsumeFromBuffer(buf: seq<byte>, later: seq<byte>)
    requires CapsuleAt(buf).Some?
    ensures var c := CapsuleAt(buf).value;
            && CapsuleAt(buf + later) == CapsuleAt(buf)
            && Datagrams(buf + later) == (if c.kind == DATAGRAM then [c.payload] else []) +
                Datagrams(buf[c.size..] + later)
            && Remainder(buf + later) == Remainder(buf[c.size..] + later)
  {
    hide CapsuleAt;
    var c := CapsuleAt(buf).value;
    CapsuleIsStable(buf, later);
    assert (buf + later)[c.size..] == buf[c.size..] + later;
  }

  datatype Item = Item(kind: nat, payload: seq<byte>) {
    predicate Valid() { kind < LIMIT && |payload| < LIMIT }

    function Bytes(): (s: seq<byte>)
      requires Valid()
    {
      CapsuleBytes(kind, payload)
    }
  }

  /** The bytes of a sequence of capsules. */
  function Wire(items: seq<Item>): (s: seq<byte>)
    requires forall i :: i in items ==> i.Valid()
  {
    if items == [] then [] else items[0].Bytes() + Wire(items[1..])
  }

  function Payloads(items: seq<Item>): (ds: seq<seq<byte>>) {
    if items == [] then [] else (if items[0].kind == DATAGRAM then [items[0].payload] else []) + Payloads(items[1..])
  }

  /** The datagrams of a sequence of capsules are the payloads of its DATAGRAM capsules. */
  lemma {:induction false} DatagramsOfWire(items: seq<Item>, tail: seq<byte>)
    requires forall i :: i in items ==> i.Valid()
    ensures Datagrams(Wire(items) + tail) == Payloads(items) + Datagrams(tail)
    ensures Remainder(Wire(items) + tail) == Remainder(tail)
  {
    hide CapsuleAt, CapsuleBytes, Datagrams, Remainder;
    if items == [] {
      assert Wire(items) + tail == tail;
      assert Payloads(items) + Datagrams(tail) == Datagrams(tail);
    } else {
      var first, later := items[0].Bytes(), Wire(items[1..]) + tail;
      DatagramsOfWire(items[1..], tail);
      FirstOfWire(items[0], later);
      assert Wire(items) + tail == first + later;
      var head := if items[0].kind == DATAGRAM then [items[0].payload] else [];
      assert head + (Payloads(items[1..]) + Datagrams(tail)) == head + Payloads(items[1..]) + Datagrams(tail);
    }
  }

  lemma FirstOfWire(item: Item, later: seq<byte>)
    requires item.Valid()
    ensures var s := item.Bytes() + later;
            && Datagrams(s) == (if item.kind == DATAGRAM then [item.payload] else []) + Datagrams(later)
            && Remainder(s) == Remainder(later)
  {
    hide CapsuleAt, CapsuleBytes;
    var first := item.Bytes();
    CapsuleOfBytes(item.kind, item.payload, later);
    assert (first + later)[|first|..] == later;
  }

  /** A stream that ends inside a capsule gives the datagrams before it, and leaves the cut
      capsule in the buffer. */
  lemma CutStream(items: seq<Item>, last: Item, n: nat)
    requires (forall i :: i in items ==> i.Valid()) && last.Valid() && n < |last.Bytes()|
    ensures var cut := last.Bytes()[..n];
            Datagrams(Wire(items) + cut) == Payloads(items) && Remainder(Wire(items) + cut) == cut
  {
    hide CapsuleAt, CapsuleBytes, Datagrams, Remainder;
    var cut := last.Bytes()[..n];
    CutCapsuleIsIncomplete(last.kind, last.payload, n);
    Incomplete(cut);
    DatagramsOfWire(items, cut);
  }

  // ----- Two byte strings that stand for the same datagrams, whatever follows

  ghost predicate SameDatagrams(a: seq<byte>, b: seq<byte>) {
    forall later: seq<byte> :: Datagrams(a + later) == Datagrams(b + later)
  }

  lemma SameAsItself(a: seq<byte>)
    ensures SameDatagrams(a, a)
  {
  }

  lemma SameNow(a: seq<byte>, b: seq<byte>)
    requires SameDatagrams(a, b)
    ensures Datagrams(a) == Datagrams(b)
  {
    assert a + [] == a && b + [] == b;
  }

  lemma SkippedIsSame(a: seq<byte>, b: seq<byte>)
    requires SameDatagrams(a, b) && CapsuleAt(a).Some? && CapsuleAt(a).value.kind != DATAGRAM
    ensures SameDatagrams(a[CapsuleAt(a).value.size..], b)
  {
    hide CapsuleAt, Datagrams;
    forall later: seq<byte> ensures Datagrams(a[CapsuleAt(a).value.size..] + later) == Datagrams(b + later) {
      ConsumeFromBuffer(a, later);
      assert Datagrams(a + later) == Datagrams(b + later);
    }
  }

  lemma ReadIsSame(a: seq<byte>, b: seq<byte>, more: seq<byte>)
    requires SameDatagrams(a, b)
    ensures SameDatagrams(a + more, b + more)
  {
    hide Datagrams;
    forall later: seq<byte> ensures Datagrams(a + more + later) == Datagrams(b + more + later) {
      assert a + more + later == a + (more + later) && b + more + later == b + (more + later);
    }
  }

  // ----- Where a call of ReceiveDatagram can stand

  ghost predicate IsSuffix(p: seq<byte>, s: seq<byte>) {
    |p| <= |s| && p == s[|s| - |p|..]
  }

  ghost predicate SameStream(p: seq<byte>, s: seq<byte>) {
    Datagrams(p) == Datagrams(s) && Remainder(p) == Remainder(s) && IsSuffix(p, s)
  }

  /** After k reads the buffer holds buf, and only whole capsules of other types are gone. */
  ghost predicate Reached(buf0: seq<byte>, chunks: seq<seq<byte>>, k: nat, buf: seq<byte>) {
    && k <= |chunks|
    && SameStream(buf + Joined(chunks[k..]), buf0 + Joined(chunks))
    && SameDatagrams(buf, buf0 + Joined(chunks[..k]))
    && forall j :: 0 <= j < k ==> Datagrams(buf0 + Joined(chunks[..j])) == []
  }

  lemma ReachedStart(buf0: seq<byte>, chunks: seq<seq<byte>>)
    ensures Reached(buf0, chunks, 0, buf0)
  {
    hide Datagrams, Remainder, SameDatagrams;
    assert chunks[0..] == chunks && chunks[..0] == [];
    assert buf0 + Joined(chunks[..0]) == buf0;
    SameAsItself(buf0);
  }

  lemma SuffixOfSuffix(q: seq<byte>, p: seq<byte>, s: seq<byte>)
    requires IsSuffix(q, p) && IsSuffix(p, s)
    ensures IsSuffix(q, s)
  {
  }

  lemma ReachedSkip(buf0: seq<byte>, chunks: seq<seq<byte>>, k: nat, buf: seq<byte>)
    requires Reached(buf0, chunks, k, buf) && CapsuleAt(buf).Some? && CapsuleAt(buf).value.kind != DATAGRAM
    ensures Reached(buf0, chunks, k, buf[CapsuleAt(buf).value.size..])
  {
    hide CapsuleAt, Datagrams, Remainder, SameDatagrams, Joined, IsSuffix;
    var size, later := CapsuleAt(buf).value.size, Joined(chunks[k..]);
    ConsumeFromBuffer(buf, later);
    SkippedIsSame(buf, buf0 + Joined(chunks[..k]));
    DropIsSuffix(buf, later, size);
    SuffixOfSuffix(buf[size..] + later, buf + later, buf0 + Joined(chunks));
    assert Datagrams(buf[size..] + later) == Datagrams(buf + later) by {
      assert [] + Datagrams(buf[size..] + later) == Datagrams(buf[size..] + later);
    }
  }

  lemma DropIsSuffix(buf: seq<byte>, later: seq<byte>, n: nat)
    requires n <= |buf|
    ensures IsSuffix(buf[n..] + later, buf + later)
  {
  }

  lemma ReachedRead(buf0: seq<byte>, chunks: seq<seq<byte>>, k: nat, buf: seq<byte>)
    requires Reached(buf0, chunks, k, buf) && CapsuleAt(buf).None? && k < |chunks|
    ensures Reached(buf0, chunks, k + 1, buf + chunks[k])
  {
    hide CapsuleAt, Datagrams, Remainder, SameDatagrams, Joined, IsSuffix;
    var seen := buf0 + Joined(chunks[..k]);
    assert chunks[k..][1..] == chunks[k + 1..];
    JoinedFirst(chunks[k..]);
    assert (buf + chunks[k]) + Joined(chunks[k + 1..]) == buf + Joined(chunks[k..]);
    assert seen + chunks[k] == buf0 + Joined(chunks[..k + 1]) by {
      JoinedOneMore(chunks, k);
      assert buf0 + Joined(chunks[..k]) + chunks[k] == buf0 + (Joined(chunks[..k]) + chunks[k]);
    }
    ReadIsSame(buf, seen, chunks[k]);
    SameNow(buf, seen);
    Incomplete(buf);
  }

  /** A DATAGRAM capsule at the start of the buffer is the stream's next datagram. */
  lemma ReachedDatagram(buf0: seq<byte>, chunks: seq<seq<byte>>, k: nat, buf: seq<byte>)
    requires Reached(buf0, chunks, k, buf) && CapsuleAt(buf).Some? && CapsuleAt(buf).value.kind == DATAGRAM
    ensures var c, s := CapsuleAt(buf).value, buf0 + Joined(chunks);
            var rest := buf[c.size..] + Joined(chunks[k..]);
            && Datagrams(s) == [c.payload] + Datagrams(rest)
            && Remainder(rest) == Remainder(s) && IsSuffix(rest, s)
  {
    hide CapsuleAt, Datagrams, Remainder, SameDatagrams, Joined, IsSuffix;
    var later := Joined(chunks[k..]);
    ConsumeFromBuffer(buf, later);
    DropIsSuffix(buf, later, CapsuleAt(buf).value.size);
    SuffixOfSuffix(buf[CapsuleAt(buf).value.size..] + later, buf + later, buf0 + Joined(chunks));
  }

  /** At the end of the stream without a complete capsule, no datagram is left. */
  lemma ReachedEnd(buf0: seq<byte>, chunks: seq<seq<byte>>, buf: seq<byte>)
    requires Reached(buf0, chunks, |chunks|, buf) && CapsuleAt(buf).None?
    ensures var s := buf0 + Joined(chunks);
            Datagrams(s) == [] && buf == Remainder(s) && IsSuffix(buf, s)
  {
    hide CapsuleAt, Datagrams, Remainder, SameDatagrams, Joined, IsSuffix;
    assert chunks[|chunks|..] == [];
    NothingJoined();
    assert buf + [] == buf;
    Incomplete(buf);
  }

  lemma NothingJoined()
    ensures Joined([]) == []
  {
  }

  lemma Incomplete(s: seq<byte>)
    requires CapsuleAt(s).None?
    ensures Datagrams(s) == [] && Remainder(s) == s
  {
  }

  /** One end of an HTTP/2 datagram stream. */
  class H2DatagramStream {
    /** What was received and not yet consumed. */
    var recvBuf: seq<byte>
    /** What the following reads of the response body give; behind them every read fails. */
    var chunks: seq<seq<byte>>
    /** What was written to the request body. */
    var sent: seq<byte>
    /** Whether the request body still accepts writes. */
    var open: bool

    constructor (chunks: seq<seq<byte>>)
      ensures recvBuf == [] && this.chunks == chunks && sent == [] && open
    {
      this.chunks := chunks;
      recvBuf, sent, open := [], [], true;
    }

    /** All bytes still to be consumed. */
    function Pending(): seq<byte>
      reads this
    {
      recvBuf + Joined(chunks)
    }

    /** The next datagram behind context ID zero, or None when the read fails. The result
        depends on the bytes of the stream and not on how reads split them, and no read is
        made that is not needed. */
    method ReceiveDatagram() returns (data: Option<seq<byte>>, ghost readCount: nat)
      modifies `recvBuf, `chunks
      ensures var ds := Datagrams(old(Pending()));
              if ds == [] then data == None && chunks == [] && recvBuf == Remainder(old(Pending())) &&
                  Datagrams(Pending()) == []
              else data == Some([0] + ds[0]) && Datagrams(Pending()) == ds[1..]
      ensures Remainder(Pending()) == Remainder(old(Pending()))
      ensures IsSuffix(Pending(), old(Pending()))
      ensures readCount <= |old(chunks)| && chunks == old(chunks)[readCount..]
      ensures forall j :: 0 <= j < readCount ==> Datagrams(old(recvBuf) + Joined(old(chunks)[..j])) == []
    {
      hide CapsuleAt, Datagrams, Remainder, Joined, SameDatagrams, IsSuffix;
      ghost var buf0, chunks0 := recvBuf, chunks;
      readCount := 0;
      ReachedStart(buf0, chunks0);
      while true
        invariant Reached(buf0, chunks0, readCount, recvBuf)
        invariant chunks == chunks0[readCount..]
        decreases |chunks|, |recvBuf|
      {
        var capsuleType, payload, consumed, ok, malformed := ParseCapsule(recvBuf);
        if ok {
          ghost var buf := recvBuf;
          recvBuf := recvBuf[consumed..];
          if capsuleType != DATAGRAM {
            ReachedSkip(buf0, chunks0, readCount, buf);
            continue;
          }
          ReachedDatagram(buf0, chunks0, readCount, buf);
          return Some([0] + payload), readCount;
        }
        if |chunks| == 0 {
          ReachedEnd(buf0, chunks0, recvBuf);
          assert Pending() == recvBuf by { NothingJoined(); }
          Incomplete(recvBuf);
          return None, readCount;
        }
        ReachedRead(buf0, chunks0, readCount, recvBuf);
        recvBuf := recvBuf + chunks[0];
        chunks := chunks[1..];
        readCount := readCount + 1;
      }
    }

    /** The frame of a datagram with context ID zero; other datagrams are refused. */
    method SendDatagram(data: seq<byte>) returns (ok: bool)
      requires |data| < LIMIT
      modifies `sent
      ensures ok <==> open && Decode(data).Some? && Decode(data).value.value == 0
      ensures sent == if ok then old(sent) + CapsuleBytes(DATAGRAM, data[Decode(data).value.n..]) else old(sent)
    {
      hide Decode, Encode;
      var contextID, n, parsed := ParseVarint(data);
      if !parsed { return false; }
      if contextID != 0 { return false; }
      var frame := Encode(DATAGRAM);
      frame := frame + Encode(|data[n..]|);
      frame := frame + data[n..];
      if !open { return false; }
      sent := sent + frame;
      assert frame == CapsuleBytes(DATAGRAM, data[n..]);
      return true;
    }
  }
}
