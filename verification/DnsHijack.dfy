/** Redirecting DNS queries to a chosen server and restoring the original address in the
    responses, with incremental checksum updates (internal/dns_hijack.go). */
module DnsHijack {
  import opened Wrappers
  import opened Bytes
  import opened Checksum
  import opened NatTable
  import opened Packet

  const NUM_SHARDS := 16
  const MAX_PER_SHARD := 256
  const ZERO_KEY := Key(seq(16, _ => 0), 0, false)

  type Addr4 = a: seq<byte> | |a| == 4 witness [0, 0, 0, 0]
  type Addr16 = a: seq<byte> | |a| == 16 witness seq(16, _ => 0)

  /** The configured servers. */
  datatype Targets = Targets(h4: Option<Addr4>, h6: Option<Addr16>)

  // ----- What a rewrite does to the bytes

  /** The packet with the address at `at` replaced, and the checksums updated. */
  function Redirected(p: seq<byte>, at: nat, addr: seq<byte>, off: nat): (q: seq<byte>)
    requires |addr| % 2 == 0 && at + |addr| <= off && 12 <= off && off + 8 <= |p|
    ensures |q| == |p|
  {
    var o, n := Words(p[at..at + |addr|]), Words(addr);
    var u := Adjust(Word(p, off + 6), o, n);
    if |addr| == 4 then
      PutWord(PutWord(Put(p, at, addr), 10, Adjust(Word(p, 10), o, n)), off + 6, MapZero(u))
    else
      PutWord(Put(p, at, addr), off + 6, u)
  }

  predicate IsQuery(p: seq<byte>, h: Targets) {
    var off := UdpOffset(p);
    && off >= 0
    && Word(p, off + 2) == 53
    && if Version(p) == 4 then h.h4.Some? && !IsFragment(p) else h.h6.Some?
  }

  function QueryKey(p: seq<byte>): Key
    requires UdpOffset(p) >= 0
  {
    var port := Word(p, UdpOffset(p));
    if Version(p) == 4 then Key(p[12..16] + seq(12, _ => 0), port, true) else Key(p[8..24], port, false)
  }

  /** The address a query was sent to, padded to 16 bytes. */
  function QueryDst(p: seq<byte>): (d: Dst)
    requires UdpOffset(p) >= 0
  {
    if Version(p) == 4 then p[16..20] + seq(12, _ => 0) else p[24..40]
  }

  function RewrittenQuery(p: seq<byte>, h: Targets): (q: seq<byte>)
    ensures |q| == |p|
  {
    if !IsQuery(p, h) then p
    else if Version(p) == 4 then Redirected(p, 16, h.h4.value, UdpOffset(p))
    else Redirected(p, 24, h.h6.value, UdpOffset(p))
  }

  /** A DNS packet from the configured server: it may answer a recorded query. */
  predicate IsResponse(p: seq<byte>, h: Targets) {
    var off := UdpOffset(p);
    && off >= 0
    && Word(p, off) == 53
    && if Version(p) == 4 then h.h4.Some? && p[12..16] == h.h4.value else h.h6.Some? && p[8..24] == h.h6.value
  }

  /** The key of the query a response answers: its own destination. */
  function ResponseKey(p: seq<byte>): Key
    requires UdpOffset(p) >= 0
  {
    var port := Word(p, UdpOffset(p) + 2);
    if Version(p) == 4 then Key(p[16..20] + seq(12, _ => 0), port, true) else Key(p[24..40], port, false)
  }

  function RewrittenResponse(p: seq<byte>, h: Targets, orig: Option<Dst>): (q: seq<byte>)
    ensures |q| == |p|
  {
    if !IsResponse(p, h) || orig.None? then p
    else if Version(p) == 4 then Redirected(p, 12, orig.value[..4], UdpOffset(p))
    else Redirected(p, 8, orig.value, UdpOffset(p))
  }

  method StoreBytes(pkt: array<byte>, at: nat, b: seq<byte>)
    requires at + |b| <= pkt.Length
    modifies pkt
    ensures pkt[..] == Put(old(pkt[..]), at, b)
  {
    forall j | 0 <= j < |b| { pkt[at + j] := b[j]; }
  }

  /** Replaces an address of the packet and adjusts the checksums that cover it. */
  method Redirect(pkt: array<byte>, at: nat, addr: seq<byte>, off: nat)
    requires |addr| == 16 || (|addr| == 4 && at >= 12)
    requires at + |addr| <= off && 12 <= off && off + 8 <= pkt.Length
    modifies pkt
    ensures pkt[..] == Redirected(old(pkt[..]), at, addr, off)
  {
    hide Fold, Words, Put, Word, Adjust;
    ghost var p := pkt[..];
    var oldW, newW := Words(pkt[at..at + |addr|]), Words(addr);
    assert pkt[at..at + |addr|] == p[at..at + |addr|];
    StoreBytes(pkt, at, addr);
    WordElsewhere(p, at, addr, off + 6);
    ghost var q := pkt[..];
    if |addr| == 4 {
      WordElsewhere(p, at, addr, 10);
      var cs := AdjustChecksum(Word(pkt[..], 10), oldW, newW);
      StoreWord(pkt, 10, cs);
      WordElsewhere(q, 10, Bytes2(cs), off + 6);
    }
    var udpCS := AdjustChecksum(Word(pkt[..], off + 6), oldW, newW);
    if |addr| == 4 && udpCS == 0 {
      udpCS := 0xffff;
    }
    StoreWord(pkt, off + 6, udpCS);
  }

  // ----- The rewriter's state

  class Shard {
    var pending: map<Key, Dst>
    var ring: array<Key>
    var pos: nat

    ghost predicate Valid()
      reads this
    {
      ring.Length == MAX_PER_SHARD && pos < MAX_PER_SHARD
    }

    ghost function View(): (t: Table)
      reads this, ring
    {
      Table(pending, ring[..], pos)
    }

    constructor ()
      ensures Valid() && fresh(ring)
      ensures View() == Empty(MAX_PER_SHARD, ZERO_KEY)
    {
      pending := map[];
      ring := new Key[MAX_PER_SHARD](_ => ZERO_KEY);
      pos := 0;
      new;
      assert ring[..] == seq(MAX_PER_SHARD, _ => ZERO_KEY);
    }

    method Record(key: Key, dst: Dst)
      requires Valid()
      modifies this, ring
      ensures Valid() && ring == old(ring)
      ensures View() == old(View()).Record(key, dst)
    {
      if |pending| >= MAX_PER_SHARD {
        pending := pending - {ring[pos]};
      }
      ring[pos] := key;
      pos := (pos + 1) % MAX_PER_SHARD;
      pending := pending[key := dst];
    }

    method Take(key: Key) returns (orig: Option<Dst>)
      requires Valid()
      modifies this
      ensures Valid() && ring == old(ring)
      ensures orig == old(View()).Lookup(key)
      ensures View() == old(View()).Take(key)
    {
      if key in pending {
        orig := Some(pending[key]);
        pending := pending - {key};
      } else {
        orig := None;
        assert pending == pending - {key};
      }
    }
  }

  /** The shards after a query packet has been recorded. */
  function Recorded(ts: seq<Table>, p: seq<byte>): (r: seq<Table>)
    requires |ts| == NUM_SHARDS && UdpOffset(p) >= 0
    requires forall t :: t in ts ==> t.Valid()
  {
    var i := QueryKey(p).port % NUM_SHARDS;
    ts[i := ts[i].Record(QueryKey(p), QueryDst(p))]
  }

  /** The recorded destination of the query a response answers. */
  function Original(ts: seq<Table>, p: seq<byte>): Option<Dst>
    requires |ts| == NUM_SHARDS && UdpOffset(p) >= 0
  {
    ts[ResponseKey(p).port % NUM_SHARDS].Lookup(ResponseKey(p))
  }

  /** The shards after a response packet has used its entry up. */
  function Taken(ts: seq<Table>, p: seq<byte>): (r: seq<Table>)
    requires |ts| == NUM_SHARDS && UdpOffset(p) >= 0
    ensures |r| == |ts|
    ensures (forall t :: t in ts ==> t.Valid()) ==> forall t :: t in r ==> t.Valid()
  {
    var i := ResponseKey(p).port % NUM_SHARDS;
    ts[i := ts[i].Take(ResponseKey(p))]
  }

  class DNSRewriter {
    var targets: Targets
    const shards: seq<Shard>

    ghost predicate Valid()
      reads this, shards
    {
      && |shards| == NUM_SHARDS
      && (forall i :: 0 <= i < NUM_SHARDS ==> shards[i].Valid())
      && (forall i, j :: 0 <= i < j < NUM_SHARDS ==> shards[i] != shards[j] && shards[i].ring != shards[j].ring)
    }

    ghost function Tables(): (ts: seq<Table>)
      reads this, shards, set s | s in shards :: s.ring
      ensures |ts| == |shards|
      ensures Valid() ==> forall t :: t in ts ==> t.Valid()
    {
      seq(|shards|, i requires 0 <= i < |shards| reads this, shards, set s | s in shards :: s.ring => shards[i].View())
    }

    constructor (targets: Targets)
      ensures Valid() && this.targets == targets
      ensures forall t :: t in Tables() ==> t == Empty(MAX_PER_SHARD, ZERO_KEY)
      ensures fresh(shards) && fresh(set s | s in shards :: s.ring)
    {
      this.targets := targets;
      var ss: seq<Shard> := [];
      while |ss| < NUM_SHARDS
        invariant |ss| <= NUM_SHARDS
        invariant forall i :: 0 <= i < |ss| ==> fresh(ss[i]) && fresh(ss[i].ring) && ss[i].Valid()
        invariant forall i :: 0 <= i < |ss| ==> ss[i].View() == Empty(MAX_PER_SHARD, ZERO_KEY)
        invariant forall i, j :: 0 <= i < j < |ss| ==> ss[i] != ss[j] && ss[i].ring != ss[j].ring
      {
        var shard := new Shard();
        ss := ss + [shard];
      }
      shards := ss;
    }

    /** Records a query in the shard of its port. */
    method Record(key: Key, dst: Dst)
      requires Valid()
      modifies shards, set s | s in shards :: s.ring
      ensures Valid()
      ensures Tables() == old(Tables())[key.port % NUM_SHARDS := old(Tables())[key.port % NUM_SHARDS].Record(key, dst)]
    {
      var i := key.port % NUM_SHARDS;
      shards[i].Record(key, dst);
      assert forall j :: 0 <= j < NUM_SHARDS && j != i ==> shards[j].View() == old(shards[j].View());
    }

    /** Looks a response's key up in the shard of its port, and forgets it. */
    method Take(key: Key) returns (orig: Option<Dst>)
      requires Valid()
      modifies shards
      ensures Valid()
      ensures orig == old(Tables())[key.port % NUM_SHARDS].Lookup(key)
      ensures Tables() == old(Tables())[key.port % NUM_SHARDS := old(Tables())[key.port % NUM_SHARDS].Take(key)]
    {
      var i := key.port % NUM_SHARDS;
      orig := shards[i].Take(key);
      assert forall j :: 0 <= j < NUM_SHARDS && j != i ==> shards[j].View() == old(shards[j].View());
    }

    /** The IPv4 branch of RewriteQuery. */
    method RedirectQuery4(pkt: array<byte>, udpOff: nat)
      requires Valid() && IsQuery(pkt[..], targets) && udpOff == UdpOffset(pkt[..]) && Version(pkt[..]) == 4
      modifies pkt, shards, set s | s in shards :: s.ring
      ensures Valid() && targets == old(targets)
      ensures pkt[..] == RewrittenQuery(old(pkt[..]), targets)
      ensures Tables() == Recorded(old(Tables()), old(pkt[..]))
    {
      var key := Key(pkt[12..16] + seq(12, _ => 0), Word(pkt[..], udpOff), true);
      var origDst := pkt[16..20] + seq(12, _ => 0);
      assert key == QueryKey(pkt[..]) && origDst == QueryDst(pkt[..]);
      Record(key, origDst);
      ghost var recorded := Tables();
      Redirect(pkt, 16, targets.h4.value, udpOff);
      assert Tables() == recorded;
    }

    /** The IPv6 branch of RewriteQuery. */
    method RedirectQuery6(pkt: array<byte>, udpOff: nat)
      requires Valid() && IsQuery(pkt[..], targets) && udpOff == UdpOffset(pkt[..]) && Version(pkt[..]) != 4
      modifies pkt, shards, set s | s in shards :: s.ring
      ensures Valid() && targets == old(targets)
      ensures pkt[..] == RewrittenQuery(old(pkt[..]), targets)
      ensures Tables() == Recorded(old(Tables()), old(pkt[..]))
    {
      var key := Key(pkt[8..24], Word(pkt[..], udpOff), false);
      var origDst := pkt[24..40];
      assert key == QueryKey(pkt[..]) && origDst == QueryDst(pkt[..]);
      Record(key, origDst);
      ghost var recorded := Tables();
      Redirect(pkt, 24, targets.h6.value, udpOff);
      assert Tables() == recorded;
    }

    /** RewriteQuery: redirects an outbound DNS query and records where it was going. */
    method RewriteQuery(pkt: array<byte>)
      requires Valid()
      modifies pkt, shards, set s | s in shards :: s.ring
      ensures Valid() && targets == old(targets)
      ensures pkt[..] == RewrittenQuery(old(pkt[..]), targets)
      ensures Tables() ==
                if IsQuery(old(pkt[..]), targets) then Recorded(old(Tables()), old(pkt[..])) else old(Tables())
    {
      var udpOff := FindUdp(pkt);
      if udpOff < 0 || Word(pkt[..], udpOff + 2) != 53 {
        return;
      }
      if pkt[0] / 16 == 4 {
        if targets.h4.None? || IsFragment(pkt[..]) {
          return;
        }
        RedirectQuery4(pkt, udpOff);
      } else {
        if targets.h6.None? {
          return;
        }
        RedirectQuery6(pkt, udpOff);
      }
    }

    /** The IPv4 branch of RewriteResponse. */
    method RestoreSource4(pkt: array<byte>, udpOff: nat)
      requires Valid() && IsResponse(pkt[..], targets) && udpOff == UdpOffset(pkt[..]) && Version(pkt[..]) == 4
      modifies pkt, shards
      ensures Valid() && targets == old(targets)
      ensures pkt[..] == RewrittenResponse(old(pkt[..]), targets, Original(old(Tables()), old(pkt[..])))
      ensures Tables() == Taken(old(Tables()), old(pkt[..]))
    {
      var key := Key(pkt[16..20] + seq(12, _ => 0), Word(pkt[..], udpOff + 2), true);
      assert key == ResponseKey(pkt[..]);
      var origDst := Take(key);
      ghost var taken := Tables();
      if origDst.Some? {
        Redirect(pkt, 12, origDst.value[..4], udpOff);
      }
      assert Tables() == taken;
    }

    /** The IPv6 branch of RewriteResponse. */
    method RestoreSource6(pkt: array<byte>, udpOff: nat)
      requires Valid() && IsResponse(pkt[..], targets) && udpOff == UdpOffset(pkt[..]) && Version(pkt[..]) != 4
      modifies pkt, shards
      ensures Valid() && targets == old(targets)
      ensures pkt[..] == RewrittenResponse(old(pkt[..]), targets, Original(old(Tables()), old(pkt[..])))
      ensures Tables() == Taken(old(Tables()), old(pkt[..]))
    {
      var key := Key(pkt[24..40], Word(pkt[..], udpOff + 2), false);
      assert key == ResponseKey(pkt[..]);
      var origDst := Take(key);
      ghost var taken := Tables();
      if origDst.Some? {
        Redirect(pkt, 8, origDst.value, udpOff);
      }
      assert Tables() == taken;
    }

    /** RewriteResponse: gives an inbound DNS response the source its query was sent to. */
    method RewriteResponse(pkt: array<byte>)
      requires Valid()
      modifies pkt, shards
      ensures Valid() && targets == old(targets)
      ensures var p := old(pkt[..]);
              if IsResponse(p, targets)
              then pkt[..] == RewrittenResponse(p, targets, Original(old(Tables()), p)) &&
                  Tables() == Taken(old(Tables()), p)
              else pkt[..] == p && Tables() == old(Tables())
    {
      var udpOff := FindUdp(pkt);
      if udpOff < 0 || Word(pkt[..], udpOff) != 53 {
        return;
      }
      if pkt[0] / 16 == 4 {
        if targets.h4.None? || pkt[12..16] != targets.h4.value {
          return;
        }
        RestoreSource4(pkt, udpOff);
      } else {
        if targets.h6.None? || pkt[8..24] != targets.h6.value {
          return;
        }
        RestoreSource6(pkt, udpOff);
      }
    }
  }
}
