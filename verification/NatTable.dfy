/** One shard of the DNS address table: pending queries by key, and a ring of the keys
    last recorded, which decides what a full table forgets (internal/dns_hijack.go). */
module NatTable {

  import opened Wrappers
  import opened Bytes

  /** A query's source address (zero-padded for IPv4), source port and family. */
  datatype Key = Key(ip: seq<byte>, port: nat, v4: bool)

  /** A query's original destination address, zero-padded for IPv4. */
  type Dst = d: seq<byte> | |d| == 16 witness seq(16, _ => 0)

  /** The next slot of a ring of n slots. */
  function Advance(pos: nat, n: nat): (r: nat)
    requires pos < n
    ensures r == if pos + 1 == n then 0 else pos + 1
  {
    (pos + 1) % n
  }

  datatype Table = Table(pending: map<Key, Dst>, ring: seq<Key>, pos: nat) {
    predicate Valid() { pos < |ring| }

    /** What RewriteQuery does to the shard, under its lock. */
    function Record(key: Key, dst: Dst): (t: Table)
      requires Valid()
      ensures t.Valid() && |t.ring| == |ring|
    {
      var kept := if |pending| >= |ring| then pending - {ring[pos]} else pending;
      Table(kept[key := dst], ring[pos := key], Advance(pos, |ring|))
    }

    /** What RewriteResponse does to the shard, under its lock. */
    function Take(key: Key): (t: Table)
      ensures t.Valid() == Valid() && t.ring == ring
    {
      Table(pending - {key}, ring, pos)
    }

    function Lookup(key: Key): Option<Dst> {
      if key in pending then Some(pending[key]) else None
    }
  }

  datatype Op = Query(key: Key, dst: Dst) | Response(key: Key)

  function Step(t: Table, op: Op): (t': Table)
    requires t.Valid()
    ensures t'.Valid() && |t'.ring| == |t.ring|
  {
    match op
    case Query(key, dst) => t.Record(key, dst)
    case Response(key) => t.Take(key)
  }

  function Run(t: Table, ops: seq<Op>): (t': Table)
    requires t.Valid()
    ensures t'.Valid() && |t'.ring| == |t.ring|
    decreases |ops|
  {
    if ops == [] then t else Run(Step(t, ops[0]), ops[1..])
  }

  lemma {:induction false} RunConcat(t: Table, a: seq<Op>, b: seq<Op>)
    requires t.Valid()
    ensures Run(t, a + b) == Run(Run(t, a), b)
    decreases |a|
  {
    if a == [] {
      assert a + b == b;
    } else {
      assert (a + b)[1..] == a[1..] + b;
      RunConcat(Step(t, a[0]), a[1..], b);
    }
  }

  /** A new shard: nothing pending, the ring full of the zero key. */
  function Empty(n: nat, zero: Key): (t: Table)
    ensures n > 0 ==> t.Valid()
    ensures |t.ring| == n
  {
    Table(map[], seq(n, _ => zero), 0)
  }

  // ----- How large a table can get

  ghost function InRing(t: Table): set<Key> { set k | k in t.ring }

  /** Pending keys that no ring slot names: nothing evicts them. */
  ghost function Orphans(t: Table): set<Key> { t.pending.Keys - InRing(t) }

  lemma SubsetSize(a: set<Key>, b: set<Key>)
    requires a <= b
    ensures |a| <= |b|
  {
    assert b == a + (b - a);
    assert |b| == |a| + |b - a|;
  }

  lemma {:induction false} RingSize(ring: seq<Key>)
    ensures |set k | k in ring| <= |ring|
  {
    if ring != [] {
      var n := |ring| - 1;
      RingSize(ring[..n]);
      assert (set k | k in ring) == (set k | k in ring[..n]) + {ring[n]};
    }
  }

  lemma RecordKeepsOtherSlots(t: Table, key: Key, dst: Dst)
    requires t.Valid()
    ensures InRing(t) <= InRing(t.Record(key, dst)) + {t.ring[t.pos]}
    ensures key in InRing(t.Record(key, dst))
  {
    var t' := t.Record(key, dst);
    assert t'.ring[t.pos] == key;
    forall k | k in InRing(t) && k != t.ring[t.pos] ensures k in InRing(t') {
      var i :| 0 <= i < |t.ring| && t.ring[i] == k;
      assert t'.ring[i] == k;
    }
  }

  lemma OrphansStayFew(t: Table, op: Op)
    requires t.Valid() && |Orphans(t)| < |t.ring|
    ensures |Orphans(Step(t, op))| < |t.ring|
  {
    var t' := Step(t, op);
    match op
    case Query(key, dst) =>
      RecordKeepsOtherSlots(t, key, dst);
      if |t.pending| >= |t.ring| {
        SubsetSize(Orphans(t'), Orphans(t));
      } else {
        assert Orphans(t') <= t.pending.Keys;
        SubsetSize(Orphans(t'), t.pending.Keys);
      }
    case Response(key) =>
      SubsetSize(Orphans(t'), Orphans(t));
  }

  lemma {:induction false} OrphansStayFewOverRuns(t: Table, ops: seq<Op>)
    requires t.Valid() && |Orphans(t)| < |t.ring|
    ensures |Orphans(Run(t, ops))| < |t.ring|
    decreases |ops|
  {
    if ops != [] {
      OrphansStayFew(t, ops[0]);
      OrphansStayFewOverRuns(Step(t, ops[0]), ops[1..]);
    }
  }

  /** No run makes a shard of n slots hold more than 2n - 1 entries. */
  lemma PendingBound(n: nat, zero: Key, ops: seq<Op>)
    requires n > 0
    ensures |Run(Empty(n, zero), ops).pending| <= 2 * n - 1
  {
    var t := Run(Empty(n, zero), ops);
    OrphansStayFewOverRuns(Empty(n, zero), ops);
    RingSize(t.ring);
    assert t.pending.Keys <= InRing(t) + Orphans(t);
    SubsetSize(t.pending.Keys, InRing(t) + Orphans(t));
    assert |InRing(t) + Orphans(t)| <= |InRing(t)| + |Orphans(t)|;
    assert |t.pending| == |t.pending.Keys|;
  }

  // ----- The ring as a queue

  /** The keys of the ring, oldest first. */
  function Recent(t: Table): (r: seq<Key>)
    requires t.Valid()
    ensures |r| == |t.ring| && r[0] == t.ring[t.pos]
  {
    Rotated(t.ring, t.pos)
  }

  function Rotated(ring: seq<Key>, pos: nat): (r: seq<Key>)
    requires pos < |ring|
  {
    ring[pos..] + ring[..pos]
  }

  lemma RotateNext(ring: seq<Key>, pos: nat, key: Key)
    requires pos < |ring|
    ensures Rotated(ring[pos := key], Advance(pos, |ring|)) == Rotated(ring, pos)[1..] + [key]
  {
    var r := ring[pos := key];
    var before, after := ring[..pos], ring[pos + 1..];
    assert r == before + ([key] + after);
    assert Rotated(ring, pos)[1..] == after + before;
    if pos + 1 == |ring| {
      assert Rotated(r, 0) == r == before + [key];
    } else {
      assert r[pos + 1..] == after && r[..pos + 1] == before + [key];
      assert Rotated(r, pos + 1) == after + (before + [key]);
    }
  }

  /** Overwriting the slot at pos and advancing drops the oldest key and appends the new one. */
  lemma RecordShiftsRing(t: Table, key: Key, dst: Dst)
    requires t.Valid()
    ensures Recent(t.Record(key, dst)) == Recent(t)[1..] + [key]
  {
    RotateNext(t.ring, t.pos, key);
  }

  lemma DropOfShift(r: seq<Key>, k: Key, j: nat)
    requires 1 <= j <= |r|
    ensures (r[1..] + [k])[j - 1..] == r[j..] + [k]
  {
    assert r[1..][j - 1..] == r[j..];
  }

  // ----- Retention

  predicate Mentions(op: Op, key: Key) { op.key == key }

  function QueryCount(ops: seq<Op>): (n: nat)
    ensures n <= |ops|
  {
    if ops == [] then 0 else (if ops[0].Query? then 1 else 0) + QueryCount(ops[1..])
  }

  /** A full table met a copy of the key in the slot it was about to overwrite. */
  ghost predicate Evicted(t: Table, ops: seq<Op>, key: Key)
    requires t.Valid()
    decreases |ops|
  {
    ops != [] && (
      (ops[0].Query? && |t.pending| >= |t.ring| && t.ring[t.pos] == key)
      || Evicted(Step(t, ops[0]), ops[1..], key))
  }

  /** An entry that nobody touches is lost exactly if an eviction hits a slot naming it. */
  lemma {:induction false} LostOnlyByEviction(t: Table, ops: seq<Op>, key: Key)
    requires t.Valid() && key in t.pending
    requires forall op :: op in ops ==> !Mentions(op, key)
    ensures Run(t, ops).Lookup(key) == if Evicted(t, ops, key) then None else Some(t.pending[key])
    decreases |ops|
  {
    if ops != [] {
      assert !Mentions(ops[0], key);
      var t' := Step(t, ops[0]);
      if key in t'.pending {
        LostOnlyByEviction(t', ops[1..], key);
      } else {
        StaysLost(t', ops[1..], key);
      }
      assert key in t'.pending ==> !(ops[0].Query? && |t.pending| >= |t.ring| && t.ring[t.pos] == key);
    }
  }

  lemma {:induction false} StaysLost(t: Table, ops: seq<Op>, key: Key)
    requires t.Valid() && key !in t.pending
    requires forall op :: op in ops ==> !Mentions(op, key)
    ensures key !in Run(t, ops).pending
    decreases |ops|
  {
    if ops != [] {
      assert !Mentions(ops[0], key);
      StaysLost(Step(t, ops[0]), ops[1..], key);
    }
  }

  /** With no copy of the key among the m oldest slots, m queries cannot evict it. */
  lemma {:induction false} SafeForQueries(t: Table, ops: seq<Op>, key: Key, m: nat)
    requires t.Valid() && m <= |t.ring| && key !in Recent(t)[..m] && QueryCount(ops) <= m
    requires forall op :: op in ops ==> !Mentions(op, key)
    ensures !Evicted(t, ops, key)
    decreases |ops|
  {
    if ops != [] {
      var op, rest := ops[0], ops[1..];
      assert !Mentions(op, key);
      if op.Query? {
        RecordShiftsRing(t, op.key, op.dst);
        assert Recent(t)[..m][0] == t.ring[t.pos];
        var r' := Recent(Step(t, op));
        forall i | 0 <= i < m - 1 ensures r'[i] != key { assert r'[i] == Recent(t)[..m][i + 1]; }
        SafeForQueries(Step(t, op), rest, key, m - 1);
      } else {
        SafeForQueries(Step(t, op), rest, key, m);
      }
    }
  }

  /** Retention: a query whose key no slot of the ring names when it is recorded is still
      answered with its own destination after any responses for other keys and up to
      n - 1 later queries with other keys. */
  lemma Retention(t: Table, key: Key, dst: Dst, ops: seq<Op>)
    requires t.Valid() && key !in t.ring
    requires forall op :: op in ops ==> !Mentions(op, key)
    requires QueryCount(ops) <= |t.ring| - 1
    ensures Run(t.Record(key, dst), ops).Lookup(key) == Some(dst)
  {
    var t', n := t.Record(key, dst), |t.ring|;
    RecordShiftsRing(t, key, dst);
    forall i | 0 <= i < n - 1 ensures Recent(t')[i] != key {
      assert Recent(t')[i] == Recent(t)[i + 1];
      assert Recent(t)[i + 1] in t.ring;
    }
    SafeForQueries(t', ops, key, n - 1);
    LostOnlyByEviction(t', ops, key);
  }

  lemma RunTwo(t: Table, a: Op, b: Op)
    requires t.Valid()
    ensures Run(t, [a, b]) == Step(Step(t, a), b)
  {
    assert [a, b][1..] == [b];
    assert [b][1..] == [];
    assert Run(t, [a, b]) == Run(Step(t, a), [b]) == Run(Step(Step(t, a), b), []);
  }

  // ----- The latest queries

  function Queries(ks: seq<Key>, ds: seq<Dst>): (ops: seq<Op>)
    requires |ks| == |ds|
    ensures |ops| == |ks|
  {
    seq(|ks|, i requires 0 <= i < |ks| => Query(ks[i], ds[i]))
  }

  ghost predicate Distinct(ks: seq<Key>) {
    forall i, j :: 0 <= i < j < |ks| ==> ks[i] != ks[j]
  }

  lemma RunLast(t: Table, ks: seq<Key>, ds: seq<Dst>, k: Key, d: Dst)
    requires t.Valid() && |ks| == |ds|
    ensures Run(t, Queries(ks + [k], ds + [d])) == Run(t, Queries(ks, ds)).Record(k, d)
  {
    var a, q := Queries(ks, ds), Query(k, d);
    assert Queries(ks + [k], ds + [d]) == a + [q];
    RunConcat(t, a, [q]);
    assert [q][1..] == [];
    var u := Run(t, a);
    assert Run(u, [q]) == Run(Step(u, q), []) == Step(u, q);
  }

  ghost function Members(w: seq<Key>): set<Key> { set k | k in w }

  /** The map sends w[i] to dw[i], and nothing else to anything. */
  ghost predicate MapIs(p: map<Key, Dst>, w: seq<Key>, dw: seq<Dst>) {
    && |w| == |dw| == |p|
    && p.Keys == Members(w)
    && (forall i :: 0 <= i < |w| ==> p[w[i]] == dw[i])
  }

  lemma MapAppend(p: map<Key, Dst>, w: seq<Key>, dw: seq<Dst>, k: Key, d: Dst)
    requires MapIs(p, w, dw) && k !in w
    ensures MapIs(p[k := d], w + [k], dw + [d])
  {
    var p', w' := p[k := d], w + [k];
    assert p'.Keys == p.Keys + {k} == Members(w');
    forall i | 0 <= i < |w'| ensures p'[w'[i]] == (dw + [d])[i] {
      if i < |w| { assert w'[i] == w[i] && w[i] != k; }
    }
  }

  lemma MapDropFirst(p: map<Key, Dst>, k: Key, w: seq<Key>, d: Dst, dw: seq<Dst>)
    requires MapIs(p, [k] + w, [d] + dw) && k !in w
    ensures MapIs(p - {k}, w, dw)
  {
    var p' := p - {k};
    assert k in [k] + w;
    assert p'.Keys == p.Keys - {k} == Members(w);
    assert |p'.Keys| == |p.Keys| - 1;
    forall i | 0 <= i < |w| ensures p'[w[i]] == dw[i] {
      assert ([k] + w)[i + 1] == w[i] && ([d] + dw)[i + 1] == dw[i];
    }
  }

  /** The table holds exactly the entries w -> dw, and its ring names them last, in order. */
  ghost predicate Holds(t: Table, w: seq<Key>, dw: seq<Dst>) {
    && t.Valid() && |w| <= |t.ring|
    && Recent(t)[|t.ring| - |w|..] == w
    && MapIs(t.pending, w, dw)
  }

  lemma RecordWithRoom(t: Table, w: seq<Key>, dw: seq<Dst>, k: Key, d: Dst)
    requires Holds(t, w, dw) && |w| < |t.ring| && k !in w
    ensures Holds(t.Record(k, d), w + [k], dw + [d])
  {
    hide MapIs, Recent, Members;
    MapSize(t.pending, w, dw);
    RecordShiftsRing(t, k, d);
    MapAppend(t.pending, w, dw, k, d);
    DropOfShift(Recent(t), k, |t.ring| - |w|);
  }

  lemma MapSize(p: map<Key, Dst>, w: seq<Key>, dw: seq<Dst>)
    requires MapIs(p, w, dw)
    ensures |p| == |w| == |dw|
  {
  }

  lemma RecordWhenFull(t: Table, o: Key, w: seq<Key>, od: Dst, dw: seq<Dst>, k: Key, d: Dst)
    requires Holds(t, [o] + w, [od] + dw) && |w| + 1 == |t.ring| && k !in [o] + w && o !in w
    ensures Holds(t.Record(k, d), w + [k], dw + [d])
  {
    RecordShiftsRing(t, k, d);
    assert Recent(t)[0..] == Recent(t) == [o] + w;
    assert Recent(t)[1..] == w;
    MapDropFirst(t.pending, o, w, od, dw);
    assert k in [o] + w || k !in w;
    MapAppend(t.pending - {o}, w, dw, k, d);
  }

  /** The last n elements, or all. */
  function Latest<T>(s: seq<T>, n: nat): (w: seq<T>)
    ensures |w| == if |s| < n then |s| else n
  {
    if |s| < n then s else s[|s| - n..]
  }

  lemma LatestOfLonger<T>(s: seq<T>, x: T, n: nat)
    requires n > 0
    ensures |s| < n ==> Latest(s, n) == s && Latest(s + [x], n) == s + [x]
    ensures |s| >= n ==> Latest(s, n) == [s[|s| - n]] + s[|s| - n + 1..]
    ensures |s| >= n ==> Latest(s + [x], n) == s[|s| - n + 1..] + [x]
  {
  }

  /** With distinct keys and no responses, a shard holds exactly the latest n queries. */
  lemma {:induction false} HoldsLatest(n: nat, zero: Key, ks: seq<Key>, ds: seq<Dst>)
    requires n > 0 && |ks| == |ds| && Distinct(ks)
    ensures Holds(Run(Empty(n, zero), Queries(ks, ds)), Latest(ks, n), Latest(ds, n))
    decreases |ks|
  {
    if ks == [] {
      HoldsNothing(n, zero, ks, ds);
    } else {
      var l := |ks| - 1;
      assert ks == ks[..l] + [ks[l]] && ds == ds[..l] + [ds[l]];
      HoldsLatest(n, zero, ks[..l], ds[..l]);
      HoldsLatestStep(n, zero, ks[..l], ds[..l], ks[l], ds[l]);
    }
  }

  lemma HoldsNothing(n: nat, zero: Key, ks: seq<Key>, ds: seq<Dst>)
    requires n > 0 && ks == [] && ds == []
    ensures Holds(Run(Empty(n, zero), Queries(ks, ds)), Latest(ks, n), Latest(ds, n))
  {
    assert Queries(ks, ds) == [];
    assert Run(Empty(n, zero), []) == Empty(n, zero);
  }

  lemma HoldsLatestStep(n: nat, zero: Key, ks: seq<Key>, ds: seq<Dst>, k: Key, d: Dst)
    requires n > 0 && |ks| == |ds| && Distinct(ks) && k !in ks
    requires Holds(Run(Empty(n, zero), Queries(ks, ds)), Latest(ks, n), Latest(ds, n))
    ensures Holds(Run(Empty(n, zero), Queries(ks + [k], ds + [d])), Latest(ks + [k], n), Latest(ds + [d], n))
  {
    HoldsOneMore(n, Run(Empty(n, zero), Queries(ks, ds)), ks, ds, k, d);
    RunLast(Empty(n, zero), ks, ds, k, d);
  }

  lemma HoldsOneMore(n: nat, t: Table, ks: seq<Key>, ds: seq<Dst>, k: Key, d: Dst)
    requires |t.ring| == n > 0 && t.Valid() && |ks| == |ds| && Distinct(ks) && k !in ks
    requires Holds(t, Latest(ks, n), Latest(ds, n))
    ensures Holds(t.Record(k, d), Latest(ks + [k], n), Latest(ds + [d], n))
  {
    hide Holds, Table.Record, Latest, Distinct;
    LatestOfLonger(ks, k, n);
    LatestOfLonger(ds, d, n);
    if |ks| < n {
      RecordWithRoom(t, ks, ds, k, d);
    } else {
      SplitWindow(n, t, ks, ds, k);
      var i := |ks| - n;
      RecordWhenFull(t, ks[i], ks[i + 1..], ds[i], ds[i + 1..], k, d);
    }
  }

  lemma SplitWindow(n: nat, t: Table, ks: seq<Key>, ds: seq<Dst>, k: Key)
    requires 0 < n <= |ks| == |ds| && Distinct(ks) && k !in ks
    requires Holds(t, Latest(ks, n), Latest(ds, n))
    ensures var i := |ks| - n;
            && Holds(t, [ks[i]] + ks[i + 1..], [ds[i]] + ds[i + 1..])
            && ks[i] !in ks[i + 1..] && k !in [ks[i]] + ks[i + 1..]
  {
    LatestOfLonger(ks, k, n);
    LatestOfLonger(ds, ds[0], n);
    assert k !in ks[|ks| - n..];
  }

  // ----- Without the condition of Retention

  /** A key in the second oldest slot of a ring with one entry missing is gone after two
      queries: the first fills the table, the second evicts it. */
  lemma SecondOldestIsEvicted(t: Table, k: Key, y: Key, z: Key, dy: Dst, dz: Dst)
    requires t.Valid() && |t.ring| >= 2 && Recent(t)[1] == k && |t.pending| == |t.ring| - 1
    requires y !in t.pending && z != k
    ensures Run(t, [Query(y, dy), Query(z, dz)]).Lookup(k) == None
  {
    RunTwo(t, Query(y, dy), Query(z, dz));
    RecordShiftsRing(t, y, dy);
    var u := t.Record(y, dy);
    assert u.ring[u.pos] == Recent(u)[0] == k;
    assert u.pending.Keys == t.pending.Keys + {y} && |u.pending| == |u.pending.Keys|;
  }

  /** In a ring of any size from three on: a key that is queried again while its first copy
      is the second oldest of n - 1 entries loses its newest destination to two later
      queries, although n - 1 of them would spare a key without a copy. */
  lemma StaleCopyEvictsNewest(n: nat, zero: Key, x: Key, k: Key, rest: seq<Key>, ds: seq<Dst>, d: Dst,
                              y: Key, z: Key, dy: Dst, dz: Dst)
    requires n >= 3 && |rest| == n - 3 && |ds| == n - 1
    requires Distinct([x, k] + rest) && y !in [x, k] + rest && z != k
    ensures var t := Run(Empty(n, zero), Queries([x, k] + rest, ds));
            && k in t.ring && t.Lookup(k) == Some(ds[1])
            && t.Record(k, d).Lookup(k) == Some(d)
            && Run(t.Record(k, d), [Query(y, dy), Query(z, dz)]).Lookup(k) == None
  {
    hide *;
    var ks := [x, k] + rest;
    var t := Run(Empty(n, zero), Queries(ks, ds));
    HoldsLatest(n, zero, ks, ds);
    LatestOfLonger(ks, k, n);
    LatestOfLonger(ds, d, n);
    NotAmong(ks, y);
    StaleCopy(t, ks, ds, k, d);
    SecondOldestIsEvicted(t.Record(k, d), k, y, z, dy, dz);
  }

  lemma NotAmong(ks: seq<Key>, y: Key)
    requires y !in ks
    ensures y !in Members(ks)
  {
  }

  lemma StaleCopy(t: Table, ks: seq<Key>, ds: seq<Dst>, k: Key, d: Dst)
    requires Holds(t, ks, ds) && |ks| >= 2 && ks[1] == k && |ks| == |t.ring| - 1
    ensures var u := t.Record(k, d);
            && k in t.ring && t.Lookup(k) == Some(ds[1]) && u.Lookup(k) == Some(d)
            && Recent(u)[1] == k && |u.pending| == |u.ring| - 1 && u.pending.Keys == Members(ks)
  {
    hide Recent, Run;
    var u := t.Record(k, d);
    assert Recent(t)[2] == Recent(t)[1..][1] == k;
    InRecent(t, 2);
    RecordShiftsRing(t, k, d);
    assert k in Members(ks);
    assert u.pending.Keys == t.pending.Keys && |u.pending| == |u.pending.Keys| && |t.pending| == |t.pending.Keys|;
  }

  lemma InRecent(t: Table, i: nat)
    requires t.Valid() && i < |t.ring|
    ensures Recent(t)[i] in t.ring
  {
  }

  // ----- When a shard grows past its ring

  /** A query adds an entry exactly if its key is new and no entry is evicted for it. */
  lemma RecordGrowsIff(t: Table, key: Key, dst: Dst)
    requires t.Valid()
    ensures |t.Record(key, dst).pending| > |t.pending| <==>
              key !in t.pending && (|t.pending| < |t.ring| || t.ring[t.pos] !in t.pending)
    ensures |t.Record(key, dst).pending| <= |t.pending| + 1
  {
    var evicts := |t.pending| >= |t.ring|;
    var kept := if evicts then t.pending - {t.ring[t.pos]} else t.pending;
    var r := t.Record(key, dst).pending;
    assert kept.Keys == t.pending.Keys - if evicts then {t.ring[t.pos]} else {};
    assert r.Keys == kept.Keys + {key};
    assert |r| == |r.Keys| && |t.pending| == |t.pending.Keys|;
  }

  /** A shard comes to hold more entries than its ring has slots exactly when a query with a
      new key meets a full table whose next slot names a key that is not pending. */
  lemma PassesRingSizeIff(t: Table, key: Key, dst: Dst)
    requires t.Valid() && |t.pending| <= |t.ring|
    ensures |t.Record(key, dst).pending| > |t.ring| <==>
              |t.pending| == |t.ring| && t.ring[t.pos] !in t.pending && key !in t.pending
  {
    hide Table.Record;
    RecordGrowsIff(t, key, dst);
  }

  // ----- The size bound is reached

  /** n rounds of a query for key j and its response. */
  function Echoes(j: Key, d: Dst, n: nat): seq<Op> {
    if n == 0 then [] else Echoes(j, d, n - 1) + [Query(j, d), Response(j)]
  }

  ghost predicate Only(r: seq<Key>, j: Key) { forall k :: k in r ==> k == j }

  lemma EchoOnce(t: Table, j: Key, d: Dst)
    requires t.Valid() && |t.pending| < |t.ring| && j !in t.pending
    ensures var u := Run(t, [Query(j, d), Response(j)]);
            u.pending == t.pending && Recent(u) == Recent(t)[1..] + [j]
  {
    RunTwo(t, Query(j, d), Response(j));
    RecordShiftsRing(t, j, d);
    assert t.Record(j, d).pending == t.pending[j := d];
  }

  /** Nothing pending has changed, and the n newest ring slots name j. */
  ghost predicate Echoed(t: Table, u: Table, j: Key, n: nat) {
    && u.Valid() && |u.ring| == |t.ring| && n <= |t.ring|
    && u.pending == t.pending && Only(Recent(u)[|t.ring| - n..], j)
  }

  lemma EchoedOnce(t: Table, u: Table, j: Key, d: Dst, n: nat)
    requires t.Valid() && |t.pending| < |t.ring| && j !in t.pending && n < |t.ring|
    requires Echoed(t, u, j, n)
    ensures Echoed(t, Run(u, [Query(j, d), Response(j)]), j, n + 1)
  {
    EchoOnce(u, j, d);
    DropOfShift(Recent(u), j, |t.ring| - n);
  }

  lemma EchoOnceMore(t: Table, before: seq<Op>, j: Key, d: Dst, n: nat)
    requires t.Valid() && |t.pending| < |t.ring| && j !in t.pending && n < |t.ring|
    requires Echoed(t, Run(t, before), j, n)
    ensures Echoed(t, Run(t, before + [Query(j, d), Response(j)]), j, n + 1)
  {
    EchoedOnce(t, Run(t, before), j, d, n);
    RunConcat(t, before, [Query(j, d), Response(j)]);
  }

  lemma {:induction false} EchoesLeaveCopies(t: Table, j: Key, d: Dst, n: nat)
    requires t.Valid() && |t.pending| < |t.ring| && j !in t.pending && n <= |t.ring|
    ensures Echoed(t, Run(t, Echoes(j, d, n)), j, n)
  {
    if n > 0 {
      EchoesLeaveCopies(t, j, d, n - 1);
      EchoOnceMore(t, Echoes(j, d, n - 1), j, d, n - 1);
    }
  }

  /** New keys find room as long as the slots they overwrite name a key not pending. */
  lemma {:induction false} FillOverCopies(t: Table, j: Key, ks: seq<Key>, ds: seq<Dst>)
    requires t.Valid() && |ks| == |ds| <= |t.ring| && Distinct(ks) && j !in ks && j !in t.pending
    requires forall k :: k in ks ==> k !in t.pending
    requires forall i :: 0 <= i < |ks| ==> Recent(t)[i] == j
    ensures |Run(t, Queries(ks, ds)).pending| == |t.pending| + |ks|
    decreases |ks|
  {
    if ks != [] {
      var t' := t.Record(ks[0], ds[0]);
      RecordShiftsRing(t, ks[0], ds[0]);
      assert t.pending - {j} == t.pending;
      assert t'.pending == t.pending[ks[0] := ds[0]];
      assert Queries(ks, ds)[1..] == Queries(ks[1..], ds[1..]);
      assert ks[0] !in ks[1..];
      forall i | 0 <= i < |ks| - 1 ensures Recent(t')[i] == j { assert Recent(t')[i] == Recent(t)[i + 1]; }
      FillOverCopies(t', j, ks[1..], ds[1..]);
    }
  }

  /** The bound 2n - 1 is reached: n - 1 queries that stay pending, n echoes that leave the
      ring full of one answered key, and n more queries. */
  lemma PendingBoundIsReached(n: nat, zero: Key, a: seq<Key>, j: Key, c: seq<Key>, ad: seq<Dst>, cd: seq<Dst>)
    requires n > 0 && |a| == |ad| == n - 1 && |c| == |cd| == n
    requires Distinct(a) && Distinct(c) && j !in a && j !in c && Members(a) !! Members(c)
    ensures var ops := Queries(a, ad) + Echoes(j, cd[0], n) + Queries(c, cd);
            |Run(Empty(n, zero), ops).pending| == 2 * n - 1
  {
    var t0 := Empty(n, zero);
    HoldsLatest(n, zero, a, ad);
    var t := Run(t0, Queries(a, ad));
    assert t.pending.Keys == Members(a);
    EchoesLeaveCopies(t, j, cd[0], n);
    var u := Run(t, Echoes(j, cd[0], n));
    forall k | k in c ensures k !in u.pending { assert k in Members(c); }
    forall i | 0 <= i < n ensures Recent(u)[i] == j { assert Recent(u)[i] in Recent(u)[0..]; }
    FillOverCopies(u, j, c, cd);
    RunConcat(t0, Queries(a, ad), Echoes(j, cd[0], n));
    RunConcat(t0, Queries(a, ad) + Echoes(j, cd[0], n), Queries(c, cd));
  }
}
