/** What the greedy prefixes of a range are: an exact tiling, and a smallest cover. */
module RangeCover {
  import opened Pow2
  import opened IPRange

  // ----- Exact, ordered, disjoint

  /** The blocks follow each other without gap or overlap, from c to b. */
  ghost predicate Tiles(g: seq<Block>, c: nat, b: nat, W: nat) {
    && |g| > 0
    && g[0].start == c
    && g[|g| - 1].End() == b + 1
    && (forall i :: 0 <= i < |g| - 1 ==> g[i].End() == g[i + 1].start)
    && (forall i :: 0 <= i < |g| ==> g[i].Cidr(W))
  }

  lemma TilesFrom(first: Block, rest: seq<Block>, b: nat, W: nat)
    requires first.Cidr(W)
    requires if rest == [] then first.End() == b + 1 else Tiles(rest, first.End(), b, W)
    ensures Tiles([first] + rest, first.start, b, W)
  {
    hide Exp2;
  }

  lemma FirstIsCidr(c: nat, b: nat, W: nat)
    requires c <= b < Exp2(W)
    ensures Block(c, Largest(c, b, W)).Cidr(W) && c < Block(c, Largest(c, b, W)).End() <= b + 1
  {
    hide Exp2, Grow;
  }

  lemma {:induction false} GreedyTiles(c: nat, b: nat, W: nat)
    requires c <= b < Exp2(W)
    ensures Tiles(Greedy(c, b, W), c, b, W)
    decreases b - c
  {
    hide Exp2, Largest, Tiles, Block.Cidr;
    var first := Block(c, Largest(c, b, W));
    FirstIsCidr(c, b, W);
    if first.End() <= b {
      GreedyTiles(first.End(), b, W);
      assert Greedy(first.End(), b, W) != [];
    } else {
      assert Greedy(first.End(), b, W) == [];
    }
    TilesFrom(first, Greedy(first.End(), b, W), b, W);
  }

  lemma {:induction false} TilesInOrder(g: seq<Block>, c: nat, b: nat, W: nat, i: nat, j: nat)
    requires Tiles(g, c, b, W) && i < j < |g|
    ensures c <= g[i].start && g[i].End() <= g[j].start && g[j].End() <= b + 1
    decreases j - i, |g| - j, i
  {
    if i + 1 < j {
      TilesInOrder(g, c, b, W, i, j - 1);
    } else {
      if j + 1 < |g| { TilesInOrder(g, c, b, W, j, j + 1); }
      if i > 0 { TilesBefore(g, c, b, W, i); }
    }
    if j + 1 < |g| { TilesAfter(g, c, b, W, j); }
  }

  lemma {:induction false} TilesBefore(g: seq<Block>, c: nat, b: nat, W: nat, i: nat)
    requires Tiles(g, c, b, W) && i < |g|
    ensures c <= g[i].start
    decreases i
  {
    if i > 0 { TilesBefore(g, c, b, W, i - 1); }
  }

  lemma {:induction false} TilesAfter(g: seq<Block>, c: nat, b: nat, W: nat, i: nat)
    requires Tiles(g, c, b, W) && i < |g|
    ensures g[i].End() <= b + 1
    decreases |g| - i
  {
    if i + 1 < |g| { TilesAfter(g, c, b, W, i + 1); }
  }

  ghost predicate InSome(g: seq<Block>, x: nat) {
    exists i :: 0 <= i < |g| && g[i].Has(x)
  }

  lemma InSomeSplit(g: seq<Block>, first: Block, rest: seq<Block>, x: nat)
    requires g == [first] + rest
    ensures InSome(g, x) <==> first.Has(x) || InSome(rest, x)
  {
    if first.Has(x) { assert g[0].Has(x); }
    if i :| 0 <= i < |rest| && rest[i].Has(x) { assert g[i + 1].Has(x); }
    if i :| 0 <= i < |g| && g[i].Has(x) && i > 0 { assert rest[i - 1].Has(x); }
  }

  /** The prefixes cover exactly the addresses of the range. */
  lemma {:induction false} GreedyCovers(c: nat, b: nat, W: nat, x: nat)
    ensures InSome(Greedy(c, b, W), x) <==> c <= x <= b
    decreases b + 1 - c
  {
    if c <= b {
      var first := Block(c, Largest(c, b, W));
      GreedyCovers(first.End(), b, W, x);
      InSomeSplit(Greedy(c, b, W), first, Greedy(first.End(), b, W), x);
    }
  }

  // ----- A smallest cover

  ghost predicate InUnion(S: set<Block>, x: nat) {
    exists s :: s in S && s.Has(x)
  }

  /** S is a set of CIDR blocks whose union is exactly [c, b]. */
  ghost predicate Covers(S: set<Block>, c: nat, b: nat, W: nat) {
    && (forall s :: s in S ==> s.Cidr(W))
    && (forall x: nat :: InUnion(S, x) <==> c <= x <= b)
  }

  /** Aligned blocks nest or avoid each other, so a block of any cover that
      starts inside the first greedy block lies inside it. */
  lemma InsideFirst(s: Block, c: nat, b: nat, W: nat)
    requires c <= b && s.Cidr(W)
    requires c <= s.start < c + Exp2(Largest(c, b, W)) && s.End() <= b + 1
    ensures s.End() <= c + Exp2(Largest(c, b, W))
  {
    var h := Largest(c, b, W);
    if s.h <= h {
      AlignedDown(c, s.h, h);
      Exp2IsMultiple(s.h, h);
      MultiplesAdd(c, Exp2(h), Exp2(s.h));
      AlignedApart(s.start, c + Exp2(h), Exp2(s.h));
    } else {
      AlignedDown(s.start, h, s.h);
      if c < s.start { AlignedApart(c, s.start, Exp2(h)); }
      GrowIsLargest(c, b, 0, W, s.h);
    }
  }

  lemma Exp2IsMultiple(a: nat, b: nat)
    requires a <= b
    ensures Exp2(b) % Exp2(a) == 0
  {
    Exp2Adds(b - a, a);
    DivModUnique(Exp2(b), Exp2(a), Exp2(b - a), 0);
  }

  lemma MultiplesAdd(x: int, y: int, d: int)
    requires 0 < d && x % d == 0 && y % d == 0
    ensures (x + y) % d == 0
  {
    var p, q := x / d, y / d;
    assert (p + q) * d == p * d + q * d;
    DivModUnique(x + y, d, p + q, 0);
  }

  lemma InUnionOf(S: set<Block>, s: Block, x: nat)
    requires s in S && s.Has(x)
    ensures InUnion(S, x)
  {
  }

  /** Dropping the blocks inside the first greedy block leaves a cover of the rest. */
  lemma CoverWithoutFirst(c: nat, b: nat, W: nat, S: set<Block>, e: nat, outside: set<Block>)
    requires c <= b && Covers(S, c, b, W)
    requires e == c + Exp2(Largest(c, b, W))
    requires outside == set s | s in S && e <= s.start
    ensures Covers(outside, e, b, W)
    ensures |outside| < |S|
  {
    forall s | s in S ensures c <= s.start && s.End() <= b + 1 {
      InUnionOf(S, s, s.start);
      InUnionOf(S, s, s.End() - 1);
    }
    forall x: nat ensures InUnion(outside, x) <==> e <= x <= b {
      if e <= x <= b {
        assert InUnion(S, x);
        var s :| s in S && s.Has(x);
        if s.start < e { InsideFirst(s, c, b, W); }
        InUnionOf(outside, s, x);
      }
      if s :| s in outside && s.Has(x) {
        assert s in S && s.Has(x);
        assert InUnion(S, x);
      }
    }
    assert InUnion(S, c);
    var first :| first in S && first.Has(c);
    assert first !in outside;
    ProperSubsetIsSmaller(outside, S, first);
  }

  lemma ProperSubsetIsSmaller(A: set<Block>, B: set<Block>, x: Block)
    requires A <= B && x in B && x !in A
    ensures |A| < |B|
  {
    assert A <= B - {x};
    var rest := (B - {x}) - A;
    assert B - {x} == A + rest;
    assert |B - {x}| == |A| + |rest|;
  }

  /** No set of CIDR blocks with exactly this union has fewer members. */
  lemma {:induction false} GreedyIsSmallest(c: nat, b: nat, W: nat, S: set<Block>)
    requires Covers(S, c, b, W)
    ensures |Greedy(c, b, W)| <= |S|
    decreases b + 1 - c
  {
    if c <= b {
      var e := c + Exp2(Largest(c, b, W));
      var outside := set s | s in S && e <= s.start;
      CoverWithoutFirst(c, b, W, S, e, outside);
      GreedyIsSmallest(e, b, W, outside);
    }
  }

  function Members(g: seq<Block>): set<Block> { set s | s in g }

  lemma {:induction false} DistinctMembers(g: seq<Block>)
    requires forall i, j :: 0 <= i < j < |g| ==> g[i] != g[j]
    ensures |Members(g)| == |g|
  {
    if g != [] {
      var n := |g| - 1;
      DistinctMembers(g[..n]);
      assert Members(g) == Members(g[..n]) + {g[n]};
      assert g[n] !in Members(g[..n]);
    }
  }

  /** The prefixes returned for a range are a minimum-size cover of it. */
  lemma MinimumCover(c: nat, b: nat, W: nat)
    requires c <= b < Exp2(W)
    ensures Covers(Members(Greedy(c, b, W)), c, b, W)
    ensures |Members(Greedy(c, b, W))| == |Greedy(c, b, W)|
    ensures forall S :: Covers(S, c, b, W) ==> |Greedy(c, b, W)| <= |S|
  {
    var g := Greedy(c, b, W);
    GreedyTiles(c, b, W);
    forall i, j | 0 <= i < j < |g| ensures g[i] != g[j] { TilesInOrder(g, c, b, W, i, j); }
    DistinctMembers(g);
    forall x: nat ensures InUnion(Members(g), x) <==> c <= x <= b {
      GreedyCovers(c, b, W, x);
      if s :| s in Members(g) && s.Has(x) {
        var i :| 0 <= i < |g| && g[i] == s;
        assert InSome(g, x);
      }
      if i :| 0 <= i < |g| && g[i].Has(x) { InUnionOf(Members(g), g[i], x); }
    }
    forall S | Covers(S, c, b, W) ensures |g| <= |S| { GreedyIsSmallest(c, b, W, S); }
  }

  // ----- How many prefixes a range can need

  /** A greedy block that alignment does not limit leaves less than its own size. */
  lemma LimitedByFit(c: nat, b: nat, W: nat)
    requires c <= b
    ensures var h := Largest(c, b, W);
            h < W && c % Exp2(h + 1) == 0 ==> b + 1 < c + 2 * Exp2(h) && (c + Exp2(h)) % Exp2(h) == 0
  {
    var h := Largest(c, b, W);
    if h < W && c % Exp2(h + 1) == 0 {
      assert Exp2(h + 1) == 2 * Exp2(h);
      if Exp2(h + 1) <= b + 1 - c { GrowIsLargest(c, b, 0, W, h + 1); }
      AlignedNext(c, Exp2(h));
    }
  }

  /** Less than 2^k addresses from a 2^k-aligned one take at most k blocks. */
  lemma {:induction false} DescendingCount(c: nat, b: nat, W: nat, k: nat)
    requires k <= W && c % Exp2(k) == 0 && c <= b + 1 && b + 1 - c < Exp2(k)
    ensures |Greedy(c, b, W)| <= k
    decreases k
  {
    if c <= b {
      var h := Largest(c, b, W);
      if k <= h { Exp2Monotone(k, h); }
      AlignedDown(c, h + 1, k);
      LimitedByFit(c, b, W);
      DescendingCount(c + Exp2(h), b, W, h);
    }
  }

  lemma OddMultipleNext(c: nat, k: nat)
    requires c % Exp2(k) == 0 && c % Exp2(k + 1) != 0
    ensures (c + Exp2(k)) % Exp2(k + 1) == 0
  {
    var d := Exp2(k);
    var q := c / d;
    assert c == q * d;
    if q % 2 == 0 {
      assert q * d == (q / 2) * (2 * d) by { MulAssoc(q / 2, 2, d); }
      DivModUnique(c, 2 * d, q / 2, 0);
    } else {
      assert q + 1 == (q + 1) / 2 * 2;
      MulAssoc((q + 1) / 2, 2, d);
      assert (q + 1) * d == q * d + d;
      DivModUnique(c + d, 2 * d, (q + 1) / 2, 0);
    }
  }

  lemma PositiveMultiple(c: nat, d: nat)
    requires 0 < d && 0 < c && c % d == 0
    ensures d <= c
  {
    AlignedApart(0, c, d);
  }

  /** A positive address a family holds is a multiple of less than 2^W. */
  lemma AlignmentBelowWidth(c: nat, h: nat, W: nat)
    requires 0 < c < Exp2(W) && c % Exp2(h) == 0
    ensures h < W
  {
    PositiveMultiple(c, Exp2(h));
    if W <= h { Exp2Monotone(W, h); }
  }

  lemma {:induction false} AscendingCount(c: nat, b: nat, W: nat, k: nat)
    requires 2 <= W && k < W && 0 < c && c % Exp2(k) == 0 && b < Exp2(W)
    ensures |Greedy(c, b, W)| <= 2 * W - 2 - k
    decreases W - k
  {
    if c <= b {
      var h := Largest(c, b, W);
      AlignmentBelowWidth(c, h, W);
      if h > k {
        AscendingCount(c, b, W, h);
      } else if h < k || c % Exp2(h + 1) == 0 {
        if h < k { AlignedDown(c, h + 1, k); }
        AlignmentBelowWidth(c, h + 1, W);
        LimitedByFit(c, b, W);
        DescendingCount(c + Exp2(h), b, W, h);
      } else {
        AscendingStep(c, b, W, h);
        if c + Exp2(h) <= b { AscendingCount(c + Exp2(h), b, W, h + 1); }
      }
    }
  }

  lemma AscendingStep(c: nat, b: nat, W: nat, h: nat)
    requires 0 < c <= b < Exp2(W) && h == Largest(c, b, W) && c % Exp2(h + 1) != 0
    ensures (c + Exp2(h)) % Exp2(h + 1) == 0
    ensures c + Exp2(h) <= b ==> h + 1 < W
    ensures c + Exp2(h) > b ==> Greedy(c + Exp2(h), b, W) == []
  {
    OddMultipleNext(c, h);
    if c + Exp2(h) <= b { AlignmentBelowWidth(c + Exp2(h), h + 1, W); }
  }

  /** A range of a W-bit family takes at most 2W - 2 prefixes. */
  lemma AtMostTwoPerBit(c: nat, b: nat, W: nat)
    requires 2 <= W && b < Exp2(W)
    ensures |Greedy(c, b, W)| <= 2 * W - 2
  {
    if c > 0 {
      AscendingCount(c, b, W, 0);
    } else if b + 1 < Exp2(W) {
      DescendingCount(0, b, W, W);
    } else {
      GrowIsLargest(0, b, 0, W, W);
      assert Greedy(Exp2(W), b, W) == [];
    }
  }

  lemma {:induction false} DescendingExact(c: nat, b: nat, W: nat, k: nat)
    requires k < W && c % Exp2(k) == 0 && b + 2 == c + Exp2(k)
    ensures |Greedy(c, b, W)| == k
    decreases k
  {
    if k > 0 {
      AlignedDown(c, k - 1, k);
      GrowIsLargest(c, b, 0, W, k - 1);
      var h := Largest(c, b, W);
      if h >= k { Exp2Monotone(k, h); }
      AlignedNext(c, Exp2(k - 1));
      DescendingExact(c + Exp2(k - 1), b, W, k - 1);
    }
  }

  lemma {:induction false} AscendingExact(b: nat, W: nat, k: nat)
    requires k < W && b + 2 == Exp2(W)
    ensures |Greedy(Exp2(k), b, W)| == 2 * W - 2 - k
    decreases W - k
  {
    var c := Exp2(k);
    DivModUnique(c, c, 1, 0);
    if k == W - 1 {
      DescendingExact(c, b, W, k);
    } else {
      Exp2Monotone(k + 2, W);
      GrowIsLargest(c, b, 0, W, k);
      var h := Largest(c, b, W);
      if h > k {
        Exp2Monotone(k, h);
        DivModUnique(c, Exp2(h), 0, c);
      }
      AscendingExact(b, W, k + 1);
    }
  }

  /** The bound is met: 1 .. 2^W - 2 takes exactly 2W - 2 prefixes. */
  lemma TwoPerBitIsNeeded(W: nat)
    requires 2 <= W
    ensures Exp2(W) >= 4 && |Greedy(1, Exp2(W) - 2, W)| == 2 * W - 2
  {
    Exp2Monotone(2, W);
    assert Exp2(0) == 1;
    AscendingExact(Exp2(W) - 2, W, 0);
  }

  // ----- The route test of a connection

  /** Compare of two addresses: shorter families first, then by value. */
  function Compare(a: Addr, b: Addr): (r: int) {
    if a.BitLen() != b.BitLen() then a.BitLen() - b.BitLen()
    else if a.value < b.value then -1
    else if a.value > b.value then 1
    else 0
  }

  /** The test a connection applies to a destination against an advertised range. */
  predicate InRoute(start: Addr, end: Addr, dst: Addr) {
    !(Compare(start, dst) > 0 || Compare(dst, end) > 0)
  }

  lemma ContainsIsHas(block: Block, x: nat)
    requires block.start % Exp2(block.h) == 0
    ensures x / Exp2(block.h) == block.start / Exp2(block.h) <==> block.Has(x)
  {
    var d := Exp2(block.h);
    var q := block.start / d;
    assert block.start == q * d && x == (x / d) * d + x % d;
    if block.Has(x) { DivModUnique(x, d, q, x - block.start); }
  }

  lemma PrefixHas(is4: bool, block: Block, dst: Addr)
    requires block.h <= (if is4 then 32 else 128) && block.start % Exp2(block.h) == 0
    ensures AsPrefix(is4, block).Contains(dst) <==> dst.is4 == is4 && block.Has(dst.value)
  {
    hide Exp2;
    ContainsIsHas(block, dst.value);
  }

  lemma NothingToCover(c: nat, b: nat, W: nat)
    requires c > b
    ensures Greedy(c, b, W) == []
  {
  }

  lemma RouteIsRange(start: Addr, end: Addr, dst: Addr)
    requires start.is4 == end.is4
    ensures InRoute(start, end, dst) <==> dst.is4 == start.is4 && start.value <= dst.value <= end.value
  {
  }

  /** The route test accepts a destination exactly if one of the range's prefixes contains it. */
  lemma RouteTestIsPrefixTest(start: Addr, end: Addr, dst: Addr, prefixes: seq<Prefix>)
    requires start.Valid() && end.Valid() && start.is4 == end.is4
    requires forall i :: 0 <= i < |Greedy(start.value, end.value, start.BitLen())| ==>
                         Greedy(start.value, end.value, start.BitLen())[i].h <= start.BitLen()
    requires prefixes == AsPrefixes(start.is4, Greedy(start.value, end.value, start.BitLen()))
    ensures InRoute(start, end, dst) <==>
            exists i :: 0 <= i < |prefixes| && prefixes[i].Contains(dst)
  {
    hide Exp2, Greedy, InRoute, Prefix.Contains, Block.Has, AsPrefix;
    var g := Greedy(start.value, end.value, start.BitLen());
    RouteIsRange(start, end, dst);
    GreedyCovers(start.value, end.value, start.BitLen(), dst.value);
    if start.value > end.value {
      assert g == [] by { NothingToCover(start.value, end.value, start.BitLen()); }
    } else {
      GreedyTiles(start.value, end.value, start.BitLen());
    }
    forall i | 0 <= i < |g|
      ensures prefixes[i].Contains(dst) <==> dst.is4 == start.is4 && g[i].Has(dst.value)
    {
      assert g[i].Cidr(start.BitLen());
      PrefixHas(start.is4, g[i], dst);
    }
  }
}
