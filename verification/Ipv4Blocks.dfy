/** Aligned IPv4 blocks, and the split of an address interval into the fewest of them. */
module Ipv4Blocks {
  import Multiples

  /** Inclusive address interval; empty when `end < start`. */
  datatype Interval = Interval(start: int, end: int)

  /** A block of `2^(32 - prefix)` addresses (CIDR notation, section 3.1 of RFC 4632). */
  datatype Cidr = Cidr(address: int, prefix: nat)

  ghost predicate In(a: int, i: Interval) {
    i.start <= a <= i.end
  }

  function Pow2(n: nat): (r: nat)
    ensures r >= 1
  {
    if n == 0 then 1 else 2 * Pow2(n - 1)
  }

  function PrefixSize(prefix: nat): (r: nat)
    requires prefix <= 32
    ensures r >= 1
  {
    Pow2(32 - prefix)
  }

  const ADDRESSES: nat := 0x1_0000_0000

  function CidrInterval(c: Cidr): Interval
    requires c.prefix <= 32
  {
    Interval(c.address, c.address + PrefixSize(c.prefix) - 1)
  }

  /** Host bits are zero. */
  predicate Aligned(c: Cidr) {
    c.prefix <= 32 && c.address % PrefixSize(c.prefix) == 0
  }

  ghost predicate AllAligned(blocks: seq<Cidr>) {
    forall k :: 0 <= k < |blocks| ==> Aligned(blocks[k])
  }

  ghost predicate BlocksCover(blocks: seq<Cidr>, a: int)
    requires AllAligned(blocks)
  {
    exists k :: 0 <= k < |blocks| && In(a, CidrInterval(blocks[k]))
  }

  ghost predicate Partition(blocks: seq<Cidr>, i: Interval)
    requires AllAligned(blocks)
  {
    forall a :: BlocksCover(blocks, a) <==> In(a, i)
  }

  /** The blocks follow each other without a gap from `start` to `end`. */
  ghost predicate Tiles(blocks: seq<Cidr>, start: int, end: int)
    requires AllAligned(blocks)
  {
    if blocks == [] then end < start
    else
      var size := PrefixSize(blocks[0].prefix);
      && blocks[0].address == start
      && start + size - 1 <= end
      && Tiles(blocks[1..], start + size, end)
  }

  /** No aligned block of twice the size starts here and ends by `end`. */
  ghost predicate CannotDouble(b: Cidr, end: int)
    requires b.prefix <= 32
  {
    b.prefix == 0
    || b.address % PrefixSize(b.prefix - 1) != 0
    || end < b.address + PrefixSize(b.prefix - 1) - 1
  }

  ghost predicate Greedy(blocks: seq<Cidr>, end: int)
    requires AllAligned(blocks)
  {
    forall k :: 0 <= k < |blocks| ==> CannotDouble(blocks[k], end)
  }

  // ---------------------------------------------------------------- powers of two

  lemma {:induction false} Pow2Add(a: nat, b: nat)
    ensures Pow2(a + b) == Pow2(a) * Pow2(b)
  {
    if a > 0 {
      Pow2Add(a - 1, b);
      assert Pow2(a + b) == 2 * Pow2(a - 1 + b) && Pow2(a) == 2 * Pow2(a - 1);
      hide Pow2;
      Doubled(Pow2(a - 1), Pow2(b));
    }
  }

  lemma Doubled(x: nat, y: nat)
    ensures (2 * x) * y == 2 * (x * y)
  {
  }

  lemma Pow2Mono(a: nat, b: nat)
    requires a <= b
    ensures Pow2(a) <= Pow2(b)
  {
    if a < b { Pow2Mono(a, b - 1); }
  }

  lemma Pow2Of32()
    ensures Pow2(32) == ADDRESSES
  {
    assert Pow2(8) == 256;
    Pow2Add(8, 8);
    Pow2Add(16, 16);
  }

  /** A coarser alignment is a finer one. */
  lemma AlignedFiner(x: int, fine: nat, coarse: nat)
    requires fine <= coarse && x % Pow2(coarse) == 0
    ensures x % Pow2(fine) == 0
  {
    Pow2Add(coarse - fine, fine);
    Multiples.Finer(x, Pow2(coarse - fine), Pow2(fine));
  }

  /** Two aligned blocks that share an address are nested. */
  lemma Nested(small: Cidr, large: Cidr, a: int)
    requires Aligned(small) && Aligned(large) && large.prefix <= small.prefix
    requires In(a, CidrInterval(small)) && In(a, CidrInterval(large))
    ensures large.address <= small.address
    ensures CidrInterval(small).end <= CidrInterval(large).end
  {
    var q, m := Pow2(small.prefix - large.prefix), PrefixSize(small.prefix);
    Pow2Add(small.prefix - large.prefix, 32 - small.prefix);
    assert PrefixSize(large.prefix) == q * m;
    Multiples.NestedRanges(small.address, large.address, q, m);
  }

  /** The two halves of an aligned range are aligned. */
  lemma Halves(base: int, k: nat)
    requires k > 0 && base % Pow2(k) == 0
    ensures base % Pow2(k - 1) == 0 && (base + Pow2(k - 1)) % Pow2(k - 1) == 0
  {
    AlignedFiner(base, k - 1, k);
    Multiples.Next(base, 1, Pow2(k - 1));
  }

  // ---------------------------------------------------------------- tilings

  lemma CoverHeadTail(blocks: seq<Cidr>, a: int)
    requires AllAligned(blocks) && blocks != []
    ensures BlocksCover(blocks, a) <==> In(a, CidrInterval(blocks[0])) || BlocksCover(blocks[1..], a)
  {
    var rest := blocks[1..];
    if BlocksCover(rest, a) {
      var k :| 0 <= k < |rest| && In(a, CidrInterval(rest[k]));
      assert blocks[k + 1] == rest[k];
    }
    if k :| 0 < k < |blocks| && In(a, CidrInterval(blocks[k])) {
      assert rest[k - 1] == blocks[k];
    }
  }

  lemma {:induction false} TilesIsPartition(blocks: seq<Cidr>, start: int, end: int)
    requires AllAligned(blocks) && Tiles(blocks, start, end)
    ensures Partition(blocks, Interval(start, end))
  {
    if blocks != [] {
      var rest, size := blocks[1..], PrefixSize(blocks[0].prefix);
      TilesIsPartition(rest, start + size, end);
      forall a ensures BlocksCover(blocks, a) <==> In(a, Interval(start, end)) {
        CoverHeadTail(blocks, a);
        assert In(a, Interval(start + size, end)) <==> BlocksCover(rest, a);
        assert In(a, Interval(start, start + size - 1)) <==> In(a, CidrInterval(blocks[0]));
      }
    }
  }

  lemma {:induction false} TilesOrder(blocks: seq<Cidr>, start: int, end: int, i: nat)
    requires AllAligned(blocks) && Tiles(blocks, start, end) && i < |blocks|
    ensures start <= blocks[i].address && CidrInterval(blocks[i]).end <= end
    ensures forall j :: i < j < |blocks| ==> CidrInterval(blocks[i]).end < blocks[j].address
  {
    var rest, next := blocks[1..], start + PrefixSize(blocks[0].prefix);
    if i > 0 {
      TilesOrder(rest, next, end, i - 1);
      assert rest[i - 1] == blocks[i];
      forall j | i < j < |blocks| ensures CidrInterval(blocks[i]).end < blocks[j].address {
        assert rest[j - 1] == blocks[j];
      }
    } else {
      forall j | 0 < j < |blocks| ensures next <= blocks[j].address {
        TilesOrder(rest, next, end, j - 1);
        assert rest[j - 1] == blocks[j];
      }
    }
  }

  lemma {:induction false} TilesConcat(left: seq<Cidr>, right: seq<Cidr>, start: int, mid: int, end: int)
    requires AllAligned(left) && AllAligned(right) && AllAligned(left + right)
    requires Tiles(left, start, mid - 1) && Tiles(right, mid, end) && start <= mid <= end + 1
    requires left == [] ==> start == mid
    ensures Tiles(left + right, start, end)
  {
    if left == [] {
      assert left + right == right;
    } else {
      assert (left + right)[1..] == left[1..] + right;
      assert left[1..] == [] ==> start + PrefixSize(left[0].prefix) == mid;
      TilesConcat(left[1..], right, start + PrefixSize(left[0].prefix), mid, end);
    }
  }

  /** Every aligned block inside a greedily tiled interval lies inside one of the tiles. */
  lemma {:induction false} BlockInsideOneTile(blocks: seq<Cidr>, start: int, end: int, x: Cidr) returns (m: nat)
    requires AllAligned(blocks) && Tiles(blocks, start, end) && Greedy(blocks, end)
    requires Aligned(x) && start <= x.address && CidrInterval(x).end <= end
    ensures m < |blocks|
    ensures blocks[m].address <= x.address && CidrInterval(x).end <= CidrInterval(blocks[m]).end
  {
    var first := blocks[0];
    if In(x.address, CidrInterval(first)) {
      m := 0;
      if x.prefix >= first.prefix {
        Nested(x, first, x.address);
      } else {
        // A larger block would start where the tile starts: the tile could be doubled.
        Nested(first, x, x.address);
        AlignedFiner(x.address, 32 - (first.prefix - 1), 32 - x.prefix);
        Pow2Mono(32 - (first.prefix - 1), 32 - x.prefix);
        assert false;
      }
    } else {
      var rest := blocks[1..];
      forall k | 0 <= k < |rest| ensures CannotDouble(rest[k], end) {
        assert rest[k] == blocks[k + 1];
      }
      var k := BlockInsideOneTile(rest, start + PrefixSize(first.prefix), end, x);
      m := k + 1;
    }
  }

  lemma InjectionBound(f: seq<nat>, n: nat)
    requires forall i :: 0 <= i < |f| ==> f[i] < n
    requires forall i, j :: 0 <= i < j < |f| ==> f[i] != f[j]
    ensures |f| <= n
  {
    RangeSize(n);
    ImageSize(f);
    SubsetSize(set i | 0 <= i < |f| :: f[i], Below(n));
  }

  ghost function Below(n: nat): set<nat> {
    if n == 0 then {} else Below(n - 1) + {n - 1}
  }

  lemma {:induction false} RangeSize(n: nat)
    ensures |Below(n)| == n
    ensures forall k: nat :: k in Below(n) <==> k < n
  {
    if n > 0 { RangeSize(n - 1); }
  }

  lemma {:induction false} ImageSize(f: seq<nat>)
    requires forall i, j :: 0 <= i < j < |f| ==> f[i] != f[j]
    ensures |set i | 0 <= i < |f| :: f[i]| == |f|
  {
    if f != [] {
      var g, last := f[..|f| - 1], f[|f| - 1];
      ImageSize(g);
      var image := set i | 0 <= i < |g| :: g[i];
      assert last !in image;
      assert (set i | 0 <= i < |f| :: f[i]) == image + {last} by {
        forall x | x in image ensures x in set i | 0 <= i < |f| :: f[i] {
          var i :| 0 <= i < |g| && g[i] == x;
          assert f[i] == x;
        }
      }
    }
  }

  lemma {:induction false} SubsetSize<T>(a: set<T>, b: set<T>)
    requires a <= b
    ensures |a| <= |b|
  {
    if a != {} {
      var x :| x in a;
      SubsetSize(a - {x}, b - {x});
    }
  }

  /** Any block of another cover that holds the start of a tile lies inside that tile. */
  lemma TileIsHit(blocks: seq<Cidr>, i: Interval, other: seq<Cidr>, n: nat) returns (j: nat)
    requires AllAligned(blocks) && Tiles(blocks, i.start, i.end) && Greedy(blocks, i.end)
    requires AllAligned(other) && Partition(other, i) && n < |blocks|
    ensures j < |other|
    ensures blocks[n].address <= other[j].address
    ensures CidrInterval(other[j]).end <= CidrInterval(blocks[n]).end
  {
    var p := blocks[n].address;
    TilesOrder(blocks, i.start, i.end, n);
    assert BlocksCover(other, p);
    j :| j < |other| && In(p, CidrInterval(other[j]));
    var x := other[j];
    assert In(x.address, i) by { assert In(x.address, CidrInterval(other[j])) && BlocksCover(other, x.address); }
    var last := CidrInterval(x).end;
    assert In(last, i) by { assert In(last, CidrInterval(other[j])) && BlocksCover(other, last); }
    var m := BlockInsideOneTile(blocks, i.start, i.end, x);
    if m < n { TilesOrder(blocks, i.start, i.end, m); }
  }

  /** A greedy tiling is the shortest list of aligned blocks with its union. */
  lemma GreedyIsShortest(blocks: seq<Cidr>, i: Interval, other: seq<Cidr>)
    requires AllAligned(blocks) && Tiles(blocks, i.start, i.end) && Greedy(blocks, i.end)
    requires AllAligned(other) && Partition(other, i)
    ensures |blocks| <= |other|
  {
    var f: seq<nat> := [];
    while |f| < |blocks|
      invariant |f| <= |blocks|
      invariant forall n :: 0 <= n < |f| ==>
        f[n] < |other|
        && blocks[n].address <= other[f[n]].address
        && CidrInterval(other[f[n]]).end <= CidrInterval(blocks[n]).end
    {
      var j := TileIsHit(blocks, i, other, |f|);
      f := f + [j];
    }
    forall a, b | 0 <= a < b < |f| ensures f[a] != f[b] {
      TilesOrder(blocks, i.start, i.end, a);
    }
    InjectionBound(f, |other|);
  }

  // ---------------------------------------------------------------- at most 62 blocks

  /** Covers the first `n` addresses of the block of `2^k` addresses at `base`. */
  ghost function LowCover(k: nat, base: int, n: nat): (r: seq<Cidr>)
    requires k <= 32 && n <= Pow2(k) && base % Pow2(k) == 0
    ensures AllAligned(r) && Tiles(r, base, base + n - 1)
    ensures n == Pow2(k) ==> |r| == 1
    ensures n < Pow2(k) ==> |r| <= k
    ensures n == 0 <==> r == []
  {
    if n == 0 then []
    else if n == Pow2(k) then
      var r := [Cidr(base, 32 - k)];
      assert r[1..] == [];
      r
    else
      var half := Pow2(k - 1);
      assert base % half == 0 && (base + half) % half == 0 by { Halves(base, k); }
      if n <= half then LowCover(k - 1, base, n)
      else
        var rest := LowCover(k - 1, base + half, n - half);
        var r := [Cidr(base, 32 - (k - 1))] + rest;
        assert r[1..] == rest;
        r
  }

  lemma AppendBlock(low: seq<Cidr>, block: Cidr, start: int)
    requires AllAligned(low) && Aligned(block) && Tiles(low, start, block.address - 1)
    requires low != [] && start <= block.address
    ensures AllAligned(low + [block]) && Tiles(low + [block], start, CidrInterval(block).end)
  {
    var high := [block];
    assert high[1..] == [] && Tiles(high, block.address, CidrInterval(block).end);
    TilesConcat(low, high, start, block.address, CidrInterval(block).end);
  }

  /** Covers the last `n` addresses of the block of `2^k` addresses at `base`. */
  ghost function HighCover(k: nat, base: int, n: nat): (r: seq<Cidr>)
    requires k <= 32 && n <= Pow2(k) && base % Pow2(k) == 0
    ensures AllAligned(r) && Tiles(r, base + Pow2(k) - n, base + Pow2(k) - 1)
    ensures n == Pow2(k) ==> |r| == 1
    ensures n < Pow2(k) ==> |r| <= k
    ensures n == 0 <==> r == []
  {
    if n == 0 then []
    else if n == Pow2(k) then
      var r := [Cidr(base, 32 - k)];
      assert r[1..] == [];
      r
    else
      var half := Pow2(k - 1);
      var mid := base + half;
      assert base % half == 0 && (base + half) % half == 0 by { Halves(base, k); }
      if n <= half then HighCover(k - 1, mid, n)
      else
        var low := HighCover(k - 1, base, n - half);
        var high := Cidr(mid, 32 - (k - 1));
        AppendBlock(low, high, base + Pow2(k) - n);
        low + [high]
  }

  /** Covers an interval around `mid`, the start of the upper of two halves of `2^k` addresses. */
  ghost function StraddlingCover(k: nat, mid: int, i: Interval): (r: seq<Cidr>)
    requires k < 32 && mid % Pow2(k) == 0 && (mid - Pow2(k)) % Pow2(k) == 0
    requires mid - Pow2(k) <= i.start < mid <= i.end < mid + Pow2(k)
    requires i.start != mid - Pow2(k) || i.end != mid + Pow2(k) - 1
    ensures AllAligned(r) && Tiles(r, i.start, i.end)
    ensures k > 0 && |r| <= 2 * k
  {
    var low := HighCover(k, mid - Pow2(k), mid - i.start);
    var high := LowCover(k, mid, i.end + 1 - mid);
    assert Tiles(low + high, i.start, i.end) by {
      TilesConcat(low, high, i.start, mid, i.end);
    }
    low + high
  }

  /** Some cover of an interval inside the block of `2^k` addresses at `base`. */
  ghost function DyadicCover(k: nat, base: int, i: Interval): (r: seq<Cidr>)
    requires k <= 32 && base % Pow2(k) == 0
    requires base <= i.start <= i.end < base + Pow2(k)
    ensures AllAligned(r) && Tiles(r, i.start, i.end)
    ensures |r| <= if k < 2 then 1 else 2 * (k - 1)
  {
    if i.start == base && i.end == base + Pow2(k) - 1 then
      LowCover(k, base, Pow2(k))
    else
      var mid := base + Pow2(k - 1);
      Halves(base, k);
      if i.end < mid then DyadicCover(k - 1, base, i)
      else if mid <= i.start then DyadicCover(k - 1, mid, i)
      else StraddlingCover(k - 1, mid, i)
  }

  lemma GreedyAtMost62(blocks: seq<Cidr>, i: Interval)
    requires 0 <= i.start && i.end < ADDRESSES
    requires AllAligned(blocks) && Tiles(blocks, i.start, i.end) && Greedy(blocks, i.end)
    ensures |blocks| <= 62
  {
    if i.start <= i.end {
      Pow2Of32();
      var cover := DyadicCover(32, 0, i);
      TilesIsPartition(cover, i.start, i.end);
      GreedyIsShortest(blocks, i, cover);
    }
  }

  // ---------------------------------------------------------------- the split

  lemma AppendTile(blocks: seq<Cidr>, i: Interval, block: Cidr)
    requires AllAligned(blocks) && Tiles(blocks, i.start, block.address - 1)
    requires Greedy(blocks, i.end) && (blocks == [] ==> block.address == i.start)
    requires Aligned(block) && i.start <= block.address && CannotDouble(block, i.end)
    ensures AllAligned(blocks + [block]) && Greedy(blocks + [block], i.end)
    ensures Tiles(blocks + [block], i.start, CidrInterval(block).end)
  {
    assert [block][1..] == [];
    TilesConcat(blocks, [block], i.start, block.address, CidrInterval(block).end);
  }

  /** What a greedy tiling of an address range promises. */
  lemma GreedyTiling(blocks: seq<Cidr>, i: Interval)
    requires 0 <= i.start && i.end < ADDRESSES
    requires AllAligned(blocks) && Tiles(blocks, i.start, i.end) && Greedy(blocks, i.end)
    ensures Partition(blocks, i)
    ensures forall j, k :: 0 <= j < k < |blocks| ==> CidrInterval(blocks[j]).end < blocks[k].address
    ensures forall other :: AllAligned(other) && Partition(other, i) ==> |blocks| <= |other|
    ensures |blocks| <= 62
  {
    TilesIsPartition(blocks, i.start, i.end);
    forall j, k | 0 <= j < k < |blocks| ensures CidrInterval(blocks[j]).end < blocks[k].address {
      TilesOrder(blocks, i.start, i.end, j);
    }
    forall other | AllAligned(other) && Partition(other, i) ensures |blocks| <= |other| {
      GreedyIsShortest(blocks, i, other);
    }
    GreedyAtMost62(blocks, i);
  }

  /** Aligned blocks that tile the interval in order, as few as any such tiling has. */
  method IntervalToCidrs(interval: Interval) returns (blocks: seq<Cidr>)
    requires 0 <= interval.start && interval.end < ADDRESSES
    ensures AllAligned(blocks) && Partition(blocks, interval)
    ensures forall j, k :: 0 <= j < k < |blocks| ==> CidrInterval(blocks[j]).end < blocks[k].address
    ensures forall other :: AllAligned(other) && Partition(other, interval) ==> |blocks| <= |other|
    ensures |blocks| <= 62
    ensures Tiles(blocks, interval.start, interval.end) && Greedy(blocks, interval.end)
  {
    blocks := [];
    var start := interval.start;
    while start <= interval.end
      invariant interval.start <= start
      invariant start <= interval.end + 1 || start == interval.start
      invariant AllAligned(blocks) && Greedy(blocks, interval.end)
      invariant Tiles(blocks, interval.start, start - 1)
      invariant blocks == [] ==> start == interval.start
    {
      var prefix := 32;
      while
        && prefix > 0
        && start % PrefixSize(prefix - 1) == 0
        && start + PrefixSize(prefix - 1) - 1 <= interval.end
        invariant 0 <= prefix <= 32
        invariant start % PrefixSize(prefix) == 0
        invariant start + PrefixSize(prefix) - 1 <= interval.end
      {
        prefix := prefix - 1;
      }
      var block := Cidr(start, prefix);
      AppendTile(blocks, interval, block);
      blocks := blocks + [block];
      start := start + PrefixSize(prefix);
    }
    GreedyTiling(blocks, interval);
  }

  /** A single block is its own split: the split undoes `CidrInterval`. */
  lemma SplitOfBlock(c: Cidr, blocks: seq<Cidr>)
    requires Aligned(c)
    requires AllAligned(blocks) && Tiles(blocks, c.address, CidrInterval(c).end)
    requires Greedy(blocks, CidrInterval(c).end)
    ensures blocks == [c]
  {
    var end := CidrInterval(c).end;
    var first := blocks[0];
    var m := BlockInsideOneTile(blocks, c.address, end, c);
    if m > 0 { TilesOrder(blocks, c.address, end, 0); }
    assert PrefixSize(first.prefix) == PrefixSize(c.prefix);
    if first.prefix < c.prefix { Pow2Mono(32 - c.prefix, 32 - first.prefix - 1); }
    if c.prefix < first.prefix { Pow2Mono(32 - first.prefix, 32 - c.prefix - 1); }
    if |blocks| > 1 { TilesOrder(blocks, c.address, end, 1); TilesOrder(blocks, c.address, end, 0); }
  }
}
