/**
  The sharded availability index: its geometry, where a message lives in it, and its
  operations.  The hash of a key is a parameter, so everything holds for every hash.
 */
module Index {
  import opened Words
  import opened Blocks
  import opened Rotation

  type Hasher = Key -> Fingerprint

  /** Bytes of one block: two hashes, two tags, two bitmaps, padded to eight. */
  const BLOCK_BYTES: nat := 40

  /** `blocks` is the number of blocks of one generation over all shards. */
  datatype Geometry = Geometry(generations: nat, blocks: nat, interval: u64, shards: nat, ttl: u64)

  predicate Sane(geo: Geometry) {
    && geo.generations >= 1 && 1 <= geo.shards <= Max(geo.blocks, 1)
    && geo.interval == IntervalFor(geo.ttl, geo.generations)
  }

  /** Partitions one allocation budget; never more shards than blocks of a generation. */
  function GeometryFor(capacityBytes: u64, ttl: u64, generationCount: nat, shardCount: nat): (geo: Geometry)
    ensures Sane(geo) && geo.ttl == ttl
    ensures geo.generations * geo.blocks * BLOCK_BYTES <= capacityBytes
  {
    var total := capacityBytes / BLOCK_BYTES;
    var generations := Min(Max(generationCount, 1), Max(total, 1));
    var blocks := if total == 0 then 0 else total / generations;
    QuotientBelow(total, generations);
    Geometry(generations, blocks, IntervalFor(ttl, generations), Min(Max(shardCount, 1), Max(blocks, 1)), ttl)
  }

  lemma QuotientBelow(x: nat, d: nat)
    requires d > 0
    ensures d * (x / d) <= x
  {
    assert x == d * (x / d) + x % d;
  }

  /**
    The budget is used up: as many generations and shards as asked for, where each can have
    a block, and as many blocks in each generation as fit.
   */
  lemma BudgetIsUsed(capacityBytes: u64, ttl: u64, generationCount: nat, shardCount: nat)
    ensures var geo := GeometryFor(capacityBytes, ttl, generationCount, shardCount);
            && (capacityBytes < BLOCK_BYTES ==> geo.generations == 1 && geo.blocks == 0)
            && (capacityBytes >= BLOCK_BYTES ==>
                  && geo.generations * (geo.blocks + 1) * BLOCK_BYTES > capacityBytes
                  && geo.generations * BLOCK_BYTES <= capacityBytes)
            && (1 <= generationCount && generationCount * BLOCK_BYTES <= capacityBytes ==>
                  geo.generations == generationCount)
            && (generationCount * BLOCK_BYTES > capacityBytes >= BLOCK_BYTES ==>
                  (geo.generations + 1) * BLOCK_BYTES > capacityBytes)
            && (1 <= shardCount <= geo.blocks ==> geo.shards == shardCount)
            && (shardCount > geo.blocks > 0 ==> geo.shards == geo.blocks)
            && (shardCount == 0 || geo.blocks == 0 ==> geo.shards == 1)
  {
    hide IntervalFor;
    var total := capacityBytes / BLOCK_BYTES;
    if total > 0 {
      QuotientAbove(total, GeometryFor(capacityBytes, ttl, generationCount, shardCount).generations);
    }
  }

  lemma QuotientAbove(x: nat, d: nat)
    requires d > 0
    ensures d * (x / d + 1) > x
  {
    assert x == d * (x / d) + x % d;
    assert d * (x / d + 1) == d * (x / d) + d;
  }

  /** Remainder and quotient of a block number by the shard count, by repeated subtraction. */
  function Home(n: nat, g: nat): (s: nat)
    requires n > 0
    ensures s < n
  {
    if g < n then g else Home(n, g - n)
  }

  function Seat(n: nat, g: nat): nat
    requires n > 0
  {
    if g < n then 0 else 1 + Seat(n, g - n)
  }

  lemma {:induction false} PlaceSums(n: nat, g: nat)
    requires n > 0
    ensures g == Seat(n, g) * n + Home(n, g)
  {
    if g >= n {
      PlaceSums(n, g - n);
      assert (1 + Seat(n, g - n)) * n == Seat(n, g - n) * n + n;
    }
  }

  lemma HomeAndSeat(n: nat, g: nat)
    requires n > 0
    ensures g == Seat(n, g) * n + Home(n, g)
    ensures Home(n, g) == g % n && Seat(n, g) == g / n
  {
    PlaceSums(n, g);
    var q := Seat(n, g);
    assert (q + 1) * n == q * n + n;
    QuotientIs(g, n, q);
    assert g == g / n * n + g % n;
  }

  /** Blocks of one shard: an even share, plus one for the first shards. */
  function ShardBlocks(geo: Geometry, s: nat): nat
    requires geo.shards > 0
  {
    Seat(geo.shards, geo.blocks) + if s < Home(geo.shards, geo.blocks) then 1 else 0
  }

  function ShardShape(geo: Geometry, s: nat): Shape
    requires geo.shards > 0
  {
    Shape(geo.generations, ShardBlocks(geo, s), geo.interval)
  }

  /** The block of a hash in an unpartitioned generation. */
  function GlobalBlock(geo: Geometry, hash: u64): (g: nat)
    ensures geo.blocks > 0 ==> g < geo.blocks
  {
    if geo.blocks == 0 then 0 else Xor(hash / 0x1_0000_0000, hash) % geo.blocks
  }

  function ShardOf(geo: Geometry, hash: u64): (s: nat)
    requires geo.shards > 0
    ensures s < geo.shards
  {
    Home(geo.shards, GlobalBlock(geo, hash))
  }

  function LocalBlock(geo: Geometry, hash: u64): nat
    requires geo.shards > 0
  {
    Seat(geo.shards, GlobalBlock(geo, hash))
  }

  lemma {:induction false} SeatInBounds(n: nat, g: nat, blocks: nat)
    requires n > 0 && g < blocks
    ensures Seat(n, g) < Seat(n, blocks) + if Home(n, g) < Home(n, blocks) then 1 else 0
  {
    if g >= n {
      SeatInBounds(n, g - n, blocks - n);
    }
  }

  /** A global block lands inside its shard. */
  lemma BlockInBounds(geo: Geometry, g: nat)
    requires geo.shards > 0 && g < geo.blocks
    ensures Seat(geo.shards, g) < ShardBlocks(geo, Home(geo.shards, g))
  {
    SeatInBounds(geo.shards, g, geo.blocks);
  }

  /** Every block of every shard is the image of exactly one global block. */
  lemma BlockFromShard(geo: Geometry, s: nat, l: nat)
    requires geo.shards > 0 && s < geo.shards && l < ShardBlocks(geo, s)
    ensures var g := l * geo.shards + s;
            g < geo.blocks && Home(geo.shards, g) == s && Seat(geo.shards, g) == l
  {
    var n: nat, b, c := geo.shards, Seat(geo.shards, geo.blocks), Home(geo.shards, geo.blocks);
    HomeAndSeat(n, geo.blocks);
    var g := l * n + s;
    assert (l + 1) * n == l * n + n;
    HomeAndSeat(n, g);
    QuotientIs(g, n, l);
    MulOrder(l + 1, b, n);
  }

  /** Blocks of the first `n` shards. */
  function BlocksBelow(geo: Geometry, n: nat): nat
    requires geo.shards > 0
  {
    if n == 0 then 0 else BlocksBelow(geo, n - 1) + ShardBlocks(geo, n - 1)
  }

  lemma {:induction false} BlocksBelowInClosedForm(geo: Geometry, n: nat)
    requires 0 < geo.shards && n <= geo.shards
    ensures BlocksBelow(geo, n) == n * Seat(geo.shards, geo.blocks) + Min(n, Home(geo.shards, geo.blocks))
  {
    if n > 0 {
      BlocksBelowInClosedForm(geo, n - 1);
      var b := Seat(geo.shards, geo.blocks);
      assert n * b == (n - 1) * b + b;
    }
  }

  /** The shards together hold exactly the blocks of the budget. */
  lemma ShardsCoverBudget(geo: Geometry)
    requires geo.shards > 0
    ensures BlocksBelow(geo, geo.shards) == geo.blocks
  {
    BlocksBelowInClosedForm(geo, geo.shards);
    HomeAndSeat(geo.shards, geo.blocks);
  }

  // ---------- state and operations ----------

  /** The shards and the latch that is set by the first recorded fact. */
  datatype Index = Index(geo: Geometry, shards: seq<Shard>, populated: bool)

  ghost predicate Fit(idx: Index) {
    && Sane(idx.geo) && |idx.shards| == idx.geo.shards
    && forall s :: 0 <= s < |idx.shards| ==> Fits(ShardShape(idx.geo, s), idx.shards[s].window)
  }

  function Empty(geo: Geometry): (idx: Index)
    requires Sane(geo)
    ensures Fit(idx)
  {
    Index(geo, seq(geo.shards, s requires 0 <= s < geo.shards => New(ShardShape(geo, s))), false)
  }

  /** How the keys of one shard are placed; keys of other shards do not matter. */
  function RouteIn(geo: Geometry, h: Hasher, s: nat): Route
    requires Sane(geo)
  {
    key => Spot(h(key), if ShardOf(geo, h(key).hash) == s then LocalBlock(geo, h(key).hash) else 0)
  }

  lemma RoutesIn(geo: Geometry, h: Hasher, s: nat)
    requires Sane(geo) && s < geo.shards
    ensures Routes(ShardShape(geo, s), RouteIn(geo, h, s))
  {
    forall key | ShardShape(geo, s).blocks != 0
      ensures RouteIn(geo, h, s)(key).block < ShardShape(geo, s).blocks
    {
      if ShardOf(geo, h(key).hash) == s {
        if geo.blocks > 0 {
          BlockInBounds(geo, GlobalBlock(geo, h(key).hash));
        }
      }
    }
  }

  /** Operations without an effect on any shard: an empty key, no provider, a zero time to live. */
  predicate Ignored(idx: Index, op: Op) {
    || (op.Note? && (op.key == [] || op.bits == NO_SLOTS || idx.geo.ttl == 0))
    || (op.Lookup? && !idx.populated)
  }

  /** An operation reaches the shard of its key; an entry count or a snapshot reaches all. */
  predicate Touches(geo: Geometry, h: Hasher, op: Op, s: nat)
    requires Sane(geo)
  {
    op.Sweep? || ShardOf(geo, h(op.key).hash) == s
  }

  function ApplyShard(idx: Index, h: Hasher, op: Op, s: nat): (shard: Shard)
    requires Fit(idx) && s < idx.geo.shards
    ensures Fits(ShardShape(idx.geo, s), shard.window)
  {
    RoutesIn(idx.geo, h, s);
    if Touches(idx.geo, h, op, s) then Apply(ShardShape(idx.geo, s), RouteIn(idx.geo, h, s), idx.shards[s], op)
    else idx.shards[s]
  }

  function ApplyIndex(h: Hasher, idx: Index, op: Op): (idx': Index)
    requires Fit(idx)
    ensures Fit(idx') && idx'.geo == idx.geo
  {
    if Ignored(idx, op) then idx
    else
      Index(idx.geo,
            seq(idx.geo.shards, s requires 0 <= s < idx.geo.shards && Fit(idx) => ApplyShard(idx, h, op, s)),
            idx.populated || op.Note?)
  }

  function RunIndex(h: Hasher, idx: Index, ops: seq<Op>): (idx': Index)
    requires Fit(idx)
    ensures Fit(idx') && idx'.geo == idx.geo
  {
    if ops == [] then idx else ApplyIndex(h, RunIndex(h, idx, ops[..|ops| - 1]), ops[|ops| - 1])
  }

  /** One operation on one shard. */
  lemma StepOfShard(h: Hasher, idx: Index, op: Op, s: nat)
    requires Fit(idx) && s < idx.geo.shards
    ensures Routes(ShardShape(idx.geo, s), RouteIn(idx.geo, h, s))
    ensures ApplyIndex(h, idx, op).shards[s] ==
            if !Ignored(idx, op) && Touches(idx.geo, h, op, s)
            then Apply(ShardShape(idx.geo, s), RouteIn(idx.geo, h, s), idx.shards[s], op)
            else idx.shards[s]
  {
    RoutesIn(idx.geo, h, s);
  }

  lemma NoteSetsLatch(h: Hasher, idx: Index, op: Op)
    requires Fit(idx) && op.Note? && op.key != [] && op.bits != NO_SLOTS && idx.geo.ttl != 0
    ensures !Ignored(idx, op) && ApplyIndex(h, idx, op).populated
  {
  }

  /** What a lookup answers: nothing while the latch is not set. */
  function AnswerIndex(h: Hasher, idx: Index, key: Key, now: u64): Mask
    requires Fit(idx)
  {
    var s := ShardOf(idx.geo, h(key).hash);
    RoutesIn(idx.geo, h, s);
    if !idx.populated then NO_SLOTS
    else Answer(ShardShape(idx.geo, s), idx.shards[s].window, RouteIn(idx.geo, h, s)(key), key, now)
  }

  /** An index without blocks answers nothing. */
  lemma NoBlocksNoAnswers(h: Hasher, idx: Index, key: Key, now: u64)
    requires Fit(idx) && idx.geo.blocks == 0
    ensures AnswerIndex(h, idx, key, now) == NO_SLOTS
  {
    HomeAndSeat(idx.geo.shards, 0);
  }

  function EntryCounts(shards: seq<Shard>): seq<nat> {
    seq(|shards|, s requires 0 <= s < |shards| => Occupied(shards[s].window.gens))
  }

  function EvictionCounts(shards: seq<Shard>): seq<nat> {
    seq(|shards|, s requires 0 <= s < |shards| => shards[s].evictions)
  }

  function TotalEntries(idx: Index): nat { Sum(EntryCounts(idx.shards)) }

  function TotalEvictions(idx: Index): nat { Sum(EvictionCounts(idx.shards)) }
}
