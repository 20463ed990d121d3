/**
  Indexes over the same budget with different shard counts.

  Without expiry every shard count gives the same answers, the same number of entries and
  the same number of evictions.
 */
module Sharding {
  import opened Words
  import opened Blocks
  import opened Rotation
  import opened Index

  // ---------- without expiry ----------

  /** The block at global position `g`, in whichever shard it lives. */
  ghost function BlockAt(idx: Index, g: nat): Block
    requires Fit(idx) && g < idx.geo.blocks
  {
    BlockInBounds(idx.geo, g);
    idx.shards[Home(idx.geo.shards, g)].window.gens[0].blocks[Seat(idx.geo.shards, g)]
  }

  /** Nothing rotates, so only the current generation is ever used. */
  ghost predicate Eternal(idx: Index) {
    && Fit(idx) && idx.geo.ttl == U64_MAX
    && forall s, a :: 0 <= s < idx.geo.shards && 1 <= a < idx.geo.generations ==>
         idx.shards[s].window.gens[a] == EmptyGen(ShardBlocks(idx.geo, s))
  }

  /** Two indexes over the same budget with the same content and the same counters. */
  ghost predicate Alike(x: Index, y: Index) {
    && Eternal(x) && Eternal(y) && x.geo.blocks == y.geo.blocks && x.geo.generations == y.geo.generations
    && x.populated == y.populated
    && (forall g :: 0 <= g < x.geo.blocks ==> BlockAt(x, g) == BlockAt(y, g))
    && TotalEntries(x) == TotalEntries(y) && TotalEvictions(x) == TotalEvictions(y)
  }

  lemma RotateIsIdle(sh: Shape, w: Window, now: nat)
    requires |w.gens| == sh.generations && sh.interval == U64_MAX
    ensures Rotate(sh, w, now) == w && Dropped(sh, w, now) == 0
  {
  }

  /** The effect of one insertion on one shard when nothing rotates. */
  lemma NoteOnShard(sh: Shape, s: Shard, spot: Spot, key: Key, bits: Mask, now: u64)
    requires Fits(sh, s.window) && sh.interval == U64_MAX && spot.block < sh.blocks && bits != NO_SLOTS
    ensures var b := s.window.gens[0].blocks[spot.block];
            var w := Record(sh, s.window, spot, key, bits, now);
            && w.gens[0].blocks == s.window.gens[0].blocks[spot.block := InsertBlock(b, spot.fp, key, bits)]
            && w.gens[1..] == s.window.gens[1..]
            && Occupied(w.gens) == Occupied(s.window.gens) + (if OutcomeOf(b, spot.fp, key) == Inserted then 1 else 0)
            && RecordDropped(sh, s.window, spot, key, bits, now) ==
               if OutcomeOf(b, spot.fp, key) == Replaced then 1 else 0
  {
    RotateIsIdle(sh, s.window, now);
    var started := Start(sh, s.window, now);
    var g := InsertGen(started.gens[0], spot.fp, key, bits, spot.block);
    OccupiedUpdate(s.window.gens, 0, g);
    assert Record(sh, s.window, spot, key, bits, now).gens == s.window.gens[0 := g];
  }

  /** The shard an insertion leaves behind. */
  ghost function NotedShard(h: Hasher, idx: Index, key: Key, bits: Mask, now: u64): Shard
    requires Fit(idx) && idx.geo.blocks > 0
  {
    BlockInBounds(idx.geo, GlobalBlock(idx.geo, h(key).hash));
    var s := ShardOf(idx.geo, h(key).hash);
    var spot := Spot(h(key), LocalBlock(idx.geo, h(key).hash));
    var sh, before := ShardShape(idx.geo, s), idx.shards[s];
    Shard(Record(sh, before.window, spot, key, bits, now),
          before.evictions + RecordDropped(sh, before.window, spot, key, bits, now))
  }

  lemma NoteTouchesOneShard(h: Hasher, idx: Index, key: Key, bits: Mask, now: u64)
    requires Fit(idx) && !Ignored(idx, Note(key, bits, now)) && idx.geo.blocks > 0
    ensures ApplyIndex(h, idx, Note(key, bits, now)) ==
            Index(idx.geo, idx.shards[ShardOf(idx.geo, h(key).hash) := NotedShard(h, idx, key, bits, now)], true)
  {
    hide Record, RecordDropped, Rotate;
    RoutesIn(idx.geo, h, ShardOf(idx.geo, h(key).hash));
  }

  /** One insertion: by how much the totals grow. */
  lemma NoteCounts(h: Hasher, idx: Index, key: Key, bits: Mask, now: u64)
    requires Eternal(idx) && !Ignored(idx, Note(key, bits, now)) && idx.geo.blocks > 0
    ensures var idx' := ApplyIndex(h, idx, Note(key, bits, now));
            var b := BlockAt(idx, GlobalBlock(idx.geo, h(key).hash));
            && TotalEntries(idx') == TotalEntries(idx) + (if OutcomeOf(b, h(key), key) == Inserted then 1 else 0)
            && TotalEvictions(idx') == TotalEvictions(idx) + (if OutcomeOf(b, h(key), key) == Replaced then 1 else 0)
  {
    var s, spot := ShardOf(idx.geo, h(key).hash), Spot(h(key), LocalBlock(idx.geo, h(key).hash));
    NoteTouchesOneShard(h, idx, key, bits, now);
    BlockInBounds(idx.geo, GlobalBlock(idx.geo, h(key).hash));
    NoteOnShard(ShardShape(idx.geo, s), idx.shards[s], spot, key, bits, now);
    TotalsUpdate(idx.shards, s, NotedShard(h, idx, key, bits, now));
  }

  /** One insertion: the one block that changes. */
  lemma NoteBlocks(h: Hasher, idx: Index, key: Key, bits: Mask, now: u64)
    requires Eternal(idx) && !Ignored(idx, Note(key, bits, now)) && idx.geo.blocks > 0
    ensures var idx' := ApplyIndex(h, idx, Note(key, bits, now));
            var g := GlobalBlock(idx.geo, h(key).hash);
            && Eternal(idx')
            && forall k :: 0 <= k < idx.geo.blocks ==>
                 BlockAt(idx', k) == if k == g then InsertBlock(BlockAt(idx, g), h(key), key, bits) else BlockAt(idx, k)
  {
    var geo := idx.geo;
    var g := GlobalBlock(geo, h(key).hash);
    var s, spot := ShardOf(geo, h(key).hash), Spot(h(key), LocalBlock(geo, h(key).hash));
    BlockInBounds(geo, g);
    NoteTouchesOneShard(h, idx, key, bits, now);
    NoteOnShard(ShardShape(geo, s), idx.shards[s], spot, key, bits, now);
    var after := NotedShard(h, idx, key, bits, now).window;
    assert forall a :: 1 <= a < geo.generations ==> after.gens[a] == after.gens[1..][a - 1];
    assert forall a :: 1 <= a < geo.generations ==>
             idx.shards[s].window.gens[a] == idx.shards[s].window.gens[1..][a - 1];
    var idx' := ApplyIndex(h, idx, Note(key, bits, now));
    forall k | 0 <= k < geo.blocks
      ensures BlockAt(idx', k) == if k == g then InsertBlock(BlockAt(idx, g), h(key), key, bits) else BlockAt(idx, k)
    {
      BlockInBounds(geo, k);
      SamePlace(geo, k, g);
    }
  }

  lemma SamePlace(geo: Geometry, k: nat, g: nat)
    requires geo.shards > 0
    ensures Home(geo.shards, k) == Home(geo.shards, g) && Seat(geo.shards, k) == Seat(geo.shards, g) ==> k == g
  {
    HomeAndSeat(geo.shards, k);
    HomeAndSeat(geo.shards, g);
  }

  lemma TotalsUpdate(shards: seq<Shard>, s: nat, shard: Shard)
    requires s < |shards|
    ensures Sum(EntryCounts(shards[s := shard])) ==
            Sum(EntryCounts(shards)) - Occupied(shards[s].window.gens) + Occupied(shard.window.gens)
    ensures Sum(EvictionCounts(shards[s := shard])) ==
            Sum(EvictionCounts(shards)) - shards[s].evictions + shard.evictions
  {
    SumUpdate(EntryCounts(shards), s, Occupied(shard.window.gens));
    assert EntryCounts(shards[s := shard]) == EntryCounts(shards)[s := Occupied(shard.window.gens)];
    SumUpdate(EvictionCounts(shards), s, shard.evictions);
    assert EvictionCounts(shards[s := shard]) == EvictionCounts(shards)[s := shard.evictions];
  }

  /** Reads and ignored operations change nothing when nothing rotates. */
  lemma ReadChangesNothing(h: Hasher, idx: Index, op: Op)
    requires Eternal(idx) && (!op.Note? || Ignored(idx, op) || idx.geo.blocks == 0)
    ensures var idx' := ApplyIndex(h, idx, op);
            idx'.shards == idx.shards && idx'.geo == idx.geo
            && idx'.populated == (idx.populated || (op.Note? && !Ignored(idx, op)))
  {
    if !Ignored(idx, op) {
      forall s | 0 <= s < idx.geo.shards
        ensures ApplyShard(idx, h, op, s) == idx.shards[s]
      {
        RoutesIn(idx.geo, h, s);
        RotateIsIdle(ShardShape(idx.geo, s), idx.shards[s].window, op.now);
      }
    }
  }

  lemma AlikeNote(h: Hasher, x: Index, y: Index, key: Key, bits: Mask, now: u64)
    requires Alike(x, y) && !Ignored(x, Note(key, bits, now)) && x.geo.blocks > 0
    ensures Alike(ApplyIndex(h, x, Note(key, bits, now)), ApplyIndex(h, y, Note(key, bits, now)))
  {
    hide InsertBlock, OutcomeOf, TotalEntries, TotalEvictions, BlockAt;
    NoteBlocks(h, x, key, bits, now);
    NoteBlocks(h, y, key, bits, now);
    NoteCounts(h, x, key, bits, now);
    NoteCounts(h, y, key, bits, now);
  }

  lemma AlikeRead(h: Hasher, x: Index, y: Index, op: Op)
    requires Alike(x, y) && (!op.Note? || Ignored(x, op) || x.geo.blocks == 0)
    ensures Alike(ApplyIndex(h, x, op), ApplyIndex(h, y, op))
  {
    ReadChangesNothing(h, x, op);
    ReadChangesNothing(h, y, op);
  }

  lemma AlikeStep(h: Hasher, x: Index, y: Index, op: Op)
    requires Alike(x, y)
    ensures Alike(ApplyIndex(h, x, op), ApplyIndex(h, y, op))
  {
    if op.Note? && !Ignored(x, op) && x.geo.blocks > 0 {
      AlikeNote(h, x, y, op.key, op.bits, op.now);
    } else {
      AlikeRead(h, x, y, op);
    }
  }

  lemma AlikeAnswers(h: Hasher, x: Index, y: Index, key: Key, now: u64)
    requires Alike(x, y)
    ensures AnswerIndex(h, x, key, now) == AnswerIndex(h, y, key, now)
  {
    if x.populated && x.geo.blocks > 0 {
      AnswerIsBlockLookup(h, x, key, now);
      AnswerIsBlockLookup(h, y, key, now);
    }
  }

  /** Without expiry a lookup reads one block. */
  lemma AnswerIsBlockLookup(h: Hasher, idx: Index, key: Key, now: u64)
    requires Eternal(idx) && idx.populated && idx.geo.blocks > 0
    ensures AnswerIndex(h, idx, key, now) == LookupBlock(BlockAt(idx, GlobalBlock(idx.geo, h(key).hash)), h(key), key)
  {
    var geo := idx.geo;
    var s := ShardOf(geo, h(key).hash);
    BlockInBounds(geo, GlobalBlock(geo, h(key).hash));
    RoutesIn(geo, h, s);
    var sh, w := ShardShape(geo, s), idx.shards[s].window;
    var spot := Spot(h(key), LocalBlock(geo, h(key).hash));
    RotateIsIdle(sh, w, now);
    OnlyFirstSpeaks(sh, w.gens, sh.generations, spot, key);
  }

  lemma {:induction false} OnlyFirstSpeaks(sh: Shape, gens: seq<Gen>, n: nat, spot: Spot, key: Key)
    requires 1 <= n <= |gens| && spot.block < sh.blocks
    requires forall a :: 0 <= a < |gens| ==> |gens[a].blocks| == sh.blocks
    requires forall a :: 1 <= a < |gens| ==> gens[a] == EmptyGen(sh.blocks)
    ensures Gather(gens, n, spot, key) == LookupBlock(gens[0].blocks[spot.block], spot.fp, key)
  {
    if n == 1 {
      OrNothing(LookupBlock(gens[0].blocks[spot.block], spot.fp, key));
      assert Gather(gens, 0, spot, key) == NO_SLOTS;
    } else {
      OnlyFirstSpeaks(sh, gens, n - 1, spot, key);
      OrNothing(NO_SLOTS);
      OrNothing(Gather(gens, n - 1, spot, key));
    }
  }

  lemma {:induction false} SumIsZero(s: seq<nat>)
    requires forall i :: 0 <= i < |s| ==> s[i] == 0
    ensures Sum(s) == 0
  {
    if s != [] {
      SumIsZero(s[1..]);
    }
  }

  lemma EmptyIsEternal(geo: Geometry)
    requires Sane(geo) && geo.ttl == U64_MAX
    ensures Eternal(Empty(geo)) && TotalEntries(Empty(geo)) == 0 && TotalEvictions(Empty(geo)) == 0
    ensures forall g :: 0 <= g < geo.blocks ==> BlockAt(Empty(geo), g) == EMPTY_BLOCK
  {
    var idx := Empty(geo);
    forall s | 0 <= s < geo.shards
      ensures EntryCounts(idx.shards)[s] == 0
    {
      OccupiedEmpty(ShardShape(geo, s), geo.generations);
    }
    SumIsZero(EntryCounts(idx.shards));
    SumIsZero(EvictionCounts(idx.shards));
    forall g | 0 <= g < geo.blocks
      ensures BlockAt(idx, g) == EMPTY_BLOCK
    {
      BlockInBounds(geo, g);
    }
  }
}
