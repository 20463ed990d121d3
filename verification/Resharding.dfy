/**
  Different shard counts over histories that load snapshots: without expiry a load puts
  every entry into the same global block, whatever the number of shards.
 */
module Resharding {
  import opened Words
  import opened Blocks
  import opened Rotation
  import opened Index
  import opened Restoring
  import opened Snapshots
  import opened Sharding
  import opened Polling

  /** A shard with at least one block skips an entry for reasons of the entry only. */
  predicate Left(e: Entry, now: u64) { e.hash == 0 || e.missing == NO_SLOTS || SatSub(now, e.insertedAt) >= U64_MAX }

  /** One restored entry on one shard without expiry. */
  lemma RestoreOnShard(sh: Shape, s: Shard, e: Entry, block: nat, now: u64)
    requires Fits(sh, s.window) && sh.interval == U64_MAX && block < sh.blocks && !Left(e, now)
    ensures var b := s.window.gens[0].blocks[block];
            var w := RestoreEntry(sh, s.window, e, block, now, U64_MAX);
            var fp := Fingerprint(e.hash, e.tag);
            && w.gens[0].blocks == s.window.gens[0].blocks[block := InsertBlock(b, fp, e.key, e.missing)]
            && w.gens[1..] == s.window.gens[1..]
            && Occupied(w.gens) == Occupied(s.window.gens) + (if OutcomeOf(b, fp, e.key) == Inserted then 1 else 0)
            && RestoreDropped(sh, s.window, e, block, now, U64_MAX) ==
               if OutcomeOf(b, fp, e.key) == Replaced then 1 else 0
  {
    var g := InsertGen(Backdate(s.window.gens[0], e.insertedAt), Fingerprint(e.hash, e.tag), e.key, e.missing, block);
    OccupiedUpdate(s.window.gens, 0, g);
    assert RestoreEntry(sh, s.window, e, block, now, U64_MAX).gens == s.window.gens[0 := g];
  }

  lemma PutBackCounts(idx: Index, e: Entry, now: u64)
    requires Eternal(idx) && idx.geo.blocks > 0 && !Left(e, now)
    ensures var idx' := PutBack(idx, e, now);
            var b, fp := BlockAt(idx, GlobalBlock(idx.geo, e.hash)), Fingerprint(e.hash, e.tag);
            && TotalEntries(idx') == TotalEntries(idx) + (if OutcomeOf(b, fp, e.key) == Inserted then 1 else 0)
            && TotalEvictions(idx') == TotalEvictions(idx) + (if OutcomeOf(b, fp, e.key) == Replaced then 1 else 0)
  {
    hide RestoreEntry, RestoreDropped, OutcomeOf;
    var s, block := ShardOf(idx.geo, e.hash), LocalBlock(idx.geo, e.hash);
    BlockInBounds(idx.geo, GlobalBlock(idx.geo, e.hash));
    RestoreOnShard(ShardShape(idx.geo, s), idx.shards[s], e, block, now);
    TotalsUpdate(idx.shards, s, PutBack(idx, e, now).shards[s]);
    assert PutBack(idx, e, now).shards == idx.shards[s := PutBack(idx, e, now).shards[s]];
  }

  /** One restored entry: the one global block that changes. */
  lemma PutBackBlocks(idx: Index, e: Entry, now: u64)
    requires Eternal(idx) && idx.geo.blocks > 0 && !Left(e, now)
    ensures var idx', g := PutBack(idx, e, now), GlobalBlock(idx.geo, e.hash);
            && Eternal(idx')
            && forall k :: 0 <= k < idx.geo.blocks ==>
                 BlockAt(idx', k) ==
                 if k == g then InsertBlock(BlockAt(idx, g), Fingerprint(e.hash, e.tag), e.key, e.missing)
                 else BlockAt(idx, k)
  {
    hide RestoreEntry, RestoreDropped, InsertBlock;
    var geo, idx' := idx.geo, PutBack(idx, e, now);
    var g, s, block := GlobalBlock(geo, e.hash), ShardOf(geo, e.hash), LocalBlock(geo, e.hash);
    BlockInBounds(geo, g);
    RestoreOnShard(ShardShape(geo, s), idx.shards[s], e, block, now);
    var was, will := idx.shards[s].window, idx'.shards[s].window;
    assert forall a :: 1 <= a < geo.generations ==> will.gens[a] == will.gens[1..][a - 1];
    assert forall a :: 1 <= a < geo.generations ==> was.gens[a] == was.gens[1..][a - 1];
    forall k | 0 <= k < geo.blocks
      ensures BlockAt(idx', k) ==
              if k == g then InsertBlock(BlockAt(idx, g), Fingerprint(e.hash, e.tag), e.key, e.missing)
              else BlockAt(idx, k)
    {
      BlockInBounds(geo, k);
      SamePlace(geo, k, g);
    }
  }

  lemma PutBackNothing(idx: Index, e: Entry, now: u64)
    requires Eternal(idx) && (idx.geo.blocks == 0 || Left(e, now))
    ensures PutBack(idx, e, now) == idx
  {
    var s := ShardOf(idx.geo, e.hash);
    Lands(idx.geo, e.hash);
    if idx.geo.blocks == 0 {
      HomeAndSeat(idx.geo.shards, 0);
      assert ShardBlocks(idx.geo, s) == 0;
    }
    assert idx.shards[s := idx.shards[s]] == idx.shards;
  }

  lemma AlikePutBack(x: Index, y: Index, e: Entry, now: u64)
    requires Sharding.Alike(x, y)
    ensures Sharding.Alike(PutBack(x, e, now), PutBack(y, e, now))
  {
    hide PutBack, InsertBlock, OutcomeOf, TotalEntries, TotalEvictions, BlockAt;
    if x.geo.blocks == 0 || Left(e, now) {
      PutBackNothing(x, e, now);
      PutBackNothing(y, e, now);
    } else {
      PutBackBlocks(x, e, now);
      PutBackBlocks(y, e, now);
      PutBackCounts(x, e, now);
      PutBackCounts(y, e, now);
    }
  }

  lemma {:induction false} AlikePutBackAll(x: Index, y: Index, entries: seq<Entry>, now: u64)
    requires Sharding.Alike(x, y)
    ensures Sharding.Alike(PutBackAll(x, entries, now), PutBackAll(y, entries, now))
  {
    hide Sharding.Alike, PutBack;
    AlikeFit(x, y);
    if entries != [] {
      var n := |entries| - 1;
      AlikePutBackAll(x, y, entries[..n], now);
      AlikePutBack(PutBackAll(x, entries[..n], now), PutBackAll(y, entries[..n], now), entries[n], now);
    }
  }

  lemma AlikeFit(x: Index, y: Index)
    requires Sharding.Alike(x, y)
    ensures Fit(x) && Fit(y)
  {
  }

  /** Without expiry nothing is scheduled, and only the current generation can have started. */
  ghost predicate Unscheduled(idx: Index) {
    Eternal(idx) && forall s :: 0 <= s < idx.geo.shards ==> idx.shards[s].window.next == 0
  }

  lemma SettlesInPlace(sh: Shape, w: Window)
    requires Fits(sh, w) && sh.interval == U64_MAX && w.next == 0
    requires forall a :: 1 <= a < |w.gens| ==> w.gens[a] == EmptyGen(sh.blocks)
    ensures Reanchor(sh, w) == w
  {
    var best := Anchor(w.gens, |w.gens|);
    if best.Some? {
      assert best.value == 0;
      assert w.gens[0..] + w.gens[..0] == w.gens;
    }
  }

  lemma {:induction false} PutBackAllUnscheduled(idx: Index, entries: seq<Entry>, now: u64)
    requires Unscheduled(idx)
    ensures Unscheduled(PutBackAll(idx, entries, now))
  {
    if entries != [] {
      var n := |entries| - 1;
      PutBackAllUnscheduled(idx, entries[..n], now);
      var before := PutBackAll(idx, entries[..n], now);
      if before.geo.blocks == 0 || Left(entries[n], now) {
        PutBackNothing(before, entries[n], now);
      } else {
        PutBackBlocks(before, entries[n], now);
      }
    }
  }

  lemma SettledIsSame(idx: Index)
    requires Unscheduled(idx)
    ensures Settled(idx).shards == idx.shards
  {
    forall s | 0 <= s < idx.geo.shards
      ensures Settled(idx).shards[s] == idx.shards[s]
    {
      SettlesInPlace(ShardShape(idx.geo, s), idx.shards[s].window);
    }
  }

  /** Loading the same snapshot, whatever was there before. */
  lemma AlikeLoad<P>(x: Index, y: Index, table: seq<P>, stored: seq<P>, entries: seq<Entry>, now: u64)
    requires Sharding.Alike(x, y) && |table| <= MAX_BACKENDS && |stored| <= MAX_BACKENDS
    ensures Sharding.Alike(RestoreInto(x, table, stored, entries, now), RestoreInto(y, table, stored, entries, now))
  {
    hide PutBackAll, Settled, SortByTime, Translated, Sum, BlockAt;
    var mapped := TranslatedAll(table, stored, SortByTime(entries));
    var a, b := Empty(x.geo).(populated := x.populated), Empty(y.geo).(populated := y.populated);
    EmptyAlike(x.geo, y.geo, x.populated);
    AlikePutBackAll(a, b, mapped, now);
    EmptyUnscheduled(x.geo, x.populated);
    EmptyUnscheduled(y.geo, y.populated);
    PutBackAllUnscheduled(a, mapped, now);
    PutBackAllUnscheduled(b, mapped, now);
    AlikeSettled(PutBackAll(a, mapped, now), PutBackAll(b, mapped, now));
  }

  lemma AlikeSettled(x: Index, y: Index)
    requires Sharding.Alike(x, y) && Unscheduled(x) && Unscheduled(y)
    ensures Sharding.Alike(Settled(x), Settled(y))
  {
    SettledIsSame(x);
    SettledIsSame(y);
    SameContent(x, Settled(x));
    SameContent(y, Settled(y));
  }

  /** The latch does not matter to what is held. */
  lemma SameContent(x: Index, y: Index)
    requires Eternal(x) && x.geo == y.geo && x.shards == y.shards
    ensures Eternal(y) && TotalEntries(y) == TotalEntries(x) && TotalEvictions(y) == TotalEvictions(x)
    ensures forall g :: 0 <= g < x.geo.blocks ==> BlockAt(y, g) == BlockAt(x, g)
  {
  }

  lemma EmptyUnscheduled(geo: Geometry, populated: bool)
    requires Sane(geo) && geo.ttl == U64_MAX
    ensures Unscheduled(Empty(geo).(populated := populated))
  {
  }

  lemma EmptyAlike(x: Geometry, y: Geometry, populated: bool)
    requires Sane(x) && Sane(y) && x.ttl == y.ttl == U64_MAX
    requires x.blocks == y.blocks && x.generations == y.generations
    ensures Sharding.Alike(Empty(x).(populated := populated), Empty(y).(populated := populated))
  {
    EmptyIsEternal(x);
    EmptyIsEternal(y);
    SameContent(Empty(x), Empty(x).(populated := populated));
    SameContent(Empty(y), Empty(y).(populated := populated));
  }

  lemma {:induction false} AlikePlay<P>(h: Hasher, x: Index, y: Index, moves: seq<Move<P>>)
    requires Sharding.Alike(x, y) && Moves(moves)
    ensures Fit(x) && Fit(y) && Sharding.Alike(Play(h, x, moves), Play(h, y, moves))
  {
    hide Sharding.Alike, ApplyIndex, RestoreInto;
    AlikeFit(x, y);
    if moves != [] {
      var rest, move := moves[..|moves| - 1], moves[|moves| - 1];
      AlikePlay(h, x, y, rest);
      match move
      case Act(op) => AlikeStep(h, Play(h, x, rest), Play(h, y, rest), op);
      case Load(table, stored, entries, at) =>
        AlikeLoad(Play(h, x, rest), Play(h, y, rest), table, stored, entries, at);
    }
  }

  /**
    Sharding refines the single-lock index: without expiry and with the same budget, every
    history of insertions, lookups, counts, snapshots and loads gives the same answers, entry
    count and eviction count for every two shard counts, in particular for one shard.
   */
  lemma ShardCountIsUnobservable<P>(h: Hasher, x: Geometry, y: Geometry, moves: seq<Move<P>>, key: Key, now: u64)
    requires Sane(x) && Sane(y) && x.ttl == y.ttl == U64_MAX && Moves(moves)
    requires x.blocks == y.blocks && x.generations == y.generations
    ensures var a, b := Play(h, Empty(x), moves), Play(h, Empty(y), moves);
            && AnswerIndex(h, a, key, now) == AnswerIndex(h, b, key, now)
            && TotalEntries(a) == TotalEntries(b) && TotalEvictions(a) == TotalEvictions(b)
  {
    hide Play, AnswerIndex, Sum;
    EmptyAlike(x, y, false);
    assert Empty(x).(populated := false) == Empty(x) && Empty(y).(populated := false) == Empty(y);
    AlikePlay(h, Empty(x), Empty(y), moves);
    Sharding.AlikeAnswers(h, Play(h, Empty(x), moves), Play(h, Empty(y), moves), key, now);
  }
}
