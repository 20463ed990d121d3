/**
  Saving and loading without expiry rebuilds the index slot for slot.

  A snapshot lists the slots of every block in order and the restoration sorts stably, so
  the entries of one block come back in their order, nothing is replaced, and the restored
  index behaves as the saved one from then on.
 */
module Exactness {
  import opened Words
  import opened Blocks
  import opened Rotation
  import opened Snapshots
  import opened Index
  import opened Restoring
  import Sharding

  /** Shard and local block of a hash. */
  type Locate = u64 -> (nat, nat)

  function LocateIn(geo: Geometry): Locate
    requires geo.shards > 0
  {
    hash => (ShardOf(geo, hash), LocalBlock(geo, hash))
  }

  /** A block as insertions leave it: filled in order, distinct messages, each in its place. */
  ghost predicate TidyCell(f: Locate, n: nat, c: Cell, at: (nat, nat)) {
    c.Held? ==> c.missing != NO_SLOTS && Within(c.missing, n) && f(c.fp.hash) == at
  }

  ghost predicate TidyBlock(f: Locate, n: nat, b: Block, at: (nat, nat)) {
    && TidyCell(f, n, b.first, at) && TidyCell(f, n, b.second, at)
    && (b.second.Held? ==> b.first.Held? && !Matches(b.first, b.second.fp, b.second.key))
  }

  lemma TidyInsert(f: Locate, n: nat, b: Block, fp: Fingerprint, key: Key, bits: Mask)
    requires TidyBlock(f, n, b, f(fp.hash)) && bits != NO_SLOTS && Within(bits, n)
    ensures TidyBlock(f, n, InsertBlock(b, fp, key, bits), f(fp.hash))
  {
    OrKeepsBits(b.first, n, bits);
    OrKeepsBits(b.second, n, bits);
  }

  lemma OrKeepsBits(c: Cell, n: nat, bits: Mask)
    requires bits != NO_SLOTS && Within(bits, n)
    ensures c.Held? ==> Or(c.missing, bits) != NO_SLOTS && (Within(c.missing, n) ==> Within(Or(c.missing, bits), n))
  {
    if c.Held? {
      var p :| 0 <= p < MAX_BACKENDS && bits[p];
      assert Or(c.missing, bits)[p];
      assert forall q: Slot :: Has(Or(c.missing, bits), q) ==> Has(c.missing, q) || Has(bits, q);
    }
  }

  /** The entries of one block. */
  function At(f: Locate, entries: seq<Entry>, at: (nat, nat)): seq<Entry> {
    if entries == [] then []
    else
      var e := entries[|entries| - 1];
      At(f, entries[..|entries| - 1], at) + if f(e.hash) == at then [e] else []
  }

  lemma {:induction false} AtConcat(f: Locate, x: seq<Entry>, y: seq<Entry>, at: (nat, nat))
    ensures At(f, x + y, at) == At(f, x, at) + At(f, y, at)
  {
    if y == [] {
      assert x + y == x;
    } else {
      AtConcat(f, x, y[..|y| - 1], at);
      assert (x + y)[..|x + y| - 1] == x + y[..|y| - 1];
    }
  }

  lemma AtSnoc(f: Locate, x: seq<Entry>, e: Entry, at: (nat, nat))
    ensures At(f, x + [e], at) == At(f, x, at) + if f(e.hash) == at then [e] else []
  {
    assert (x + [e])[..|x|] == x;
  }

  // ---------- stable sorting keeps the order within a block ----------

  /** Entries of one block carry one time stamp. */
  ghost predicate OneTime(f: Locate, entries: seq<Entry>, at: (nat, nat), t: u64) {
    forall e :: e in entries && f(e.hash) == at ==> e.insertedAt == t
  }

  lemma {:induction false} PlaceIsStable(f: Locate, sorted: seq<Entry>, e: Entry, at: (nat, nat), t: u64)
    requires OneTime(f, sorted, at, t) && OneTime(f, [e], at, t)
    ensures At(f, Place(sorted, e), at) == At(f, sorted + [e], at)
  {
    if !(sorted == [] || sorted[|sorted| - 1].insertedAt <= e.insertedAt) {
      var rest, last := sorted[..|sorted| - 1], sorted[|sorted| - 1];
      assert last in sorted && e in [e];
      assert forall x :: x in rest ==> x in sorted;
      PlaceIsStable(f, rest, e, at, t);
      Swap(f, rest, Place(rest, e), last, e, at);
      assert sorted == rest + [last];
    }
  }

  lemma Swap(f: Locate, rest: seq<Entry>, placed: seq<Entry>, last: Entry, e: Entry, at: (nat, nat))
    requires At(f, placed, at) == At(f, rest + [e], at) && !(f(last.hash) == at && f(e.hash) == at)
    ensures At(f, placed + [last], at) == At(f, rest + [last] + [e], at)
  {
    AtSnoc(f, placed, last, at);
    AtSnoc(f, rest, e, at);
    AtSnoc(f, rest, last, at);
    AtSnoc(f, rest + [last], e, at);
  }

  lemma {:induction false} SortIsStable(f: Locate, entries: seq<Entry>, at: (nat, nat), t: u64)
    requires OneTime(f, entries, at, t)
    ensures At(f, SortByTime(entries), at) == At(f, entries, at)
  {
    if entries != [] {
      var rest, e := entries[..|entries| - 1], entries[|entries| - 1];
      SortIsStable(f, rest, at, t);
      SortElements(rest);
      PlaceIsStable(f, SortByTime(rest), e, at, t);
      AtSnoc(f, SortByTime(rest), e, at);
      AtSnoc(f, rest, e, at);
      assert entries == rest + [e];
    }
  }

  // ---------- the entries of a block in a snapshot ----------

  lemma EntryOfCell(f: Locate, n: nat, c: Cell, t: u64, own: (nat, nat), at: (nat, nat))
    requires TidyCell(f, n, c, own)
    ensures At(f, CellEntries(c, t), at) == if at == own then CellEntries(c, t) else []
  {
    if c.Held? {
      var e := Entry(c.fp.hash, c.fp.tag, c.key, c.missing, t);
      assert At(f, [e], at) == At(f, [e][..0], at) + if f(e.hash) == at then [e] else [];
    }
  }

  lemma EntriesOfBlock(f: Locate, n: nat, b: Block, t: u64, own: (nat, nat), at: (nat, nat))
    requires TidyBlock(f, n, b, own)
    ensures At(f, BlockEntries(b, t), at) == if at == own then BlockEntries(b, t) else []
  {
    EntryOfCell(f, n, b.first, t, own, at);
    EntryOfCell(f, n, b.second, t, own, at);
    AtConcat(f, CellEntries(b.first, t), CellEntries(b.second, t), at);
  }

  ghost predicate TidyBlocks(f: Locate, n: nat, blocks: seq<Block>, s: nat) {
    forall l :: 0 <= l < |blocks| ==> TidyBlock(f, n, blocks[l], (s, l))
  }

  lemma {:induction false} EntriesOfBlocks(f: Locate, n: nat, blocks: seq<Block>, t: u64, s: nat, at: (nat, nat))
    requires TidyBlocks(f, n, blocks, s)
    ensures At(f, BlocksEntries(blocks, t), at) ==
            if at.0 == s && at.1 < |blocks| then BlockEntries(blocks[at.1], t) else []
  {
    if blocks != [] {
      var m := |blocks| - 1;
      EntriesOfBlocks(f, n, blocks[..m], t, s, at);
      EntriesOfBlock(f, n, blocks[m], t, (s, m), at);
      var front, back := BlocksEntries(blocks[..m], t), BlockEntries(blocks[m], t);
      AtConcat(f, front, back, at);
      if at == (s, m) {
        assert At(f, front, at) == [] && [] + back == back;
      } else {
        assert At(f, back, at) == [] && At(f, front, at) + [] == At(f, front, at);
      }
    }
  }

  // ---------- what an index without expiry looks like ----------

  /** One shard without expiry: only its current generation is used, and that one is tidy. */
  ghost predicate TidyShard(f: Locate, n: nat, sh: Shape, w: Window, s: nat) {
    && Fits(sh, w) && w.next == 0
    && (forall a :: 1 <= a < |w.gens| ==> w.gens[a] == EmptyGen(sh.blocks))
    && TidyBlocks(f, n, w.gens[0].blocks, s)
    && w.gens[0].occupied == CountHeld(w.gens[0].blocks)
    && (w.gens[0].startedAt == 0 ==> w.gens[0] == EmptyGen(sh.blocks))
    && (w.gens[0].startedAt != 0 ==> exists l :: 0 <= l < sh.blocks && w.gens[0].blocks[l].first.Held?)
  }

  lemma TidyNote(f: Locate, n: nat, sh: Shape, w: Window, s: nat, spot: Spot, key: Key, bits: Mask, now: u64)
    requires TidyShard(f, n, sh, w, s) && sh.interval == U64_MAX && now >= 1 && Within(bits, n)
    requires sh.blocks != 0 ==> spot.block < sh.blocks && f(spot.fp.hash) == (s, spot.block)
    ensures TidyShard(f, n, sh, Record(sh, w, spot, key, bits, now), s)
  {
    Sharding.RotateIsIdle(sh, w, now);
    if Stores(sh, bits) {
      var started := Start(sh, w, now);
      CountEmpty(sh.blocks);
      InsertGenCounts(started.gens[0], spot.fp, key, bits, spot.block);
      TidyInsert(f, n, started.gens[0].blocks[spot.block], spot.fp, key, bits);
      assert Record(sh, w, spot, key, bits, now).gens[0].blocks[spot.block].first.Held?;
    }
  }

  ghost predicate Tidy(n: nat, idx: Index) {
    && Fit(idx) && idx.geo.ttl == U64_MAX
    && forall s :: 0 <= s < idx.geo.shards ==>
         TidyShard(LocateIn(idx.geo), n, ShardShape(idx.geo, s), idx.shards[s].window, s)
  }

  /** Recorded slots belong to a provider table of `n` providers. */
  ghost predicate NotesWithin(ops: seq<Op>, n: nat) {
    forall i :: 0 <= i < |ops| && ops[i].Note? ==> Within(ops[i].bits, n) && ops[i].now >= 1
  }

  lemma TidyEmptyShard(f: Locate, n: nat, sh: Shape, s: nat)
    requires sh.Valid()
    ensures TidyShard(f, n, sh, Fresh(sh), s)
  {
    CountEmpty(sh.blocks);
  }

  lemma TidyStep(h: Hasher, n: nat, idx: Index, op: Op, s: nat)
    requires Tidy(n, idx) && s < idx.geo.shards && NotesWithin([op], n)
    ensures TidyShard(LocateIn(idx.geo), n, ShardShape(idx.geo, s), ApplyIndex(h, idx, op).shards[s].window, s)
  {
    var geo := idx.geo;
    var sh, w := ShardShape(geo, s), idx.shards[s].window;
    StepOfShard(h, idx, op, s);
    Sharding.RotateIsIdle(sh, w, op.now);
    if op.Note? && ShardOf(geo, h(op.key).hash) == s {
      Lands(geo, h(op.key).hash);
      assert [op][0] == op;
      TidyNote(LocateIn(geo), n, sh, w, s, RouteIn(geo, h, s)(op.key), op.key, op.bits, op.now);
    }
  }

  lemma {:induction false} TidyRun(h: Hasher, n: nat, geo: Geometry, ops: seq<Op>)
    requires Sane(geo) && geo.ttl == U64_MAX && NotesWithin(ops, n)
    ensures Tidy(n, RunIndex(h, Empty(geo), ops))
  {
    var idx := RunIndex(h, Empty(geo), ops);
    forall s | 0 <= s < geo.shards
      ensures TidyShard(LocateIn(geo), n, ShardShape(geo, s), idx.shards[s].window, s)
    {
      if ops == [] {
        TidyEmptyShard(LocateIn(geo), n, ShardShape(geo, s), s);
      } else {
        TidyRun(h, n, geo, ops[..|ops| - 1]);
        TidyStep(h, n, RunIndex(h, Empty(geo), ops[..|ops| - 1]), ops[|ops| - 1], s);
      }
    }
  }

  // ---------- the entries of an index ----------

  /** The entries of a tidy shard are those of its current generation. */
  lemma EntriesOfShard(f: Locate, n: nat, sh: Shape, w: Window, s: nat, at: (nat, nat))
    requires TidyShard(f, n, sh, w, s)
    ensures At(f, GensEntries(w.gens), at) ==
            if at.0 == s && at.1 < sh.blocks then BlockEntries(w.gens[0].blocks[at.1], w.gens[0].startedAt) else []
  {
    var g := w.gens[0];
    LiveEntries(sh, w.gens, 1);
    assert w.gens[..1] == [g] && [g][..0] == [];
    assert GensEntries([g]) == GensEntries([]) + BlocksEntries(g.blocks, g.startedAt);
    assert GensEntries([g]) == BlocksEntries(g.blocks, g.startedAt);
    EntriesOfBlocks(f, n, g.blocks, g.startedAt, s, at);
  }

  ghost predicate TidyShards(f: Locate, n: nat, geo: Geometry, shards: seq<Shard>)
    requires geo.shards > 0
  {
    forall s :: 0 <= s < |shards| ==> TidyShard(f, n, ShardShape(geo, s), shards[s].window, s)
  }

  lemma {:induction false} EntriesOfShards(f: Locate, n: nat, geo: Geometry, shards: seq<Shard>, at: (nat, nat))
    requires geo.shards > 0 && TidyShards(f, n, geo, shards)
    ensures At(f, ShardsEntries(shards), at) ==
            if at.0 < |shards| && at.1 < ShardBlocks(geo, at.0)
            then var g := shards[at.0].window.gens[0]; BlockEntries(g.blocks[at.1], g.startedAt)
            else []
  {
    if shards != [] {
      var m := |shards| - 1;
      EntriesOfShards(f, n, geo, shards[..m], at);
      EntriesOfShard(f, n, ShardShape(geo, m), shards[m].window, m, at);
      var front, back := ShardsEntries(shards[..m]), GensEntries(shards[m].window.gens);
      AtConcat(f, front, back, at);
      if at.0 == m {
        assert At(f, front, at) == [] && [] + At(f, back, at) == At(f, back, at);
      } else {
        assert At(f, back, at) == [] && At(f, front, at) + [] == At(f, front, at);
      }
    }
  }

  // ---------- rebuilding one block ----------

  ghost predicate Sound(entries: seq<Entry>) {
    forall e :: e in entries ==> e.hash != 0 && e.missing != NO_SLOTS && e.insertedAt >= 1
  }

  /** What restoring the entries of one block makes of it. */
  ghost function Refill(entries: seq<Entry>): Block
    requires Sound(entries)
  {
    if entries == [] then EMPTY_BLOCK
    else
      var e := entries[|entries| - 1];
      InsertBlock(Refill(entries[..|entries| - 1]), Fingerprint(e.hash, e.tag), e.key, e.missing)
  }

  /** The entries of a block rebuild it, slot for slot, without any replacement. */
  lemma RefillRebuilds(f: Locate, n: nat, b: Block, at: (nat, nat), t: u64)
    requires TidyBlock(f, n, b, at) && t >= 1
    ensures Sound(BlockEntries(b, t)) && Refill(BlockEntries(b, t)) == b
  {
    if b.first.Held? {
      var x := Entry(b.first.fp.hash, b.first.fp.tag, b.first.key, b.first.missing, t);
      assert BlockEntries(b, t)[..1] == [x] && [x][..0] == [];
      assert Refill([x]) == Block(b.first, Vacant);
      if b.second.Held? {
        var y := Entry(b.second.fp.hash, b.second.fp.tag, b.second.key, b.second.missing, t);
        assert BlockEntries(b, t) == [x, y];
        assert Refill([x, y]) == InsertBlock(Refill([x]), b.second.fp, b.second.key, b.second.missing);
      }
    }
  }

  lemma {:induction false} AtElements(f: Locate, entries: seq<Entry>, at: (nat, nat))
    ensures forall e :: e in At(f, entries, at) <==> e in entries && f(e.hash) == at
  {
    if entries != [] {
      AtElements(f, entries[..|entries| - 1], at);
      assert entries == entries[..|entries| - 1] + [entries[|entries| - 1]];
    }
  }

  // ---------- rebuilding one shard ----------

  ghost predicate Reaches(f: Locate, entries: seq<Entry>, s: nat) { exists e :: e in entries && f(e.hash).0 == s }

  ghost predicate Rebuilt(f: Locate, sh: Shape, entries: seq<Entry>, w: Window, s: nat, t: u64) {
    && Sound(entries) && Fits(sh, w) && w.next == 0
    && (forall a :: 1 <= a < |w.gens| ==> w.gens[a] == EmptyGen(sh.blocks))
    && (forall l :: 0 <= l < sh.blocks ==> BlockRebuilt(f, entries, w.gens[0].blocks[l], (s, l)))
    && w.gens[0].occupied == CountHeld(w.gens[0].blocks)
    && w.gens[0].startedAt == if Reaches(f, entries, s) then t else 0
  }

  ghost predicate BlockRebuilt(f: Locate, entries: seq<Entry>, b: Block, at: (nat, nat)) {
    Sound(At(f, entries, at)) && b == Refill(At(f, entries, at))
  }

  lemma BlockRebuiltMore(f: Locate, entries: seq<Entry>, e: Entry, b: Block, at: (nat, nat))
    requires Sound(entries + [e]) && e.hash != 0 && BlockRebuilt(f, entries, b, at)
    ensures var b' := if f(e.hash) == at then InsertBlock(b, Fingerprint(e.hash, e.tag), e.key, e.missing) else b;
            BlockRebuilt(f, entries + [e], b', at)
  {
    AtSnoc(f, entries, e, at);
    AtElements(f, entries + [e], at);
    var own := At(f, entries, at);
    if f(e.hash) == at {
      assert At(f, entries + [e], at) == own + [e] && (own + [e])[..|own|] == own;
    } else {
      assert At(f, entries + [e], at) == own;
    }
  }

  lemma RebuiltMore(f: Locate, sh: Shape, entries: seq<Entry>, e: Entry, w: Window, s: nat, t: u64, now: u64)
    requires Rebuilt(f, sh, entries, w, s, t) && Sound(entries + [e]) && sh.interval == U64_MAX
    requires f(e.hash).0 == s && f(e.hash).1 < sh.blocks && e.insertedAt == t
    ensures Rebuilt(f, sh, entries + [e], RestoreEntry(sh, w, e, f(e.hash).1, now, U64_MAX), s, t)
    ensures RestoreDropped(sh, w, e, f(e.hash).1, now, U64_MAX) ==
            if OutcomeOf(w.gens[0].blocks[f(e.hash).1], Fingerprint(e.hash, e.tag), e.key) == Replaced then 1 else 0
  {
    assert e in entries + [e];
    var w' := RestoreEntry(sh, w, e, f(e.hash).1, now, U64_MAX);
    InsertGenCounts(Backdate(w.gens[0], t), Fingerprint(e.hash, e.tag), e.key, e.missing, f(e.hash).1);
    forall l | 0 <= l < sh.blocks
      ensures BlockRebuilt(f, entries + [e], w'.gens[0].blocks[l], (s, l))
    {
      BlockRebuiltMore(f, entries, e, w.gens[0].blocks[l], (s, l));
    }
  }

  lemma RebuiltElsewhere(f: Locate, sh: Shape, entries: seq<Entry>, e: Entry, w: Window, s: nat, t: u64)
    requires Rebuilt(f, sh, entries, w, s, t) && Sound(entries + [e]) && f(e.hash).0 != s
    ensures Rebuilt(f, sh, entries + [e], w, s, t)
  {
    assert e in entries + [e];
    assert Reaches(f, entries + [e], s) ==> Reaches(f, entries, s);
    assert Reaches(f, entries, s) ==> Reaches(f, entries + [e], s) by {
      assert forall x :: x in entries ==> x in entries + [e];
    }
    forall l | 0 <= l < sh.blocks
      ensures BlockRebuilt(f, entries + [e], w.gens[0].blocks[l], (s, l))
    {
      BlockRebuiltMore(f, entries, e, w.gens[0].blocks[l], (s, l));
    }
  }

  /** The entries carry the start of their shard. */
  ghost predicate Stamped(f: Locate, entries: seq<Entry>, starts: seq<u64>) {
    forall e :: e in entries ==> f(e.hash).0 < |starts| && e.insertedAt == starts[f(e.hash).0]
  }

  lemma PutBackOnShard(idx: Index, entries: seq<Entry>, e: Entry, s: nat, starts: seq<u64>, now: u64)
    requires Fit(idx) && idx.geo.ttl == U64_MAX && idx.geo.blocks > 0 && s < idx.geo.shards == |starts|
    requires Sound(entries + [e]) && Stamped(LocateIn(idx.geo), entries + [e], starts)
    requires Rebuilt(LocateIn(idx.geo), ShardShape(idx.geo, s), entries, idx.shards[s].window, s, starts[s])
    ensures Rebuilt(LocateIn(idx.geo), ShardShape(idx.geo, s), entries + [e], PutBack(idx, e, now).shards[s].window,
            s, starts[s])
  {
    assert e in entries + [e];
    if ShardOf(idx.geo, e.hash) == s {
      BlockInBounds(idx.geo, GlobalBlock(idx.geo, e.hash));
      RebuiltMore(LocateIn(idx.geo), ShardShape(idx.geo, s), entries, e, idx.shards[s].window, s, starts[s], now);
    } else {
      RebuiltElsewhere(LocateIn(idx.geo), ShardShape(idx.geo, s), entries, e, idx.shards[s].window, s, starts[s]);
    }
  }

  lemma {:induction false} PutBackRebuilds(idx: Index, entries: seq<Entry>, s: nat, starts: seq<u64>, now: u64)
    requires Fit(idx) && idx.geo.ttl == U64_MAX && idx.geo.blocks > 0 && s < idx.geo.shards == |starts|
    requires idx.shards[s].window == Fresh(ShardShape(idx.geo, s))
    requires Sound(entries) && Stamped(LocateIn(idx.geo), entries, starts)
    ensures Rebuilt(LocateIn(idx.geo), ShardShape(idx.geo, s), entries,
            PutBackAll(idx, entries, now).shards[s].window, s, starts[s])
  {
    if entries == [] {
      CountEmpty(ShardBlocks(idx.geo, s));
    } else {
      var rest, e := entries[..|entries| - 1], entries[|entries| - 1];
      PutBackRebuilds(idx, rest, s, starts, now);
      assert entries == rest + [e];
      PutBackOnShard(PutBackAll(idx, rest, now), rest, e, s, starts, now);
    }
  }

  /** A rebuilt shard is the shard its entries came from. */
  lemma RebuiltIsOriginal(f: Locate, n: nat, sh: Shape, entries: seq<Entry>, w: Window, v: Window, s: nat)
    requires TidyShard(f, n, sh, w, s) && Rebuilt(f, sh, entries, v, s, w.gens[0].startedAt)
    requires forall l :: 0 <= l < sh.blocks ==>
               At(f, entries, (s, l)) == BlockEntries(w.gens[0].blocks[l], w.gens[0].startedAt)
    ensures v == w
  {
    var g := w.gens[0];
    if g.startedAt != 0 {
      forall l | 0 <= l < sh.blocks
        ensures v.gens[0].blocks[l] == g.blocks[l]
      {
        RefillRebuilds(f, n, g.blocks[l], (s, l), g.startedAt);
      }
      var l :| 0 <= l < sh.blocks && g.blocks[l].first.Held?;
      AtElements(f, entries, (s, l));
      assert BlockEntries(g.blocks[l], g.startedAt)[0] in At(f, entries, (s, l));
    } else {
      forall l | 0 <= l < sh.blocks
        ensures v.gens[0].blocks[l] == EMPTY_BLOCK
      {
        assert At(f, entries, (s, l)) == [];
      }
    }
    assert v.gens[0].blocks == g.blocks;
    assert v.gens == w.gens;
  }

  /** Nothing moves when a shard without expiry is re-anchored. */
  lemma SettledStays(f: Locate, n: nat, sh: Shape, w: Window, s: nat)
    requires TidyShard(f, n, sh, w, s) && sh.interval == U64_MAX
    ensures Reanchor(sh, w) == w
  {
    var best := Anchor(w.gens, |w.gens|);
    if best.Some? {
      assert best.value == 0;
      assert w.gens[0..] + w.gens[..0] == w.gens;
    }
  }

  // ---------- nothing is replaced on the way back ----------

  ghost predicate AtMostTwo(f: Locate, entries: seq<Entry>) { forall at :: |At(f, entries, at)| <= 2 }

  lemma RefillHasRoom(entries: seq<Entry>)
    requires Sound(entries) && |entries| <= 1
    ensures Refill(entries).second.Vacant?
  {
    if entries != [] {
      assert Refill(entries[..0]) == EMPTY_BLOCK;
    }
  }

  lemma {:induction false} NothingIsReplaced(idx: Index, entries: seq<Entry>, s: nat, starts: seq<u64>, now: u64)
    requires Fit(idx) && idx.geo.ttl == U64_MAX && idx.geo.blocks > 0 && s < idx.geo.shards == |starts|
    requires idx.shards[s].window == Fresh(ShardShape(idx.geo, s))
    requires Sound(entries) && Stamped(LocateIn(idx.geo), entries, starts) && AtMostTwo(LocateIn(idx.geo), entries)
    ensures PutBackAll(idx, entries, now).shards[s].evictions == idx.shards[s].evictions
  {
    if entries != [] {
      var rest, e := entries[..|entries| - 1], entries[|entries| - 1];
      var f := LocateIn(idx.geo);
      forall at
        ensures |At(f, rest, at)| <= 2
      {
        assert |At(f, entries, at)| <= 2;
      }
      NothingIsReplaced(idx, rest, s, starts, now);
      if f(e.hash).0 == s {
        PutBackRebuilds(idx, rest, s, starts, now);
        BlockInBounds(idx.geo, GlobalBlock(idx.geo, e.hash));
        assert |At(f, entries, f(e.hash))| <= 2;
        RefillHasRoom(At(f, rest, f(e.hash)));
        assert BlockRebuilt(f, rest, PutBackAll(idx, rest, now).shards[s].window.gens[0].blocks[f(e.hash).1],
                            (s, f(e.hash).1));
      }
    }
  }

  // ---------- the snapshot of a tidy index ----------

  ghost function Starts(idx: Index): seq<u64>
    requires Fit(idx)
  {
    seq(|idx.shards|, s requires 0 <= s < |idx.shards| && Fit(idx) => idx.shards[s].window.gens[0].startedAt)
  }

  lemma SnapshotIsTidy(h: Hasher, n: nat, idx: Index, saved: u64)
    requires Tidy(n, idx)
    ensures SnapshotOf(h, idx, saved) == ShardsEntries(idx.shards)
  {
    forall s | 0 <= s < idx.geo.shards
      ensures ApplyIndex(h, idx, Sweep(saved)).shards[s] == idx.shards[s]
    {
      StepOfShard(h, idx, Sweep(saved), s);
      Sharding.RotateIsIdle(ShardShape(idx.geo, s), idx.shards[s].window, saved);
    }
    assert ApplyIndex(h, idx, Sweep(saved)).shards == idx.shards;
  }

  lemma EntryOfBlock(f: Locate, n: nat, b: Block, at: (nat, nat), t: u64, e: Entry)
    requires TidyBlock(f, n, b, at) && e in BlockEntries(b, t)
    ensures e.hash != 0 && e.missing != NO_SLOTS && e.insertedAt == t && Within(e.missing, n) && b != EMPTY_BLOCK
  {
  }

  lemma HeldIsStarted(f: Locate, n: nat, sh: Shape, w: Window, s: nat, l: nat)
    requires TidyShard(f, n, sh, w, s) && l < sh.blocks && w.gens[0].blocks[l] != EMPTY_BLOCK
    ensures w.gens[0].startedAt >= 1
  {
  }

  /** Every entry of a snapshot is sound and stamped with the start of its shard. */
  lemma EntryIsStamped(n: nat, idx: Index, e: Entry)
    requires Tidy(n, idx) && idx.geo.blocks > 0 && e in ShardsEntries(idx.shards)
    ensures e.hash != 0 && e.missing != NO_SLOTS && e.insertedAt >= 1 && Within(e.missing, n)
    ensures LocateIn(idx.geo)(e.hash).0 < idx.geo.shards && e.insertedAt == Starts(idx)[LocateIn(idx.geo)(e.hash).0]
  {
    var f := LocateIn(idx.geo);
    var at := f(e.hash);
    EntriesOfShards(f, n, idx.geo, idx.shards, at);
    AtElements(f, ShardsEntries(idx.shards), at);
    BlockInBounds(idx.geo, GlobalBlock(idx.geo, e.hash));
    var g := idx.shards[at.0].window.gens[0];
    assert TidyShard(f, n, ShardShape(idx.geo, at.0), idx.shards[at.0].window, at.0);
    EntryOfBlock(f, n, g.blocks[at.1], at, g.startedAt, e);
    HeldIsStarted(f, n, ShardShape(idx.geo, at.0), idx.shards[at.0].window, at.0, at.1);
  }

  /** What the restoration of a snapshot works on. */
  lemma SortedSnapshot(n: nat, idx: Index, s: nat, l: nat)
    requires Tidy(n, idx) && idx.geo.blocks > 0
    ensures var f, entries := LocateIn(idx.geo), SortByTime(ShardsEntries(idx.shards));
            && Sound(entries) && Stamped(f, entries, Starts(idx))
            && (s < idx.geo.shards && l < ShardBlocks(idx.geo, s) ==>
                  var g := idx.shards[s].window.gens[0];
                  At(f, entries, (s, l)) == BlockEntries(g.blocks[l], g.startedAt))
            && |At(f, entries, (s, l))| <= 2
  {
    var f, raw := LocateIn(idx.geo), ShardsEntries(idx.shards);
    SortElements(raw);
    forall e | e in raw
      ensures e.hash != 0 && e.missing != NO_SLOTS && e.insertedAt >= 1
      ensures f(e.hash).0 < idx.geo.shards && e.insertedAt == Starts(idx)[f(e.hash).0]
    {
      EntryIsStamped(n, idx, e);
    }
    var t: u64 := if s < idx.geo.shards then Starts(idx)[s] else 0;
    SortIsStable(f, raw, (s, l), t);
    EntriesOfShards(f, n, idx.geo, idx.shards, (s, l));
  }

  lemma TranslationIsIdle<P>(table: seq<P>, entries: seq<Entry>)
    requires Distinct(table) && |table| <= MAX_BACKENDS && forall e :: e in entries ==> Within(e.missing, |table|)
    ensures TranslatedAll(table, table, entries) == entries
  {
    forall i | 0 <= i < |entries|
      ensures Translated(table, table, entries[i]) == entries[i]
    {
      RemapSame(table, entries[i].missing);
    }
  }

  // ---------- the latch ----------

  /** Something is held only if the latch is set. */
  ghost predicate LatchTells(idx: Index) {
    Fit(idx) && (!idx.populated ==> forall s :: 0 <= s < |idx.shards| ==> idx.shards[s].window.gens[0].startedAt == 0)
  }

  lemma LatchStep(h: Hasher, idx: Index, op: Op)
    requires LatchTells(idx) && idx.geo.ttl == U64_MAX
    ensures LatchTells(ApplyIndex(h, idx, op))
  {
    if !op.Note? {
      forall s | 0 <= s < idx.geo.shards
        ensures ApplyIndex(h, idx, op).shards[s].window == idx.shards[s].window
      {
        StepOfShard(h, idx, op, s);
        Sharding.RotateIsIdle(ShardShape(idx.geo, s), idx.shards[s].window, op.now);
      }
    }
  }

  lemma {:induction false} LatchRun(h: Hasher, geo: Geometry, ops: seq<Op>)
    requires Sane(geo) && geo.ttl == U64_MAX
    ensures LatchTells(RunIndex(h, Empty(geo), ops))
  {
    if ops != [] {
      LatchRun(h, geo, ops[..|ops| - 1]);
      LatchStep(h, RunIndex(h, Empty(geo), ops[..|ops| - 1]), ops[|ops| - 1]);
    }
  }

  lemma HeldBlockCounts(blocks: seq<Block>, l: nat)
    requires l < |blocks| && blocks[l].first.Held?
    ensures CountHeld(blocks) > 0
  {
    CountUpdate(blocks, l, EMPTY_BLOCK);
  }

  lemma StartedCounts(f: Locate, n: nat, sh: Shape, w: Window, s: nat)
    requires TidyShard(f, n, sh, w, s)
    ensures Occupied(w.gens) != 0 <==> w.gens[0].startedAt != 0
  {
    var g := w.gens[0];
    OccupiedAt(w.gens, 0);
    LiveEntries(sh, w.gens, 1);
    assert w.gens[..0 + 1] == w.gens[..1] && Occupied(w.gens[..0]) == 0;
    if g.startedAt != 0 {
      var l :| 0 <= l < sh.blocks && g.blocks[l].first.Held?;
      HeldBlockCounts(g.blocks, l);
    }
  }

  lemma {:induction false} SumIsPositive(s: seq<nat>, i: nat)
    requires i < |s| && s[i] > 0
    ensures Sum(s) > 0
  {
    if i > 0 {
      SumIsPositive(s[1..], i - 1);
    }
  }

  /** Nothing is held and nothing is scheduled. */
  ghost predicate Bare(idx: Index) {
    Fit(idx) && forall s :: 0 <= s < |idx.shards| ==> idx.shards[s].window == Fresh(ShardShape(idx.geo, s))
  }

  lemma BareShard(f: Locate, n: nat, idx: Index, s: nat)
    requires Fit(idx) && s < idx.geo.shards && TidyShard(f, n, ShardShape(idx.geo, s), idx.shards[s].window, s)
    requires idx.geo.blocks > 0 ==> idx.shards[s].window.gens[0].startedAt == 0
    ensures idx.shards[s].window == Fresh(ShardShape(idx.geo, s))
  {
    var sh, w := ShardShape(idx.geo, s), idx.shards[s].window;
    if idx.geo.blocks == 0 {
      HomeAndSeat(idx.geo.shards, 0);
      assert sh.blocks == 0;
    }
    assert w.gens == Fresh(sh).gens;
  }

  lemma TotalTells(n: nat, idx: Index)
    requires Tidy(n, idx) && LatchTells(idx)
    ensures if TotalEntries(idx) == 0 then Bare(idx) else idx.populated
  {
    forall s | 0 <= s < idx.geo.shards
      ensures EntryCounts(idx.shards)[s] != 0 <==> idx.shards[s].window.gens[0].startedAt != 0
    {
      StartedCounts(LocateIn(idx.geo), n, ShardShape(idx.geo, s), idx.shards[s].window, s);
    }
    if TotalEntries(idx) == 0 {
      forall s | 0 <= s < idx.geo.shards
        ensures idx.shards[s].window == Fresh(ShardShape(idx.geo, s))
      {
        if EntryCounts(idx.shards)[s] != 0 {
          SumIsPositive(EntryCounts(idx.shards), s);
        }
        BareShard(LocateIn(idx.geo), n, idx, s);
      }
    } else if !idx.populated {
      Sharding.SumIsZero(EntryCounts(idx.shards));
    }
  }

  // ---------- loading keeps an index tidy ----------

  lemma TidyRestore(f: Locate, n: nat, sh: Shape, w: Window, s: nat, e: Entry, block: nat, now: u64)
    requires TidyShard(f, n, sh, w, s) && sh.interval == U64_MAX && Within(e.missing, n)
    requires e.missing != NO_SLOTS ==> e.insertedAt >= 1
    requires sh.blocks != 0 ==> block < sh.blocks && f(e.hash) == (s, block)
    ensures TidyShard(f, n, sh, RestoreEntry(sh, w, e, block, now, U64_MAX), s)
  {
    if !Skipped(sh, e, now, U64_MAX) {
      var g, fp := Backdate(w.gens[0], e.insertedAt), Fingerprint(e.hash, e.tag);
      var w' := RestoreEntry(sh, w, e, block, now, U64_MAX);
      InsertGenCounts(g, fp, e.key, e.missing, block);
      TidyInsert(f, n, g.blocks[block], fp, e.key, e.missing);
      assert w'.gens[0].blocks[block].first.Held?;
    }
  }

  lemma TidyPutBack(n: nat, idx: Index, e: Entry, now: u64)
    requires Tidy(n, idx) && Within(e.missing, n) && (e.missing != NO_SLOTS ==> e.insertedAt >= 1)
    ensures Tidy(n, PutBack(idx, e, now))
  {
    hide TidyShard, RestoreEntry, RestoreDropped;
    var s := ShardOf(idx.geo, e.hash);
    Lands(idx.geo, e.hash);
    TidyRestore(LocateIn(idx.geo), n, ShardShape(idx.geo, s), idx.shards[s].window, s, e,
                LocalBlock(idx.geo, e.hash), now);
  }

  lemma {:induction false} TidyPutBackAll(n: nat, idx: Index, entries: seq<Entry>, now: u64)
    requires Tidy(n, idx)
    requires forall e :: e in entries ==> Within(e.missing, n) && (e.missing != NO_SLOTS ==> e.insertedAt >= 1)
    ensures Tidy(n, PutBackAll(idx, entries, now))
  {
    hide TidyShard, PutBack;
    if entries != [] {
      var m := |entries| - 1;
      assert entries[m] in entries && forall e :: e in entries[..m] ==> e in entries;
      TidyPutBackAll(n, idx, entries[..m], now);
      TidyPutBack(n, PutBackAll(idx, entries[..m], now), entries[m], now);
    }
  }

  lemma TidyEmpty(n: nat, geo: Geometry, populated: bool)
    requires Sane(geo) && geo.ttl == U64_MAX
    ensures Tidy(n, Empty(geo).(populated := populated))
  {
    forall s | 0 <= s < geo.shards
      ensures TidyShard(LocateIn(geo), n, ShardShape(geo, s), Fresh(ShardShape(geo, s)), s)
    {
      TidyEmptyShard(LocateIn(geo), n, ShardShape(geo, s), s);
    }
  }

  lemma SettledTidy(n: nat, idx: Index)
    requires Tidy(n, idx)
    ensures Tidy(n, Settled(idx)) && LatchTells(Settled(idx))
  {
    hide TidyShard;
    forall s | 0 <= s < idx.geo.shards
      ensures Settled(idx).shards[s] == idx.shards[s]
    {
      SettledStays(LocateIn(idx.geo), n, ShardShape(idx.geo, s), idx.shards[s].window, s);
    }
    if !Settled(idx).populated {
      assert LatchTells(idx.(populated := true));
      TotalTells(n, idx.(populated := true));
    }
  }

  /** Loading any snapshot of observations leaves a tidy index. */
  lemma TidyLoad<P>(idx: Index, table: seq<P>, stored: seq<P>, entries: seq<Entry>, now: u64)
    requires Fit(idx) && idx.geo.ttl == U64_MAX && |table| <= MAX_BACKENDS && |stored| <= MAX_BACKENDS
    requires forall e, p: Slot :: e in entries && Has(e.missing, p) && p < |stored| ==> e.insertedAt >= 1
    ensures var idx' := RestoreInto(idx, table, stored, entries, now); Tidy(|table|, idx') && LatchTells(idx')
  {
    hide Tidy, PutBackAll, Settled, SortByTime, Remap;
    SortElements(entries);
    var sorted, n := SortByTime(entries), |table|;
    var mapped := TranslatedAll(table, stored, sorted);
    forall e | e in mapped
      ensures Within(e.missing, n) && (e.missing != NO_SLOTS ==> e.insertedAt >= 1)
    {
      var i :| 0 <= i < |mapped| && mapped[i] == e;
      assert sorted[i] in sorted;
      TranslatedWithin(table, stored, sorted[i]);
    }
    TidyEmpty(n, idx.geo, idx.populated);
    TidyPutBackAll(n, Empty(idx.geo).(populated := idx.populated), mapped, now);
    SettledTidy(n, PutBackAll(Empty(idx.geo).(populated := idx.populated), mapped, now));
  }

  lemma TranslatedWithin<P>(table: seq<P>, stored: seq<P>, e: Entry)
    requires |table| <= MAX_BACKENDS && |stored| <= MAX_BACKENDS
    requires forall p: Slot :: Has(e.missing, p) && p < |stored| ==> e.insertedAt >= 1
    ensures var e' := Translated(table, stored, e);
            Within(e'.missing, |table|) && (e'.missing != NO_SLOTS ==> e'.insertedAt >= 1)
  {
    hide Remap;
    var bits := Translated(table, stored, e).missing;
    forall q: Slot | Has(bits, q)
      ensures q < |table| && e.insertedAt >= 1
    {
      RemapMeans(table, stored, e.missing, |stored|, q);
    }
    if bits != NO_SLOTS {
      var q :| 0 <= q < MAX_BACKENDS && bits[q];
      assert Has(bits, q);
    }
  }

  // ---------- the theorem ----------

  /**
    The same content; the eviction counters may differ by what was counted before, and the
    latch of an index that holds nothing does not matter.
   */
  ghost predicate Twins(x: Index, y: Index, counted: seq<nat>) {
    && Fit(x) && Fit(y) && x.geo == y.geo && |counted| == x.geo.shards && (x.populated == y.populated || Bare(x))
    && forall s :: 0 <= s < x.geo.shards ==>
         x.shards[s].window == y.shards[s].window && x.shards[s].evictions + counted[s] == y.shards[s].evictions
  }

  lemma TwinsStep(h: Hasher, x: Index, y: Index, counted: seq<nat>, op: Op)
    requires Twins(x, y, counted)
    ensures Twins(ApplyIndex(h, x, op), ApplyIndex(h, y, op), counted)
  {
    forall s | 0 <= s < x.geo.shards
      ensures ApplyIndex(h, x, op).shards[s].window == ApplyIndex(h, y, op).shards[s].window
      ensures ApplyIndex(h, x, op).shards[s].evictions + counted[s] == ApplyIndex(h, y, op).shards[s].evictions
    {
      StepOfShard(h, x, op, s);
      StepOfShard(h, y, op, s);
      if x.populated != y.populated {
        FreshIsStill(ShardShape(x.geo, s), op.now);
      }
    }
    if Bare(x) && !op.Note? {
      BareStays(h, x, op);
    }
  }

  lemma BareStays(h: Hasher, x: Index, op: Op)
    requires Bare(x) && !op.Note?
    ensures Bare(ApplyIndex(h, x, op))
  {
    forall s | 0 <= s < x.geo.shards
      ensures ApplyIndex(h, x, op).shards[s].window == Fresh(ShardShape(x.geo, s))
    {
      StepOfShard(h, x, op, s);
      FreshIsStill(ShardShape(x.geo, s), op.now);
    }
  }

  lemma {:induction false} TwinsRun(h: Hasher, x: Index, y: Index, counted: seq<nat>, ops: seq<Op>)
    requires Twins(x, y, counted)
    ensures Twins(RunIndex(h, x, ops), RunIndex(h, y, ops), counted)
  {
    if ops != [] {
      TwinsRun(h, x, y, counted, ops[..|ops| - 1]);
      TwinsStep(h, RunIndex(h, x, ops[..|ops| - 1]), RunIndex(h, y, ops[..|ops| - 1]), counted, ops[|ops| - 1]);
    }
  }

  /** Restoring the sorted entries of a tidy index into cleared shards gives its shards. */
  lemma ShardComesBack(n: nat, idx: Index, cleared: Index, s: nat, now: u64)
    requires Tidy(n, idx) && idx.geo.blocks > 0 && Fit(cleared) && cleared.geo == idx.geo && s < idx.geo.shards
    requires cleared.shards[s] == New(ShardShape(idx.geo, s))
    ensures PutBackAll(cleared, SortByTime(ShardsEntries(idx.shards)), now).shards[s] == Shard(idx.shards[s].window, 0)
  {
    var f, entries := LocateIn(idx.geo), SortByTime(ShardsEntries(idx.shards));
    SortedSnapshot(n, idx, s, 0);
    forall at: (nat, nat)
      ensures |At(f, entries, at)| <= 2
    {
      SortedSnapshot(n, idx, at.0, at.1);
    }
    forall l | 0 <= l < ShardBlocks(idx.geo, s)
      ensures var g := idx.shards[s].window.gens[0]; At(f, entries, (s, l)) == BlockEntries(g.blocks[l], g.startedAt)
    {
      SortedSnapshot(n, idx, s, l);
    }
    PutBackRebuilds(cleared, entries, s, Starts(idx), now);
    NothingIsReplaced(cleared, entries, s, Starts(idx), now);
    RebuiltIsOriginal(f, n, ShardShape(idx.geo, s), entries, idx.shards[s].window,
                      PutBackAll(cleared, entries, now).shards[s].window, s);
  }

  ghost function Counters(idx: Index): seq<nat> { EvictionCounts(idx.shards) }

  lemma {:induction false} NothingComesBack(idx: Index, entries: seq<Entry>, now: u64)
    requires Fit(idx) && idx.geo.blocks == 0
    ensures PutBackAll(idx, entries, now).shards == idx.shards
  {
    if entries != [] {
      NothingComesBack(idx, entries[..|entries| - 1], now);
      HomeAndSeat(idx.geo.shards, 0);
      assert ShardBlocks(idx.geo, ShardOf(idx.geo, entries[|entries| - 1].hash)) == 0;
    }
  }

  lemma SnapshotComesBack(n: nat, idx: Index, cleared: Index, loaded: u64)
    requires Tidy(n, idx) && Fit(cleared) && cleared.geo == idx.geo && cleared.shards == Empty(idx.geo).shards
    ensures var filled := PutBackAll(cleared, SortByTime(ShardsEntries(idx.shards)), loaded);
            && TotalEntries(filled) == TotalEntries(idx)
            && forall s :: 0 <= s < idx.geo.shards ==> filled.shards[s] == Shard(idx.shards[s].window, 0)
  {
    var filled := PutBackAll(cleared, SortByTime(ShardsEntries(idx.shards)), loaded);
    forall s | 0 <= s < idx.geo.shards
      ensures filled.shards[s] == Shard(idx.shards[s].window, 0)
    {
      if idx.geo.blocks > 0 {
        ShardComesBack(n, idx, cleared, s, loaded);
      } else {
        BareShard(LocateIn(idx.geo), n, idx, s);
        NothingComesBack(cleared, SortByTime(ShardsEntries(idx.shards)), loaded);
      }
    }
    assert EntryCounts(filled.shards) == EntryCounts(idx.shards);
  }

  lemma SettledTwin(n: nat, idx: Index, filled: Index)
    requires Tidy(n, idx) && LatchTells(idx) && Fit(filled) && filled.geo == idx.geo
    requires TotalEntries(filled) == TotalEntries(idx)
    requires forall s :: 0 <= s < idx.geo.shards ==> filled.shards[s] == Shard(idx.shards[s].window, 0)
    ensures Twins(Settled(filled), idx, Counters(idx))
  {
    TotalTells(n, idx);
    forall s | 0 <= s < idx.geo.shards
      ensures Reanchor(ShardShape(idx.geo, s), filled.shards[s].window) == idx.shards[s].window
    {
      SettledStays(LocateIn(idx.geo), n, ShardShape(idx.geo, s), idx.shards[s].window, s);
    }
  }

  lemma EntryIsWithin(n: nat, idx: Index, e: Entry)
    requires Tidy(n, idx) && e in ShardsEntries(idx.shards)
    ensures Within(e.missing, n)
  {
    if idx.geo.blocks > 0 {
      EntryIsStamped(n, idx, e);
    } else {
      EntriesOfShards(LocateIn(idx.geo), n, idx.geo, idx.shards, LocateIn(idx.geo)(e.hash));
      AtElements(LocateIn(idx.geo), ShardsEntries(idx.shards), LocateIn(idx.geo)(e.hash));
    }
  }

  /** The saved index and the one that loads its snapshot are twins. */
  lemma LoadIsTwin<P>(h: Hasher, table: seq<P>, idx: Index, target: Index, saved: u64, loaded: u64)
    requires Tidy(|table|, idx) && LatchTells(idx) && Distinct(table) && |table| <= MAX_BACKENDS
    requires Fit(target) && target.geo == idx.geo
    ensures Twins(RestoreInto(target, table, table, SnapshotOf(h, idx, saved), loaded), idx, Counters(idx))
  {
    var n := |table|;
    var raw := ShardsEntries(idx.shards);
    SnapshotIsTidy(h, n, idx, saved);
    SortElements(raw);
    forall e | e in SortByTime(raw)
      ensures Within(e.missing, n)
    {
      EntryIsWithin(n, idx, e);
    }
    TranslationIsIdle(table, SortByTime(raw));
    var cleared := Empty(idx.geo).(populated := target.populated);
    SnapshotComesBack(n, idx, cleared, loaded);
    SettledTwin(n, idx, PutBackAll(cleared, SortByTime(raw), loaded));
  }

  lemma TwinAnswers(h: Hasher, x: Index, y: Index, counted: seq<nat>, key: Key, now: u64)
    requires Twins(x, y, counted)
    ensures AnswerIndex(h, x, key, now) == AnswerIndex(h, y, key, now)
  {
    var s := ShardOf(x.geo, h(key).hash);
    RoutesIn(x.geo, h, s);
    if x.populated != y.populated {
      FreshAnswers(ShardShape(x.geo, s), RouteIn(x.geo, h, s)(key), key, now);
    }
  }

  /**
    Save then load is exact without expiry: after any history, an index of the same geometry
    and provider table that loads the snapshot, whatever it held before, holds every block
    slot for slot, with nothing replaced, and from then on answers every lookup and chooses
    every victim as the saved index does.
   */
  lemma SaveLoadIsExact<P>(h: Hasher, table: seq<P>, geo: Geometry, ops: seq<Op>, target: Index,
                           saved: u64, loaded: u64, more: seq<Op>, key: Key, now: u64)
    requires Sane(geo) && geo.ttl == U64_MAX && Distinct(table) && |table| <= MAX_BACKENDS
    requires NotesWithin(ops, |table|) && Fit(target) && target.geo == geo
    ensures var original := RunIndex(h, Empty(geo), ops);
            var restored := RestoreInto(target, table, table, SnapshotOf(h, original, saved), loaded);
            && Twins(restored, original, Counters(original))
            && Twins(RunIndex(h, restored, more), RunIndex(h, original, more), Counters(original))
            && AnswerIndex(h, RunIndex(h, restored, more), key, now) ==
               AnswerIndex(h, RunIndex(h, original, more), key, now)
  {
    var original := RunIndex(h, Empty(geo), ops);
    var restored := RestoreInto(target, table, table, SnapshotOf(h, original, saved), loaded);
    TidyRun(h, |table|, geo, ops);
    LatchRun(h, geo, ops);
    LoadIsTwin(h, table, original, target, saved, loaded);
    TwinsRun(h, restored, original, Counters(original), more);
    TwinAnswers(h, RunIndex(h, restored, more), RunIndex(h, original, more), Counters(original), key, now);
  }
}
