/**
  A restart with expiry: what a proxy reports after loading the snapshot that another one,
  or it itself, saved, said of the generations that were saved.
 */
module Resuming {
  import opened Words
  import opened Blocks
  import opened Rotation
  import opened Snapshots
  import opened Index
  import opened Restoring
  import opened Loading
  import opened Identities
  import opened SnapshotCodec
  import opened Worlds
  import Counting
  import LatchSteps
  import Longest
  import Projection
  import Retention
  import Savable

  // ---------- the entries of a snapshot ----------

  ghost predicate CellWrites(c: Cell, t: u64, e: Entry) {
    c.Held? && c.missing != NO_SLOTS && e == Entry(c.fp.hash, c.fp.tag, c.key, c.missing, t)
  }

  ghost predicate BlockWrites(b: Block, t: u64, e: Entry) { CellWrites(b.first, t, e) || CellWrites(b.second, t, e) }

  lemma WrittenByBlock(b: Block, t: u64, e: Entry)
    ensures e in BlockEntries(b, t) <==> BlockWrites(b, t, e)
  {
  }

  lemma {:induction false} WrittenByBlocks(blocks: seq<Block>, t: u64, e: Entry)
    ensures e in BlocksEntries(blocks, t) <==> exists l :: 0 <= l < |blocks| && BlockWrites(blocks[l], t, e)
  {
    hide BlockWrites, BlockEntries;
    if blocks != [] {
      var n := |blocks| - 1;
      WrittenByBlocks(blocks[..n], t, e);
      WrittenByBlock(blocks[n], t, e);
      assert forall l :: 0 <= l < n ==> blocks[..n][l] == blocks[l];
    }
  }

  lemma {:induction false} WrittenByGens(gens: seq<Gen>, e: Entry)
    ensures e in GensEntries(gens) <==>
            exists a, l :: 0 <= a < |gens| && 0 <= l < |gens[a].blocks|
                           && BlockWrites(gens[a].blocks[l], gens[a].startedAt, e)
  {
    hide BlockWrites;
    if gens != [] {
      var n := |gens| - 1;
      WrittenByGens(gens[..n], e);
      WrittenByBlocks(gens[n].blocks, gens[n].startedAt, e);
      assert forall a :: 0 <= a < n ==> gens[..n][a] == gens[a];
    }
  }

  lemma {:induction false} WrittenByShards(shards: seq<Shard>, e: Entry)
    ensures e in ShardsEntries(shards) <==>
            exists s :: 0 <= s < |shards| && e in GensEntries(shards[s].window.gens)
  {
    hide GensEntries, BlocksEntries;
    if shards != [] {
      var n := |shards| - 1;
      WrittenByShards(shards[..n], e);
      assert forall s :: 0 <= s < n ==> shards[..n][s] == shards[s];
    }
  }

  function StartAt(idx: Index, at: Place): u64
    requires Fit(idx) && InRange(idx.geo, at)
  {
    idx.shards[at.shard].window.gens[at.age].startedAt
  }

  /** The index writes the entry for a slot of this block. */
  ghost predicate Writes(idx: Index, at: Place, e: Entry)
    requires Fit(idx)
  {
    InRange(idx.geo, at) && BlockWrites(BlockAt(idx, at), StartAt(idx, at), e)
  }

  lemma WrittenByIndex(idx: Index, e: Entry)
    requires Fit(idx)
    ensures e in ShardsEntries(idx.shards) <==> exists at :: Writes(idx, at, e)
  {
    hide BlockWrites, GensEntries, ShardBlocks, ShardsEntries;
    WrittenByShards(idx.shards, e);
    forall s | 0 <= s < |idx.shards|
      ensures e in GensEntries(idx.shards[s].window.gens) <==>
              exists at: Place :: at.shard == s && Writes(idx, at, e)
    {
      var gens := idx.shards[s].window.gens;
      WrittenByGens(gens, e);
      if e in GensEntries(gens) {
        var a, l :|
          0 <= a < |gens| && 0 <= l < |gens[a].blocks| && BlockWrites(gens[a].blocks[l], gens[a].startedAt, e);
        assert Writes(idx, Place(s, a, l), e);
      }
    }
  }

  // ---------- every fact sits where its hash belongs ----------

  ghost predicate PlacedCell(geo: Geometry, at: Place, c: Cell)
    requires Sane(geo)
  {
    c.Held? ==> ShardOf(geo, c.fp.hash) == at.shard && LocalBlock(geo, c.fp.hash) == at.block
  }

  ghost predicate PlacedBlock(geo: Geometry, at: Place, b: Block)
    requires Sane(geo)
  {
    PlacedCell(geo, at, b.first) && PlacedCell(geo, at, b.second)
  }

  ghost predicate Placed(idx: Index)
    requires Fit(idx)
  {
    forall at :: InRange(idx.geo, at) ==> PlacedBlock(idx.geo, at, BlockAt(idx, at))
  }

  /** A rotation moves whole generations. */
  lemma RotatedBlock(sh: Shape, w: Window, now: nat, a: nat, l: nat)
    requires Fits(sh, w) && a < sh.generations && l < sh.blocks
    ensures Fits(sh, Rotate(sh, w, now))
    ensures var b := Rotate(sh, w, now).gens[a].blocks[l];
            b == EMPTY_BLOCK || exists c :: 0 <= c < sh.generations && b == w.gens[c].blocks[l]
  {
    if Due(sh, w, now) {
      var r := Rotations(sh, w, now);
      if a >= r {
        assert Rotate(sh, w, now).gens[a] == w.gens[a - r];
      }
    }
  }

  /** What an operation makes of one block. */
  lemma AppliedBlock(sh: Shape, route: Route, s: Shard, op: Op, a: nat, l: nat)
    requires Fits(sh, s.window) && Routes(sh, route) && a < sh.generations && l < sh.blocks
    ensures Fits(sh, Rotate(sh, s.window, op.now))
    ensures var b := Apply(sh, route, s, op).window.gens[a].blocks[l];
            var r := Rotate(sh, s.window, op.now).gens[a].blocks[l];
            || b == r
            || (op.Note? && route(op.key).block == l && b == InsertBlock(r, route(op.key).fp, op.key, op.bits))
  {
    hide InsertBlock, OutcomeOf, Rotations;
    RotatedBlock(sh, s.window, op.now, a, l);
  }

  lemma InsertPlaces(geo: Geometry, at: Place, b: Block, fp: Fingerprint, key: Key, bits: Mask)
    requires Sane(geo) && PlacedBlock(geo, at, b)
    requires ShardOf(geo, fp.hash) == at.shard && LocalBlock(geo, fp.hash) == at.block
    ensures PlacedBlock(geo, at, InsertBlock(b, fp, key, bits))
  {
    hide ShardOf, LocalBlock;
  }

  lemma StepPlaces(h: Hasher, idx: Index, op: Op)
    requires Fit(idx) && Placed(idx)
    ensures Placed(ApplyIndex(h, idx, op))
  {
    hide ApplyIndex, Apply, Rotate, ShardBlocks, GlobalBlock, PlacedCell, InsertBlock;
    var idx', geo := ApplyIndex(h, idx, op), idx.geo;
    forall at | InRange(geo, at)
      ensures PlacedBlock(geo, at, BlockAt(idx', at))
    {
      StepOfShard(h, idx, op, at.shard);
      var sh, w, route := ShardShape(geo, at.shard), idx.shards[at.shard].window, RouteIn(geo, h, at.shard);
      if !Ignored(idx, op) && Touches(geo, h, op, at.shard) {
        RotatedPlaces(idx, op.now, at);
        AppliedBlock(sh, route, idx.shards[at.shard], op, at.age, at.block);
        if op.Note? && route(op.key).block == at.block {
          var r := Rotate(sh, w, op.now).gens[at.age].blocks[at.block];
          InsertPlaces(geo, at, r, h(op.key), op.key, op.bits);
        }
      } else {
        assert BlockAt(idx', at) == BlockAt(idx, at);
      }
    }
  }

  lemma RotatedPlaces(idx: Index, now: nat, at: Place)
    requires Fit(idx) && Placed(idx) && InRange(idx.geo, at)
    ensures var sh, w := ShardShape(idx.geo, at.shard), idx.shards[at.shard].window;
            && Fits(sh, Rotate(sh, w, now))
            && PlacedBlock(idx.geo, at, Rotate(sh, w, now).gens[at.age].blocks[at.block])
  {
    hide Rotate, ShardBlocks, GlobalBlock;
    var sh, w := ShardShape(idx.geo, at.shard), idx.shards[at.shard].window;
    RotatedBlock(sh, w, now, at.age, at.block);
    var b := Rotate(sh, w, now).gens[at.age].blocks[at.block];
    if b != EMPTY_BLOCK {
      var c :| 0 <= c < sh.generations && b == w.gens[c].blocks[at.block];
      assert InRange(idx.geo, at.(age := c)) && BlockAt(idx, at.(age := c)) == b;
    }
  }

  /** Whatever is loaded sits where its hash belongs. */
  lemma LoadPlaces<P>(idx: Index, table: seq<P>, stored: seq<P>, entries: seq<Entry>, now: u64)
    requires Fit(idx) && |stored| <= MAX_BACKENDS && |table| <= MAX_BACKENDS
    ensures Placed(RestoreInto(idx, table, stored, entries, now))
  {
    hide Settled, PutBackAll, Empty, TranslatedAll, SortByTime, ShardBlocks, GlobalBlock, Filled, ShardOf, LocalBlock;
    var geo, cleared, mapped := idx.geo, Empty(idx.geo).(populated := idx.populated), Sorted(table, stored, entries);
    EmptyHolds(geo, idx.populated);
    var filled := PutBackAll(cleared, mapped, now);
    forall at | InRange(geo, at)
      ensures PlacedBlock(geo, at, BlockAt(Settled(filled), at))
    {
      NoBlocksNoPlace(geo, at);
      var before := TurnedBack(filled, at);
      SettledAt(filled, before);
      PutBackFills(cleared, mapped, now, before);
      FilledPlaces(geo, mapped, now, before);
      assert at == before.(age := at.age);
    }
  }

  lemma FilledPlaces(geo: Geometry, entries: seq<Entry>, now: nat, at: Place)
    requires Sane(geo)
    ensures PlacedBlock(geo, at, Filled(geo, entries, now, at))
  {
    hide Filled, ShardOf, LocalBlock;
    FilledIsNamed(geo, entries, now, at);
  }

  lemma NoBlocksNoPlace(geo: Geometry, at: Place)
    requires Sane(geo) && InRange(geo, at)
    ensures geo.blocks > 0
  {
    HomeAndSeat(geo.shards, 0);
  }

  lemma EmptyPlaces(geo: Geometry)
    requires Sane(geo)
    ensures Placed(Empty(geo))
  {
    EmptyHolds(geo, false);
    assert Empty(geo).(populated := false) == Empty(geo);
  }

  lemma LoadedPlaces(utf8: Utf8, proxy: Proxy, data: seq<byte>, now: u64)
    requires Fit(proxy.index) && |proxy.layout| <= MAX_BACKENDS && Placed(proxy.index)
    ensures Placed(LoadedIndex(utf8, proxy, data, now))
  {
    hide Parse, RestoreInto, Placed;
    match Parse(utf8, data)
    case Failed =>
    case Legacy =>
      var none: seq<Host>, nothing: seq<Entry> := [], [];
      LoadPlaces(proxy.index, proxy.layout, none, nothing, now);
    case Read(s) =>
      LoadPlaces(proxy.index, proxy.layout, s.hosts, s.entries, now);
  }

  lemma {:induction false} HistoryPlaces(h: Hasher, utf8: Utf8, steps: seq<Step>, id: nat)
    requires id in Happen(h, utf8, steps).proxies
    ensures Placed(Happen(h, utf8, steps).proxies[id].index)
  {
    hide Placed, ApplyIndex, LoadedIndex, Perform, Empty;
    if steps != [] {
      var rest, step := steps[..|steps| - 1], steps[|steps| - 1];
      var before := Happen(h, utf8, rest);
      PerformChanges(h, utf8, before, step);
      if Possible(before, step) && step.id == id {
        match step
        case Boot(_, geo, _) => EmptyPlaces(geo);
        case Do(_, op) =>
          HistoryPlaces(h, utf8, rest, id);
          StepPlaces(h, before.proxies[id].index, op);
        case Save(_, _, at) =>
          HistoryPlaces(h, utf8, rest, id);
          StepPlaces(h, before.proxies[id].index, Sweep(at));
        case Load(_, file, at) =>
          HistoryPlaces(h, utf8, rest, id);
          LoadedPlaces(utf8, before.proxies[id], before.files[file], at);
      } else {
        HistoryPlaces(h, utf8, rest, id);
      }
    }
  }

  // ---------- what is reported after a restart ----------

  /** The index as a save leaves it. */
  function Swept(h: Hasher, idx: Index, saved: u64): (swept: Index)
    requires Fit(idx)
    ensures Fit(swept) && swept.geo == idx.geo
  {
    ApplyIndex(h, idx, Sweep(saved))
  }

  /** The fact is in a generation of this age, started less than `ttl` ago. */
  ghost predicate KnownSince(h: Hasher, idx: Index, at: Place, key: Key, p: Slot, now: nat, ttl: nat)
    requires Fit(idx)
  {
    InRange(idx.geo, at) && Finds(BlockAt(idx, at), h(key), key, p) && SatSub(now, StartAt(idx, at)) < ttl
  }

  lemma FoundIsWritten(b: Block, t: u64, fp: Fingerprint, key: Key, p: Slot)
    ensures Finds(b, fp, key, p) <==>
            exists e :: BlockWrites(b, t, e) && e.key == key && e.hash == fp.hash && e.tag == fp.tag
                        && Has(e.missing, p)
  {
    FindsMeans(b, fp, key, p);
    if Matches(b.first, fp, key) && Has(b.first.missing, p) {
      assert CellWrites(b.first, t, Entry(fp.hash, fp.tag, key, b.first.missing, t));
    }
    if Matches(b.second, fp, key) && Has(b.second.missing, p) {
      assert CellWrites(b.second, t, Entry(fp.hash, fp.tag, key, b.second.missing, t));
    }
  }

  lemma WrittenAt(b: Block, t: u64, e: Entry)
    requires BlockWrites(b, t, e)
    ensures e.insertedAt == t && e.hash != 0 && e.missing != NO_SLOTS
  {
  }

  /** A recent entry of the snapshot that names provider `q` is a fact of a generation started recently enough. */
  lemma SavedReports<P>(h: Hasher, idx: Index, table: seq<P>, stored: seq<P>, now: nat, ttl: nat, key: Key, q: Slot)
    requires Fit(idx)
    ensures (exists e :: e in ShardsEntries(idx.shards) && IsFor(h, key, e) && Recent(e, now, ttl)
                         && Reported(table, stored, e, q)) <==>
            exists at, p: Slot :: KnownSince(h, idx, at, key, p, now, ttl)
                                  && p < |stored| && q < |table| && table[q] == stored[p]
  {
    hide BlockWrites, Finds, ShardsEntries, InRange, BlockAt, StartAt;
    if e :| e in ShardsEntries(idx.shards) && IsFor(h, key, e) && Recent(e, now, ttl) && Reported(table, stored, e, q) {
      WrittenByIndex(idx, e);
      var at :| Writes(idx, at, e);
      var p: Slot :| p < |stored| && Has(e.missing, p) && table[q] == stored[p];
      WrittenAt(BlockAt(idx, at), StartAt(idx, at), e);
      FoundIsWritten(BlockAt(idx, at), StartAt(idx, at), h(key), key, p);
      assert KnownSince(h, idx, at, key, p, now, ttl);
    }
    if at, p: Slot :| KnownSince(h, idx, at, key, p, now, ttl) && p < |stored| && q < |table| && table[q] == stored[p] {
      var b, t := BlockAt(idx, at), StartAt(idx, at);
      FoundIsWritten(b, t, h(key), key, p);
      var e :|
        BlockWrites(b, t, e) && e.key == key && e.hash == h(key).hash && e.tag == h(key).tag && Has(e.missing, p);
      WrittenAt(b, t, e);
      assert Writes(idx, at, e);
      WrittenByIndex(idx, e);
    }
  }

  lemma SavedIsDated(idx: Index)
    requires Counting.CountedIndex(idx)
    ensures forall e :: e in ShardsEntries(idx.shards) ==> e.insertedAt >= 1
  {
    hide ShardsEntries, BlockWrites, CountHeld;
    forall e | e in ShardsEntries(idx.shards)
      ensures e.insertedAt >= 1
    {
      WrittenByIndex(idx, e);
      var at :| Writes(idx, at, e);
      WrittenAt(BlockAt(idx, at), StartAt(idx, at), e);
      if StartAt(idx, at) == 0 {
        assert idx.shards[at.shard].window.gens[at.age] == EmptyGen(ShardBlocks(idx.geo, at.shard));
        NothingWritten(0, e);
      }
    }
  }

  lemma NothingWritten(t: u64, e: Entry)
    ensures !BlockWrites(EMPTY_BLOCK, t, e)
  {
  }

  /**
    A restart, exactly: what a lookup reports when a snapshot has been loaded is what the
    saved generations younger than the time to live knew, unless all that was loaded into
    its shard is in the last age class and some of it older than all generations.
   */
  lemma ResumedReportsIff<P>(h: Hasher, idx: Index, saved: u64, other: Index, table: seq<P>, stored: seq<P>, now: u64,
                             key: Key, q: Slot)
    requires Counting.CountedIndex(idx) && Fit(other) && other.geo.blocks > 0 && now < U64_MAX
    requires |stored| <= MAX_BACKENDS && |table| <= MAX_BACKENDS && Distinct(table)
    requires Roomy(other.geo, SnapshotOf(h, idx, saved), now)
    ensures var entries := SnapshotOf(h, idx, saved);
            Has(AnswerIndex(h, RestoreInto(other, table, stored, entries, now), key, now), q) <==>
            && !OnlyStale(other.geo, table, stored, entries, now, ShardOf(other.geo, h(key).hash))
            && exists at, p: Slot :: KnownSince(h, Swept(h, idx, saved), at, key, p, now, other.geo.ttl)
                                     && p < |stored| && q < |table| && table[q] == stored[p]
  {
    hide AnswerIndex, RestoreInto, OnlyStale, KnownSince, Roomy, ApplyIndex, ShardsEntries, Counting.CountedIndex,
         Reported, Distinct, IsFor, Recent;
    Counting.CountedFits(idx);
    Counting.StepConserves(h, idx, Sweep(saved));
    SavedIsDated(Swept(h, idx, saved));
    LoadAnswersIff(h, other, table, stored, SnapshotOf(h, idx, saved), now, key, q);
    SavedReports(h, Swept(h, idx, saved), table, stored, now, other.geo.ttl, key, q);
  }

  // ---------- a restart that is not noticed ----------

  /** Any two started generations of a shard fall into different age classes. */
  ghost predicate Spread(idx: Index, geo: Geometry, now: nat)
    requires Fit(idx) && Sane(geo)
  {
    forall s, a, b :: 0 <= s < idx.geo.shards && 0 <= a < b < idx.geo.generations ==>
      var gens := idx.shards[s].window.gens;
      gens[a].startedAt != 0 && gens[b].startedAt != 0 ==>
        AgeOf(ShardShape(geo, 0), gens[a].startedAt, now) != AgeOf(ShardShape(geo, 0), gens[b].startedAt, now)
  }

  lemma SamePlace(idx: Index, geo: Geometry, now: nat, at: Place, bt: Place, x: Entry, y: Entry)
    requires Fit(idx) && Sane(geo) && geo.blocks == idx.geo.blocks && Placed(idx) && Spread(idx, geo, now)
    requires Writes(idx, at, x) && Writes(idx, bt, y) && x.insertedAt >= 1 && y.insertedAt >= 1
    requires Meet(geo, x, y, now)
    ensures at == bt
  {
    hide Xor, AgeOf, ShardBlocks, Home, Seat;
    assert PlacedBlock(idx.geo, at, BlockAt(idx, at)) && PlacedBlock(idx.geo, bt, BlockAt(idx, bt));
    WrittenAt(BlockAt(idx, at), StartAt(idx, at), x);
    WrittenAt(BlockAt(idx, bt), StartAt(idx, bt), y);
    assert GlobalBlock(geo, x.hash) == GlobalBlock(idx.geo, x.hash);
    assert at.shard == bt.shard && at.block == bt.block;
  }

  lemma TwoInABlock(b: Block, t: u64, x: Entry, y: Entry, z: Entry)
    requires BlockWrites(b, t, x) && BlockWrites(b, t, y) && BlockWrites(b, t, z)
    ensures SameName(x, y) || SameName(y, z) || SameName(x, z)
  {
  }

  /** A snapshot of such an index has room in every index with as many blocks, whatever the shard counts. */
  lemma SpreadIsRoomy(idx: Index, geo: Geometry, now: nat)
    requires Counting.CountedIndex(idx) && Sane(geo) && geo.blocks == idx.geo.blocks
    requires Placed(idx) && Spread(idx, geo, now)
    ensures Roomy(geo, ShardsEntries(idx.shards), now)
  {
    hide Placed, Spread, ShardsEntries, Meet, BlockWrites, SameName, Recent, Counting.CountedIndex;
    Counting.CountedFits(idx);
    SavedIsDated(idx);
    var entries := ShardsEntries(idx.shards);
    forall x, y, z |
      && x in entries && y in entries && z in entries
      && Recent(x, now, geo.ttl) && Recent(y, now, geo.ttl) && Recent(z, now, geo.ttl)
      && Meet(geo, x, y, now) && Meet(geo, x, z, now)
      ensures SameName(x, y) || SameName(y, z) || SameName(x, z)
    {
      WrittenByIndex(idx, x);
      WrittenByIndex(idx, y);
      WrittenByIndex(idx, z);
      var at, bt, ct :| Writes(idx, at, x) && Writes(idx, bt, y) && Writes(idx, ct, z);
      SamePlace(idx, geo, now, at, bt, x, y);
      SamePlace(idx, geo, now, at, ct, x, z);
      TwoInABlock(BlockAt(idx, at), StartAt(idx, at), x, y, z);
    }
  }

  /** Every started generation is younger than the time to live and than all generations together. */
  ghost predicate AllYoung(idx: Index, geo: Geometry, now: nat)
    requires Fit(idx)
  {
    forall s, a :: 0 <= s < idx.geo.shards && 0 <= a < idx.geo.generations ==>
      var t := idx.shards[s].window.gens[a].startedAt;
      t != 0 ==>
        && SatSub(now, t) < geo.ttl
        && (geo.interval < U64_MAX ==> SatSub(now, t) < Retention.Product(geo.generations, geo.interval))
  }

  lemma YoungIsNotStale<P>(idx: Index, geo: Geometry, table: seq<P>, stored: seq<P>, now: nat, shard: nat)
    requires Counting.CountedIndex(idx) && Sane(geo) && AllYoung(idx, geo, now)
    ensures !OnlyStale(geo, table, stored, ShardsEntries(idx.shards), now, shard)
  {
    hide ShardsEntries, BlockWrites, Retention.Product, Usable, Counting.CountedIndex;
    Counting.CountedFits(idx);
    SavedIsDated(idx);
    forall e | e in ShardsEntries(idx.shards) && geo.interval < U64_MAX
      ensures SatSub(now, e.insertedAt) < Retention.Product(geo.generations, geo.interval)
    {
      WrittenByIndex(idx, e);
      var at :| Writes(idx, at, e);
      WrittenAt(BlockAt(idx, at), StartAt(idx, at), e);
    }
  }

  /** What a lookup reports is what the swept generations hold at the place of the key. */
  lemma AnswersAsSwept(h: Hasher, idx: Index, key: Key, now: u64, q: Slot)
    requires Fit(idx) && idx.geo.blocks > 0 && LatchSteps.Startable(idx)
    ensures Has(AnswerIndex(h, idx, key, now), q) <==>
            exists a: nat :: FindsAt(Swept(h, idx, now).shards[ShardOf(idx.geo, h(key).hash)].window,
                                     Spot(h(key), LocalBlock(idx.geo, h(key).hash)), key, q, a)
  {
    hide Finds, ShardBlocks, GlobalBlock, Rotate, ApplyIndex;
    var geo, s := idx.geo, ShardOf(idx.geo, h(key).hash);
    var sh, w, spot := ShardShape(geo, s), idx.shards[s].window, Spot(h(key), LocalBlock(geo, h(key).hash));
    BlockInBounds(geo, GlobalBlock(geo, h(key).hash));
    RoutesIn(geo, h, s);
    StepOfShard(h, idx, Sweep(now), s);
    var rotated := Swept(h, idx, now).shards[s].window;
    assert rotated == Rotate(sh, w, now);
    AnswerMeans(sh, w, spot, key, now, q);
    assert forall a: nat :: a < geo.generations ==>
        (FindsAt(rotated, spot, key, q, a) <==> Finds(rotated.gens[a].blocks[spot.block], spot.fp, key, q));
    if !idx.populated {
      FreshStays(sh, now);
      forall a: nat
        ensures !FindsAt(rotated, spot, key, q, a)
      {
        if a < geo.generations {
          NothingInFresh(sh, a, spot.block, spot.fp, key, q);
        }
      }
    }
  }

  lemma FreshStays(sh: Shape, now: nat)
    ensures Rotate(sh, Fresh(sh), now) == Fresh(sh)
  {
  }

  /** A fact of a placed index under the fingerprint of its key is at the place of the key. */
  lemma KnownInPlace(h: Hasher, idx: Index, at: Place, key: Key, q: Slot)
    requires Fit(idx) && Placed(idx) && InRange(idx.geo, at) && Finds(BlockAt(idx, at), h(key), key, q)
    ensures at.shard == ShardOf(idx.geo, h(key).hash) && at.block == LocalBlock(idx.geo, h(key).hash)
    ensures FindsAt(idx.shards[at.shard].window, Spot(h(key), at.block), key, q, at.age)
  {
    hide ShardOf, LocalBlock, ShardBlocks;
    assert PlacedBlock(idx.geo, at, BlockAt(idx, at));
    FindsMeans(BlockAt(idx, at), h(key), key, q);
  }

  /** Only a started generation holds facts. */
  lemma KnownIsStarted(h: Hasher, idx: Index, at: Place, key: Key, q: Slot)
    requires Counting.CountedIndex(idx) && InRange(idx.geo, at) && Finds(BlockAt(idx, at), h(key), key, q)
    ensures StartAt(idx, at) != 0
  {
    hide Finds, CountHeld;
    if StartAt(idx, at) == 0 {
      assert idx.shards[at.shard].window.gens[at.age] == EmptyGen(ShardBlocks(idx.geo, at.shard));
      NothingFound(h(key), key, q);
    }
  }

  /** Where all generations are young, what is known recently is what is known. */
  lemma KnownIffFound(h: Hasher, idx: Index, geo: Geometry, now: nat, key: Key, q: Slot)
    requires Counting.CountedIndex(idx) && idx.geo.blocks > 0 && Placed(idx) && AllYoung(idx, geo, now)
    ensures (exists at :: KnownSince(h, idx, at, key, q, now, geo.ttl)) <==>
            exists a: nat :: FindsAt(idx.shards[ShardOf(idx.geo, h(key).hash)].window,
                                     Spot(h(key), LocalBlock(idx.geo, h(key).hash)), key, q, a)
  {
    hide Finds, ShardBlocks, GlobalBlock, Placed, Counting.CountedIndex, Retention.Product;
    Counting.CountedFits(idx);
    if at :| KnownSince(h, idx, at, key, q, now, geo.ttl) {
      KnownInPlace(h, idx, at, key, q);
    }
    var s, l := ShardOf(idx.geo, h(key).hash), LocalBlock(idx.geo, h(key).hash);
    if a: nat :| FindsAt(idx.shards[s].window, Spot(h(key), l), key, q, a) {
      KnownIsStarted(h, idx, Place(s, a, l), key, q);
      assert KnownSince(h, idx, Place(s, a, l), key, q, now, geo.ttl);
    }
  }

  /**
    A restart that is not noticed: after any history a proxy saves, and an index of as many
    blocks, whatever its shards, generations and time to live, loads at the same moment.
    If the started generations fall into different age classes and are younger than the time
    to live and than all generations together, every lookup reports what it reported before.
   */
  lemma RestartIsSeamless(h: Hasher, utf8: Utf8, steps: seq<Step>, id: nat, geo: Geometry, now: u64, key: Key, q: Slot)
    requires InOrder(steps, now) && id in Happen(h, utf8, steps).proxies && Sane(geo)
    requires var proxy := Happen(h, utf8, steps).proxies[id];
             && Distinct(proxy.layout) && geo.blocks == proxy.index.geo.blocks && geo.blocks > 0
             && Spread(Swept(h, proxy.index, now), geo, now) && AllYoung(Swept(h, proxy.index, now), geo, now)
    ensures var proxy := Happen(h, utf8, steps).proxies[id];
            var entries := SnapshotOf(h, proxy.index, now);
            Has(AnswerIndex(h, RestoreInto(Empty(geo), proxy.layout, proxy.layout, entries, now), key, now), q) <==>
            Has(AnswerIndex(h, proxy.index, key, now), q)
  {
    hide Happen, AnswerIndex, RestoreInto, ApplyIndex, Empty, Spread, AllYoung, Placed, Counting.CountedIndex,
         LatchSteps.Startable, KnownSince, OnlyStale, Roomy, FindsAt, ShardsEntries, Faithful;
    var proxy := Happen(h, utf8, steps).proxies[id];
    var idx, swept := proxy.index, Swept(h, proxy.index, now);
    Counting.HistoryConserves(h, utf8, steps, id, now);
    Counting.StepConserves(h, idx, Sweep(now));
    HistoryPlaces(h, utf8, steps, id);
    StepPlaces(h, idx, Sweep(now));
    SpreadIsRoomy(swept, geo, now);
    EmptyHolds(geo, false);
    ResumedReportsIff(h, idx, now, Empty(geo), proxy.layout, proxy.layout, now, key, q);
    YoungIsNotStale(swept, geo, proxy.layout, proxy.layout, now, ShardOf(geo, h(key).hash));
    KnownIffFound(h, swept, geo, now, key, q);
    Counting.LatchIsSound(h, utf8, steps, id, now);
    AnswersAsSwept(h, idx, key, now, q);
    ReportedIsListed(h, utf8, steps, id, key, q, now);
  }

  lemma ReportedIsListed(h: Hasher, utf8: Utf8, steps: seq<Step>, id: nat, key: Key, q: Slot, now: u64)
    requires InOrder(steps, now) && id in Happen(h, utf8, steps).proxies
    ensures Has(AnswerIndex(h, Happen(h, utf8, steps).proxies[id].index, key, now), q) ==>
              q < |Happen(h, utf8, steps).proxies[id].layout|
  {
    hide Happen, AnswerIndex, InOrder, Observed;
    NoMissIsInvented(h, utf8, Savable.Anyone, Everyone(), steps, id, key, q, now);
  }

  // ---------- a proxy that has not loaded ----------

  /** The next rotation waits for the generation of age `a`. */
  predicate Waits(sh: Shape, w: Window, a: nat)
    requires a < |w.gens|
  {
    w.gens[a].startedAt != 0 ==> w.next >= w.gens[a].startedAt + Retention.Product(a + 1, sh.interval)
  }

  /** A generation started at least as many intervals after an older one as it is ahead of it. */
  predicate Behind(sh: Shape, w: Window, a: nat, b: nat)
    requires a < b < |w.gens|
  {
    w.gens[a].startedAt != 0 && w.gens[b].startedAt != 0 ==>
      w.gens[a].startedAt >= w.gens[b].startedAt + Retention.Product(b - a, sh.interval)
  }

  ghost predicate Spaced(sh: Shape, w: Window) {
    && (forall a :: 0 <= a < |w.gens| ==> Waits(sh, w, a))
    && (forall a, b :: 0 <= a < b < |w.gens| ==> Behind(sh, w, a, b))
  }

  lemma ProductSums(a: nat, b: nat, i: nat)
    ensures Retention.Product(a + b, i) == Retention.Product(a, i) + Retention.Product(b, i)
    ensures Retention.Product(1, i) == i
  {
  }

  lemma SpacedShift(sh: Shape, w: Window, r: nat, next: u64)
    requires Fits(sh, w) && Spaced(sh, w) && r <= sh.generations
    requires next == w.next + Retention.Product(r, sh.interval)
    ensures Spaced(sh, Window(Shift(sh, w.gens, r), next))
  {
    hide Retention.Product;
    var w' := Window(Shift(sh, w.gens, r), next);
    forall a | 0 <= a < |w.gens|
      ensures Waits(sh, w', a)
    {
      if a >= r {
        assert w'.gens[a] == w.gens[a - r] && Waits(sh, w, a - r);
        ProductSums(a - r + 1, r, sh.interval);
      }
    }
    forall a, b | 0 <= a < b < |w.gens|
      ensures Behind(sh, w', a, b)
    {
      if a >= r {
        assert w'.gens[a] == w.gens[a - r] && w'.gens[b] == w.gens[b - r] && Behind(sh, w, a - r, b - r);
        assert (b - r) - (a - r) == b - a;
      }
    }
  }

  lemma SpacedRotate(sh: Shape, w: Window, clock: nat, now: nat)
    requires Fits(sh, w) && sh.Finite() && Spaced(sh, w)
    requires Retention.Near(sh, w, clock) && clock <= now && now + sh.interval < U64_MAX
    ensures var w' := Rotate(sh, w, now); Fits(sh, w') && Spaced(sh, w') && Retention.Near(sh, w', now)
  {
    hide Shift, Spaced, Rotations;
    Retention.NearRotate(sh, w, clock, now);
    RotatedFits(sh, w, now);
    if Due(sh, w, now) {
      SpacedShift(sh, w, Rotations(sh, w, now), Rotate(sh, w, now).next);
    }
  }

  lemma RotatedFits(sh: Shape, w: Window, now: nat)
    requires Fits(sh, w)
    ensures Fits(sh, Rotate(sh, w, now))
    ensures Due(sh, w, now) ==> Rotations(sh, w, now) <= sh.generations
  {
  }

  lemma SpacedStart(sh: Shape, w: Window, now: u64)
    requires Fits(sh, w) && sh.Finite() && Spaced(sh, w) && Retention.Near(sh, w, now) && now + sh.interval < U64_MAX
    ensures Spaced(sh, Start(sh, w, now))
  {
    if w.gens[0].startedAt == 0 {
      SpacedAnew(sh, w, Start(sh, w, now), now);
    }
  }

  /** A generation that starts now is at least one interval behind each earlier one. */
  lemma SpacedAnew(sh: Shape, w: Window, w': Window, now: u64)
    requires Spaced(sh, w) && w.next <= now + sh.interval && w'.next == now + sh.interval && |w'.gens| == |w.gens| > 0
    requires w'.gens[0].startedAt == now && forall a :: 1 <= a < |w.gens| ==> w'.gens[a] == w.gens[a]
    ensures Spaced(sh, w')
  {
    hide Retention.Product;
    forall a | 0 <= a < |w.gens|
      ensures Waits(sh, w', a)
    {
      ProductSums(a, 1, sh.interval);
      ProductSums(1, 0, sh.interval);
      assert Waits(sh, w, a);
    }
    forall a, b | 0 <= a < b < |w.gens|
      ensures Behind(sh, w', a, b)
    {
      assert Waits(sh, w, b) && Behind(sh, w, a, b) && w'.gens[b] == w.gens[b];
      ProductSums(b, 1, sh.interval);
      assert a == 0 ==> b - a == b;
    }
  }

  /** What a window was started at does not depend on what is inserted. */
  lemma SpacedRecord(sh: Shape, w: Window, spot: Spot, key: Key, bits: Mask, clock: nat, now: u64)
    requires Fits(sh, w) && sh.Finite() && Spaced(sh, w) && (sh.blocks != 0 ==> spot.block < sh.blocks)
    requires Retention.Near(sh, w, clock) && clock <= now && now + sh.interval < U64_MAX
    ensures Spaced(sh, Record(sh, w, spot, key, bits, now))
  {
    hide Retention.Product, Rotate, InsertBlock, OutcomeOf;
    SpacedRotate(sh, w, clock, now);
    SpacedStart(sh, Rotate(sh, w, now), now);
    var started, w' := Start(sh, Rotate(sh, w, now), now), Record(sh, w, spot, key, bits, now);
    if Stores(sh, bits) {
      SpacedTimes(sh, started, w');
    }
  }

  lemma SpacedTimes(sh: Shape, w: Window, w': Window)
    requires Spaced(sh, w) && w'.next == w.next && |w'.gens| == |w.gens|
    requires forall a :: 0 <= a < |w.gens| ==> w'.gens[a].startedAt == w.gens[a].startedAt
    ensures Spaced(sh, w')
  {
    forall a | 0 <= a < |w.gens|
      ensures Waits(sh, w', a)
    {
      assert Waits(sh, w, a);
    }
    forall a, b | 0 <= a < b < |w.gens|
      ensures Behind(sh, w', a, b)
    {
      assert Behind(sh, w, a, b);
    }
  }

  lemma {:induction false} SpacedRun(sh: Shape, route: Route, ops: seq<Op>, now: nat)
    requires sh.Valid() && sh.Finite() && Routes(sh, route) && Timely(ops, now) && now + sh.interval < U64_MAX
    ensures Spaced(sh, Run(sh, route, New(sh), ops).window)
    decreases |ops|
  {
    hide Spaced, Record, Rotate;
    if ops == [] {
      NothingSpaced(sh);
    } else {
      var rest, op := ops[..|ops| - 1], ops[|ops| - 1];
      SpacedRun(sh, route, rest, op.now);
      Retention.NearRun(sh, route, rest, op.now);
      var w := Run(sh, route, New(sh), rest).window;
      if op.Note? {
        SpacedRecord(sh, w, route(op.key), op.key, op.bits, op.now, op.now);
      } else {
        SpacedRotate(sh, w, op.now, op.now);
      }
    }
  }

  lemma NothingSpaced(sh: Shape)
    ensures Spaced(sh, Fresh(sh))
  {
  }

  /** Young generations that start an interval apart are in different age classes. */
  lemma SpacedClasses(sh: Shape, t: nat, u: nat, d: nat, now: nat)
    requires sh.Valid() && sh.Finite() && d >= 1 && u + Retention.Product(d, sh.interval) <= t <= now
    requires now - u < Retention.Product(sh.generations, sh.interval)
    ensures AgeOf(sh, t, now) < AgeOf(sh, u, now)
  {
    var i: nat, x, y := sh.interval, now - t, now - u;
    MulOrder(1, d, i);
    QuotientLess(y, sh.generations, i);
    assert x == x / i * i + x % i && (x / i + 1) * i == x / i * i + i;
    QuotientAtLeast(y, i, x / i + 1);
  }

  lemma SweptRuns(h: Hasher, geo: Geometry, ops: seq<Op>, now: u64)
    requires Sane(geo)
    ensures Swept(h, RunIndex(h, Empty(geo), ops), now) == RunIndex(h, Empty(geo), ops + [Sweep(now)])
  {
    assert (ops + [Sweep(now)])[..|ops|] == ops;
  }

  lemma ShardIsSpaced(h: Hasher, geo: Geometry, ops: seq<Op>, now: nat, s: nat)
    requires Sane(geo) && 0 < geo.interval < U64_MAX && Timely(ops, now) && now + geo.interval < U64_MAX
    requires s < geo.shards
    ensures Spaced(ShardShape(geo, s), RunIndex(h, Empty(geo), ops).shards[s].window)
  {
    hide Spaced, RunIndex, Run, ShardBlocks, Projection.ShardOps;
    RoutesIn(geo, h, s);
    Projection.ShardsRunAlone(h, Empty(geo), ops, s);
    Projection.ShardOpsAreTimely(h, Empty(geo), ops, s, now);
    assert Empty(geo).shards[s] == New(ShardShape(geo, s));
    SpacedRun(ShardShape(geo, s), RouteIn(geo, h, s), Projection.ShardOps(h, Empty(geo), ops, s), now);
  }

  lemma YoungIsSpread(idx: Index, now: nat)
    requires Fit(idx) && 0 < idx.geo.interval < U64_MAX && AllYoung(idx, idx.geo, now)
    requires forall s :: 0 <= s < idx.geo.shards ==> Spaced(ShardShape(idx.geo, s), idx.shards[s].window)
    requires forall s, a :: 0 <= s < idx.geo.shards && 0 <= a < idx.geo.generations ==>
               idx.shards[s].window.gens[a].startedAt <= now
    ensures Spread(idx, idx.geo, now)
  {
    hide AgeOf, ShardBlocks, Retention.Product;
    forall s, a, b | 0 <= s < idx.geo.shards && 0 <= a < b < idx.geo.generations
                     && idx.shards[s].window.gens[a].startedAt != 0 && idx.shards[s].window.gens[b].startedAt != 0
      ensures var gens, sh := idx.shards[s].window.gens, ShardShape(idx.geo, 0);
              AgeOf(sh, gens[a].startedAt, now) != AgeOf(sh, gens[b].startedAt, now)
    {
      var gens := idx.shards[s].window.gens;
      assert Spaced(ShardShape(idx.geo, s), idx.shards[s].window);
      assert Behind(ShardShape(idx.geo, s), idx.shards[s].window, a, b);
      SpacedClasses(ShardShape(idx.geo, 0), gens[a].startedAt, gens[b].startedAt, b - a, now);
    }
  }

  lemma StartsInThePast(h: Hasher, geo: Geometry, ops: seq<Op>, now: nat, s: nat, a: nat)
    requires Sane(geo) && 0 < geo.interval < U64_MAX && Timely(ops, now) && s < geo.shards && a < geo.generations
    ensures RunIndex(h, Empty(geo), ops).shards[s].window.gens[a].startedAt <= now
  {
    hide RunIndex, Run, ShardBlocks, Projection.ShardOps, Retention.Scheduled;
    RoutesIn(geo, h, s);
    Projection.ShardsRunAlone(h, Empty(geo), ops, s);
    Projection.ShardOpsAreTimely(h, Empty(geo), ops, s, now);
    assert Empty(geo).shards[s] == New(ShardShape(geo, s));
    Retention.RunInvariant(ShardShape(geo, s), RouteIn(geo, h, s), Projection.ShardOps(h, Empty(geo), ops, s), now);
  }

  lemma RunIsSpread(h: Hasher, geo: Geometry, ops: seq<Op>, now: u64)
    requires Sane(geo) && 0 < geo.interval < U64_MAX && Timely(ops, now) && now + geo.interval < U64_MAX
    requires AllYoung(Swept(h, RunIndex(h, Empty(geo), ops), now), geo, now)
    ensures Spread(Swept(h, RunIndex(h, Empty(geo), ops), now), geo, now)
  {
    hide RunIndex, AllYoung, Spaced, Spread, ApplyIndex, ShardBlocks;
    SweptRuns(h, geo, ops, now);
    var more := ops + [Sweep(now)];
    var swept := RunIndex(h, Empty(geo), more);
    forall s | 0 <= s < geo.shards
      ensures Spaced(ShardShape(geo, s), swept.shards[s].window)
    {
      ShardIsSpaced(h, geo, more, now, s);
    }
    forall s, a | 0 <= s < geo.shards && 0 <= a < geo.generations
      ensures swept.shards[s].window.gens[a].startedAt <= now
    {
      StartsInThePast(h, geo, more, now, s, a);
    }
    YoungIsSpread(swept, now);
  }

  /**
    A proxy that has not loaded anything since it was booted: restarting it is not noticed by
    any lookup, whatever it recorded, looked up and swept, if every started generation is
    younger than the time to live and than all generations together.
   */
  lemma RunRestartsSeamlessly(h: Hasher, utf8: Utf8, geo: Geometry, layout: seq<Host>, ops: seq<Op>, now: u64, key: Key,
                              q: Slot)
    requires Sane(geo) && 0 < geo.interval < U64_MAX && geo.blocks > 0 && |layout| <= MAX_BACKENDS && Distinct(layout)
    requires forall i :: 0 <= i < |ops| && ops[i].Note? ==> Within(ops[i].bits, |layout|)
    requires Timely(ops, now) && now + geo.interval < U64_MAX
    requires AllYoung(Swept(h, RunIndex(h, Empty(geo), ops), now), geo, now)
    ensures var idx := RunIndex(h, Empty(geo), ops);
            Has(AnswerIndex(h, RestoreInto(Empty(geo), layout, layout, SnapshotOf(h, idx, now), now), key, now), q) <==>
            Has(AnswerIndex(h, idx, key, now), q)
  {
    hide RunIndex, AnswerIndex, RestoreInto, AllYoung, Spread, ApplyIndex, Within, Distinct, InOrder, ShardsEntries,
         Happen, SnapshotOf, Longest.Working;
    var steps := Longest.Working(geo, layout, ops);
    Longest.WorkingInOrder(geo, layout, ops, now);
    Longest.WorkingRuns(h, utf8, geo, layout, ops);
    RunIsSpread(h, geo, ops, now);
    assert Happen(h, utf8, steps).proxies[0] == Proxy(layout, RunIndex(h, Empty(geo), ops));
    RestartIsSeamless(h, utf8, steps, 0, geo, now, key, q);
  }
}
