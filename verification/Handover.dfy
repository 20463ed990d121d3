/**
  A hand-over between two proxies: one records the same message twice, by two providers,
  and saves; the other, of any geometry, loads the file, records the second provider once
  more and still knows the first.
 */
module Handover {
  import opened Words
  import opened Blocks
  import opened Rotation
  import opened Index
  import opened Identities
  import opened Restoring
  import opened Snapshots
  import opened SnapshotCodec
  import opened Worlds
  import Retention
  import Savable

  // ---------- the proxy that saves ----------

  /** Two generations of one block; what is recorded `gap` apart ends up in different ones. */
  function Producer(gap: nat): Geometry
    requires gap + 2 < U64_MAX
  {
    Geometry(2, 1, gap / 2 + 1, 1, 2 * (gap / 2 + 1))
  }

  lemma ProducerIsSane(gap: nat)
    requires gap + 2 < U64_MAX
    ensures Sane(Producer(gap)) && Savable.Budgeted(Producer(gap))
    ensures ShardShape(Producer(gap), 0) == Shape(2, 1, gap / 2 + 1)
  {
    HomeAndSeat(1, 1);
  }

  /** A generation with one fact in its only block. */
  function Single(fp: Fingerprint, key: Key, bits: Mask, t: u64): Gen {
    Gen(t, 1, [Block(Held(fp, key, bits), Vacant)])
  }

  lemma FirstGeneration(sh: Shape, spot: Spot, key: Key, t: u64)
    requires sh.generations == 2 && sh.blocks == 1 && sh.Finite() && spot.block == 0
    ensures Record(sh, Fresh(sh), spot, key, Bit(0), t) ==
            Window([Single(spot.fp, key, Bit(0), t), EmptyGen(1)], SatAdd(t, sh.interval))
  {
    assert Bit(0)[0];
    assert Fresh(sh).gens == [EmptyGen(1), EmptyGen(1)];
    IntoEmpty(t, spot.fp, key, Bit(0));
    assert Record(sh, Fresh(sh), spot, key, Bit(0), t).gens == [Single(spot.fp, key, Bit(0), t), EmptyGen(1)];
  }

  lemma IntoEmpty(t: u64, fp: Fingerprint, key: Key, bits: Mask)
    ensures InsertGen(EmptyGen(1).(startedAt := t), fp, key, bits, 0) == Single(fp, key, bits, t)
  {
    assert EmptyGen(1).blocks == [EMPTY_BLOCK];
  }

  lemma SecondGeneration(sh: Shape, spot: Spot, key: Key, t: u64, v: u64)
    requires sh.generations == 2 && sh.blocks == 1 && sh.Finite() && spot.block == 0
    requires 1 <= t && t + sh.interval <= v < t + 2 * sh.interval && v < U64_MAX
    ensures var w := Window([Single(spot.fp, key, Bit(0), t), EmptyGen(1)], SatAdd(t, sh.interval));
            Record(sh, w, spot, key, Bit(1), v) ==
            Window([Single(spot.fp, key, Bit(1), v), Single(spot.fp, key, Bit(0), t)], SatAdd(v, sh.interval))
  {
    var w := Window([Single(spot.fp, key, Bit(0), t), EmptyGen(1)], SatAdd(t, sh.interval));
    QuotientIs(v - w.next, sh.interval, 0);
    assert Bit(1)[1];
    assert Shift(sh, w.gens, 1) == [EmptyGen(1), w.gens[0]];
    IntoEmpty(v, spot.fp, key, Bit(1));
    assert Record(sh, w, spot, key, Bit(1), v).gens == [Single(spot.fp, key, Bit(1), v), w.gens[0]];
  }

  /** The index of the first proxy when it saves. */
  function Produced(h: Hasher, gap: nat, key: Key, t: u64, v: u64): (idx: Index)
    requires gap + 2 < U64_MAX
    ensures Fit(idx) && idx.geo == Producer(gap)
  {
    ProducerIsSane(gap);
    ApplyIndex(h, ApplyIndex(h, Empty(Producer(gap)), Note(key, Bit(0), t)), Note(key, Bit(1), v))
  }

  function EntryFor(fp: Fingerprint, key: Key, bits: Mask, t: u64): Entry { Entry(fp.hash, fp.tag, key, bits, t) }

  lemma OneSpot(h: Hasher, gap: nat, key: Key)
    requires gap + 2 < U64_MAX
    ensures Sane(Producer(gap)) && ShardOf(Producer(gap), h(key).hash) == 0
    ensures RouteIn(Producer(gap), h, 0)(key) == Spot(h(key), 0)
  {
    ProducerIsSane(gap);
    RoutesIn(Producer(gap), h, 0);
  }

  lemma ProducedWindow(h: Hasher, gap: nat, key: Key, t: u64, v: u64)
    requires 1 <= gap && gap + 2 < U64_MAX && key != [] && 1 <= t && v == t + gap < U64_MAX
    ensures var i := gap / 2 + 1;
            Produced(h, gap, key, t, v).shards[0].window ==
            Window([Single(h(key), key, Bit(1), v), Single(h(key), key, Bit(0), t)], SatAdd(v, i))
  {
    hide ApplyIndex, Record, RouteIn;
    ProducerIsSane(gap);
    OneSpot(h, gap, key);
    var geo, sh := Producer(gap), ShardShape(Producer(gap), 0);
    var first := ApplyIndex(h, Empty(geo), Note(key, Bit(0), t));
    assert Bit(0)[0] && Bit(1)[1];
    StepOfShard(h, Empty(geo), Note(key, Bit(0), t), 0);
    FirstGeneration(sh, Spot(h(key), 0), key, t);
    StepOfShard(h, first, Note(key, Bit(1), v), 0);
    SecondGeneration(sh, Spot(h(key), 0), key, t, v);
  }

  lemma EntriesOfTwo(x: Gen, y: Gen, fp: Fingerprint, key: Key, t: u64, v: u64)
    requires x == Single(fp, key, Bit(1), v) && y == Single(fp, key, Bit(0), t)
    ensures GensEntries([x, y]) == [EntryFor(fp, key, Bit(1), v), EntryFor(fp, key, Bit(0), t)]
  {
    assert Bit(0)[0] && Bit(1)[1];
    assert [x, y][..1] == [x] && [x][..0] == [] && x.blocks[..0] == [] && y.blocks[..0] == [];
    assert GensEntries([x, y]) == GensEntries([x]) + BlocksEntries(y.blocks, t);
    assert GensEntries([x]) == GensEntries([]) + BlocksEntries(x.blocks, v);
    assert BlocksEntries(x.blocks, v) == BlocksEntries([], v) + BlockEntries(x.blocks[0], v);
    assert BlocksEntries(y.blocks, t) == BlocksEntries([], t) + BlockEntries(y.blocks[0], t);
  }

  /** What it saves: both facts, each with its own time. */
  lemma ProducedEntries(h: Hasher, gap: nat, key: Key, t: u64, v: u64)
    requires 1 <= gap && gap + 2 < U64_MAX && key != [] && 1 <= t && v == t + gap < U64_MAX
    ensures SnapshotOf(h, Produced(h, gap, key, t, v), v) ==
            [EntryFor(h(key), key, Bit(1), v), EntryFor(h(key), key, Bit(0), t)]
  {
    hide Produced, ApplyIndex, GensEntries;
    var idx := Produced(h, gap, key, t, v);
    var swept := ApplyIndex(h, idx, Sweep(v));
    ProducedWindow(h, gap, key, t, v);
    StepOfShard(h, idx, Sweep(v), 0);
    var gens := idx.shards[0].window.gens;
    assert swept.shards[0].window.gens == gens;
    assert swept.shards == [swept.shards[0]] && swept.shards[..0] == [];
    assert ShardsEntries(swept.shards) == ShardsEntries([]) + GensEntries(gens);
    EntriesOfTwo(gens[0], gens[1], h(key), key, t, v);
  }

  // ---------- the proxy that loads ----------

  /** Two restored facts of different age classes, the older in the last one. */
  lemma TwoRestored(sh: Shape, fp: Fingerprint, key: Key, t: u64, v: u64, block: nat, now: u64, ttl: u64, c: nat)
    requires sh.Valid() && sh.Finite() && block < sh.blocks && 1 <= t < v <= now && now - t < ttl
    requires AgeOf(sh, t, now) == sh.generations - 1 && AgeOf(sh, v, now) == c < sh.generations - 1
    ensures var w := RestoreEntry(sh, Fresh(sh), EntryFor(fp, key, Bit(0), t), block, now, ttl);
            var w' := Reanchor(sh, RestoreEntry(sh, w, EntryFor(fp, key, Bit(1), v), block, now, ttl));
            && Retention.Poised(sh, w', Spot(fp, block), key, 0, sh.generations - 1 - c, SatAdd(v, sh.interval))
            && w'.gens[0].startedAt == v
  {
    hide AgeOf, RestoreEntry, InsertGen, Finds, Reanchor, Retention.Poised;
    assert Bit(0)[0] && Bit(1)[1];
    var w := RestoreEntry(sh, Fresh(sh), EntryFor(fp, key, Bit(0), t), block, now, ttl);
    RestoresOne(sh, Fresh(sh), EntryFor(fp, key, Bit(0), t), block, now, ttl, 0);
    var both := RestoreEntry(sh, w, EntryFor(fp, key, Bit(1), v), block, now, ttl);
    RestoresOne(sh, w, EntryFor(fp, key, Bit(1), v), block, now, ttl, 1);
    TurnsToNewest(sh, both, Spot(fp, block), key, c);
  }

  /** Re-anchoring a ring of two started generations. */
  lemma TurnsToNewest(sh: Shape, w: Window, spot: Spot, key: Key, c: nat)
    requires Fits(sh, w) && sh.Finite() && spot.block < sh.blocks && c < sh.generations - 1
    requires w.gens[sh.generations - 1].startedAt < w.gens[c].startedAt
    requires forall a :: 0 <= a < |w.gens| - 1 && a != c ==> w.gens[a].startedAt == 0
    requires Finds(w.gens[sh.generations - 1].blocks[spot.block], spot.fp, key, 0)
    ensures var w' := Reanchor(sh, w);
            && Retention.Poised(sh, w', spot, key, 0, sh.generations - 1 - c, SatAdd(w.gens[c].startedAt, sh.interval))
            && w'.gens[0] == w.gens[c]
  {
    hide Finds;
    var g := sh.generations;
    AnchorIs(w.gens, c);
    var w' := Reanchor(sh, w);
    assert w'.gens[g - 1 - c] == w.gens[g - 1] && w'.gens[0] == w.gens[c];
  }

  /** One fact restored into a generation that has not started. */
  lemma RestoresOne(sh: Shape, w: Window, e: Entry, block: nat, now: u64, ttl: u64, p: Slot)
    requires Fits(sh, w) && block < sh.blocks && !Skipped(sh, e, now, ttl) && e.insertedAt >= 1 && Has(e.missing, p)
    requires w.gens[AgeOf(sh, e.insertedAt, now)] == EmptyGen(sh.blocks)
    ensures var w', a := RestoreEntry(sh, w, e, block, now, ttl), AgeOf(sh, e.insertedAt, now);
            && Fits(sh, w') && w'.next == w.next && w'.gens[a].startedAt == e.insertedAt
            && Finds(w'.gens[a].blocks[block], Fingerprint(e.hash, e.tag), e.key, p)
            && forall b :: 0 <= b < |w.gens| && b != a ==> w'.gens[b] == w.gens[b]
  {
    InsertFinds(EMPTY_BLOCK, Fingerprint(e.hash, e.tag), e.key, e.missing, p);
  }

  /** The one generation that started last is made current. */
  lemma AnchorIs(gens: seq<Gen>, c: nat)
    requires c < |gens| && gens[c].startedAt != 0
    requires forall a :: 0 <= a < |gens| && a != c ==> gens[a].startedAt < gens[c].startedAt
    ensures Anchor(gens, |gens|) == Some(c)
  {
    AnchorIsNewest(gens, |gens|);
    var i := if c == 0 then 0 else |gens| - c;
    assert RingAge(|gens|, i) == c;
  }

  lemma SortOfTwo(x: Entry, y: Entry)
    requires y.insertedAt < x.insertedAt
    ensures SortByTime([x, y]) == [y, x]
  {
    assert [x, y][..1] == [x] && [x][..0] == [];
    assert SortByTime([x]) == [x];
    assert Place([x], y) == [] + [y] + [x];
  }

  /** The shard of the message after loading both facts. */
  lemma LoadedShard<P>(geo: Geometry, table: seq<P>, x: Entry, y: Entry, now: u64)
    requires Sane(geo) && geo.blocks > 0 && Distinct(table) && 2 <= |table| <= MAX_BACKENDS
    requires x.missing == Bit(1) && y.missing == Bit(0) && x.hash == y.hash && y.insertedAt < x.insertedAt
    ensures var s, block := ShardOf(geo, x.hash), LocalBlock(geo, x.hash);
            var sh := ShardShape(geo, s);
            && block < sh.blocks
            && RestoreInto(Empty(geo), table, table, [x, y], now).shards[s].window ==
               Reanchor(sh, RestoreEntry(sh, RestoreEntry(sh, Fresh(sh), y, block, now, geo.ttl), x, block, now,
                                         geo.ttl))
  {
    hide RestoreEntry, RestoreDropped, Reanchor, Remap, ShardBlocks, PutBackAll, SortByTime;
    BlockInBounds(geo, GlobalBlock(geo, x.hash));
    SortOfTwo(x, y);
    assert Within(Bit(0), |table|) && Within(Bit(1), |table|);
    RemapSame(table, Bit(0));
    RemapSame(table, Bit(1));
    assert TranslatedAll(table, table, [y, x]) == [y, x];
    var cleared := Empty(geo);
    assert cleared.(populated := cleared.populated) == cleared;
    PutBackTwo(cleared, x, y, now);
  }

  lemma PutBackTwo(idx: Index, x: Entry, y: Entry, now: u64)
    requires Fit(idx)
    ensures PutBackAll(idx, [y, x], now) == PutBack(PutBack(idx, y, now), x, now)
  {
    hide PutBack;
    assert [y, x][..1] == [y] && [y][..0] == [];
    assert PutBackAll(idx, [y], now) == PutBack(PutBackAll(idx, [], now), y, now);
    assert PutBackAll(idx, [y, x], now) == PutBack(PutBackAll(idx, [y], now), x, now);
  }

  /** A note that does not rotate leaves an older fact where it is. */
  lemma EarlyMoment(sh: Shape, w: Window, spot: Spot, key: Key, p: Slot, q: Slot, j: nat, next: nat, now: u64)
    requires Fits(sh, w) && sh.Finite() && 1 <= j && now < next && w.gens[0].startedAt != 0
    requires Retention.Poised(sh, w, spot, key, p, j, next)
    ensures Retention.Poised(sh, Record(sh, w, spot, key, Bit(q), now), spot, key, p, j, next)
  {
  }

  /** When the second proxy hears of the message again, and how it then stands. */
  lemma StillPoised(sh: Shape, w: Window, spot: Spot, key: Key, v: u64, c: nat, now: u64, u: u64)
    requires sh.Valid() && sh.Finite() && spot.block < sh.blocks && 1 <= v <= now <= u < U64_MAX
    requires c <= 1 && c < sh.generations - 1
    requires Retention.Poised(sh, w, spot, key, 0, sh.generations - 1 - c, SatAdd(v, sh.interval))
    requires w.gens[0].startedAt == v
    requires if c == 0 then u == now == v else now == v + sh.interval && u < now + sh.interval
    ensures var next := if c == 0 then SatAdd(v, sh.interval) else SatAdd(u, sh.interval);
            Retention.Poised(sh, Record(sh, w, spot, key, Bit(1), u), spot, key, 0, sh.generations - 1, next)
  {
    hide Record, Finds;
    if c == 0 {
      EarlyMoment(sh, w, spot, key, 0, 1, sh.generations - 1, SatAdd(v, sh.interval), u);
    } else {
      Retention.LateMoment(sh, w, spot, key, 0, 1, sh.generations - 2, sh.generations - 1, now, u);
    }
  }

  /** Which time is second: that of the load, or one interval before it where there is a generation for it. */
  function Second(geo: Geometry, load: nat): int { if geo.generations == 2 then load else load - geo.interval }

  /** The times of a hand-over: recorded at `t`, loaded at `load` in the last age class, heard of again at `again`. */
  ghost predicate HandoverTimes(geo: Geometry, t: nat, load: nat, again: nat, now: nat) {
    && Sane(geo) && 0 < geo.interval < U64_MAX && geo.generations >= 2 && geo.blocks > 0
    && 1 <= t && load - t < geo.ttl && Retention.Product(geo.generations - 1, geo.interval) <= load - t
    && load <= again <= now < U64_MAX
    && if geo.generations == 2 then t < load && again == load && now < load + geo.interval
       else again < load + geo.interval && now < again + geo.interval
  }

  lemma HandoverClasses(geo: Geometry, s: nat, t: nat, load: nat, again: nat, now: nat)
    requires HandoverTimes(geo, t, load, again, now)
    ensures var sh, v := ShardShape(geo, s), Second(geo, load);
            && t < v <= load && AgeOf(sh, t, load) == sh.generations - 1
            && AgeOf(sh, v, load) == if geo.generations == 2 then 0 else 1
  {
    hide ShardBlocks, AgeOf, Retention.Product;
    var sh := ShardShape(geo, s);
    LastClass(sh, t, load);
    if geo.generations > 2 {
      AtLeastTwo(geo.generations - 1, geo.interval);
      ClassOne(sh, Second(geo, load), load);
    } else {
      ClassZero(sh, load);
    }
  }

  lemma AtLeastTwo(n: nat, i: nat)
    requires n >= 2
    ensures Retention.Product(n, i) >= 2 * i
  {
    MulOrder(2, n, i);
  }

  lemma ClassOne(sh: Shape, v: int, now: nat)
    requires sh.generations > 2 && sh.Finite() && 0 <= v && now == v + sh.interval
    ensures AgeOf(sh, v, now) == 1
  {
    QuotientIs(sh.interval, sh.interval, 1);
  }

  lemma ClassZero(sh: Shape, now: nat)
    requires sh.generations > 1 && sh.Finite()
    ensures AgeOf(sh, now, now) == 0
  {
    QuotientIs(0, sh.interval, 0);
  }

  lemma LastClass(sh: Shape, t: nat, now: nat)
    requires sh.Valid() && sh.Finite() && t <= now && Retention.Product(sh.generations - 1, sh.interval) <= now - t
    ensures AgeOf(sh, t, now) == sh.generations - 1
  {
    QuotientAtLeast(now - t, sh.interval, sh.generations - 1);
  }

  /** The second proxy still answers the first provider. */
  lemma HandedOver<P>(h: Hasher, geo: Geometry, table: seq<P>, key: Key, t: u64, load: u64, again: u64, now: u64)
    requires HandoverTimes(geo, t, load, again, now) && t < Second(geo, load)
    requires key != [] && geo.ttl != 0 && Distinct(table) && 2 <= |table| <= MAX_BACKENDS
    ensures var v := Second(geo, load);
            var entries := [EntryFor(h(key), key, Bit(1), v), EntryFor(h(key), key, Bit(0), t)];
            var loaded := RestoreInto(Empty(geo), table, table, entries, load);
            Has(AnswerIndex(h, ApplyIndex(h, loaded, Note(key, Bit(1), again)), key, now), 0)
  {
    hide RestoreInto, ApplyIndex, Record, RestoreEntry, Reanchor, Answer, ShardBlocks, AgeOf, Retention.Poised;
    var s, block := ShardOf(geo, h(key).hash), LocalBlock(geo, h(key).hash);
    var sh, v, c := ShardShape(geo, s), Second(geo, load), if geo.generations == 2 then 0 else 1;
    HandoverClasses(geo, s, t, load, again, now);
    var x, y := EntryFor(h(key), key, Bit(1), v), EntryFor(h(key), key, Bit(0), t);
    LoadedShard(geo, table, x, y, load);
    TwoRestored(sh, h(key), key, t, v, block, load, geo.ttl, c);
    var loaded := RestoreInto(Empty(geo), table, table, [x, y], load);
    var spot := Spot(h(key), block);
    PoisedFits(sh, loaded.shards[s].window, spot, key, 0, sh.generations - 1 - c, SatAdd(v, sh.interval));
    StillPoised(sh, loaded.shards[s].window, spot, key, v, c, load, again);
    assert Bit(1)[1];
    StepOfShard(h, loaded, Note(key, Bit(1), again), s);
    NoteSetsLatch(h, loaded, Note(key, Bit(1), again));
    var next := if c == 0 then SatAdd(v, sh.interval) else SatAdd(again, sh.interval);
    Retention.PoisedAnswers(sh, ApplyIndex(h, loaded, Note(key, Bit(1), again)).shards[s].window, spot, key, 0,
                            sh.generations - 1, next, now);
  }

  lemma PoisedFits(sh: Shape, w: Window, spot: Spot, key: Key, p: Slot, j: nat, next: nat)
    requires Retention.Poised(sh, w, spot, key, p, j, next)
    ensures Fits(sh, w) && spot.block < sh.blocks
  {
  }

  // ---------- both, with a file between them ----------

  function Handing(geo: Geometry, layout: seq<Host>, key: Key, t: u64, load: u64, again: u64): seq<Step>
    requires t < Second(geo, load) && Second(geo, load) - t + 2 < U64_MAX
  {
    var v := Second(geo, load);
    [Boot(0, Producer(v - t), layout), Do(0, Note(key, Bit(0), t)), Do(0, Note(key, Bit(1), v)), Save(0, 0, v),
     Boot(1, geo, layout), Load(1, 0, load), Do(1, Note(key, Bit(1), again))]
  }

  lemma WithinTwo(n: nat)
    requires n >= 2
    ensures Within(Bit(0), n) && Within(Bit(1), n)
  {
  }

  /** The first proxy before it saves; what it saves can be written and read. */
  lemma BeforeSave(h: Hasher, utf8: Utf8, geo: Geometry, layout: seq<Host>, key: Key, t: u64, load: u64, again: u64)
    requires 1 <= t < Second(geo, load) < U64_MAX && Second(geo, load) - t + 2 < U64_MAX
    requires TableOk(utf8, layout) && 2 <= |layout| && KeyFits(key) && utf8(key)
    ensures var steps, v := Handing(geo, layout, key, t, load, again), Second(geo, load);
            var idx := Produced(h, v - t, key, t, v);
            var picture := Snapshot(layout, SnapshotOf(h, idx, v));
            && Happen(h, utf8, steps[..3]) == World(map[0 := Proxy(layout, idx)], map[])
            && Writable(picture) && Readable(utf8, picture)
  {
    hide ApplyIndex, SnapshotOf, Writable, Readable, HostsOk, Empty, Canon, Perform, Within, InOrder, Savable.StepsOk;
    var v := Second(geo, load);
    var steps, made := Handing(geo, layout, key, t, load, again), Producer(v - t);
    ProducerIsSane(v - t);
    assert steps[..0] == [] && steps[..1] == [] + [steps[0]];
    assert steps[..2] == steps[..1] + [steps[1]] && steps[..3] == steps[..2] + [steps[2]];
    HappenMore(h, utf8, [], steps[0]);
    HappenMore(h, utf8, steps[..1], steps[1]);
    HappenMore(h, utf8, steps[..2], steps[2]);
    WithinTwo(|layout|);
    Boots(h, utf8, World(map[], map[]), 0, made, layout);
    var booted := World(map[0 := Proxy(layout, Empty(made))], map[]);
    assert Happen(h, utf8, steps[..1]) == booted;
    Does(h, utf8, booted, 0, Note(key, Bit(0), t));
    var once := World(map[0 := Proxy(layout, ApplyIndex(h, Empty(made), Note(key, Bit(0), t)))], map[]);
    assert Happen(h, utf8, steps[..2]) == once;
    Does(h, utf8, once, 0, Note(key, Bit(1), v));
    assert Happen(h, utf8, steps[..3]) == World(map[0 := Proxy(layout, Produced(h, v - t, key, t, v))], map[]);
    FirstStepsOk(utf8, geo, layout, key, t, load, again);
    Savable.SavesAreReadable(h, utf8, steps[..3], 0, v);
  }

  lemma FirstStepsOk(utf8: Utf8, geo: Geometry, layout: seq<Host>, key: Key, t: u64, load: u64, again: u64)
    requires 1 <= t < Second(geo, load) < U64_MAX && Second(geo, load) - t + 2 < U64_MAX
    requires TableOk(utf8, layout) && KeyFits(key) && utf8(key)
    ensures var steps := Handing(geo, layout, key, t, load, again)[..3];
            Savable.StepsOk(utf8, steps) && InOrder(steps, Second(geo, load))
  {
    hide HostsOk, Canon;
    ProducerIsSane(Second(geo, load) - t);
  }

  /** The second proxy at the end. */
  lemma AfterLoad(h: Hasher, utf8: Utf8, geo: Geometry, layout: seq<Host>, key: Key, t: u64, load: u64, again: u64)
    requires 1 <= t < Second(geo, load) < U64_MAX && Second(geo, load) - t + 2 < U64_MAX && Sane(geo)
    requires TableOk(utf8, layout) && CanonAll(layout) == layout && 2 <= |layout| && KeyFits(key) && utf8(key)
    ensures var steps, v := Handing(geo, layout, key, t, load, again), Second(geo, load);
            var entries := SnapshotOf(h, Produced(h, v - t, key, t, v), v);
            var loaded := RestoreInto(Empty(geo), layout, layout, entries, load);
            && 1 in Happen(h, utf8, steps).proxies
            && Happen(h, utf8, steps).proxies[1] == Proxy(layout, ApplyIndex(h, loaded, Note(key, Bit(1), again)))
  {
    hide ApplyIndex, SnapshotOf, SnapshotBytes, Writable, Readable, HostsOk, Empty, Canon, Perform, Within, Parse,
         RestoreInto, Produced;
    var v := Second(geo, load);
    var steps := Handing(geo, layout, key, t, load, again);
    BeforeSave(h, utf8, geo, layout, key, t, load, again);
    assert steps[..4] == steps[..3] + [steps[3]] && steps[..5] == steps[..4] + [steps[4]];
    assert steps[..6] == steps[..5] + [steps[5]] && steps == steps[..6] + [steps[6]];
    HappenMore(h, utf8, steps[..3], steps[3]);
    HappenMore(h, utf8, steps[..4], steps[4]);
    HappenMore(h, utf8, steps[..5], steps[5]);
    HappenMore(h, utf8, steps[..6], steps[6]);
    WithinTwo(|layout|);
    var idx := Produced(h, v - t, key, t, v);
    var picture := Snapshot(layout, SnapshotOf(h, idx, v));
    Saves(h, utf8, World(map[0 := Proxy(layout, idx)], map[]), 0, 0, v);
    var w := Happen(h, utf8, steps[..4]);
    Boots(h, utf8, w, 1, geo, layout);
    ParseOfSaved(utf8, picture);
    Loads(h, utf8, Happen(h, utf8, steps[..5]), 1, 0, load, Snapshot(CanonAll(layout), picture.entries));
    Does(h, utf8, Happen(h, utf8, steps[..6]), 1, Note(key, Bit(1), again));
  }
}
