/**
  The availability index as the proxy keeps it: one filter per lock shard, counters and a
  latch, updated in place.  Every method is proved to do to the whole index what `Index`
  and `Restoring` say.
 */
module AvailabilityIndexes {
  import opened Words
  import opened Blocks
  import opened Rotation
  import opened Snapshots
  import opened Index
  import opened Restoring
  import opened FilterStates
  import Rings

  /** An insertion or a lookup changes the shard of its key only. */
  lemma OneShard(h: Hasher, idx: Index, op: Op)
    requires Fit(idx) && !op.Sweep? && !Ignored(idx, op)
    ensures var s := ShardOf(idx.geo, h(op.key).hash);
            && Routes(ShardShape(idx.geo, s), RouteIn(idx.geo, h, s))
            && ApplyIndex(h, idx, op) ==
               Index(idx.geo, idx.shards[s := Apply(ShardShape(idx.geo, s), RouteIn(idx.geo, h, s), idx.shards[s], op)],
                     idx.populated || op.Note?)
  {
    hide Apply;
    var own := ShardOf(idx.geo, h(op.key).hash);
    StepOfShard(h, idx, op, own);
    forall s | 0 <= s < idx.geo.shards
      ensures ApplyIndex(h, idx, op).shards[s] ==
              if s == own then Apply(ShardShape(idx.geo, s), RouteIn(idx.geo, h, s), idx.shards[s], op)
              else idx.shards[s]
    {
      StepOfShard(h, idx, op, s);
    }
  }

  /** An entry count or a snapshot rotates every shard. */
  function Swept(geo: Geometry, shards: seq<Shard>, s: nat, now: u64): Shard
    requires s < |shards| && geo.shards > 0 && |shards[s].window.gens| == geo.generations
  {
    Shard(Rotate(ShardShape(geo, s), shards[s].window, now),
          shards[s].evictions + Dropped(ShardShape(geo, s), shards[s].window, now))
  }

  lemma EveryShard(h: Hasher, idx: Index, now: u64, after: seq<Shard>)
    requires Fit(idx) && |after| == idx.geo.shards
    requires forall s :: 0 <= s < idx.geo.shards ==> after[s] == Swept(idx.geo, idx.shards, s, now)
    ensures ApplyIndex(h, idx, Sweep(now)) == Index(idx.geo, after, idx.populated)
  {
    hide Rotate, Dropped;
    forall s | 0 <= s < idx.geo.shards
      ensures ApplyIndex(h, idx, Sweep(now)).shards[s] == after[s]
    {
      StepOfShard(h, idx, Sweep(now), s);
    }
  }

  lemma NoCounts()
    ensures Sum(EntryCounts([])) == 0
  {
  }

  lemma NoEntries()
    ensures ShardsEntries([]) == []
  {
  }

  lemma EntriesMore(shards: seq<Shard>, s: nat)
    requires s < |shards|
    ensures ShardsEntries(shards[..s + 1]) == ShardsEntries(shards[..s]) + GensEntries(shards[s].window.gens)
  {
    assert shards[..s + 1][..s] == shards[..s];
  }

  lemma CountsMore(shards: seq<Shard>, s: nat)
    requires s < |shards|
    ensures Sum(EntryCounts(shards[..s + 1])) == Sum(EntryCounts(shards[..s])) + Occupied(shards[s].window.gens)
  {
    var n := Occupied(shards[s].window.gens);
    assert EntryCounts(shards[..s + 1]) == EntryCounts(shards[..s]) + [n];
    SumConcat(EntryCounts(shards[..s]), [n]);
    assert Sum([n]) == n;
  }

  /** Translates a stored bitmap, provider by provider. */
  method RemapBits<P(==)>(table: seq<P>, stored: seq<P>, bits: Mask) returns (r: Mask)
    requires |stored| <= MAX_BACKENDS && |table| <= MAX_BACKENDS
    ensures r == Remap(table, stored, bits, |stored|)
  {
    r := NO_SLOTS;
    for position := 0 to |stored|
      invariant r == Remap(table, stored, bits, position)
    {
      if Has(bits, position) {
        var slot := SlotFor(table, stored[position], |table|);
        if slot.Some? {
          r := Or(r, Bit(slot.value));
        }
      }
    }
  }

  lemma PutBackMore<P>(idx: Index, table: seq<P>, stored: seq<P>, entries: seq<Entry>, i: nat, now: u64)
    requires Fit(idx) && |stored| <= MAX_BACKENDS && |table| <= MAX_BACKENDS && i < |entries|
    ensures PutBackAll(idx, TranslatedAll(table, stored, entries[..i + 1]), now) ==
            PutBack(PutBackAll(idx, TranslatedAll(table, stored, entries[..i]), now),
                    Translated(table, stored, entries[i]), now)
  {
    hide PutBack, Translated;
    var more := TranslatedAll(table, stored, entries[..i + 1]);
    assert more[..i] == TranslatedAll(table, stored, entries[..i]);
  }

  lemma SettledCount(idx: Index)
    requires Fit(idx)
    ensures TotalEntries(Settled(idx)) == TotalEntries(idx)
  {
    hide Occupied, Reanchor;
    var after := Settled(idx);
    forall s | 0 <= s < |idx.shards|
      ensures EntryCounts(after.shards)[s] == EntryCounts(idx.shards)[s]
    {
      ReanchorKeepsCount(ShardShape(idx.geo, s), idx.shards[s].window);
    }
    assert EntryCounts(after.shards) == EntryCounts(idx.shards);
  }

  lemma ClearedIsFresh(sh: Shape)
    requires sh.Valid()
    ensures Rings.Valid(sh, Rings.Cleared(sh)) && Rings.Window(Rings.Cleared(sh)) == Fresh(sh)
  {
  }

  /** A filter of shard `s` that holds nothing. */
  ghost predicate Blank(f: FilterState, geo: Geometry, s: nat)
    requires geo.shards > 0
    reads f, f.Parts
  {
    f.Valid() && f.Geo() == ShardShape(geo, s) && f.W() == Fresh(ShardShape(geo, s))
  }

  method MakeFilters(geo: Geometry) returns (made: seq<FilterState>, ghost parts: set<object>,
                     ghost owners: map<object, nat>)
    requires Sane(geo)
    ensures |made| == geo.shards && fresh(parts)
    ensures forall s, o :: 0 <= s < |made| && o in {made[s]} + made[s].Parts ==>
              o in parts && o in owners && owners[o] == s
    ensures forall s :: 0 <= s < |made| ==> Blank(made[s], geo, s)
  {
    hide Home, Seat, ShardBlocks, FilterState.Valid, FilterState.W;
    made, parts, owners := [], {}, map[];
    for s := 0 to geo.shards
      invariant |made| == s && fresh(parts) && owners.Keys == parts
      invariant forall t, o :: 0 <= t < s && o in {made[t]} + made[t].Parts ==> o in parts && owners[o] == t
      invariant forall t :: 0 <= t < s ==> Blank(made[t], geo, t)
    {
      var f := new FilterState(ShardBlocks(geo, s), geo.generations, geo.interval);
      BlankWhenCleared(f, geo, s);
      ghost var own: set<object> := {f} + f.Parts;
      assert own !! parts;
      made := made + [f];
      parts := parts + own;
      owners := owners + map o | o in own :: s;
    }
  }

  lemma BlankWhenCleared(f: FilterState, geo: Geometry, s: nat)
    requires Sane(geo) && f.Valid() && f.Geo() == ShardShape(geo, s) && f.State() == Rings.Cleared(f.Geo())
    ensures Blank(f, geo, s)
  {
    ClearedIsFresh(ShardShape(geo, s));
  }

  class AvailabilityIndex {
    const geo: Geometry
    const filters: seq<FilterState>
    var evictions: seq<nat>
    var populated: bool
    ghost var shards: seq<Shard>
    ghost const Parts: set<object>
    ghost const owner: map<object, nat>

    /** `o` belongs to shard `s` and to no other. */
    ghost predicate Owns(o: object, s: nat) { o in Parts && o in owner && owner[o] == s }

    /** What belongs to shard `s`. */
    ghost function Region(s: nat): set<object>
      requires s < |filters|
    {
      {filters[s]} + filters[s].Parts
    }

    ghost predicate Holds(s: nat, w: Window)
      requires s < |filters| && geo.shards > 0
      reads Region(s)
    {
      filters[s].Valid() && filters[s].Geo() == ShardShape(geo, s) && filters[s].W() == w
    }

    /** `shards` lists the values of the filters with their counters. */
    ghost predicate Sound()
      reads this, Parts
    {
      && Sane(geo) && this !in Parts && |filters| == |shards| == |evictions| == geo.shards
      && (forall s, o :: 0 <= s < |filters| && o in Region(s) ==> Owns(o, s))
      && (forall s :: 0 <= s < |filters| ==>
            Region(s) <= Parts && Holds(s, shards[s].window) && evictions[s] == shards[s].evictions)
    }

    ghost function Value(): Index
      reads this
    {
      Index(geo, shards, populated)
    }

    /** A new index over an allocation budget. */
    constructor (capacityBytes: u64, ttl: u64, generationCount: nat, shardCount: nat)
      ensures Sound() && fresh(Parts) && geo == GeometryFor(capacityBytes, ttl, generationCount, shardCount)
      ensures Value() == Empty(geo)
    {
      hide GeometryFor, Home, Seat, ShardBlocks, FilterState.Valid, FilterState.W;
      var g := GeometryFor(capacityBytes, ttl, generationCount, shardCount);
      ghost var parts: set<object>, owners: map<object, nat>;
      var made;
      made, parts, owners := MakeFilters(g);
      geo, filters, populated := g, made, false;
      evictions := seq(g.shards, _ => 0);
      shards := Empty(g).shards;
      Parts, owner := parts, owners;
    }

    lemma Sizes()
      requires Sound()
      ensures Sane(geo) && |filters| == |shards| == geo.shards
    {
    }

    lemma FitsValue()
      requires Sound()
      ensures Fit(Value())
    {
      forall s | 0 <= s < |shards|
        ensures Fits(ShardShape(geo, s), shards[s].window)
      {
        assert Holds(s, shards[s].window);
      }
    }

    /** One insertion into one shard. */
    method ShardInsert(s: nat, fp: Fingerprint, key: Key, bits: Mask, block: nat, now: u64)
      requires Sound() && s < |filters| && (ShardBlocks(geo, s) != 0 ==> block < ShardBlocks(geo, s))
      modifies this`shards, this`evictions, Region(s)
      ensures Sound()
      ensures Fits(ShardShape(geo, s), old(shards)[s].window)
      ensures var sh, was := ShardShape(geo, s), old(shards)[s];
              shards == old(shards)[s := Shard(Record(sh, was.window, Spot(fp, block), key, bits, now),
                                               was.evictions + RecordDropped(sh, was.window, Spot(fp, block), key,
                                                                             bits, now))]
    {
      hide Record, RecordDropped, ShardBlocks, FilterState.Sound;
      FitsValue();
      assert Holds(s, shards[s].window);
      assert forall t :: 0 <= t < |filters| && t != s ==> Region(t) !! Region(s);
      var evicted := filters[s].InsertMissingBits(fp, key, bits, block, now);
      evictions := evictions[s := evictions[s] + evicted];
      shards := shards[s := Shard(filters[s].W(), evictions[s])];
    }

    method ShardLookup(s: nat, fp: Fingerprint, key: Key, block: nat, now: u64) returns (bits: Mask)
      requires Sound() && s < |filters| && (ShardBlocks(geo, s) != 0 ==> block < ShardBlocks(geo, s))
      modifies this`shards, this`evictions, Region(s)
      ensures Sound() && Fits(ShardShape(geo, s), old(shards)[s].window)
      ensures shards == old(shards)[s := Swept(geo, old(shards), s, now)]
      ensures bits == Answer(ShardShape(geo, s), old(shards)[s].window, Spot(fp, block), key, now)
    {
      hide Rotate, Dropped, Answer, ShardBlocks, FilterState.Sound;
      FitsValue();
      assert Holds(s, shards[s].window);
      assert forall t :: 0 <= t < |filters| && t != s ==> Region(t) !! Region(s);
      var evicted;
      bits, evicted := filters[s].LookupMissingBits(fp, key, block, now);
      evictions := evictions[s := evictions[s] + evicted];
      shards := shards[s := Shard(filters[s].W(), evictions[s])];
    }

    method ShardCount(s: nat, now: u64) returns (count: nat)
      requires Sound() && s < |filters|
      modifies this`shards, this`evictions, Region(s)
      ensures Sound() && Fits(ShardShape(geo, s), old(shards)[s].window)
      ensures shards == old(shards)[s := Swept(geo, old(shards), s, now)] && count == Occupied(shards[s].window.gens)
    {
      hide Rotate, Dropped, Occupied, ShardBlocks, FilterState.Sound;
      FitsValue();
      assert Holds(s, shards[s].window);
      assert forall t :: 0 <= t < |filters| && t != s ==> Region(t) !! Region(s);
      var evicted := filters[s].RotateIfNeeded(now);
      evictions := evictions[s := evictions[s] + evicted];
      shards := shards[s := Shard(filters[s].W(), evictions[s])];
      count := filters[s].OccupiedSlots();
    }

    method ShardEntries(s: nat, now: u64) returns (entries: seq<Entry>)
      requires Sound() && s < |filters|
      modifies this`shards, this`evictions, Region(s)
      ensures Sound() && Fits(ShardShape(geo, s), old(shards)[s].window)
      ensures shards == old(shards)[s := Swept(geo, old(shards), s, now)]
      ensures entries == GensEntries(shards[s].window.gens)
    {
      hide Rotate, Dropped, GensEntries, ShardBlocks, FilterState.Sound;
      FitsValue();
      assert Holds(s, shards[s].window);
      assert forall t :: 0 <= t < |filters| && t != s ==> Region(t) !! Region(s);
      var evicted;
      entries, evicted := filters[s].SnapshotEntries(now);
      evictions := evictions[s := evictions[s] + evicted];
      shards := shards[s := Shard(filters[s].W(), evictions[s])];
    }

    // ---------- operations ----------

    /** Records that providers are missing a message; sets the latch. */
    method InsertMissing(h: Hasher, key: Key, bits: Mask, now: u64)
      requires Sound()
      modifies this, Parts
      ensures Sound() && Fit(old(Value())) && Value() == ApplyIndex(h, old(Value()), Note(key, bits, now))
    {
      hide Record, RecordDropped, ShardBlocks, GlobalBlock;
      FitsValue();
      if key == [] || bits == NO_SLOTS || geo.ttl == 0 {
        return;
      }
      var fp := h(key);
      var s, block := ShardOf(geo, fp.hash), LocalBlock(geo, fp.hash);
      Lands(geo, fp.hash);
      OneShard(h, Value(), Note(key, bits, now));
      ShardInsert(s, fp, key, bits, block, now);
      populated := true;
    }

    /** The providers known to be missing a message; nothing is looked up before the latch is set. */
    method Lookup(h: Hasher, key: Key, now: u64) returns (bits: Mask)
      requires Sound()
      modifies this, Parts
      ensures Sound() && Fit(old(Value())) && Value() == ApplyIndex(h, old(Value()), Op.Lookup(key, now))
      ensures bits == AnswerIndex(h, old(Value()), key, now)
    {
      hide Rotate, Dropped, Answer, ShardBlocks, GlobalBlock;
      FitsValue();
      if !populated {
        return NO_SLOTS;
      }
      var fp := h(key);
      var s, block := ShardOf(geo, fp.hash), LocalBlock(geo, fp.hash);
      Lands(geo, fp.hash);
      OneShard(h, Value(), Op.Lookup(key, now));
      bits := ShardLookup(s, fp, key, block, now);
    }

    ghost predicate SweptTo(was: seq<Shard>, n: nat, now: u64)
      reads this
      requires geo.shards > 0 && n <= |was| && forall s :: 0 <= s < |was| ==> |was[s].window.gens| == geo.generations
    {
      && |shards| == |was|
      && (forall s :: 0 <= s < n ==> shards[s] == Swept(geo, was, s, now))
      && (forall s :: n <= s < |was| ==> shards[s] == was[s])
    }

    /** The number of facts held, after rotating every shard. */
    method EntryCount(ghost h: Hasher, now: u64) returns (count: nat)
      requires Sound()
      modifies this, Parts
      ensures Sound() && Fit(old(Value())) && Value() == ApplyIndex(h, old(Value()), Sweep(now))
      ensures count == TotalEntries(Value())
    {
      hide Rotate, Dropped, Occupied, ShardBlocks, EntryCounts, Sum, Holds;
      FitsValue();
      Sizes();
      count := 0;
      NoCounts();
      ghost var was, before := shards, Value();
      for s := 0 to |filters|
        invariant Sound() && SweptTo(was, s, now) && populated == old(populated)
        invariant count == Sum(EntryCounts(shards[..s]))
      {
        ghost var front := shards[..s];
        var n := ShardCount(s, now);
        assert shards[..s] == front;
        CountsMore(shards, s);
        count := count + n;
      }
      assert shards[..|filters|] == shards;
      Sizes();
      EveryShard(h, before, now, shards);
    }

    /** The entries of a snapshot. */
    method SnapshotEntries(ghost h: Hasher, now: u64) returns (entries: seq<Entry>)
      requires Sound()
      modifies this, Parts
      ensures Sound() && Fit(old(Value())) && Value() == ApplyIndex(h, old(Value()), Sweep(now))
      ensures entries == SnapshotOf(h, old(Value()), now)
    {
      hide Rotate, Dropped, GensEntries, ShardsEntries, ShardBlocks, Holds, ApplyIndex;
      FitsValue();
      Sizes();
      NoEntries();
      entries := [];
      ghost var was, before := shards, Value();
      for s := 0 to |filters|
        invariant Sound() && SweptTo(was, s, now) && populated == old(populated)
        invariant entries == ShardsEntries(shards[..s])
      {
        ghost var front := shards[..s];
        var part := ShardEntries(s, now);
        assert shards[..s] == front;
        EntriesMore(shards, s);
        entries := entries + part;
      }
      assert shards[..|filters|] == shards;
      Sizes();
      EveryShard(h, before, now, shards);
    }

    // ---------- restoring ----------

    method ShardReset(s: nat)
      requires Sound() && s < |filters|
      modifies this`shards, this`evictions, Region(s)
      ensures Sound() && shards == old(shards)[s := New(ShardShape(geo, s))] && filters[s].current == 0
    {
      hide ShardBlocks;
      assert Holds(s, shards[s].window);
      assert forall t :: 0 <= t < |filters| && t != s ==> Region(t) !! Region(s);
      ClearedIsFresh(ShardShape(geo, s));
      var _ := filters[s].Reset();
      evictions := evictions[s := 0];
      shards := shards[s := New(ShardShape(geo, s))];
    }

    method ShardRestore(s: nat, e: Entry, block: nat, now: u64)
      requires Sound() && s < |filters| && (ShardBlocks(geo, s) != 0 ==> block < ShardBlocks(geo, s))
      modifies this`shards, this`evictions, Region(s)
      ensures Sound() && Fits(ShardShape(geo, s), old(shards)[s].window)
      ensures filters[s].current == old(filters[s].current)
      ensures var sh, was := ShardShape(geo, s), old(shards)[s];
              shards == old(shards)[s := Shard(Snapshots.RestoreEntry(sh, was.window, e, block, now, geo.ttl),
                                               was.evictions + RestoreDropped(sh, was.window, e, block, now,
                                                                              geo.ttl))]
    {
      hide Snapshots.RestoreEntry, RestoreDropped, ShardBlocks, FilterState.Sound;
      FitsValue();
      assert Holds(s, shards[s].window);
      assert forall t :: 0 <= t < |filters| && t != s ==> Region(t) !! Region(s);
      var evicted := filters[s].RestoreEntry(e, block, now, geo.ttl);
      evictions := evictions[s := evictions[s] + evicted];
      shards := shards[s := Shard(filters[s].W(), evictions[s])];
    }

    /** A shard that holds anything makes its newest generation the current one. */
    method ShardSettle(s: nat, ghost now: nat)
      requires Sound() && s < |filters| && filters[s].current == 0
      requires Fits(ShardShape(geo, s), shards[s].window) && Bucketed(ShardShape(geo, s), shards[s].window, now)
      modifies this`shards, Region(s)
      ensures Sound()
      ensures shards == old(shards)[s := old(shards)[s].(window := Reanchor(ShardShape(geo, s), old(shards)[s].window))]
    {
      hide ShardBlocks, Reanchor;
      assert Holds(s, shards[s].window);
      assert forall t :: 0 <= t < |filters| && t != s ==> Region(t) !! Region(s);
      if filters[s].live != 0 {
        filters[s].ReanchorCurrentGeneration(now);
      } else {
        NothingToSettle(ShardShape(geo, s), filters[s].State());
      }
      shards := shards[s := shards[s].(window := filters[s].W())];
    }

    static lemma NothingToSettle(sh: Shape, r: Rings.Ring)
      requires Rings.Valid(sh, r) && r.live == 0
      ensures Reanchor(sh, Rings.Window(r)) == Rings.Window(r)
    {
      Rings.ClearedByAge(sh, r);
    }

    /** Every shard forgets what it held. */
    method ResetAll()
      requires Sound()
      modifies this, Parts
      ensures Sound() && Value() == Empty(geo).(populated := old(populated))
      ensures forall s :: 0 <= s < |filters| ==> filters[s].current == 0
    {
      hide ShardBlocks, New;
      for s := 0 to |filters|
        invariant Sound() && populated == old(populated)
        invariant forall t :: 0 <= t < s ==> shards[t] == New(ShardShape(geo, t)) && filters[t].current == 0
      {
        assert forall t :: 0 <= t < |filters| && t != s ==> filters[t] !in Region(s) by {
          assert forall t :: 0 <= t < |filters| ==> filters[t] in Region(t);
        }
        ShardReset(s);
      }
      assert shards == Empty(geo).shards;
    }

    /** The state while entries are put back. */
    ghost predicate Refilling(now: nat)
      requires Sound()
      reads this, Parts
    {
      forall s :: 0 <= s < |filters| ==>
        && filters[s] in Parts && filters[s].current == 0 && Fits(ShardShape(geo, s), shards[s].window)
        && Bucketed(ShardShape(geo, s), shards[s].window, now)
    }

    method PutBackOne(e: Entry, now: u64)
      requires Sound() && Refilling(now)
      modifies this, Parts
      ensures Sound() && Refilling(now) && Fit(old(Value())) && Value() == PutBack(old(Value()), e, now)
    {
      hide ShardBlocks, GlobalBlock, Snapshots.RestoreEntry, RestoreDropped, Bucketed;
      FitsValue();
      var s, block := ShardOf(geo, e.hash), LocalBlock(geo, e.hash);
      Lands(geo, e.hash);
      BucketedRestore(ShardShape(geo, s), shards[s].window, e, block, now, geo.ttl);
      assert forall t :: 0 <= t < |filters| && t != s ==> filters[t] !in Region(s) by {
        assert forall t :: 0 <= t < |filters| ==> filters[t] in Region(t);
      }
      ShardRestore(s, e, block, now);
    }

    method SettleAll(ghost now: nat)
      requires Sound() && Refilling(now)
      modifies this, Parts
      ensures Sound() && Fit(old(Value())) && Value() == Settled(old(Value())).(populated := old(populated))
    {
      hide ShardBlocks, Reanchor, Bucketed;
      FitsValue();
      ghost var was := shards;
      for s := 0 to |filters|
        invariant Sound() && populated == old(populated) && |shards| == |was|
        invariant forall t :: 0 <= t < s ==> shards[t] == was[t].(window := Reanchor(ShardShape(geo, t), was[t].window))
        invariant forall t :: s <= t < |filters| ==> shards[t] == was[t] && filters[t].current == 0
      {
        assert forall t :: 0 <= t < |filters| && t != s ==> filters[t] !in Region(s) by {
          assert forall t :: 0 <= t < |filters| ==> filters[t] in Region(t);
        }
        ShardSettle(s, now);
      }
      assert shards == Settled(old(Value())).shards;
    }

    lemma EmptyRefills(now: nat)
      requires Sound() && shards == Empty(geo).shards && forall s :: 0 <= s < |filters| ==> filters[s].current == 0
      ensures Refilling(now)
    {
      assert forall s :: 0 <= s < |filters| ==> filters[s] in Region(s);
    }

    /** Whether any shard holds a fact. */
    method AnyOccupied() returns (any: bool)
      requires Sound()
      ensures any <==> TotalEntries(Value()) != 0
    {
      hide Occupied, EntryCounts, Sum, ShardBlocks;
      var total := 0;
      NoCounts();
      for s := 0 to |filters|
        invariant total == Sum(EntryCounts(shards[..s]))
      {
        assert Holds(s, shards[s].window);
        var n := filters[s].OccupiedSlots();
        CountsMore(shards, s);
        total := total + n;
      }
      assert shards[..|filters|] == shards;
      any := total != 0;
    }

    /** Loading a parsed snapshot. */
    method RestoreInto<P(==)>(table: seq<P>, stored: seq<P>, entries: seq<Entry>, now: u64)
      requires Sound() && |stored| <= MAX_BACKENDS && |table| <= MAX_BACKENDS
      modifies this, Parts
      ensures Sound() && Fit(old(Value()))
      ensures Value() == Restoring.RestoreInto(old(Value()), table, stored, entries, now)
    {
      hide ShardBlocks, PutBack, Bucketed, SortByTime, Empty, Settled, TotalEntries, Remap, FilterState.Sound;
      FitsValue();
      var sorted := SortByTime(entries);
      ResetAll();
      EmptyRefills(now);
      ghost var cleared := Value();
      FitsValue();
      assert TranslatedAll(table, stored, sorted[..0]) == [];
      for i := 0 to |sorted|
        invariant Sound() && Refilling(now) && Fit(cleared)
        invariant Value() == PutBackAll(cleared, TranslatedAll(table, stored, sorted[..i]), now)
      {
        var e := sorted[i];
        var missing := RemapBits(table, stored, e.missing);
        PutBackMore(cleared, table, stored, sorted, i, now);
        PutBackOne(e.(missing := missing), now);
      }
      assert sorted[..|sorted|] == sorted;
      ghost var filled := Value();
      FitsValue();
      SettleAll(now);
      SettledCount(filled);
      SameTotal(Value(), Settled(filled));
      var any := AnyOccupied();
      if any {
        populated := true;
      }
      SettledIs(filled, Value());
    }

    static lemma SameTotal(x: Index, y: Index)
      requires x.shards == y.shards
      ensures TotalEntries(x) == TotalEntries(y)
    {
    }

    static lemma SettledIs(filled: Index, after: Index)
      requires Fit(filled) && after.geo == filled.geo && after.shards == Settled(filled).shards
      requires after.populated == (filled.populated || TotalEntries(filled) != 0)
      ensures after == Settled(filled)
    {
    }
  }
}
