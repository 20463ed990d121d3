/**
  Conservation over whole histories: what took a slot since an index was last emptied, by an
  insertion or by a load, is still held or was counted as evicted, and an index whose latch
  is not set holds nothing.
 */
module Counting {
  import opened Words
  import opened Blocks
  import opened Rotation
  import opened Index
  import opened Identities
  import opened Restoring
  import opened Snapshots
  import opened SnapshotCodec
  import opened Worlds
  import opened Evidence
  import Exactness
  import LatchSteps
  import Savable
  import Sharding

  // ---------- totals ----------

  function Balances(shards: seq<Shard>): (b: seq<nat>)
    ensures |b| == |shards|
    ensures forall s :: 0 <= s < |shards| ==> b[s] == Occupied(shards[s].window.gens) + shards[s].evictions
  {
    seq(|shards|, s requires 0 <= s < |shards| => Occupied(shards[s].window.gens) + shards[s].evictions)
  }

  /** Everything held or counted as evicted. */
  function Total(idx: Index): nat { Sum(Balances(idx.shards)) }

  lemma {:induction false} SumOfSums(a: seq<nat>, b: seq<nat>, c: seq<nat>)
    requires |a| == |b| == |c| && forall i :: 0 <= i < |a| ==> a[i] == b[i] + c[i]
    ensures Sum(a) == Sum(b) + Sum(c)
  {
    if a != [] {
      SumOfSums(a[1..], b[1..], c[1..]);
    }
  }

  lemma TotalIs(idx: Index)
    ensures Total(idx) == TotalEntries(idx) + TotalEvictions(idx)
  {
    SumOfSums(Balances(idx.shards), EntryCounts(idx.shards), EvictionCounts(idx.shards));
  }

  lemma TotalGrows(x: Index, y: Index, s: nat, more: nat)
    requires |x.shards| == |y.shards| && s < |x.shards|
    requires forall i :: 0 <= i < |x.shards| ==>
               Balances(y.shards)[i] == Balances(x.shards)[i] + if i == s then more else 0
    ensures Total(y) == Total(x) + more
  {
    SumUpdate(Balances(x.shards), s, Balances(y.shards)[s]);
    assert Balances(y.shards) == Balances(x.shards)[s := Balances(y.shards)[s]];
  }

  /** Every counter is its number of held slots, and a generation that has not started is cleared. */
  ghost predicate CountedIndex(idx: Index) {
    Fit(idx) && forall s :: 0 <= s < idx.geo.shards ==> Counted(ShardShape(idx.geo, s), idx.shards[s].window)
  }

  lemma EmptyIsCounted(geo: Geometry, populated: bool)
    requires Sane(geo)
    ensures CountedIndex(Empty(geo).(populated := populated)) && Total(Empty(geo).(populated := populated)) == 0
  {
    var idx := Empty(geo);
    forall s | 0 <= s < geo.shards
      ensures Counted(ShardShape(geo, s), idx.shards[s].window) && Balances(idx.shards)[s] == 0
    {
      NewIsCounted(ShardShape(geo, s));
    }
    Sharding.SumIsZero(Balances(idx.shards));
  }

  // ---------- operations ----------

  /** Whether an operation takes a slot: an insertion that is neither ignored nor merged into an entry. */
  ghost function Takes(h: Hasher, idx: Index, op: Op): nat
    requires Fit(idx)
  {
    if !op.Note? || Ignored(idx, op) then 0
    else
      var s := ShardOf(idx.geo, h(op.key).hash);
      RoutesIn(idx.geo, h, s);
      var sh, spot := ShardShape(idx.geo, s), RouteIn(idx.geo, h, s)(op.key);
      if Stores(sh, op.bits) && RecordOutcome(sh, idx.shards[s].window, spot, op.key, op.now) != Updated then 1 else 0
  }

  lemma ShardConserves(h: Hasher, idx: Index, op: Op, s: nat)
    requires CountedIndex(idx) && s < idx.geo.shards && (op.Note? ==> op.now >= 1)
    ensures Counted(ShardShape(idx.geo, s), ApplyIndex(h, idx, op).shards[s].window)
    ensures Balances(ApplyIndex(h, idx, op).shards)[s] ==
            Balances(idx.shards)[s] + if op.Note? && s == ShardOf(idx.geo, h(op.key).hash) then Takes(h, idx, op) else 0
  {
    hide Record, Rotate, RecordOutcome, RecordDropped, Dropped, Occupied, Counted;
    StepOfShard(h, idx, op, s);
    var sh, w := ShardShape(idx.geo, s), idx.shards[s].window;
    if op.Note? {
      RecordConserves(sh, w, RouteIn(idx.geo, h, s)(op.key), op.key, op.bits, op.now);
    } else {
      RotateConserves(sh, w, op.now);
    }
  }

  /** One operation: what it takes is what the total gains. */
  lemma StepConserves(h: Hasher, idx: Index, op: Op)
    requires CountedIndex(idx) && (op.Note? ==> op.now >= 1)
    ensures CountedIndex(ApplyIndex(h, idx, op))
    ensures Total(ApplyIndex(h, idx, op)) == Total(idx) + Takes(h, idx, op)
  {
    hide ApplyIndex, Takes, Counted, Occupied;
    var idx' := ApplyIndex(h, idx, op);
    forall s | 0 <= s < idx.geo.shards
      ensures Counted(ShardShape(idx.geo, s), idx'.shards[s].window)
      ensures Balances(idx'.shards)[s] ==
              Balances(idx.shards)[s]
              + if op.Note? && s == ShardOf(idx.geo, h(op.key).hash) then Takes(h, idx, op) else 0
    {
      ShardConserves(h, idx, op, s);
    }
    if op.Note? {
      TotalGrows(idx, idx', ShardOf(idx.geo, h(op.key).hash), Takes(h, idx, op));
    } else {
      TotalGrows(idx, idx', 0, 0);
      ReadsTakeNothing(h, idx, op);
    }
  }

  lemma ReadsTakeNothing(h: Hasher, idx: Index, op: Op)
    requires Fit(idx) && !op.Note?
    ensures Takes(h, idx, op) == 0
  {
  }

  ghost function TakenBy(h: Hasher, idx: Index, ops: seq<Op>): nat
    requires Fit(idx)
  {
    if ops == [] then 0
    else TakenBy(h, idx, ops[..|ops| - 1]) + Takes(h, RunIndex(h, idx, ops[..|ops| - 1]), ops[|ops| - 1])
  }

  /**
    Conservation in the whole index, from any counted state: a run adds the insertions that
    took a slot to the entries plus the evictions, and every counter stays true.
   */
  lemma {:induction false} IndexConserves(h: Hasher, idx: Index, ops: seq<Op>)
    requires CountedIndex(idx) && forall i :: 0 <= i < |ops| && ops[i].Note? ==> ops[i].now >= 1
    ensures var end := RunIndex(h, idx, ops);
            && CountedIndex(end)
            && TakenBy(h, idx, ops) + TotalEntries(idx) + TotalEvictions(idx) == TotalEntries(end) + TotalEvictions(end)
  {
    hide CountedIndex, ApplyIndex, Takes, Sum;
    CountedFits(idx);
    if ops != [] {
      var rest := ops[..|ops| - 1];
      IndexConserves(h, idx, rest);
      StepConserves(h, RunIndex(h, idx, rest), ops[|ops| - 1]);
      TotalIs(RunIndex(h, idx, rest));
      TotalIs(RunIndex(h, idx, ops));
    }
  }

  // ---------- loading ----------

  /** A restored entry takes a slot unless it is skipped or merged into an entry. */
  ghost function Fills(sh: Shape, w: Window, e: Entry, block: nat, now: u64, ttl: u64): nat
    requires Fits(sh, w) && (sh.blocks != 0 ==> block < sh.blocks)
  {
    if Skipped(sh, e, now, ttl) then 0
    else
      var b := w.gens[AgeOf(sh, e.insertedAt, now)].blocks[block];
      if OutcomeOf(b, Fingerprint(e.hash, e.tag), e.key) == Updated then 0 else 1
  }

  /** One restored entry; a fact from before the first clock reading would not start its generation. */
  lemma RestoreConserves(sh: Shape, w: Window, e: Entry, block: nat, now: u64, ttl: u64)
    requires Fits(sh, w) && Counted(sh, w) && (sh.blocks != 0 ==> block < sh.blocks)
    requires e.missing != NO_SLOTS ==> e.insertedAt >= 1
    ensures var w' := RestoreEntry(sh, w, e, block, now, ttl);
            && Fits(sh, w') && Counted(sh, w')
            && Occupied(w.gens) + Fills(sh, w, e, block, now, ttl) ==
               Occupied(w'.gens) + RestoreDropped(sh, w, e, block, now, ttl)
  {
    hide AgeOf;
    if !Skipped(sh, e, now, ttl) {
      var a := AgeOf(sh, e.insertedAt, now);
      var g := Backdate(w.gens[a], e.insertedAt);
      InsertGenCounts(g, Fingerprint(e.hash, e.tag), e.key, e.missing, block);
      OccupiedUpdate(w.gens, a, InsertGen(g, Fingerprint(e.hash, e.tag), e.key, e.missing, block));
    }
  }

  ghost function FillsIndex(idx: Index, e: Entry, now: u64): nat
    requires Fit(idx)
  {
    var s := ShardOf(idx.geo, e.hash);
    Lands(idx.geo, e.hash);
    Fills(ShardShape(idx.geo, s), idx.shards[s].window, e, LocalBlock(idx.geo, e.hash), now, idx.geo.ttl)
  }

  lemma PutBackConserves(idx: Index, e: Entry, now: u64)
    requires CountedIndex(idx) && (e.missing != NO_SLOTS ==> e.insertedAt >= 1)
    ensures CountedIndex(PutBack(idx, e, now)) && Total(PutBack(idx, e, now)) == Total(idx) + FillsIndex(idx, e, now)
  {
    hide RestoreEntry, RestoreDropped, Fills, Counted, Occupied;
    var s := ShardOf(idx.geo, e.hash);
    Lands(idx.geo, e.hash);
    RestoreConserves(ShardShape(idx.geo, s), idx.shards[s].window, e, LocalBlock(idx.geo, e.hash), now, idx.geo.ttl);
    TotalGrows(idx, PutBack(idx, e, now), s, FillsIndex(idx, e, now));
  }

  ghost function FilledBy(idx: Index, entries: seq<Entry>, now: u64): nat
    requires Fit(idx)
  {
    if entries == [] then 0
    else
      var rest := entries[..|entries| - 1];
      FilledBy(idx, rest, now) + FillsIndex(PutBackAll(idx, rest, now), entries[|entries| - 1], now)
  }

  lemma {:induction false} PutBackAllConserves(idx: Index, entries: seq<Entry>, now: u64)
    requires CountedIndex(idx) && forall e :: e in entries && e.missing != NO_SLOTS ==> e.insertedAt >= 1
    ensures CountedIndex(PutBackAll(idx, entries, now))
    ensures Total(PutBackAll(idx, entries, now)) == Total(idx) + FilledBy(idx, entries, now)
  {
    hide CountedIndex, PutBack, FillsIndex, Total;
    CountedFits(idx);
    if entries != [] {
      var n := |entries| - 1;
      assert entries[n] in entries && forall e :: e in entries[..n] ==> e in entries;
      PutBackAllConserves(idx, entries[..n], now);
      PutBackConserves(PutBackAll(idx, entries[..n], now), entries[n], now);
    }
  }

  lemma CountedFits(idx: Index)
    requires CountedIndex(idx)
    ensures Fit(idx)
  {
  }

  lemma ReanchorConserves(sh: Shape, w: Window)
    requires Fits(sh, w) && Counted(sh, w)
    ensures Counted(sh, Reanchor(sh, w)) && Occupied(Reanchor(sh, w).gens) == Occupied(w.gens)
  {
    hide Occupied, CountHeld;
    ReanchorKeepsCount(sh, w);
    var best := Anchor(w.gens, |w.gens|);
    if best.Some? {
      var w', c := Reanchor(sh, w), best.value;
      assert forall a :: 0 <= a < |w.gens| - c ==> w'.gens[a] == w.gens[a + c];
      assert forall a :: |w.gens| - c <= a < |w.gens| ==> w'.gens[a] == w.gens[a - (|w.gens| - c)];
    }
  }

  lemma SettledConserves(idx: Index)
    requires CountedIndex(idx)
    ensures CountedIndex(Settled(idx)) && Total(Settled(idx)) == Total(idx)
  {
    hide Reanchor, Occupied, Counted;
    forall s | 0 <= s < idx.geo.shards
      ensures Counted(ShardShape(idx.geo, s), Settled(idx).shards[s].window)
      ensures Balances(Settled(idx).shards)[s] == Balances(idx.shards)[s]
    {
      ReanchorConserves(ShardShape(idx.geo, s), idx.shards[s].window);
    }
    assert Balances(Settled(idx).shards) == Balances(idx.shards);
  }

  /** The restores of a load that took a slot. */
  ghost function Reloaded<P>(idx: Index, table: seq<P>, stored: seq<P>, entries: seq<Entry>, now: u64): nat
    requires Fit(idx) && |stored| <= MAX_BACKENDS && |table| <= MAX_BACKENDS
  {
    FilledBy(Empty(idx.geo).(populated := idx.populated), TranslatedAll(table, stored, SortByTime(entries)), now)
  }

  lemma FilledIsCounted<P>(idx: Index, table: seq<P>, stored: seq<P>, entries: seq<Entry>, now: u64)
    requires Fit(idx) && |stored| <= MAX_BACKENDS && |table| <= MAX_BACKENDS
    requires forall e, p: Slot :: e in entries && Has(e.missing, p) && p < |stored| ==> e.insertedAt >= 1
    ensures var cleared := Empty(idx.geo).(populated := idx.populated);
            var mapped := TranslatedAll(table, stored, SortByTime(entries));
            && CountedIndex(PutBackAll(cleared, mapped, now))
            && Total(PutBackAll(cleared, mapped, now)) == FilledBy(cleared, mapped, now)
  {
    hide CountedIndex, PutBackAll, SortByTime, Total, FilledBy, Translated;
    SortElements(entries);
    var sorted := SortByTime(entries);
    var mapped := TranslatedAll(table, stored, sorted);
    forall e | e in mapped && e.missing != NO_SLOTS
      ensures e.insertedAt >= 1
    {
      var i :| 0 <= i < |mapped| && mapped[i] == e;
      assert sorted[i] in sorted;
      Exactness.TranslatedWithin(table, stored, sorted[i]);
    }
    EmptyIsCounted(idx.geo, idx.populated);
    PutBackAllConserves(Empty(idx.geo).(populated := idx.populated), mapped, now);
  }

  /**
    Conservation over a load, whatever the index held before: the restores that took a slot
    are the entries plus the evictions, and every counter is true.
   */
  lemma LoadConserves<P>(idx: Index, table: seq<P>, stored: seq<P>, entries: seq<Entry>, now: u64)
    requires Fit(idx) && |stored| <= MAX_BACKENDS && |table| <= MAX_BACKENDS
    requires forall e, p: Slot :: e in entries && Has(e.missing, p) && p < |stored| ==> e.insertedAt >= 1
    ensures var idx' := RestoreInto(idx, table, stored, entries, now);
            CountedIndex(idx') && Total(idx') == Reloaded(idx, table, stored, entries, now)
  {
    hide CountedIndex, PutBackAll, Settled, SortByTime, Total, FilledBy, Translated;
    FilledIsCounted(idx, table, stored, entries, now);
    var cleared := Empty(idx.geo).(populated := idx.populated);
    SettledConserves(PutBackAll(cleared, TranslatedAll(table, stored, SortByTime(entries)), now));
  }

  // ---------- whole histories ----------

  /** What took a slot of proxy `id` since it was last booted or loaded. */
  ghost function Taken(h: Hasher, utf8: Utf8, steps: seq<Step>, id: nat): nat {
    if steps == [] then 0
    else
      var rest, step := steps[..|steps| - 1], steps[|steps| - 1];
      var w, was := Happen(h, utf8, rest), Taken(h, utf8, rest, id);
      if !Possible(w, step) || step.id != id then was
      else
        match step
        case Boot(_, _, _) => 0
        case Do(_, op) => was + Takes(h, w.proxies[id].index, op)
        case Save(_, _, _) => was
        case Load(_, file, at) => TakenByLoad(utf8, w.proxies[id], w.files[file], at, was)
  }

  ghost function TakenByLoad(utf8: Utf8, proxy: Proxy, data: seq<byte>, now: u64, was: nat): nat
    requires Fit(proxy.index) && |proxy.layout| <= MAX_BACKENDS
  {
    match Parse(utf8, data)
    case Failed => was
    case Legacy => 0
    case Read(s) => Reloaded(proxy.index, proxy.layout, s.hosts, s.entries, now)
  }

  ghost predicate Conserved(idx: Index, taken: nat) { CountedIndex(idx) && Total(idx) == taken }

  lemma FileConserves(utf8: Utf8, proxy: Proxy, data: seq<byte>, log: iset<Obs<nat>>, now: u64, was: nat)
    requires Conserved(proxy.index, was) && |proxy.layout| <= MAX_BACKENDS
    requires FileBacked(utf8, Savable.Anyone, Everyone(), data, log, now)
    ensures Fit(proxy.index)
    ensures Conserved(LoadedIndex(utf8, proxy, data, now), TakenByLoad(utf8, proxy, data, now, was))
  {
    hide Parse, RestoreInto, Reloaded, CountedIndex, Total;
    CountedFits(proxy.index);
    match Parse(utf8, data)
    case Failed =>
    case Legacy =>
      var none: seq<Host>, nothing: seq<Entry> := [], [];
      LoadConserves(proxy.index, proxy.layout, none, nothing, now);
      NothingReloaded(proxy.index, proxy.layout, now);
    case Read(s) =>
      forall e, p: Slot | e in s.entries && Has(e.missing, p) && p < |s.hosts|
        ensures e.insertedAt >= 1
      {
        assert EntryTells(Savable.Anyone, Everyone(), s.hosts, e, log, now);
      }
      LoadConserves(proxy.index, proxy.layout, s.hosts, s.entries, now);
  }

  lemma NothingReloaded(idx: Index, table: seq<Host>, now: u64)
    requires Fit(idx) && |table| <= MAX_BACKENDS
    ensures var none: seq<Host> := []; Reloaded(idx, table, none, [], now) == 0
  {
  }

  lemma StepConserved(h: Hasher, idx: Index, op: Op, taken: nat)
    requires Conserved(idx, taken) && (op.Note? ==> op.now >= 1)
    ensures Fit(idx) && Conserved(ApplyIndex(h, idx, op), taken + Takes(h, idx, op))
  {
    StepConserves(h, idx, op);
  }

  lemma {:induction false} HistoryIsConserved(h: Hasher, utf8: Utf8, steps: seq<Step>, id: nat, now: nat)
    requires InOrder(steps, now)
    ensures id in Happen(h, utf8, steps).proxies ==>
              Conserved(Happen(h, utf8, steps).proxies[id].index, Taken(h, utf8, steps, id))
    decreases |steps|
  {
    hide Conserved, ApplyIndex, LoadedIndex, Perform, FileBacked, ProxyBacked, Empty, Takes, TakenByLoad;
    if steps != [] && id in Happen(h, utf8, steps).proxies {
      var rest, step := steps[..|steps| - 1], steps[|steps| - 1];
      var before := Happen(h, utf8, rest);
      var clock: nat := if step.Boot? then now else step.Time();
      HistoryIsConserved(h, utf8, rest, id, clock);
      PerformChanges(h, utf8, before, step);
      if Possible(before, step) && step.id == id {
        match step
        case Boot(_, geo, _) => BootIsConserved(geo);
        case Do(_, op) => StepConserved(h, before.proxies[id].index, op, Taken(h, utf8, rest, id));
        case Save(_, _, at) =>
          StepConserved(h, before.proxies[id].index, Sweep(at), Taken(h, utf8, rest, id));
          ReadsTakeNothing(h, before.proxies[id].index, Sweep(at));
        case Load(_, file, at) =>
          HistoryBacked(h, utf8, Savable.Anyone, Everyone(), rest, clock);
          FileConserves(utf8, before.proxies[id], before.files[file], Observed(h, utf8, Savable.Anyone, rest), at,
                        Taken(h, utf8, rest, id));
      }
    }
  }

  lemma BootIsConserved(geo: Geometry)
    requires Sane(geo)
    ensures Conserved(Empty(geo), 0)
  {
    EmptyIsCounted(geo, false);
  }

  /**
    Conservation over every history of boots, insertions, lookups, saves and loads: what took
    a slot of a proxy since it was last booted or loaded, by an insertion or a restore, is the
    number of its entries plus its evictions, and every counter is its number of held slots.
   */
  lemma HistoryConserves(h: Hasher, utf8: Utf8, steps: seq<Step>, id: nat, now: nat)
    requires InOrder(steps, now)
    ensures id in Happen(h, utf8, steps).proxies ==>
              var idx := Happen(h, utf8, steps).proxies[id].index;
              CountedIndex(idx) && Taken(h, utf8, steps, id) == TotalEntries(idx) + TotalEvictions(idx)
  {
    hide Happen, Taken, CountedIndex, Sum;
    HistoryIsConserved(h, utf8, steps, id, now);
    if id in Happen(h, utf8, steps).proxies {
      TotalIs(Happen(h, utf8, steps).proxies[id].index);
    }
  }

  // ---------- the latch ----------

  /** A slot of block `b` in the generation of age `a` is held. */
  ghost predicate HoldsIn(w: Window, a: nat, b: nat) {
    a < |w.gens| && b < |w.gens[a].blocks| && HeldIn(w.gens[a].blocks[b]) > 0
  }

  ghost predicate Holding(idx: Index, s: nat, a: nat, b: nat) {
    s < |idx.shards| && HoldsIn(idx.shards[s].window, a, b)
  }

  /** Whatever is held is counted. */
  lemma HoldingCounts(idx: Index, s: nat, a: nat, b: nat)
    requires CountedIndex(idx) && Holding(idx, s, a, b)
    ensures TotalEntries(idx) > 0
  {
    var gens := idx.shards[s].window.gens;
    CountUpdate(gens[a].blocks, b, EMPTY_BLOCK);
    assert gens[a].occupied > 0;
    Exactness.SumIsPositive(seq(|gens|, i requires 0 <= i < |gens| => gens[i].occupied), a);
    Exactness.SumIsPositive(EntryCounts(idx.shards), s);
  }

  /** Restoring an entry keeps what is held and, unless the entry is skipped, holds something. */
  lemma RestoreHolds(sh: Shape, w: Window, e: Entry, block: nat, now: u64, ttl: u64, a: nat, b: nat)
    requires Fits(sh, w) && (sh.blocks != 0 ==> block < sh.blocks)
    ensures var w' := RestoreEntry(sh, w, e, block, now, ttl);
            && (HoldsIn(w, a, b) ==> HoldsIn(w', a, b))
            && (!Skipped(sh, e, now, ttl) ==> HoldsIn(w', AgeOf(sh, e.insertedAt, now), block))
  {
    hide AgeOf;
  }

  lemma {:induction false} NothingOrHolding(idx: Index, entries: seq<Entry>, now: u64)
    requires Fit(idx)
    ensures var end := PutBackAll(idx, entries, now);
            end.shards == idx.shards || exists s, a, b :: Holding(end, s, a, b)
  {
    hide RestoreEntry, RestoreDropped, HoldsIn;
    if entries != [] {
      var n := |entries| - 1;
      NothingOrHolding(idx, entries[..n], now);
      var was, e := PutBackAll(idx, entries[..n], now), entries[n];
      var s, block := ShardOf(idx.geo, e.hash), LocalBlock(idx.geo, e.hash);
      var sh, w := ShardShape(idx.geo, s), was.shards[s].window;
      Lands(idx.geo, e.hash);
      RestoreHolds(sh, w, e, block, now, idx.geo.ttl, 0, 0);
      if Skipped(sh, e, now, idx.geo.ttl) {
        SkippedStays(was, e, now);
      } else {
        assert Holding(PutBack(was, e, now), s, AgeOf(sh, e.insertedAt, now), block);
      }
    }
  }

  lemma SkippedStays(idx: Index, e: Entry, now: u64)
    requires Fit(idx) && Skipped(ShardShape(idx.geo, ShardOf(idx.geo, e.hash)), e, now, idx.geo.ttl)
    ensures PutBack(idx, e, now).shards == idx.shards
  {
    Lands(idx.geo, e.hash);
  }

  lemma LoadIsStartable<P>(idx: Index, table: seq<P>, stored: seq<P>, entries: seq<Entry>, now: u64)
    requires Fit(idx) && |stored| <= MAX_BACKENDS && |table| <= MAX_BACKENDS
    requires forall e, p: Slot :: e in entries && Has(e.missing, p) && p < |stored| ==> e.insertedAt >= 1
    ensures LatchSteps.Startable(RestoreInto(idx, table, stored, entries, now))
  {
    hide CountedIndex, PutBackAll, SortByTime, Translated, Reanchor, Holding, Sum;
    var cleared := Empty(idx.geo).(populated := idx.populated);
    var filled := PutBackAll(cleared, TranslatedAll(table, stored, SortByTime(entries)), now);
    FilledIsCounted(idx, table, stored, entries, now);
    NothingOrHolding(cleared, TranslatedAll(table, stored, SortByTime(entries)), now);
    if !Settled(filled).populated {
      if s, a, b :| Holding(filled, s, a, b) {
        HoldingCounts(filled, s, a, b);
      }
      FreshSettles(filled);
    }
  }

  lemma FreshSettles(idx: Index)
    requires Fit(idx) && idx.shards == Empty(idx.geo).shards
    ensures Settled(idx).shards == idx.shards
  {
    forall s | 0 <= s < idx.geo.shards
      ensures Reanchor(ShardShape(idx.geo, s), idx.shards[s].window) == idx.shards[s].window
    {
      NoAnchor(idx.shards[s].window.gens, |idx.shards[s].window.gens|);
    }
  }

  lemma {:induction false} NoAnchor(gens: seq<Gen>, n: nat)
    requires n <= |gens| && forall a :: 0 <= a < |gens| ==> gens[a].startedAt == 0
    ensures Anchor(gens, n) == None
  {
    if n > 0 {
      NoAnchor(gens, n - 1);
    }
  }

  lemma StepIsStartable(h: Hasher, idx: Index, op: Op)
    requires LatchSteps.Startable(idx)
    ensures LatchSteps.Startable(ApplyIndex(h, idx, op))
  {
    if !idx.populated && op.Sweep? {
      forall s | 0 <= s < idx.geo.shards
        ensures ApplyIndex(h, idx, op).shards[s] == idx.shards[s]
      {
        StepOfShard(h, idx, op, s);
        FreshIsStill(ShardShape(idx.geo, s), op.now);
      }
    }
  }

  lemma FileIsStartable(utf8: Utf8, proxy: Proxy, data: seq<byte>, log: iset<Obs<nat>>, now: u64)
    requires LatchSteps.Startable(proxy.index) && |proxy.layout| <= MAX_BACKENDS
    requires FileBacked(utf8, Savable.Anyone, Everyone(), data, log, now)
    ensures LatchSteps.Startable(LoadedIndex(utf8, proxy, data, now))
  {
    hide Parse, RestoreInto, LatchSteps.Startable;
    StartableFits(proxy.index);
    match Parse(utf8, data)
    case Failed =>
    case Legacy =>
      var none: seq<Host>, nothing: seq<Entry> := [], [];
      LoadIsStartable(proxy.index, proxy.layout, none, nothing, now);
    case Read(s) =>
      forall e, p: Slot | e in s.entries && Has(e.missing, p) && p < |s.hosts|
        ensures e.insertedAt >= 1
      {
        assert EntryTells(Savable.Anyone, Everyone(), s.hosts, e, log, now);
      }
      LoadIsStartable(proxy.index, proxy.layout, s.hosts, s.entries, now);
  }

  lemma StartableFits(idx: Index)
    requires LatchSteps.Startable(idx)
    ensures Fit(idx)
  {
  }

  /** In every history every proxy holds nothing while its latch is not set, so lookups may rely on it. */
  lemma {:induction false} LatchIsSound(h: Hasher, utf8: Utf8, steps: seq<Step>, id: nat, now: nat)
    requires InOrder(steps, now)
    ensures id in Happen(h, utf8, steps).proxies ==> LatchSteps.Startable(Happen(h, utf8, steps).proxies[id].index)
    decreases |steps|
  {
    hide LatchSteps.Startable, ApplyIndex, LoadedIndex, Perform, FileBacked, ProxyBacked;
    if steps != [] && id in Happen(h, utf8, steps).proxies {
      var rest, step := steps[..|steps| - 1], steps[|steps| - 1];
      var before := Happen(h, utf8, rest);
      var clock: nat := if step.Boot? then now else step.Time();
      LatchIsSound(h, utf8, rest, id, clock);
      PerformChanges(h, utf8, before, step);
      if Possible(before, step) && step.id == id {
        match step
        case Boot(_, geo, _) => EmptyIsStartable(geo);
        case Do(_, op) => StepIsStartable(h, before.proxies[id].index, op);
        case Save(_, _, at) => StepIsStartable(h, before.proxies[id].index, Sweep(at));
        case Load(_, file, at) =>
          HistoryBacked(h, utf8, Savable.Anyone, Everyone(), rest, clock);
          FileIsStartable(utf8, before.proxies[id], before.files[file], Observed(h, utf8, Savable.Anyone, rest), at);
      }
    }
  }

  lemma EmptyIsStartable(geo: Geometry)
    requires Sane(geo)
    ensures LatchSteps.Startable(Empty(geo))
  {
  }
}
