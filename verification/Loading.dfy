/**
  What a load makes of a list of entries, said of the entries alone.

  Where no block is asked to hold more than two names of one age class, a loaded index holds
  exactly the facts of the entries that are young enough, and a lookup at the time of the
  load reports them all, except in a shard that has nothing but outdated ones.
 */
module Loading {
  import opened Words
  import opened Blocks
  import opened Rotation
  import opened Snapshots
  import opened Index
  import opened Restoring
  import Counting
  import Retention

  // ---------- the entries that count ----------

  /** Not vacant and younger than the time to live. */
  predicate Recent(e: Entry, now: nat, ttl: nat) { e.hash != 0 && SatSub(now, e.insertedAt) < ttl }

  predicate SameName(x: Entry, y: Entry) { x.hash == y.hash && x.tag == y.tag && x.key == y.key }

  /** The age class of an entry; it is the same in every shard. */
  function ClassOf(geo: Geometry, e: Entry, now: nat): (a: nat)
    requires Sane(geo)
    ensures a < geo.generations
  {
    AgeOf(ShardShape(geo, 0), e.insertedAt, now)
  }

  /** Two entries of the same block and age class. */
  predicate Meet(geo: Geometry, x: Entry, y: Entry, now: nat)
    requires Sane(geo)
  {
    GlobalBlock(geo, x.hash) == GlobalBlock(geo, y.hash) && ClassOf(geo, x, now) == ClassOf(geo, y, now)
  }

  /** No block gets recent entries of three different names and one age class. */
  ghost predicate Roomy(geo: Geometry, entries: seq<Entry>, now: nat)
    requires Sane(geo)
  {
    forall x, y, z ::
      && x in entries && y in entries && z in entries
      && Recent(x, now, geo.ttl) && Recent(y, now, geo.ttl) && Recent(z, now, geo.ttl)
      && Meet(geo, x, y, now) && Meet(geo, x, z, now) ==>
        SameName(x, y) || SameName(y, z) || SameName(x, z)
  }

  // ---------- one block ----------

  /** A block of the generation with a given age, in one shard. */
  datatype Place = Place(shard: nat, age: nat, block: nat)

  predicate InRange(geo: Geometry, at: Place)
    requires geo.shards > 0
  {
    at.shard < geo.shards && at.age < geo.generations && at.block < ShardBlocks(geo, at.shard)
  }

  ghost function BlockAt(idx: Index, at: Place): Block
    requires Fit(idx) && InRange(idx.geo, at)
  {
    idx.shards[at.shard].window.gens[at.age].blocks[at.block]
  }

  /** The entry is put into the generation of age `age` in shard `shard`. */
  predicate Enters(geo: Geometry, e: Entry, now: nat, shard: nat, age: nat)
    requires Sane(geo)
  {
    && Recent(e, now, geo.ttl) && e.missing != NO_SLOTS
    && ShardOf(geo, e.hash) == shard && ClassOf(geo, e, now) == age
  }

  predicate Goes(geo: Geometry, e: Entry, now: nat, at: Place): (goes: bool)
    requires Sane(geo)
    ensures goes ==> e.hash != 0
  {
    Enters(geo, e, now, at.shard, at.age) && LocalBlock(geo, e.hash) == at.block
  }

  function NameOf(e: Entry): Fingerprint
    requires e.hash != 0
  {
    Fingerprint(e.hash, e.tag)
  }

  /** What the entries make of one block. */
  ghost function Filled(geo: Geometry, entries: seq<Entry>, now: nat, at: Place): Block
    requires Sane(geo)
  {
    if entries == [] then EMPTY_BLOCK
    else
      var b, e := Filled(geo, entries[..|entries| - 1], now, at), entries[|entries| - 1];
      if Goes(geo, e, now, at) then InsertBlock(b, NameOf(e), e.key, e.missing) else b
  }

  lemma PutBackAt(idx: Index, e: Entry, now: u64, at: Place)
    requires Fit(idx) && idx.geo.blocks > 0 && InRange(idx.geo, at)
    ensures BlockAt(PutBack(idx, e, now), at) ==
            if Goes(idx.geo, e, now, at) then InsertBlock(BlockAt(idx, at), NameOf(e), e.key, e.missing)
            else BlockAt(idx, at)
  {
    hide InsertBlock, OutcomeOf;
    BlockInBounds(idx.geo, GlobalBlock(idx.geo, e.hash));
  }

  lemma {:induction false} PutBackFills(idx: Index, entries: seq<Entry>, now: u64, at: Place)
    requires Fit(idx) && idx.geo.blocks > 0 && InRange(idx.geo, at) && BlockAt(idx, at) == EMPTY_BLOCK
    ensures BlockAt(PutBackAll(idx, entries, now), at) == Filled(idx.geo, entries, now, at)
  {
    hide PutBack, Goes, InRange, InsertBlock;
    if entries != [] {
      PutBackFills(idx, entries[..|entries| - 1], now, at);
      PutBackAt(PutBackAll(idx, entries[..|entries| - 1], now), entries[|entries| - 1], now, at);
    }
  }

  /** A held slot has the name of an entry that was put there. */
  ghost predicate Named(geo: Geometry, entries: seq<Entry>, now: nat, at: Place, c: Cell)
    requires Sane(geo)
  {
    c.Held? ==> exists e :: e in entries && Goes(geo, e, now, at) && c.fp == NameOf(e) && c.key == e.key
  }

  lemma {:induction false} FilledIsNamed(geo: Geometry, entries: seq<Entry>, now: nat, at: Place)
    requires Sane(geo)
    ensures var b := Filled(geo, entries, now, at);
            && Named(geo, entries, now, at, b.first) && Named(geo, entries, now, at, b.second)
            && (b.first.Held? && b.second.Held? ==> b.first.fp != b.second.fp || b.first.key != b.second.key)
  {
    hide Goes;
    if entries != [] {
      var rest, e := entries[..|entries| - 1], entries[|entries| - 1];
      FilledIsNamed(geo, rest, now, at);
      var b := Filled(geo, rest, now, at);
      NamedStays(geo, entries, now, at, b.first);
      NamedStays(geo, entries, now, at, b.second);
      assert e in entries;
    }
  }

  lemma NamedStays(geo: Geometry, entries: seq<Entry>, now: nat, at: Place, c: Cell)
    requires Sane(geo) && entries != [] && Named(geo, entries[..|entries| - 1], now, at, c)
    ensures Named(geo, entries, now, at, c)
  {
    hide Goes;
    if c.Held? {
      var rest := entries[..|entries| - 1];
      var e :| e in rest && Goes(geo, e, now, at) && c.fp == NameOf(e) && c.key == e.key;
      assert e in entries;
    }
  }

  /** Nothing but the entries is told. */
  lemma {:induction false} FilledTellsOnly(geo: Geometry, entries: seq<Entry>, now: nat, at: Place, k: Key, q: Slot)
    requires Sane(geo) && Says(Filled(geo, entries, now, at), k, q)
    ensures exists e :: e in entries && Goes(geo, e, now, at) && e.key == k && Has(e.missing, q)
  {
    hide Goes, InsertBlock;
    if entries != [] {
      var rest, e := entries[..|entries| - 1], entries[|entries| - 1];
      var b := Filled(geo, rest, now, at);
      if Says(b, k, q) {
        FilledTellsOnly(geo, rest, now, at, k, q);
        var x :| x in rest && Goes(geo, x, now, at) && x.key == k && Has(x.missing, q);
        assert x in entries;
      } else {
        InsertSaysOnly(b, NameOf(e), e.key, e.missing, k, q);
        assert e in entries;
      }
    }
  }

  lemma InsertFindsOnly(b: Block, fp: Fingerprint, key: Key, bits: Mask, f: Fingerprint, k: Key, q: Slot)
    requires Finds(InsertBlock(b, fp, key, bits), f, k, q)
    ensures Finds(b, f, k, q) || (f == fp && k == key && Has(bits, q))
  {
    FindsMeans(b, f, k, q);
    FindsMeans(InsertBlock(b, fp, key, bits), f, k, q);
  }

  /** The same under a name. */
  lemma {:induction false} FilledFindsOnly(geo: Geometry, entries: seq<Entry>, now: nat, at: Place, f: Fingerprint,
                                           k: Key, q: Slot)
    requires Sane(geo) && Finds(Filled(geo, entries, now, at), f, k, q)
    ensures exists e :: e in entries && Goes(geo, e, now, at) && NameOf(e) == f && e.key == k && Has(e.missing, q)
  {
    hide Goes, InsertBlock, Finds;
    if entries == [] {
      NothingFound(f, k, q);
    } else {
      var rest, e := entries[..|entries| - 1], entries[|entries| - 1];
      var b := Filled(geo, rest, now, at);
      if Finds(b, f, k, q) {
        FilledFindsOnly(geo, rest, now, at, f, k, q);
        var x :| x in rest && Goes(geo, x, now, at) && NameOf(x) == f && x.key == k && Has(x.missing, q);
        assert x in entries;
      } else {
        InsertFindsOnly(b, NameOf(e), e.key, e.missing, f, k, q);
        assert e in entries;
      }
    }
  }

  lemma NothingFound(f: Fingerprint, k: Key, q: Slot)
    ensures !Finds(EMPTY_BLOCK, f, k, q)
  {
  }

  lemma SameSpot(geo: Geometry, x: Entry, y: Entry, now: nat, at: Place)
    requires Sane(geo) && Goes(geo, x, now, at) && Goes(geo, y, now, at)
    ensures Meet(geo, x, y, now)
    ensures Recent(x, now, geo.ttl) && Recent(y, now, geo.ttl)
  {
    hide GlobalBlock;
    PlaceSums(geo.shards, GlobalBlock(geo, x.hash));
    PlaceSums(geo.shards, GlobalBlock(geo, y.hash));
  }

  /** With room for every name nothing is replaced. */
  lemma NothingIsReplaced(geo: Geometry, entries: seq<Entry>, now: nat, at: Place)
    requires Sane(geo) && Roomy(geo, entries, now) && entries != [] && Goes(geo, entries[|entries| - 1], now, at)
    ensures var e := entries[|entries| - 1];
            OutcomeOf(Filled(geo, entries[..|entries| - 1], now, at), NameOf(e), e.key) != Replaced
  {
    hide Goes, Filled, Roomy, SameName;
    var rest, e := entries[..|entries| - 1], entries[|entries| - 1];
    var b := Filled(geo, rest, now, at);
    FilledIsNamed(geo, rest, now, at);
    if b.first.Held? && b.second.Held? {
      var x :| x in rest && Goes(geo, x, now, at) && b.first.fp == NameOf(x) && b.first.key == x.key;
      var y :| y in rest && Goes(geo, y, now, at) && b.second.fp == NameOf(y) && b.second.key == y.key;
      assert x in entries && y in entries && e in entries;
      TwoNames(geo, entries, now, at, x, y, e);
      SameNames(x, y);
      SameNames(y, e);
      SameNames(x, e);
    }
  }

  lemma SameNames(x: Entry, y: Entry)
    requires x.hash != 0 && y.hash != 0
    ensures SameName(x, y) <==> NameOf(x) == NameOf(y) && x.key == y.key
  {
  }

  lemma TwoNames(geo: Geometry, entries: seq<Entry>, now: nat, at: Place, x: Entry, y: Entry, z: Entry)
    requires Sane(geo) && Roomy(geo, entries, now) && x in entries && y in entries && z in entries
    requires Goes(geo, x, now, at) && Goes(geo, y, now, at) && Goes(geo, z, now, at)
    ensures SameName(x, y) || SameName(y, z) || SameName(x, z)
  {
    hide Goes, Recent, Meet, SameName;
    SameSpot(geo, x, y, now, at);
    SameSpot(geo, x, z, now, at);
  }

  /** With room for every name everything is told. */
  lemma {:induction false} FilledTells(geo: Geometry, entries: seq<Entry>, now: nat, at: Place, e: Entry, q: Slot)
    requires Sane(geo) && Roomy(geo, entries, now) && e in entries && Goes(geo, e, now, at) && Has(e.missing, q)
    ensures Finds(Filled(geo, entries, now, at), NameOf(e), e.key, q)
  {
    hide Goes, InsertBlock, Finds, Roomy, OutcomeOf;
    var rest, last := entries[..|entries| - 1], entries[|entries| - 1];
    var b := Filled(geo, rest, now, at);
    if last == e {
      InsertFinds(b, NameOf(e), e.key, e.missing, q);
    } else {
      RoomyRest(geo, entries, now);
      assert entries == rest + [last];
      FilledTells(geo, rest, now, at, e, q);
      if Goes(geo, last, now, at) {
        NothingIsReplaced(geo, entries, now, at);
        InsertKeeps(b, NameOf(last), last.key, last.missing, NameOf(e), e.key, q);
      }
    }
  }

  lemma RoomyRest(geo: Geometry, entries: seq<Entry>, now: nat)
    requires Sane(geo) && Roomy(geo, entries, now) && entries != []
    ensures Roomy(geo, entries[..|entries| - 1], now)
  {
    hide Recent, Meet, SameName;
    var rest := entries[..|entries| - 1];
    assert forall x :: x in rest ==> x in entries;
  }

  // ---------- translated entries ----------

  /** Provider `q` of the table is one that the entry names. */
  ghost predicate Reported<P>(table: seq<P>, stored: seq<P>, e: Entry, q: Slot) {
    q < |table| && exists p: Slot :: p < |stored| && Has(e.missing, p) && table[q] == stored[p]
  }

  lemma SlotIs<P>(table: seq<P>, who: P, q: nat)
    requires Distinct(table)
    ensures SlotFor(table, who, |table|) == Some(q) <==> q < |table| && table[q] == who
  {
    if q < |table| && table[q] == who {
      assert table[q] in table[..|table|];
    }
  }

  lemma TranslatedReports<P>(table: seq<P>, stored: seq<P>, e: Entry, q: Slot)
    requires |stored| <= MAX_BACKENDS && |table| <= MAX_BACKENDS && Distinct(table)
    ensures Has(Translated(table, stored, e).missing, q) <==> Reported(table, stored, e, q)
  {
    hide Remap, Distinct;
    RemapMeans(table, stored, e.missing, |stored|, q);
    forall p: Slot | p < |stored|
      ensures SlotFor(table, stored[p], |table|) == Some(q) <==> q < |table| && table[q] == stored[p]
    {
      SlotIs(table, stored[p], q);
    }
  }

  function Sorted<P(==)>(table: seq<P>, stored: seq<P>, entries: seq<Entry>): seq<Entry>
    requires |stored| <= MAX_BACKENDS && |table| <= MAX_BACKENDS
  {
    TranslatedAll(table, stored, SortByTime(entries))
  }

  lemma SortedElements<P>(table: seq<P>, stored: seq<P>, entries: seq<Entry>)
    requires |stored| <= MAX_BACKENDS && |table| <= MAX_BACKENDS
    ensures forall e :: e in entries ==> Translated(table, stored, e) in Sorted(table, stored, entries)
    ensures forall m :: m in Sorted(table, stored, entries) ==>
              exists e :: e in entries && m == Translated(table, stored, e)
  {
    hide Translated, SortByTime;
    SortElements(entries);
    var sorted, mapped := SortByTime(entries), Sorted(table, stored, entries);
    forall e | e in entries
      ensures Translated(table, stored, e) in mapped
    {
      var i :| 0 <= i < |sorted| && sorted[i] == e;
      assert mapped[i] == Translated(table, stored, e);
    }
    forall m | m in mapped
      ensures exists e :: e in entries && m == Translated(table, stored, e)
    {
      var i :| 0 <= i < |mapped| && mapped[i] == m;
      assert sorted[i] in sorted;
    }
  }

  lemma SortedIsRoomy<P>(geo: Geometry, table: seq<P>, stored: seq<P>, entries: seq<Entry>, now: nat)
    requires Sane(geo) && |stored| <= MAX_BACKENDS && |table| <= MAX_BACKENDS && Roomy(geo, entries, now)
    ensures Roomy(geo, Sorted(table, stored, entries), now)
  {
    hide GlobalBlock, Remap, Sorted, Roomy;
    SortedElements(table, stored, entries);
    var mapped := Sorted(table, stored, entries);
    forall x, y, z |
      && x in mapped && y in mapped && z in mapped
      && Recent(x, now, geo.ttl) && Recent(y, now, geo.ttl) && Recent(z, now, geo.ttl)
      && Meet(geo, x, y, now) && Meet(geo, x, z, now)
      ensures SameName(x, y) || SameName(y, z) || SameName(x, z)
    {
      var a :| a in entries && x == Translated(table, stored, a);
      var b :| b in entries && y == Translated(table, stored, b);
      var c :| c in entries && z == Translated(table, stored, c);
      RoomFor(geo, entries, now, a, b, c);
    }
    RoomyMeans(geo, mapped, now);
  }

  lemma RoomFor(geo: Geometry, entries: seq<Entry>, now: nat, x: Entry, y: Entry, z: Entry)
    requires Sane(geo) && Roomy(geo, entries, now) && x in entries && y in entries && z in entries
    requires Recent(x, now, geo.ttl) && Recent(y, now, geo.ttl) && Recent(z, now, geo.ttl)
    requires Meet(geo, x, y, now) && Meet(geo, x, z, now)
    ensures SameName(x, y) || SameName(y, z) || SameName(x, z)
  {
    hide Meet, Recent, SameName;
  }

  lemma RoomyMeans(geo: Geometry, entries: seq<Entry>, now: nat)
    requires Sane(geo)
    requires forall x, y, z ::
               && x in entries && y in entries && z in entries
               && Recent(x, now, geo.ttl) && Recent(y, now, geo.ttl) && Recent(z, now, geo.ttl)
               && Meet(geo, x, y, now) && Meet(geo, x, z, now) ==>
                 SameName(x, y) || SameName(y, z) || SameName(x, z)
    ensures Roomy(geo, entries, now)
  {
    hide Meet, Recent, SameName;
  }

  // ---------- what a loaded index holds ----------

  /** Somewhere in the index provider `q` is recorded as missing `key`. */
  ghost predicate HoldsFact(idx: Index, key: Key, q: Slot)
    requires Fit(idx)
  {
    exists at :: InRange(idx.geo, at) && Says(BlockAt(idx, at), key, q)
  }

  /** The age a generation has once the newest started one is current, and back. */
  function Turned(idx: Index, at: Place): (after: Place)
    requires Fit(idx) && InRange(idx.geo, at)
    ensures InRange(idx.geo, after)
  {
    var gens := idx.shards[at.shard].window.gens;
    var c := Anchor(gens, |gens|);
    if c.None? then at
    else at.(age := if at.age >= c.value then at.age - c.value else at.age + idx.geo.generations - c.value)
  }

  function TurnedBack(idx: Index, at: Place): (before: Place)
    requires Fit(idx) && InRange(idx.geo, at)
    ensures InRange(idx.geo, before) && Turned(idx, before) == at
  {
    var gens := idx.shards[at.shard].window.gens;
    var c := Anchor(gens, |gens|);
    if c.None? then at
    else
      var n: nat := idx.geo.generations - c.value;
      at.(age := if at.age < n then at.age + c.value else at.age - n)
  }

  lemma SettledAt(idx: Index, at: Place)
    requires Fit(idx) && InRange(idx.geo, at)
    ensures BlockAt(Settled(idx), Turned(idx, at)) == BlockAt(idx, at)
  {
  }

  lemma SettledHolds(idx: Index, key: Key, q: Slot)
    requires Fit(idx)
    ensures HoldsFact(Settled(idx), key, q) <==> HoldsFact(idx, key, q)
  {
    hide Settled, Says, InRange, BlockAt;
    if HoldsFact(Settled(idx), key, q) {
      var at :| InRange(idx.geo, at) && Says(BlockAt(Settled(idx), at), key, q);
      SettledAt(idx, TurnedBack(idx, at));
    }
    if HoldsFact(idx, key, q) {
      var at :| InRange(idx.geo, at) && Says(BlockAt(idx, at), key, q);
      SettledAt(idx, at);
      assert InRange(idx.geo, Turned(idx, at));
    }
  }

  /** Where an entry that counts is put. */
  lemma PlaceFor(geo: Geometry, e: Entry, now: nat) returns (at: Place)
    requires Sane(geo) && geo.blocks > 0 && Recent(e, now, geo.ttl) && e.missing != NO_SLOTS
    ensures InRange(geo, at) && Goes(geo, e, now, at)
  {
    hide GlobalBlock;
    BlockInBounds(geo, GlobalBlock(geo, e.hash));
    at := Place(ShardOf(geo, e.hash), ClassOf(geo, e, now), LocalBlock(geo, e.hash));
  }

  lemma PutBackHolds(idx: Index, entries: seq<Entry>, now: u64, key: Key, q: Slot)
    requires Fit(idx) && idx.geo.blocks > 0 && Roomy(idx.geo, entries, now)
    requires forall at :: InRange(idx.geo, at) ==> BlockAt(idx, at) == EMPTY_BLOCK
    ensures HoldsFact(PutBackAll(idx, entries, now), key, q) <==>
            exists e :: e in entries && e.key == key && Recent(e, now, idx.geo.ttl) && Has(e.missing, q)
  {
    hide PutBackAll, Goes, InRange, BlockAt, Filled, Roomy, Says, Finds;
    var geo, end := idx.geo, PutBackAll(idx, entries, now);
    if HoldsFact(end, key, q) {
      var at :| InRange(geo, at) && Says(BlockAt(end, at), key, q);
      PutBackFills(idx, entries, now, at);
      FilledTellsOnly(geo, entries, now, at, key, q);
      var e :| e in entries && Goes(geo, e, now, at) && e.key == key && Has(e.missing, q);
      SameSpot(geo, e, e, now, at);
    }
    if e :| e in entries && e.key == key && Recent(e, now, geo.ttl) && Has(e.missing, q) {
      var at := PlaceFor(geo, e, now);
      PutBackFills(idx, entries, now, at);
      FilledTells(geo, entries, now, at, e, q);
      FindsMeans(BlockAt(end, at), NameOf(e), key, q);
    }
  }

  lemma EmptyHolds(geo: Geometry, populated: bool)
    requires Sane(geo)
    ensures var cleared := Empty(geo).(populated := populated);
            && cleared.geo == geo && Fit(cleared)
            && forall at :: InRange(geo, at) ==> BlockAt(cleared, at) == EMPTY_BLOCK
  {
  }

  /**
    A load is exact: where no block gets three different names of one age class, the loaded index has the
    fact "provider q is missing the message" if and only if an entry of that message, not
    vacant and younger than the time to live, names the provider.
   */
  lemma LoadHoldsIff<P>(idx: Index, table: seq<P>, stored: seq<P>, entries: seq<Entry>, now: u64, key: Key, q: Slot)
    requires Fit(idx) && idx.geo.blocks > 0 && |stored| <= MAX_BACKENDS && |table| <= MAX_BACKENDS && Distinct(table)
    requires Roomy(idx.geo, entries, now)
    ensures HoldsFact(RestoreInto(idx, table, stored, entries, now), key, q) <==>
            exists e :: e in entries && e.key == key && Recent(e, now, idx.geo.ttl) && Reported(table, stored, e, q)
  {
    hide Settled, PutBackAll, Empty, Roomy, HoldsFact, Reported, TranslatedAll, SortByTime, Remap, InRange, BlockAt;
    var cleared, mapped := Empty(idx.geo).(populated := idx.populated), Sorted(table, stored, entries);
    EmptyHolds(idx.geo, idx.populated);
    SortedIsRoomy(idx.geo, table, stored, entries, now);
    PutBackHolds(cleared, mapped, now, key, q);
    SettledHolds(PutBackAll(cleared, mapped, now), key, q);
    SortedElements(table, stored, entries);
    forall e
      ensures Has(Translated(table, stored, e).missing, q) <==> Reported(table, stored, e, q)
    {
      TranslatedReports(table, stored, e, q);
    }
  }

  // ---------- what a lookup reports at the load ----------

  /** The newest generation started so long ago that all rotations of the ring have come due since. */
  predicate Outdated(sh: Shape, w: Window, now: nat) {
    && sh.Finite() && Anchor(w.gens, |w.gens|).Some?
    && SatSub(now, w.gens[Anchor(w.gens, |w.gens|).value].startedAt) >= Retention.Product(sh.generations, sh.interval)
  }

  /** A filled window that has not been re-anchored yet. */
  ghost predicate Unsettled(sh: Shape, w: Window, now: nat) {
    && Fits(sh, w) && sh.blocks != 0 && sh.interval != 0 && w.next == 0 && Bucketed(sh, w, now)
    && forall a :: 0 <= a < |w.gens| && w.gens[a].startedAt == 0 ==> w.gens[a] == EmptyGen(sh.blocks)
  }

  /** The rotations missed since the first of them was due. */
  function Missed(late: nat, interval: nat): nat
    requires interval > 0
  {
    1 + late / interval
  }

  /** How many rotations are due since a time of age class `c`. */
  lemma DueSince(sh: Shape, t: nat, now: nat)
    requires sh.Valid() && sh.Finite() && now < U64_MAX
    ensures var next, c := SatAdd(t, sh.interval), AgeOf(sh, t, now);
            && (next <= now <==> SatSub(now, t) >= sh.interval)
            && (next <= now ==>
                  Min(sh.generations, Missed(now - next, sh.interval)) ==
                  if SatSub(now, t) >= Retention.Product(sh.generations, sh.interval) then sh.generations else c)
            && (next > now ==> c == 0 && SatSub(now, t) < Retention.Product(sh.generations, sh.interval))
  {
    var i: nat, g, age := sh.interval, sh.generations, SatSub(now, t);
    MulOrder(1, g, i);
    if age >= i {
      QuotientStep(age, i);
      if age >= Retention.Product(g, i) {
        QuotientAtLeast(age, i, g);
      } else {
        QuotientLess(age, g, i);
      }
    } else {
      QuotientIs(age, i, 0);
    }
  }

  lemma QuotientLess(x: nat, q: nat, d: nat)
    requires d > 0 && x < Retention.Product(q, d)
    ensures x / d < q
  {
    assert x == x / d * d + x % d;
    MulOrder(q, x / d, d);
  }

  /** Rotating to the time of the load undoes the re-anchoring, or clears everything. */
  lemma RotatesBack(sh: Shape, w: Window, now: nat)
    requires Unsettled(sh, w, now) && now < U64_MAX
    ensures Rotate(sh, Reanchor(sh, w), now).gens == if Outdated(sh, w, now) then Fresh(sh).gens else w.gens
  {
    hide AgeOf, Rotations, Shift, Retention.Product, Fresh, Anchor;
    var best := Anchor(w.gens, |w.gens|);
    ReanchorSkipsCleared(sh, w, now);
    if best.Some? {
      var c := best.value;
      assert AgeOf(sh, w.gens[c].startedAt, now) == c;
      if sh.Finite() {
        TurnsBack(sh, w, c, now);
      } else {
        EndlessIsOneClass(sh, w.gens[c].startedAt, now);
        assert w.gens[0..] + w.gens[..0] == w.gens;
      }
    }
  }

  lemma TurnsBack(sh: Shape, w: Window, c: nat, now: nat)
    requires Fits(sh, w) && sh.Finite() && sh.blocks != 0 && c < sh.generations && now < U64_MAX
    requires AgeOf(sh, w.gens[c].startedAt, now) == c && w.gens[c].startedAt != 0
    requires forall a :: 0 <= a < c ==> w.gens[a] == EmptyGen(sh.blocks)
    ensures var t := w.gens[c].startedAt;
            Rotate(sh, Window(w.gens[c..] + w.gens[..c], SatAdd(t, sh.interval)), now).gens ==
            if SatSub(now, t) >= Retention.Product(sh.generations, sh.interval) then Fresh(sh).gens else w.gens
  {
    hide AgeOf, Shift, Retention.Product, Fresh;
    var turned := w.gens[c..] + w.gens[..c];
    DueSince(sh, w.gens[c].startedAt, now);
    ShiftedBack(sh, w.gens, c);
    ShiftedOut(sh, turned);
    assert c == 0 ==> turned == w.gens;
  }

  lemma ShiftedOut(sh: Shape, gens: seq<Gen>)
    requires |gens| == sh.generations
    ensures Shift(sh, gens, |gens|) == Fresh(sh).gens
  {
  }

  lemma EndlessIsOneClass(sh: Shape, t: nat, now: nat)
    requires sh.Valid() && !sh.Finite()
    ensures AgeOf(sh, t, now) == 0
  {
  }

  lemma ShiftedBack(sh: Shape, gens: seq<Gen>, c: nat)
    requires c < |gens| && forall a :: 0 <= a < c ==> gens[a] == EmptyGen(sh.blocks)
    ensures Shift(sh, gens[c..] + gens[..c], c) == gens
  {
    assert (gens[c..] + gens[..c])[..|gens| - c] == gens[c..];
  }

  /** Every fact that is put somewhere was seen after the clock started. */
  ghost predicate Dated(entries: seq<Entry>) {
    forall e :: e in entries && e.missing != NO_SLOTS ==> e.insertedAt >= 1
  }

  /** `t` is the time of the oldest entry put into the generation, or 0 if there is none. */
  ghost predicate OldestIs(geo: Geometry, entries: seq<Entry>, now: nat, shard: nat, age: nat, t: nat)
    requires Sane(geo)
  {
    && (forall e :: e in entries && Enters(geo, e, now, shard, age) ==> 1 <= t <= e.insertedAt)
    && (t != 0 ==> exists e :: e in entries && Enters(geo, e, now, shard, age) && e.insertedAt == t)
  }

  lemma PutBackStarts(idx: Index, e: Entry, now: u64, s: nat, a: nat)
    requires Fit(idx) && idx.geo.blocks > 0 && s < idx.geo.shards && a < idx.geo.generations
    ensures var w, w' := idx.shards[s].window, PutBack(idx, e, now).shards[s].window;
            && w'.next == w.next
            && w'.gens[a].startedAt ==
               if Enters(idx.geo, e, now, s, a) then Backdate(w.gens[a], e.insertedAt).startedAt
               else w.gens[a].startedAt
  {
    hide InsertBlock, OutcomeOf;
    BlockInBounds(idx.geo, GlobalBlock(idx.geo, e.hash));
  }

  lemma OldestMore(geo: Geometry, entries: seq<Entry>, now: nat, shard: nat, age: nat, g: Gen)
    requires Sane(geo) && entries != [] && Dated(entries)
    requires OldestIs(geo, entries[..|entries| - 1], now, shard, age, g.startedAt)
    ensures var e := entries[|entries| - 1];
            OldestIs(geo, entries, now, shard, age,
                     if Enters(geo, e, now, shard, age) then Backdate(g, e.insertedAt).startedAt else g.startedAt)
  {
    hide ShardOf, ClassOf;
    var rest, last := entries[..|entries| - 1], entries[|entries| - 1];
    assert entries == rest + [last] && last in entries;
    if g.startedAt != 0 {
      var e :| e in rest && Enters(geo, e, now, shard, age) && e.insertedAt == g.startedAt;
      assert e in entries;
    }
  }

  lemma {:induction false} PutBackDates(idx: Index, entries: seq<Entry>, now: u64, s: nat, a: nat)
    requires Fit(idx) && idx.geo.blocks > 0 && s < idx.geo.shards && a < idx.geo.generations && Dated(entries)
    requires idx.shards[s].window == Fresh(ShardShape(idx.geo, s))
    ensures var w := PutBackAll(idx, entries, now).shards[s].window;
            w.next == 0 && OldestIs(idx.geo, entries, now, s, a, w.gens[a].startedAt)
  {
    hide PutBack, Enters, Backdate, OldestIs;
    if entries == [] {
      NothingDated(idx.geo, now, s, a);
    } else {
      var rest, e := entries[..|entries| - 1], entries[|entries| - 1];
      assert forall x :: x in rest ==> x in entries;
      PutBackDates(idx, rest, now, s, a);
      var was := PutBackAll(idx, rest, now);
      PutBackStarts(was, e, now, s, a);
      OldestMore(idx.geo, entries, now, s, a, was.shards[s].window.gens[a]);
    }
  }

  lemma NothingDated(geo: Geometry, now: nat, s: nat, a: nat)
    requires Sane(geo)
    ensures OldestIs(geo, [], now, s, a, 0)
  {
  }

  /** Recent, with a provider, and of this shard. */
  predicate Counts(geo: Geometry, e: Entry, now: nat, shard: nat)
    requires Sane(geo)
  {
    Recent(e, now, geo.ttl) && e.missing != NO_SLOTS && ShardOf(geo, e.hash) == shard
  }

  /** All entries of a shard are in the last age class, and one is older than all generations together. */
  ghost predicate Stale(geo: Geometry, entries: seq<Entry>, now: nat, shard: nat)
    requires Sane(geo)
  {
    && geo.interval < U64_MAX
    && (forall e :: e in entries && Counts(geo, e, now, shard) ==>
          SatSub(now, e.insertedAt) >= Retention.Product(geo.generations - 1, geo.interval))
    && (exists e :: e in entries && Counts(geo, e, now, shard)
                    && SatSub(now, e.insertedAt) >= Retention.Product(geo.generations, geo.interval))
  }

  lemma LastClassIff(sh: Shape, t: nat, now: nat)
    requires sh.Valid() && sh.Finite()
    ensures AgeOf(sh, t, now) == sh.generations - 1 <==>
            SatSub(now, t) >= Retention.Product(sh.generations - 1, sh.interval)
  {
    if SatSub(now, t) >= Retention.Product(sh.generations - 1, sh.interval) {
      QuotientAtLeast(SatSub(now, t), sh.interval, sh.generations - 1);
    } else {
      QuotientLess(SatSub(now, t), sh.generations - 1, sh.interval);
    }
  }

  /** The times of a filled shard, by age. */
  ghost predicate Times(geo: Geometry, entries: seq<Entry>, now: nat, shard: nat, w: Window)
    requires Sane(geo)
  {
    |w.gens| == geo.generations
    && forall a :: 0 <= a < |w.gens| ==> OldestIs(geo, entries, now, shard, a, w.gens[a].startedAt)
  }

  lemma OutdatedIsStale(geo: Geometry, entries: seq<Entry>, now: nat, shard: nat, w: Window)
    requires Sane(geo) && shard < geo.shards && Times(geo, entries, now, shard, w)
    requires Unsettled(ShardShape(geo, shard), w, now) && Outdated(ShardShape(geo, shard), w, now)
    ensures Stale(geo, entries, now, shard)
  {
    hide AgeOf, ShardBlocks, ShardOf, Anchor, Recent, Retention.Product;
    var sh, c, last := ShardShape(geo, shard), Anchor(w.gens, |w.gens|).value, geo.generations - 1;
    Products(geo);
    LastClassIff(sh, w.gens[c].startedAt, now);
    assert c == last;
    ReanchorSkipsCleared(sh, w, now);
    forall e | e in entries && Counts(geo, e, now, shard)
      ensures SatSub(now, e.insertedAt) >= Retention.Product(last, geo.interval)
    {
      SameClass(geo, e, now, shard);
      assert Enters(geo, e, now, shard, ClassOf(geo, e, now));
      assert OldestIs(geo, entries, now, shard, ClassOf(geo, e, now), w.gens[ClassOf(geo, e, now)].startedAt);
      LastClassIff(sh, e.insertedAt, now);
    }
    assert OldestIs(geo, entries, now, shard, c, w.gens[c].startedAt);
  }

  lemma Products(geo: Geometry)
    requires geo.generations >= 1
    ensures Retention.Product(geo.generations - 1, geo.interval) <= Retention.Product(geo.generations, geo.interval)
  {
    MulOrder(geo.generations - 1, geo.generations, geo.interval);
  }

  lemma SameClass(geo: Geometry, e: Entry, now: nat, shard: nat)
    requires Sane(geo)
    ensures ClassOf(geo, e, now) == AgeOf(ShardShape(geo, shard), e.insertedAt, now)
  {
  }

  lemma StaleIsOutdated(geo: Geometry, entries: seq<Entry>, now: nat, shard: nat, w: Window)
    requires Sane(geo) && shard < geo.shards && Times(geo, entries, now, shard, w)
    requires Unsettled(ShardShape(geo, shard), w, now) && Stale(geo, entries, now, shard)
    ensures Outdated(ShardShape(geo, shard), w, now)
  {
    hide AgeOf, ShardBlocks, ShardOf, Anchor, Recent, Retention.Product;
    var sh, last := ShardShape(geo, shard), geo.generations - 1;
    Products(geo);
    forall a | 0 <= a < last
      ensures w.gens[a].startedAt == 0
    {
      assert OldestIs(geo, entries, now, shard, a, w.gens[a].startedAt);
      if w.gens[a].startedAt != 0 {
        var e :| e in entries && Enters(geo, e, now, shard, a) && e.insertedAt == w.gens[a].startedAt;
        assert Counts(geo, e, now, shard);
        SameClass(geo, e, now, shard);
        LastClassIff(sh, e.insertedAt, now);
      }
    }
    var aged :| aged in entries && Counts(geo, aged, now, shard)
               && SatSub(now, aged.insertedAt) >= Retention.Product(geo.generations, geo.interval);
    SameClass(geo, aged, now, shard);
    LastClassIff(sh, aged.insertedAt, now);
    assert Enters(geo, aged, now, shard, last);
    assert OldestIs(geo, entries, now, shard, last, w.gens[last].startedAt);
    AnchorIsNewest(w.gens, |w.gens|);
    assert RingAge(|w.gens|, if last == 0 then 0 else 1) == last;
  }

  /** The entry is one of `key`, under its fingerprint. */
  predicate IsFor(h: Hasher, key: Key, e: Entry) {
    e.key == key && e.hash == h(key).hash && e.tag == h(key).tag
  }

  /** The shard of a key once it is filled. */
  lemma FilledShard(geo: Geometry, populated: bool, entries: seq<Entry>, now: u64, s: nat)
    requires Sane(geo) && geo.blocks > 0 && geo.ttl != 0 && s < geo.shards && ShardBlocks(geo, s) != 0 && Dated(entries)
    requires Counting.CountedIndex(PutBackAll(Empty(geo).(populated := populated), entries, now))
    ensures var w := PutBackAll(Empty(geo).(populated := populated), entries, now).shards[s].window;
            Unsettled(ShardShape(geo, s), w, now) && Times(geo, entries, now, s, w)
  {
    hide PutBackAll, OldestIs, AgeOf, ShardBlocks, CountHeld;
    var cleared := Empty(geo).(populated := populated);
    var sh, w := ShardShape(geo, s), PutBackAll(cleared, entries, now).shards[s].window;
    forall a | 0 <= a < geo.generations
      ensures w.next == 0 && OldestIs(geo, entries, now, s, a, w.gens[a].startedAt)
      ensures w.gens[a].startedAt != 0 ==> AgeOf(sh, w.gens[a].startedAt, now) == a
    {
      PutBackDates(cleared, entries, now, s, a);
      if w.gens[a].startedAt != 0 {
        OldestIsOfClass(geo, entries, now, s, a, w.gens[a].startedAt);
      }
    }
    assert w.next == 0 by { PutBackDates(cleared, entries, now, s, 0); }
  }

  lemma OldestIsOfClass(geo: Geometry, entries: seq<Entry>, now: nat, s: nat, a: nat, t: nat)
    requires Sane(geo) && OldestIs(geo, entries, now, s, a, t) && t != 0
    ensures AgeOf(ShardShape(geo, s), t, now) == a
  {
    hide AgeOf, ShardBlocks, Recent;
    var e :| e in entries && Enters(geo, e, now, s, a) && e.insertedAt == t;
    SameClass(geo, e, now, s);
  }

  /** A fact in the filled index sets its latch when it is settled. */
  lemma FoundSetsLatch(idx: Index, at: Place, f: Fingerprint, key: Key, q: Slot)
    requires Counting.CountedIndex(idx) && InRange(idx.geo, at) && Finds(BlockAt(idx, at), f, key, q)
    ensures Settled(idx).populated
  {
    hide Sum, Finds;
    FindsMeans(BlockAt(idx, at), f, key, q);
    assert Counting.Holding(idx, at.shard, at.age, at.block);
    Counting.HoldingCounts(idx, at.shard, at.age, at.block);
  }

  lemma NothingInFresh(sh: Shape, a: nat, block: nat, f: Fingerprint, key: Key, q: Slot)
    requires a < sh.generations && block < sh.blocks
    ensures !Finds(Fresh(sh).gens[a].blocks[block], f, key, q)
  {
    NothingFound(f, key, q);
  }

  ghost predicate FindsAt(w: Window, spot: Spot, key: Key, q: Slot, a: nat) {
    a < |w.gens| && spot.block < |w.gens[a].blocks| && Finds(w.gens[a].blocks[spot.block], spot.fp, key, q)
  }

  lemma WindowAnswers(sh: Shape, w: Window, spot: Spot, key: Key, now: nat, q: Slot)
    requires Unsettled(sh, w, now) && now < U64_MAX && spot.block < sh.blocks
    ensures Fits(sh, Reanchor(sh, w))
    ensures Has(Answer(sh, Reanchor(sh, w), spot, key, now), q) <==>
            !Outdated(sh, w, now) && exists a: nat :: FindsAt(w, spot, key, q, a)
  {
    hide Rotate, Finds, Bucketed, Answer, Anchor, Retention.Product;
    RotatesBack(sh, w, now);
    ReanchorFits(sh, w);
    AnswerMeans(sh, Reanchor(sh, w), spot, key, now, q);
    if Outdated(sh, w, now) {
      forall a | 0 <= a < sh.generations
        ensures !Finds(Fresh(sh).gens[a].blocks[spot.block], spot.fp, key, q)
      {
        NothingInFresh(sh, a, spot.block, spot.fp, key, q);
      }
    } else {
      var gens := Rotate(sh, Reanchor(sh, w), now).gens;
      assert forall a: nat :: a < sh.generations ==>
          (FindsAt(w, spot, key, q, a) <==> Finds(gens[a].blocks[spot.block], spot.fp, key, q));
    }
  }

  lemma ReanchorFits(sh: Shape, w: Window)
    requires Fits(sh, w)
    ensures Fits(sh, Reanchor(sh, w))
  {
  }

  /** What a lookup reports at the load, in terms of the filled blocks. */
  lemma AnswersAsFilled(h: Hasher, geo: Geometry, populated: bool, entries: seq<Entry>, now: u64, key: Key, q: Slot)
    requires Sane(geo) && geo.blocks > 0 && geo.ttl != 0 && Dated(entries) && now < U64_MAX
    requires Counting.CountedIndex(PutBackAll(Empty(geo).(populated := populated), entries, now))
    ensures var idx, s := PutBackAll(Empty(geo).(populated := populated), entries, now), ShardOf(geo, h(key).hash);
            Has(AnswerIndex(h, Settled(idx), key, now), q) <==>
            && !Stale(geo, entries, now, s)
            && exists a: nat :: FindsAt(idx.shards[s].window, Spot(h(key), LocalBlock(geo, h(key).hash)), key, q, a)
  {
    hide PutBackAll, Stale, Reanchor, Finds, Outdated, Unsettled, Times, Counting.CountedIndex, GlobalBlock,
         ShardBlocks, TotalEntries, Dated, Answer;
    var idx, s := PutBackAll(Empty(geo).(populated := populated), entries, now), ShardOf(geo, h(key).hash);
    var sh, w, spot := ShardShape(geo, s), idx.shards[s].window, Spot(h(key), LocalBlock(geo, h(key).hash));
    BlockInBounds(geo, GlobalBlock(geo, h(key).hash));
    RoutesIn(geo, h, s);
    FilledShard(geo, populated, entries, now, s);
    if Outdated(sh, w, now) {
      OutdatedIsStale(geo, entries, now, s, w);
    } else if Stale(geo, entries, now, s) {
      StaleIsOutdated(geo, entries, now, s, w);
    }
    WindowAnswers(sh, w, spot, key, now, q);
    if a: nat :| FindsAt(w, spot, key, q, a) {
      FoundSetsLatch(idx, Place(s, a, spot.block), h(key), key, q);
    }
  }

  /** The same in terms of the entries. */
  lemma FilledAnswersIff(h: Hasher, geo: Geometry, populated: bool, entries: seq<Entry>, now: u64, key: Key, q: Slot)
    requires Sane(geo) && geo.blocks > 0 && geo.ttl != 0 && Dated(entries) && now < U64_MAX && Roomy(geo, entries, now)
    requires Counting.CountedIndex(PutBackAll(Empty(geo).(populated := populated), entries, now))
    ensures var idx, s := PutBackAll(Empty(geo).(populated := populated), entries, now), ShardOf(geo, h(key).hash);
            Has(AnswerIndex(h, Settled(idx), key, now), q) <==>
            && !Stale(geo, entries, now, s)
            && exists e :: e in entries && IsFor(h, key, e) && Recent(e, now, geo.ttl) && Has(e.missing, q)
  {
    hide PutBackAll, Stale, Finds, Counting.CountedIndex, GlobalBlock, ShardBlocks, Dated, AnswerIndex, Settled, Goes,
         Roomy, Filled;
    var idx, s := PutBackAll(Empty(geo).(populated := populated), entries, now), ShardOf(geo, h(key).hash);
    var w, spot := idx.shards[s].window, Spot(h(key), LocalBlock(geo, h(key).hash));
    AnswersAsFilled(h, geo, populated, entries, now, key, q);
    EmptyHolds(geo, populated);
    if a: nat :| FindsAt(w, spot, key, q, a) {
      var at := Place(s, a, spot.block);
      assert InRange(geo, at) && BlockAt(idx, at) == w.gens[a].blocks[spot.block];
      PutBackFills(Empty(geo).(populated := populated), entries, now, at);
      FilledFindsOnly(geo, entries, now, at, h(key), key, q);
      var e :| e in entries && Goes(geo, e, now, at) && NameOf(e) == h(key) && e.key == key && Has(e.missing, q);
      SameSpot(geo, e, e, now, at);
    }
    if e :| e in entries && IsFor(h, key, e) && Recent(e, now, geo.ttl) && Has(e.missing, q) {
      var at := PlaceFor(geo, e, now);
      GoesWhere(geo, e, now, at);
      PutBackFills(Empty(geo).(populated := populated), entries, now, at);
      FilledTells(geo, entries, now, at, e, q);
      assert FindsAt(w, spot, key, q, at.age);
    }
  }

  lemma GoesWhere(geo: Geometry, e: Entry, now: nat, at: Place)
    requires Sane(geo) && Goes(geo, e, now, at)
    ensures at.shard == ShardOf(geo, e.hash) && at.block == LocalBlock(geo, e.hash)
  {
  }

  // ---------- the same, of the stored entries ----------

  /** Recent, of this shard, and naming a provider of the table. */
  ghost predicate Usable<P>(geo: Geometry, table: seq<P>, stored: seq<P>, e: Entry, now: nat, shard: nat)
    requires Sane(geo)
  {
    Recent(e, now, geo.ttl) && ShardOf(geo, e.hash) == shard && exists q: Slot :: Reported(table, stored, e, q)
  }

  /** Everything usable for a shard is in the last age class, and something is older than all generations together. */
  ghost predicate OnlyStale<P>(geo: Geometry, table: seq<P>, stored: seq<P>, entries: seq<Entry>, now: nat, shard: nat)
    requires Sane(geo)
  {
    && geo.interval < U64_MAX
    && (forall e :: e in entries && Usable(geo, table, stored, e, now, shard) ==>
          SatSub(now, e.insertedAt) >= Retention.Product(geo.generations - 1, geo.interval))
    && (exists e :: e in entries && Usable(geo, table, stored, e, now, shard)
                    && SatSub(now, e.insertedAt) >= Retention.Product(geo.generations, geo.interval))
  }

  lemma UsableCounts<P>(geo: Geometry, table: seq<P>, stored: seq<P>, e: Entry, now: nat, shard: nat)
    requires Sane(geo) && |stored| <= MAX_BACKENDS && |table| <= MAX_BACKENDS && Distinct(table)
    ensures Usable(geo, table, stored, e, now, shard) <==> Counts(geo, Translated(table, stored, e), now, shard)
  {
    hide Remap, Reported, Distinct, ShardOf;
    var bits := Translated(table, stored, e).missing;
    forall q: Slot
      ensures Has(bits, q) <==> Reported(table, stored, e, q)
    {
      TranslatedReports(table, stored, e, q);
    }
    if bits != NO_SLOTS {
      var q :| 0 <= q < MAX_BACKENDS && bits[q];
      assert Has(bits, q);
    }
  }

  lemma StaleAsStored<P>(geo: Geometry, table: seq<P>, stored: seq<P>, entries: seq<Entry>, now: nat, shard: nat)
    requires Sane(geo) && |stored| <= MAX_BACKENDS && |table| <= MAX_BACKENDS && Distinct(table)
    ensures Stale(geo, Sorted(table, stored, entries), now, shard) <==>
            OnlyStale(geo, table, stored, entries, now, shard)
  {
    hide Sorted, Usable, Counts, Retention.Product, Distinct, Remap;
    SortedElements(table, stored, entries);
    forall e
      ensures Usable(geo, table, stored, e, now, shard) <==> Counts(geo, Translated(table, stored, e), now, shard)
    {
      UsableCounts(geo, table, stored, e, now, shard);
    }
  }

  lemma SortedIsDated<P>(table: seq<P>, stored: seq<P>, entries: seq<Entry>)
    requires |stored| <= MAX_BACKENDS && |table| <= MAX_BACKENDS && Distinct(table)
    requires forall e, p: Slot :: e in entries && Has(e.missing, p) && p < |stored| ==> e.insertedAt >= 1
    ensures Dated(Sorted(table, stored, entries))
  {
    hide Sorted, Remap, Distinct;
    SortedElements(table, stored, entries);
    forall m | m in Sorted(table, stored, entries) && m.missing != NO_SLOTS
      ensures m.insertedAt >= 1
    {
      var e :| e in entries && m == Translated(table, stored, e);
      var bits := m.missing;
      var q :| 0 <= q < MAX_BACKENDS && bits[q];
      assert Has(bits, q);
      TranslatedReports(table, stored, e, q);
    }
  }

  lemma NoTtlNoAnswers(h: Hasher, idx: Index, key: Key, now: u64, q: Slot)
    requires Fit(idx) && idx.geo.ttl == 0
    ensures !Has(AnswerIndex(h, idx, key, now), q)
  {
    hide Finds, ShardBlocks;
    var s := ShardOf(idx.geo, h(key).hash);
    var sh, spot := ShardShape(idx.geo, s), RouteIn(idx.geo, h, s)(key);
    RoutesIn(idx.geo, h, s);
    if sh.blocks != 0 {
      AnswerMeans(sh, idx.shards[s].window, spot, key, now, q);
      forall a | 0 <= a < sh.generations
        ensures !Finds(Fresh(sh).gens[a].blocks[spot.block], spot.fp, key, q)
      {
        NothingInFresh(sh, a, spot.block, spot.fp, key, q);
      }
    }
  }

  /**
    What a lookup reports at the time of a load, exactly: the providers named by a recent
    entry of the message, unless everything loaded into its shard is in the last age
    class and something is older than all generations together.
   */
  lemma LoadAnswersIff<P>(h: Hasher, idx: Index, table: seq<P>, stored: seq<P>, entries: seq<Entry>, now: u64,
                          key: Key, q: Slot)
    requires Fit(idx) && idx.geo.blocks > 0 && |stored| <= MAX_BACKENDS && |table| <= MAX_BACKENDS && Distinct(table)
    requires Roomy(idx.geo, entries, now) && now < U64_MAX
    requires forall e, p: Slot :: e in entries && Has(e.missing, p) && p < |stored| ==> e.insertedAt >= 1
    ensures Has(AnswerIndex(h, RestoreInto(idx, table, stored, entries, now), key, now), q) <==>
            && !OnlyStale(idx.geo, table, stored, entries, now, ShardOf(idx.geo, h(key).hash))
            && exists e :: e in entries && IsFor(h, key, e) && Recent(e, now, idx.geo.ttl)
                           && Reported(table, stored, e, q)
  {
    hide Settled, PutBackAll, Roomy, OnlyStale, Stale, Reported, SortByTime, Remap, AnswerIndex, Dated, Distinct,
         Counting.CountedIndex, TranslatedAll;
    var geo, mapped := idx.geo, Sorted(table, stored, entries);
    if geo.ttl == 0 {
      NoTtlNoAnswers(h, RestoreInto(idx, table, stored, entries, now), key, now, q);
    } else {
      SortedIsRoomy(geo, table, stored, entries, now);
      SortedIsDated(table, stored, entries);
      Counting.FilledIsCounted(idx, table, stored, entries, now);
      FilledAnswersIff(h, geo, idx.populated, mapped, now, key, q);
      StaleAsStored(geo, table, stored, entries, now, ShardOf(geo, h(key).hash));
      SortedElements(table, stored, entries);
      forall e
        ensures Has(Translated(table, stored, e).missing, q) <==> Reported(table, stored, e, q)
      {
        TranslatedReports(table, stored, e, q);
      }
    }
  }

  /** An entry loaded alone is reported exactly while it is younger than the time to live and than all generations. */
  lemma LoadedAlone<P>(h: Hasher, idx: Index, table: seq<P>, stored: seq<P>, e: Entry, now: u64, q: Slot)
    requires Fit(idx) && idx.geo.blocks > 0 && |stored| <= MAX_BACKENDS && |table| <= MAX_BACKENDS && Distinct(table)
    requires now < U64_MAX && IsFor(h, e.key, e) && e.insertedAt >= 1
    ensures Has(AnswerIndex(h, RestoreInto(idx, table, stored, [e], now), e.key, now), q) <==>
            && Reported(table, stored, e, q) && SatSub(now, e.insertedAt) < idx.geo.ttl
            && (idx.geo.interval == U64_MAX ||
                SatSub(now, e.insertedAt) < Retention.Product(idx.geo.generations, idx.geo.interval))
  {
    hide RestoreInto, AnswerIndex, Retention.Product, Reported, GlobalBlock, Distinct;
    var geo, s := idx.geo, ShardOf(idx.geo, e.hash);
    LoadAnswersIff(h, idx, table, stored, [e], now, e.key, q);
    Products(geo);
    if Reported(table, stored, e, q) && Recent(e, now, geo.ttl) {
      assert Usable(geo, table, stored, e, now, s);
    }
  }

  /**
    An older entry in the same shard can hide a younger one: with two generations, a time
    to live of 3 and so an interval of 1, an entry of age 1 is reported when it is loaded
    alone and not when one of age 2 is loaded with it.
   */
  lemma OlderCompanionHides(h: Hasher, table: seq<nat>, x: Entry, y: Entry, now: u64)
    requires table == [7] && 3 <= now < U64_MAX && IsFor(h, x.key, x) && IsFor(h, y.key, y)
    requires x.missing == y.missing == Bit(0) && x.insertedAt == now - 1 && y.insertedAt == now - 2
    ensures var geo := Geometry(2, 1, 1, 1, 3);
            && Sane(geo)
            && Has(AnswerIndex(h, RestoreInto(Empty(geo), table, table, [x], now), x.key, now), 0)
            && !Has(AnswerIndex(h, RestoreInto(Empty(geo), table, table, [x, y], now), x.key, now), 0)
  {
    hide RestoreInto, AnswerIndex, GlobalBlock;
    var geo := Geometry(2, 1, 1, 1, 3);
    var p: Slot := 0;
    assert Bit(0)[0] && Has(x.missing, p) && Has(y.missing, p) && table[p] == table[0];
    assert Reported(table, table, x, 0) && Reported(table, table, y, 0);
    LoadedAlone(h, Empty(geo), table, table, x, now, 0);
    LoadAnswersIff(h, Empty(geo), table, table, [x, y], now, x.key, 0);
    assert ShardOf(geo, h(x.key).hash) == 0 && Usable(geo, table, table, y, now, 0);
    assert y in [x, y];
  }
}
