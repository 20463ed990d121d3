/**
  Snapshots of a whole index and their restoration, possibly into an index with another
  provider table, another geometry or another shard count.
 */
module Restoring {
  import opened Words
  import opened Rotation
  import opened Snapshots
  import opened Index

  // ---------- taking a snapshot ----------

  function ShardsEntries(shards: seq<Shard>): seq<Entry> {
    if shards == [] then []
    else ShardsEntries(shards[..|shards| - 1]) + GensEntries(shards[|shards| - 1].window.gens)
  }

  /** The entries a save writes; the save leaves the index as an entry count does. */
  function SnapshotOf(h: Hasher, idx: Index, now: u64): seq<Entry>
    requires Fit(idx)
  {
    ShardsEntries(ApplyIndex(h, idx, Sweep(now)).shards)
  }

  // ---------- provider tables ----------

  /** The slot of a provider in a table. */
  function SlotFor<P(==)>(table: seq<P>, who: P, n: nat): (slot: Option<nat>)
    requires n <= |table|
    ensures slot.Some? ==> slot.value < n && table[slot.value] == who
    ensures slot.Some? <==> who in table[..n]
  {
    if n == 0 then None
    else if SlotFor(table, who, n - 1).Some? then SlotFor(table, who, n - 1)
    else if table[n - 1] == who then Some(n - 1)
    else None
  }

  /** Translates the first `n` bits of a stored bitmap into the bitmap of another table. */
  function Remap<P(==)>(table: seq<P>, stored: seq<P>, bits: Mask, n: nat): Mask
    requires n <= |stored| && n <= MAX_BACKENDS && |table| <= MAX_BACKENDS
  {
    if n == 0 then NO_SLOTS
    else
      var rest := Remap(table, stored, bits, n - 1);
      var slot := SlotFor(table, stored[n - 1], |table|);
      if Has(bits, n - 1) && slot.Some? then Or(rest, Bit(slot.value)) else rest
  }

  lemma {:induction false} RemapMeans<P>(table: seq<P>, stored: seq<P>, bits: Mask, n: nat, q: Slot)
    requires n <= |stored| && n <= MAX_BACKENDS && |table| <= MAX_BACKENDS
    ensures Has(Remap(table, stored, bits, n), q) <==>
            exists p: Slot :: p < n && Has(bits, p) && SlotFor(table, stored[p], |table|) == Some(q)
  {
    if n > 0 {
      RemapMeans(table, stored, bits, n - 1, q);
      var p: Slot := n - 1;
      assert SlotFor(table, stored[p], |table|) == Some(q) && Has(bits, p) ==> Has(Remap(table, stored, bits, n), q);
    }
  }

  predicate Distinct<T(==)>(s: seq<T>) { forall i, j :: 0 <= i < j < |s| ==> s[i] != s[j] }

  predicate Within(bits: Mask, n: nat) { forall p :: 0 <= p < MAX_BACKENDS && Has(bits, p) ==> p < n }

  /** Translation into the same table changes nothing. */
  lemma RemapSame<P>(table: seq<P>, bits: Mask)
    requires Distinct(table) && |table| <= MAX_BACKENDS && Within(bits, |table|)
    ensures Remap(table, table, bits, |table|) == bits
  {
    hide Remap;
    var r := Remap(table, table, bits, |table|);
    forall q | 0 <= q < MAX_BACKENDS
      ensures r[q] == bits[q]
    {
      RemapMeans(table, table, bits, |table|, q);
      assert Has(r, q) == r[q] && Has(bits, q) == bits[q];
      if Has(bits, q) {
        assert table[q] in table[..|table|];
      }
    }
  }

  // ---------- order of restoration ----------

  /** Puts an entry behind everything not younger. */
  function Place(sorted: seq<Entry>, e: Entry): seq<Entry> {
    if sorted == [] || sorted[|sorted| - 1].insertedAt <= e.insertedAt then sorted + [e]
    else Place(sorted[..|sorted| - 1], e) + [sorted[|sorted| - 1]]
  }

  /** The stable sort by insertion time. */
  function SortByTime(entries: seq<Entry>): seq<Entry> {
    if entries == [] then [] else Place(SortByTime(entries[..|entries| - 1]), entries[|entries| - 1])
  }

  lemma {:induction false} PlaceElements(sorted: seq<Entry>, e: Entry)
    ensures forall x :: x in Place(sorted, e) <==> x in sorted || x == e
  {
    if !(sorted == [] || sorted[|sorted| - 1].insertedAt <= e.insertedAt) {
      PlaceElements(sorted[..|sorted| - 1], e);
      assert sorted == sorted[..|sorted| - 1] + [sorted[|sorted| - 1]];
    }
  }

  lemma {:induction false} SortElements(entries: seq<Entry>)
    ensures forall x :: x in SortByTime(entries) <==> x in entries
  {
    if entries != [] {
      SortElements(entries[..|entries| - 1]);
      PlaceElements(SortByTime(entries[..|entries| - 1]), entries[|entries| - 1]);
      assert entries == entries[..|entries| - 1] + [entries[|entries| - 1]];
    }
  }

  // ---------- restoring ----------

  /** One entry, already translated, goes to the shard and block of its stored hash. */
  function PutBack(idx: Index, e: Entry, now: u64): (idx': Index)
    requires Fit(idx)
    ensures Fit(idx') && idx'.geo == idx.geo && idx'.populated == idx.populated
  {
    var s := ShardOf(idx.geo, e.hash);
    var sh, w := ShardShape(idx.geo, s), idx.shards[s].window;
    var block := LocalBlock(idx.geo, e.hash);
    assert sh.blocks != 0 ==> block < sh.blocks by { Lands(idx.geo, e.hash); }
    idx.(shards := idx.shards[s := Shard(RestoreEntry(sh, w, e, block, now, idx.geo.ttl),
                                         idx.shards[s].evictions + RestoreDropped(sh, w, e, block, now, idx.geo.ttl))])
  }

  lemma Lands(geo: Geometry, hash: u64)
    requires Sane(geo)
    ensures ShardBlocks(geo, ShardOf(geo, hash)) != 0 ==> LocalBlock(geo, hash) < ShardBlocks(geo, ShardOf(geo, hash))
  {
    if geo.blocks > 0 {
      BlockInBounds(geo, GlobalBlock(geo, hash));
    }
  }

  function PutBackAll(idx: Index, entries: seq<Entry>, now: u64): (idx': Index)
    requires Fit(idx)
    ensures Fit(idx') && idx'.geo == idx.geo && idx'.populated == idx.populated
  {
    if entries == [] then idx
    else PutBack(PutBackAll(idx, entries[..|entries| - 1], now), entries[|entries| - 1], now)
  }

  function Translated<P(==)>(table: seq<P>, stored: seq<P>, e: Entry): Entry
    requires |stored| <= MAX_BACKENDS && |table| <= MAX_BACKENDS
  {
    e.(missing := Remap(table, stored, e.missing, |stored|))
  }

  function TranslatedAll<P(==)>(table: seq<P>, stored: seq<P>, entries: seq<Entry>): (r: seq<Entry>)
    requires |stored| <= MAX_BACKENDS && |table| <= MAX_BACKENDS
    ensures |r| == |entries| && forall i :: 0 <= i < |r| ==> r[i] == Translated(table, stored, entries[i])
  {
    seq(|entries|, i requires 0 <= i < |entries| && |stored| <= MAX_BACKENDS && |table| <= MAX_BACKENDS
                   => Translated(table, stored, entries[i]))
  }

  /** Every shard makes its newest generation the current one. */
  function Settled(idx: Index): (idx': Index)
    requires Fit(idx)
    ensures Fit(idx') && idx'.geo == idx.geo
  {
    var shards := seq(|idx.shards|, s requires 0 <= s < |idx.shards| && Fit(idx) =>
                        idx.shards[s].(window := Reanchor(ShardShape(idx.geo, s), idx.shards[s].window)));
    Index(idx.geo, shards, idx.populated || TotalEntries(idx) != 0)
  }

  /** Loading a snapshot: whatever the index held before is dropped, its latch stays. */
  function RestoreInto<P(==)>(idx: Index, table: seq<P>, stored: seq<P>, entries: seq<Entry>, now: u64): (idx': Index)
    requires Fit(idx) && |stored| <= MAX_BACKENDS && |table| <= MAX_BACKENDS
    ensures Fit(idx') && idx'.geo == idx.geo
  {
    var cleared := Empty(idx.geo).(populated := idx.populated);
    Settled(PutBackAll(cleared, TranslatedAll(table, stored, SortByTime(entries)), now))
  }
}
