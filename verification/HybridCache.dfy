/**
  The hybrid cache: entries keep their misses as a bitmap and one time per slot, belong to
  a provider layout by its epoch, and are only written back when an update changes them.
 */
module HybridCache {
  import opened Words
  import opened Ttl
  import opened Payloads
  import opened Lookups

  /** The response codes an entry on disk can have. */
  type Status = x: nat | x in {220, 221, 222, 223, 430} witness 430

  type Stamps = s: seq<u64> | |s| == MAX_BACKENDS witness NoStamps()

  function NoStamps(): (s: seq<u64>)
    ensures |s| == MAX_BACKENDS && forall p :: 0 <= p < MAX_BACKENDS ==> s[p] == 0
  {
    seq(MAX_BACKENDS, _ => 0)
  }

  datatype DiskCachedArticle = DiskCachedArticle(
    status: Status, epoch: u64, missing: Mask, stamps: Stamps, timestamp: u64, tier: Tier, payload: Payload)

  function MissesOf(missing: Mask, stamps: Stamps): (m: Misses)
    ensures forall p :: 0 <= p < MAX_BACKENDS ==> m[p] == if Has(missing, p) then Some(stamps[p]) else None
  {
    seq(MAX_BACKENDS, p requires 0 <= p < MAX_BACKENDS => if Has(missing, p) then Some(stamps[p]) else None)
  }

  /** What an entry tells a cache with the given epoch: nothing about misses if it was written under another. */
  function ViewOf(d: DiskCachedArticle, epoch: u64): View {
    View(d.status, d.payload, d.tier, d.timestamp,
         if d.epoch == epoch then MissesOf(d.missing, d.stamps) else NoMisses())
  }

  // ---------- entries ----------

  method ExpireStale(d: DiskCachedArticle, base: u64, now: u64) returns (r: DiskCachedArticle)
    ensures r == d.(missing := r.missing, stamps := r.stamps)
    ensures MissesOf(r.missing, r.stamps) == LiveMisses(MissesOf(d.missing, d.stamps), base, now)
  {
    var missing, stamps, i := d.missing, d.stamps, 0;
    while i < MAX_BACKENDS
      invariant 0 <= i <= MAX_BACKENDS
      invariant forall p :: i <= p < MAX_BACKENDS ==> missing[p] == d.missing[p] && stamps[p] == d.stamps[p]
      invariant forall p :: 0 <= p < i ==> (missing[p] <==> d.missing[p] && !Expired(d.stamps[p], base, 0, now))
      invariant forall p :: 0 <= p < i && missing[p] ==> stamps[p] == d.stamps[p]
    {
      if d.missing[i] && Expired(stamps[i], base, 0, now) {
        missing := missing[i := false];
        stamps := stamps[i := 0];
      }
      i := i + 1;
    }
    r := d.(missing := missing, stamps := stamps);
  }

  function ClearAvailability(d: DiskCachedArticle): (r: DiskCachedArticle)
    ensures MissesOf(r.missing, r.stamps) == NoMisses()
  {
    d.(missing := NO_SLOTS, stamps := NoStamps())
  }

  function NewEntry(status: Status, payload: Payload, tier: Tier, epoch: u64, now: u64): (d: DiskCachedArticle)
    ensures ViewOf(d, epoch) == View(status, payload, tier, now, NoMisses())
  {
    DiskCachedArticle(status, epoch, NO_SLOTS, NoStamps(), now, tier, payload)
  }

  function RecordMissing(d: DiskCachedArticle, slot: Slot, now: u64): (r: DiskCachedArticle)
    ensures MissesOf(r.missing, r.stamps) == MissesOf(d.missing, d.stamps)[slot := Some(now)]
  {
    var r := d.(missing := d.missing[slot := true], stamps := d.stamps[slot := now]);
    assert MissesOf(r.missing, r.stamps) == MissesOf(d.missing, d.stamps)[slot := Some(now)];
    r
  }

  method MergeSections(d: DiskCachedArticle, other: Payload, tier: Tier, now: u64) returns (r: DiskCachedArticle,
                       merged: bool)
    ensures merged == Merged(d.payload, other).Some?
    ensures merged ==>
              r == d.(status := 220, tier := Max(d.tier, tier), payload := Merged(d.payload, other).value,
                      timestamp := now)
    ensures !merged ==> r == d
  {
    r, merged := d, true;
    var payload: Payload;
    match (d.payload, other) {
      case (Head(left, headers), Body(right, body)) =>
        payload := Article(RetainedNumber(left, right), headers, body);
      case (Body(left, body), Head(right, headers)) =>
        payload := Article(RetainedNumber(left, right), headers, body);
      case _ =>
        return d, false;
    }
    r := d.(status := 220, tier := if tier > d.tier then tier else d.tier, payload := payload, timestamp := now);
  }

  // ---------- the cache ----------

  function ViewsOf(entries: map<Key, DiskCachedArticle>, epoch: u64): (views: map<Key, View>)
    ensures views.Keys == entries.Keys && forall k :: k in entries ==> views[k] == ViewOf(entries[k], epoch)
  {
    map k | k in entries :: ViewOf(entries[k], epoch)
  }

  /** Only the entry of the operation's key changes, and what is written belongs to the cache's epoch. */
  ghost predicate Rewrites(before: map<Key, DiskCachedArticle>, after: map<Key, DiskCachedArticle>, op: Op,
                           epoch: u64)
  {
    && (forall k :: k in after && k != op.key ==> k in before && after[k] == before[k])
    && (op.key in after && after[op.key].epoch != epoch ==> op.key in before && after[op.key] == before[op.key])
  }

  /** Updates this cache accepts: only its response codes. */
  predicate Storable(op: Op) {
    op.Ingest? || op.HasStatus? ==> op.status in {220, 221, 222, 223, 430}
  }

  class HybridArticleCache {
    var entries: map<Key, DiskCachedArticle>
    var hits: nat
    var misses: nat
    const base: u64
    const epoch: u64
    /** What the cache held at first, the operations since then and the time of the last one. */
    ghost const initial: map<Key, View>
    ghost var log: seq<Op>
    ghost var clock: u64

    ghost predicate Valid()
      reads this
    {
      Tracks(ViewsOf(entries, epoch), initial, log, base, clock)
    }

    constructor (base: u64, epoch: u64)
      ensures Valid() && this.base == base && this.epoch == epoch && log == [] && clock == 0
      ensures initial == map[] && entries == map[]
    {
      entries, hits, misses, this.base, this.epoch, log, clock := map[], 0, 0, base, epoch, [], 0;
      initial := map[];
    }

    /** Opening a cache over the entries that an earlier one left on disk. */
    constructor Open(base: u64, epoch: u64, entries: map<Key, DiskCachedArticle>, ghost now: u64)
      ensures Valid() && this.base == base && this.epoch == epoch && log == [] && clock == now
      ensures initial == ViewsOf(entries, epoch) && this.entries == entries
    {
      this.entries, hits, misses, this.base, this.epoch, log, clock := entries, 0, 0, base, epoch, [], now;
      initial := ViewsOf(entries, epoch);
    }

    /** The entry to work on: read under this epoch, unexpired, without its expired misses. */
    method FreshEntry(key: Key, now: u64) returns (r: Option<DiskCachedArticle>)
      ensures (if r.Some? then Some(ViewOf(r.value.(epoch := epoch), epoch)) else None) ==
              Fresh(KnownIn(ViewsOf(entries, epoch), key), base, now)
    {
      if key !in entries {
        return None;
      }
      var d := entries[key];
      if d.epoch != epoch {
        d := ClearAvailability(d);
      }
      assert MissesOf(d.missing, d.stamps) == ViewOf(entries[key], epoch).misses;
      d := ExpireStale(d, base, now);
      r := if Expired(d.timestamp, base, d.tier, now) then None else Some(d);
    }

    /** Stores the outcome of an update under this epoch. */
    method Store(op: Op, d: DiskCachedArticle)
      requires Valid() && !op.Get? && clock <= op.now
      requires ViewOf(d.(epoch := epoch), epoch) ==
               Update(Fresh(KnownIn(ViewsOf(entries, epoch), op.key), base, op.now), op)
      modifies this
      ensures Valid() && log == old(log) + [op] && clock == op.now && Rewrites(old(entries), entries, op, epoch)
      ensures Applies(old(ViewsOf(entries, epoch)), ViewsOf(entries, epoch), op, base)
    {
      hide Fresh, Update, MissesOf, Tracks;
      ghost var views := ViewsOf(entries, epoch);
      ghost var stored := d.(epoch := epoch);
      TracksStep(views, views[op.key := ViewOf(stored, epoch)], initial, log, op, base, clock);
      entries := entries[op.key := d.(epoch := epoch)];
      assert ViewsOf(entries, epoch) == views[op.key := ViewOf(stored, epoch)];
      log, clock := log + [op], op.now;
    }

    /** An update that leaves the stored entry as it is, expired misses included. */
    ghost method Leave(op: Op)
      requires Valid() && clock <= op.now
      requires Fresh(KnownIn(ViewsOf(entries, epoch), op.key), base, op.now) ==
               Fresh(After(KnownIn(ViewsOf(entries, epoch), op.key), op, base), base, op.now)
      modifies this`log, this`clock
      ensures Valid() && log == old(log) + [op] && clock == op.now
      ensures Applies(ViewsOf(entries, epoch), ViewsOf(entries, epoch), op, base)
    {
      TracksStep(ViewsOf(entries, epoch), ViewsOf(entries, epoch), initial, log, op, base, clock);
      log, clock := log + [op], op.now;
    }

    /** A lookup: an expired entry is not found, but stays where it is. */
    method Get(key: Key, now: u64) returns (r: Option<View>)
      requires Valid() && clock <= now
      modifies this
      ensures Valid() && log == old(log) + [Op.Get(key, now)] && clock == now
      ensures r == Fresh(Told(initial, old(log), key, base), base, now)
      ensures r == Fresh(KnownIn(ViewsOf(entries, epoch), key), base, now)
      ensures entries == old(entries)
      ensures hits == old(hits) + (if r.Some? then 1 else 0) && misses == old(misses) + (if r.Some? then 0 else 1)
    {
      TracksFresh(ViewsOf(entries, epoch), initial, log, base, clock, key, now);
      var found := FreshEntry(key, now);
      if found.Some? {
        hits, r := hits + 1, Some(ViewOf(found.value.(epoch := epoch), epoch));
      } else {
        misses, r := misses + 1, None;
      }
      Leave(Op.Get(key, now));
    }

    method Ingest(op: Op)
      requires Valid() && op.Ingest? && clock <= op.now
      modifies this
      ensures Valid()
      ensures Storable(op) ==> log == old(log) + [op] && clock == op.now && Rewrites(old(entries), entries, op, epoch)
      ensures Storable(op) ==> Applies(old(ViewsOf(entries, epoch)), ViewsOf(entries, epoch), op, base)
      ensures !Storable(op) ==> entries == old(entries) && log == old(log) && clock == old(clock)
    {
      if op.status !in {220, 221, 222, 223, 430} {
        return;
      }
      var entry := NewEntry(op.status, op.payload, op.tier, epoch, op.now);
      var found := FreshEntry(op.key, op.now);
      FreshLater(KnownIn(ViewsOf(entries, epoch), op.key), base, op.now, op.now);
      if found.None? {
        Store(op, entry);
        return;
      }
      var d := found.value;
      if Has(d.missing, op.slot) {
        Leave(op);
        return;
      }
      var r, merged := MergeSections(d, op.payload, op.tier, op.now);
      if merged {
        Store(op, r);
        return;
      }
      var existingComplete, newComplete := Complete(d.status, d.payload), Complete(entry.status, entry.payload);
      var keep := if existingComplete && !newComplete then true
                  else if !existingComplete && newComplete then false
                  else KeepsSameCompleteness(d.payload, entry.payload);
      if keep {
        Leave(op);
        return;
      }
      Store(op, entry.(missing := d.missing, stamps := d.stamps));
    }

    method RecordHasStatus(op: Op)
      requires Valid() && op.HasStatus? && clock <= op.now
      modifies this
      ensures Valid()
      ensures Storable(op) ==> log == old(log) + [op] && clock == op.now && Rewrites(old(entries), entries, op, epoch)
      ensures Storable(op) ==> Applies(old(ViewsOf(entries, epoch)), ViewsOf(entries, epoch), op, base)
      ensures !Storable(op) ==> entries == old(entries) && log == old(log) && clock == old(clock)
    {
      if op.status !in {220, 221, 222, 223, 430} {
        return;
      }
      var found := FreshEntry(op.key, op.now);
      FreshLater(KnownIn(ViewsOf(entries, epoch), op.key), base, op.now, op.now);
      var d;
      if found.Some? {
        if Has(found.value.missing, op.slot) {
          Leave(op);
          return;
        }
        d := found.value;
        if d.payload.Missing? || d.payload.AvailabilityOnly? {
          d := d.(status := op.status, payload := AvailabilityOnly, tier := op.tier);
        }
        d := d.(timestamp := op.now);
      } else {
        d := NewEntry(op.status, AvailabilityOnly, op.tier, epoch, op.now);
      }
      Store(op, d);
    }

    method RecordStat(op: Op)
      requires Valid() && op.HasStat? && clock <= op.now
      modifies this
      ensures Valid() && log == old(log) + [op] && clock == op.now && Rewrites(old(entries), entries, op, epoch)
      ensures Applies(old(ViewsOf(entries, epoch)), ViewsOf(entries, epoch), op, base)
    {
      var found := FreshEntry(op.key, op.now);
      FreshLater(KnownIn(ViewsOf(entries, epoch), op.key), base, op.now, op.now);
      var d;
      if found.Some? {
        if Has(found.value.missing, op.slot) {
          Leave(op);
          return;
        }
        d := found.value;
        if d.payload.Missing? || d.payload.AvailabilityOnly? {
          d := d.(status := 223, payload := Stat(None), tier := op.tier);
        }
        d := d.(timestamp := op.now);
      } else {
        d := NewEntry(223, Stat(None), op.tier, epoch, op.now);
      }
      Store(op, d);
    }

    method RecordMiss(op: Op)
      requires Valid() && op.Miss? && clock <= op.now
      modifies this
      ensures Valid() && log == old(log) + [op] && clock == op.now && Rewrites(old(entries), entries, op, epoch)
      ensures Applies(old(ViewsOf(entries, epoch)), ViewsOf(entries, epoch), op, base)
    {
      var found := FreshEntry(op.key, op.now);
      var d := if found.Some? then found.value else NewEntry(430, Missing, 0, epoch, op.now);
      Store(op, RecordMissing(d, op.slot, op.now));
    }
  }
}
