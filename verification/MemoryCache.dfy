/**
  The memory cache: entries keep their misses as a bitmap and a list of slots with times;
  every update writes the entry back without its expired misses.
 */
module MemoryCache {
  import opened Words
  import opened Ttl
  import opened Payloads
  import opened Lookups

  /** A 430 from a slot at a time. */
  datatype Negative = Negative(slot: Slot, at: u64)

  datatype CachedArticle = CachedArticle(
    missing: Mask, negatives: seq<Negative>, status: nat, payload: Payload, tier: Tier, insertedAt: u64)

  /** The time recorded for a slot: the first one in the list. */
  function TimeOf(negatives: seq<Negative>, p: Slot): Option<u64> {
    if negatives == [] then None
    else if negatives[0].slot == p then Some(negatives[0].at)
    else TimeOf(negatives[1..], p)
  }

  ghost predicate OneTimeEach(negatives: seq<Negative>) {
    forall i, j :: 0 <= i < j < |negatives| ==> negatives[i].slot != negatives[j].slot
  }

  /** The bitmap has exactly the slots of the list, and the list has each slot once. */
  ghost predicate Matched(e: CachedArticle) {
    OneTimeEach(e.negatives) && forall p: Slot :: Has(e.missing, p) <==> TimeOf(e.negatives, p).Some?
  }

  function MissesOf(missing: Mask, negatives: seq<Negative>): (m: Misses)
    ensures forall p :: 0 <= p < MAX_BACKENDS ==> m[p] == if Has(missing, p) then TimeOf(negatives, p) else None
  {
    seq(MAX_BACKENDS, p requires 0 <= p < MAX_BACKENDS => if Has(missing, p) then TimeOf(negatives, p) else None)
  }

  /** What an entry tells. */
  function ViewOf(e: CachedArticle): View {
    View(e.status, e.payload, e.tier, e.insertedAt, MissesOf(e.missing, e.negatives))
  }

  lemma {:induction false} TimeIsAt(negatives: seq<Negative>, i: nat)
    requires i < |negatives| && OneTimeEach(negatives)
    ensures TimeOf(negatives, negatives[i].slot) == Some(negatives[i].at)
  {
    if i > 0 {
      TimeIsAt(negatives[1..], i - 1);
    }
  }

  lemma {:induction false} TimeIsSomewhere(negatives: seq<Negative>, p: Slot)
    ensures TimeOf(negatives, p).Some? <==> exists i :: 0 <= i < |negatives| && negatives[i].slot == p
  {
    if negatives != [] {
      TimeIsSomewhere(negatives[1..], p);
      assert forall i :: 0 <= i < |negatives[1..]| ==> negatives[1..][i] == negatives[i + 1];
      assert TimeOf(negatives, p).Some? ==> exists i :: 0 <= i < |negatives| && negatives[i].slot == p by {
        if negatives[0].slot != p && TimeOf(negatives[1..], p).Some? {
          var i :| 0 <= i < |negatives[1..]| && negatives[1..][i].slot == p;
          assert negatives[i + 1].slot == p;
        }
      }
      if exists i :: 0 <= i < |negatives| && negatives[i].slot == p {
        var i :| 0 <= i < |negatives| && negatives[i].slot == p;
        if i > 0 {
          assert negatives[1..][i - 1].slot == p;
        }
      }
    }
  }

  lemma {:induction false} TimeOfAppended(negatives: seq<Negative>, n: Negative, p: Slot)
    ensures TimeOf(negatives + [n], p) ==
            if TimeOf(negatives, p).Some? then TimeOf(negatives, p) else if n.slot == p then Some(n.at) else None
  {
    if negatives == [] {
      assert negatives + [n] == [n] && [n][1..] == [];
    } else {
      TimeOfAppended(negatives[1..], n, p);
      assert (negatives + [n])[1..] == negatives[1..] + [n];
    }
  }

  lemma {:induction false} TimeOfUpdated(negatives: seq<Negative>, i: nat, now: u64, p: Slot)
    requires i < |negatives| && OneTimeEach(negatives)
    ensures TimeOf(negatives[i := negatives[i].(at := now)], p) ==
            if negatives[i].slot == p then Some(now) else TimeOf(negatives, p)
  {
    var updated := negatives[i := negatives[i].(at := now)];
    if i == 0 {
      assert updated[1..] == negatives[1..];
    } else {
      TimeOfUpdated(negatives[1..], i - 1, now, p);
      assert updated[1..] == negatives[1..][i - 1 := negatives[1..][i - 1].(at := now)];
    }
  }

  // ---------- entries ----------

  /** Drops the misses that are one base time to live old. */
  method ExpireStale(e: CachedArticle, base: u64, now: u64) returns (r: CachedArticle)
    requires Matched(e)
    ensures Matched(r) && ViewOf(r) == ViewOf(e).(misses := LiveMisses(ViewOf(e).misses, base, now))
  {
    var kept: seq<Negative>, missing, i := [], e.missing, 0;
    while i < |e.negatives|
      invariant 0 <= i <= |e.negatives| && OneTimeEach(kept)
      invariant forall j :: 0 <= j < |kept| ==> exists k :: 0 <= k < i && kept[j] == e.negatives[k]
      invariant forall p: Slot :: TimeOf(kept, p) == Live(TimeOf(e.negatives[..i], p), base, now)
      invariant forall p: Slot :: Has(missing, p) <==>
        Has(e.missing, p) && (TimeOf(e.negatives[..i], p).Some? ==> TimeOf(kept, p).Some?)
    {
      var n := e.negatives[i];
      ghost var was := kept;
      assert e.negatives[..i + 1] == e.negatives[..i] + [n];
      if Expired(n.at, base, 0, now) {
        missing := missing[n.slot := false];
      } else {
        kept := kept + [n];
      }
      forall p: Slot
        ensures TimeOf(kept, p) == Live(TimeOf(e.negatives[..i + 1], p), base, now)
        ensures Has(missing, p) <==>
                  Has(e.missing, p) && (TimeOf(e.negatives[..i + 1], p).Some? ==> TimeOf(kept, p).Some?)
      {
        TimeOfAppended(e.negatives[..i], n, p);
        TimeOfAppended(was, n, p);
        TimeIsSomewhere(e.negatives[..i], p);
      }
      i := i + 1;
    }
    assert e.negatives[..i] == e.negatives;
    r := e.(missing := missing, negatives := kept);
    assert MissesOf(missing, kept) == LiveMisses(MissesOf(e.missing, e.negatives), base, now);
  }

  /** Records a 430: refreshes the slot's time, or adds the slot. */
  method RecordMissing(e: CachedArticle, slot: Slot, now: u64) returns (r: CachedArticle)
    requires Matched(e)
    ensures Matched(r) && ViewOf(r) == ViewOf(e).(misses := ViewOf(e).misses[slot := Some(now)])
  {
    var i := 0;
    while i < |e.negatives| && e.negatives[i].slot != slot
      invariant 0 <= i <= |e.negatives|
      invariant forall j :: 0 <= j < i ==> e.negatives[j].slot != slot
    {
      i := i + 1;
    }
    var negatives;
    if i < |e.negatives| {
      negatives := e.negatives[i := e.negatives[i].(at := now)];
    } else {
      negatives := e.negatives + [Negative(slot, now)];
    }
    forall p: Slot
      ensures TimeOf(negatives, p) == if p == slot then Some(now) else TimeOf(e.negatives, p)
    {
      TimeIsSomewhere(e.negatives, p);
      if i < |e.negatives| {
        TimeOfUpdated(e.negatives, i, now, p);
      } else {
        TimeOfAppended(e.negatives, Negative(slot, now), p);
      }
    }
    r := e.(missing := e.missing[slot := true], negatives := negatives);
    assert MissesOf(r.missing, negatives) == MissesOf(e.missing, e.negatives)[slot := Some(now)];
  }

  function NewEntry(status: nat, payload: Payload, tier: Tier, now: u64): (e: CachedArticle)
    ensures Matched(e) && ViewOf(e) == View(status, payload, tier, now, NoMisses())
  {
    var e := CachedArticle(NO_SLOTS, [], status, payload, tier, now);
    assert MissesOf(NO_SLOTS, []) == NoMisses();
    e
  }

  /** Combines complementary sections; an unexpired entry that is complete afterwards starts a new life. */
  method MergeSections(e: CachedArticle, other: CachedArticle, now: u64) returns (r: CachedArticle, merged: bool)
    ensures merged == Merged(e.payload, other.payload).Some?
    ensures merged ==> r == e.(status := 220, tier := Max(e.tier, other.tier),
                               payload := Merged(e.payload, other.payload).value, insertedAt := now)
    ensures !merged ==> r == e
  {
    r, merged := e, true;
    var payload: Payload;
    match (e.payload, other.payload) {
      case (Head(left, headers), Body(right, body)) =>
        payload := Article(RetainedNumber(left, right), headers, body);
      case (Body(left, body), Head(right, headers)) =>
        payload := Article(RetainedNumber(left, right), headers, body);
      case _ =>
        return e, false;
    }
    r := e.(status := 220, tier := if other.tier > e.tier then other.tier else e.tier, payload := payload,
            insertedAt := now);
  }

  // ---------- the cache ----------

  function ViewsOf(entries: map<Key, CachedArticle>): (views: map<Key, View>)
    ensures views.Keys == entries.Keys && forall k :: k in entries ==> views[k] == ViewOf(entries[k])
  {
    map k | k in entries :: ViewOf(entries[k])
  }

  class ArticleCache {
    var entries: map<Key, CachedArticle>
    var hits: nat
    var misses: nat
    const base: u64
    /** The operations so far and the time of the last one. */
    ghost var log: seq<Op>
    ghost var clock: u64

    ghost predicate Valid()
      reads this
    {
      && (forall key :: key in entries ==> Matched(entries[key]))
      && Tracks(ViewsOf(entries), map[], log, base, clock)
    }

    constructor (base: u64)
      ensures Valid() && this.base == base && log == [] && clock == 0
    {
      entries, hits, misses, this.base, log, clock := map[], 0, 0, base, [], 0;
    }

    /** The entry to work on: unexpired, without its expired misses. */
    method FreshEntry(key: Key, now: u64) returns (r: Option<CachedArticle>)
      requires Valid()
      ensures r.Some? ==> Matched(r.value)
      ensures (if r.Some? then Some(ViewOf(r.value)) else None) == Fresh(KnownIn(ViewsOf(entries), key), base, now)
    {
      if key !in entries {
        return None;
      }
      var e := ExpireStale(entries[key], base, now);
      r := if Expired(e.insertedAt, base, e.tier, now) then None else Some(e);
    }

    /** Stores the outcome of an update. */
    method Store(op: Op, e: CachedArticle)
      requires Valid() && !op.Get? && clock <= op.now && Matched(e)
      requires ViewOf(e) == Update(Fresh(KnownIn(ViewsOf(entries), op.key), base, op.now), op)
      modifies this
      ensures Valid() && log == old(log) + [op] && clock == op.now && entries == old(entries)[op.key := e]
      ensures hits == old(hits) && misses == old(misses) && Applies(old(ViewsOf(entries)), ViewsOf(entries), op, base)
    {
      hide Fresh, Update, Matched, MissesOf, Tracks;
      ghost var views := ViewsOf(entries);
      TracksStep(views, views[op.key := ViewOf(e)], map[], log, op, base, clock);
      entries := entries[op.key := e];
      assert ViewsOf(entries) == views[op.key := ViewOf(e)];
      log, clock := log + [op], op.now;
    }

    /** A lookup: an expired entry is dropped and not found. */
    method Get(key: Key, now: u64) returns (r: Option<View>)
      requires Valid() && clock <= now
      modifies this
      ensures Valid() && log == old(log) + [Op.Get(key, now)] && clock == now
      ensures r == Fresh(History(old(log), key, base), base, now)
      ensures Applies(old(ViewsOf(entries)), ViewsOf(entries), Op.Get(key, now), base)
      ensures hits == old(hits) + (if r.Some? then 1 else 0) && misses == old(misses) + (if r.Some? then 0 else 1)
    {
      ghost var op, views := Op.Get(key, now), ViewsOf(entries);
      TracksFresh(views, map[], log, base, clock, key, now);
      FreshLater(KnownIn(views, key), base, now, now);
      if key in entries && !Expired(entries[key].insertedAt, base, entries[key].tier, now) {
        var e := ExpireStale(entries[key], base, now);
        hits, r := hits + 1, Some(ViewOf(e));
      } else {
        entries := entries - {key};
        misses, r := misses + 1, None;
      }
      TracksStep(views, ViewsOf(entries), map[], log, op, base, clock);
      log, clock := log + [op], now;
    }

    /** A response with a payload arrives from a slot. */
    method Ingest(op: Op)
      requires Valid() && op.Ingest? && clock <= op.now
      modifies this
      ensures Valid() && log == old(log) + [op] && clock == op.now
      ensures Applies(old(ViewsOf(entries)), ViewsOf(entries), op, base)
    {
      var known := FreshEntry(op.key, op.now);
      var template := NewEntry(op.status, op.payload, op.tier, op.now);
      if known.None? {
        Store(op, template);
        return;
      }
      var e := known.value;
      if Has(e.missing, op.slot) {
        Store(op, e);
        return;
      }
      var r, merged := MergeSections(e, template, op.now);
      if !merged {
        var existingComplete, newComplete := Complete(e.status, e.payload), Complete(template.status, template.payload);
        var replace := if !existingComplete && newComplete then true
                       else if existingComplete && !newComplete then false
                       else !KeepsSameCompleteness(e.payload, template.payload);
        if replace {
          r := e.(status := template.status, payload := template.payload, tier := template.tier, insertedAt := op.now);
        }
      }
      Store(op, r);
    }

    /** A slot answered with a status that carries no payload to keep. */
    method RecordHasStatus(op: Op)
      requires Valid() && op.HasStatus? && clock <= op.now
      modifies this
      ensures Valid() && log == old(log) + [op] && clock == op.now
      ensures Applies(old(ViewsOf(entries)), ViewsOf(entries), op, base)
    {
      var known := FreshEntry(op.key, op.now);
      var e := if known.Some? then known.value else NewEntry(op.status, AvailabilityOnly, op.tier, op.now);
      if !Has(e.missing, op.slot) {
        if e.payload.Missing? || e.payload.AvailabilityOnly? {
          e := e.(status := op.status, tier := op.tier, payload := AvailabilityOnly);
        }
        e := e.(insertedAt := op.now);
      }
      Store(op, e);
    }

    /** A slot answered STAT. */
    method RecordStat(op: Op)
      requires Valid() && op.HasStat? && clock <= op.now
      modifies this
      ensures Valid() && log == old(log) + [op] && clock == op.now
      ensures Applies(old(ViewsOf(entries)), ViewsOf(entries), op, base)
    {
      var known := FreshEntry(op.key, op.now);
      var template := NewEntry(223, Stat(None), op.tier, op.now);
      var e := if known.Some? then known.value else template;
      if !Has(e.missing, op.slot) {
        if e.payload.Missing? || e.payload.AvailabilityOnly? {
          e := e.(status := template.status, payload := template.payload, tier := template.tier);
        }
        e := e.(insertedAt := op.now);
      }
      Store(op, e);
    }

    /** A slot answered 430. */
    method RecordMiss(op: Op)
      requires Valid() && op.Miss? && clock <= op.now
      modifies this
      ensures Valid() && log == old(log) + [op] && clock == op.now
      ensures Applies(old(ViewsOf(entries)), ViewsOf(entries), op, base)
    {
      var known := FreshEntry(op.key, op.now);
      var e := if known.Some? then known.value else NewEntry(430, Missing, 0, op.now);
      e := RecordMissing(e, op.slot, op.now);
      Store(op, e);
    }
  }
}
