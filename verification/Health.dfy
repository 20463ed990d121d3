/**
  What every index keeps while it records, rotates, saves and loads: each fact it holds
  was observed, its generation claims no later time, and its rotation is scheduled in time.
 */
module Health {
  import opened Words
  import opened Blocks
  import opened Rotation
  import opened Evidence
  import opened Snapshots
  import opened Index
  import opened Restoring
  import opened Restarts
  import Retention

  // ---------- one shard ----------

  ghost predicate Healthy<P>(sh: Shape, ttl: u64, names: seq<P>, w: Window, log: iset<Obs<P>>, now: nat) {
    && Fits(sh, w) && Backed(names, w, log) && StartedBy(w, now)
    && (sh.Finite() ==> Timed(sh, w, ttl, now) && Retention.Near(sh, w, now))
  }

  lemma HealthyRotate<P>(sh: Shape, ttl: u64, names: seq<P>, w: Window, log: iset<Obs<P>>, clock: nat, now: nat)
    requires Healthy(sh, ttl, names, w, log, clock) && clock <= now
    ensures Healthy(sh, ttl, names, Rotate(sh, w, now), log, now)
  {
    hide Backed, Rotate, Timed;
    BackedRotate(sh, names, w, log, now);
    RotateFits(sh, w, now);
    if sh.Finite() {
      TimedRotate(sh, w, ttl, clock, now);
      Retention.NearRotate(sh, w, clock, now);
    }
  }

  lemma RotateFits(sh: Shape, w: Window, now: nat)
    requires Fits(sh, w)
    ensures Fits(sh, Rotate(sh, w, now))
  {
  }

  lemma RecordFits(sh: Shape, w: Window, spot: Spot, key: Key, bits: Mask, now: u64)
    requires Fits(sh, w) && (sh.blocks != 0 ==> spot.block < sh.blocks)
    ensures Fits(sh, Record(sh, w, spot, key, bits, now))
    ensures sh.blocks == 0 ==> Record(sh, w, spot, key, bits, now) == w
  {
  }

  lemma HealthyRecord<P>(sh: Shape, ttl: u64, names: seq<P>, w: Window, log: iset<Obs<P>>, clock: nat,
                         spot: Spot, key: Key, bits: Mask, now: u64)
    requires Healthy(sh, ttl, names, w, log, clock) && clock <= now && 1 <= now < U64_MAX
    requires (sh.blocks != 0 ==> spot.block < sh.blocks) && Within(bits, |names|)
    ensures Healthy(sh, ttl, names, Record(sh, w, spot, key, bits, now), log + Observations(names, key, bits, now), now)
  {
    hide Backed, Record, Timed, Observations;
    RecordFits(sh, w, spot, key, bits, now);
    assert StartedBy(w, now);
    BackedRecord(sh, names, w, log, spot, key, bits, now);
    if sh.Finite() && sh.blocks != 0 {
      TimedRecord(sh, w, ttl, clock, spot, key, bits, now);
      Retention.NearRecord(sh, w, clock, spot, key, bits, now);
    } else if sh.Finite() {
      TimedLater(sh, w, ttl, clock, now);
    }
  }

  lemma HealthyMore<P>(sh: Shape, ttl: u64, names: seq<P>, w: Window, log: iset<Obs<P>>, more: iset<Obs<P>>, clock: nat,
                       now: nat)
    requires Healthy(sh, ttl, names, w, log, clock) && clock <= now && log <= more
    ensures Healthy(sh, ttl, names, w, more, now)
  {
    BackedMore(names, w, log, more);
    if sh.Finite() {
      TimedLater(sh, w, ttl, clock, now);
    }
  }

  /** The state of a shard while a snapshot is being restored. */
  ghost predicate Filling<P>(sh: Shape, ttl: u64, names: seq<P>, w: Window, log: iset<Obs<P>>, now: nat) {
    && Fits(sh, w) && Backed(names, w, log) && StartedBy(w, now) && Bucketed(sh, w, now) && Young(w, now, ttl)
    && w.next == 0
    && forall a :: 0 <= a < |w.gens| && w.gens[a].startedAt == 0 ==> w.gens[a] == EmptyGen(sh.blocks)
  }

  lemma FillingRestore<P>(sh: Shape, ttl: u64, names: seq<P>, w: Window, log: iset<Obs<P>>, e: Entry, block: nat,
                          now: u64)
    requires Filling(sh, ttl, names, w, log, now) && EntryBacked(names, e, log, now)
             && (sh.blocks != 0 ==> block < sh.blocks)
    ensures Filling(sh, ttl, names, RestoreEntry(sh, w, e, block, now, ttl), log, now)
  {
    var w' := RestoreEntry(sh, w, e, block, now, ttl);
    RestoreBacked(sh, names, w, log, e, block, now, ttl);
    BucketedRestore(sh, w, e, block, now, ttl);
    YoungRestore(sh, w, e, block, now, ttl);
    RestoreStarts(sh, w, e, block, now, ttl, names, log);
  }

  lemma RestoreStarts<P>(sh: Shape, w: Window, e: Entry, block: nat, now: u64, ttl: u64, names: seq<P>,
                         log: iset<Obs<P>>)
    requires Fits(sh, w) && EntryBacked(names, e, log, now) && (sh.blocks != 0 ==> block < sh.blocks)
    requires forall a :: 0 <= a < |w.gens| && w.gens[a].startedAt == 0 ==> w.gens[a] == EmptyGen(sh.blocks)
    ensures var w' := RestoreEntry(sh, w, e, block, now, ttl);
            forall a :: 0 <= a < |w'.gens| && w'.gens[a].startedAt == 0 ==> w'.gens[a] == EmptyGen(sh.blocks)
  {
    if !Skipped(sh, e, now, ttl) {
      var bits := e.missing;
      var q :| 0 <= q < MAX_BACKENDS && bits[q];
      assert Has(bits, q);
    }
  }

  lemma FillingReanchor<P>(sh: Shape, ttl: u64, names: seq<P>, w: Window, log: iset<Obs<P>>, now: nat)
    requires Filling(sh, ttl, names, w, log, now)
    ensures Healthy(sh, ttl, names, Reanchor(sh, w), log, now)
  {
    ReanchorBacked(sh, names, w, log, now);
    if sh.Finite() {
      TimedReanchor(sh, w, now, ttl);
      NearReanchor(sh, w, now);
    }
  }

  /** What a healthy shard answers was observed, and recently. */
  lemma HealthyAnswer<P>(sh: Shape, ttl: u64, names: seq<P>, w: Window, log: iset<Obs<P>>, clock: nat,
                         spot: Spot, key: Key, p: Slot, now: nat) returns (o: Obs<P>)
    requires Healthy(sh, ttl, names, w, log, clock) && clock <= now < U64_MAX
             && (sh.blocks != 0 ==> spot.block < sh.blocks)
    requires Has(Answer(sh, w, spot, key, now), p)
    ensures p < |names| && o in log && o.key == key && o.who == names[p]
    ensures sh.Finite() ==> now < o.time + Max(Retention.Bound(sh), Stretch(sh, ttl))
  {
    hide Answer, Rotate, Timed, Retention.Reach, Retention.Bound, LookupBlock, Stretch;
    AnswersNeedBlocks(sh, w, spot, key, now, p);
    AnswerMeans(sh, w, spot, key, now, p);
    RotateBalances(sh, w, now);
    var r := Rotate(sh, w, now);
    var a :| 0 <= a < sh.generations && Finds(r.gens[a].blocks[spot.block], spot.fp, key, p);
    BackedRotate(sh, names, w, log, now);
    FindsMeans(r.gens[a].blocks[spot.block], spot.fp, key, p);
    o :| o in log && o.key == key && o.who == names[p] && o.time >= r.gens[a].startedAt;
    if sh.Finite() {
      HeldIsRecent(sh, w, ttl, clock, now, a);
      Retention.BoundIsReach(sh);
    }
  }

  // ---------- a whole index ----------

  ghost predicate HealthyIndex<P>(names: seq<P>, idx: Index, log: iset<Obs<P>>, now: nat) {
    && Fit(idx)
    && forall s :: 0 <= s < idx.geo.shards ==>
         Healthy(ShardShape(idx.geo, s), idx.geo.ttl, names, idx.shards[s].window, log, now)
  }

  /** What an operation adds to the log; an empty key is ignored. */
  ghost function Learned<P>(names: seq<P>, op: Op): iset<Obs<P>> {
    if op.Note? && op.key != [] then Observations(names, op.key, op.bits, op.now) else iset{}
  }

  lemma HealthyEmpty<P>(names: seq<P>, geo: Geometry, log: iset<Obs<P>>, now: nat)
    requires Sane(geo)
    ensures HealthyIndex(names, Empty(geo), log, now)
  {
  }

  lemma HealthyShard<P>(h: Hasher, names: seq<P>, idx: Index, op: Op, s: nat, log: iset<Obs<P>>, clock: nat)
    requires HealthyIndex(names, idx, log, clock) && s < idx.geo.shards
    requires clock <= op.now && 1 <= op.now < U64_MAX && (op.Note? ==> Within(op.bits, |names|))
    ensures Healthy(ShardShape(idx.geo, s), idx.geo.ttl, names, ApplyIndex(h, idx, op).shards[s].window,
                    log + Learned(names, op), op.now)
  {
    hide Healthy, ApplyIndex, Record, Rotate, Observations;
    var sh, ttl, w, more := ShardShape(idx.geo, s), idx.geo.ttl, idx.shards[s].window, log + Learned(names, op);
    StepOfShard(h, idx, op, s);
    if Ignored(idx, op) || !Touches(idx.geo, h, op, s) {
      HealthyMore(sh, ttl, names, w, log, more, clock, op.now);
    } else if op.Note? {
      HealthyFits(sh, ttl, names, w, log, clock);
      HealthyRecord(sh, ttl, names, w, log, clock, RouteIn(idx.geo, h, s)(op.key), op.key, op.bits, op.now);
    } else {
      HealthyRotate(sh, ttl, names, w, log, clock, op.now);
      HealthyMore(sh, ttl, names, Rotate(sh, w, op.now), log, more, op.now, op.now);
    }
  }

  lemma HealthyFits<P>(sh: Shape, ttl: u64, names: seq<P>, w: Window, log: iset<Obs<P>>, now: nat)
    requires Healthy(sh, ttl, names, w, log, now)
    ensures Fits(sh, w)
  {
  }

  /** An operation keeps an index healthy; an insertion adds its observations to the log. */
  lemma HealthyStep<P>(h: Hasher, names: seq<P>, idx: Index, op: Op, log: iset<Obs<P>>, clock: nat)
    requires HealthyIndex(names, idx, log, clock)
    requires clock <= op.now && 1 <= op.now < U64_MAX && (op.Note? ==> Within(op.bits, |names|))
    ensures HealthyIndex(names, ApplyIndex(h, idx, op), log + Learned(names, op), op.now)
  {
    forall s | 0 <= s < idx.geo.shards
      ensures Healthy(ShardShape(idx.geo, s), idx.geo.ttl, names, ApplyIndex(h, idx, op).shards[s].window,
                    log + Learned(names, op), op.now)
    {
      HealthyShard(h, names, idx, op, s, log, clock);
    }
  }

  lemma HealthyIndexMore<P>(names: seq<P>, idx: Index, log: iset<Obs<P>>, more: iset<Obs<P>>, clock: nat, now: nat)
    requires HealthyIndex(names, idx, log, clock) && clock <= now && log <= more
    ensures HealthyIndex(names, idx, more, now)
  {
    forall s | 0 <= s < idx.geo.shards
      ensures Healthy(ShardShape(idx.geo, s), idx.geo.ttl, names, idx.shards[s].window, more, now)
    {
      HealthyMore(ShardShape(idx.geo, s), idx.geo.ttl, names, idx.shards[s].window, log, more, clock, now);
    }
  }

  ghost function LearnedAll<P>(names: seq<P>, ops: seq<Op>): iset<Obs<P>> {
    if ops == [] then iset{} else LearnedAll(names, ops[..|ops| - 1]) + Learned(names, ops[|ops| - 1])
  }

  lemma {:induction false} LearnedMeans<P>(names: seq<P>, ops: seq<Op>, o: Obs<P>)
    requires o in LearnedAll(names, ops)
    ensures exists i, p: Slot :: 0 <= i < |ops| && ops[i].Note? && p < |names| && Has(ops[i].bits, p)
                                 && o == Obs(ops[i].key, names[p], ops[i].now)
  {
    var rest, n := ops[..|ops| - 1], |ops| - 1;
    if o in LearnedAll(names, rest) {
      LearnedMeans(names, rest, o);
      var i, p: Slot :| 0 <= i < |rest| && rest[i].Note? && p < |names| && Has(rest[i].bits, p)
                        && o == Obs(rest[i].key, names[p], rest[i].now);
      assert Has(ops[i].bits, p) && o == Obs(ops[i].key, names[p], ops[i].now);
    } else {
      var p: Slot :| p < |names| && Has(ops[n].bits, p) && o == Obs(ops[n].key, names[p], ops[n].now);
    }
  }

  lemma HealthyFit<P>(names: seq<P>, idx: Index, log: iset<Obs<P>>, now: nat)
    requires HealthyIndex(names, idx, log, now)
    ensures Fit(idx)
  {
  }

  /** A run keeps an index healthy. */
  lemma {:induction false} HealthyRun<P>(h: Hasher, names: seq<P>, idx: Index, ops: seq<Op>, log: iset<Obs<P>>,
                                         clock: nat, now: nat)
    requires HealthyIndex(names, idx, log, clock) && Timely(ops, now) && clock <= now
    requires forall i :: 0 <= i < |ops| ==> clock <= ops[i].now && (ops[i].Note? ==> Within(ops[i].bits, |names|))
    ensures HealthyIndex(names, RunIndex(h, idx, ops), log + LearnedAll(names, ops), now)
    decreases |ops|
  {
    hide HealthyIndex, ApplyIndex, Learned;
    HealthyFit(names, idx, log, clock);
    if ops == [] {
      HealthyIndexMore(names, idx, log, log + LearnedAll(names, ops), clock, now);
    } else {
      var rest, op := ops[..|ops| - 1], ops[|ops| - 1];
      HealthyRun(h, names, idx, rest, log, clock, op.now);
      HealthyStep(h, names, RunIndex(h, idx, rest), op, log + LearnedAll(names, rest), op.now);
      var all := log + LearnedAll(names, ops);
      assert log + LearnedAll(names, rest) + Learned(names, op) == all;
      HealthyIndexMore(names, RunIndex(h, idx, ops), all, all, op.now, now);
    }
  }

  // ---------- saving ----------

  lemma {:induction false} ShardsBacked<P>(names: seq<P>, shards: seq<Shard>, log: iset<Obs<P>>, now: nat)
    requires forall s :: 0 <= s < |shards| ==> Backed(names, shards[s].window, log) && StartedBy(shards[s].window, now)
    ensures EntriesBacked(names, ShardsEntries(shards), log, now)
  {
    if shards != [] {
      var n := |shards| - 1;
      ShardsBacked(names, shards[..n], log, now);
      SnapshotBacked(names, shards[n].window, log, now);
    }
  }

  /** The entries of a save are backed by the log, each with its own time. */
  lemma HealthySnapshot<P>(h: Hasher, names: seq<P>, idx: Index, log: iset<Obs<P>>, clock: nat, now: u64)
    requires HealthyIndex(names, idx, log, clock) && clock <= now && 1 <= now < U64_MAX
    ensures EntriesBacked(names, SnapshotOf(h, idx, now), log, now)
  {
    HealthyStep(h, names, idx, Sweep(now), log, clock);
    var shards := ApplyIndex(h, idx, Sweep(now)).shards;
    assert log + Learned(names, Sweep(now)) == log;
    forall s | 0 <= s < |shards|
      ensures Backed(names, shards[s].window, log) && StartedBy(shards[s].window, now)
    {
      assert Healthy(ShardShape(idx.geo, s), idx.geo.ttl, names, shards[s].window, log, now);
    }
    ShardsBacked(names, shards, log, now);
  }

  // ---------- loading ----------

  /** Every fact of the entry about a provider of `table` was observed, no earlier than the entry claims. */
  ghost predicate EntryAgrees<P, Q>(table: seq<Q>, stored: seq<Q>, known: seq<P>, e: Entry, log: iset<Obs<P>>,
                                    now: nat)
    requires |stored| == |known|
  {
    && e.insertedAt <= now
    && forall p: Slot :: Has(e.missing, p) && p < |stored| && stored[p] in table ==>
         e.insertedAt >= 1 && Witnessed(log, e.key, known[p], e.insertedAt)
  }

  /** Translation between provider tables keeps the providers. */
  lemma TranslatedBacked<P, Q>(names: seq<P>, table: seq<Q>, stored: seq<Q>, known: seq<P>, e: Entry,
                               log: iset<Obs<P>>, now: nat)
    requires |table| == |names| <= MAX_BACKENDS && |stored| == |known| <= MAX_BACKENDS
    requires forall i, j :: 0 <= i < |table| && 0 <= j < |stored| && table[i] == stored[j] ==> names[i] == known[j]
    requires EntryAgrees(table, stored, known, e, log, now)
    ensures EntryBacked(names, Translated(table, stored, e), log, now)
  {
    hide Remap;
    var e' := Translated(table, stored, e);
    forall q: Slot | Has(e'.missing, q)
      ensures q < |names| && e'.insertedAt >= 1 && Witnessed(log, e'.key, names[q], e'.insertedAt)
    {
      RemapMeans(table, stored, e.missing, |stored|, q);
      var p: Slot :| p < |stored| && Has(e.missing, p) && SlotFor(table, stored[p], |table|) == Some(q);
      assert table[q] == stored[p] && stored[p] in table;
      assert Witnessed(log, e.key, known[p], e.insertedAt);
    }
  }

  ghost predicate FillingIndex<P>(names: seq<P>, idx: Index, log: iset<Obs<P>>, now: nat) {
    && Fit(idx)
    && forall s :: 0 <= s < idx.geo.shards ==>
         Filling(ShardShape(idx.geo, s), idx.geo.ttl, names, idx.shards[s].window, log, now)
  }

  lemma FillingPutBack<P>(names: seq<P>, idx: Index, e: Entry, log: iset<Obs<P>>, now: u64)
    requires FillingIndex(names, idx, log, now) && EntryBacked(names, e, log, now)
    ensures FillingIndex(names, PutBack(idx, e, now), log, now)
  {
    hide Filling, RestoreEntry, RestoreDropped, EntryBacked;
    var s := ShardOf(idx.geo, e.hash);
    Lands(idx.geo, e.hash);
    FillingRestore(ShardShape(idx.geo, s), idx.geo.ttl, names, idx.shards[s].window, log, e,
                   LocalBlock(idx.geo, e.hash), now);
  }

  lemma {:induction false} FillingPutBackAll<P>(names: seq<P>, idx: Index, entries: seq<Entry>, log: iset<Obs<P>>,
                                                now: u64)
    requires FillingIndex(names, idx, log, now) && EntriesBacked(names, entries, log, now)
    ensures FillingIndex(names, PutBackAll(idx, entries, now), log, now)
  {
    hide Filling, EntryBacked, PutBack;
    if entries != [] {
      var n := |entries| - 1;
      assert entries[n] in entries && forall e :: e in entries[..n] ==> e in entries;
      FillingPutBackAll(names, idx, entries[..n], log, now);
      FillingPutBack(names, PutBackAll(idx, entries[..n], now), entries[n], log, now);
    }
  }

  lemma FillingEmpty<P>(names: seq<P>, geo: Geometry, populated: bool, log: iset<Obs<P>>, now: nat)
    requires Sane(geo)
    ensures FillingIndex(names, Empty(geo).(populated := populated), log, now)
  {
  }

  lemma FillingSettled<P>(names: seq<P>, idx: Index, log: iset<Obs<P>>, now: nat)
    requires FillingIndex(names, idx, log, now)
    ensures HealthyIndex(names, Settled(idx), log, now)
  {
    hide Filling, Healthy, Reanchor;
    var idx' := Settled(idx);
    forall s | 0 <= s < idx.geo.shards
      ensures Healthy(ShardShape(idx.geo, s), idx.geo.ttl, names, idx'.shards[s].window, log, now)
    {
      FillingReanchor(ShardShape(idx.geo, s), idx.geo.ttl, names, idx.shards[s].window, log, now);
    }
  }

  /** Loading a snapshot, whatever its provider table, leaves a healthy index. */
  lemma HealthyLoad<P, Q>(names: seq<P>, idx: Index, table: seq<Q>, stored: seq<Q>, known: seq<P>,
                          entries: seq<Entry>, log: iset<Obs<P>>, now: u64)
    requires Fit(idx) && |table| == |names| <= MAX_BACKENDS && |stored| == |known| <= MAX_BACKENDS
    requires forall i, j :: 0 <= i < |table| && 0 <= j < |stored| && table[i] == stored[j] ==> names[i] == known[j]
    requires forall e :: e in entries ==> EntryAgrees(table, stored, known, e, log, now)
    ensures HealthyIndex(names, RestoreInto(idx, table, stored, entries, now), log, now)
  {
    hide EntryBacked, EntryAgrees, FillingIndex, HealthyIndex, Translated, PutBackAll, Settled, SortByTime;
    SortElements(entries);
    var sorted := SortByTime(entries);
    var mapped := TranslatedAll(table, stored, sorted);
    forall e | e in mapped
      ensures EntryBacked(names, e, log, now)
    {
      var i :| 0 <= i < |mapped| && mapped[i] == e;
      assert sorted[i] in sorted;
      TranslatedBacked(names, table, stored, known, sorted[i], log, now);
    }
    FillingEmpty(names, idx.geo, idx.populated, log, now);
    var cleared := Empty(idx.geo).(populated := idx.populated);
    FillingPutBackAll(names, cleared, mapped, log, now);
    FillingSettled(names, PutBackAll(cleared, mapped, now), log, now);
  }
}
