/**
  Every save can be read back.

  Whatever proxies record, save and load, a snapshot that one of them writes is accepted by
  the parser and comes back with all its entries, as long as the recorded keys have the
  length and the encoding that the file format asks for.
 */
module Savable {
  import opened Words
  import opened Blocks
  import opened Rotation
  import opened Evidence
  import opened Index
  import opened Identities
  import opened Restoring
  import opened Snapshots
  import opened SnapshotCodec
  import opened Health
  import opened Worlds
  import Exactness
  import Restarts

  // ---------- how much there is to save ----------

  /** The allocation stays within the address space, as `GeometryFor` makes it. */
  predicate Budgeted(geo: Geometry) { geo.generations * geo.blocks * BLOCK_BYTES <= U64_MAX }

  ghost predicate Speaks(entries: seq<Entry>) { forall e :: e in entries ==> e.missing != NO_SLOTS }

  lemma SpeakBoth(a: seq<Entry>, b: seq<Entry>)
    requires Speaks(a) && Speaks(b)
    ensures Speaks(a + b)
  {
  }

  lemma {:induction false} BlocksSave(blocks: seq<Block>, t: u64)
    ensures |BlocksEntries(blocks, t)| <= 2 * |blocks| && Speaks(BlocksEntries(blocks, t))
  {
    if blocks != [] {
      BlocksSave(blocks[..|blocks| - 1], t);
    }
  }

  lemma {:induction false} GensSave(gens: seq<Gen>, blocks: nat, n: nat)
    requires n == |gens| && forall a :: 0 <= a < n ==> |gens[a].blocks| == blocks
    ensures |GensEntries(gens)| <= 2 * (n * blocks) && Speaks(GensEntries(gens))
    decreases n
  {
    hide Speaks, BlocksEntries;
    if n == 0 {
      assert Speaks([]) by { BlocksSave([], 0); }
    } else {
      var last := gens[n - 1];
      GensSave(gens[..n - 1], blocks, n - 1);
      BlocksSave(last.blocks, last.startedAt);
      SpeakBoth(GensEntries(gens[..n - 1]), BlocksEntries(last.blocks, last.startedAt));
      OneMore(n - 1, blocks);
    }
  }

  lemma OneMore(n: nat, b: nat)
    ensures (n + 1) * b == n * b + b
  {
  }

  lemma {:induction false} ShardsSave(geo: Geometry, shards: seq<Shard>, n: nat)
    requires geo.shards > 0 && n == |shards|
    requires forall s :: 0 <= s < n ==> Fits(ShardShape(geo, s), shards[s].window)
    ensures |ShardsEntries(shards)| <= 2 * (geo.generations * BlocksBelow(geo, n)) && Speaks(ShardsEntries(shards))
    decreases n
  {
    hide Speaks, GensEntries, ShardBlocks;
    if n == 0 {
      assert Speaks([]) by { BlocksSave([], 0); }
    } else {
      var last := shards[n - 1];
      ShardsSave(geo, shards[..n - 1], n - 1);
      GensSave(last.window.gens, ShardBlocks(geo, n - 1), geo.generations);
      SpeakBoth(ShardsEntries(shards[..n - 1]), GensEntries(last.window.gens));
      assert geo.generations * BlocksBelow(geo, n) ==
             geo.generations * BlocksBelow(geo, n - 1) + geo.generations * ShardBlocks(geo, n - 1);
    }
  }

  lemma SnapshotFits(h: Hasher, idx: Index, now: u64)
    requires Fit(idx) && Budgeted(idx.geo)
    ensures |SnapshotOf(h, idx, now)| <= U64_MAX && Speaks(SnapshotOf(h, idx, now))
  {
    ShardsSave(idx.geo, ApplyIndex(h, idx, Sweep(now)).shards, idx.geo.shards);
    ShardsCoverBudget(idx.geo);
  }

  // ---------- what histories record ----------

  predicate KeyOk(utf8: Utf8, key: Key) { KeyFits(key) && utf8(key) }

  /** Tables that can be written, budgets that can be allocated, keys that fit the format. */
  ghost predicate StepOk(utf8: Utf8, step: Step) {
    && (step.Boot? ==> TableOk(utf8, step.layout) && Budgeted(step.geo))
    && (step.Do? && step.op.Note? ==> step.op.key == [] || KeyOk(utf8, step.op.key))
  }

  ghost predicate StepsOk(utf8: Utf8, steps: seq<Step>) {
    forall i :: 0 <= i < |steps| ==> StepOk(utf8, steps[i])
  }

  /** Providers do not matter here. */
  function Anyone(host: Host): nat { 0 }

  lemma {:induction false} RecordedKeys(h: Hasher, utf8: Utf8, steps: seq<Step>, o: Obs<nat>)
    requires StepsOk(utf8, steps) && o in Observed(h, utf8, Anyone, steps)
    ensures KeyOk(utf8, o.key)
  {
    hide Happen, KeyOk, TableOk;
    var rest, step := steps[..|steps| - 1], steps[|steps| - 1];
    if o in Observed(h, utf8, Anyone, rest) {
      RecordedKeys(h, utf8, rest, o);
    } else {
      assert StepOk(utf8, step);
    }
  }

  lemma {:induction false} ProxiesOk(h: Hasher, utf8: Utf8, steps: seq<Step>, id: nat)
    requires StepsOk(utf8, steps) && id in Happen(h, utf8, steps).proxies
    ensures var proxy := Happen(h, utf8, steps).proxies[id];
            TableOk(utf8, proxy.layout) && Budgeted(proxy.index.geo)
  {
    hide TableOk, Budgeted, ApplyIndex, RestoreInto, Parse, Perform;
    var rest, step := steps[..|steps| - 1], steps[|steps| - 1];
    assert StepOk(utf8, step);
    PerformChanges(h, utf8, Happen(h, utf8, rest), step);
    if id in Happen(h, utf8, rest).proxies {
      ProxiesOk(h, utf8, rest, id);
    }
  }

  /** An entry backed by recorded keys is one that can be written and read. */
  lemma EntryIsOk(utf8: Utf8, names: seq<nat>, e: Entry, log: iset<Obs<nat>>, now: nat)
    requires Restarts.EntryBacked(names, e, log, now) && e.missing != NO_SLOTS
    requires forall o :: o in log ==> KeyOk(utf8, o.key)
    ensures KeyFits(e.key) && EntryOk(utf8, e, |names|)
  {
    var bits := e.missing;
    var q :| 0 <= q < MAX_BACKENDS && bits[q];
    assert Has(e.missing, q);
    assert Witnessed(log, e.key, names[q], e.insertedAt);
  }

  /** Every snapshot of every history can be written, and what was written can be read. */
  lemma SavesAreReadable(h: Hasher, utf8: Utf8, steps: seq<Step>, id: nat, now: u64)
    requires InOrder(steps, now) && StepsOk(utf8, steps)
    ensures id in Happen(h, utf8, steps).proxies ==>
              var picture := Picture(h, Happen(h, utf8, steps).proxies[id], now);
              Writable(picture) && Readable(utf8, picture)
  {
    hide Happen, Observed, SnapshotOf, KeyOk, StepsOk, FileBacked, HealthyIndex, EntryOk, HostOk, Restarts.EntryBacked;
    if id in Happen(h, utf8, steps).proxies {
      var all := Everyone();
      var proxy, log := Happen(h, utf8, steps).proxies[id], Observed(h, utf8, Anyone, steps);
      var names, entries := Names(Anyone, proxy.layout), SnapshotOf(h, proxy.index, now);
      HistoryBacked(h, utf8, Anyone, all, steps, now);
      assert ProxyBacked(Anyone, all, proxy, log, now);
      HealthySnapshot(h, names, proxy.index, log, now, now);
      ProxiesOk(h, utf8, steps, id);
      SnapshotFits(h, proxy.index, now);
      forall o | o in log
        ensures KeyOk(utf8, o.key)
      {
        RecordedKeys(h, utf8, steps, o);
      }
      forall i | 0 <= i < |entries|
        ensures KeyFits(entries[i].key) && EntryOk(utf8, entries[i], |proxy.layout|)
      {
        assert entries[i] in entries;
        EntryIsOk(utf8, names, entries[i], log, now);
      }
      TableFits(utf8, proxy.layout);
    }
  }

  lemma TableFits(utf8: Utf8, hosts: seq<Host>)
    requires TableOk(utf8, hosts)
    ensures forall i :: 0 <= i < |hosts| ==> |hosts[i]| < 0x1_0000_0000
  {
    forall i | 0 <= i < |hosts|
      ensures |hosts[i]| < 0x1_0000_0000
    {
      assert HostOk(utf8, hosts[i]);
    }
  }

  /**
    The round trip over every history: a save read back gives the very snapshot that was
    taken, hosts and entries, exactly if no identity of the saving proxy ends in a dot.
   */
  lemma SaveReadsBackIff(h: Hasher, utf8: Utf8, steps: seq<Step>, id: nat, names: seq<seq<byte>>, now: u64)
    requires InOrder(steps, now) && StepsOk(utf8, steps) && id in Happen(h, utf8, steps).proxies
    requires Happen(h, utf8, steps).proxies[id].layout == CanonAll(names)
    ensures var picture := Picture(h, Happen(h, utf8, steps).proxies[id], now);
            && Parse(utf8, SnapshotBytes(picture)) == Read(Snapshot(CanonAll(picture.hosts), picture.entries))
            && (Parse(utf8, SnapshotBytes(picture)) == Read(picture) <==>
                  forall i :: 0 <= i < |names| ==> !EndsInDot(Canon(names[i])))
  {
    hide Happen, SnapshotOf, Parse, SnapshotBytes, Canon, Writable, Readable, EndsInDot, StepsOk;
    SavesAreReadable(h, utf8, steps, id, now);
    var picture := Picture(h, Happen(h, utf8, steps).proxies[id], now);
    ParseOfSaved(utf8, picture);
    RoundTripIff(utf8, picture, names);
  }

  // ---------- saving, loading, and going on ----------

  /** Without expiry every index of every history is tidy, loaded or not. */
  ghost predicate Tidied(proxy: Proxy) {
    proxy.index.geo.ttl == U64_MAX ==>
      Exactness.Tidy(|proxy.layout|, proxy.index) && Exactness.LatchTells(proxy.index)
  }

  lemma TidiedLoad(utf8: Utf8, proxy: Proxy, data: seq<byte>, log: iset<Obs<nat>>, known: iset<Host>, now: u64)
    requires Fit(proxy.index) && |proxy.layout| <= MAX_BACKENDS && Tidied(proxy)
    requires FileBacked(utf8, Anyone, known, data, log, now) && forall x: Host :: x in known
    ensures Tidied(proxy.(index := LoadedIndex(utf8, proxy, data, now)))
  {
    hide Parse, RestoreInto, Exactness.Tidy, Exactness.LatchTells;
    if proxy.index.geo.ttl == U64_MAX {
      match Parse(utf8, data)
      case Failed =>
      case Legacy =>
        var none: seq<Host> := [];
        Exactness.TidyLoad(proxy.index, proxy.layout, none, [], now);
      case Read(s) =>
        forall e, p: Slot | e in s.entries && Has(e.missing, p) && p < |s.hosts|
          ensures e.insertedAt >= 1
        {
          assert EntryTells(Anyone, known, s.hosts, e, log, now);
        }
        Exactness.TidyLoad(proxy.index, proxy.layout, s.hosts, s.entries, now);
    }
  }

  lemma TidiedStep(h: Hasher, proxy: Proxy, op: Op)
    requires Fit(proxy.index) && Tidied(proxy) && op.now >= 1 && (op.Note? ==> Within(op.bits, |proxy.layout|))
    ensures Tidied(proxy.(index := ApplyIndex(h, proxy.index, op)))
  {
    hide ApplyIndex, Exactness.TidyShard, Exactness.LatchTells;
    if proxy.index.geo.ttl == U64_MAX {
      forall s | 0 <= s < proxy.index.geo.shards
        ensures Exactness.TidyShard(Exactness.LocateIn(proxy.index.geo), |proxy.layout|, ShardShape(proxy.index.geo, s),
                                    ApplyIndex(h, proxy.index, op).shards[s].window, s)
      {
        assert [op][0] == op;
        Exactness.TidyStep(h, |proxy.layout|, proxy.index, op, s);
      }
      Exactness.LatchStep(h, proxy.index, op);
    }
  }

  lemma TidiedBoot(geo: Geometry, layout: seq<Host>)
    requires Sane(geo)
    ensures Tidied(Proxy(layout, Empty(geo)))
  {
    hide Exactness.Tidy;
    if geo.ttl == U64_MAX {
      Exactness.TidyEmpty(|layout|, geo, false);
    }
  }

  lemma {:induction false} HistoryTidied(h: Hasher, utf8: Utf8, steps: seq<Step>, id: nat, now: nat)
    requires InOrder(steps, now)
    ensures id in Happen(h, utf8, steps).proxies ==> Tidied(Happen(h, utf8, steps).proxies[id])
    decreases |steps|
  {
    hide Tidied, ApplyIndex, LoadedIndex, Perform, FileBacked, ProxyBacked, Empty;
    if steps != [] && id in Happen(h, utf8, steps).proxies {
      var rest, step := steps[..|steps| - 1], steps[|steps| - 1];
      var before := Happen(h, utf8, rest);
      var clock: nat := if step.Boot? then now else step.Time();
      HistoryTidied(h, utf8, rest, id, clock);
      PerformChanges(h, utf8, before, step);
      if Possible(before, step) && step.id == id {
        match step
        case Boot(_, geo, layout) => TidiedBoot(geo, layout);
        case Do(_, op) => TidiedStep(h, before.proxies[id], op);
        case Save(_, _, at) => TidiedStep(h, before.proxies[id], Sweep(at));
        case Load(_, file, at) =>
          var all := Everyone();
          HistoryBacked(h, utf8, Anyone, all, rest, clock);
          TidiedLoad(utf8, before.proxies[id], before.files[file], Observed(h, utf8, Anyone, rest), all, at);
      }
    }
  }

  /**
    Save then load is exact through the bytes of the file: take two proxies with the same
    provider table and geometry without expiry, at the end of any history of recording,
    saving and loading, and let one load what the other saves.  They then hold every block
    slot for slot, and answer every lookup and choose every victim alike from then on.  No
    identity of the table ends in a dot.
   */
  lemma FileIsExact(h: Hasher, utf8: Utf8, steps: seq<Step>, from: nat, to: nat, saved: u64, loaded: u64,
                    more: seq<Op>, key: Key, now: u64)
    requires InOrder(steps, saved) && StepsOk(utf8, steps)
    requires from in Happen(h, utf8, steps).proxies && to in Happen(h, utf8, steps).proxies
    requires var x, y := Happen(h, utf8, steps).proxies[from], Happen(h, utf8, steps).proxies[to];
             && x.index.geo == y.index.geo && x.index.geo.ttl == U64_MAX
             && x.layout == y.layout == CanonAll(x.layout)
    ensures var x, y := Happen(h, utf8, steps).proxies[from], Happen(h, utf8, steps).proxies[to];
            var restored := LoadedIndex(utf8, y, SnapshotBytes(Picture(h, x, saved)), loaded);
            && Writable(Picture(h, x, saved))
            && Exactness.Twins(restored, x.index, Exactness.Counters(x.index))
            && Exactness.Twins(RunIndex(h, restored, more), RunIndex(h, x.index, more), Exactness.Counters(x.index))
            && AnswerIndex(h, RunIndex(h, restored, more), key, now) ==
               AnswerIndex(h, RunIndex(h, x.index, more), key, now)
  {
    hide Happen, StepsOk, SnapshotOf, SnapshotBytes, Writable, RestoreInto, RunIndex, AnswerIndex, Canon, HostsOk,
         EntriesOk, Parse, Exactness.Tidy, Exactness.LatchTells, Exactness.Twins;
    var x, y := Happen(h, utf8, steps).proxies[from], Happen(h, utf8, steps).proxies[to];
    SavesAreReadable(h, utf8, steps, from, saved);
    HistoryTidied(h, utf8, steps, from, saved);
    ParseOfSaved(utf8, Picture(h, x, saved));
    var restored := LoadedIndex(utf8, y, SnapshotBytes(Picture(h, x, saved)), loaded);
    Exactness.LoadIsTwin(h, x.layout, x.index, y.index, saved, loaded);
    Exactness.TwinsRun(h, restored, x.index, Exactness.Counters(x.index), more);
    Exactness.TwinAnswers(h, RunIndex(h, restored, more), RunIndex(h, x.index, more), Exactness.Counters(x.index),
                          key, now);
  }
}
