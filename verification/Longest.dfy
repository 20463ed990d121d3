/**
  Exactly how long a miss is remembered over restarts: every age below the bound occurs in
  some history of proxies that save and load, and so the time to live is kept by every
  history only where hardly anything can go wrong.
 */
module Longest {
  import opened Words
  import opened Blocks
  import opened Rotation
  import opened Evidence
  import opened Index
  import opened Identities
  import opened Restoring
  import opened SnapshotCodec
  import opened Health
  import opened Worlds
  import Handover
  import Projection
  import Restarts
  import Retention
  import Savable

  /** A proxy that boots and works, with no file in sight. */
  function Working(geo: Geometry, layout: seq<Host>, ops: seq<Op>): (steps: seq<Step>)
    ensures |steps| == |ops| + 1 && steps[0] == Boot(0, geo, layout)
    ensures forall i :: 0 <= i < |ops| ==> steps[i + 1] == Do(0, ops[i])
  {
    [Boot(0, geo, layout)] + seq(|ops|, i requires 0 <= i < |ops| => Do(0, ops[i]))
  }

  lemma BootAlone(h: Hasher, utf8: Utf8, geo: Geometry, layout: seq<Host>)
    requires Sane(geo) && |layout| <= MAX_BACKENDS
    ensures Perform(h, utf8, World(map[], map[]), Boot(0, geo, layout)).proxies == map[0 := Proxy(layout, Empty(geo))]
  {
  }

  lemma WorkAlone(h: Hasher, utf8: Utf8, w: World, op: Op)
    requires Proper(w) && w.proxies.Keys == {0} && (op.Note? ==> Within(op.bits, |w.proxies[0].layout|))
    ensures Perform(h, utf8, w, Do(0, op)).proxies ==
            map[0 := w.proxies[0].(index := ApplyIndex(h, w.proxies[0].index, op))]
  {
    hide ApplyIndex;
    assert 0 in w.proxies;
  }

  lemma {:induction false} WorkingRuns(h: Hasher, utf8: Utf8, geo: Geometry, layout: seq<Host>, ops: seq<Op>)
    requires Sane(geo) && |layout| <= MAX_BACKENDS
    requires forall i :: 0 <= i < |ops| && ops[i].Note? ==> Within(ops[i].bits, |layout|)
    ensures Happen(h, utf8, Working(geo, layout, ops)).proxies == map[0 := Proxy(layout, RunIndex(h, Empty(geo), ops))]
  {
    hide ApplyIndex, Empty, Within, Perform;
    var steps := Working(geo, layout, ops);
    if ops == [] {
      assert steps[..0] == [] && steps == [steps[0]];
      BootAlone(h, utf8, geo, layout);
    } else {
      var rest, op := ops[..|ops| - 1], ops[|ops| - 1];
      WorkingRuns(h, utf8, geo, layout, rest);
      assert steps[..|steps| - 1] == Working(geo, layout, rest);
      WorkAlone(h, utf8, Happen(h, utf8, Working(geo, layout, rest)), op);
    }
  }

  lemma WorkingInOrder(geo: Geometry, layout: seq<Host>, ops: seq<Op>, now: nat)
    requires Timely(ops, now)
    ensures InOrder(Working(geo, layout, ops), now)
  {
    var steps := Working(geo, layout, ops);
    forall i | 0 < i < |steps|
      ensures steps[i] == Do(0, ops[i - 1])
    {
      assert steps[i - 1 + 1] == Do(0, ops[i - 1]);
    }
  }

  // ---------- what such histories observe ----------

  /** Only `layout` is configured; `key` is missed by the first provider at `t`, else by the second. */
  ghost predicate OnlyFirst(steps: seq<Step>, layout: seq<Host>, key: Key, t: nat) {
    forall i :: 0 <= i < |steps| ==>
      && (steps[i].Boot? ==> steps[i].layout == layout)
      && (steps[i].Do? ==> steps[i].op == Note(key, Bit(1), steps[i].op.now)
                           || (steps[i].op == Note(key, Bit(0), steps[i].op.now) && steps[i].op.now == t))
  }

  lemma {:induction false} OneLayout(h: Hasher, utf8: Utf8, steps: seq<Step>, layout: seq<Host>, key: Key, t: nat,
                                     id: nat)
    requires OnlyFirst(steps, layout, key, t)
    ensures id in Happen(h, utf8, steps).proxies ==> Happen(h, utf8, steps).proxies[id].layout == layout
  {
    hide ApplyIndex, LoadedIndex, Picture, SnapshotBytes, Writable, Empty;
    if steps != [] {
      OneLayout(h, utf8, steps[..|steps| - 1], layout, key, t, id);
    }
  }

  lemma {:induction false} ObservedOnce<P>(h: Hasher, utf8: Utf8, who: Naming<P>, steps: seq<Step>, layout: seq<Host>,
                                           key: Key, t: nat, o: Obs<P>)
    requires OnlyFirst(steps, layout, key, t) && 2 <= |layout| && who(layout[0]) != who(layout[1])
    requires o in Observed(h, utf8, who, steps) && o.who == who(layout[0])
    ensures o.time == t
  {
    hide Happen, Within;
    var rest, step := steps[..|steps| - 1], steps[|steps| - 1];
    if o in Observed(h, utf8, who, rest) {
      ObservedOnce(h, utf8, who, rest, layout, key, t, o);
    } else {
      OneLayout(h, utf8, rest, layout, key, t, step.id);
      LearnsOne(Names(who, layout), key, step.op, o);
    }
  }

  lemma LearnsOne<P>(names: seq<P>, key: Key, op: Op, o: Obs<P>)
    requires 2 <= |names| && names[0] != names[1] && o in Learned(names, op) && o.who == names[0]
    ensures op.Note? && op.bits != Bit(1) && o.time == op.now
  {
  }

  // ---------- histories that remember long ----------

  /** `steps` is a history in which proxy `id` reports a miss recorded only at `t`. */
  ghost predicate Remembers(h: Hasher, utf8: Utf8, geo: Geometry, layout: seq<Host>, key: Key, t: nat,
                            steps: seq<Step>, id: nat, now: u64)
  {
    && InOrder(steps, now) && OnlyFirst(steps, layout, key, t) && Reports(h, utf8, steps, id, key, 0, now)
    && Happen(h, utf8, steps).proxies[id].layout == layout && Happen(h, utf8, steps).proxies[id].index.geo == geo
  }

  /** Every age below the retention of the index is reached by a proxy on its own. */
  lemma RememberedAlone(h: Hasher, utf8: Utf8, geo: Geometry, layout: seq<Host>, key: Key, t: u64, age: nat)
    returns (steps: seq<Step>)
    requires Sane(geo) && 0 < geo.interval < U64_MAX && geo.blocks > 0 && geo.ttl != 0 && key != []
    requires 2 <= |layout| <= MAX_BACKENDS && 1 <= t && t + age < U64_MAX && age < Projection.RetentionOf(geo)
    ensures Remembers(h, utf8, geo, layout, key, t, steps, 0, t + age)
  {
    hide AnswerIndex, RunIndex, Projection.RetentionOf, Happen, Timely;
    var ops := Projection.IndexAnswersAt(h, geo, key, 0, 1, t, age);
    steps := Working(geo, layout, ops);
    WorkingInOrder(geo, layout, ops, t + age);
    WorkingOnlyFirst(geo, layout, ops, key, t);
    WorkingRuns(h, utf8, geo, layout, ops);
  }

  lemma WorkingOnlyFirst(geo: Geometry, layout: seq<Host>, ops: seq<Op>, key: Key, t: nat)
    requires Retention.NotedOnce(ops, key, 0, 1, t)
    ensures OnlyFirst(Working(geo, layout, ops), layout, key, t)
  {
    var steps := Working(geo, layout, ops);
    forall i | 0 < i < |steps|
      ensures steps[i] == Do(0, ops[i - 1])
    {
      assert steps[i - 1 + 1] == Do(0, ops[i - 1]);
    }
  }

  /** The times at which a hand-over reaches an age beyond that. */
  lemma HandoverAt(geo: Geometry, t: nat, age: nat) returns (load: nat, again: nat)
    requires Sane(geo) && 0 < geo.interval < U64_MAX && geo.blocks > 0 && 1 <= t && t + age < U64_MAX
    requires Projection.RetentionOf(geo) <= age < Memory(geo)
    ensures Handover.HandoverTimes(geo, t, load, again, t + age)
    ensures t < Handover.Second(geo, load) && Handover.Second(geo, load) - t + 2 < U64_MAX
  {
    var g: nat, i: nat := geo.generations, geo.interval;
    MemoryIs(geo);
    WidestClass(geo, age);
    load := t + Min(age, geo.ttl - 1);
    again := if g == 2 then load else Min(load + i - 1, t + age);
    MulOrder(1, g - 1, i);
    Handover.HandoverClasses(geo, 0, t, load, again, t + age);
  }

  /** Only the time to live allows such an age, and it is at least G intervals. */
  lemma WidestClass(geo: Geometry, age: nat)
    requires Sane(geo) && 0 < geo.interval < U64_MAX
    requires Projection.RetentionOf(geo) <= age < Memory(geo)
    ensures var g: nat, i: nat := geo.generations, geo.interval;
            && g >= 2 && Retention.Product(g - 1, i) <= age && Retention.Product(g - 1, i) <= geo.ttl - 1
            && age < geo.ttl + (if g == 2 then i - 1 else 2 * (i - 1)) && (g == 2 ==> geo.ttl < U64_MAX - 1)
  {
    MemoryIs(geo);
    Widest(geo.generations, geo.interval, geo.ttl, age);
  }

  lemma Widest(g: nat, i: nat, ttl: nat, age: nat)
    requires 1 <= g && 0 < ttl < U64_MAX && i == Max(1, ttl / g)
    requires g * i + Retention.Product(g - 1, i - 1) <= age < ttl + Retention.Product(Min(g - 1, 2), i - 1)
    ensures g >= 2 && Retention.Product(g - 1, i) <= age && Retention.Product(g - 1, i) <= ttl - 1
    ensures age < ttl + (if g == 2 then i - 1 else 2 * (i - 1)) && (g == 2 ==> ttl < U64_MAX - 1)
  {
    var q := ttl / g;
    assert ttl == g * q + ttl % g;
    assert g * i == (g - 1) * i + i;
  }

  lemma RememberedThroughFile(h: Hasher, utf8: Utf8, geo: Geometry, layout: seq<Host>, key: Key, t: u64, load: u64,
                              again: u64, now: u64)
    requires Handover.HandoverTimes(geo, t, load, again, now) && geo.ttl != 0
    requires t < Handover.Second(geo, load) && Handover.Second(geo, load) - t + 2 < U64_MAX
    requires TableOk(utf8, layout) && CanonAll(layout) == layout && 2 <= |layout| && Savable.KeyOk(utf8, key)
    ensures Remembers(h, utf8, geo, layout, key, t, Handover.Handing(geo, layout, key, t, load, again), 1, now)
  {
    hide Happen, AnswerIndex, ApplyIndex, RestoreInto, SnapshotOf, Handover.Produced, HostsOk, Canon, InOrder,
         OnlyFirst, Handover.Handing;
    var v := Handover.Second(geo, load);
    Handover.AfterLoad(h, utf8, geo, layout, key, t, load, again);
    Handover.ProducedEntries(h, v - t, key, t, v);
    CanonTwice(layout);
    Handover.HandedOver(h, geo, layout, key, t, load, again, now);
    HandingIs(geo, layout, key, t, load, again, now);
  }

  lemma HandingIs(geo: Geometry, layout: seq<Host>, key: Key, t: u64, load: u64, again: u64, now: u64)
    requires Handover.HandoverTimes(geo, t, load, again, now)
    requires t < Handover.Second(geo, load) && Handover.Second(geo, load) - t + 2 < U64_MAX
    ensures var steps := Handover.Handing(geo, layout, key, t, load, again);
            InOrder(steps, now) && OnlyFirst(steps, layout, key, t)
  {
    hide Sane;
  }

  lemma CanonTwice(layout: seq<Host>)
    requires CanonAll(layout) == layout && Distinct(CanonAll(layout))
    ensures Distinct(layout)
  {
    hide Canon;
  }

  /** Every age below the bound is reached. */
  lemma RememberedThatLong(h: Hasher, utf8: Utf8, geo: Geometry, layout: seq<Host>, key: Key, t: u64, age: nat)
    returns (steps: seq<Step>, id: nat)
    requires Sane(geo) && 0 < geo.interval < U64_MAX && geo.blocks > 0 && geo.ttl != 0
    requires 1 <= t && t + age < U64_MAX && age < Memory(geo)
    requires TableOk(utf8, layout) && CanonAll(layout) == layout && 2 <= |layout| && Savable.KeyOk(utf8, key)
    ensures Remembers(h, utf8, geo, layout, key, t, steps, id, t + age)
  {
    hide Remembers, Memory, Projection.RetentionOf, Handover.HandoverTimes, HostsOk;
    if age < Projection.RetentionOf(geo) {
      steps := RememberedAlone(h, utf8, geo, layout, key, t, age);
      id := 0;
    } else {
      var load, again := HandoverAt(geo, t, age);
      HandoverInRange(geo, t, load, again, t + age);
      RememberedThroughFile(h, utf8, geo, layout, key, t, load, again, t + age);
      steps, id := Handover.Handing(geo, layout, key, t, load, again), 1;
    }
  }

  lemma HandoverInRange(geo: Geometry, t: nat, load: nat, again: nat, now: nat)
    requires Handover.HandoverTimes(geo, t, load, again, now)
    ensures load <= U64_MAX && again <= U64_MAX
  {
  }

  // ---------- exactly that long ----------

  /** In every history every reported miss was recorded less than `age` ago, by a proxy of this geometry. */
  ghost predicate AlwaysWithin<P>(h: Hasher, utf8: Utf8, who: Naming<P>, known: iset<Host>, geo: Geometry, age: nat) {
    forall steps, id, key, p: Slot, now: u64 ::
      InOrder(steps, now) && BootsWith(steps, known) && Reports(h, utf8, steps, id, key, p, now)
      && Happen(h, utf8, steps).proxies[id].index.geo == geo ==>
        SeenWithin(h, utf8, who, steps, id, key, p, now, age)
  }

  ghost predicate SeenWithin<P>(h: Hasher, utf8: Utf8, who: Naming<P>, steps: seq<Step>, id: nat, key: Key, p: Slot,
                                now: nat, age: nat)
  {
    && id in Happen(h, utf8, steps).proxies && p < |Happen(h, utf8, steps).proxies[id].layout|
    && exists o :: o in Observed(h, utf8, who, steps) && o.key == key
                   && o.who == who(Happen(h, utf8, steps).proxies[id].layout[p]) && now < o.time + age
  }

  /** Two hosts that can be told apart and are read back as they are. */
  ghost predicate TwoHosts<P>(utf8: Utf8, who: Naming<P>, known: iset<Host>, layout: seq<Host>) {
    && |layout| == 2 && TableOk(utf8, layout) && CanonAll(layout) == layout && All(layout, known)
    && who(layout[0]) != who(layout[1])
  }

  lemma {:induction false} ObservedOnClock<P>(h: Hasher, utf8: Utf8, who: Naming<P>, steps: seq<Step>, now: nat,
                                              o: Obs<P>)
    requires InOrder(steps, now) && o in Observed(h, utf8, who, steps)
    ensures o.time >= 1
    decreases |steps|
  {
    hide Happen, Possible;
    var rest := steps[..|steps| - 1];
    if o in Observed(h, utf8, who, rest) {
      assert InOrder(rest, now);
      ObservedOnClock(h, utf8, who, rest, now, o);
    }
  }

  /** Beyond the bound, and beyond what a clock can tell, nothing is ever reported. */
  lemma WithinBound<P>(h: Hasher, utf8: Utf8, who: Naming<P>, known: iset<Host>, geo: Geometry, age: nat)
    requires Sane(geo) && Faithful(utf8, who, known)
    requires age >= U64_MAX - 1 || (0 < geo.interval < U64_MAX && Memory(geo) <= age)
    ensures AlwaysWithin(h, utf8, who, known, geo, age)
  {
    hide Happen, Observed, AnswerIndex, Faithful, Memory;
    forall steps, id, key, p: Slot, now: u64 |
      InOrder(steps, now) && BootsWith(steps, known) && Reports(h, utf8, steps, id, key, p, now)
      && Happen(h, utf8, steps).proxies[id].index.geo == geo
      ensures SeenWithin(h, utf8, who, steps, id, key, p, now, age)
    {
      NoMissIsInvented(h, utf8, who, known, steps, id, key, p, now);
      var proxy := Happen(h, utf8, steps).proxies[id];
      var o :| o in Observed(h, utf8, who, steps) && o.key == key && o.who == who(proxy.layout[p])
               && (0 < geo.interval < U64_MAX ==> now < o.time + Memory(geo));
      ObservedOnClock(h, utf8, who, steps, now, o);
    }
  }

  /**
    The bound on memory over restarts is exact: for every geometry with blocks and a finite
    time to live, every report of every history is younger than `age` if and only if the
    bound does not exceed it, or no clock can run that long.
   */
  lemma MemoryIsExact<P>(h: Hasher, utf8: Utf8, who: Naming<P>, known: iset<Host>, geo: Geometry, age: nat,
                         layout: seq<Host>, key: Key)
    requires Sane(geo) && 0 < geo.interval < U64_MAX && geo.blocks > 0 && geo.ttl != 0
    requires Faithful(utf8, who, known) && TwoHosts(utf8, who, known, layout) && Savable.KeyOk(utf8, key)
    ensures AlwaysWithin(h, utf8, who, known, geo, age) <==> Memory(geo) <= age || age >= U64_MAX - 1
  {
    hide Happen, Observed, Reports, Faithful, Memory, TableOk, AlwaysWithin, Canon;
    if Memory(geo) <= age || age >= U64_MAX - 1 {
      WithinBound(h, utf8, who, known, geo, age);
    } else {
      TooOld(h, utf8, who, known, geo, age, layout, key);
    }
  }

  lemma TooOld<P>(h: Hasher, utf8: Utf8, who: Naming<P>, known: iset<Host>, geo: Geometry, age: nat,
                  layout: seq<Host>, key: Key)
    requires Sane(geo) && 0 < geo.interval < U64_MAX && geo.blocks > 0 && geo.ttl != 0
    requires TwoHosts(utf8, who, known, layout) && Savable.KeyOk(utf8, key) && age < Memory(geo) && age < U64_MAX - 1
    ensures !AlwaysWithin(h, utf8, who, known, geo, age)
  {
    hide Happen, Observed, Memory, TableOk, Canon;
    var steps, id := RememberedThatLong(h, utf8, geo, layout, key, 1, age);
    var now: u64 := 1 + age;
    assert BootsWith(steps, known);
    if SeenWithin(h, utf8, who, steps, id, key, 0, now, age) {
      var o :| o in Observed(h, utf8, who, steps) && o.key == key && o.who == who(layout[0]) && now < o.time + age;
      ObservedOnce(h, utf8, who, steps, layout, key, 1, o);
    }
  }

  /** What keeps every history to the time to live. */
  predicate KeepsTtl(geo: Geometry) {
    || geo.ttl == 0 || geo.ttl >= U64_MAX - 1 || geo.blocks == 0
    || (geo.generations * geo.interval <= geo.ttl && (geo.generations == 1 || geo.interval == 1))
  }

  lemma MemoryWithinTtl(geo: Geometry)
    requires Sane(geo) && 0 < geo.interval < U64_MAX
    ensures Memory(geo) <= geo.ttl <==>
              geo.generations * geo.interval <= geo.ttl && (geo.generations == 1 || geo.interval == 1)
  {
    MemoryIs(geo);
    var g: nat, i: nat := geo.generations - 1, geo.interval - 1;
    if g >= 1 && i >= 1 {
      MulOrder(1, Min(g, 2), i);
    }
  }

  /** An index without time to live or without blocks answers nothing, loaded or not. */
  lemma AnswersNeedRoom(h: Hasher, idx: Index, key: Key, now: u64, p: Slot)
    requires Fit(idx) && Has(AnswerIndex(h, idx, key, now), p)
    ensures idx.geo.ttl != 0 && idx.geo.blocks != 0
  {
    if idx.geo.blocks == 0 {
      NoBlocksNoAnswers(h, idx, key, now);
    } else {
      var s := ShardOf(idx.geo, h(key).hash);
      var sh, spot := ShardShape(idx.geo, s), RouteIn(idx.geo, h, s)(key);
      RoutesIn(idx.geo, h, s);
      FreshAnswers(sh, spot, key, now);
      FreshIsStill(sh, now);
    }
  }

  /**
    No history of boots, insertions, lookups, saves and loads makes a proxy of this geometry
    report a miss as old as its time to live if and only if one of these holds: G*I does not
    exceed the time to live and there is one generation only or the interval is one
    millisecond, the time to live is zero, it is as long as the clock can run, or there are
    no blocks.
   */
  lemma TtlKeptIff<P>(h: Hasher, utf8: Utf8, who: Naming<P>, known: iset<Host>, geo: Geometry, layout: seq<Host>,
                      key: Key)
    requires Sane(geo) && Faithful(utf8, who, known) && TwoHosts(utf8, who, known, layout) && Savable.KeyOk(utf8, key)
    ensures AlwaysWithin(h, utf8, who, known, geo, geo.ttl) <==> KeepsTtl(geo)
  {
    hide Happen, Observed, AnswerIndex, Faithful, Memory, TableOk, Canon, SeenWithin;
    if geo.ttl == 0 || geo.blocks == 0 {
      forall steps, id, key, p: Slot, now: u64 | Reports(h, utf8, steps, id, key, p, now)
        ensures Happen(h, utf8, steps).proxies[id].index.geo != geo
      {
        AnswersNeedRoom(h, Happen(h, utf8, steps).proxies[id].index, key, now, p);
      }
    } else if geo.ttl == U64_MAX {
      WithinBound(h, utf8, who, known, geo, geo.ttl);
    } else {
      MemoryIsExact(h, utf8, who, known, geo, geo.ttl, layout, key);
      MemoryWithinTtl(geo);
    }
  }

  /** Three generations and eight milliseconds. */
  const SHORT := Geometry(3, 1, 2, 1, 8)

  /**
    A restart makes the difference: on its own an index of this geometry never answers a miss
    as old as its time to live, but with one save and one load between two proxies one of them
    reports a miss that is older.
   */
  lemma RestartOutlivesTtl(h: Hasher, utf8: Utf8, layout: seq<Host>, key: Key) returns (steps: seq<Step>, id: nat)
    requires TableOk(utf8, layout) && CanonAll(layout) == layout && 2 <= |layout| && Savable.KeyOk(utf8, key)
    ensures Projection.AlwaysWithin(h, SHORT, SHORT.ttl) && !KeepsTtl(SHORT)
    ensures Remembers(h, utf8, SHORT, layout, key, 1, steps, id, 10)
  {
    hide Remembers, HostsOk, Canon, Projection.AlwaysWithin;
    MemoryIs(SHORT);
    assert Projection.RetentionOf(SHORT) == 8 && Memory(SHORT) == 10;
    Projection.IndexTtlRespectedIff(h, SHORT);
    steps, id := RememberedThatLong(h, utf8, SHORT, layout, key, 1, 9);
  }

  // ---------- at least that long ----------

  lemma HealthyIsReady<P>(names: seq<P>, idx: Index, log: iset<Obs<P>>, clock: nat)
    requires HealthyIndex(names, idx, log, clock) && 0 < idx.geo.interval < U64_MAX
    ensures Projection.ReadyIndex(idx, clock)
  {
    hide Backed, Retention.InReach, Restarts.Oldest, Restarts.Overdue;
    forall s | 0 <= s < idx.geo.shards
      ensures Retention.Ready(ShardShape(idx.geo, s), idx.shards[s].window, clock)
    {
      assert Healthy(ShardShape(idx.geo, s), idx.geo.ttl, names, idx.shards[s].window, log, clock);
    }
  }

  lemma ProxiesAreReady(h: Hasher, utf8: Utf8, steps: seq<Step>, id: nat, now: nat)
    requires InOrder(steps, now) && id in Happen(h, utf8, steps).proxies
    requires 0 < Happen(h, utf8, steps).proxies[id].index.geo.interval < U64_MAX
    ensures Projection.ReadyIndex(Happen(h, utf8, steps).proxies[id].index, now)
  {
    hide Happen, Observed, HealthyIndex, FileBacked, Projection.ReadyIndex;
    var proxy := Happen(h, utf8, steps).proxies[id];
    var all := Everyone();
    HistoryBacked(h, utf8, Savable.Anyone, all, steps, now);
    var log := Observed(h, utf8, Savable.Anyone, steps);
    assert ProxyBacked(Savable.Anyone, all, proxy, log, now);
    HealthyIsReady(Names(Savable.Anyone, proxy.layout), proxy.index, log, now);
  }

  /**
    The other side of the bound, after any history of boots, insertions, lookups, saves and
    loads: what a proxy records and does not overwrite in its own generation is reported by
    every lookup up to (G-1)*I later, through whatever it then records, looks up and sweeps.
   */
  lemma RecordedIsRemembered(h: Hasher, utf8: Utf8, steps: seq<Step>, id: nat, note: Op, after: seq<Op>, p: Slot,
                             now: u64)
    requires InOrder(steps, note.now) && id in Happen(h, utf8, steps).proxies
    requires note.Note? && note.key != [] && Has(note.bits, p) && note.now <= now && Timely(after, now)
    requires forall i :: 0 <= i < |after| ==> note.now <= after[i].now
    ensures var idx := Happen(h, utf8, steps).proxies[id].index;
            && 0 < idx.geo.interval < U64_MAX && idx.geo.blocks > 0
            && now <= note.now + Projection.LeastRetention(idx.geo)
            && Projection.Undisturbed(h, ApplyIndex(h, idx, note), after, note.key) ==>
              Has(AnswerIndex(h, RunIndex(h, ApplyIndex(h, idx, note), after), note.key, now), p)
  {
    hide Happen, AnswerIndex, RunIndex, ApplyIndex, Projection.ReadyIndex, Projection.Undisturbed,
         Projection.LeastRetention, Timely, InOrder;
    var idx := Happen(h, utf8, steps).proxies[id].index;
    TimesOfSteps(steps, note.now);
    if 0 < idx.geo.interval < U64_MAX && idx.geo.blocks > 0
       && now <= note.now + Projection.LeastRetention(idx.geo) {
      ProxiesAreReady(h, utf8, steps, id, note.now);
      Projection.IndexRemembers(h, idx, note, after, p, now);
    }
  }

  lemma TimesOfSteps(steps: seq<Step>, now: nat)
    requires InOrder(steps, now)
    ensures 1 <= now < U64_MAX
  {
  }
}
