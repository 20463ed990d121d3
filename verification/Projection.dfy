/**
  Each shard of an index runs on its own: it sees the operations that reach it, in order.
  What holds of every run of one window therefore holds of every run of the index.
 */
module Projection {
  import opened Words
  import opened Blocks
  import opened Rotation
  import opened Index
  import Retention

  /** The operations of a history that reach shard `s`. */
  ghost function ShardOps(h: Hasher, idx: Index, ops: seq<Op>, s: nat): seq<Op>
    requires Fit(idx)
  {
    if ops == [] then []
    else
      var rest, op := ops[..|ops| - 1], ops[|ops| - 1];
      ShardOps(h, idx, rest, s)
      + if !Ignored(RunIndex(h, idx, rest), op) && Touches(idx.geo, h, op, s) then [op] else []
  }

  ghost function RunOfShard(h: Hasher, idx: Index, ops: seq<Op>, s: nat): Shard
    requires Fit(idx) && s < idx.geo.shards
  {
    RoutesIn(idx.geo, h, s);
    Run(ShardShape(idx.geo, s), RouteIn(idx.geo, h, s), idx.shards[s], ops)
  }

  lemma RunOfShardMore(h: Hasher, idx: Index, ops: seq<Op>, op: Op, s: nat)
    requires Fit(idx) && s < idx.geo.shards
    ensures Routes(ShardShape(idx.geo, s), RouteIn(idx.geo, h, s))
    ensures RunOfShard(h, idx, ops + [op], s) ==
            Apply(ShardShape(idx.geo, s), RouteIn(idx.geo, h, s), RunOfShard(h, idx, ops, s), op)
  {
    RoutesIn(idx.geo, h, s);
    RunAppend(ShardShape(idx.geo, s), RouteIn(idx.geo, h, s), idx.shards[s], ops, op);
  }

  /** A run of the index, from any state, is the product of the runs of its shards. */
  lemma {:induction false} ShardsRunAlone(h: Hasher, idx: Index, ops: seq<Op>, s: nat)
    requires Fit(idx) && s < idx.geo.shards
    ensures RunIndex(h, idx, ops).shards[s] == RunOfShard(h, idx, ShardOps(h, idx, ops, s), s)
  {
    if ops != [] {
      var rest, op := ops[..|ops| - 1], ops[|ops| - 1];
      ShardsRunAlone(h, idx, rest, s);
      var before, own := RunIndex(h, idx, rest), ShardOps(h, idx, rest, s);
      StepOfShard(h, before, op, s);
      if !Ignored(before, op) && Touches(idx.geo, h, op, s) {
        RunOfShardMore(h, idx, own, op, s);
        assert ShardOps(h, idx, ops, s) == own + [op];
      } else {
        assert ShardOps(h, idx, ops, s) == own;
      }
    }
  }

  lemma {:induction false} ShardOpsAreTimely(h: Hasher, idx: Index, ops: seq<Op>, s: nat, now: nat)
    requires Fit(idx) && Timely(ops, now)
    ensures Timely(ShardOps(h, idx, ops, s), now)
    decreases |ops|
  {
    hide Ignored, Touches, RunIndex;
    if ops != [] {
      ShardOpsAreTimely(h, idx, ops[..|ops| - 1], s, ops[|ops| - 1].now);
    }
  }

  lemma {:induction false} ShardOpsAreOps(h: Hasher, idx: Index, ops: seq<Op>, s: nat)
    requires Fit(idx)
    ensures forall op :: op in ShardOps(h, idx, ops, s) ==> op in ops
  {
    hide Ignored, Touches, RunIndex;
    if ops != [] {
      ShardOpsAreOps(h, idx, ops[..|ops| - 1], s);
    }
  }

  // ---------- retention ----------

  /** How long an index may remember a miss. */
  function RetentionOf(geo: Geometry): nat
    requires Sane(geo) && 0 < geo.interval < U64_MAX
  {
    Retention.Bound(ShardShape(geo, 0))
  }

  lemma SameBound(geo: Geometry, s: nat)
    requires Sane(geo) && 0 < geo.interval < U64_MAX
    ensures Retention.Bound(ShardShape(geo, s)) == RetentionOf(geo)
  {
  }

  lemma AnswerOfShard(h: Hasher, geo: Geometry, ops: seq<Op>, key: Key, now: u64)
    requires Sane(geo)
    ensures var s := ShardOf(geo, h(key).hash);
            && Routes(ShardShape(geo, s), RouteIn(geo, h, s))
            && (AnswerIndex(h, RunIndex(h, Empty(geo), ops), key, now) != NO_SLOTS ==>
                  AnswerIndex(h, RunIndex(h, Empty(geo), ops), key, now) ==
                  Answer(ShardShape(geo, s), RunOfShard(h, Empty(geo), ShardOps(h, Empty(geo), ops, s), s).window,
                         RouteIn(geo, h, s)(key), key, now))
  {
    var s := ShardOf(geo, h(key).hash);
    RoutesIn(geo, h, s);
    ShardsRunAlone(h, Empty(geo), ops, s);
  }

  lemma NotedInHistory(h: Hasher, geo: Geometry, ops: seq<Op>, s: nat, key: Key, p: Slot, now: nat, age: nat)
    requires Sane(geo) && Retention.NotedWithin(ShardOps(h, Empty(geo), ops, s), key, p, now, age)
    ensures Retention.NotedWithin(ops, key, p, now, age)
  {
    ShardOpsAreOps(h, Empty(geo), ops, s);
    var own := ShardOps(h, Empty(geo), ops, s);
    var i :| 0 <= i < |own| && own[i].Note? && own[i].key == key && Has(own[i].bits, p) && now < own[i].now + age;
    assert own[i] in ops;
  }

  /** The retention bound of one shard is the bound of the index, whatever the shard count. */
  lemma IndexRetention(h: Hasher, geo: Geometry, ops: seq<Op>, key: Key, p: Slot, now: u64)
    requires Sane(geo) && 0 < geo.interval < U64_MAX && Timely(ops, now)
    ensures Has(AnswerIndex(h, RunIndex(h, Empty(geo), ops), key, now), p) ==>
              Retention.NotedWithin(ops, key, p, now, RetentionOf(geo))
  {
    hide AnswerIndex, RunIndex, Answer, Run, ShardOf, Touches, Retention.Bound, RetentionOf, Retention.NotedWithin,
         Timely;
    if Has(AnswerIndex(h, RunIndex(h, Empty(geo), ops), key, now), p) {
      var s := ShardOf(geo, h(key).hash);
      AnswerOfShard(h, geo, ops, key, now);
      ShardOpsAreTimely(h, Empty(geo), ops, s, now);
      var own := ShardOps(h, Empty(geo), ops, s);
      Retention.RetentionUpperBound(ShardShape(geo, s), RouteIn(geo, h, s), own, key, p, now);
      SameBound(geo, s);
      NotedInHistory(h, geo, ops, s, key, p, now, RetentionOf(geo));
    }
  }

  // ---------- exactly this long ----------

  /** A history of insertions for one key runs in one shard. */
  lemma {:induction false} OneKeyOneShard(h: Hasher, geo: Geometry, ops: seq<Op>, key: Key)
    requires Sane(geo) && key != [] && geo.ttl != 0
    requires forall i :: 0 <= i < |ops| ==> ops[i].Note? && ops[i].key == key && ops[i].bits != NO_SLOTS
    ensures ShardOps(h, Empty(geo), ops, ShardOf(geo, h(key).hash)) == ops
    ensures ops != [] ==> RunIndex(h, Empty(geo), ops).populated
  {
    hide ShardOf, ApplyIndex;
    if ops != [] {
      var rest, op := ops[..|ops| - 1], ops[|ops| - 1];
      OneKeyOneShard(h, geo, rest, key);
      assert ops == rest + [op];
      NoteSetsLatch(h, RunIndex(h, Empty(geo), rest), op);
    }
  }

  /** For every age below the bound, a run of the index in which a miss is answered at that age. */
  lemma IndexAnswersAt(h: Hasher, geo: Geometry, key: Key, p: Slot, q: Slot, t: u64, age: nat) returns (ops: seq<Op>)
    requires Sane(geo) && 0 < geo.interval < U64_MAX && geo.blocks > 0 && geo.ttl != 0 && key != [] && p != q
    requires 1 <= t && t + age < U64_MAX && age < RetentionOf(geo)
    ensures Timely(ops, t + age) && Retention.NotedOnce(ops, key, p, q, t)
    ensures Has(AnswerIndex(h, RunIndex(h, Empty(geo), ops), key, t + age), p)
  {
    hide Answer, Run, RunIndex, ShardOf, ShardBlocks, RetentionOf, Retention.Bound, Timely, ShardOps, RouteIn;
    var s := ShardOf(geo, h(key).hash);
    RoutesIn(geo, h, s);
    SameBound(geo, s);
    HasBlocks(h, geo, key);
    assert Empty(geo).shards[s] == New(ShardShape(geo, s));
    ops := Retention.AnsweredAt(ShardShape(geo, s), RouteIn(geo, h, s), key, p, q, t, age);
    assert Has(Bit(p), p) && Has(Bit(q), q);
    OneKeyOneShard(h, geo, ops, key);
    ShardsRunAlone(h, Empty(geo), ops, s);
  }

  lemma HasBlocks(h: Hasher, geo: Geometry, key: Key)
    requires Sane(geo)
    ensures geo.blocks > 0 ==> ShardBlocks(geo, ShardOf(geo, h(key).hash)) != 0
  {
    if geo.blocks > 0 {
      BlockInBounds(geo, GlobalBlock(geo, h(key).hash));
    }
  }

  lemma RetentionIsPositive(geo: Geometry)
    requires Sane(geo) && 0 < geo.interval < U64_MAX
    ensures RetentionOf(geo) >= 1
  {
    Retention.BoundIsReach(ShardShape(geo, 0));
    assert Retention.Reach(ShardShape(geo, 0), 0) <= RetentionOf(geo);
  }

  /** The retention bound of the index is tight, whatever its geometry. */
  lemma IndexBoundIsTight(h: Hasher, geo: Geometry, key: Key, p: Slot, q: Slot, t: u64)
    returns (ops: seq<Op>, now: u64)
    requires Sane(geo) && 0 < geo.interval < U64_MAX && geo.blocks > 0 && geo.ttl != 0 && key != [] && p != q
    requires 1 <= t && t + RetentionOf(geo) <= U64_MAX
    ensures now == t + RetentionOf(geo) - 1 && Timely(ops, now) && Retention.NotedOnce(ops, key, p, q, t)
    ensures Has(AnswerIndex(h, RunIndex(h, Empty(geo), ops), key, now), p)
  {
    hide RetentionOf, AnswerIndex, RunIndex, Timely, Retention.NotedOnce, Empty;
    RetentionIsPositive(geo);
    now := t + RetentionOf(geo) - 1;
    ops := IndexAnswersAt(h, geo, key, p, q, t, RetentionOf(geo) - 1);
  }

  /** `age` bounds the age of every miss that the index answers, in every run. */
  ghost predicate AlwaysWithin(h: Hasher, geo: Geometry, age: nat)
    requires Sane(geo)
  {
    forall ops, key, p: Slot, now: u64 ::
      Timely(ops, now) && Has(AnswerIndex(h, RunIndex(h, Empty(geo), ops), key, now), p) ==>
        Retention.NotedWithin(ops, key, p, now, age)
  }

  /** Whatever is answered was noted, and the clock does not run longer than its range. */
  lemma AnswerOnClock(h: Hasher, geo: Geometry, ops: seq<Op>, key: Key, p: Slot, now: u64)
    requires Sane(geo) && Timely(ops, now) && Has(AnswerIndex(h, RunIndex(h, Empty(geo), ops), key, now), p)
    ensures geo.ttl > 0 && geo.blocks > 0 && Retention.NotedWithin(ops, key, p, now, U64_MAX - 1)
  {
    hide Answer, Run, RunIndex, ShardOf, ShardBlocks, ShardOps;
    var s := ShardOf(geo, h(key).hash);
    AnswerOfShard(h, geo, ops, key, now);
    ShardOpsAreTimely(h, Empty(geo), ops, s, now);
    var own := ShardOps(h, Empty(geo), ops, s);
    var a, o := Retention.AnswerWasNoted(ShardShape(geo, s), RouteIn(geo, h, s), own, key, p, now);
    Retention.NotedMeans(own, o);
    var i :| 0 <= i < |own| && own[i].Note? && own[i].key == key && Has(own[i].bits, p) && own[i].now == o.time;
    assert now < own[i].now + (U64_MAX - 1);
    NotedInHistory(h, geo, ops, s, key, p, now, U64_MAX - 1);
    if geo.blocks == 0 {
      NoBlocksNoAnswers(h, RunIndex(h, Empty(geo), ops), key, now);
    }
    NeverSet(h, geo, ops);
  }

  lemma {:induction false} NeverSet(h: Hasher, geo: Geometry, ops: seq<Op>)
    requires Sane(geo)
    ensures geo.ttl == 0 ==> !RunIndex(h, Empty(geo), ops).populated
  {
    if ops != [] {
      NeverSet(h, geo, ops[..|ops| - 1]);
    }
  }

  /** Retention does not exceed the time to live, as far as clocks can tell. */
  predicate TtlSuffices(geo: Geometry)
    requires Sane(geo)
  {
    geo.ttl == 0 || geo.ttl >= U64_MAX - 1 || geo.blocks == 0 || RetentionOf(geo) <= geo.ttl
  }

  /**
    The index never answers a miss that is older than the configured time to live if and
    only if one of these holds: G*I + (G-1)*(I-1) does not exceed it, it is zero, it is as
    long as the clock can run, or the index has no blocks.
   */
  lemma IndexTtlRespectedIff(h: Hasher, geo: Geometry)
    requires Sane(geo)
    ensures AlwaysWithin(h, geo, geo.ttl) <==> TtlSuffices(geo)
  {
    hide AnswerIndex, RunIndex, RetentionOf, Timely;
    if TtlSuffices(geo) {
      forall ops, key, p: Slot, now: u64 |
        Timely(ops, now) && Has(AnswerIndex(h, RunIndex(h, Empty(geo), ops), key, now), p)
        ensures Retention.NotedWithin(ops, key, p, now, geo.ttl)
      {
        AnswerOnClock(h, geo, ops, key, p, now);
        if geo.ttl < U64_MAX - 1 {
          IndexRetention(h, geo, ops, key, p, now);
        }
      }
    } else {
      var key: Key := [0];
      var ops := IndexAnswersAt(h, geo, key, 0, 1, 1, geo.ttl);
      assert !Retention.NotedWithin(ops, key, 0, 1 + geo.ttl, geo.ttl);
    }
  }

  // ---------- at least this long ----------

  /** How long an index remembers a miss that is not overwritten. */
  function LeastRetention(geo: Geometry): nat
    requires Sane(geo)
  {
    (geo.generations - 1) * geo.interval
  }

  /** Every shard can record. */
  ghost predicate ReadyIndex(idx: Index, now: nat) {
    Fit(idx) && forall s :: 0 <= s < idx.geo.shards ==>
                  Retention.Ready(ShardShape(idx.geo, s), idx.shards[s].window, now)
  }

  lemma {:induction false} LatchStays(h: Hasher, idx: Index, ops: seq<Op>)
    requires Fit(idx) && idx.populated
    ensures RunIndex(h, idx, ops).populated
  {
    if ops != [] {
      LatchStays(h, idx, ops[..|ops| - 1]);
    }
  }

  /** No insertion of `after` overwrites the noted slot while its generation is current. */
  ghost predicate Undisturbed(h: Hasher, idx: Index, after: seq<Op>, key: Key)
    requires Fit(idx)
  {
    var s := ShardOf(idx.geo, h(key).hash);
    RoutesIn(idx.geo, h, s);
    var sh := ShardShape(idx.geo, s);
    sh.blocks != 0 ==>
      Retention.Undisturbed(sh, RouteIn(idx.geo, h, s), idx.shards[s], ShardOps(h, idx, after, s), key)
  }

  /**
    Retention lower bound of the index: whatever it held before, loaded or not, a recorded
    miss that is not overwritten in its own generation is answered by every lookup up to
    (G-1)*I later.
   */
  lemma IndexRemembers(h: Hasher, idx: Index, note: Op, after: seq<Op>, p: Slot, now: u64)
    requires ReadyIndex(idx, note.now) && 0 < idx.geo.interval < U64_MAX && idx.geo.blocks > 0 && idx.geo.ttl != 0
    requires note.Note? && note.key != [] && Has(note.bits, p) && 1 <= note.now <= now && Timely(after, now)
    requires forall i :: 0 <= i < |after| ==> note.now <= after[i].now
    requires now <= note.now + LeastRetention(idx.geo)
    ensures Undisturbed(h, ApplyIndex(h, idx, note), after, note.key) ==>
              Has(AnswerIndex(h, RunIndex(h, ApplyIndex(h, idx, note), after), note.key, now), p)
  {
    hide Run, Apply, Answer, RunIndex, ShardBlocks, Retention.Undisturbed, Retention.Ready, ApplyIndex, ShardOps;
    var geo, s, noted := idx.geo, ShardOf(idx.geo, h(note.key).hash), ApplyIndex(h, idx, note);
    assert note.bits[p];
    NoteSetsLatch(h, idx, note);
    StepOfShard(h, idx, note, s);
    HasBlocks(h, geo, note.key);
    LatchStays(h, noted, after);
    ShardsRunAlone(h, noted, after, s);
    ShardOpsAreTimely(h, noted, after, s, now);
    ShardOpsAreOps(h, noted, after, s);
    var own := ShardOps(h, noted, after, s);
    forall i | 0 <= i < |own|
      ensures note.now <= own[i].now
    {
      assert own[i] in after;
    }
    if Undisturbed(h, noted, after, note.key) {
      Retention.RetentionLowerBound(ShardShape(geo, s), RouteIn(geo, h, s), idx.shards[s], note, own, p, now);
    }
  }
}
