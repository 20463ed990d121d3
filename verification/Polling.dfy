/**
  Reading an index is unobservable, over whole histories that record and load.

  Two histories of one index that insert and load the same, whatever lookups, entry counts
  and snapshots are mixed into them, leave indexes that cannot be told apart.
 */
module Polling {
  import opened Words
  import opened Blocks
  import opened Rotation
  import opened IdlePolling
  import opened Index
  import opened Restoring
  import opened Snapshots

  /** What happens to an index: an operation, or a load into the provider table `table`. */
  datatype Move<P> =
    | Act(op: Op)
    | Load(table: seq<P>, stored: seq<P>, entries: seq<Entry>, at: u64)
  {
    function Time(): u64 { if Act? then op.now else at }

    predicate Reads() { Act? && !op.Note? }

    predicate Valid() { Load? ==> |table| <= MAX_BACKENDS && |stored| <= MAX_BACKENDS }
  }

  ghost predicate Moves<P>(moves: seq<Move<P>>) { forall i :: 0 <= i < |moves| ==> moves[i].Valid() }

  function Make<P(==)>(h: Hasher, idx: Index, move: Move<P>): (idx': Index)
    requires Fit(idx) && move.Valid()
    ensures Fit(idx') && idx'.geo == idx.geo
  {
    match move
    case Act(op) => ApplyIndex(h, idx, op)
    case Load(table, stored, entries, at) => RestoreInto(idx, table, stored, entries, at)
  }

  function Play<P(==)>(h: Hasher, idx: Index, moves: seq<Move<P>>): (idx': Index)
    requires Fit(idx) && Moves(moves)
    ensures Fit(idx') && idx'.geo == idx.geo
  {
    if moves == [] then idx else Make(h, Play(h, idx, moves[..|moves| - 1]), moves[|moves| - 1])
  }

  /** The insertions and loads of a history, without the reads. */
  function Writes<P>(moves: seq<Move<P>>): (writes: seq<Move<P>>)
    requires Moves(moves)
    ensures Moves(writes)
  {
    if moves == [] then []
    else Writes(moves[..|moves| - 1]) + if moves[|moves| - 1].Reads() then [] else [moves[|moves| - 1]]
  }

  /** Clock readings are at least 1, before the last representable one, and do not go back. */
  ghost predicate Ordered<P>(moves: seq<Move<P>>, now: nat) {
    && 1 <= now < U64_MAX
    && (forall i :: 0 <= i < |moves| ==> 1 <= moves[i].Time() <= now)
    && (forall i, j :: 0 <= i < j < |moves| ==> moves[i].Time() <= moves[j].Time())
  }

  // ---------- one shard ----------

  /** The same once rotated, and the same sum of held and evicted slots. */
  ghost predicate Alike(sh: Shape, v: Shard, w: Shard, now: nat) {
    && Fits(sh, v.window) && Fits(sh, w.window) && now < U64_MAX && Similar(sh, v.window, w.window, now)
    && v.evictions + Occupied(v.window.gens) == w.evictions + Occupied(w.window.gens)
  }

  lemma AlikeLater(sh: Shape, v: Shard, w: Shard, t: nat, now: nat)
    requires Alike(sh, v, w, t) && t <= now < U64_MAX
    ensures Alike(sh, v, w, now)
  {
    SimilarLater(sh, v.window, w.window, t, now);
  }

  /** Rotating one of them. */
  lemma AlikeRead(sh: Shape, route: Route, v: Shard, w: Shard, op: Op)
    requires Alike(sh, v, w, op.now) && Routes(sh, route) && !op.Note?
    ensures Alike(sh, Apply(sh, route, v, op), w, op.now)
  {
    RotateOnTheWay(sh, v.window, op.now, op.now);
    RotateBalances(sh, v.window, op.now);
  }

  /** Once rotated they hold the same generations and have evicted the same number. */
  lemma AlikeRotated(sh: Shape, v: Shard, w: Shard, now: nat)
    requires Alike(sh, v, w, now)
    ensures Agree(sh, Rotate(sh, v.window, now), Rotate(sh, w.window, now))
    ensures v.evictions + Dropped(sh, v.window, now) == w.evictions + Dropped(sh, w.window, now)
  {
    JumpIsStepwise(sh, v.window, now);
    JumpIsStepwise(sh, w.window, now);
    RotateBalances(sh, v.window, now);
    RotateBalances(sh, w.window, now);
  }

  lemma AlikeNote(sh: Shape, route: Route, v: Shard, w: Shard, op: Op)
    requires Alike(sh, v, w, op.now) && Routes(sh, route) && op.Note? && op.now >= 1
    ensures Alike(sh, Apply(sh, route, v, op), Apply(sh, route, w, op), op.now)
  {
    hide Similar, Rotate, Dropped;
    var spot := route(op.key);
    AlikeRotated(sh, v, w, op.now);
    SimilarActs(sh, v.window, w.window, spot, op.key, op.bits, op.now);
    assert Record(sh, v.window, spot, op.key, op.bits, op.now).gens ==
           Record(sh, w.window, spot, op.key, op.bits, op.now).gens;
  }

  // ---------- the index ----------

  ghost predicate AlikeIndex(x: Index, y: Index, now: nat) {
    && Fit(x) && Fit(y) && x.geo == y.geo && x.populated == y.populated
    && forall s :: 0 <= s < x.geo.shards ==> Alike(ShardShape(x.geo, s), x.shards[s], y.shards[s], now)
  }

  lemma AlikeIndexLater(x: Index, y: Index, t: nat, now: nat)
    requires AlikeIndex(x, y, t) && t <= now < U64_MAX
    ensures AlikeIndex(x, y, now)
  {
    forall s | 0 <= s < x.geo.shards
      ensures Alike(ShardShape(x.geo, s), x.shards[s], y.shards[s], now)
    {
      AlikeLater(ShardShape(x.geo, s), x.shards[s], y.shards[s], t, now);
    }
  }

  lemma AlikeWhenRead(h: Hasher, x: Index, y: Index, op: Op)
    requires AlikeIndex(x, y, op.now) && !op.Note?
    ensures AlikeIndex(ApplyIndex(h, x, op), y, op.now)
  {
    hide Alike, Apply;
    forall s | 0 <= s < x.geo.shards
      ensures Alike(ShardShape(x.geo, s), ApplyIndex(h, x, op).shards[s], y.shards[s], op.now)
    {
      StepOfShard(h, x, op, s);
      assert Alike(ShardShape(x.geo, s), x.shards[s], y.shards[s], op.now);
      AlikeRead(ShardShape(x.geo, s), RouteIn(x.geo, h, s), x.shards[s], y.shards[s], op);
    }
  }

  lemma AlikeWhenNoted(h: Hasher, x: Index, y: Index, op: Op)
    requires AlikeIndex(x, y, op.now) && op.Note? && op.now >= 1
    ensures AlikeIndex(ApplyIndex(h, x, op), ApplyIndex(h, y, op), op.now)
  {
    hide Alike, Apply;
    forall s | 0 <= s < x.geo.shards
      ensures Alike(ShardShape(x.geo, s), ApplyIndex(h, x, op).shards[s], ApplyIndex(h, y, op).shards[s], op.now)
    {
      StepOfShard(h, x, op, s);
      StepOfShard(h, y, op, s);
      assert Alike(ShardShape(x.geo, s), x.shards[s], y.shards[s], op.now);
      AlikeNote(ShardShape(x.geo, s), RouteIn(x.geo, h, s), x.shards[s], y.shards[s], op);
    }
  }

  /** A load drops whatever was there. */
  lemma SameWhenLoaded<P>(x: Index, y: Index, table: seq<P>, stored: seq<P>, entries: seq<Entry>, now: u64)
    requires Fit(x) && Fit(y) && x.geo == y.geo && x.populated == y.populated
    requires |table| <= MAX_BACKENDS && |stored| <= MAX_BACKENDS
    ensures RestoreInto(x, table, stored, entries, now) == RestoreInto(y, table, stored, entries, now)
  {
  }

  lemma AlikeItself(x: Index, now: nat)
    requires Fit(x) && now < U64_MAX
    ensures AlikeIndex(x, x, now)
  {
  }

  lemma {:induction false} WritesAlike<P>(h: Hasher, idx: Index, moves: seq<Move<P>>, now: nat)
    requires Fit(idx) && Moves(moves) && Ordered(moves, now)
    ensures AlikeIndex(Play(h, idx, moves), Play(h, idx, Writes(moves)), now)
    decreases |moves|
  {
    hide AlikeIndex, ApplyIndex, RestoreInto;
    if moves == [] {
      AlikeItself(idx, now);
    } else {
      var rest, move := moves[..|moves| - 1], moves[|moves| - 1];
      var time: nat := move.Time();
      WritesAlike(h, idx, rest, time);
      var x, y := Play(h, idx, rest), Play(h, idx, Writes(rest));
      if move.Reads() {
        assert Writes(moves) == Writes(rest);
        AlikeWhenRead(h, x, y, move.op);
      } else {
        assert Writes(moves)[..|Writes(moves)| - 1] == Writes(rest);
        match move
        case Act(op) => AlikeWhenNoted(h, x, y, op);
        case Load(table, stored, entries, at) =>
          assert x.geo == y.geo && x.populated == y.populated by { AlikeFacts(x, y, time); }
          SameWhenLoaded(x, y, table, stored, entries, at);
          AlikeItself(RestoreInto(x, table, stored, entries, at), time);
      }
      AlikeIndexLater(Play(h, idx, moves), Play(h, idx, Writes(moves)), time, now);
    }
  }

  lemma AlikeFacts(x: Index, y: Index, now: nat)
    requires AlikeIndex(x, y, now)
    ensures x.geo == y.geo && x.populated == y.populated
  {
  }

  // ---------- what can be observed ----------

  /** The answer to a lookup, the saved entries, the entry count and the eviction count at `now`. */
  datatype View = View(answer: Mask, saved: seq<Entry>, entries: nat, evictions: nat)

  function Look(h: Hasher, idx: Index, key: Key, now: u64): View
    requires Fit(idx)
  {
    var swept := ApplyIndex(h, idx, Sweep(now));
    View(AnswerIndex(h, idx, key, now), SnapshotOf(h, idx, now), TotalEntries(swept), TotalEvictions(swept))
  }

  lemma {:induction false} SameEntries(x: seq<Shard>, y: seq<Shard>)
    requires |x| == |y| && forall s :: 0 <= s < |x| ==> x[s].window.gens == y[s].window.gens
    ensures ShardsEntries(x) == ShardsEntries(y)
  {
    if x != [] {
      SameEntries(x[..|x| - 1], y[..|y| - 1]);
    }
  }

  lemma AlikeSwept(h: Hasher, x: Index, y: Index, now: u64, s: nat)
    requires AlikeIndex(x, y, now) && s < x.geo.shards
    ensures var x', y' := ApplyIndex(h, x, Sweep(now)).shards[s], ApplyIndex(h, y, Sweep(now)).shards[s];
            x'.window.gens == y'.window.gens && x'.evictions == y'.evictions
  {
    hide Rotate, Dropped, Similar, ApplyIndex;
    StepOfShard(h, x, Sweep(now), s);
    StepOfShard(h, y, Sweep(now), s);
    AlikeRotated(ShardShape(x.geo, s), x.shards[s], y.shards[s], now);
  }

  lemma AlikeAnswers(h: Hasher, x: Index, y: Index, key: Key, now: u64)
    requires AlikeIndex(x, y, now) && now >= 1
    ensures AnswerIndex(h, x, key, now) == AnswerIndex(h, y, key, now)
  {
    hide Similar, Answer, Record;
    var s := ShardOf(x.geo, h(key).hash);
    RoutesIn(x.geo, h, s);
    assert Alike(ShardShape(x.geo, s), x.shards[s], y.shards[s], now);
    SimilarActs(ShardShape(x.geo, s), x.shards[s].window, y.shards[s].window, RouteIn(x.geo, h, s)(key), key,
                NO_SLOTS, now);
  }

  lemma AlikeLooks(h: Hasher, x: Index, y: Index, key: Key, now: u64)
    requires AlikeIndex(x, y, now) && now >= 1
    ensures Look(h, x, key, now) == Look(h, y, key, now)
  {
    hide Alike, ApplyIndex, AnswerIndex, Occupied;
    AlikeAnswers(h, x, y, key, now);
    var x', y' := ApplyIndex(h, x, Sweep(now)), ApplyIndex(h, y, Sweep(now));
    forall s | 0 <= s < x.geo.shards
      ensures x'.shards[s].window.gens == y'.shards[s].window.gens && x'.shards[s].evictions == y'.shards[s].evictions
    {
      AlikeSwept(h, x, y, now, s);
    }
    SameEntries(x'.shards, y'.shards);
    assert EntryCounts(x'.shards) == EntryCounts(y'.shards) && EvictionCounts(x'.shards) == EvictionCounts(y'.shards);
  }

  /**
    Reads are unobservable: start from any index and let two histories insert and load the
    same at the same times.  Whatever lookups, entry counts and snapshots are mixed into
    either, every later lookup gets the same answer, every later save writes the same
    entries, and the entry and eviction counts are the same.
   */
  lemma ReadsAreUnobservable<P>(h: Hasher, idx: Index, busy: seq<Move<P>>, quiet: seq<Move<P>>, key: Key, now: u64)
    requires Fit(idx) && Moves(busy) && Moves(quiet) && Ordered(busy, now) && Ordered(quiet, now)
    requires Writes(busy) == Writes(quiet)
    ensures Look(h, Play(h, idx, busy), key, now) == Look(h, Play(h, idx, quiet), key, now)
  {
    hide Play, Look, AlikeIndex;
    var plain := Play(h, idx, Writes(busy));
    WritesAlike(h, idx, busy, now);
    WritesAlike(h, idx, quiet, now);
    AlikeLooks(h, Play(h, idx, busy), plain, key, now);
    AlikeLooks(h, Play(h, idx, quiet), plain, key, now);
  }
}
