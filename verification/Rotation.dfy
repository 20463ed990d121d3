/**
  The rotating window of generations as a value.

  `Window.gens` lists the generations of one shard by age: index 0 is the generation being
  written, index 1 the one before it, and so on.  Generations that are not live are
  cleared, so they answer nothing.  `next` is the scheduled time of the next rotation,
  0 when nothing is scheduled.  Every operation rotates first.
 */
module Rotation {
  import opened Words
  import opened Blocks

  /** A rotation interval of 0 stores nothing; `U64_MAX` never rotates. */
  datatype Shape = Shape(generations: nat, blocks: nat, interval: u64) {
    predicate Valid() { generations >= 1 }
    predicate Finite() { 0 < interval < U64_MAX }
  }

  /** Rotation interval the index derives from a time to live. */
  function IntervalFor(ttl: u64, generations: nat): u64
    requires generations >= 1
  {
    if ttl == 0 then 0 else if ttl == U64_MAX then U64_MAX else Max(1, ttl / generations)
  }

  datatype Window = Window(gens: seq<Gen>, next: u64)

  /** Where a key lives: its fingerprint and its block within the shard. */
  datatype Spot = Spot(fp: Fingerprint, block: nat)

  ghost predicate Fits(sh: Shape, w: Window) {
    && sh.Valid() && |w.gens| == sh.generations
    && forall a :: 0 <= a < |w.gens| ==> |w.gens[a].blocks| == sh.blocks
  }

  function Fresh(sh: Shape): Window { Window(seq(sh.generations, _ => EmptyGen(sh.blocks)), 0) }

  /** The effect of `r` rotations: `r` cleared generations in front, the oldest `r` gone. */
  function Shift(sh: Shape, gens: seq<Gen>, r: nat): seq<Gen>
    requires r <= |gens|
  {
    seq(r, _ => EmptyGen(sh.blocks)) + gens[..|gens| - r]
  }

  predicate Due(sh: Shape, w: Window, now: nat) {
    sh.blocks != 0 && sh.Finite() && w.next != 0 && w.next <= now
  }

  /** The fast-forward jump: all missed rotations at once, capped at the ring size. */
  function Rotations(sh: Shape, w: Window, now: nat): nat
    requires Due(sh, w, now)
  {
    Min(sh.generations, 1 + (now - w.next) / sh.interval)
  }

  function Rotate(sh: Shape, w: Window, now: nat): Window
    requires |w.gens| == sh.generations
  {
    if sh.blocks == 0 then w
    else if sh.interval == 0 then Fresh(sh)
    else if !Due(sh, w, now) then w
    else
      var r := Rotations(sh, w, now);
      Window(Shift(sh, w.gens, r), SatAdd(w.next, SatMul(r, sh.interval)))
  }

  function Occupied(gens: seq<Gen>): nat {
    Sum(seq(|gens|, a requires 0 <= a < |gens| => gens[a].occupied))
  }

  /** How many held slots a rotation clears. */
  function Dropped(sh: Shape, w: Window, now: nat): nat
    requires |w.gens| == sh.generations
  {
    if sh.blocks == 0 then 0
    else if sh.interval == 0 then Occupied(w.gens)
    else if !Due(sh, w, now) then 0
    else Occupied(w.gens[sh.generations - Rotations(sh, w, now)..])
  }

  /** The first insert after a rotation starts the generation and re-anchors the schedule. */
  function Start(sh: Shape, w: Window, now: u64): Window
    requires |w.gens| > 0
  {
    if w.gens[0].startedAt != 0 then w
    else Window(w.gens[0 := w.gens[0].(startedAt := now)],
                if sh.Finite() then SatAdd(now, sh.interval) else 0)
  }

  predicate Stores(sh: Shape, bits: Mask) { sh.blocks != 0 && bits != NO_SLOTS && sh.interval != 0 }

  function Record(sh: Shape, w: Window, spot: Spot, key: Key, bits: Mask, now: u64): Window
    requires Fits(sh, w) && (sh.blocks != 0 ==> spot.block < sh.blocks)
  {
    var rotated := Rotate(sh, w, now);
    if !Stores(sh, bits) then rotated
    else
      var started := Start(sh, rotated, now);
      started.(gens := started.gens[0 := InsertGen(started.gens[0], spot.fp, key, bits, spot.block)])
  }

  /** What the insertion of `key` at `now` finds in the current generation. */
  function RecordOutcome(sh: Shape, w: Window, spot: Spot, key: Key, now: u64): Outcome
    requires Fits(sh, w) && spot.block < sh.blocks
  {
    OutcomeOf(Rotate(sh, w, now).gens[0].blocks[spot.block], spot.fp, key)
  }

  /** Evictions counted by one insertion: cleared slots plus an overwritten one. */
  function RecordDropped(sh: Shape, w: Window, spot: Spot, key: Key, bits: Mask, now: u64): nat
    requires Fits(sh, w) && (sh.blocks != 0 ==> spot.block < sh.blocks)
  {
    Dropped(sh, w, now)
    + if Stores(sh, bits) && RecordOutcome(sh, w, spot, key, now) == Replaced then 1 else 0
  }

  /** Everything the first `n` generations know about a key at its place. */
  function Gather(gens: seq<Gen>, n: nat, spot: Spot, key: Key): Mask
    requires n <= |gens| && forall a :: 0 <= a < |gens| ==> spot.block < |gens[a].blocks|
  {
    if n == 0 then NO_SLOTS
    else Or(Gather(gens, n - 1, spot, key), LookupBlock(gens[n - 1].blocks[spot.block], spot.fp, key))
  }

  lemma {:induction false} GatherMeans(gens: seq<Gen>, n: nat, spot: Spot, key: Key, p: Slot)
    requires n <= |gens| && forall a :: 0 <= a < |gens| ==> spot.block < |gens[a].blocks|
    ensures Has(Gather(gens, n, spot, key), p) <==>
            exists a :: 0 <= a < n && Finds(gens[a].blocks[spot.block], spot.fp, key, p)
  {
    if n > 0 {
      GatherMeans(gens, n - 1, spot, key, p);
    }
  }

  /** The answer of a lookup: the providers known to be missing the message. */
  function Answer(sh: Shape, w: Window, spot: Spot, key: Key, now: nat): Mask
    requires Fits(sh, w) && (sh.blocks != 0 ==> spot.block < sh.blocks)
  {
    if sh.blocks == 0 then NO_SLOTS else Gather(Rotate(sh, w, now).gens, sh.generations, spot, key)
  }

  lemma AnswersNeedBlocks(sh: Shape, w: Window, spot: Spot, key: Key, now: nat, p: Slot)
    requires Fits(sh, w) && (sh.blocks != 0 ==> spot.block < sh.blocks) && Has(Answer(sh, w, spot, key, now), p)
    ensures sh.blocks != 0
  {
  }

  lemma AnswerMeans(sh: Shape, w: Window, spot: Spot, key: Key, now: nat, p: Slot)
    requires Fits(sh, w) && spot.block < sh.blocks
    ensures Has(Answer(sh, w, spot, key, now), p) <==>
            var gens := Rotate(sh, w, now).gens;
            exists a :: 0 <= a < sh.generations && Finds(gens[a].blocks[spot.block], spot.fp, key, p)
  {
    GatherMeans(Rotate(sh, w, now).gens, sh.generations, spot, key, p);
  }

  // ---------- runs of one shard ----------

  /** A shard: its window and the evictions it has counted. */
  datatype Shard = Shard(window: Window, evictions: nat)

  /** `Sweep` is an entry count or a snapshot: it rotates and changes nothing else. */
  datatype Op =
    | Note(key: Key, bits: Mask, now: u64)
    | Lookup(key: Key, now: u64)
    | Sweep(now: u64)

  type Route = Key -> Spot

  ghost predicate Routes(sh: Shape, route: Route) {
    sh.blocks != 0 ==> forall k :: route(k).block < sh.blocks
  }

  function Apply(sh: Shape, route: Route, s: Shard, op: Op): (s': Shard)
    requires Fits(sh, s.window) && Routes(sh, route)
    ensures Fits(sh, s'.window)
  {
    match op
    case Note(key, bits, now) =>
      Shard(Record(sh, s.window, route(key), key, bits, now),
            s.evictions + RecordDropped(sh, s.window, route(key), key, bits, now))
    case Lookup(_, _) =>
      Shard(Rotate(sh, s.window, op.now), s.evictions + Dropped(sh, s.window, op.now))
    case Sweep(_) =>
      Shard(Rotate(sh, s.window, op.now), s.evictions + Dropped(sh, s.window, op.now))
  }

  function Run(sh: Shape, route: Route, s: Shard, ops: seq<Op>): (s': Shard)
    requires Fits(sh, s.window) && Routes(sh, route)
    ensures Fits(sh, s'.window)
  {
    if ops == [] then s
    else Apply(sh, route, Run(sh, route, s, ops[..|ops| - 1]), ops[|ops| - 1])
  }

  lemma RunAppend(sh: Shape, route: Route, s: Shard, ops: seq<Op>, op: Op)
    requires Fits(sh, s.window) && Routes(sh, route)
    ensures Run(sh, route, s, ops + [op]) == Apply(sh, route, Run(sh, route, s, ops), op)
  {
    assert (ops + [op])[..|ops|] == ops;
  }

  function New(sh: Shape): Shard { Shard(Fresh(sh), 0) }

  /** Clock readings are at least 1, before the last representable one, and do not go back. */
  ghost predicate Timely(ops: seq<Op>, now: nat) {
    && 1 <= now < U64_MAX
    && (forall i :: 0 <= i < |ops| ==> 1 <= ops[i].now <= now)
    && (forall i, j :: 0 <= i < j < |ops| ==> ops[i].now <= ops[j].now)
  }

  // ---------- conservation ----------

  /** Insertions that took a slot: neither ignored nor merged into an existing entry. */
  ghost function Stored(sh: Shape, route: Route, s: Shard, ops: seq<Op>): nat
    requires Fits(sh, s.window) && Routes(sh, route)
  {
    if ops == [] then 0
    else
      var before := Run(sh, route, s, ops[..|ops| - 1]).window;
      var op := ops[|ops| - 1];
      Stored(sh, route, s, ops[..|ops| - 1])
      + if op.Note? && Stores(sh, op.bits)
           && RecordOutcome(sh, before, route(op.key), op.key, op.now) != Updated then 1 else 0
  }

  /** The counters say what the slots say, and an unstarted generation is cleared. */
  ghost predicate Counted(sh: Shape, w: Window) {
    forall a :: 0 <= a < |w.gens| ==>
      && w.gens[a].occupied == CountHeld(w.gens[a].blocks)
      && (w.gens[a].startedAt == 0 ==> w.gens[a] == EmptyGen(sh.blocks))
  }

  lemma OccupiedConcat(x: seq<Gen>, y: seq<Gen>)
    ensures Occupied(x + y) == Occupied(x) + Occupied(y)
  {
    var f := (gens: seq<Gen>) => seq(|gens|, a requires 0 <= a < |gens| => gens[a].occupied);
    SumConcat(f(x), f(y));
    assert f(x + y) == f(x) + f(y);
  }

  lemma OccupiedAt(gens: seq<Gen>, i: nat)
    requires i < |gens|
    ensures Occupied(gens[..i + 1]) == Occupied(gens[..i]) + gens[i].occupied
    ensures Occupied(gens[i..]) == gens[i].occupied + Occupied(gens[i + 1..])
  {
    assert gens[..i + 1] == gens[..i] + [gens[i]] && gens[i..] == [gens[i]] + gens[i + 1..];
    OccupiedConcat(gens[..i], [gens[i]]);
    OccupiedConcat([gens[i]], gens[i + 1..]);
    assert seq(1, a requires 0 <= a < 1 => [gens[i]][a].occupied) == [gens[i].occupied];
    assert Sum([gens[i].occupied]) == gens[i].occupied;
  }

  lemma OccupiedEmpty(sh: Shape, n: nat)
    ensures Occupied(seq(n, _ => EmptyGen(sh.blocks))) == 0
  {
    SumOfZeros(n);
    var gens := seq(n, _ => EmptyGen(sh.blocks));
    assert seq(|gens|, a requires 0 <= a < |gens| => gens[a].occupied) == seq(n, _ => 0);
  }

  lemma OccupiedUpdate(gens: seq<Gen>, i: nat, g: Gen)
    requires i < |gens|
    ensures Occupied(gens[i := g]) == Occupied(gens) - gens[i].occupied + g.occupied
  {
    var counts := seq(|gens|, a requires 0 <= a < |gens| => gens[a].occupied);
    var updated := gens[i := g];
    SumUpdate(counts, i, g.occupied);
    assert seq(|updated|, a requires 0 <= a < |updated| => updated[a].occupied) == counts[i := g.occupied];
  }

  /** What a rotation clears is what the counters lose. */
  lemma RotateBalances(sh: Shape, w: Window, now: nat)
    requires Fits(sh, w)
    ensures Fits(sh, Rotate(sh, w, now))
    ensures Occupied(w.gens) == Occupied(Rotate(sh, w, now).gens) + Dropped(sh, w, now)
  {
    OccupiedEmpty(sh, sh.generations);
    if Due(sh, w, now) {
      var r := Rotations(sh, w, now);
      OccupiedEmpty(sh, r);
      var keep := sh.generations - r;
      OccupiedConcat(seq(r, _ => EmptyGen(sh.blocks)), w.gens[..keep]);
      OccupiedConcat(w.gens[..keep], w.gens[keep..]);
      assert w.gens[..keep] + w.gens[keep..] == w.gens;
    }
  }

  lemma RotateConserves(sh: Shape, w: Window, now: nat)
    requires Fits(sh, w) && Counted(sh, w)
    ensures Fits(sh, Rotate(sh, w, now)) && Counted(sh, Rotate(sh, w, now))
    ensures Occupied(w.gens) == Occupied(Rotate(sh, w, now).gens) + Dropped(sh, w, now)
  {
    CountEmpty(sh.blocks);
    RotateBalances(sh, w, now);
  }

  lemma RecordConserves(sh: Shape, w: Window, spot: Spot, key: Key, bits: Mask, now: u64)
    requires Fits(sh, w) && Counted(sh, w) && now >= 1 && (sh.blocks != 0 ==> spot.block < sh.blocks)
    ensures var w' := Record(sh, w, spot, key, bits, now);
            && Fits(sh, w') && Counted(sh, w')
            && Occupied(w.gens)
               + (if Stores(sh, bits) && RecordOutcome(sh, w, spot, key, now) != Updated then 1 else 0)
               == Occupied(w'.gens) + RecordDropped(sh, w, spot, key, bits, now)
  {
    RotateConserves(sh, w, now);
    if Stores(sh, bits) {
      var started := Start(sh, Rotate(sh, w, now), now);
      CountEmpty(sh.blocks);
      InsertGenCounts(started.gens[0], spot.fp, key, bits, spot.block);
      OccupiedUpdate(Rotate(sh, w, now).gens, 0, InsertGen(started.gens[0], spot.fp, key, bits, spot.block));
      assert Record(sh, w, spot, key, bits, now).gens ==
             Rotate(sh, w, now).gens[0 := InsertGen(started.gens[0], spot.fp, key, bits, spot.block)];
    }
  }

  /** A new shard is counted and balanced. */
  lemma NewIsCounted(sh: Shape)
    requires sh.Valid()
    ensures Counted(sh, Fresh(sh)) && Occupied(Fresh(sh).gens) == 0
  {
    CountEmpty(sh.blocks);
    OccupiedEmpty(sh, sh.generations);
  }

  /**
    Conservation: whatever counted state a shard starts from, new or restored, every run adds
    the insertions that took a slot to the occupied slots plus the counted evictions, each
    generation's counter stays its number of held slots, and a generation that has not
    started is completely cleared.
   */
  lemma {:induction false} Conservation(sh: Shape, route: Route, s: Shard, ops: seq<Op>, now: nat)
    requires Fits(sh, s.window) && Counted(sh, s.window) && Routes(sh, route) && Timely(ops, now)
    ensures var s' := Run(sh, route, s, ops);
            && Counted(sh, s'.window)
            && Stored(sh, route, s, ops) + Occupied(s.window.gens) + s.evictions ==
               Occupied(s'.window.gens) + s'.evictions
    decreases |ops|
  {
    if ops != [] {
      var rest, op := ops[..|ops| - 1], ops[|ops| - 1];
      Conservation(sh, route, s, rest, now);
      var before := Run(sh, route, s, rest).window;
      match op
      case Note(key, bits, at) => RecordConserves(sh, before, route(key), key, bits, at);
      case Lookup(_, _) => RotateConserves(sh, before, op.now);
      case Sweep(_) => RotateConserves(sh, before, op.now);
    }
  }

  /** A fresh shard does not rotate. */
  lemma FreshIsStill(sh: Shape, now: nat)
    requires sh.Valid()
    ensures Rotate(sh, Fresh(sh), now) == Fresh(sh) && Dropped(sh, Fresh(sh), now) == 0
  {
    OccupiedEmpty(sh, sh.generations);
  }

  lemma FreshAnswers(sh: Shape, spot: Spot, key: Key, now: nat)
    requires sh.Valid() && (sh.blocks != 0 ==> spot.block < sh.blocks)
    ensures Answer(sh, Fresh(sh), spot, key, now) == NO_SLOTS
  {
    var answer := Answer(sh, Fresh(sh), spot, key, now);
    FreshIsStill(sh, now);
    forall p | 0 <= p < MAX_BACKENDS && sh.blocks != 0
      ensures !answer[p]
    {
      AnswerMeans(sh, Fresh(sh), spot, key, now, p);
      assert Has(answer, p) == answer[p];
    }
  }
}
