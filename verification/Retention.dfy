/**
  How long a recorded miss is remembered.

  With G generations and a rotation interval I, a miss is kept for at least (G-1)*I and
  for less than G*I + (G-1)*(I-1).  The second summand is there because the first insert
  after a rotation re-anchors the schedule; an adversarial run shows that the bound cannot
  be improved, so the time to live is respected by every run exactly when the bound does
  not exceed it.
 */
module Retention {
  import opened Words
  import opened Blocks
  import opened Rotation
  import opened Evidence

  // ---------- upper bound ----------

  /** How long after the start of a generation of age `a` the next rotation can be due. */
  function Reach(sh: Shape, a: nat): nat
    requires sh.Finite()
  {
    if a == 0 then sh.interval else Reach(sh, a - 1) + 2 * sh.interval - 1
  }

  lemma {:induction false} ReachInClosedForm(sh: Shape, a: nat)
    requires sh.Finite()
    ensures Reach(sh, a) == sh.interval + a * (2 * sh.interval - 1)
  {
    if a > 0 {
      ReachInClosedForm(sh, a - 1);
      var d: nat := 2 * sh.interval - 1;
      assert a * d == (a - 1) * d + d;
    }
  }

  function Product(a: nat, b: nat): nat { a * b }

  /** G*I + (G-1)*(I-1). */
  function Bound(sh: Shape): nat
    requires sh.Finite() && sh.Valid()
  {
    var g: nat, i: nat := sh.generations, sh.interval;
    g * i + Product(g - 1, i - 1)
  }

  lemma BoundIsReach(sh: Shape)
    requires sh.Finite() && sh.Valid()
    ensures Bound(sh) == Reach(sh, sh.generations - 1)
    ensures forall a :: 0 <= a < sh.generations ==> Reach(sh, a) <= Bound(sh)
  {
    var g: nat, d: nat := sh.generations - 1, sh.interval - 1;
    ReachInClosedForm(sh, g);
    assert (g + 1) * (d + 1) + g * d == d + 1 + g * (2 * (d + 1) - 1);
    forall a | 0 <= a <= g
      ensures Reach(sh, a) <= Reach(sh, g)
    {
      ReachGrows(sh, a, g);
    }
  }

  lemma {:induction false} ReachGrows(sh: Shape, a: nat, b: nat)
    requires sh.Finite() && a <= b
    ensures Reach(sh, a) <= Reach(sh, b)
  {
    if a < b {
      ReachGrows(sh, a, b - 1);
    }
  }

  /** The slack an insert can still use up: none once the current generation has started. */
  function Slack(sh: Shape, w: Window): nat
    requires sh.Finite() && |w.gens| > 0
  {
    if w.gens[0].startedAt == 0 then sh.interval - 1 else 0
  }

  /** The next rotation is due within the reach of the generation of age `a`. */
  ghost predicate InReach(sh: Shape, w: Window, a: nat)
    requires sh.Finite() && Fits(sh, w) && a < |w.gens|
  {
    w.next + Slack(sh, w) <= w.gens[a].startedAt + Reach(sh, a)
  }

  ghost predicate Scheduled(sh: Shape, w: Window)
    requires sh.Finite() && Fits(sh, w)
  {
    forall a :: 0 <= a < |w.gens| && w.gens[a].startedAt != 0 ==> w.next != 0 && InReach(sh, w, a)
  }

  /** After a rotation the schedule lies ahead, or nothing is left. */
  lemma RotateCatchesUp(sh: Shape, w: Window, now: nat)
    requires Fits(sh, w) && sh.Finite() && sh.blocks != 0 && now < U64_MAX
    ensures var w' := Rotate(sh, w, now);
            w'.next == 0 || now < w'.next || w'.gens == Fresh(sh).gens
  {
    if Due(sh, w, now) {
      var q := (now - w.next) / sh.interval;
      assert now - w.next == q * sh.interval + (now - w.next) % sh.interval;
      assert (1 + q) * sh.interval == q * sh.interval + sh.interval;
    }
  }

  lemma ReachShifts(sh: Shape, a: nat, r: nat)
    requires sh.Finite() && r >= 1
    ensures Reach(sh, a) + r * sh.interval + (sh.interval - 1) <= Reach(sh, a + r)
  {
    if r == 1 {
    } else {
      ReachShifts(sh, a, r - 1);
      assert r * sh.interval == (r - 1) * sh.interval + sh.interval;
    }
  }

  /** What a due rotation does to the schedule: at least one shift, one interval later for each. */
  lemma RotateShifts(sh: Shape, w: Window, now: nat)
    requires Fits(sh, w) && Due(sh, w, now)
    ensures var w', r := Rotate(sh, w, now), Rotations(sh, w, now);
            && Fits(sh, w') && 1 <= r <= sh.generations && w'.next != 0 && w'.next <= w.next + r * sh.interval
            && (forall a :: 0 <= a < r ==> w'.gens[a] == EmptyGen(sh.blocks))
            && (forall a :: r <= a < |w'.gens| ==> w'.gens[a] == w.gens[a - r])
  {
  }

  lemma InReachRotate(sh: Shape, w: Window, now: nat, a: nat, b: nat)
    requires Fits(sh, w) && Due(sh, w, now) && a + Rotations(sh, w, now) == b < |w.gens| && InReach(sh, w, a)
    ensures Fits(sh, Rotate(sh, w, now)) && InReach(sh, Rotate(sh, w, now), b)
  {
    RotateShifts(sh, w, now);
    ReachShifts(sh, a, Rotations(sh, w, now));
  }

  lemma ScheduledRotate(sh: Shape, w: Window, now: nat)
    requires Fits(sh, w) && sh.Finite() && Scheduled(sh, w)
    ensures Scheduled(sh, Rotate(sh, w, now))
  {
    if Due(sh, w, now) {
      hide Rotate, InReach;
      RotateShifts(sh, w, now);
      var w', r := Rotate(sh, w, now), Rotations(sh, w, now);
      forall a | 0 <= a < |w'.gens| && w'.gens[a].startedAt != 0
        ensures InReach(sh, w', a)
      {
        assert a >= r && w'.gens[a] == w.gens[a - r];
        InReachRotate(sh, w, now, a - r, a);
      }
    }
  }

  lemma ScheduledRecord(sh: Shape, w: Window, spot: Spot, key: Key, bits: Mask, now: u64)
    requires Fits(sh, w) && sh.Finite() && Scheduled(sh, w) && spot.block < sh.blocks
    requires 1 <= now < U64_MAX
    ensures Scheduled(sh, Record(sh, w, spot, key, bits, now))
  {
    ScheduledRotate(sh, w, now);
    RotateCatchesUp(sh, w, now);
  }

  ghost function SlotNames(): seq<nat> { seq(MAX_BACKENDS, i => i) }

  /** The observations made by a history. */
  ghost function Noted(ops: seq<Op>): iset<Obs<nat>> {
    if ops == [] then iset{}
    else
      var op := ops[|ops| - 1];
      Noted(ops[..|ops| - 1]) + if op.Note? then Observations(SlotNames(), op.key, op.bits, op.now) else iset{}
  }

  /** The history records a miss of `key` by slot `p`, less than `age` before `now`. */
  ghost predicate NotedWithin(ops: seq<Op>, key: Key, p: Slot, now: nat, age: nat) {
    exists i :: 0 <= i < |ops| && ops[i].Note? && ops[i].key == key && Has(ops[i].bits, p) && now < ops[i].now + age
  }

  lemma {:induction false} NotedMeans(ops: seq<Op>, o: Obs<nat>)
    requires o in Noted(ops)
    ensures o.who < MAX_BACKENDS
    ensures exists i :: 0 <= i < |ops| && ops[i].Note? && ops[i].key == o.key
                        && Has(ops[i].bits, o.who) && ops[i].now == o.time
  {
    var rest := ops[..|ops| - 1];
    if o in Noted(rest) {
      NotedMeans(rest, o);
      var i :| 0 <= i < |rest| && rest[i].Note? && rest[i].key == o.key && Has(rest[i].bits, o.who)
               && rest[i].now == o.time;
      assert ops[i] == rest[i];
    } else {
      assert o in Observations(SlotNames(), ops[|ops| - 1].key, ops[|ops| - 1].bits, ops[|ops| - 1].now);
    }
  }

  lemma {:induction false} RunInvariant(sh: Shape, route: Route, ops: seq<Op>, now: nat)
    requires sh.Valid() && Routes(sh, route) && Timely(ops, now)
    ensures var w := Run(sh, route, New(sh), ops).window;
            && Backed(SlotNames(), w, Noted(ops)) && StartedBy(w, now)
            && (sh.Finite() ==> Scheduled(sh, w))
    decreases |ops|
  {
    if ops != [] {
      var rest, op := ops[..|ops| - 1], ops[|ops| - 1];
      RunInvariant(sh, route, rest, op.now);
      var w := Run(sh, route, New(sh), rest).window;
      if op.Note? {
        BackedRecord(sh, SlotNames(), w, Noted(rest), route(op.key), op.key, op.bits, op.now);
        if sh.Finite() {
          if sh.blocks != 0 {
            ScheduledRecord(sh, w, route(op.key), op.key, op.bits, op.now);
          }
        }
      } else {
        BackedRotate(sh, SlotNames(), w, Noted(rest), op.now);
        if sh.Finite() {
          ScheduledRotate(sh, w, op.now);
        }
      }
    }
  }

  /** Whatever a window holds after a rotation at `now` started less than its reach ago. */
  lemma HeldIsRecent(sh: Shape, w: Window, now: nat, a: nat)
    requires Fits(sh, w) && sh.Finite() && sh.blocks != 0 && Scheduled(sh, w) && now < U64_MAX
    requires a < sh.generations && Rotate(sh, w, now).gens[a].startedAt != 0
    ensures now < Rotate(sh, w, now).gens[a].startedAt + Reach(sh, a)
  {
    ScheduledRotate(sh, w, now);
    RotateCatchesUp(sh, w, now);
  }

  /** A lookup never answers a provider for which no miss of exactly this key was recorded. */
  lemma AnswerWasNoted(sh: Shape, route: Route, ops: seq<Op>, key: Key, p: Slot, now: nat) returns (a: nat, o: Obs<nat>)
    requires sh.Valid() && Routes(sh, route) && Timely(ops, now)
    requires Has(Answer(sh, Run(sh, route, New(sh), ops).window, route(key), key, now), p)
    ensures o in Noted(ops) && o.key == key && o.who == p
    ensures a < sh.generations
    ensures sh.Finite() ==> now < o.time + Reach(sh, a)
  {
    hide Answer, Run, Rotate, Noted, Scheduled, Reach, LookupBlock;
    RunInvariant(sh, route, ops, now);
    var w, spot := Run(sh, route, New(sh), ops).window, route(key);
    AnswersNeedBlocks(sh, w, spot, key, now, p);
    AnswerMeans(sh, w, spot, key, now, p);
    RotateBalances(sh, w, now);
    var r := Rotate(sh, w, now);
    a :| 0 <= a < sh.generations && Finds(r.gens[a].blocks[spot.block], spot.fp, key, p);
    BackedRotate(sh, SlotNames(), w, Noted(ops), now);
    FindsMeans(r.gens[a].blocks[spot.block], spot.fp, key, p);
    o :| o in Noted(ops) && o.key == key && o.who == SlotNames()[p] && o.time >= r.gens[a].startedAt;
    if sh.Finite() {
      HeldIsRecent(sh, w, now, a);
    }
  }

  /**
    Retention upper bound: a lookup answers a provider only if a miss of this key by this
    provider was recorded less than G*I + (G-1)*(I-1) ago.
   */
  lemma RetentionUpperBound(sh: Shape, route: Route, ops: seq<Op>, key: Key, p: Slot, now: nat)
    requires sh.Valid() && sh.Finite() && Routes(sh, route) && Timely(ops, now)
    requires Has(Answer(sh, Run(sh, route, New(sh), ops).window, route(key), key, now), p)
    ensures NotedWithin(ops, key, p, now, Bound(sh))
  {
    var a, o := AnswerWasNoted(sh, route, ops, key, p, now);
    NotedMeans(ops, o);
    BoundIsReach(sh);
  }

  // ---------- the bound is tight ----------

  /** The latest possible time of rotation `j + 1` after a first insert at `t`. */
  function Latest(sh: Shape, t: nat, j: nat): nat
    requires sh.Finite()
  {
    t + Reach(sh, j)
  }

  /** The miss sits in the generation of age `j` and the next rotation is due at `next`. */
  ghost predicate Poised(sh: Shape, w: Window, spot: Spot, key: Key, p: Slot, j: nat, next: nat) {
    && Fits(sh, w) && j < sh.generations && spot.block < sh.blocks && w.next == next
    && Finds(w.gens[j].blocks[spot.block], spot.fp, key, p)
  }

  lemma FirstNote(sh: Shape, spot: Spot, key: Key, p: Slot, t: u64)
    requires sh.Valid() && sh.Finite() && spot.block < sh.blocks
    ensures Poised(sh, Record(sh, Fresh(sh), spot, key, Bit(p), t), spot, key, p, 0, SatAdd(t, sh.interval))
  {
    InsertFinds(EMPTY_BLOCK, spot.fp, key, Bit(p), p);
  }

  /** A note within the interval after a rotation ages everything by one and re-anchors the schedule. */
  lemma LateMoment(sh: Shape, w: Window, spot: Spot, key: Key, p: Slot, q: Slot, j: nat, k: nat, prev: nat, now: u64)
    requires Fits(sh, w) && sh.Finite() && spot.block < sh.blocks && k == j + 1 < sh.generations
    requires 1 <= prev <= now < prev + sh.interval && now < U64_MAX
    requires Poised(sh, w, spot, key, p, j, prev)
    ensures Poised(sh, Record(sh, w, spot, key, Bit(q), now), spot, key, p, k, SatAdd(now, sh.interval))
  {
    QuotientIs(now - w.next, sh.interval, 0);
    assert Rotations(sh, w, now) == 1;
    assert Rotate(sh, w, now).gens[k] == w.gens[j];
    assert Has(Bit(q), q);
  }

  /** The history is a miss of `key` by `p` at `t`, followed by misses by `q`. */
  ghost predicate NotedOnce(ops: seq<Op>, key: Key, p: Slot, q: Slot, t: nat) {
    && |ops| > 0 && ops[0].now == t && ops[0] == Note(key, Bit(p), ops[0].now)
    && forall i :: 0 < i < |ops| ==> ops[i] == Note(key, Bit(q), ops[i].now)
  }

  /** After `ops` the only miss by `p`, noted at `t`, has age `j` and rotates as late as it can. */
  ghost predicate Stretched(sh: Shape, route: Route, ops: seq<Op>, key: Key, p: Slot, q: Slot, t: nat, j: nat)
    requires sh.Valid() && sh.Finite() && Routes(sh, route)
  {
    && Poised(sh, Run(sh, route, New(sh), ops).window, route(key), key, p, j, Latest(sh, t, j))
    && Timely(ops, Latest(sh, t, j) - sh.interval) && NotedOnce(ops, key, p, q, t)
  }

  lemma StretchedFirst(sh: Shape, route: Route, key: Key, p: Slot, q: Slot, t: u64)
    requires sh.Valid() && sh.Finite() && sh.blocks != 0 && Routes(sh, route)
    requires 1 <= t && Latest(sh, t, 0) < U64_MAX
    ensures Stretched(sh, route, [Note(key, Bit(p), t)], key, p, q, t, 0)
  {
    assert [] + [Note(key, Bit(p), t)] == [Note(key, Bit(p), t)];
    RunAppend(sh, route, New(sh), [], Note(key, Bit(p), t));
    FirstNote(sh, route(key), key, p, t);
  }

  lemma MoreOps(ops: seq<Op>, op: Op, key: Key, p: Slot, q: Slot, t: nat, clock: nat)
    requires Timely(ops, clock) && NotedOnce(ops, key, p, q, t) && clock <= op.now < U64_MAX
    requires op == Note(key, Bit(q), op.now)
    ensures Timely(ops + [op], op.now) && NotedOnce(ops + [op], key, p, q, t)
  {
  }

  lemma StretchedMore(sh: Shape, route: Route, ops: seq<Op>, key: Key, p: Slot, q: Slot, t: u64, j: nat, k: nat,
                      now: u64)
    requires sh.Valid() && sh.Finite() && sh.blocks != 0 && Routes(sh, route) && k == j + 1 < sh.generations
    requires 1 <= t && now + sh.interval == Latest(sh, t, k) < U64_MAX && p != q
    requires Stretched(sh, route, ops, key, p, q, t, j)
    ensures Stretched(sh, route, ops + [Note(key, Bit(q), now)], key, p, q, t, k)
  {
    hide Record, Poised, Timely, NotedOnce, Run;
    RunAppend(sh, route, New(sh), ops, Note(key, Bit(q), now));
    MoreOps(ops, Note(key, Bit(q), now), key, p, q, t, Latest(sh, t, j) - sh.interval);
    LateMoment(sh, Run(sh, route, New(sh), ops).window, route(key), key, p, q, j, k, Latest(sh, t, j), now);
  }

  /** One miss by `p`, then a miss by `q` at the last moment of each of the next `j` intervals. */
  lemma {:induction false} Adversary(sh: Shape, route: Route, key: Key, p: Slot, q: Slot, t: u64, j: nat)
    returns (ops: seq<Op>)
    requires sh.Valid() && sh.Finite() && sh.blocks != 0 && Routes(sh, route) && j < sh.generations
    requires 1 <= t && Latest(sh, t, j) < U64_MAX && p != q
    ensures Stretched(sh, route, ops, key, p, q, t, j)
    decreases j
  {
    if j == 0 {
      ops := [Note(key, Bit(p), t)];
      StretchedFirst(sh, route, key, p, q, t);
    } else {
      var rest := Adversary(sh, route, key, p, q, t, j - 1);
      var now := Latest(sh, t, j) - sh.interval;
      ops := rest + [Note(key, Bit(q), now)];
      StretchedMore(sh, route, rest, key, p, q, t, j - 1, j, now);
    }
  }

  /** The youngest age class that can last longer than `age`. */
  function Lasting(sh: Shape, age: nat, j: nat): (k: nat)
    requires sh.Finite() && Reach(sh, j) > age
    ensures k <= j && Reach(sh, k) > age && (k > 0 ==> Reach(sh, k - 1) <= age)
  {
    if j > 0 && Reach(sh, j - 1) > age then Lasting(sh, age, j - 1) else j
  }

  /** A window that does not rotate before `now` still answers the miss. */
  lemma PoisedAnswers(sh: Shape, w: Window, spot: Spot, key: Key, p: Slot, j: nat, next: nat, now: nat)
    requires Poised(sh, w, spot, key, p, j, next) && sh.Finite() && now < next
    ensures Has(Answer(sh, w, spot, key, now), p)
  {
    assert Rotate(sh, w, now) == w;
    AnswerMeans(sh, w, spot, key, now, p);
  }

  /** A run in which a miss is still answered `age` after it was recorded, for every age below the bound. */
  lemma AnsweredAt(sh: Shape, route: Route, key: Key, p: Slot, q: Slot, t: u64, age: nat) returns (ops: seq<Op>)
    requires sh.Valid() && sh.Finite() && sh.blocks != 0 && Routes(sh, route)
    requires 1 <= t && t + age < U64_MAX && age < Bound(sh) && p != q
    ensures Timely(ops, t + age) && NotedOnce(ops, key, p, q, t)
    ensures Has(Answer(sh, Run(sh, route, New(sh), ops).window, route(key), key, t + age), p)
  {
    hide Bound, Answer, Run, Poised, Timely, NotedOnce;
    BoundIsReach(sh);
    var j := Lasting(sh, age, sh.generations - 1);
    if j == 0 {
      ops := AnsweredAtOnce(sh, route, key, p, q, t, age);
    } else {
      var rest := Adversary(sh, route, key, p, q, t, j - 1);
      ops := AnsweredAtLast(sh, route, rest, key, p, q, t, j - 1, j, age);
    }
  }

  lemma AnsweredAtOnce(sh: Shape, route: Route, key: Key, p: Slot, q: Slot, t: u64, age: nat) returns (ops: seq<Op>)
    requires sh.Valid() && sh.Finite() && sh.blocks != 0 && Routes(sh, route)
    requires 1 <= t && t + age < U64_MAX && age < sh.interval
    ensures Timely(ops, t + age) && NotedOnce(ops, key, p, q, t)
    ensures Has(Answer(sh, Run(sh, route, New(sh), ops).window, route(key), key, t + age), p)
  {
    hide Answer, Record, Poised;
    ops := [Note(key, Bit(p), t)];
    assert [] + ops == ops && Has(Bit(p), p);
    RunAppend(sh, route, New(sh), [], ops[0]);
    FirstNote(sh, route(key), key, p, t);
    PoisedAnswers(sh, Run(sh, route, New(sh), ops).window, route(key), key, p, 0, SatAdd(t, sh.interval), t + age);
  }

  /** The last note of the adversary, if need be at the very end. */
  lemma AnsweredAtLast(sh: Shape, route: Route, rest: seq<Op>, key: Key, p: Slot, q: Slot, t: u64, j: nat, k: nat,
                       age: nat) returns (ops: seq<Op>)
    requires sh.Valid() && sh.Finite() && sh.blocks != 0 && Routes(sh, route) && k == j + 1 < sh.generations
    requires 1 <= t && t + age < U64_MAX && p != q && Stretched(sh, route, rest, key, p, q, t, j)
    requires Reach(sh, j) <= age < Reach(sh, k)
    ensures Timely(ops, t + age) && NotedOnce(ops, key, p, q, t)
    ensures Has(Answer(sh, Run(sh, route, New(sh), ops).window, route(key), key, t + age), p)
  {
    hide Answer, Record, Poised;
    var prev := Latest(sh, t, j);
    var now := Min(prev + sh.interval - 1, t + age);
    ops := rest + [Note(key, Bit(q), now)];
    assert Has(Bit(q), q);
    RunAppend(sh, route, New(sh), rest, Note(key, Bit(q), now));
    MoreOps(rest, Note(key, Bit(q), now), key, p, q, t, prev - sh.interval);
    LateMoment(sh, Run(sh, route, New(sh), rest).window, route(key), key, p, q, j, k, prev, now);
    PoisedAnswers(sh, Run(sh, route, New(sh), ops).window, route(key), key, p, k, SatAdd(now, sh.interval), t + age);
  }

  /** A run in which a miss is still answered `Bound - 1` after it was recorded, for every G and I. */
  lemma BoundIsTight(sh: Shape, route: Route, key: Key, p: Slot, q: Slot, t: u64) returns (ops: seq<Op>, now: nat)
    requires sh.Valid() && sh.Finite() && sh.blocks != 0 && Routes(sh, route)
    requires 1 <= t && t + Bound(sh) <= U64_MAX && p != q
    ensures now == t + Bound(sh) - 1 && Timely(ops, now) && NotedOnce(ops, key, p, q, t)
    ensures Has(Answer(sh, Run(sh, route, New(sh), ops).window, route(key), key, now), p)
  {
    BoundIsReach(sh);
    now := t + Bound(sh) - 1;
    ops := AnsweredAt(sh, route, key, p, q, t, Bound(sh) - 1);
  }

  /** `age` bounds the age of every answered miss, in every run. */
  ghost predicate AlwaysWithin(sh: Shape, route: Route, age: nat)
    requires sh.Valid() && Routes(sh, route)
  {
    forall ops, key, p: Slot, now ::
      Timely(ops, now) && Has(Answer(sh, Run(sh, route, New(sh), ops).window, route(key), key, now), p) ==>
        NotedWithin(ops, key, p, now, age)
  }

  /**
    The time to live is an upper bound on retention in every run if and only if the exact
    bound does not exceed it, or no clock can run that long.  With more than one generation
    and an interval above one millisecond the first needs a remainder of `ttl` by G of at
    least (G-1)*(I-1).
   */
  lemma TtlRespectedIff(sh: Shape, route: Route, ttl: u64)
    requires sh.Valid() && sh.blocks != 0 && Routes(sh, route) && 0 < ttl < U64_MAX
    requires sh.interval == IntervalFor(ttl, sh.generations)
    ensures AlwaysWithin(sh, route, ttl) <==> Bound(sh) <= ttl || ttl == U64_MAX - 1
  {
    hide Bound;
    if Bound(sh) <= ttl || ttl == U64_MAX - 1 {
      forall ops, key, p: Slot, now | Timely(ops, now)
        && Has(Answer(sh, Run(sh, route, New(sh), ops).window, route(key), key, now), p)
        ensures NotedWithin(ops, key, p, now, ttl)
      {
        RetentionUpperBound(sh, route, ops, key, p, now);
        NotedOnClock(ops, key, p, now, Bound(sh));
      }
    } else {
      var ops := AnsweredAt(sh, route, [], 0, 1, 1, ttl);
      assert !NotedWithin(ops, [], 0, 1 + ttl, ttl);
    }
  }

  /** A clock that starts at 1 and ends before its last reading spans less than that. */
  lemma NotedOnClock(ops: seq<Op>, key: Key, p: Slot, now: nat, age: nat)
    requires Timely(ops, now) && NotedWithin(ops, key, p, now, age)
    ensures NotedWithin(ops, key, p, now, U64_MAX - 1)
    ensures forall more: nat :: age <= more ==> NotedWithin(ops, key, p, now, more)
  {
    var i :| 0 <= i < |ops| && ops[i].Note? && ops[i].key == key && Has(ops[i].bits, p) && now < ops[i].now + age;
    assert now < ops[i].now + (U64_MAX - 1);
  }

  // ---------- lower bound ----------

  /** The insertion of another key takes the slot that holds `key`, in the generation being written. */
  ghost predicate Overwrites(sh: Shape, route: Route, w: Window, op: Op, key: Key)
    requires Fits(sh, w) && Routes(sh, route) && sh.blocks != 0
  {
    && op.Note? && op.bits != NO_SLOTS && op.key != key && route(op.key).block == route(key).block
    && Victim(w.gens[0].blocks[route(op.key).block], route(op.key).fp, op.key) == Some(key)
  }

  /** No rotation has come due: the generation that was current still is. */
  ghost predicate StillCurrent(sh: Shape, route: Route, s: Shard, ops: seq<Op>)
    requires Fits(sh, s.window) && Routes(sh, route)
  {
    ops == [] ||
    var rest := ops[..|ops| - 1];
    StillCurrent(sh, route, s, rest) && !Due(sh, Run(sh, route, s, rest).window, ops[|ops| - 1].now)
  }

  /** Nothing overwrites `key` while its generation is the one written to. */
  ghost predicate Undisturbed(sh: Shape, route: Route, s: Shard, ops: seq<Op>, key: Key)
    requires Fits(sh, s.window) && Routes(sh, route) && sh.blocks != 0
  {
    ops == [] ||
    var rest := ops[..|ops| - 1];
    && Undisturbed(sh, route, s, rest, key)
    && (StillCurrent(sh, route, s, ops) ==>
          !Overwrites(sh, route, Run(sh, route, s, rest).window, ops[|ops| - 1], key))
  }

  /** A miss noted at `t` sits in the generation of age `a`, whose last rotation is still ahead. */
  ghost predicate Kept(sh: Shape, w: Window, spot: Spot, key: Key, p: Slot, t: nat, a: nat)
    requires Fits(sh, w) && spot.block < sh.blocks
  {
    && a < sh.generations
    && Finds(w.gens[a].blocks[spot.block], spot.fp, key, p)
    && w.next >= Min(U64_MAX, t + 1 + a * sh.interval)
    && w.gens[a].startedAt != 0
  }

  lemma KeptArithmetic(next: nat, t: nat, a: nat, i: nat, g: nat, now: nat)
    requires i > 0 && g > 0 && Min(U64_MAX, t + 1 + a * i) <= next <= now < U64_MAX && now <= t + (g - 1) * i
    ensures var q := (now - next) / i;
            a + 1 + q < g && SatAdd(next, SatMul(1 + q, i)) >= Min(U64_MAX, t + 1 + (a + 1 + q) * i)
  {
    var q := (now - next) / i;
    assert now - next == q * i + (now - next) % i;
    assert (a + q) * i == a * i + q * i;
    MulOrder(g - 1, a + q, i);
    assert (a + 1 + q) * i == a * i + (1 + q) * i;
  }

  /** A rotation moves a kept miss to an older generation, never out of the window too early. */
  lemma KeptRotate(sh: Shape, w: Window, spot: Spot, key: Key, p: Slot, t: nat, a: nat, now: nat) returns (a': nat)
    requires Fits(sh, w) && sh.Finite() && spot.block < sh.blocks && Kept(sh, w, spot, key, p, t, a)
    requires now < U64_MAX && now <= t + (sh.generations - 1) * sh.interval
    ensures Fits(sh, Rotate(sh, w, now)) && Kept(sh, Rotate(sh, w, now), spot, key, p, t, a')
    ensures Due(sh, w, now) ==> a' > 0
    ensures !Due(sh, w, now) ==> a' == a
  {
    a' := a;
    if Due(sh, w, now) {
      KeptArithmetic(w.next, t, a, sh.interval, sh.generations, now);
      a' := a + Rotations(sh, w, now);
      assert Rotate(sh, w, now).gens[a'] == w.gens[a];
    }
  }

  /** The next rotation is never further away than one interval. */
  ghost predicate Near(sh: Shape, w: Window, now: nat) { w.next <= now + sh.interval }

  lemma NearRotate(sh: Shape, w: Window, clock: nat, now: nat)
    requires Fits(sh, w) && sh.Finite() && Near(sh, w, clock) && clock <= now
    ensures Near(sh, Rotate(sh, w, now), now)
  {
    if Due(sh, w, now) {
      var i: nat, q, r := sh.interval, (now - w.next) / sh.interval, Rotations(sh, w, now);
      assert now - w.next == q * i + (now - w.next) % i;
      assert (1 + q) * i == q * i + i;
      MulOrder(r, 1 + q, i);
    }
  }

  lemma NearRecord(sh: Shape, w: Window, clock: nat, spot: Spot, key: Key, bits: Mask, now: u64)
    requires Fits(sh, w) && sh.Finite() && Near(sh, w, clock) && clock <= now
    requires sh.blocks != 0 ==> spot.block < sh.blocks
    ensures Near(sh, Record(sh, w, spot, key, bits, now), now)
  {
    NearRotate(sh, w, clock, now);
  }

  lemma {:induction false} NearRun(sh: Shape, route: Route, ops: seq<Op>, now: nat)
    requires sh.Valid() && sh.Finite() && Routes(sh, route) && Timely(ops, now)
    ensures Near(sh, Run(sh, route, New(sh), ops).window, now)
    decreases |ops|
  {
    if ops != [] {
      var rest, op := ops[..|ops| - 1], ops[|ops| - 1];
      NearRun(sh, route, rest, op.now);
      NearRotate(sh, Run(sh, route, New(sh), rest).window, op.now, op.now);
    }
  }

  /** One operation keeps a kept miss, unless it overwrites it. */
  lemma KeptApply(sh: Shape, route: Route, s: Shard, op: Op, key: Key, p: Slot, t: nat, a: nat,
                  clock: nat) returns (b: nat)
    requires Fits(sh, s.window) && sh.Finite() && sh.blocks != 0 && Routes(sh, route)
    requires Kept(sh, s.window, route(key), key, p, t, a) && Near(sh, s.window, clock) && 1 <= clock <= op.now
    requires op.now < U64_MAX && op.now <= t + (sh.generations - 1) * sh.interval
    requires a == 0 && !Due(sh, s.window, op.now) ==> !Overwrites(sh, route, s.window, op, key)
    ensures Kept(sh, Apply(sh, route, s, op).window, route(key), key, p, t, b)
    ensures Near(sh, Apply(sh, route, s, op).window, op.now)
    ensures b == 0 ==> a == 0 && !Due(sh, s.window, op.now)
  {
    b := KeptRotate(sh, s.window, route(key), key, p, t, a, op.now);
    NearRotate(sh, s.window, clock, op.now);
    var rotated := Rotate(sh, s.window, op.now);
    if op.Note? && op.bits != NO_SLOTS {
      if b == 0 && route(op.key).block == route(key).block {
        FindsMeans(rotated.gens[0].blocks[route(key).block], route(key).fp, key, p);
        InsertKeeps(rotated.gens[0].blocks[route(key).block], route(op.key).fp, op.key, op.bits, route(key).fp, key, p);
      }
      assert Start(sh, rotated, op.now).next >= Min(U64_MAX, rotated.next);
    }
  }

  lemma {:induction false} KeptThrough(sh: Shape, route: Route, s: Shard, ops: seq<Op>, key: Key, p: Slot,
                                       t: u64, now: nat) returns (b: nat)
    requires Fits(sh, s.window) && sh.Finite() && sh.blocks != 0 && Routes(sh, route)
    requires Kept(sh, s.window, route(key), key, p, t, 0) && Near(sh, s.window, t)
    requires Timely(ops, now) && 1 <= t && (forall i :: 0 <= i < |ops| ==> t <= ops[i].now) && t <= now
    requires now <= t + (sh.generations - 1) * sh.interval && Undisturbed(sh, route, s, ops, key)
    ensures Kept(sh, Run(sh, route, s, ops).window, route(key), key, p, t, b)
    ensures Near(sh, Run(sh, route, s, ops).window, now)
    ensures b == 0 ==> StillCurrent(sh, route, s, ops)
    decreases |ops|
  {
    b := 0;
    if ops != [] {
      var rest, op := ops[..|ops| - 1], ops[|ops| - 1];
      var a := KeptThrough(sh, route, s, rest, key, p, t, op.now);
      b := KeptApply(sh, route, Run(sh, route, s, rest), op, key, p, t, a, op.now);
    }
  }

  /** The schedule of a window that can record: set if anything has started, and at most an interval ahead. */
  ghost predicate Ready(sh: Shape, w: Window, now: nat) {
    && (forall a :: 0 <= a < |w.gens| && w.gens[a].startedAt != 0 ==> w.next != 0)
    && Near(sh, w, now)
  }

  /** Every run of a new shard is ready. */
  lemma RunIsReady(sh: Shape, route: Route, ops: seq<Op>, now: nat)
    requires sh.Valid() && sh.Finite() && Routes(sh, route) && Timely(ops, now)
    ensures Ready(sh, Run(sh, route, New(sh), ops).window, now)
  {
    RunInvariant(sh, route, ops, now);
    NearRun(sh, route, ops, now);
  }

  /** A miss just noted is kept in the current generation. */
  lemma JustNoted(sh: Shape, route: Route, s: Shard, note: Op, p: Slot)
    requires Fits(sh, s.window) && sh.Finite() && sh.blocks != 0 && Routes(sh, route)
    requires note.Note? && Has(note.bits, p) && 1 <= note.now < U64_MAX && Ready(sh, s.window, note.now)
    ensures var w := Apply(sh, route, s, note).window;
            Kept(sh, w, route(note.key), note.key, p, note.now, 0) && Near(sh, w, note.now)
  {
    RotateCatchesUp(sh, s.window, note.now);
    NearRotate(sh, s.window, note.now, note.now);
    InsertFinds(Rotate(sh, s.window, note.now).gens[0].blocks[route(note.key).block], route(note.key).fp, note.key,
                note.bits, p);
  }

  /**
    Retention lower bound: a miss recorded at `t` and not overwritten while its generation
    is written to is answered by every lookup up to t + (G-1)*I, through any number of lazy
    or jumped rotations, whatever the shard held before.
   */
  lemma RetentionLowerBound(sh: Shape, route: Route, s: Shard, note: Op, after: seq<Op>, p: Slot, now: nat)
    requires Fits(sh, s.window) && sh.Finite() && sh.blocks != 0 && Routes(sh, route) && Ready(sh, s.window, note.now)
    requires note.Note? && Has(note.bits, p) && 1 <= note.now <= now && Timely(after, now)
    requires forall i :: 0 <= i < |after| ==> note.now <= after[i].now
    requires now <= note.now + (sh.generations - 1) * sh.interval
    requires Undisturbed(sh, route, Apply(sh, route, s, note), after, note.key)
    ensures Has(Answer(sh, Run(sh, route, Apply(sh, route, s, note), after).window, route(note.key), note.key, now), p)
  {
    hide Apply, Ready;
    JustNoted(sh, route, s, note, p);
    var noted := Apply(sh, route, s, note);
    var b := KeptThrough(sh, route, noted, after, note.key, p, note.now, now);
    var w := Run(sh, route, noted, after).window;
    var c := KeptRotate(sh, w, route(note.key), note.key, p, note.now, b, now);
    AnswerMeans(sh, w, route(note.key), note.key, now, p);
  }
}
