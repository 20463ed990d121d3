/**
  The ring of generations by position, and why reading it by age gives the window.

  The proxy keeps the generations in a fixed array and moves a current position around it,
  together with a count of live generations.  Each operation on the ring is shown to be the
  corresponding operation on the window.
 */
module Rings {
  import opened Words
  import opened Blocks
  import opened Rotation
  import opened Snapshots

  /** Generations by position, the position written to, how many are live, the schedule. */
  datatype Ring = Ring(gens: seq<Gen>, current: nat, live: nat, next: u64)

  /** Position of the generation of age `a`. */
  function Position(current: nat, n: nat, a: nat): (i: nat)
    requires current < n && a < n
    ensures i < n
  {
    if a <= current then current - a else current + n - a
  }

  /** The modular arithmetic of the proxy computes that position. */
  lemma PositionIsModular(current: nat, n: nat, a: nat)
    requires current < n && a < n
    ensures (current + n - a) % n == Position(current, n, a)
  {
    QuotientIs(current + n - a, n, if a <= current then 1 else 0);
  }

  function Successor(current: nat, n: nat): (i: nat)
    requires current < n
    ensures i < n && i == (current + 1) % n
  {
    QuotientIs(current + 1, n, if current + 1 == n then 1 else 0);
    if current + 1 == n then 0 else current + 1
  }

  /** The generations of a ring in order of age. */
  function ByAge(gens: seq<Gen>, current: nat): seq<Gen>
    requires current < |gens|
  {
    seq(|gens|, a requires 0 <= a < |gens| => gens[Position(current, |gens|, a)])
  }

  /** Generations that are not live are cleared. */
  ghost predicate Valid(sh: Shape, r: Ring) {
    && 1 <= |r.gens| == sh.generations && r.current < |r.gens| && r.live <= |r.gens|
    && (forall i :: 0 <= i < |r.gens| ==> |r.gens[i].blocks| == sh.blocks)
    && (r.live == 0 ==> r.next == 0)
    && forall a :: r.live <= a < |r.gens| ==> r.gens[Position(r.current, |r.gens|, a)] == EmptyGen(sh.blocks)
  }

  function Window(r: Ring): Rotation.Window
    requires r.current < |r.gens|
  {
    Rotation.Window(ByAge(r.gens, r.current), r.next)
  }

  // ---------- rotation ----------

  /** `r` steps of the rotation loop: move on and clear. */
  function Advance(sh: Shape, gens: seq<Gen>, current: nat, r: nat): (res: (seq<Gen>, nat))
    requires current < |gens|
    ensures |res.0| == |gens| && res.1 < |gens|
  {
    if r == 0 then (gens, current)
    else
      var (g, c) := Advance(sh, gens, current, r - 1);
      (g[Successor(c, |g|) := EmptyGen(sh.blocks)], Successor(c, |g|))
  }

  function AdvanceEvicts(sh: Shape, gens: seq<Gen>, current: nat, r: nat): nat
    requires current < |gens|
  {
    if r == 0 then 0
    else
      var (g, c) := Advance(sh, gens, current, r - 1);
      AdvanceEvicts(sh, gens, current, r - 1) + g[Successor(c, |g|)].occupied
  }

  function Cleared(sh: Shape): Ring { Ring(seq(sh.generations, _ => EmptyGen(sh.blocks)), 0, 0, 0) }

  function RotateRing(sh: Shape, r: Ring, now: u64): Ring
    requires r.current < |r.gens| == sh.generations
  {
    if sh.blocks == 0 then r
    else if sh.interval == 0 then Cleared(sh)
    else if sh.interval == U64_MAX || r.live == 0 || r.next == 0 || now < r.next then r
    else
      var rotations := Min(1 + (now - r.next) / sh.interval, sh.generations);
      var (g, c) := Advance(sh, r.gens, r.current, rotations);
      Ring(g, c, Min(r.live + rotations, sh.generations), SatAdd(r.next, SatMul(rotations, sh.interval)))
  }

  function RotateEvicts(sh: Shape, r: Ring, now: u64): nat
    requires r.current < |r.gens| == sh.generations
  {
    if sh.blocks == 0 then 0
    else if sh.interval == 0 then Occupied(r.gens)
    else if sh.interval == U64_MAX || r.live == 0 || r.next == 0 || now < r.next then 0
    else AdvanceEvicts(sh, r.gens, r.current, Min(1 + (now - r.next) / sh.interval, sh.generations))
  }

  /** Moving on to a cleared next position makes every generation one older. */
  lemma AdvanceByAge(gens: seq<Gen>, current: nat, g: Gen)
    requires current < |gens|
    ensures var c := Successor(current, |gens|);
            && ByAge(gens[c := g], c) == [g] + ByAge(gens, current)[..|gens| - 1]
            && ByAge(gens, current)[|gens| - 1] == gens[c]
  {
  }

  lemma ShiftOnce(sh: Shape, gens: seq<Gen>, q: nat, r: nat, keep: nat)
    requires r == q + 1 && r + keep == |gens|
    ensures Shift(sh, gens, r) == [EmptyGen(sh.blocks)] + Shift(sh, gens, q)[..|gens| - 1]
    ensures Shift(sh, gens, q)[|gens| - 1] == gens[keep]
  {
  }

  lemma {:induction false} AdvanceIsShift(sh: Shape, gens: seq<Gen>, current: nat, r: nat)
    requires current < |gens| && r <= |gens|
    ensures var (g, c) := Advance(sh, gens, current, r); ByAge(g, c) == Shift(sh, ByAge(gens, current), r)
    decreases r
  {
    if r == 0 {
      assert Shift(sh, ByAge(gens, current), 0) == ByAge(gens, current);
    } else {
      var q := r - 1;
      AdvanceIsShift(sh, gens, current, q);
      var (g, c) := Advance(sh, gens, current, q);
      AdvanceByAge(g, c, EmptyGen(sh.blocks));
      ShiftOnce(sh, ByAge(gens, current), q, r, |gens| - r);
    }
  }

  lemma {:induction false} AdvanceEvictsOldest(sh: Shape, gens: seq<Gen>, current: nat, r: nat, keep: nat)
    requires current < |gens| && r + keep == |gens|
    ensures AdvanceEvicts(sh, gens, current, r) == Occupied(ByAge(gens, current)[keep..])
    decreases r
  {
    if r > 0 {
      var q := r - 1;
      AdvanceEvictsOldest(sh, gens, current, q, keep + 1);
      AdvanceIsShift(sh, gens, current, q);
      var (g, c) := Advance(sh, gens, current, q);
      AdvanceByAge(g, c, EmptyGen(sh.blocks));
      ShiftOnce(sh, ByAge(gens, current), q, r, keep);
      OccupiedAt(ByAge(gens, current), keep);
    }
  }

  lemma {:induction false} OccupiedReversed(gens: seq<Gen>, back: seq<Gen>)
    requires |gens| == |back| && forall i :: 0 <= i < |gens| ==> back[i] == gens[|gens| - 1 - i]
    ensures Occupied(back) == Occupied(gens)
    decreases |gens|
  {
    if gens != [] {
      var n := |gens|;
      OccupiedReversed(gens[..n - 1], back[1..]);
      OccupiedAt(back, 0);
      OccupiedAt(gens, n - 1);
      assert back[0..] == back && gens[..n] == gens;
    }
  }

  /** Counting by age or by position gives the same total. */
  lemma OccupiedByAge(gens: seq<Gen>, current: nat)
    requires current < |gens|
    ensures Occupied(ByAge(gens, current)) == Occupied(gens)
  {
    var aged, k := ByAge(gens, current), current + 1;
    OccupiedReversed(gens[..k], aged[..k]);
    OccupiedReversed(gens[k..], aged[k..]);
    OccupiedConcat(gens[..k], gens[k..]);
    OccupiedConcat(aged[..k], aged[k..]);
    assert gens[..k] + gens[k..] == gens && aged[..k] + aged[k..] == aged;
  }

  lemma {:induction false} AdvanceKeepsShape(sh: Shape, gens: seq<Gen>, current: nat, r: nat)
    requires current < |gens| && forall i :: 0 <= i < |gens| ==> |gens[i].blocks| == sh.blocks
    ensures forall i :: 0 <= i < |gens| ==> |Advance(sh, gens, current, r).0[i].blocks| == sh.blocks
  {
    if r > 0 {
      AdvanceKeepsShape(sh, gens, current, r - 1);
    }
  }

  lemma ShiftKeepsCleared(sh: Shape, gens: seq<Gen>, live: nat, r: nat)
    requires r <= |gens| && forall a :: live <= a < |gens| ==> gens[a] == EmptyGen(sh.blocks)
    ensures forall a :: Min(live + r, |gens|) <= a < |gens| ==> Shift(sh, gens, r)[a] == EmptyGen(sh.blocks)
  {
  }

  lemma RotateRefines(sh: Shape, r: Ring, now: u64)
    requires Valid(sh, r)
    ensures Valid(sh, RotateRing(sh, r, now))
    ensures Window(RotateRing(sh, r, now)) == Rotate(sh, Window(r), now)
    ensures RotateEvicts(sh, r, now) == Dropped(sh, Window(r), now)
  {
    if sh.blocks != 0 && sh.interval == 0 {
      OccupiedByAge(r.gens, r.current);
    } else if Due(sh, Window(r), now) {
      var k := Rotations(sh, Window(r), now);
      AdvanceIsShift(sh, r.gens, r.current, k);
      AdvanceEvictsOldest(sh, r.gens, r.current, k, sh.generations - k);
      AdvanceKeepsShape(sh, r.gens, r.current, k);
      var (g, c) := Advance(sh, r.gens, r.current, k);
      ClearedByAge(sh, r);
      ShiftKeepsCleared(sh, ByAge(r.gens, r.current), r.live, k);
      ClearedByPosition(sh, g, c, Min(r.live + k, sh.generations));
    }
  }

  // ---------- writing ----------

  lemma WriteByAge(gens: seq<Gen>, current: nat, a: nat, g: Gen)
    requires current < |gens| && a < |gens|
    ensures ByAge(gens[Position(current, |gens|, a) := g], current) == ByAge(gens, current)[a := g]
  {
  }

  function StartRing(sh: Shape, r: Ring, now: u64): Ring
    requires r.current < |r.gens|
  {
    if r.gens[r.current].startedAt != 0 then r
    else Ring(r.gens[r.current := r.gens[r.current].(startedAt := now)], r.current, Max(r.live, 1),
              if sh.interval == 0 || sh.interval == U64_MAX then 0 else SatAdd(now, sh.interval))
  }

  function RecordRing(sh: Shape, r: Ring, spot: Spot, key: Key, bits: Mask, now: u64): Ring
    requires Valid(sh, r) && (sh.blocks != 0 ==> spot.block < sh.blocks)
  {
    RotateRefines(sh, r, now);
    var rotated := RotateRing(sh, r, now);
    if !Stores(sh, bits) then rotated
    else
      var started := StartRing(sh, rotated, now);
      var c := started.current;
      started.(gens := started.gens[c := InsertGen(started.gens[c], spot.fp, key, bits, spot.block)])
  }

  lemma StartRefines(sh: Shape, r: Ring, now: u64)
    requires Valid(sh, r)
    ensures Valid(sh, StartRing(sh, r, now)) && Window(StartRing(sh, r, now)) == Start(sh, Window(r), now)
    ensures now != 0 ==> StartRing(sh, r, now).live > 0
  {
    assert ByAge(r.gens, r.current)[0] == r.gens[r.current];
    WriteByAge(r.gens, r.current, 0, r.gens[r.current].(startedAt := now));
  }

  lemma RecordRefines(sh: Shape, r: Ring, spot: Spot, key: Key, bits: Mask, now: u64)
    requires Valid(sh, r) && (sh.blocks != 0 ==> spot.block < sh.blocks)
    ensures Valid(sh, RecordRing(sh, r, spot, key, bits, now))
    ensures Fits(sh, Window(r))
    ensures Window(RecordRing(sh, r, spot, key, bits, now)) == Record(sh, Window(r), spot, key, bits, now)
  {
    RotateRefines(sh, r, now);
    if Stores(sh, bits) {
      var rotated := RotateRing(sh, r, now);
      StartRefines(sh, rotated, now);
      var s := StartRing(sh, rotated, now);
      WriteByAge(s.gens, s.current, 0, InsertGen(s.gens[s.current], spot.fp, key, bits, spot.block));
    }
  }
  // ---------- restoring ----------

  function RestoreRing(sh: Shape, r: Ring, e: Entry, block: nat, now: u64, ttl: u64): Ring
    requires Valid(sh, r) && (sh.blocks != 0 ==> block < sh.blocks)
  {
    if Skipped(sh, e, now, ttl) then r
    else
      var a := AgeOf(sh, e.insertedAt, now);
      var i := Position(r.current, |r.gens|, a);
      r.(gens := r.gens[i := InsertGen(Backdate(r.gens[i], e.insertedAt), Fingerprint(e.hash, e.tag),
                                       e.key, e.missing, block)],
         live := Max(r.live, a + 1))
  }

  lemma RestoreRefines(sh: Shape, r: Ring, e: Entry, block: nat, now: u64, ttl: u64)
    requires Valid(sh, r) && (sh.blocks != 0 ==> block < sh.blocks)
    ensures Valid(sh, RestoreRing(sh, r, e, block, now, ttl))
    ensures Fits(sh, Window(r))
    ensures Window(RestoreRing(sh, r, e, block, now, ttl)) == RestoreEntry(sh, Window(r), e, block, now, ttl)
  {
    if !Skipped(sh, e, now, ttl) {
      var a := AgeOf(sh, e.insertedAt, now);
      var i := Position(r.current, |r.gens|, a);
      var g := InsertGen(Backdate(r.gens[i], e.insertedAt), Fingerprint(e.hash, e.tag), e.key, e.missing, block);
      assert ByAge(r.gens, r.current)[a] == r.gens[i];
      WriteByAge(r.gens, r.current, a, g);
      var r' := RestoreRing(sh, r, e, block, now, ttl);
      forall b | r'.live <= b < |r'.gens|
        ensures r'.gens[Position(r'.current, |r'.gens|, b)] == EmptyGen(sh.blocks)
      {
        assert ByAge(r'.gens, r'.current)[b] == ByAge(r.gens, r.current)[b];
      }
    }
  }

  /** The position of the newest started generation among the first `n`; the last one wins ties. */
  function AnchorPosition(gens: seq<Gen>, n: nat): (best: Option<nat>)
    requires n <= |gens|
    ensures best.Some? ==> best.value < |gens|
  {
    if n == 0 then None
    else
      var best := AnchorPosition(gens, n - 1);
      if gens[n - 1].startedAt == 0 then best
      else if best.None? || gens[n - 1].startedAt >= gens[best.value].startedAt then Some(n - 1)
      else best
  }

  function ReanchorRing(sh: Shape, r: Ring): Ring {
    match AnchorPosition(r.gens, |r.gens|)
    case None => r
    case Some(i) =>
      r.(current := i,
         next := if sh.interval == 0 || sh.interval == U64_MAX then 0
                 else SatAdd(r.gens[i].startedAt, sh.interval))
  }

  /** Making position `i` current turns the order by age. */
  lemma TurnByAge(gens: seq<Gen>, i: nat, c: nat)
    requires i < |gens| && c == RingAge(|gens|, i)
    ensures ByAge(gens, 0)[c] == gens[i]
    ensures ByAge(gens, i) == ByAge(gens, 0)[c..] + ByAge(gens, 0)[..c]
  {
  }

  lemma {:induction false} AnchorByPosition(gens: seq<Gen>, n: nat)
    requires n <= |gens| && |gens| > 0
    ensures Anchor(ByAge(gens, 0), n) ==
            match AnchorPosition(gens, n) case None => None case Some(i) => Some(RingAge(|gens|, i))
  {
    if n > 0 {
      var m := n - 1;
      AnchorByPosition(gens, m);
      TurnByAge(gens, m, RingAge(|gens|, m));
      if AnchorPosition(gens, m).Some? {
        var i := AnchorPosition(gens, m).value;
        TurnByAge(gens, i, RingAge(|gens|, i));
      }
    }
  }

  lemma TurnKeepsCleared(sh: Shape, aged: seq<Gen>, turned: seq<Gen>, live: nat, c: nat)
    requires c < |aged| && turned == aged[c..] + aged[..c]
    requires forall a :: 0 <= a < c || live <= a < |aged| ==> aged[a] == EmptyGen(sh.blocks)
    ensures forall b :: live <= b < |turned| ==> turned[b] == EmptyGen(sh.blocks)
  {
  }

  lemma ReanchorRefines(sh: Shape, r: Ring, now: nat)
    requires Valid(sh, r) && r.current == 0 && Bucketed(sh, Window(r), now)
    ensures Valid(sh, ReanchorRing(sh, r)) && Window(ReanchorRing(sh, r)) == Reanchor(sh, Window(r))
  {
    var n, w := |r.gens|, Window(r);
    AnchorByPosition(r.gens, n);
    match AnchorPosition(r.gens, n)
    case None =>
    case Some(i) =>
      var c := RingAge(n, i);
      TurnByAge(r.gens, i, c);
      ReanchorSkipsCleared(sh, w, now);
      ClearedByAge(sh, r);
      TurnKeepsCleared(sh, w.gens, ByAge(r.gens, i), r.live, c);
      ClearedByPosition(sh, r.gens, i, r.live);
  }

  lemma ClearedByAge(sh: Shape, r: Ring)
    requires Valid(sh, r)
    ensures forall a :: r.live <= a < |r.gens| ==> ByAge(r.gens, r.current)[a] == EmptyGen(sh.blocks)
  {
  }

  lemma ClearedByPosition(sh: Shape, gens: seq<Gen>, current: nat, live: nat)
    requires current < |gens|
    requires forall a :: live <= a < |gens| ==> ByAge(gens, current)[a] == EmptyGen(sh.blocks)
    ensures forall a :: live <= a < |gens| ==> gens[Position(current, |gens|, a)] == EmptyGen(sh.blocks)
  {
    forall a | live <= a < |gens|
      ensures gens[Position(current, |gens|, a)] == EmptyGen(sh.blocks)
    {
      assert ByAge(gens, current)[a] == gens[Position(current, |gens|, a)];
    }
  }

  // ---------- reading ----------

  /** Once every provider is known to be missing the remaining generations add nothing. */
  lemma {:induction false} GatherFull(gens: seq<Gen>, i: nat, n: nat, spot: Spot, key: Key)
    requires i <= n <= |gens| && forall a :: 0 <= a < |gens| ==> spot.block < |gens[a].blocks|
    requires Gather(gens, i, spot, key) == ALL_SLOTS
    ensures Gather(gens, n, spot, key) == ALL_SLOTS
  {
    if i < n {
      GatherFull(gens, i, n - 1, spot, key);
      OrEverything(LookupBlock(gens[n - 1].blocks[spot.block], spot.fp, key));
    }
  }

  /** Cleared generations have nothing to say. */
  lemma {:induction false} GatherCleared(sh: Shape, gens: seq<Gen>, live: nat, n: nat, spot: Spot, key: Key)
    requires live <= n <= |gens| && spot.block < sh.blocks
    requires forall a :: 0 <= a < |gens| ==> |gens[a].blocks| == sh.blocks
    requires forall a :: live <= a < |gens| ==> gens[a] == EmptyGen(sh.blocks)
    ensures Gather(gens, n, spot, key) == Gather(gens, live, spot, key)
  {
    if live < n {
      GatherCleared(sh, gens, live, n - 1, spot, key);
      OrNothing(NO_SLOTS);
      OrNothing(Gather(gens, n - 1, spot, key));
    }
  }
}
