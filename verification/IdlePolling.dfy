/**
  Reading the availability index never changes what it answers later.

  A lookup, an entry count and a snapshot all rotate the window, and a rotation after a
  long silence jumps over several intervals with a cap at the ring size.  The jump is
  compared with the plain process that rotates once per elapsed interval, and windows that
  agree once this process has caught up are shown to answer and to record alike.
 */
module IdlePolling {
  import opened Words
  import opened Blocks
  import opened Rotation

  /** The plain process: one rotation for every interval that has elapsed. */
  ghost function CatchUp(sh: Shape, w: Window, now: nat): Window
    requires Fits(sh, w) && now < U64_MAX
    decreases U64_MAX - w.next
  {
    if Due(sh, w, now) then CatchUp(sh, Window(Shift(sh, w.gens, 1), SatAdd(w.next, sh.interval)), now)
    else if sh.blocks != 0 && sh.interval == 0 then Fresh(sh)
    else w
  }

  ghost predicate AllClear(sh: Shape, gens: seq<Gen>) {
    forall a :: 0 <= a < |gens| ==> gens[a] == EmptyGen(sh.blocks)
  }

  /** Same generations; the schedule matters only while something is remembered. */
  ghost predicate Agree(sh: Shape, v: Window, w: Window) {
    v.gens == w.gens && (v.next == w.next || AllClear(sh, v.gens))
  }

  lemma {:induction false} CatchUpInClosedForm(sh: Shape, w: Window, now: nat)
    requires Fits(sh, w) && now < U64_MAX && Due(sh, w, now)
    ensures var k := 1 + (now - w.next) / sh.interval;
            CatchUp(sh, w, now) ==
            Window(Shift(sh, w.gens, Min(sh.generations, k)), SatAdd(w.next, k * sh.interval))
    decreases U64_MAX - w.next
  {
    var i := sh.interval;
    var k := 1 + (now - w.next) / i;
    var w1 := Window(Shift(sh, w.gens, 1), SatAdd(w.next, i));
    if Due(sh, w1, now) {
      CatchUpInClosedForm(sh, w1, now);
      QuotientStep(now - w.next, i);
      assert k * i == i + (k - 1) * i;
      assert Shift(sh, w1.gens, Min(sh.generations, k - 1)) == Shift(sh, w.gens, Min(sh.generations, k));
    } else {
      QuotientIs(now - w.next, i, 0);
    }
  }

  /** The capped jump does what rotating once per interval does. */
  lemma JumpIsStepwise(sh: Shape, w: Window, now: nat)
    requires Fits(sh, w) && now < U64_MAX
    ensures Agree(sh, Rotate(sh, w, now), CatchUp(sh, w, now))
  {
    if Due(sh, w, now) {
      CatchUpInClosedForm(sh, w, now);
      var k := 1 + (now - w.next) / sh.interval;
      if k > sh.generations {
        assert AllClear(sh, Shift(sh, w.gens, sh.generations));
      }
    }
  }

  lemma {:induction false} CatchUpFits(sh: Shape, w: Window, now: nat)
    requires Fits(sh, w) && now < U64_MAX
    ensures Fits(sh, CatchUp(sh, w, now))
    ensures AllClear(sh, w.gens) ==> AllClear(sh, CatchUp(sh, w, now).gens)
    decreases U64_MAX - w.next
  {
    if Due(sh, w, now) {
      CatchUpFits(sh, Window(Shift(sh, w.gens, 1), SatAdd(w.next, sh.interval)), now);
    }
  }

  lemma {:induction false} CatchUpTwice(sh: Shape, w: Window, t: nat, now: nat)
    requires Fits(sh, w) && t <= now < U64_MAX && Fits(sh, CatchUp(sh, w, t))
    ensures CatchUp(sh, CatchUp(sh, w, t), now) == CatchUp(sh, w, now)
    decreases U64_MAX - w.next
  {
    if Due(sh, w, t) {
      CatchUpTwice(sh, Window(Shift(sh, w.gens, 1), SatAdd(w.next, sh.interval)), t, now);
    }
  }

  lemma AgreeCatchUp(sh: Shape, v: Window, w: Window, now: nat)
    requires Fits(sh, v) && Fits(sh, w) && now < U64_MAX && Agree(sh, v, w)
    ensures Agree(sh, CatchUp(sh, v, now), CatchUp(sh, w, now))
  {
    if v.next != w.next {
      CatchUpFits(sh, v, now);
      CatchUpFits(sh, w, now);
    }
  }

  /** Rotating at `t` on the way makes no difference to where the window stands at `now`. */
  lemma RotateOnTheWay(sh: Shape, w: Window, t: nat, now: nat)
    requires Fits(sh, w) && t <= now < U64_MAX
    ensures Fits(sh, Rotate(sh, w, t))
    ensures Agree(sh, CatchUp(sh, Rotate(sh, w, t), now), CatchUp(sh, w, now))
  {
    JumpIsStepwise(sh, w, t);
    CatchUpFits(sh, w, t);
    AgreeCatchUp(sh, Rotate(sh, w, t), CatchUp(sh, w, t), now);
    CatchUpTwice(sh, w, t, now);
  }

  ghost predicate Similar(sh: Shape, v: Window, w: Window, now: nat)
    requires Fits(sh, v) && Fits(sh, w) && now < U64_MAX
  {
    Agree(sh, CatchUp(sh, v, now), CatchUp(sh, w, now))
  }

  lemma SimilarLater(sh: Shape, v: Window, w: Window, t: nat, now: nat)
    requires Fits(sh, v) && Fits(sh, w) && t <= now < U64_MAX && Similar(sh, v, w, t)
    ensures Similar(sh, v, w, now)
  {
    CatchUpFits(sh, v, t);
    CatchUpFits(sh, w, t);
    AgreeCatchUp(sh, CatchUp(sh, v, t), CatchUp(sh, w, t), now);
    CatchUpTwice(sh, v, t, now);
    CatchUpTwice(sh, w, t, now);
  }

  /** Similar windows answer alike, and recording the same fact makes them similar again. */
  lemma SimilarActs(sh: Shape, v: Window, w: Window, spot: Spot, key: Key, bits: Mask, now: u64)
    requires Fits(sh, v) && Fits(sh, w) && (sh.blocks != 0 ==> spot.block < sh.blocks)
    requires 1 <= now < U64_MAX && Similar(sh, v, w, now)
    ensures Answer(sh, v, spot, key, now) == Answer(sh, w, spot, key, now)
    ensures var v', w' := Record(sh, v, spot, key, bits, now), Record(sh, w, spot, key, bits, now);
            Fits(sh, v') && Fits(sh, w') && Similar(sh, v', w', now)
  {
    JumpIsStepwise(sh, v, now);
    JumpIsStepwise(sh, w, now);
    var rv, rw := Rotate(sh, v, now), Rotate(sh, w, now);
    assert Agree(sh, rv, rw);
    if Stores(sh, bits) {
      assert Start(sh, rv, now) == Start(sh, rw, now);
    } else {
      RotateOnTheWay(sh, v, now, now);
      RotateOnTheWay(sh, w, now, now);
    }
  }
}
