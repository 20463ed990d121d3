/**
  What a snapshot takes out of a window and how a restart puts it back.

  A snapshot stamps every fact with the start of its generation.  Restoring puts a fact
  into the generation its age belongs to and then makes the newest started generation the
  current one.
 */
module Snapshots {
  import opened Words
  import opened Blocks
  import opened Rotation

  /** A persisted fact; `hash` comes from a file and may be anything. */
  datatype Entry = Entry(hash: u64, tag: Tag, key: Key, missing: Mask, insertedAt: u64)

  // ---------- taking a snapshot ----------

  function CellEntries(c: Cell, startedAt: u64): seq<Entry> {
    if c.Held? && c.missing != NO_SLOTS then [Entry(c.fp.hash, c.fp.tag, c.key, c.missing, startedAt)] else []
  }

  function BlockEntries(b: Block, startedAt: u64): seq<Entry> {
    CellEntries(b.first, startedAt) + CellEntries(b.second, startedAt)
  }

  function BlocksEntries(blocks: seq<Block>, startedAt: u64): seq<Entry> {
    if blocks == [] then []
    else BlocksEntries(blocks[..|blocks| - 1], startedAt) + BlockEntries(blocks[|blocks| - 1], startedAt)
  }

  function GensEntries(gens: seq<Gen>): seq<Entry> {
    if gens == [] then []
    else GensEntries(gens[..|gens| - 1]) + BlocksEntries(gens[|gens| - 1].blocks, gens[|gens| - 1].startedAt)
  }

  lemma {:induction false} NoEntriesInCleared(n: nat, startedAt: u64)
    ensures BlocksEntries(seq(n, _ => EMPTY_BLOCK), startedAt) == []
  {
    if n > 0 {
      NoEntriesInCleared(n - 1, startedAt);
      assert seq(n, _ => EMPTY_BLOCK)[..n - 1] == seq(n - 1, _ => EMPTY_BLOCK);
    }
  }

  /** A snapshot of the live generations is a snapshot of all of them. */
  lemma {:induction false} LiveEntries(sh: Shape, gens: seq<Gen>, live: nat)
    requires live <= |gens| && forall a :: live <= a < |gens| ==> gens[a] == EmptyGen(sh.blocks)
    ensures GensEntries(gens[..live]) == GensEntries(gens)
    ensures Occupied(gens[..live]) == Occupied(gens)
    decreases |gens|
  {
    if live == |gens| {
      assert gens[..live] == gens;
    } else {
      var rest := gens[..|gens| - 1];
      LiveEntries(sh, rest, live);
      assert gens[..live] == rest[..live];
      NoEntriesInCleared(sh.blocks, 0);
      OccupiedAt(gens, |gens| - 1);
      assert gens[..|gens|] == gens;
    }
  }

  // ---------- restoring ----------

  predicate Skipped(sh: Shape, e: Entry, now: u64, ttl: u64) {
    sh.blocks == 0 || e.hash == 0 || e.missing == NO_SLOTS || SatSub(now, e.insertedAt) >= ttl
  }

  /** The age class of an observation made at `t`. */
  function AgeOf(sh: Shape, t: nat, now: nat): (a: nat)
    requires sh.Valid()
    ensures a < sh.generations
  {
    if !sh.Finite() then 0 else Min(SatSub(now, t) / sh.interval, sh.generations - 1)
  }

  function Backdate(g: Gen, t: u64): Gen {
    g.(startedAt := if g.startedAt == 0 then t else Min(g.startedAt, t))
  }

  function RestoreEntry(sh: Shape, w: Window, e: Entry, block: nat, now: u64, ttl: u64): Window
    requires Fits(sh, w) && (sh.blocks != 0 ==> block < sh.blocks)
  {
    if Skipped(sh, e, now, ttl) then w
    else
      var a := AgeOf(sh, e.insertedAt, now);
      w.(gens := w.gens[a := InsertGen(Backdate(w.gens[a], e.insertedAt), Fingerprint(e.hash, e.tag),
                                       e.key, e.missing, block)])
  }

  /** Evictions counted while restoring one entry. */
  function RestoreDropped(sh: Shape, w: Window, e: Entry, block: nat, now: u64, ttl: u64): nat
    requires Fits(sh, w) && (sh.blocks != 0 ==> block < sh.blocks)
  {
    if Skipped(sh, e, now, ttl) then 0
    else
      var b := w.gens[AgeOf(sh, e.insertedAt, now)].blocks[block];
      if OutcomeOf(b, Fingerprint(e.hash, e.tag), e.key) == Replaced then 1 else 0
  }

  /** The age of ring position `i` while position 0 is current. */
  function RingAge(generations: nat, i: nat): nat
    requires i < generations
  {
    if i == 0 then 0 else generations - i
  }

  /** The newest started generation among the first `n` ring positions; the last one wins ties. */
  function Anchor(gens: seq<Gen>, n: nat): (best: Option<nat>)
    requires n <= |gens|
    ensures best.Some? ==> best.value < |gens| && gens[best.value].startedAt != 0
  {
    if n == 0 then None
    else
      var best := Anchor(gens, n - 1);
      var a := RingAge(|gens|, n - 1);
      if gens[a].startedAt == 0 then best
      else if best.None? || gens[a].startedAt >= gens[best.value].startedAt then Some(a)
      else best
  }

  function Reanchor(sh: Shape, w: Window): Window {
    match Anchor(w.gens, |w.gens|)
    case None => w
    case Some(a) =>
      Window(w.gens[a..] + w.gens[..a],
             if sh.Finite() then SatAdd(w.gens[a].startedAt, sh.interval) else 0)
  }

  /** Everything sits in the age class of its generation's start. */
  ghost predicate Bucketed(sh: Shape, w: Window, now: nat)
    requires Fits(sh, w)
  {
    forall a :: 0 <= a < |w.gens| && w.gens[a] != EmptyGen(sh.blocks) ==> AgeOf(sh, w.gens[a].startedAt, now) == a
  }

  lemma AgeGrows(sh: Shape, t: nat, u: nat, now: nat)
    requires sh.Valid() && t <= u
    ensures AgeOf(sh, u, now) <= AgeOf(sh, t, now)
  {
    if sh.Finite() {
      var x, y, d := SatSub(now, u), SatSub(now, t), sh.interval;
      assert x == (x / d) * d + x % d && y == (y / d) * d + y % d;
      MulOrder(y / d + 1, x / d, d);
      assert (y / d + 1) * d == (y / d) * d + d;
    }
  }

  lemma BucketedRestore(sh: Shape, w: Window, e: Entry, block: nat, now: u64, ttl: u64)
    requires Fits(sh, w) && Bucketed(sh, w, now) && (sh.blocks != 0 ==> block < sh.blocks)
    ensures Fits(sh, RestoreEntry(sh, w, e, block, now, ttl))
    ensures Bucketed(sh, RestoreEntry(sh, w, e, block, now, ttl), now)
  {
  }

  lemma {:induction false} AnchorIsNewest(gens: seq<Gen>, n: nat)
    requires n <= |gens|
    ensures forall i :: 0 <= i < n && gens[RingAge(|gens|, i)].startedAt != 0 ==>
              && Anchor(gens, n).Some?
              && gens[RingAge(|gens|, i)].startedAt <= gens[Anchor(gens, n).value].startedAt
  {
    if n > 0 {
      AnchorIsNewest(gens, n - 1);
    }
  }

  /** Re-anchoring only skips cleared generations, so no fact changes its place in time. */
  lemma ReanchorSkipsCleared(sh: Shape, w: Window, now: nat)
    requires Fits(sh, w) && Bucketed(sh, w, now)
    ensures match Anchor(w.gens, |w.gens|)
            case None => forall a :: 0 <= a < |w.gens| ==> w.gens[a].startedAt == 0
            case Some(c) => forall a :: 0 <= a < c ==> w.gens[a] == EmptyGen(sh.blocks)
  {
    AnchorIsNewest(w.gens, |w.gens|);
    forall a | 0 <= a < |w.gens|
      ensures Anchor(w.gens, |w.gens|).None? ==> w.gens[a].startedAt == 0
      ensures Anchor(w.gens, |w.gens|).Some? && a < Anchor(w.gens, |w.gens|).value ==> w.gens[a] == EmptyGen(sh.blocks)
    {
      var i := if a == 0 then 0 else |w.gens| - a;
      assert RingAge(|w.gens|, i) == a;
      if Anchor(w.gens, |w.gens|).Some? {
        AgeGrows(sh, w.gens[a].startedAt, w.gens[Anchor(w.gens, |w.gens|).value].startedAt, now);
      }
    }
  }

  /** Re-anchoring keeps everything. */
  lemma ReanchorKeepsCount(sh: Shape, w: Window)
    ensures Occupied(Reanchor(sh, w).gens) == Occupied(w.gens)
  {
    hide Occupied;
    var best := Anchor(w.gens, |w.gens|);
    if best.Some? {
      var c := best.value;
      OccupiedConcat(w.gens[c..], w.gens[..c]);
      OccupiedConcat(w.gens[..c], w.gens[c..]);
      assert w.gens[..c] + w.gens[c..] == w.gens;
    }
  }
}
