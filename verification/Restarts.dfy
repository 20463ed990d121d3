/**
  What saving and loading do to the facts of one shard.

  A restored fact keeps its provider and its time: it sits in a generation that claims to
  have started no later than the fact was observed, and the rotation schedule is the one
  the restored generations would have had.
 */
module Restarts {
  import opened Words
  import opened Blocks
  import opened Rotation
  import opened Evidence
  import opened Snapshots
  import Retention

  // ---------- facts in entries ----------

  /** Every fact of the entries was observed, no earlier than the entry claims. */
  ghost predicate EntryBacked<P>(hosts: seq<P>, e: Entry, log: iset<Obs<P>>, now: nat) {
    && e.insertedAt <= now
    && forall p: Slot :: Has(e.missing, p) ==>
         p < |hosts| && e.insertedAt >= 1 && Witnessed(log, e.key, hosts[p], e.insertedAt)
  }

  ghost predicate EntriesBacked<P>(hosts: seq<P>, entries: seq<Entry>, log: iset<Obs<P>>, now: nat) {
    forall e :: e in entries ==> EntryBacked(hosts, e, log, now)
  }

  lemma {:induction false} EntryOfBlocks(blocks: seq<Block>, t: u64, e: Entry)
    requires e in BlocksEntries(blocks, t)
    ensures e.insertedAt == t
    ensures exists b :: 0 <= b < |blocks| && forall p: Slot :: Has(e.missing, p) ==> Says(blocks[b], e.key, p)
  {
    var n := |blocks| - 1;
    if e in BlocksEntries(blocks[..n], t) {
      EntryOfBlocks(blocks[..n], t, e);
      var b :| 0 <= b < n && forall p: Slot :: Has(e.missing, p) ==> Says(blocks[..n][b], e.key, p);
      assert blocks[..n][b] == blocks[b];
    } else {
      assert e in BlockEntries(blocks[n], t);
      assert forall p: Slot :: Has(e.missing, p) ==> Says(blocks[n], e.key, p);
    }
  }

  lemma {:induction false} EntryOfGens(gens: seq<Gen>, e: Entry)
    requires e in GensEntries(gens)
    ensures exists a :: 0 <= a < |gens| && e in BlocksEntries(gens[a].blocks, gens[a].startedAt)
  {
    var n := |gens| - 1;
    if e in GensEntries(gens[..n]) {
      EntryOfGens(gens[..n], e);
      var a :| 0 <= a < n && e in BlocksEntries(gens[..n][a].blocks, gens[..n][a].startedAt);
      assert gens[..n][a] == gens[a];
    } else {
      assert e in BlocksEntries(gens[n].blocks, gens[n].startedAt);
    }
  }

  /** A snapshot of a backed window is backed. */
  lemma SnapshotBacked<P>(hosts: seq<P>, w: Window, log: iset<Obs<P>>, now: nat)
    requires Backed(hosts, w, log) && StartedBy(w, now)
    ensures EntriesBacked(hosts, GensEntries(w.gens), log, now)
  {
    forall e | e in GensEntries(w.gens)
      ensures EntryBacked(hosts, e, log, now)
    {
      EntryOfGens(w.gens, e);
      var a :| 0 <= a < |w.gens| && e in BlocksEntries(w.gens[a].blocks, w.gens[a].startedAt);
      EntryOfBlocks(w.gens[a].blocks, w.gens[a].startedAt, e);
    }
  }

  // ---------- restoring ----------

  /** One restored entry: its facts are as old as they were, and so are all others. */
  lemma RestoreBacked<P>(sh: Shape, hosts: seq<P>, w: Window, log: iset<Obs<P>>, e: Entry, block: nat, now: u64,
                         ttl: u64)
    requires Fits(sh, w) && Backed(hosts, w, log) && StartedBy(w, now) && (sh.blocks != 0 ==> block < sh.blocks)
    requires EntryBacked(hosts, e, log, now)
    ensures Backed(hosts, RestoreEntry(sh, w, e, block, now, ttl), log)
    ensures StartedBy(RestoreEntry(sh, w, e, block, now, ttl), now)
  {
    if !Skipped(sh, e, now, ttl) {
      var c := AgeOf(sh, e.insertedAt, now);
      var w' := RestoreEntry(sh, w, e, block, now, ttl);
      var was := w.gens[c].blocks[block];
      forall a, b, k, p: Slot | 0 <= a < |w'.gens| && 0 <= b < |w'.gens[a].blocks| && Says(w'.gens[a].blocks[b], k, p)
        ensures p < |hosts| && w'.gens[a].startedAt >= 1 && Witnessed(log, k, hosts[p], w'.gens[a].startedAt)
      {
        var bits := e.missing;
        if a == c && b == block && !Says(was, k, p) {
          InsertSaysOnly(was, Fingerprint(e.hash, e.tag), e.key, e.missing, k, p);
          assert Witnessed(log, k, hosts[p], e.insertedAt);
        } else {
          assert Says(w.gens[a].blocks[b], k, p);
          assert Witnessed(log, k, hosts[p], w.gens[a].startedAt);
        }
        var q :| 0 <= q < MAX_BACKENDS && bits[q];
        assert Has(bits, q);
      }
    }
  }

  /** Re-anchoring moves whole generations. */
  lemma ReanchorBacked<P>(sh: Shape, hosts: seq<P>, w: Window, log: iset<Obs<P>>, now: nat)
    requires Fits(sh, w) && Backed(hosts, w, log) && StartedBy(w, now)
    ensures Fits(sh, Reanchor(sh, w)) && Backed(hosts, Reanchor(sh, w), log) && StartedBy(Reanchor(sh, w), now)
  {
    var w', best := Reanchor(sh, w), Anchor(w.gens, |w.gens|);
    if best.Some? {
      var c := best.value;
      assert forall a :: 0 <= a < |w.gens| - c ==> w'.gens[a] == w.gens[a + c];
      assert forall a :: |w.gens| - c <= a < |w.gens| ==> w'.gens[a] == w.gens[a - (|w.gens| - c)];
    }
  }

  /** Too old an entry is dropped; any other lands in a generation that starts no later than the entry. */
  lemma RestoreNeverFreshens(sh: Shape, w: Window, e: Entry, block: nat, now: u64, ttl: u64)
    requires Fits(sh, w) && (sh.blocks != 0 ==> block < sh.blocks)
    ensures SatSub(now, e.insertedAt) >= ttl ==> RestoreEntry(sh, w, e, block, now, ttl) == w
    ensures !Skipped(sh, e, now, ttl) ==>
              var a := AgeOf(sh, e.insertedAt, now);
              var w' := RestoreEntry(sh, w, e, block, now, ttl);
              && w'.gens[a].startedAt <= e.insertedAt
              && (forall p: Slot :: Has(e.missing, p) ==>
                    Finds(w'.gens[a].blocks[block], Fingerprint(e.hash, e.tag), e.key, p))
              && forall c :: 0 <= c < sh.generations && w.gens[c].startedAt != 0 ==>
                   w'.gens[c].startedAt <= w.gens[c].startedAt
  {
    if !Skipped(sh, e, now, ttl) {
      var b := w.gens[AgeOf(sh, e.insertedAt, now)].blocks[block];
      forall p: Slot | Has(e.missing, p)
        ensures Finds(InsertBlock(b, Fingerprint(e.hash, e.tag), e.key, e.missing), Fingerprint(e.hash, e.tag),
                      e.key, p)
      {
        InsertFinds(b, Fingerprint(e.hash, e.tag), e.key, e.missing, p);
      }
    }
  }

  // ---------- the schedule after a restart ----------

  /** No restored generation is as old as the time to live. */
  ghost predicate Young(w: Window, now: nat, ttl: nat) {
    forall a :: 0 <= a < |w.gens| && w.gens[a].startedAt != 0 ==> SatSub(now, w.gens[a].startedAt) < ttl
  }

  lemma YoungRestore(sh: Shape, w: Window, e: Entry, block: nat, now: u64, ttl: u64)
    requires Fits(sh, w) && Young(w, now, ttl) && (sh.blocks != 0 ==> block < sh.blocks)
    ensures Young(RestoreEntry(sh, w, e, block, now, ttl), now, ttl)
  {
  }

  lemma ClassBounds(x: nat, d: nat, g: nat, a: nat)
    requires d > 0 && g >= 1 && a == Min(x / d, g - 1)
    ensures a * d <= x && (a < g - 1 ==> x < (a + 1) * d)
  {
    var q := x / d;
    assert x == q * d + x % d && (q + 1) * d == q * d + d;
    if q >= g {
      MulOrder(g - 1, q, d);
    }
  }

  lemma ReachCovers(sh: Shape, d: nat)
    requires sh.Finite() && d >= 1
    ensures (d + 1) * sh.interval - 1 + sh.interval <= Retention.Reach(sh, d)
  {
    Retention.ReachInClosedForm(sh, d);
    var i: nat := sh.interval;
    assert d * (2 * i - 1) == d * i + d * (i - 1);
    assert d * (i - 1) >= i - 1 by { MulOrder(1, d, i - 1); }
    assert (d + 1) * i == d * i + i;
  }

  /** How long after its start the oldest generation of a restored ring may last. */
  function Stretch(sh: Shape, ttl: nat): nat
    requires sh.Finite() && sh.Valid()
  {
    ttl + Retention.Product(Min(sh.generations - 1, 2), sh.interval - 1)
  }

  /** A restored generation of the widest age class that has reached the end of the ring. */
  ghost predicate Oldest(sh: Shape, w: Window, ttl: nat, a: nat)
    requires sh.Finite() && Fits(sh, w) && a < |w.gens|
  {
    a == sh.generations - 1 && w.next + Retention.Slack(sh, w) <= w.gens[a].startedAt + Stretch(sh, ttl)
  }

  /** A restored generation of the widest age class that the next rotation moves to the end of the ring. */
  ghost predicate Overdue(sh: Shape, w: Window, ttl: nat, clock: nat, a: nat)
    requires sh.Finite() && Fits(sh, w) && a < |w.gens|
  {
    && a < sh.generations - 1 && sh.generations >= 3
    && var m: nat := sh.generations - 1 - a;
    && w.next + Retention.Product(m, sh.interval) <= w.gens[a].startedAt + ttl + (sh.interval - 1)
    && w.next + Retention.Product(m - 1, sh.interval) <= clock
  }

  /** Every generation will go in time, restored or not. */
  ghost predicate Timed(sh: Shape, w: Window, ttl: nat, clock: nat)
    requires sh.Finite() && Fits(sh, w)
  {
    forall a :: 0 <= a < |w.gens| && w.gens[a].startedAt != 0 ==>
      w.next != 0 && (Retention.InReach(sh, w, a) || Oldest(sh, w, ttl, a) || Overdue(sh, w, ttl, clock, a))
  }

  // ---------- operations keep it ----------

  /** A rotation brings an overdue generation to the end of the ring, or past it. */
  lemma OverdueRotate(sh: Shape, w: Window, ttl: nat, clock: nat, now: nat, a: nat, b: nat)
    requires Fits(sh, w) && Due(sh, w, now) && clock <= now && a < |w.gens| && Overdue(sh, w, ttl, clock, a)
    requires a + Rotations(sh, w, now) == b < |w.gens|
    ensures Fits(sh, Rotate(sh, w, now)) && Oldest(sh, Rotate(sh, w, now), ttl, b)
  {
    var i: nat, m: nat, r := sh.interval, sh.generations - 1 - a, Rotations(sh, w, now);
    Retention.RotateShifts(sh, w, now);
    assert r == 1 + (now - w.next) / i;
    QuotientAtLeast(now - w.next, i, m - 1);
    assert r == m;
  }

  lemma TimedRotate(sh: Shape, w: Window, ttl: nat, clock: nat, now: nat)
    requires Fits(sh, w) && sh.Finite() && Timed(sh, w, ttl, clock) && clock <= now
    ensures Fits(sh, Rotate(sh, w, now)) && Timed(sh, Rotate(sh, w, now), ttl, now)
  {
    if Due(sh, w, now) {
      hide Rotate, Retention.InReach, Oldest, Overdue;
      Retention.RotateShifts(sh, w, now);
      var w', r := Rotate(sh, w, now), Rotations(sh, w, now);
      forall a | 0 <= a < |w'.gens| && w'.gens[a].startedAt != 0
        ensures Retention.InReach(sh, w', a) || Oldest(sh, w', ttl, a)
      {
        assert a >= r && w'.gens[a] == w.gens[a - r];
        OldestIsLast(sh, w, ttl, a - r);
        if Retention.InReach(sh, w, a - r) {
          Retention.InReachRotate(sh, w, now, a - r, a);
        } else {
          OverdueRotate(sh, w, ttl, clock, now, a - r, a);
        }
      }
    } else {
      TimedLater(sh, w, ttl, clock, now);
    }
  }

  lemma OldestIsLast(sh: Shape, w: Window, ttl: nat, a: nat)
    requires sh.Finite() && Fits(sh, w) && a < |w.gens|
    ensures Oldest(sh, w, ttl, a) ==> a == sh.generations - 1
  {
  }

  lemma TimedLater(sh: Shape, w: Window, ttl: nat, clock: nat, now: nat)
    requires Fits(sh, w) && sh.Finite() && Timed(sh, w, ttl, clock) && clock <= now
    ensures Timed(sh, w, ttl, now)
  {
  }

  /** After a rotation nothing is overdue, so that the schedule lies ahead. */
  lemma NothingOverdue(sh: Shape, w: Window, ttl: nat, clock: nat, now: nat, a: nat)
    requires Fits(sh, w) && sh.Finite() && sh.blocks != 0 && Timed(sh, w, ttl, clock) && clock <= now < U64_MAX
    requires a < sh.generations && Rotate(sh, w, now).gens[a].startedAt != 0
    ensures var w' := Rotate(sh, w, now);
            && Fits(sh, w') && w'.next != 0 && now < w'.next
            && (Retention.InReach(sh, w', a) || Oldest(sh, w', ttl, a))
  {
    hide Rotate, Overdue, Oldest, Retention.InReach;
    TimedRotate(sh, w, ttl, clock, now);
    Retention.RotateCatchesUp(sh, w, now);
    var w' := Rotate(sh, w, now);
    if Overdue(sh, w', ttl, now, a) {
      OverdueIsDue(sh, w', ttl, now, a);
    }
  }

  lemma OverdueIsDue(sh: Shape, w: Window, ttl: nat, clock: nat, a: nat)
    requires sh.Finite() && Fits(sh, w) && a < |w.gens| && Overdue(sh, w, ttl, clock, a)
    ensures w.next <= clock
  {
    hide Retention.Product;
  }

  lemma TimedRecord(sh: Shape, w: Window, ttl: nat, clock: nat, spot: Spot, key: Key, bits: Mask, now: u64)
    requires Fits(sh, w) && sh.Finite() && Timed(sh, w, ttl, clock) && spot.block < sh.blocks
    requires clock <= now && 1 <= now < U64_MAX
    ensures Fits(sh, Record(sh, w, spot, key, bits, now)) && Timed(sh, Record(sh, w, spot, key, bits, now), ttl, now)
  {
    TimedRotate(sh, w, ttl, clock, now);
    if Stores(sh, bits) {
      hide Rotate, Stretch, Overdue;
      var r, w' := Rotate(sh, w, now), Record(sh, w, spot, key, bits, now);
      forall a | 0 <= a < |w'.gens| && w'.gens[a].startedAt != 0
        ensures w'.next != 0 && (Retention.InReach(sh, w', a) || Oldest(sh, w', ttl, a))
      {
        if r.gens[a].startedAt != 0 {
          NothingOverdue(sh, w, ttl, clock, now, a);
        }
      }
    }
  }

  /** Whatever a window holds after a rotation at `now` started less than its reach or the stretch ago. */
  lemma HeldIsRecent(sh: Shape, w: Window, ttl: nat, clock: nat, now: nat, a: nat)
    requires Fits(sh, w) && sh.Finite() && sh.blocks != 0 && Timed(sh, w, ttl, clock) && clock <= now < U64_MAX
    requires a < sh.generations && Rotate(sh, w, now).gens[a].startedAt != 0
    ensures now < Rotate(sh, w, now).gens[a].startedAt + Max(Retention.Reach(sh, a), Stretch(sh, ttl))
  {
    hide Rotate, Stretch;
    NothingOverdue(sh, w, ttl, clock, now, a);
  }

  // ---------- and so does restoring ----------

  /** Restoring leaves a schedule in which every generation goes in time. */
  lemma TimedReanchor(sh: Shape, w: Window, now: nat, ttl: u64)
    requires Fits(sh, w) && sh.Finite() && Bucketed(sh, w, now) && Young(w, now, ttl) && StartedBy(w, now)
    requires forall a :: 0 <= a < |w.gens| && w.gens[a].startedAt == 0 ==> w.gens[a] == EmptyGen(sh.blocks)
    ensures Fits(sh, Reanchor(sh, w)) && Timed(sh, Reanchor(sh, w), ttl, now)
  {
    ReanchorSkipsCleared(sh, w, now);
    var w', best := Reanchor(sh, w), Anchor(w.gens, |w.gens|);
    if best.Some? {
      var c: nat := best.value;
      assert w'.gens[0] == w.gens[c] && Retention.Slack(sh, w') == 0;
      hide Retention.InReach, Oldest, Overdue, WillGo, Bucketed, Young;
      forall a | 0 <= a < |w'.gens| && w'.gens[a].startedAt != 0
        ensures w'.next != 0
        ensures Retention.InReach(sh, w', a) || Oldest(sh, w', ttl, a) || Overdue(sh, w', ttl, now, a)
      {
        if a < |w.gens| - c {
          assert w'.gens[a] == w.gens[a + c];
          InTime(sh, w, now, ttl, c, a + c, a);
          GoesInTime(sh, w', ttl, now, a, w.gens[c].startedAt + sh.interval);
        }
      }
    }
  }

  /** A generation that started at `early`, has age `d` and next rotates at `next`. */
  ghost predicate WillGo(sh: Shape, early: nat, next: nat, ttl: nat, clock: nat, d: nat)
    requires sh.Finite() && sh.Valid()
  {
    || next <= early + Retention.Reach(sh, d)
    || (d == sh.generations - 1 && next <= early + Stretch(sh, ttl))
    || (d < sh.generations - 1 && sh.generations >= 3
        && var m: nat := sh.generations - 1 - d;
        && next + Retention.Product(m, sh.interval) <= early + ttl + (sh.interval - 1)
        && next + Retention.Product(m - 1, sh.interval) <= clock)
  }

  lemma GoesInTime(sh: Shape, w: Window, ttl: nat, clock: nat, d: nat, next: nat)
    requires sh.Finite() && Fits(sh, w) && d < |w.gens| && Retention.Slack(sh, w) == 0 && w.next <= next
    requires WillGo(sh, w.gens[d].startedAt, next, ttl, clock, d)
    ensures Retention.InReach(sh, w, d) || Oldest(sh, w, ttl, d) || Overdue(sh, w, ttl, clock, d)
  {
  }

  lemma NearReanchor(sh: Shape, w: Window, now: nat)
    requires Fits(sh, w) && sh.Finite() && StartedBy(w, now) && w.next == 0
    ensures Retention.Near(sh, Reanchor(sh, w), now)
  {
  }

  lemma TimesInOrder(i: nat, early: nat, recent: nat, now: nat, a: nat, c: nat, d: nat, reach: nat)
    requires a == c + d && early <= now && recent <= now && c * i <= now - recent && now - early < (a + 1) * i
    requires (d + 1) * i - 1 + i <= reach
    ensures recent + i <= early + reach
  {
    assert (a + 1) * i == c * i + (d + 1) * i;
  }

  lemma AgeBounds(sh: Shape, w: Window, now: nat, a: nat)
    requires Fits(sh, w) && sh.Finite() && Bucketed(sh, w, now) && StartedBy(w, now)
    requires a < |w.gens| && w.gens[a].startedAt != 0
    ensures a * sh.interval <= now - w.gens[a].startedAt
    ensures a < sh.generations - 1 ==> now - w.gens[a].startedAt < (a + 1) * sh.interval
  {
    ClassBounds(now - w.gens[a].startedAt, sh.interval, sh.generations, a);
  }

  /** The schedule that the generation of age class `c` sets for that of class `a`, which becomes the one of age `d`. */
  lemma InTime(sh: Shape, w: Window, now: nat, ttl: u64, c: nat, a: nat, d: nat)
    requires Fits(sh, w) && sh.Finite() && Bucketed(sh, w, now) && Young(w, now, ttl) && StartedBy(w, now)
    requires c <= a < |w.gens| && d == a - c && w.gens[a].startedAt != 0 && w.gens[c].startedAt != 0
    ensures WillGo(sh, w.gens[a].startedAt, w.gens[c].startedAt + sh.interval, ttl, now, d)
  {
    hide Retention.Reach, Bucketed;
    AgeBounds(sh, w, now, a);
    AgeBounds(sh, w, now, c);
    var i: nat, early, recent := sh.interval, w.gens[a].startedAt, w.gens[c].startedAt;
    if d == 0 {
      Retention.ReachInClosedForm(sh, d);
    } else if a < sh.generations - 1 {
      ReachCovers(sh, d);
      TimesInOrder(i, early, recent, now, a, c, d, Retention.Reach(sh, d));
    } else if c == 0 {
      assert Retention.Product(Min(sh.generations - 1, 2), i - 1) >= i - 1 by {
        MulOrder(1, Min(sh.generations - 1, 2), i - 1);
      }
    } else {
      assert c * i == (c - 1) * i + i;
    }
  }
}
