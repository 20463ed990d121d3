/**
  Where the facts in a window come from.

  `P` is how a provider is named: a slot number inside one process, a host name across
  restarts.  `hosts` gives the provider behind each slot.
 */
module Evidence {
  import opened Words
  import opened Blocks
  import opened Rotation

  /** A 430 for `key` by provider `who` at `time`. */
  datatype Obs<P> = Obs(key: Key, who: P, time: nat)

  ghost predicate Witnessed<P>(log: iset<Obs<P>>, key: Key, who: P, since: nat) {
    exists o :: o in log && o.key == key && o.who == who && o.time >= since
  }

  /** Every stored fact was observed, no earlier than its generation claims to have started. */
  ghost predicate Backed<P>(hosts: seq<P>, w: Window, log: iset<Obs<P>>) {
    forall a, b, k, p: Slot ::
      0 <= a < |w.gens| && 0 <= b < |w.gens[a].blocks| && Says(w.gens[a].blocks[b], k, p) ==>
        p < |hosts| && w.gens[a].startedAt >= 1 && Witnessed(log, k, hosts[p], w.gens[a].startedAt)
  }

  /** No generation claims to have started after `now`. */
  ghost predicate StartedBy(w: Window, now: nat) {
    forall a :: 0 <= a < |w.gens| ==> w.gens[a].startedAt <= now
  }

  ghost function Observations<P>(hosts: seq<P>, key: Key, bits: Mask, now: nat): iset<Obs<P>> {
    iset p: Slot | 0 <= p < MAX_BACKENDS && Has(bits, p) && p < |hosts| :: Obs(key, hosts[p], now)
  }

  /** The window holds `o` as a fact, under the time at which the generation claims to have started. */
  ghost predicate Claims<P>(hosts: seq<P>, w: Window, o: Obs<P>) {
    exists a, b, p: Slot ::
      0 <= a < |w.gens| && 0 <= b < |w.gens[a].blocks| && Says(w.gens[a].blocks[b], o.key, p)
      && p < |hosts| && o.who == hosts[p] && o.time == w.gens[a].startedAt
  }

  /** A backed window is backed by its own claims. */
  lemma BackedByClaims<P>(hosts: seq<P>, w: Window, log: iset<Obs<P>>, claims: iset<Obs<P>>)
    requires Backed(hosts, w, log) && forall o :: Claims(hosts, w, o) ==> o in claims
    ensures Backed(hosts, w, claims)
  {
    forall a, b, k, p: Slot | 0 <= a < |w.gens| && 0 <= b < |w.gens[a].blocks| && Says(w.gens[a].blocks[b], k, p)
      ensures Witnessed(claims, k, hosts[p], w.gens[a].startedAt)
    {
      var o := Obs(k, hosts[p], w.gens[a].startedAt);
      assert Says(w.gens[a].blocks[b], o.key, p);
      assert Claims(hosts, w, o);
    }
  }

  lemma ClaimIsWitnessed<P>(hosts: seq<P>, w: Window, log: iset<Obs<P>>, o: Obs<P>)
    requires Backed(hosts, w, log) && Claims(hosts, w, o)
    ensures Witnessed(log, o.key, o.who, o.time)
  {
  }

  lemma BackedMore<P>(hosts: seq<P>, w: Window, log: iset<Obs<P>>, more: iset<Obs<P>>)
    requires Backed(hosts, w, log) && log <= more
    ensures Backed(hosts, w, more)
  {
    forall a, b, k, p: Slot | 0 <= a < |w.gens| && 0 <= b < |w.gens[a].blocks| && Says(w.gens[a].blocks[b], k, p)
      ensures Witnessed(more, k, hosts[p], w.gens[a].startedAt)
    {
      assert Witnessed(log, k, hosts[p], w.gens[a].startedAt);
    }
  }

  lemma BackedRotate<P>(sh: Shape, hosts: seq<P>, w: Window, log: iset<Obs<P>>, now: nat)
    requires Fits(sh, w) && Backed(hosts, w, log)
    ensures Backed(hosts, Rotate(sh, w, now), log)
    ensures forall t :: StartedBy(w, t) ==> StartedBy(Rotate(sh, w, now), t)
  {
  }

  lemma BackedRecord<P>(sh: Shape, hosts: seq<P>, w: Window, log: iset<Obs<P>>,
                        spot: Spot, key: Key, bits: Mask, now: u64)
    requires Fits(sh, w) && Backed(hosts, w, log) && StartedBy(w, now) && now >= 1
    requires sh.blocks != 0 ==> spot.block < sh.blocks
    requires forall p: Slot :: Has(bits, p) ==> p < |hosts|
    ensures Backed(hosts, Record(sh, w, spot, key, bits, now), log + Observations(hosts, key, bits, now))
    ensures StartedBy(Record(sh, w, spot, key, bits, now), now)
  {
    var more := log + Observations(hosts, key, bits, now);
    BackedRotate(sh, hosts, w, log, now);
    var rotated := Rotate(sh, w, now);
    BackedMore(hosts, rotated, log, more);
    if Stores(sh, bits) {
      var w' := Record(sh, w, spot, key, bits, now);
      var was := rotated.gens[0].blocks[spot.block];
      forall a, b, k, p: Slot | 0 <= a < |w'.gens| && 0 <= b < |w'.gens[a].blocks| && Says(w'.gens[a].blocks[b], k, p)
        ensures p < |hosts| && w'.gens[a].startedAt >= 1 && Witnessed(more, k, hosts[p], w'.gens[a].startedAt)
      {
        if a == 0 && b == spot.block && !Says(was, k, p) {
          InsertSaysOnly(was, spot.fp, key, bits, k, p);
          assert Obs(key, hosts[p], now) in more;
        } else {
          assert Says(rotated.gens[a].blocks[b], k, p);
        }
      }
    }
  }
}
