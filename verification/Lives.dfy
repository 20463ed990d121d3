/**
  The hybrid cache over restarts: entries stay on disk while the proxy starts again and
  again, with other servers, other provider slots, and sometimes without its registry.
  Whatever is found on disk, a lookup reports a provider as missing a message only if the
  server now in that slot answered 430 for that message, and not long ago.
 */
module Lives {
  import opened Words
  import opened Identities
  import opened Lookups
  import opened HybridCache
  import Registry
  import Slots
  import SnapshotCodec
  import Ttl

  type Disk = map<Key, DiskCachedArticle>

  /** A start or a loss of the registry, an operation with the disk it leaves, or entries dropped from disk. */
  datatype Turn =
    | Restart(event: Slots.Event)
    | Operate(op: Op, left: Disk)
    | Shed(left: Disk)

  function Events(turns: seq<Turn>): seq<Slots.Event> {
    if turns == [] then []
    else
      var turn := turns[|turns| - 1];
      Events(turns[..|turns| - 1]) + if turn.Restart? then [turn.event] else []
  }

  function OnDisk(turns: seq<Turn>): Disk {
    if turns == [] then map[]
    else if turns[|turns| - 1].Restart? then OnDisk(turns[..|turns| - 1])
    else turns[|turns| - 1].left
  }

  function Clock(turns: seq<Turn>): u64 {
    if turns == [] then 0
    else if turns[|turns| - 1].Operate? then turns[|turns| - 1].op.now
    else Clock(turns[..|turns| - 1])
  }

  /** The provider layouts of all successful starts; the last one is in use. */
  function Layouts(utf8: SnapshotCodec.Utf8, turns: seq<Turn>): seq<Registry.Registered> {
    Slots.After(utf8, Events(turns)).layouts
  }

  /** Every operation does to the disk what the methods of the cache promise, under the layout in use. */
  ghost predicate TurnOk(layouts: seq<Registry.Registered>, disk: Disk, clock: u64, base: u64, turn: Turn) {
    match turn
    case Restart(_) => true
    case Shed(left) => forall k :: k in left ==> k in disk && left[k] == disk[k]
    case Operate(op, left) =>
      && layouts != [] && clock <= op.now
      && var layout := layouts[|layouts| - 1];
      && (op.Miss? ==> op.slot < |layout.identities|) && Rewrites(disk, left, op, layout.epoch)
      && Applies(ViewsOf(disk, layout.epoch), ViewsOf(left, layout.epoch), op, base)
  }

  ghost predicate Lawful(utf8: SnapshotCodec.Utf8, base: u64, turns: seq<Turn>) {
    turns == [] ||
    var rest := turns[..|turns| - 1];
    && Lawful(utf8, base, rest)
    && TurnOk(Layouts(utf8, rest), OnDisk(rest), Clock(rest), base, turns[|turns| - 1])
  }

  /** The cache itself: each of its operations is a turn of such a history. */
  method Perform(cache: HybridArticleCache, op: Op, ghost layouts: seq<Registry.Registered>) returns (r: Option<View>)
    requires cache.Valid() && cache.clock <= op.now && Storable(op)
    requires layouts != [] && cache.epoch == layouts[|layouts| - 1].epoch
    requires op.Miss? ==> op.slot < |layouts[|layouts| - 1].identities|
    modifies cache
    ensures cache.Valid() && cache.clock == op.now
    ensures TurnOk(layouts, old(cache.entries), old(cache.clock), cache.base, Operate(op, cache.entries))
    ensures r == if op.Get? then Fresh(KnownIn(ViewsOf(cache.entries, cache.epoch), op.key), cache.base, op.now)
                 else None
  {
    r := None;
    match op {
      case Ingest(_, _, _, _, _, _) => cache.Ingest(op);
      case HasStatus(_, _, _, _, _) => cache.RecordHasStatus(op);
      case HasStat(_, _, _, _) => cache.RecordStat(op);
      case Miss(_, _, _) => cache.RecordMiss(op);
      case Get(key, now) => r := cache.Get(key, now);
    }
  }

  /** A 430 for `key` from provider `who` at `at`. */
  datatype Sighting<P> = Sighting(key: Key, who: P, at: u64)

  ghost function Sighted<P>(who: Host -> P, layouts: seq<Registry.Registered>, turn: Turn): iset<Sighting<P>> {
    if turn.Operate? && turn.op.Miss? && layouts != [] && turn.op.slot < |layouts[|layouts| - 1].identities|
    then iset{Sighting(turn.op.key, who(layouts[|layouts| - 1].identities[turn.op.slot]), turn.op.now)}
    else iset{}
  }

  /** Every 430 of a history, with the server that was in the slot when it came. */
  ghost function Sightings<P>(utf8: SnapshotCodec.Utf8, who: Host -> P, turns: seq<Turn>): iset<Sighting<P>> {
    if turns == [] then iset{}
    else
      var rest := turns[..|turns| - 1];
      Sightings(utf8, who, rest) + Sighted(who, Layouts(utf8, rest), turns[|turns| - 1])
  }

  // ---------- the invariant ----------

  /** Some layout of this epoch had the sighted provider in slot `p`. */
  ghost predicate SeenUnder<P>(who: Host -> P, layouts: seq<Registry.Registered>, seen: iset<Sighting<P>>, epoch: u64,
                               key: Key, p: Slot, at: u64)
  {
    exists i :: 0 <= i < |layouts| && layouts[i].epoch == epoch && p < |layouts[i].identities|
                && Sighting(key, who(layouts[i].identities[p]), at) in seen
  }

  /** Every live miss of an entry was seen, under a layout of the epoch the entry was written in. */
  ghost predicate Attested<P>(who: Host -> P, layouts: seq<Registry.Registered>, seen: iset<Sighting<P>>, base: u64,
                              clock: u64, key: Key, d: DiskCachedArticle)
  {
    var v := Fresh(Some(ViewOf(d, d.epoch)), base, clock);
    forall p: Slot :: v.Some? && v.value.misses[p].Some? ==>
      SeenUnder(who, layouts, seen, d.epoch, key, p, v.value.misses[p].value)
  }

  lemma SeenMore<P>(who: Host -> P, layouts: seq<Registry.Registered>, seen: iset<Sighting<P>>,
                    layouts': seq<Registry.Registered>, seen': iset<Sighting<P>>, epoch: u64, key: Key, p: Slot,
                    at: u64)
    requires SeenUnder(who, layouts, seen, epoch, key, p, at) && layouts <= layouts' && seen <= seen'
    ensures SeenUnder(who, layouts', seen', epoch, key, p, at)
  {
    var i :| 0 <= i < |layouts| && layouts[i].epoch == epoch && p < |layouts[i].identities|
             && Sighting(key, who(layouts[i].identities[p]), at) in seen;
    assert layouts'[i] == layouts[i];
  }

  lemma AttestedMore<P>(who: Host -> P, layouts: seq<Registry.Registered>, seen: iset<Sighting<P>>,
                        layouts': seq<Registry.Registered>, seen': iset<Sighting<P>>, base: u64, clock: u64, now: u64,
                        key: Key, d: DiskCachedArticle)
    requires Attested(who, layouts, seen, base, clock, key, d) && layouts <= layouts' && seen <= seen' && clock <= now
    ensures Attested(who, layouts', seen', base, now, key, d)
  {
    hide SeenUnder;
    var known := Some(ViewOf(d, d.epoch));
    FreshLater(known, base, clock, now);
    var v := Fresh(known, base, now);
    forall p: Slot | v.Some? && v.value.misses[p].Some?
      ensures SeenUnder(who, layouts', seen', d.epoch, key, p, v.value.misses[p].value)
    {
      SeenMore(who, layouts, seen, layouts', seen', d.epoch, key, p, v.value.misses[p].value);
    }
  }

  /** A live miss after an operation was live before it, or is the one that it records. */
  lemma MissOrOld(known: Option<View>, op: Op, base: u64, p: Slot)
    ensures var v, was := Fresh(After(known, op, base), base, op.now), Fresh(known, base, op.now);
            v.Some? && v.value.misses[p].Some? ==>
              || (was.Some? && was.value.misses[p] == v.value.misses[p])
              || (op.Miss? && op.slot == p && v.value.misses[p].value == op.now)
  {
    FreshLater(known, base, op.now, op.now);
  }

  /** The entry that an operation writes under the layout in use. */
  lemma WrittenIsAttested<P>(who: Host -> P, layouts: seq<Registry.Registered>, seen: iset<Sighting<P>>, base: u64,
                             clock: u64, disk: Disk, op: Op, left: Disk)
    requires TurnOk(layouts, disk, clock, base, Operate(op, left)) && op.key in left
    requires op.key in disk ==> Attested(who, layouts, seen, base, clock, op.key, disk[op.key])
    requires left[op.key].epoch == layouts[|layouts| - 1].epoch
    ensures Attested(who, layouts, seen + Sighted(who, layouts, Operate(op, left)), base, op.now, op.key, left[op.key])
  {
    hide SeenUnder, Update;
    var layout := layouts[|layouts| - 1];
    var all := seen + Sighted(who, layouts, Operate(op, left));
    var known := KnownIn(ViewsOf(disk, layout.epoch), op.key);
    var v := Fresh(Some(ViewOf(left[op.key], layout.epoch)), base, op.now);
    assert v == Fresh(After(known, op, base), base, op.now);
    forall p: Slot | v.Some? && v.value.misses[p].Some?
      ensures SeenUnder(who, layouts, all, layout.epoch, op.key, p, v.value.misses[p].value)
    {
      MissOrOld(known, op, base, p);
      if op.Miss? && op.slot == p && v.value.misses[p].value == op.now {
        SeenNow(who, layouts, all, op.key, p, op.now);
      } else {
        var d := disk[op.key];
        assert d.epoch == layout.epoch;
        AttestedMore(who, layouts, seen, layouts, all, base, clock, op.now, op.key, d);
      }
    }
  }

  lemma SeenNow<P>(who: Host -> P, layouts: seq<Registry.Registered>, seen: iset<Sighting<P>>, key: Key, p: Slot,
                   now: u64)
    requires layouts != [] && p < |layouts[|layouts| - 1].identities|
    requires Sighting(key, who(layouts[|layouts| - 1].identities[p]), now) in seen
    ensures SeenUnder(who, layouts, seen, layouts[|layouts| - 1].epoch, key, p, now)
  {
  }

  lemma LayoutsGrow(utf8: SnapshotCodec.Utf8, turns: seq<Turn>)
    requires turns != []
    ensures Layouts(utf8, turns[..|turns| - 1]) <= Layouts(utf8, turns)
  {
    var rest, turn := turns[..|turns| - 1], turns[|turns| - 1];
    if turn.Restart? {
      assert Events(turns)[..|Events(turns)| - 1] == Events(rest);
    } else {
      assert Events(turns) == Events(rest);
    }
  }

  lemma {:induction false} DiskIsAttested<P>(utf8: SnapshotCodec.Utf8, who: Host -> P, base: u64, turns: seq<Turn>,
                                             key: Key)
    requires Lawful(utf8, base, turns) && key in OnDisk(turns)
    ensures Attested(who, Layouts(utf8, turns), Sightings(utf8, who, turns), base, Clock(turns), key,
                     OnDisk(turns)[key])
  {
    hide Attested, Layouts, Applies, Sighted;
    var rest, turn := turns[..|turns| - 1], turns[|turns| - 1];
    var layouts, seen := Layouts(utf8, rest), Sightings(utf8, who, rest);
    if key in OnDisk(rest) {
      DiskIsAttested(utf8, who, base, rest, key);
    }
    LayoutsGrow(utf8, turns);
    var d, all, now := OnDisk(turns)[key], Sightings(utf8, who, turns), Clock(turns);
    if turn.Operate? && key == turn.op.key && d.epoch == layouts[|layouts| - 1].epoch {
      WrittenIsAttested(who, layouts, seen, base, Clock(rest), OnDisk(rest), turn.op, turn.left);
      AttestedMore(who, layouts, all, Layouts(utf8, turns), all, base, now, now, key, d);
    } else {
      AttestedMore(who, layouts, seen, Layouts(utf8, turns), all, base, Clock(rest), now, key, d);
    }
  }

  /**
    Over any history of starts with any server lists, losses of the registry, cache
    operations and dropped entries, a lookup reports slot `p` as missing only if the server
    that is now in slot `p` answered 430 for this very key, less than one base time to live
    ago.
   */
  lemma ReportedMissWasSeen<P>(utf8: SnapshotCodec.Utf8, who: Host -> P, known: iset<Host>, base: u64,
                               turns: seq<Turn>, key: Key, p: Slot, now: u64)
    requires Slots.Steady(utf8, who, known) && Slots.Fresh(Events(turns)) && Slots.StartsWith(Events(turns), known)
    requires Lawful(utf8, base, turns) && Layouts(utf8, turns) != [] && Clock(turns) <= now
    ensures var layout := Layouts(utf8, turns)[|Layouts(utf8, turns)| - 1];
            var v := Fresh(KnownIn(ViewsOf(OnDisk(turns), layout.epoch), key), base, now);
            v.Some? && v.value.misses[p].Some? ==>
              && p < |layout.identities| && now < v.value.misses[p].value + base
              && Sighting(key, who(layout.identities[p]), v.value.misses[p].value) in Sightings(utf8, who, turns)
  {
    hide Lawful, Slots.Steady, Slots.After, Slots.Fresh, Slots.StartsWith, Sightings;
    var layouts, seen := Layouts(utf8, turns), Sightings(utf8, who, turns);
    var layout := layouts[|layouts| - 1];
    var v := Fresh(KnownIn(ViewsOf(OnDisk(turns), layout.epoch), key), base, now);
    if v.Some? && v.value.misses[p].Some? {
      var d := OnDisk(turns)[key];
      DiskIsAttested(utf8, who, base, turns, key);
      AttestedMore(who, layouts, seen, layouts, seen, base, Clock(turns), now, key, d);
      var i :| 0 <= i < |layouts| && layouts[i].epoch == d.epoch && p < |layouts[i].identities|
               && Sighting(key, who(layouts[i].identities[p]), v.value.misses[p].value) in seen;
      Slots.SlotKeepsItsHost(utf8, who, known, Events(turns), i, |layouts| - 1, p);
      Ttl.BaseTier(base);
    }
  }
}
