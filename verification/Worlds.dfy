/**
  Proxies that start, record, save their availability to files and load each other's files.

  A proxy has a provider table and an index; two proxies may have different tables,
  geometries and shard counts.  Files hold bytes.  Whatever happens, a proxy reports a
  provider as missing a message only if that provider was seen missing that message.
 */
module Worlds {
  import opened Words
  import opened Blocks
  import opened Rotation
  import opened Evidence
  import opened Index
  import opened Identities
  import opened Restoring
  import opened Snapshots
  import opened SnapshotCodec
  import opened Health
  import Restarts
  import Retention

  /** A running proxy: its providers by slot, and its index. */
  datatype Proxy = Proxy(layout: seq<Host>, index: Index)

  datatype World = World(proxies: map<nat, Proxy>, files: map<nat, seq<byte>>)

  datatype Step =
    | Boot(id: nat, geo: Geometry, layout: seq<Host>)
    | Do(id: nat, op: Op)
    | Save(id: nat, file: nat, at: u64)
    | Load(id: nat, file: nat, at: u64)
  {
    /** When the step happens; a boot does not look at the clock. */
    function Time(): u64 {
      match this
      case Boot(_, _, _) => 1
      case Do(_, op) => op.now
      case Save(_, _, at) => at
      case Load(_, _, at) => at
    }
  }

  /** Tables have at most 64 providers; a recorded slot belongs to the table. */
  predicate Possible(w: World, step: Step) {
    match step
    case Boot(_, geo, layout) => Sane(geo) && |layout| <= MAX_BACKENDS
    case Do(id, op) =>
      && id in w.proxies && |w.proxies[id].layout| <= MAX_BACKENDS
      && (op.Note? ==> Within(op.bits, |w.proxies[id].layout|))
    case Save(id, _, _) => id in w.proxies
    case Load(id, file, _) => id in w.proxies && file in w.files
  }

  ghost predicate Proper(w: World) {
    forall id :: id in w.proxies ==> Fit(w.proxies[id].index) && |w.proxies[id].layout| <= MAX_BACKENDS
  }

  /** The snapshot a proxy writes at `now`. */
  function Picture(h: Hasher, proxy: Proxy, now: u64): Snapshot
    requires Fit(proxy.index)
  {
    Snapshot(proxy.layout, SnapshotOf(h, proxy.index, now))
  }

  /** Loading: unreadable bytes change nothing, a legacy file counts as an empty snapshot. */
  function LoadedIndex(utf8: Utf8, proxy: Proxy, data: seq<byte>, now: u64): (idx: Index)
    requires Fit(proxy.index) && |proxy.layout| <= MAX_BACKENDS
    ensures Fit(idx)
  {
    match Parse(utf8, data)
    case Failed => proxy.index
    case Legacy => RestoreInto(proxy.index, proxy.layout, [], [], now)
    case Read(s) => RestoreInto(proxy.index, proxy.layout, s.hosts, s.entries, now)
  }

  function Perform(h: Hasher, utf8: Utf8, w: World, step: Step): (w': World)
    requires Proper(w)
    ensures Proper(w')
  {
    if !Possible(w, step) then w
    else
      match step
      case Boot(id, geo, layout) => w.(proxies := w.proxies[id := Proxy(layout, Empty(geo))])
      case Do(id, op) =>
        w.(proxies := w.proxies[id := w.proxies[id].(index := ApplyIndex(h, w.proxies[id].index, op))])
      case Save(id, file, at) =>
        var proxy := w.proxies[id];
        var after := proxy.(index := ApplyIndex(h, proxy.index, Sweep(at)));
        var picture := Picture(h, proxy, at);
        World(w.proxies[id := after],
              if Writable(picture) then w.files[file := SnapshotBytes(picture)] else w.files)
      case Load(id, file, at) =>
        var proxy := w.proxies[id];
        w.(proxies := w.proxies[id := proxy.(index := LoadedIndex(utf8, proxy, w.files[file], at))])
  }

  function Happen(h: Hasher, utf8: Utf8, steps: seq<Step>): (w: World)
    ensures Proper(w)
  {
    if steps == [] then World(map[], map[])
    else Perform(h, utf8, Happen(h, utf8, steps[..|steps| - 1]), steps[|steps| - 1])
  }

  lemma HappenMore(h: Hasher, utf8: Utf8, steps: seq<Step>, step: Step)
    ensures Happen(h, utf8, steps + [step]) == Perform(h, utf8, Happen(h, utf8, steps), step)
  {
    assert (steps + [step])[..|steps|] == steps;
  }

  lemma Boots(h: Hasher, utf8: Utf8, w: World, id: nat, geo: Geometry, layout: seq<Host>)
    requires Proper(w) && Sane(geo) && |layout| <= MAX_BACKENDS
    ensures Perform(h, utf8, w, Boot(id, geo, layout)) == w.(proxies := w.proxies[id := Proxy(layout, Empty(geo))])
  {
  }

  lemma Does(h: Hasher, utf8: Utf8, w: World, id: nat, op: Op)
    requires Proper(w) && id in w.proxies && (op.Note? ==> Within(op.bits, |w.proxies[id].layout|))
    ensures Perform(h, utf8, w, Do(id, op)) ==
            w.(proxies := w.proxies[id := w.proxies[id].(index := ApplyIndex(h, w.proxies[id].index, op))])
  {
  }

  lemma Saves(h: Hasher, utf8: Utf8, w: World, id: nat, file: nat, at: u64)
    requires Proper(w) && id in w.proxies && Writable(Picture(h, w.proxies[id], at))
    ensures file in Perform(h, utf8, w, Save(id, file, at)).files
    ensures Perform(h, utf8, w, Save(id, file, at)).files[file] == SnapshotBytes(Picture(h, w.proxies[id], at))
  {
  }

  lemma Loads(h: Hasher, utf8: Utf8, w: World, id: nat, file: nat, at: u64, s: Snapshot)
    requires Proper(w) && id in w.proxies && file in w.files && Parse(utf8, w.files[file]) == Read(s)
    ensures var w' := Perform(h, utf8, w, Load(id, file, at));
            && id in w'.proxies && w'.proxies[id].layout == w.proxies[id].layout
            && w'.proxies[id].index == RestoreInto(w.proxies[id].index, w.proxies[id].layout, s.hosts, s.entries, at)
  {
  }

  // ---------- what was observed ----------

  /** How providers are told apart. */
  type Naming<!P> = Host -> P

  ghost function Names<P>(who: Naming<P>, hosts: seq<Host>): (names: seq<P>)
    ensures |names| == |hosts| && forall i :: 0 <= i < |hosts| ==> names[i] == who(hosts[i])
  {
    seq(|hosts|, i requires 0 <= i < |hosts| => who(hosts[i]))
  }

  ghost function LearnedBy<P>(who: Naming<P>, w: World, step: Step): iset<Obs<P>> {
    if step.Do? && Possible(w, step) then Learned(Names(who, w.proxies[step.id].layout), step.op) else iset{}
  }

  /** Every miss that any proxy recorded after the first `from` steps. */
  ghost function Since<P>(h: Hasher, utf8: Utf8, who: Naming<P>, steps: seq<Step>, from: nat): iset<Obs<P>> {
    if |steps| <= from then iset{}
    else
      var rest := steps[..|steps| - 1];
      Since(h, utf8, who, rest, from) + LearnedBy(who, Happen(h, utf8, rest), steps[|steps| - 1])
  }

  /** Every miss that any proxy recorded. */
  ghost function Observed<P>(h: Hasher, utf8: Utf8, who: Naming<P>, steps: seq<Step>): iset<Obs<P>> {
    Since(h, utf8, who, steps, 0)
  }

  /** The clock: at least 1, before the last representable reading, never going back. */
  ghost predicate InOrder(steps: seq<Step>, now: nat) {
    && 1 <= now < U64_MAX
    && (forall i :: 0 <= i < |steps| ==> 1 <= steps[i].Time() <= now)
    && (forall i, j :: 0 <= i < j < |steps| && !steps[j].Boot? ==> steps[i].Time() <= steps[j].Time())
  }

  ghost predicate BootsWith(steps: seq<Step>, known: iset<Host>) {
    forall i :: 0 <= i < |steps| && steps[i].Boot? ==> All(steps[i].layout, known)
  }

  /** The naming does not tell a host from a known host that a load reads it as. */
  ghost predicate Faithful<P>(utf8: Utf8, who: Naming<P>, known: iset<Host>) {
    forall x, y :: x in known && y in known && HostOk(utf8, x) && y == Canon(x) ==> who(y) == who(x)
  }

  // ---------- the invariant ----------

  /** Every fact of an entry in a file about a known provider was observed, no earlier than the entry claims. */
  ghost predicate EntryTells<P>(who: Naming<P>, known: iset<Host>, hosts: seq<Host>, e: Entry, log: iset<Obs<P>>,
                                now: nat)
  {
    && e.insertedAt <= now
    && forall p: Slot :: Has(e.missing, p) && p < |hosts| && hosts[p] in known ==>
         e.insertedAt >= 1 && Witnessed(log, e.key, who(hosts[p]), e.insertedAt)
  }

  /** What can be read from the file was observed. */
  ghost predicate FileBacked<P>(utf8: Utf8, who: Naming<P>, known: iset<Host>, data: seq<byte>, log: iset<Obs<P>>,
                                now: nat)
  {
    var r := Parse(utf8, data);
    r.Read? ==> forall e :: e in r.snapshot.entries ==> EntryTells(who, known, r.snapshot.hosts, e, log, now)
  }

  ghost predicate ProxyBacked<P>(who: Naming<P>, known: iset<Host>, proxy: Proxy, log: iset<Obs<P>>, now: nat) {
    && |proxy.layout| <= MAX_BACKENDS && All(proxy.layout, known)
    && HealthyIndex(Names(who, proxy.layout), proxy.index, log, now)
  }

  ghost predicate WorldBacked<P>(utf8: Utf8, who: Naming<P>, known: iset<Host>, w: World, log: iset<Obs<P>>, now: nat) {
    && (forall id :: id in w.proxies ==> ProxyBacked(who, known, w.proxies[id], log, now))
    && (forall f :: f in w.files ==> FileBacked(utf8, who, known, w.files[f], log, now))
  }

  lemma FileBackedMore<P>(utf8: Utf8, who: Naming<P>, known: iset<Host>, data: seq<byte>, log: iset<Obs<P>>,
                          more: iset<Obs<P>>, clock: nat, now: nat)
    requires FileBacked(utf8, who, known, data, log, clock) && log <= more && clock <= now
    ensures FileBacked(utf8, who, known, data, more, now)
  {
    hide Parse;
    var r := Parse(utf8, data);
    forall e, p: Slot | r.Read? && e in r.snapshot.entries && Has(e.missing, p) && p < |r.snapshot.hosts|
                        && r.snapshot.hosts[p] in known
      ensures Witnessed(more, e.key, who(r.snapshot.hosts[p]), e.insertedAt)
    {
      assert EntryTells(who, known, r.snapshot.hosts, e, log, clock);
      assert Witnessed(log, e.key, who(r.snapshot.hosts[p]), e.insertedAt);
    }
  }

  lemma WorldBackedMore<P>(utf8: Utf8, who: Naming<P>, known: iset<Host>, w: World, log: iset<Obs<P>>,
                           more: iset<Obs<P>>, clock: nat, now: nat)
    requires WorldBacked(utf8, who, known, w, log, clock) && log <= more && clock <= now
    ensures WorldBacked(utf8, who, known, w, more, now)
  {
    hide HealthyIndex, FileBacked;
    forall id | id in w.proxies
      ensures ProxyBacked(who, known, w.proxies[id], more, now)
    {
      HealthyIndexMore(Names(who, w.proxies[id].layout), w.proxies[id].index, log, more, clock, now);
    }
    forall f | f in w.files
      ensures FileBacked(utf8, who, known, w.files[f], more, now)
    {
      FileBackedMore(utf8, who, known, w.files[f], log, more, clock, now);
    }
  }

  /** Loading from a backed file. */
  lemma LoadBacked<P>(utf8: Utf8, who: Naming<P>, known: iset<Host>, proxy: Proxy, data: seq<byte>,
                      log: iset<Obs<P>>, now: u64)
    requires ProxyBacked(who, known, proxy, log, now) && FileBacked(utf8, who, known, data, log, now)
    ensures HealthyIndex(Names(who, proxy.layout), LoadedIndex(utf8, proxy, data, now), log, now)
  {
    hide HealthyIndex, RestoreInto, Parse;
    var names, layout := Names(who, proxy.layout), proxy.layout;
    HealthyFit(names, proxy.index, log, now);
    match Parse(utf8, data)
    case Failed =>
    case Legacy =>
      var none: seq<Host>, nobody: seq<P> := [], [];
      HealthyLoad(names, proxy.index, layout, none, nobody, [], log, now);
    case Read(s) =>
      forall e | e in s.entries
        ensures EntryAgrees(layout, s.hosts, Names(who, s.hosts), e, log, now)
      {
        assert EntryTells(who, known, s.hosts, e, log, now);
      }
      HealthyLoad(names, proxy.index, layout, s.hosts, Names(who, s.hosts), s.entries, log, now);
  }

  /** Saving writes a backed file. */
  lemma SaveBacked<P>(h: Hasher, utf8: Utf8, who: Naming<P>, known: iset<Host>, proxy: Proxy, log: iset<Obs<P>>,
                      clock: nat, now: u64)
    requires Faithful(utf8, who, known) && ProxyBacked(who, known, proxy, log, clock)
    requires clock <= now && 1 <= now < U64_MAX
    ensures Fit(proxy.index)
    ensures Writable(Picture(h, proxy, now)) ==>
              FileBacked(utf8, who, known, SnapshotBytes(Picture(h, proxy, now)), log, now)
  {
    hide SnapshotOf, SnapshotBytes, Writable, Parse, HealthyIndex, Canon;
    HealthyFit(Names(who, proxy.layout), proxy.index, log, clock);
    HealthySnapshot(h, Names(who, proxy.layout), proxy.index, log, clock, now);
    var s := Picture(h, proxy, now);
    if Writable(s) && Readable(utf8, s) {
      ParseOfSaved(utf8, s);
      forall e | e in s.entries
        ensures EntryTells(who, known, CanonAll(s.hosts), e, log, now)
      {
        ReadEntryTells(utf8, who, known, s.hosts, e, log, now);
      }
    } else if Writable(s) {
      ParseOfSaved(utf8, s);
    }
  }

  /** Reading back the hosts of a table does not change which known providers an entry speaks of. */
  lemma ReadEntryTells<P>(utf8: Utf8, who: Naming<P>, known: iset<Host>, hosts: seq<Host>, e: Entry,
                          log: iset<Obs<P>>, now: nat)
    requires Faithful(utf8, who, known) && All(hosts, known) && HostsOk(utf8, hosts)
    requires Restarts.EntryBacked(Names(who, hosts), e, log, now)
    ensures EntryTells(who, known, CanonAll(hosts), e, log, now)
  {
    hide Canon, HostOk;
    forall p: Slot | Has(e.missing, p) && p < |hosts| && Canon(hosts[p]) in known
      ensures e.insertedAt >= 1 && Witnessed(log, e.key, who(Canon(hosts[p])), e.insertedAt)
    {
      assert HostOk(utf8, hosts[p]) && hosts[p] in known;
      assert who(Canon(hosts[p])) == Names(who, hosts)[p];
    }
  }

  /** The proxy that a step leaves behind under its number. */
  ghost function Changed(h: Hasher, utf8: Utf8, w: World, step: Step): Proxy
    requires Proper(w) && Possible(w, step)
  {
    match step
    case Boot(_, geo, layout) => Proxy(layout, Empty(geo))
    case Do(id, op) => w.proxies[id].(index := ApplyIndex(h, w.proxies[id].index, op))
    case Save(id, _, at) => w.proxies[id].(index := ApplyIndex(h, w.proxies[id].index, Sweep(at)))
    case Load(id, file, at) => w.proxies[id].(index := LoadedIndex(utf8, w.proxies[id], w.files[file], at))
  }

  lemma PerformChanges(h: Hasher, utf8: Utf8, w: World, step: Step)
    requires Proper(w)
    ensures Possible(w, step) ==>
              Perform(h, utf8, w, step).proxies == w.proxies[step.id := Changed(h, utf8, w, step)]
    ensures !Possible(w, step) ==> Perform(h, utf8, w, step) == w
  {
    hide ApplyIndex, LoadedIndex, SnapshotBytes, Picture, Writable, Empty;
  }

  lemma ChangedBacked<P>(h: Hasher, utf8: Utf8, who: Naming<P>, known: iset<Host>, w: World, step: Step,
                         log: iset<Obs<P>>, clock: nat, now: nat)
    requires Proper(w) && Possible(w, step) && WorldBacked(utf8, who, known, w, log, clock)
    requires clock <= now && 1 <= now < U64_MAX
    requires (step.Boot? ==> All(step.layout, known)) && (!step.Boot? ==> step.Time() == now)
    ensures ProxyBacked(who, known, Changed(h, utf8, w, step), log + LearnedBy(who, w, step), now)
  {
    hide HealthyIndex, ApplyIndex, LoadedIndex, FileBacked, Empty, All;
    match step
    case Boot(_, geo, layout) =>
      HealthyEmpty(Names(who, layout), geo, log + LearnedBy(who, w, step), now);
    case Do(id, op) =>
      HealthyStep(h, Names(who, w.proxies[id].layout), w.proxies[id].index, op, log, clock);
    case Save(id, _, at) =>
      var names := Names(who, w.proxies[id].layout);
      HealthyStep(h, names, w.proxies[id].index, Sweep(at), log, clock);
      assert log + Learned(names, Sweep(at)) == log + LearnedBy(who, w, step);
    case Load(id, file, at) =>
      WorldBackedMore(utf8, who, known, w, log, log, clock, now);
      LoadBacked(utf8, who, known, w.proxies[id], w.files[file], log, at);
      assert log + LearnedBy(who, w, step) == log;
  }

  lemma PerformBacked<P>(h: Hasher, utf8: Utf8, who: Naming<P>, known: iset<Host>, w: World, step: Step,
                         log: iset<Obs<P>>, clock: nat, now: nat)
    requires Proper(w) && Faithful(utf8, who, known) && WorldBacked(utf8, who, known, w, log, clock)
    requires clock <= now && 1 <= now < U64_MAX
    requires (step.Boot? ==> All(step.layout, known)) && (!step.Boot? ==> step.Time() == now)
    ensures WorldBacked(utf8, who, known, Perform(h, utf8, w, step), log + LearnedBy(who, w, step), now)
  {
    hide ProxyBacked, FileBacked, LearnedBy, ApplyIndex, LoadedIndex, SnapshotBytes, Picture, Writable, Faithful;
    var more := log + LearnedBy(who, w, step);
    WorldBackedMore(utf8, who, known, w, log, more, clock, now);
    if Possible(w, step) {
      ChangedBacked(h, utf8, who, known, w, step, log, clock, now);
      if step.Save? {
        assert ProxyBacked(who, known, w.proxies[step.id], more, now);
        SaveBacked(h, utf8, who, known, w.proxies[step.id], more, now, step.at);
      }
      PerformChanges(h, utf8, w, step);
    }
  }

  /** `clock` lies between the first `i` steps and the others. */
  ghost predicate Between(steps: seq<Step>, i: nat, clock: nat, now: nat) {
    clock <= now && forall j :: i <= j < |steps| && !steps[j].Boot? ==> clock <= steps[j].Time()
  }

  /** Whatever backs the world at some point backs it later, together with what is recorded in between. */
  lemma {:induction false} FutureBacked<P>(h: Hasher, utf8: Utf8, who: Naming<P>, known: iset<Host>, steps: seq<Step>,
                                           i: nat, log: iset<Obs<P>>, clock: nat, now: nat)
    requires InOrder(steps, now) && Faithful(utf8, who, known) && BootsWith(steps, known)
    requires i <= |steps| && Between(steps, i, clock, now)
    requires WorldBacked(utf8, who, known, Happen(h, utf8, steps[..i]), log, clock)
    ensures WorldBacked(utf8, who, known, Happen(h, utf8, steps), log + Since(h, utf8, who, steps, i), now)
    decreases |steps|
  {
    hide WorldBacked, Perform, LearnedBy, All, Faithful;
    var all := log + Since(h, utf8, who, steps, i);
    if i == |steps| {
      assert steps[..i] == steps;
      WorldBackedMore(utf8, who, known, Happen(h, utf8, steps), log, all, clock, now);
    } else {
      var rest, step := steps[..|steps| - 1], steps[|steps| - 1];
      var time: nat := if step.Boot? then now else step.Time();
      assert rest[..i] == steps[..i];
      var before := log + Since(h, utf8, who, rest, i);
      FutureBacked(h, utf8, who, known, rest, i, log, clock, time);
      PerformBacked(h, utf8, who, known, Happen(h, utf8, rest), step, before, time, time);
      assert before + LearnedBy(who, Happen(h, utf8, rest), step) == all;
      WorldBackedMore(utf8, who, known, Happen(h, utf8, steps), all, all, time, now);
    }
  }

  lemma HistoryBacked<P>(h: Hasher, utf8: Utf8, who: Naming<P>, known: iset<Host>, steps: seq<Step>, now: nat)
    requires InOrder(steps, now) && Faithful(utf8, who, known) && BootsWith(steps, known)
    ensures WorldBacked(utf8, who, known, Happen(h, utf8, steps), Observed(h, utf8, who, steps), now)
  {
    hide WorldBacked, Since, Faithful;
    EmptyBacked(utf8, who, known, 0);
    assert steps[..0] == [];
    FutureBacked(h, utf8, who, known, steps, 0, iset{}, 0, now);
    assert iset{} + Since(h, utf8, who, steps, 0) == Observed(h, utf8, who, steps);
  }

  lemma EmptyBacked<P>(utf8: Utf8, who: Naming<P>, known: iset<Host>, now: nat)
    ensures WorldBacked(utf8, who, known, World(map[], map[]), iset{}, now)
  {
  }

  // ---------- provenance ----------

  /** The longest a proxy may remember a miss, over any number of restarts. */
  function Memory(geo: Geometry): nat
    requires Sane(geo) && 0 < geo.interval < U64_MAX
  {
    Max(Retention.Bound(ShardShape(geo, 0)), Restarts.Stretch(ShardShape(geo, 0), geo.ttl))
  }

  /** Some proxy saw provider `who` miss the message; if misses expire, not too long ago. */
  ghost predicate SeenMissing<P>(log: iset<Obs<P>>, geo: Geometry, key: Key, who: P, now: nat)
    requires Sane(geo)
  {
    exists o :: o in log && o.key == key && o.who == who
                && (0 < geo.interval < U64_MAX ==> now < o.time + Memory(geo))
  }

  /** Proxy `id` answers slot `p` to a lookup of `key`. */
  ghost predicate Reports(h: Hasher, utf8: Utf8, steps: seq<Step>, id: nat, key: Key, p: Slot, now: u64) {
    && id in Happen(h, utf8, steps).proxies
    && Has(AnswerIndex(h, Happen(h, utf8, steps).proxies[id].index, key, now), p)
  }

  /**
    Provenance: over any history of boots, insertions, lookups, saves and loads between
    proxies with any tables, geometries and shard counts, a lookup reports a slot only if a
    miss of exactly this key by exactly the provider of that slot was recorded; with expiry,
    less than `Memory` ago, however often it was saved and loaded.
   */
  lemma NoMissIsInvented<P>(h: Hasher, utf8: Utf8, who: Naming<P>, known: iset<Host>, steps: seq<Step>, id: nat,
                            key: Key, p: Slot, now: u64)
    requires InOrder(steps, now) && Faithful(utf8, who, known) && BootsWith(steps, known)
    ensures Reports(h, utf8, steps, id, key, p, now) ==>
              var proxy := Happen(h, utf8, steps).proxies[id];
              && p < |proxy.layout|
              && SeenMissing(Observed(h, utf8, who, steps), proxy.index.geo, key, who(proxy.layout[p]), now)
  {
    hide Happen, Observed, Healthy, Answer, FileBacked;
    if Reports(h, utf8, steps, id, key, p, now) {
      HistoryBacked(h, utf8, who, known, steps, now);
      var proxy, log := Happen(h, utf8, steps).proxies[id], Observed(h, utf8, who, steps);
      var names, idx := Names(who, proxy.layout), proxy.index;
      assert ProxyBacked(who, known, proxy, log, now);
      var s := ShardOf(idx.geo, h(key).hash);
      RoutesIn(idx.geo, h, s);
      var o := HealthyAnswer(ShardShape(idx.geo, s), idx.geo.ttl, names, idx.shards[s].window, log, now,
                             RouteIn(idx.geo, h, s)(key), key, p, now);
    }
  }

  /** The bound is G*I + (G-1)*(I-1), or the time to live plus I-1 for each of up to two more generations. */
  lemma MemoryIs(geo: Geometry)
    requires Sane(geo) && 0 < geo.interval < U64_MAX
    ensures var g, i := geo.generations, geo.interval;
            Memory(geo) == Max(g * i + Retention.Product(g - 1, i - 1),
                               geo.ttl + Retention.Product(Min(g - 1, 2), i - 1))
  {
  }

  // ---------- recorded times never grow ----------

  /** Proxy `id` holds `o` as a fact. */
  ghost predicate ProxyClaims<P>(who: Naming<P>, w: World, id: nat, s: nat, o: Obs<P>)
    requires Proper(w)
  {
    && id in w.proxies && s < w.proxies[id].index.geo.shards
    && Claims(Names(who, w.proxies[id].layout), w.proxies[id].index.shards[s].window, o)
  }

  /** `o` can be read from file `f`. */
  ghost predicate FileClaims<P>(utf8: Utf8, who: Naming<P>, known: iset<Host>, w: World, f: nat, e: Entry, p: Slot,
                                o: Obs<P>)
  {
    && f in w.files && Parse(utf8, w.files[f]).Read?
    && var s := Parse(utf8, w.files[f]).snapshot;
    && e in s.entries && Has(e.missing, p) && p < |s.hosts| && s.hosts[p] in known
    && o == Obs(e.key, who(s.hosts[p]), e.insertedAt)
  }

  ghost predicate Holds<P>(utf8: Utf8, who: Naming<P>, known: iset<Host>, w: World, o: Obs<P>)
    requires Proper(w)
  {
    || (exists id, s: nat :: ProxyClaims(who, w, id, s, o))
    || (exists f, e, p: Slot :: FileClaims(utf8, who, known, w, f, e, p, o))
  }

  /** All that the proxies and the files of a world hold, each with the time it is held under. */
  ghost function Claimed<P(!new)>(utf8: Utf8, who: Naming<P>, known: iset<Host>, w: World): iset<Obs<P>>
    requires Proper(w)
  {
    iset o: Obs<P> | Holds(utf8, who, known, w, o)
  }

  lemma ProxyBackedByClaims<P(!new)>(who: Naming<P>, known: iset<Host>, w: World, id: nat, log: iset<Obs<P>>,
                                     claims: iset<Obs<P>>, now: nat)
    requires Proper(w) && id in w.proxies && ProxyBacked(who, known, w.proxies[id], log, now)
    requires forall o, s: nat :: ProxyClaims(who, w, id, s, o) ==> o in claims
    ensures ProxyBacked(who, known, w.proxies[id], claims, now)
  {
    hide Claims, Backed, Restarts.Timed;
    var names, idx := Names(who, w.proxies[id].layout), w.proxies[id].index;
    forall s | 0 <= s < idx.geo.shards
      ensures Healthy(ShardShape(idx.geo, s), idx.geo.ttl, names, idx.shards[s].window, claims, now)
    {
      assert Healthy(ShardShape(idx.geo, s), idx.geo.ttl, names, idx.shards[s].window, log, now);
      forall o | Claims(names, idx.shards[s].window, o)
        ensures o in claims
      {
        assert ProxyClaims(who, w, id, s, o);
      }
      BackedByClaims(names, idx.shards[s].window, log, claims);
    }
  }

  /** A backed world is backed by what it holds itself. */
  lemma WorldBackedByClaims<P(!new)>(utf8: Utf8, who: Naming<P>, known: iset<Host>, w: World, log: iset<Obs<P>>,
                                     now: nat)
    requires Proper(w) && WorldBacked(utf8, who, known, w, log, now)
    ensures WorldBacked(utf8, who, known, w, Claimed(utf8, who, known, w), now)
  {
    hide ProxyBacked, Parse, Claims;
    var claims := Claimed(utf8, who, known, w);
    forall id | id in w.proxies
      ensures ProxyBacked(who, known, w.proxies[id], claims, now)
    {
      ProxyBackedByClaims(who, known, w, id, log, claims, now);
    }
    forall f, e | f in w.files && Parse(utf8, w.files[f]).Read? && e in Parse(utf8, w.files[f]).snapshot.entries
      ensures EntryTells(who, known, Parse(utf8, w.files[f]).snapshot.hosts, e, claims, now)
    {
      var hosts := Parse(utf8, w.files[f]).snapshot.hosts;
      assert EntryTells(who, known, hosts, e, log, now);
      forall p: Slot | Has(e.missing, p) && p < |hosts| && hosts[p] in known
        ensures Witnessed(claims, e.key, who(hosts[p]), e.insertedAt)
      {
        var o := Obs(e.key, who(hosts[p]), e.insertedAt);
        assert FileClaims(utf8, who, known, w, f, e, p, o) && Holds(utf8, who, known, w, o);
      }
    }
  }

  lemma ClaimedIsWitnessed<P(!new)>(utf8: Utf8, who: Naming<P>, known: iset<Host>, w: World, log: iset<Obs<P>>,
                                    now: nat, o: Obs<P>)
    requires Proper(w) && WorldBacked(utf8, who, known, w, log, now) && o in Claimed(utf8, who, known, w)
    ensures Witnessed(log, o.key, o.who, o.time)
  {
    hide Parse, Claims, Backed, Restarts.Timed;
    if id, s: nat :| ProxyClaims(who, w, id, s, o) {
      var names, idx := Names(who, w.proxies[id].layout), w.proxies[id].index;
      assert ProxyBacked(who, known, w.proxies[id], log, now);
      assert Healthy(ShardShape(idx.geo, s), idx.geo.ttl, names, idx.shards[s].window, log, now);
      ClaimIsWitnessed(names, idx.shards[s].window, log, o);
    } else {
      var f, e, p: Slot :| FileClaims(utf8, who, known, w, f, e, p, o);
      assert FileBacked(utf8, who, known, w.files[f], log, now);
      assert EntryTells(who, known, Parse(utf8, w.files[f]).snapshot.hosts, e, log, now);
    }
  }

  /** What a snapshot says, readable or not. */
  ghost predicate PictureTells<P>(who: Naming<P>, picture: Snapshot, log: iset<Obs<P>>) {
    forall e, p: Slot :: e in picture.entries && Has(e.missing, p) ==>
      p < |picture.hosts| && Witnessed(log, e.key, who(picture.hosts[p]), e.insertedAt)
  }

  lemma PictureIsWitnessed<P>(h: Hasher, utf8: Utf8, who: Naming<P>, known: iset<Host>, w: World, id: nat,
                              log: iset<Obs<P>>, now: u64)
    requires Proper(w) && WorldBacked(utf8, who, known, w, log, now) && id in w.proxies && 1 <= now < U64_MAX
    ensures PictureTells(who, Picture(h, w.proxies[id], now), log)
  {
    hide SnapshotOf, HealthyIndex, FileBacked;
    var proxy := w.proxies[id];
    var names, picture := Names(who, proxy.layout), Picture(h, proxy, now);
    assert ProxyBacked(who, known, proxy, log, now);
    HealthySnapshot(h, names, proxy.index, log, now, now);
    forall e, p: Slot | e in picture.entries && Has(e.missing, p)
      ensures p < |picture.hosts| && Witnessed(log, e.key, who(picture.hosts[p]), e.insertedAt)
    {
      assert Restarts.EntryBacked(names, e, log, now);
    }
  }

  /**
    Recorded times never grow: take any history and any point in it.  Whatever a proxy or a
    file holds at the end, it holds under a time no later than one under which the same miss
    of the same provider was held by a proxy or a file at that point, or was recorded since,
    however often it was saved, loaded and saved again in between.
   */
  lemma SavedTimesNeverGrow<P(!new)>(h: Hasher, utf8: Utf8, who: Naming<P>, known: iset<Host>, steps: seq<Step>, i: nat,
                                     clock: nat, now: u64)
    requires InOrder(steps, now) && Faithful(utf8, who, known) && BootsWith(steps, known)
    requires i <= |steps| && InOrder(steps[..i], clock) && Between(steps, i, clock, now)
    ensures var earlier := Claimed(utf8, who, known, Happen(h, utf8, steps[..i]));
            && (forall o :: o in Claimed(utf8, who, known, Happen(h, utf8, steps)) ==>
                  Witnessed(earlier + Since(h, utf8, who, steps, i), o.key, o.who, o.time))
            && forall id :: id in Happen(h, utf8, steps).proxies ==>
                 PictureTells(who, Picture(h, Happen(h, utf8, steps).proxies[id], now),
                              earlier + Since(h, utf8, who, steps, i))
  {
    hide Happen, Since, WorldBacked, Faithful, Claimed, All;
    var start, end := Happen(h, utf8, steps[..i]), Happen(h, utf8, steps);
    var earlier := Claimed(utf8, who, known, start);
    HistoryBacked(h, utf8, who, known, steps[..i], clock);
    WorldBackedByClaims(utf8, who, known, start, Observed(h, utf8, who, steps[..i]), clock);
    FutureBacked(h, utf8, who, known, steps, i, earlier, clock, now);
    forall o | o in Claimed(utf8, who, known, end)
      ensures Witnessed(earlier + Since(h, utf8, who, steps, i), o.key, o.who, o.time)
    {
      ClaimedIsWitnessed(utf8, who, known, end, earlier + Since(h, utf8, who, steps, i), now, o);
    }
    forall id | id in end.proxies
      ensures PictureTells(who, Picture(h, end.proxies[id], now), earlier + Since(h, utf8, who, steps, i))
    {
      PictureIsWitnessed(h, utf8, who, known, end, id, earlier + Since(h, utf8, who, steps, i), now);
    }
  }

  /**
    One cycle: an index loads a snapshot and records, looks up and sweeps.  Whatever it saves
    then about a provider was in the loaded snapshot about that very provider, under a time
    no earlier than the saved one, or has been recorded since.
   */
  lemma CycleNeverFreshens(h: Hasher, idx: Index, layout: seq<Host>, s: Snapshot, ops: seq<Op>, loaded: u64, now: u64)
    requires Fit(idx) && |layout| <= MAX_BACKENDS && |s.hosts| <= MAX_BACKENDS
    requires forall e :: e in s.entries ==> 1 <= e.insertedAt <= loaded
    requires Timely(ops, now) && loaded <= now
    requires forall i :: 0 <= i < |ops| ==> loaded <= ops[i].now && (ops[i].Note? ==> Within(ops[i].bits, |layout|))
    ensures var after := RunIndex(h, RestoreInto(idx, layout, s.hosts, s.entries, loaded), ops);
            forall e, p: Slot :: e in SnapshotOf(h, after, now) && Has(e.missing, p) ==>
              p < |layout| && (Loaded(s, e.key, layout[p], e.insertedAt)
                               || Noted(layout, ops, e.key, layout[p], e.insertedAt))
  {
    hide RestoreInto, SnapshotOf, HealthyIndex, LearnedAll;
    var log := iset o: Obs<Host> | Loaded(s, o.key, o.who, o.time);
    forall e | e in s.entries
      ensures EntryAgrees(layout, s.hosts, s.hosts, e, log, loaded)
    {
      forall p: Slot | Has(e.missing, p) && p < |s.hosts|
        ensures Witnessed(log, e.key, s.hosts[p], e.insertedAt)
      {
        assert Loaded(s, e.key, s.hosts[p], e.insertedAt);
        assert Obs(e.key, s.hosts[p], e.insertedAt) in log;
      }
    }
    HealthyLoad(layout, idx, layout, s.hosts, s.hosts, s.entries, log, loaded);
    var restored := RestoreInto(idx, layout, s.hosts, s.entries, loaded);
    HealthyRun(h, layout, restored, ops, log, loaded, now);
    var all := log + LearnedAll(layout, ops);
    HealthySnapshot(h, layout, RunIndex(h, restored, ops), all, now, now);
    forall e, p: Slot | e in SnapshotOf(h, RunIndex(h, restored, ops), now) && Has(e.missing, p)
      ensures p < |layout| && (Loaded(s, e.key, layout[p], e.insertedAt)
                               || Noted(layout, ops, e.key, layout[p], e.insertedAt))
    {
      assert Restarts.EntryBacked(layout, e, all, now);
      var o :| o in all && o.key == e.key && o.who == layout[p] && o.time >= e.insertedAt;
      if o !in log {
        LearnedMeans(layout, ops, o);
      }
    }
  }

  /** The snapshot has a miss of `key` by `who`, no earlier than `since`. */
  ghost predicate Loaded(s: Snapshot, key: Key, who: Host, since: nat) {
    exists e, p: Slot :: e in s.entries && e.key == key && Has(e.missing, p)
                         && p < |s.hosts| && s.hosts[p] == who && since <= e.insertedAt
  }

  ghost predicate Noted(layout: seq<Host>, ops: seq<Op>, key: Key, who: Host, since: nat) {
    exists i, p: Slot :: 0 <= i < |ops| && ops[i].Note? && ops[i].key == key && Has(ops[i].bits, p)
                         && p < |layout| && layout[p] == who && since <= ops[i].now
  }

  /** Nor does anything hold a miss under a later time than it was recorded at. */
  lemma NeverYoungerThanRecorded<P(!new)>(h: Hasher, utf8: Utf8, who: Naming<P>, known: iset<Host>, steps: seq<Step>,
                                          now: nat, o: Obs<P>)
    requires InOrder(steps, now) && Faithful(utf8, who, known) && BootsWith(steps, known)
    requires o in Claimed(utf8, who, known, Happen(h, utf8, steps))
    ensures Witnessed(Observed(h, utf8, who, steps), o.key, o.who, o.time)
  {
    hide Happen, Observed, WorldBacked, Faithful, Claimed;
    HistoryBacked(h, utf8, who, known, steps, now);
    ClaimedIsWitnessed(utf8, who, known, Happen(h, utf8, steps), Observed(h, utf8, who, steps), now, o);
  }

  // ---------- which providers can be confused ----------

  /** No known host is read back as another known host. */
  ghost predicate Unconfused(utf8: Utf8, known: iset<Host>) {
    forall x :: x in known && HostOk(utf8, x) && Canon(x) in known ==> Canon(x) == x
  }

  /** In every history over the known hosts only recorded misses of the very provider are reported. */
  ghost predicate AlwaysExact(h: Hasher, utf8: Utf8, known: iset<Host>) {
    forall steps, id, key, p: Slot, now: u64 ::
      InOrder(steps, now) && BootsWith(steps, known) && Reports(h, utf8, steps, id, key, p, now) ==>
        Recorded(h, utf8, steps, id, key, p)
  }

  /** A miss of `key` by the provider in slot `p` of proxy `id` was recorded. */
  ghost predicate Recorded(h: Hasher, utf8: Utf8, steps: seq<Step>, id: nat, key: Key, p: Slot) {
    && id in Happen(h, utf8, steps).proxies && p < |Happen(h, utf8, steps).proxies[id].layout|
    && exists o :: o in Observed(h, utf8, Itself, steps) && o.key == key
                   && o.who == Happen(h, utf8, steps).proxies[id].layout[p]
  }

  lemma ExactWhenUnconfused(h: Hasher, utf8: Utf8, known: iset<Host>)
    requires Unconfused(utf8, known)
    ensures AlwaysExact(h, utf8, known)
  {
    hide Happen, Observed, HostOk, Canon;
    assert Faithful(utf8, Itself, known);
    forall steps, id, key, p: Slot, now: u64 |
      InOrder(steps, now) && BootsWith(steps, known) && Reports(h, utf8, steps, id, key, p, now)
      ensures Recorded(h, utf8, steps, id, key, p)
    {
      NoMissIsInvented(h, utf8, Itself, known, steps, id, key, p, now);
    }
  }

  /** Up to trailing dots a report is always right, whatever the hosts. */
  lemma RightUpToDots(h: Hasher, utf8: Utf8, steps: seq<Step>, id: nat, key: Key, p: Slot, now: u64)
    requires InOrder(steps, now)
    ensures Reports(h, utf8, steps, id, key, p, now) ==>
              var proxy := Happen(h, utf8, steps).proxies[id];
              && p < |proxy.layout|
              && SeenMissing(Observed(h, utf8, Root, steps), proxy.index.geo, key, Root(proxy.layout[p]), now)
  {
    hide Happen, Observed, HostOk, Root, Canon, AnswerIndex;
    var known := Everyone();
    forall x, y | x in known && y in known && HostOk(utf8, x) && y == Canon(x)
      ensures Root(y) == Root(x)
    {
      RootOfCanon(x);
    }
    NoMissIsInvented(h, utf8, Root, known, steps, id, key, p, now);
  }
}
