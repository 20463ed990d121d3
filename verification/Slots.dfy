/**
  Provider slots over restarts.

  A slot written under one layout means the same provider under every later layout with
  the same epoch, and is not read at all under another epoch.
 */
module Slots {
  import opened Words
  import opened Identities
  import opened Restoring
  import opened SnapshotCodec
  import opened Registry
  import HybridCache

  // ---------- one start ----------

  datatype Startup = Startup(file: Option<seq<byte>>, started: Option<Registered>)

  predicate Publishable(identities: seq<Host>) {
    forall i :: 0 <= i < |identities| ==> |identities[i]| <= MAX_HOST_BYTES
  }

  /** The registry a start works from: the readable file, or an empty one with a fresh epoch. */
  function Found(utf8: Utf8, file: Option<seq<byte>>): Option<Registered> {
    if file.Some? then ReadRegistry(utf8, file.value) else None
  }

  function StartUp(utf8: Utf8, file: Option<seq<byte>>, names: seq<seq<byte>>, draw: Epoch): Startup {
    var found := Found(utf8, file);
    var was := if found.Some? then found.value else Registered([], draw);
    var now := was.(identities := Enlist(was.identities, names));
    if |now.identities| > MAX_BACKENDS then Startup(file, None)
    else if found == Some(now) then Startup(file, Some(now))
    else if !Publishable(now.identities) then Startup(file, None)
    else Startup(Some(RegistryBytes(now)), Some(now))
  }

  /** Starting the hybrid cache: reads the registry, adds new hosts, publishes and assigns slots. */
  method FromRegistry(utf8: Utf8, file: Option<seq<byte>>, names: seq<seq<byte>>, draw: Epoch)
    returns (after: Option<seq<byte>>, layout: Option<Layout>, epoch: Epoch)
    ensures after == StartUp(utf8, file, names, draw).file
    ensures layout.Some? <==> StartUp(utf8, file, names, draw).started.Some?
    ensures layout.Some? ==>
              StartUp(utf8, file, names, draw).started == Some(Registered(layout.value.identities, epoch))
    ensures layout.Some? ==> LaidOver(layout.value, names)
  {
    hide Enlist, ReadRegistry, RegistryBytes;
    after, layout := file, None;
    var found: Option<Registered> := None;
    if file.Some? {
      found := LoadRegistry(utf8, file.value);
    }
    var was := if found.Some? then found.value else Registered([], draw);
    epoch := was.epoch;
    var identities, changed := Collect(was.identities, names);
    if |identities| > MAX_BACKENDS {
      return;
    }
    if changed || found.None? {
      if !Publishable(identities) {
        return;
      }
      after := Some(RegistryBytes(Registered(identities, epoch)));
    }
    layout := Seats(identities, names);
  }

  /** The hosts of the registry, if there is a readable one, and of the configured servers. */
  function HostsOf(found: Option<Registered>, names: seq<seq<byte>>): set<Host> {
    (if found.Some? then set x | x in found.value.identities else {}) + set i | 0 <= i < |names| :: Canon(names[i])
  }

  lemma {:induction false} DistinctCount(hosts: seq<Host>)
    requires Distinct(hosts)
    ensures |set x | x in hosts| == |hosts|
  {
    if hosts != [] {
      var rest, last := hosts[..|hosts| - 1], hosts[|hosts| - 1];
      DistinctCount(rest);
      assert (set x | x in hosts) == (set x | x in rest) + {last};
      assert last !in rest;
    }
  }

  lemma {:induction false} NothingNewIff(identities: seq<Host>, names: seq<seq<byte>>)
    ensures Enlist(identities, names) == identities <==> forall i :: 0 <= i < |names| ==> Canon(names[i]) in identities
  {
    hide Canon;
    if names != [] {
      NothingNewIff(identities, names[..|names| - 1]);
    }
  }

  lemma EnlistHosts(found: Option<Registered>, names: seq<seq<byte>>)
    requires found.Some? ==> Distinct(found.value.identities)
    ensures var all := Enlist(if found.Some? then found.value.identities else [], names);
            && HostsOf(found, names) == (set x | x in all) && |HostsOf(found, names)| == |all| && Distinct(all)
  {
    hide Canon;
    var was := if found.Some? then found.value.identities else [];
    var all := Enlist(was, names);
    assert Distinct(was);
    DistinctCount(all);
    assert HostsOf(found, names) == (set x | x in all);
  }

  /**
    A start succeeds exactly when the hosts seen so far and now are at most 64, and either
    none is new to a readable registry or none is longer than can be written. A start that
    fails leaves the file alone.
   */
  lemma StartsIff(utf8: Utf8, file: Option<seq<byte>>, names: seq<seq<byte>>, draw: Epoch)
    ensures var found, r := Found(utf8, file), StartUp(utf8, file, names, draw);
            && (r.started.Some? <==>
                  && |HostsOf(found, names)| <= 64
                  && (|| (found.Some? && forall i :: 0 <= i < |names| ==> Canon(names[i]) in found.value.identities)
                      || forall host :: host in HostsOf(found, names) ==> |host| <= MAX_HOST_BYTES))
            && (r.started.Some? ==>
                  && r.started.value.epoch == (if found.Some? then found.value.epoch else draw)
                  && (set x | x in r.started.value.identities) == HostsOf(found, names))
            && (r.started.None? ==> r.file == file)
  {
    hide ReadRegistry, RegistryBytes, Canon, Enlist;
    var found := Found(utf8, file);
    var was := if found.Some? then found.value.identities else [];
    var all := Enlist(was, names);
    EnlistHosts(found, names);
    NothingNewIff(was, names);
    assert Publishable(all) <==> forall host :: host in HostsOf(found, names) ==> |host| <= MAX_HOST_BYTES;
  }

  // ---------- many starts ----------

  /** A start with its configured servers, or the loss of the file. */
  datatype Event = Start(names: seq<seq<byte>>, draw: Epoch) | Lose(left: Option<seq<byte>>)

  /** The registry file and the layouts of all successful starts so far. */
  datatype Past = Past(file: Option<seq<byte>>, layouts: seq<Registered>)

  function After(utf8: Utf8, events: seq<Event>): Past {
    if events == [] then Past(None, [])
    else
      var past := After(utf8, events[..|events| - 1]);
      match events[|events| - 1]
      case Start(names, draw) =>
        var r := StartUp(utf8, past.file, names, draw);
        Past(r.file, if r.started.Some? then past.layouts + [r.started.value] else past.layouts)
      case Lose(left) =>
        if Found(utf8, left).None? then past.(file := left) else past
  }

  function Drawn(events: seq<Event>): set<u64> {
    if events == [] then {}
    else
      var event := events[|events| - 1];
      Drawn(events[..|events| - 1]) + if event.Start? then {event.draw} else {}
  }

  /** A drawn epoch differs from all earlier ones. */
  ghost predicate Fresh(events: seq<Event>) {
    forall i :: 0 <= i < |events| && events[i].Start? ==> events[i].draw !in Drawn(events[..i])
  }

  ghost predicate StartsWith(events: seq<Event>, known: iset<Host>) {
    forall i, j :: 0 <= i < |events| && events[i].Start? && 0 <= j < |events[i].names| ==>
      Canon(events[i].names[j]) in known
  }

  /** Known hosts are read back as known hosts of the same name. */
  ghost predicate Steady<P>(utf8: Utf8, who: Host -> P, known: iset<Host>) {
    forall x :: x in known && HostOk(utf8, x) ==> Canon(x) in known && who(Canon(x)) == who(x)
  }

  /** `b` has everything `a` has, in the same slots. */
  ghost predicate Grown<P>(who: Host -> P, a: seq<Host>, b: seq<Host>) {
    |a| <= |b| && forall p :: 0 <= p < |a| ==> who(a[p]) == who(b[p])
  }

  ghost predicate LayoutsAgree<P>(who: Host -> P, layouts: seq<Registered>) {
    forall i, j :: 0 <= i < j < |layouts| && layouts[i].epoch == layouts[j].epoch ==>
      Grown(who, layouts[i].identities, layouts[j].identities)
  }

  ghost predicate Below<P>(who: Host -> P, layouts: seq<Registered>, r: Registered) {
    forall i :: 0 <= i < |layouts| && layouts[i].epoch == r.epoch ==> Grown(who, layouts[i].identities, r.identities)
  }

  ghost predicate Orderly<P>(utf8: Utf8, who: Host -> P, known: iset<Host>, drawn: set<u64>, past: Past) {
    && (forall i :: 0 <= i < |past.layouts| ==> past.layouts[i].epoch in drawn)
    && LayoutsAgree(who, past.layouts)
    && var found := Found(utf8, past.file);
       found.Some? ==>
         && found.value.epoch in drawn && All(found.value.identities, known)
         && Below(who, past.layouts, found.value)
  }

  /** What a published registry is read back as. */
  lemma Republished<P>(utf8: Utf8, who: Host -> P, known: iset<Host>, r: Registered)
    requires Steady(utf8, who, known) && All(r.identities, known) && |r.identities| <= MAX_BACKENDS
    requires Publishable(r.identities)
    ensures var back := ReadRegistry(utf8, RegistryBytes(r));
            back.Some? ==>
              && back.value.epoch == r.epoch && All(back.value.identities, known)
              && Grown(who, r.identities, back.value.identities)
  {
    hide ReadRegistry, RegistryBytes, Canon, HostOk;
    ReadOfPublished(utf8, r);
    if TableOk(utf8, r.identities) {
      forall i | 0 <= i < |r.identities|
        ensures CanonAll(r.identities)[i] in known && who(CanonAll(r.identities)[i]) == who(r.identities[i])
      {
        assert HostOk(utf8, r.identities[i]);
      }
    }
  }

  lemma EnlistKnown(identities: seq<Host>, names: seq<seq<byte>>, known: iset<Host>)
    requires All(identities, known) && forall j :: 0 <= j < |names| ==> Canon(names[j]) in known
    ensures All(Enlist(identities, names), known)
  {
    var all := Enlist(identities, names);
    forall i | 0 <= i < |all|
      ensures all[i] in known
    {
      assert all[i] in all;
    }
  }

  /** One start from an orderly past. */
  lemma StartIsOrderly<P>(utf8: Utf8, who: Host -> P, known: iset<Host>, drawn: set<u64>, past: Past,
                          names: seq<seq<byte>>, draw: Epoch)
    requires Steady(utf8, who, known) && Orderly(utf8, who, known, drawn, past) && draw !in drawn
    requires forall j :: 0 <= j < |names| ==> Canon(names[j]) in known
    ensures var r := StartUp(utf8, past.file, names, draw);
            Orderly(utf8, who, known, drawn + {draw},
                    Past(r.file, if r.started.Some? then past.layouts + [r.started.value] else past.layouts))
  {
    hide ReadRegistry, RegistryBytes, Canon, Enlist, Steady;
    var r := StartUp(utf8, past.file, names, draw);
    var found := Found(utf8, past.file);
    var was := if found.Some? then found.value else Registered([], draw);
    if r.started.Some? {
      var now := r.started.value;
      EnlistKnown(was.identities, names, known);
      assert Grown(who, was.identities, now.identities);
      assert Below(who, past.layouts, now);
      if found != Some(now) {
        Republished(utf8, who, known, now);
      }
      var back := Found(utf8, r.file);
      if back.Some? {
        Inherits(who, past.layouts, now, back.value);
      }
    }
  }

  lemma Inherits<P>(who: Host -> P, layouts: seq<Registered>, now: Registered, back: Registered)
    requires Below(who, layouts, now) && now.epoch == back.epoch && Grown(who, now.identities, back.identities)
    ensures Below(who, layouts + [now], back)
  {
  }

  lemma {:induction false} PastIsOrderly<P>(utf8: Utf8, who: Host -> P, known: iset<Host>, events: seq<Event>)
    requires Steady(utf8, who, known) && Fresh(events) && StartsWith(events, known)
    ensures Orderly(utf8, who, known, Drawn(events), After(utf8, events))
  {
    hide Steady, StartUp, Canon;
    if events != [] {
      var rest, event := events[..|events| - 1], events[|events| - 1];
      assert forall i :: 0 <= i < |rest| ==> events[..i] == rest[..i];
      PastIsOrderly(utf8, who, known, rest);
      if event.Start? {
        StartIsOrderly(utf8, who, known, Drawn(rest), After(utf8, rest), event.names, event.draw);
      }
    }
  }

  /** A slot of one layout is the same provider's in every later layout with the same epoch. */
  lemma SlotKeepsItsHost<P>(utf8: Utf8, who: Host -> P, known: iset<Host>, events: seq<Event>, i: nat, j: nat, p: nat)
    requires Steady(utf8, who, known) && Fresh(events) && StartsWith(events, known)
    requires i <= j < |After(utf8, events).layouts|
    requires var layouts := After(utf8, events).layouts;
             layouts[i].epoch == layouts[j].epoch && p < |layouts[i].identities|
    ensures var layouts := After(utf8, events).layouts;
            p < |layouts[j].identities| && who(layouts[j].identities[p]) == who(layouts[i].identities[p])
  {
    hide Steady, After, Drawn, Fresh, StartsWith;
    PastIsOrderly(utf8, who, known, events);
    var layouts := After(utf8, events).layouts;
    if i < j {
      assert Grown(who, layouts[i].identities, layouts[j].identities);
    }
  }

  // ---------- stored bits ----------

  /** A stored bitmap as a cache with epoch `epoch` reads it. */
  function ReadBits(stored: Mask, writtenUnder: u64, epoch: u64): Mask {
    if writtenUnder == epoch then stored else NO_SLOTS
  }

  /**
    A stored provider bit is never read as another host's: over any restarts with any
    server lists and any losses of the registry, a bit that was stored under one layout and
    is read under a later one names the same provider in both.
   */
  lemma BitsKeepTheirHost<P>(utf8: Utf8, who: Host -> P, known: iset<Host>, events: seq<Event>, i: nat, j: nat,
                             stored: Mask, p: Slot)
    requires Steady(utf8, who, known) && Fresh(events) && StartsWith(events, known)
    requires i <= j < |After(utf8, events).layouts|
    requires var layouts := After(utf8, events).layouts;
             Within(stored, |layouts[i].identities|) && Has(ReadBits(stored, layouts[i].epoch, layouts[j].epoch), p)
    ensures var layouts := After(utf8, events).layouts;
            && p < |layouts[i].identities| && p < |layouts[j].identities|
            && who(layouts[j].identities[p]) == who(layouts[i].identities[p])
  {
    hide Steady, After, Fresh, StartsWith;
    SlotKeepsItsHost(utf8, who, known, events, i, j, p);
  }

  /** The same for an entry of the hybrid cache: a miss it tells was stored for the provider it is told of. */
  lemma MissesKeepTheirHost<P>(utf8: Utf8, who: Host -> P, known: iset<Host>, events: seq<Event>, i: nat, j: nat,
                               d: HybridCache.DiskCachedArticle, p: Slot)
    requires Steady(utf8, who, known) && Fresh(events) && StartsWith(events, known)
    requires i <= j < |After(utf8, events).layouts|
    requires var layouts := After(utf8, events).layouts;
             && d.epoch == layouts[i].epoch && Within(d.missing, |layouts[i].identities|)
             && HybridCache.ViewOf(d, layouts[j].epoch).misses[p].Some?
    ensures var layouts := After(utf8, events).layouts;
            && p < |layouts[i].identities| && p < |layouts[j].identities|
            && who(layouts[j].identities[p]) == who(layouts[i].identities[p])
  {
    hide Steady, After, Fresh, StartsWith;
    BitsKeepTheirHost(utf8, who, known, events, i, j, d.missing, p);
  }

  /** Up to trailing dots this needs no assumption about the hosts. */
  lemma BitsKeepTheirRoot(utf8: Utf8, events: seq<Event>, i: nat, j: nat, stored: Mask, p: Slot)
    requires Fresh(events) && i <= j < |After(utf8, events).layouts|
    requires var layouts := After(utf8, events).layouts;
             Within(stored, |layouts[i].identities|) && Has(ReadBits(stored, layouts[i].epoch, layouts[j].epoch), p)
    ensures var layouts := After(utf8, events).layouts;
            && p < |layouts[i].identities| && p < |layouts[j].identities|
            && Root(layouts[j].identities[p]) == Root(layouts[i].identities[p])
  {
    hide After, Root, Canon, HostOk, Fresh;
    var known := Everyone();
    forall x | x in known && HostOk(utf8, x)
      ensures Root(Canon(x)) == Root(x)
    {
      RootOfCanon(x);
    }
    BitsKeepTheirHost(utf8, Root, known, events, i, j, stored, p);
  }

  // ---------- which server names keep their slot ----------

  /** While the epoch is unchanged every slot keeps its very identity, whatever servers are configured. */
  ghost predicate SlotsStay(utf8: Utf8, servers: iset<seq<byte>>) {
    forall events :: Fresh(events) && Configures(events, servers) ==> LayoutsAgree(Itself, After(utf8, events).layouts)
  }

  ghost predicate Configures(events: seq<Event>, servers: iset<seq<byte>>) {
    forall i, j :: 0 <= i < |events| && events[i].Start? && 0 <= j < |events[i].names| ==> events[i].names[j] in servers
  }

  /** The identity of no configured server is read back as another one. */
  ghost predicate Undotted(utf8: Utf8, servers: iset<seq<byte>>) {
    forall name :: name in servers && HostOk(utf8, Canon(name)) ==> !EndsInDot(Canon(name))
  }

  lemma StayWhenUndotted(utf8: Utf8, servers: iset<seq<byte>>)
    requires Undotted(utf8, servers)
    ensures SlotsStay(utf8, servers)
  {
    hide After, Canon, HostOk, Fresh;
    var known := iset name | name in servers :: Canon(name);
    forall x | x in known && HostOk(utf8, x)
      ensures Canon(x) == x
    {
      var name :| name in servers && x == Canon(name);
      CanonOfIdentity(name);
    }
    forall events | Fresh(events) && Configures(events, servers)
      ensures LayoutsAgree(Itself, After(utf8, events).layouts)
    {
      PastIsOrderly(utf8, Itself, known, events);
    }
  }

  /** One server, started twice. */
  function Twice(name: seq<byte>): seq<Event> { [Start([name], 1), Start([name], 2)] }

  lemma EnlistOne(identities: seq<Host>, name: seq<byte>)
    ensures Enlist(identities, [name]) == if Canon(name) in identities then identities else identities + [Canon(name)]
  {
    assert [name][..0] == [];
    assert Enlist(identities, []) == identities;
  }

  lemma FirstStart(utf8: Utf8, name: seq<byte>, draw: Epoch)
    requires HostOk(utf8, Canon(name))
    ensures var first := Registered([Canon(name)], draw);
            StartUp(utf8, None, [name], draw) == Startup(Some(RegistryBytes(first)), Some(first))
  {
    hide RegistryBytes, ReadRegistry, Canon, Enlist;
    EnlistOne([], name);
    assert [] + [Canon(name)] == [Canon(name)];
  }

  lemma SecondStart(utf8: Utf8, name: seq<byte>, epoch: Epoch, draw: Epoch)
    requires HostOk(utf8, Canon(name)) && Canon(Canon(name)) != Canon(name)
    ensures var x := Canon(name);
            StartUp(utf8, Some(RegistryBytes(Registered([x], epoch))), [name], draw).started ==
            Some(Registered([Canon(x), x], epoch))
  {
    hide RegistryBytes, ReadRegistry, Canon, Enlist;
    var x := Canon(name);
    ReadOfPublished(utf8, Registered([x], epoch));
    assert CanonAll([x]) == [Canon(x)] && TableOk(utf8, [x]);
    EnlistOne([Canon(x)], name);
    assert [Canon(x)] + [x] == [Canon(x), x];
    CanonShortens(x);
  }

  lemma CanonShortens(name: seq<byte>)
    ensures |Canon(name)| <= |name|
  {
  }

  /** A dotted identity moves to another slot at the second start, under the same epoch. */
  lemma DottedMoves(utf8: Utf8, name: seq<byte>)
    requires HostOk(utf8, Canon(name)) && EndsInDot(Canon(name))
    ensures Fresh(Twice(name)) && !LayoutsAgree(Itself, After(utf8, Twice(name)).layouts)
  {
    hide RegistryBytes, ReadRegistry, Canon, Enlist, StartUp, HostOk;
    var events, x := Twice(name), Canon(name);
    var first, second := Registered([x], 1), Registered([Canon(x), x], 1);
    CanonOfIdentity(name);
    FirstStart(utf8, name, 1);
    SecondStart(utf8, name, 1, 2);
    assert events[..1][..0] == [] && events[..0] == [];
    assert Drawn(events[..1]) == {1} && Drawn(events[..0]) == {};
    assert After(utf8, events[..1]) == Past(Some(RegistryBytes(first)), [first]);
    var layouts := After(utf8, events).layouts;
    assert layouts == [first, second];
    assert layouts[0].epoch == layouts[1].epoch && !Grown(Itself, layouts[0].identities, layouts[1].identities) by {
      assert Itself(layouts[0].identities[0]) != Itself(layouts[1].identities[0]);
    }
  }

  /**
    Slots keep their identity in every history of starts exactly when no configured server
    has an identity that still ends in a dot.
   */
  lemma SlotsStayIff(utf8: Utf8, servers: iset<seq<byte>>)
    ensures SlotsStay(utf8, servers) <==> Undotted(utf8, servers)
  {
    hide After, Canon, HostOk, Fresh, LayoutsAgree, EndsInDot;
    if Undotted(utf8, servers) {
      StayWhenUndotted(utf8, servers);
    } else {
      var name :| name in servers && HostOk(utf8, Canon(name)) && EndsInDot(Canon(name));
      DottedMoves(utf8, name);
      assert Configures(Twice(name), servers);
    }
  }
}
