/**
  Provider slots: the layout of one process and the registry that keeps slots across
  restarts of the hybrid cache.

  The registry is a file with an epoch and the identities in slot order; it only grows.
 */
module Registry {
  import opened Words
  import opened Cursors
  import opened Identities
  import opened Restoring
  import opened SnapshotCodec

  // ---------- layouts ----------

  /** Identities by slot; `slots` gives the slot of each configured server, `mask` those slots. */
  datatype Layout = Layout(slots: seq<nat>, identities: seq<Host>, mask: Mask)

  /** Adds the identities of `names` that are not yet there, in order. */
  function Enlist(identities: seq<Host>, names: seq<seq<byte>>): (r: seq<Host>)
    ensures identities <= r
    ensures Distinct(identities) ==> Distinct(r)
    ensures forall i :: 0 <= i < |names| ==> Canon(names[i]) in r
    ensures forall x :: x in r ==> x in identities || exists i :: 0 <= i < |names| && x == Canon(names[i])
  {
    if names == [] then identities
    else
      var r := Enlist(identities, names[..|names| - 1]);
      var id := Canon(names[|names| - 1]);
      if id in r then r else r + [id]
  }

  /** Every server has the slot of its identity and the mask is the set of these slots. */
  ghost predicate LaidOver(layout: Layout, names: seq<seq<byte>>) {
    && |layout.slots| == |names| && |layout.identities| <= MAX_BACKENDS
    && (forall i :: 0 <= i < |names| ==>
          layout.slots[i] < |layout.identities| && layout.identities[layout.slots[i]] == Canon(names[i]))
    && (forall p: Slot :: Has(layout.mask, p) <==> p in layout.slots)
  }

  method Collect(identities: seq<Host>, names: seq<seq<byte>>) returns (all: seq<Host>, changed: bool)
    ensures all == Enlist(identities, names) && changed == (all != identities)
  {
    all, changed := identities, false;
    var i := 0;
    while i < |names|
      invariant 0 <= i <= |names| && all == Enlist(identities, names[..i]) && changed == (all != identities)
    {
      assert names[..i + 1][..i] == names[..i];
      var id := Canon(names[i]);
      if id !in all {
        all, changed := all + [id], true;
      }
      i := i + 1;
    }
    assert names[..i] == names;
  }

  /** Looks every server up in the table. */
  method Seats(identities: seq<Host>, names: seq<seq<byte>>) returns (r: Option<Layout>)
    requires forall i :: 0 <= i < |names| ==> Canon(names[i]) in identities
    ensures |identities| <= MAX_BACKENDS ==> r.Some?
    ensures r.Some? ==> r.value.identities == identities && (|identities| <= MAX_BACKENDS ==> LaidOver(r.value, names))
    ensures r.None? <==>
              exists i :: 0 <= i < |names| && SlotFor(identities, Canon(names[i]), |identities|).value >= MAX_BACKENDS
  {
    var slots: seq<nat>, mask: Mask, i := [], NO_SLOTS, 0;
    while i < |names|
      invariant 0 <= i <= |names| == |names| && |slots| == i
      invariant forall j :: 0 <= j < i ==>
        slots[j] < |identities| && slots[j] < MAX_BACKENDS && identities[slots[j]] == Canon(names[j])
      invariant forall j :: 0 <= j < i ==> Some(slots[j]) == SlotFor(identities, Canon(names[j]), |identities|)
      invariant forall p: Slot :: Has(mask, p) <==> p in slots
    {
      assert identities[..|identities|] == identities;
      var slot := SlotFor(identities, Canon(names[i]), |identities|).value;
      if slot >= MAX_BACKENDS {
        return None;
      }
      mask := mask[slot := true];
      slots := slots + [slot];
      i := i + 1;
    }
    r := Some(Layout(slots, identities, mask));
  }

  /** The compact layout of one process: as many slots as different hosts, at most 64. */
  method FromServers(names: seq<seq<byte>>) returns (r: Option<Layout>)
    ensures r.Some? <==> |Enlist([], names)| <= MAX_BACKENDS
    ensures r.Some? ==>
              r.value.identities == Enlist([], names) && Distinct(r.value.identities) && LaidOver(r.value, names)
  {
    var identities, _ := Collect([], names);
    r := Seats(identities, names);
    if |identities| > MAX_BACKENDS {
      var id := identities[MAX_BACKENDS];
      assert id in identities;
      var i :| 0 <= i < |names| && id == Canon(names[i]);
      assert SlotFor(identities, Canon(names[i]), |identities|).value >= MAX_BACKENDS;
    }
  }

  /** Two servers share a slot exactly when their names differ in letter case and one trailing dot at most. */
  lemma OneSlotIff(layout: Layout, names: seq<seq<byte>>, i: nat, j: nat)
    requires LaidOver(layout, names) && Distinct(layout.identities) && i < |names| && j < |names|
    ensures layout.slots[i] == layout.slots[j] <==> SameSpelling(WithoutDot(names[i]), WithoutDot(names[j]))
  {
    hide Canon, SameSpelling;
    OneIdentityIff(names[i], names[j]);
  }

  // ---------- the registry file ----------

  const REGISTRY_MAGIC: seq<byte> := [65, 78, 69, 71, 82, 69, 71, 50]

  type Epoch = x: u64 | x != 0 witness 1

  datatype Registered = Registered(identities: seq<Host>, epoch: Epoch)

  function RegistryBytes(r: Registered): seq<byte> {
    REGISTRY_MAGIC + (ToLe(r.epoch, 8) + (ToLe(|r.identities|, 8) + Join(HostPieces(r.identities))))
  }

  function ReadRegistry(utf8: Utf8, data: seq<byte>): (r: Option<Registered>)
    ensures r.Some? ==> Distinct(r.value.identities) && |r.value.identities| <= MAX_BACKENDS
  {
    if |data| < 24 || data[..8] != REGISTRY_MAGIC then None else
    var epoch, count := ReadU64(data, 8), ReadU64(data, 16);
    if epoch.Bad? || epoch.value == 0 || count.Bad? || count.value > MAX_BACKENDS then None else
    var hosts := ReadMany(HostReader(utf8, data), count.next, count.value);
    if hosts.Bad? || !Distinct(hosts.value) || hosts.next != |data| then None
    else Some(Registered(hosts.value, epoch.value))
  }

  /** Reads the hosts one by one and stops at the first bad or repeated one. */
  method LoadIdentities(utf8: Utf8, data: seq<byte>, at: nat, n: nat) returns (r: Parsed<seq<Host>>)
    ensures r == (var hosts := ReadMany(HostReader(utf8, data), at, n);
                  if hosts.Got? && Distinct(hosts.value) then hosts else Bad)
  {
    hide ReadHost, Distinct;
    var read := HostReader(utf8, data);
    var hosts: seq<Host>, cursor, i := [], at, 0;
    NoClash();
    while i < n
      invariant 0 <= i <= n && ReadMany(read, at, i) == Got(hosts, cursor) && Distinct(hosts)
    {
      var host := read(cursor);
      if host.Bad? {
        ManyStayBad(read, at, i + 1, n);
        return Bad;
      }
      ClashOrNot(hosts, host.value);
      if host.value in hosts {
        assert ReadMany(read, at, i + 1) == Got(hosts + [host.value], host.next);
        ClashStays(read, at, i + 1, n);
        return Bad;
      }
      hosts, cursor, i := hosts + [host.value], host.next, i + 1;
    }
    r := Got(hosts, cursor);
  }

  lemma NoClash()
    ensures Distinct<Host>([])
  {
  }

  lemma ClashOrNot(hosts: seq<Host>, host: Host)
    requires Distinct(hosts)
    ensures Distinct(hosts + [host]) <==> host !in hosts
  {
    var all := hosts + [host];
    if host in hosts {
      var i :| 0 <= i < |hosts| && hosts[i] == host;
      assert all[i] == all[|hosts|];
    }
  }

  lemma {:induction false} ClashStays(read: Reader<Host>, at: nat, m: nat, n: nat)
    requires m <= n && ReadMany(read, at, m).Got? && !Distinct(ReadMany(read, at, m).value)
    ensures ReadMany(read, at, n).Got? ==> !Distinct(ReadMany(read, at, n).value)
  {
    if m < n {
      ClashStays(read, at, m, n - 1);
      if ReadMany(read, at, n).Got? {
        var front, all := ReadMany(read, at, n - 1).value, ReadMany(read, at, n).value;
        var i, j :| 0 <= i < j < |front| && front[i] == front[j];
        assert all[i] == all[j];
      }
    }
  }

  method LoadRegistry(utf8: Utf8, data: seq<byte>) returns (r: Option<Registered>)
    ensures r == ReadRegistry(utf8, data)
  {
    if |data| < 24 || data[..8] != REGISTRY_MAGIC {
      return None;
    }
    var epoch := ReadU64(data, 8);
    if epoch.Bad? || epoch.value == 0 {
      return None;
    }
    var count := ReadU64(data, 16);
    if count.Bad? || count.value > MAX_BACKENDS {
      return None;
    }
    var hosts := LoadIdentities(utf8, data, count.next, count.value);
    if hosts.Bad? || hosts.next != |data| {
      return None;
    }
    r := Some(Registered(hosts.value, epoch.value));
  }

  /** Reading back a published registry: the same epoch over the identities of the written hosts, or nothing. */
  lemma ReadOfPublished(utf8: Utf8, r: Registered)
    requires |r.identities| <= U64_MAX && forall i :: 0 <= i < |r.identities| ==> |r.identities[i]| < 0x1_0000_0000
    ensures ReadRegistry(utf8, RegistryBytes(r)) ==
            if TableOk(utf8, r.identities) then Some(Registered(CanonAll(r.identities), r.epoch)) else None
  {
    hide ToLe, Join, HostPieces, ReadU64, ReadMany, HostOk, Canon;
    var data, hosts := RegistryBytes(r), Join(HostPieces(r.identities));
    SitsFive(data, 0, REGISTRY_MAGIC, ToLe(r.epoch, 8), ToLe(|r.identities|, 8), hosts, []) by {
      assert hosts + [] == hosts;
    }
    ReadsU64(data, 8, r.epoch);
    ReadsU64(data, 16, |r.identities|);
    ReadsHosts(utf8, data, 24, r.identities);
    assert data[..8] == REGISTRY_MAGIC;
  }
}
