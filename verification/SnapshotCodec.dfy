/**
  The bytes of an availability snapshot: format `ANEGSIM7`.

  Magic, provider table, entries; every number little-endian.  Parsing what a save wrote
  gives back the entries and the identities of the written hosts.  Whether a byte string is
  UTF-8 is a parameter.
 */
module SnapshotCodec {
  import opened Words
  import opened Blocks
  import opened Snapshots
  import opened Restoring
  import opened Cursors
  import opened Identities

  type Utf8 = seq<byte> -> bool

  const MAGIC: seq<byte> := [65, 78, 69, 71, 83, 73, 77, 55]
  /** The formats of earlier releases, read as empty snapshots. */
  const LEGACY: seq<seq<byte>> := [
    [65, 78, 69, 71, 73, 68, 88, 49], [65, 78, 69, 71, 73, 68, 88, 50],
    [65, 78, 69, 71, 83, 73, 77, 49], [65, 78, 69, 71, 83, 73, 77, 50], [65, 78, 69, 71, 83, 73, 77, 51],
    [65, 78, 69, 71, 83, 73, 77, 52], [65, 78, 69, 71, 83, 73, 77, 53], [65, 78, 69, 71, 83, 73, 77, 54]]

  const MAX_HOST_BYTES: nat := 1024 * 1024
  const MAX_KEY_BYTES: nat := 250
  /** Bytes of an entry without its key. */
  const ENTRY_BYTES: nat := 28

  datatype Snapshot = Snapshot(hosts: seq<Host>, entries: seq<Entry>)

  datatype Loaded = Failed | Legacy | Read(snapshot: Snapshot)

  // ---------- writing ----------

  function HostBytes(host: Host): seq<byte> { ToLe(|host|, 4) + host }

  function HostPieces(hosts: seq<Host>): (pieces: seq<seq<byte>>)
    ensures |pieces| == |hosts| && forall i :: 0 <= i < |hosts| ==> pieces[i] == HostBytes(hosts[i])
  {
    seq(|hosts|, i requires 0 <= i < |hosts| => HostBytes(hosts[i]))
  }

  function EntryBytes(e: Entry): seq<byte> {
    ToLe(e.hash, 8) + (ToLe(e.tag, 2) + ((ToLe(|e.key|, 2) + e.key)
                                         + (ToLe(WordOf(e.missing), 8) + ToLe(e.insertedAt, 8))))
  }

  function EntryPieces(entries: seq<Entry>): (pieces: seq<seq<byte>>)
    ensures |pieces| == |entries| && forall i :: 0 <= i < |entries| ==> pieces[i] == EntryBytes(entries[i])
  {
    seq(|entries|, i requires 0 <= i < |entries| => EntryBytes(entries[i]))
  }

  function SnapshotBytes(s: Snapshot): seq<byte> {
    MAGIC + (ToLe(|s.hosts|, 8) + (Join(HostPieces(s.hosts)) + (ToLe(|s.entries|, 8) + Join(EntryPieces(s.entries)))))
  }

  predicate KeyFits(key: Key) { 1 <= |key| <= MAX_KEY_BYTES }

  /** A save fails on a key of a bad length; the counts of what is in memory fit their fields. */
  predicate Writable(s: Snapshot) {
    && (forall i :: 0 <= i < |s.hosts| ==> |s.hosts[i]| < 0x1_0000_0000)
    && (forall i :: 0 <= i < |s.entries| ==> KeyFits(s.entries[i].key))
    && |s.hosts| <= U64_MAX && |s.entries| <= U64_MAX
  }

  method WriteHosts(hosts: seq<Host>) returns (bytes: Option<seq<byte>>)
    ensures bytes.Some? <==> forall i :: 0 <= i < |hosts| ==> |hosts[i]| < 0x1_0000_0000
    ensures bytes.Some? ==> bytes.value == Join(HostPieces(hosts))
  {
    var table: seq<byte> := [];
    var i := 0;
    while i < |hosts|
      invariant 0 <= i <= |hosts| && table == Join(HostPieces(hosts[..i]))
      invariant forall j :: 0 <= j < i ==> |hosts[j]| < 0x1_0000_0000
    {
      if |hosts[i]| >= 0x1_0000_0000 {
        return None;
      }
      var piece := HostBytes(hosts[i]);
      assert HostPieces(hosts[..i + 1]) == HostPieces(hosts[..i]) + [piece];
      JoinMore(HostPieces(hosts[..i]), piece);
      table := table + piece;
      i := i + 1;
    }
    assert hosts[..i] == hosts;
    bytes := Some(table);
  }

  lemma OneMoreEntry(entries: seq<Entry>, i: nat)
    requires i < |entries|
    ensures Join(EntryPieces(entries[..i + 1])) == Join(EntryPieces(entries[..i])) + EntryBytes(entries[i])
  {
    assert EntryPieces(entries[..i + 1]) == EntryPieces(entries[..i]) + [EntryBytes(entries[i])];
    JoinMore(EntryPieces(entries[..i]), EntryBytes(entries[i]));
  }

  method WriteEntries(entries: seq<Entry>) returns (bytes: Option<seq<byte>>)
    ensures bytes.Some? <==> forall i :: 0 <= i < |entries| ==> KeyFits(entries[i].key)
    ensures bytes.Some? ==> bytes.value == Join(EntryPieces(entries))
  {
    hide EntryBytes;
    var body: seq<byte> := [];
    var i := 0;
    while i < |entries|
      invariant 0 <= i <= |entries| && body == Join(EntryPieces(entries[..i]))
      invariant forall j :: 0 <= j < i ==> KeyFits(entries[j].key)
    {
      if !KeyFits(entries[i].key) {
        return None;
      }
      OneMoreEntry(entries, i);
      body := body + EntryBytes(entries[i]);
      i := i + 1;
    }
    assert entries[..i] == entries;
    bytes := Some(body);
  }

  method Save(s: Snapshot) returns (bytes: Option<seq<byte>>)
    ensures bytes == if Writable(s) then Some(SnapshotBytes(s)) else None
  {
    var table := WriteHosts(s.hosts);
    if table.None? {
      return None;
    }
    var body := WriteEntries(s.entries);
    if body.None? || |s.hosts| > U64_MAX || |s.entries| > U64_MAX {
      return None;
    }
    bytes := Some(MAGIC + (ToLe(|s.hosts|, 8) + (table.value + (ToLe(|s.entries|, 8) + body.value))));
  }

  // ---------- reading ----------

  function ReadHost(utf8: Utf8, data: seq<byte>, at: nat): (r: Parsed<Host>)
    ensures r.Got? ==> at < r.next <= |data| && r.value != []
  {
    var length := ReadU32(data, at);
    if length.Bad? || length.value > MAX_HOST_BYTES then Bad
    else
      var text := ReadBytes(data, length.next, length.value);
      if text.Bad? || !utf8(text.value) || Canon(text.value) == [] then Bad else Got(Canon(text.value), text.next)
  }

  function HostReader(utf8: Utf8, data: seq<byte>): Reader<Host> { (at: nat) => ReadHost(utf8, data, at) }

  function ReadKey(utf8: Utf8, data: seq<byte>, at: nat): (r: Parsed<Key>)
    ensures r.Got? ==> at < r.next <= |data|
  {
    var length := ReadU16(data, at);
    if length.Bad? || !(1 <= length.value <= MAX_KEY_BYTES) then Bad
    else
      var text := ReadBytes(data, length.next, length.value);
      if text.Bad? || !utf8(text.value) then Bad else text
  }

  function ReadMissing(data: seq<byte>, at: nat, providers: nat): (r: Parsed<Mask>)
    ensures r.Got? ==> at < r.next <= |data| && Within(r.value, providers)
  {
    var word := ReadU64(data, at);
    if word.Bad? || !Within(BitsOf(word.value, MAX_BACKENDS), providers) then Bad
    else Got(BitsOf(word.value, MAX_BACKENDS), word.next)
  }

  function ReadEntry(utf8: Utf8, data: seq<byte>, at: nat, providers: nat): (r: Parsed<Entry>)
    ensures r.Got? ==> at < r.next <= |data|
  {
    var hash := ReadU64(data, at);
    if hash.Bad? then Bad else
    var tag := ReadU16(data, hash.next);
    if tag.Bad? then Bad else
    var key := ReadKey(utf8, data, tag.next);
    if key.Bad? then Bad else
    var missing := ReadMissing(data, key.next, providers);
    if missing.Bad? then Bad else
    var insertedAt := ReadU64(data, missing.next);
    if insertedAt.Bad? then Bad
    else Got(Entry(hash.value, tag.value, key.value, missing.value, insertedAt.value), insertedAt.next)
  }

  function EntryReader(utf8: Utf8, data: seq<byte>, providers: nat): Reader<Entry> {
    (at: nat) => ReadEntry(utf8, data, at, providers)
  }

  /** The provider table. */
  function ReadTable(utf8: Utf8, data: seq<byte>, at: nat): (r: Parsed<seq<Host>>)
    ensures r.Got? ==> |r.value| <= MAX_BACKENDS
  {
    var count := ReadU64(data, at);
    if count.Bad? || count.value > MAX_BACKENDS then Bad else
    var hosts := ReadMany(HostReader(utf8, data), count.next, count.value);
    if hosts.Bad? || !Distinct(hosts.value) then Bad else hosts
  }

  /** The entries; no more are announced than could be there. */
  function ReadList(utf8: Utf8, data: seq<byte>, at: nat, providers: nat): Parsed<seq<Entry>> {
    var total := ReadU64(data, at);
    if total.Bad? || total.value > (|data| - total.next) / ENTRY_BYTES then Bad
    else ReadMany(EntryReader(utf8, data, providers), total.next, total.value)
  }

  /** The snapshot in the bytes after the magic, and where it ends. */
  function ReadBody(utf8: Utf8, data: seq<byte>): (r: Parsed<Snapshot>)
    ensures r.Got? ==> |r.value.hosts| <= MAX_BACKENDS
  {
    var hosts := ReadTable(utf8, data, |MAGIC|);
    if hosts.Bad? then Bad else
    var entries := ReadList(utf8, data, hosts.next, |hosts.value|);
    if entries.Bad? then Bad else Got(Snapshot(hosts.value, entries.value), entries.next)
  }

  function Parse(utf8: Utf8, data: seq<byte>): (r: Loaded)
    ensures r.Read? ==> |r.snapshot.hosts| <= MAX_BACKENDS
  {
    if |data| < |MAGIC| + 8 then Failed
    else if data[..|MAGIC|] in LEGACY then Loaded.Legacy
    else if data[..|MAGIC|] != MAGIC then Failed
    else
      var body := ReadBody(utf8, data);
      if body.Bad? || body.next != |data| then Failed else Read(body.value)
  }

  method LoadTable(utf8: Utf8, data: seq<byte>, at: nat) returns (r: Parsed<seq<Host>>)
    ensures r == ReadTable(utf8, data, at)
  {
    var count := ReadU64(data, at);
    if count.Bad? || count.value > MAX_BACKENDS {
      return Bad;
    }
    r := LoadMany(HostReader(utf8, data), count.next, count.value);
    if r.Got? && !Distinct(r.value) {
      return Bad;
    }
  }

  method LoadList(utf8: Utf8, data: seq<byte>, at: nat, providers: nat) returns (r: Parsed<seq<Entry>>)
    ensures r == ReadList(utf8, data, at, providers)
  {
    var total := ReadU64(data, at);
    if total.Bad? || total.value > (|data| - total.next) / ENTRY_BYTES {
      return Bad;
    }
    r := LoadMany(EntryReader(utf8, data, providers), total.next, total.value);
  }

  /** Loading the bytes of a file, field by field. */
  method Load(utf8: Utf8, data: seq<byte>) returns (r: Loaded)
    ensures r == Parse(utf8, data)
  {
    if |data| < |MAGIC| + 8 {
      return Failed;
    }
    if data[..|MAGIC|] in LEGACY {
      return Loaded.Legacy;
    }
    if data[..|MAGIC|] != MAGIC {
      return Failed;
    }
    var hosts := LoadTable(utf8, data, |MAGIC|);
    if hosts.Bad? {
      return Failed;
    }
    var entries := LoadList(utf8, data, hosts.next, |hosts.value|);
    if entries.Bad? || entries.next != |data| {
      return Failed;
    }
    r := Read(Snapshot(hosts.value, entries.value));
  }

  // ---------- what was written is read ----------

  /** A host, an entry that a load accepts. */
  predicate HostOk(utf8: Utf8, host: Host) { |host| <= MAX_HOST_BYTES && utf8(host) && Canon(host) != [] }

  predicate EntryOk(utf8: Utf8, e: Entry, providers: nat) { utf8(e.key) && Within(e.missing, providers) }

  predicate HostsOk(utf8: Utf8, hosts: seq<Host>) { forall i :: 0 <= i < |hosts| ==> HostOk(utf8, hosts[i]) }

  predicate EntriesOk(utf8: Utf8, entries: seq<Entry>, providers: nat) {
    forall i :: 0 <= i < |entries| ==> EntryOk(utf8, entries[i], providers)
  }

  /** A table that a load accepts: not too long, every host acceptable, no identity twice. */
  predicate TableOk(utf8: Utf8, hosts: seq<Host>) {
    |hosts| <= MAX_BACKENDS && HostsOk(utf8, hosts) && Distinct(CanonAll(hosts))
  }

  lemma ReadsHost(utf8: Utf8, data: seq<byte>, at: nat, host: Host)
    requires |host| < 0x1_0000_0000 && Sits(data, at, HostBytes(host))
    ensures ReadHost(utf8, data, at) == if HostOk(utf8, host) then Got(Canon(host), at + |HostBytes(host)|) else Bad
  {
    SitsTwo(data, at, ToLe(|host|, 4), host);
    ReadsU32(data, at, |host|);
  }

  lemma ReadsHosts(utf8: Utf8, data: seq<byte>, at: nat, hosts: seq<Host>)
    requires (forall i :: 0 <= i < |hosts| ==> |hosts[i]| < 0x1_0000_0000) && Sits(data, at, Join(HostPieces(hosts)))
    ensures ReadMany(HostReader(utf8, data), at, |hosts|) ==
            if HostsOk(utf8, hosts) then Got(CanonAll(hosts), at + |Join(HostPieces(hosts))|) else Bad
  {
    hide ReadHost, ReadMany, Join, Canon, HostBytes;
    var ok := seq(|hosts|, i requires 0 <= i < |hosts| => HostOk(utf8, hosts[i]));
    forall i | 0 <= i < |hosts|
      ensures ReadsAs(data, HostReader(utf8, data), HostBytes(hosts[i]), Canon(hosts[i]), ok[i])
    {
      forall c: nat | Sits(data, c, HostBytes(hosts[i]))
        ensures HostReader(utf8, data)(c) == if ok[i] then Got(Canon(hosts[i]), c + |HostBytes(hosts[i])|) else Bad
      {
        ReadsHost(utf8, data, c, hosts[i]);
      }
    }
    ReadsMany(data, HostReader(utf8, data), at, HostPieces(hosts), CanonAll(hosts), ok);
    assert AllTrue(ok) <==> HostsOk(utf8, hosts) by {
      assert forall i :: 0 <= i < |hosts| ==> (ok[i] <==> HostOk(utf8, hosts[i]));
    }
  }

  lemma ReadsMissing(data: seq<byte>, at: nat, missing: Mask, providers: nat)
    requires Sits(data, at, ToLe(WordOf(missing), 8))
    ensures ReadMissing(data, at, providers) == if Within(missing, providers) then Got(missing, at + 8) else Bad
  {
    BitsOfWord(missing);
    PowersOfTwo();
    ReadsU64(data, at, WordOf(missing));
  }

  lemma ReadsText(data: seq<byte>, at: nat, text: seq<byte>)
    requires Sits(data, at, text)
    ensures ReadBytes(data, at, |text|) == Got(text, at + |text|)
  {
  }

  lemma ReadsKey(utf8: Utf8, data: seq<byte>, at: nat, key: Key)
    requires KeyFits(key) && Sits(data, at, ToLe(|key|, 2) + key)
    ensures ReadKey(utf8, data, at) == if utf8(key) then Got(key, at + 2 + |key|) else Bad
  {
    SitsTwo(data, at, ToLe(|key|, 2), key);
    ReadsU16(data, at, |key|);
    ReadsText(data, at + 2, key);
  }

  lemma ReadsEntry(utf8: Utf8, data: seq<byte>, at: nat, e: Entry, providers: nat)
    requires KeyFits(e.key) && Sits(data, at, EntryBytes(e))
    ensures ReadEntry(utf8, data, at, providers) ==
            if EntryOk(utf8, e, providers) then Got(e, at + |EntryBytes(e)|) else Bad
  {
    hide ReadU64, ReadU16, ReadKey, ReadMissing, ToLe, WordOf;
    SitsFive(data, at, ToLe(e.hash, 8), ToLe(e.tag, 2), ToLe(|e.key|, 2) + e.key, ToLe(WordOf(e.missing), 8),
             ToLe(e.insertedAt, 8));
    ReadsU64(data, at, e.hash);
    ReadsU16(data, at + 8, e.tag);
    ReadsKey(utf8, data, at + 10, e.key);
    ReadsMissing(data, at + 12 + |e.key|, e.missing, providers);
    ReadsU64(data, at + 20 + |e.key|, e.insertedAt);
  }

  lemma EntryReadsAs(utf8: Utf8, data: seq<byte>, e: Entry, providers: nat)
    requires KeyFits(e.key)
    ensures ReadsAs(data, EntryReader(utf8, data, providers), EntryBytes(e), e, EntryOk(utf8, e, providers))
  {
    var read, piece, ok := EntryReader(utf8, data, providers), EntryBytes(e), EntryOk(utf8, e, providers);
    forall c: nat | Sits(data, c, piece)
      ensures read(c) == if ok then Got(e, c + |piece|) else Bad
    {
      ReadsEntry(utf8, data, c, e, providers);
    }
  }

  function EntryFlags(utf8: Utf8, entries: seq<Entry>, providers: nat): (ok: seq<bool>)
    ensures |ok| == |entries| && forall i :: 0 <= i < |entries| ==> ok[i] == EntryOk(utf8, entries[i], providers)
  {
    seq(|entries|, i requires 0 <= i < |entries| => EntryOk(utf8, entries[i], providers))
  }

  lemma ReadsEntries(utf8: Utf8, data: seq<byte>, at: nat, entries: seq<Entry>, providers: nat)
    requires (forall i :: 0 <= i < |entries| ==> KeyFits(entries[i].key)) && Sits(data, at, Join(EntryPieces(entries)))
    ensures ReadMany(EntryReader(utf8, data, providers), at, |entries|) ==
            if EntriesOk(utf8, entries, providers) then Got(entries, at + |Join(EntryPieces(entries))|) else Bad
  {
    hide EntryBytes, ReadEntry, Join, ReadMany, EntryOk, ReadsAs;
    var read, ok, pieces := EntryReader(utf8, data, providers), EntryFlags(utf8, entries, providers),
        EntryPieces(entries);
    forall i | 0 <= i < |entries|
      ensures ReadsAs(data, read, pieces[i], entries[i], ok[i])
    {
      EntryReadsAs(utf8, data, entries[i], providers);
    }
    ReadsMany(data, read, at, pieces, entries, ok);
    assert AllTrue(ok) <==> EntriesOk(utf8, entries, providers);
  }

  lemma {:induction false} EntriesTakeRoom(entries: seq<Entry>)
    ensures |Join(EntryPieces(entries))| >= |entries| * ENTRY_BYTES
  {
    if entries != [] {
      var n := |entries| - 1;
      EntriesTakeRoom(entries[..n]);
      assert EntryPieces(entries)[..n] == EntryPieces(entries[..n]);
      assert |EntryBytes(entries[n])| >= ENTRY_BYTES;
    }
  }

  lemma ReadsTable(utf8: Utf8, data: seq<byte>, at: nat, hosts: seq<Host>)
    requires |hosts| <= U64_MAX && forall i :: 0 <= i < |hosts| ==> |hosts[i]| < 0x1_0000_0000
    requires Sits(data, at, ToLe(|hosts|, 8)) && Sits(data, at + 8, Join(HostPieces(hosts)))
    ensures ReadTable(utf8, data, at) ==
            if TableOk(utf8, hosts) then Got(CanonAll(hosts), at + 8 + |Join(HostPieces(hosts))|) else Bad
  {
    hide ReadU64, ReadMany, Join, ToLe;
    ReadsU64(data, at, |hosts|);
    ReadsHosts(utf8, data, at + 8, hosts);
  }

  lemma ReadsList(utf8: Utf8, data: seq<byte>, at: nat, entries: seq<Entry>, providers: nat)
    requires |entries| <= U64_MAX && forall i :: 0 <= i < |entries| ==> KeyFits(entries[i].key)
    requires Sits(data, at, ToLe(|entries|, 8)) && Sits(data, at + 8, Join(EntryPieces(entries)))
    ensures ReadList(utf8, data, at, providers) ==
            if EntriesOk(utf8, entries, providers) then Got(entries, at + 8 + |Join(EntryPieces(entries))|) else Bad
  {
    hide ReadU64, ReadMany, Join, ToLe;
    ReadsU64(data, at, |entries|);
    EntriesTakeRoom(entries);
    assert |entries| <= (|data| - (at + 8)) / ENTRY_BYTES;
    ReadsEntries(utf8, data, at + 8, entries, providers);
  }

  ghost predicate LaidOut(data: seq<byte>, s: Snapshot, at: nat, list: nat) {
    && Sits(data, at, ToLe(|s.hosts|, 8)) && Sits(data, at + 8, Join(HostPieces(s.hosts)))
    && list == at + 8 + |Join(HostPieces(s.hosts))|
    && Sits(data, list, ToLe(|s.entries|, 8)) && Sits(data, list + 8, Join(EntryPieces(s.entries)))
    && |data| == list + 8 + |Join(EntryPieces(s.entries))|
  }

  lemma SavedLayout(s: Snapshot)
    ensures SnapshotBytes(s)[..|MAGIC|] == MAGIC
    ensures LaidOut(SnapshotBytes(s), s, |MAGIC|, |MAGIC| + 8 + |Join(HostPieces(s.hosts))|)
  {
    hide ToLe, Join, HostPieces, EntryPieces;
    var data := SnapshotBytes(s);
    SitsFive(data, 0, MAGIC, ToLe(|s.hosts|, 8), Join(HostPieces(s.hosts)), ToLe(|s.entries|, 8),
             Join(EntryPieces(s.entries)));
  }

  lemma TableIsThere(utf8: Utf8, data: seq<byte>, s: Snapshot, list: nat)
    requires Writable(s) && LaidOut(data, s, |MAGIC|, list)
    ensures ReadTable(utf8, data, |MAGIC|) == if TableOk(utf8, s.hosts) then Got(CanonAll(s.hosts), list) else Bad
  {
    ReadsTable(utf8, data, |MAGIC|, s.hosts);
  }

  lemma ListIsThere(utf8: Utf8, data: seq<byte>, s: Snapshot, list: nat)
    requires Writable(s) && LaidOut(data, s, |MAGIC|, list)
    ensures ReadList(utf8, data, list, |CanonAll(s.hosts)|) ==
            if EntriesOk(utf8, s.entries, |s.hosts|) then Got(s.entries, |data|) else Bad
  {
    ReadsList(utf8, data, list, s.entries, |s.hosts|);
  }

  /** What a load accepts. */
  predicate Readable(utf8: Utf8, s: Snapshot) { TableOk(utf8, s.hosts) && EntriesOk(utf8, s.entries, |s.hosts|) }

  lemma ReadsBody(utf8: Utf8, data: seq<byte>, s: Snapshot, list: nat)
    requires Writable(s) && LaidOut(data, s, |MAGIC|, list)
    ensures ReadBody(utf8, data) ==
            if Readable(utf8, s) then Got(Snapshot(CanonAll(s.hosts), s.entries), |data|) else Bad
  {
    TableIsThere(utf8, data, s, list);
    ListIsThere(utf8, data, s, list);
    BodyFrom(utf8, data, s, list);
  }

  lemma BodyFrom(utf8: Utf8, data: seq<byte>, s: Snapshot, list: nat)
    requires ReadTable(utf8, data, |MAGIC|) == if TableOk(utf8, s.hosts) then Got(CanonAll(s.hosts), list) else Bad
    requires ReadList(utf8, data, list, |CanonAll(s.hosts)|) ==
             if EntriesOk(utf8, s.entries, |s.hosts|) then Got(s.entries, |data|) else Bad
    ensures ReadBody(utf8, data) ==
            if Readable(utf8, s) then Got(Snapshot(CanonAll(s.hosts), s.entries), |data|) else Bad
  {
  }

  /**
    Parsing the bytes of a save gives back all its entries, over the identities of the hosts
    that were written, or fails; it fails exactly when a host or a key is not acceptable, an
    identity occurs twice or a bitmap leaves the table.
   */
  lemma ParseOfSaved(utf8: Utf8, s: Snapshot)
    requires Writable(s)
    ensures Parse(utf8, SnapshotBytes(s)) ==
            if Readable(utf8, s) then Read(Snapshot(CanonAll(s.hosts), s.entries)) else Failed
  {
    hide Join, SnapshotBytes, ReadBody, Readable;
    SavedLayout(s);
    ReadsBody(utf8, SnapshotBytes(s), s, |MAGIC| + 8 + |Join(HostPieces(s.hosts))|);
  }

  /**
    The round trip is exact for a readable table of identities exactly when none of them
    ends in a dot, because reading takes the identity of what was already an identity.
   */
  lemma RoundTripIff(utf8: Utf8, s: Snapshot, names: seq<seq<byte>>)
    requires Writable(s) && Readable(utf8, s) && s.hosts == CanonAll(names)
    ensures Parse(utf8, SnapshotBytes(s)) == Read(s) <==> forall i :: 0 <= i < |s.hosts| ==> !EndsInDot(s.hosts[i])
  {
    ParseOfSaved(utf8, s);
    forall i | 0 <= i < |s.hosts|
      ensures CanonAll(s.hosts)[i] == s.hosts[i] <==> !EndsInDot(s.hosts[i])
    {
      CanonOfIdentity(names[i]);
    }
    if forall i :: 0 <= i < |s.hosts| ==> !EndsInDot(s.hosts[i]) {
      assert CanonAll(s.hosts) == s.hosts;
    }
  }

  // ---------- nothing may follow ----------

  lemma HostsStay(utf8: Utf8, data: seq<byte>, tail: seq<byte>)
    ensures Extends(HostReader(utf8, data), HostReader(utf8, data + tail))
  {
    forall c: nat | HostReader(utf8, data)(c).Got?
      ensures HostReader(utf8, data + tail)(c) == HostReader(utf8, data)(c)
    {
      FieldsStay(data, tail, c);
      SliceStays(data, tail, c + 4, ReadU32(data, c).value);
    }
  }

  lemma KeyStays(utf8: Utf8, data: seq<byte>, tail: seq<byte>, at: nat)
    ensures ReadKey(utf8, data, at).Got? ==> ReadKey(utf8, data + tail, at) == ReadKey(utf8, data, at)
  {
    FieldsStay(data, tail, at);
    var length := ReadU16(data, at);
    if length.Got? {
      SliceStays(data, tail, length.next, length.value);
    }
  }

  lemma EntriesStay(utf8: Utf8, data: seq<byte>, tail: seq<byte>, providers: nat)
    ensures Extends(EntryReader(utf8, data, providers), EntryReader(utf8, data + tail, providers))
  {
    hide ReadU64, ReadU16, ReadKey, BitsOf;
    forall c: nat | EntryReader(utf8, data, providers)(c).Got?
      ensures EntryReader(utf8, data + tail, providers)(c) == EntryReader(utf8, data, providers)(c)
    {
      var tag := ReadU16(data, c + 8);
      var key := ReadKey(utf8, data, tag.next);
      FieldsStay(data, tail, c);
      FieldsStay(data, tail, c + 8);
      KeyStays(utf8, data, tail, tag.next);
      FieldsStay(data, tail, key.next);
      FieldsStay(data, tail, key.next + 8);
    }
  }

  lemma TableStays(utf8: Utf8, data: seq<byte>, tail: seq<byte>, at: nat)
    ensures ReadTable(utf8, data, at).Got? ==> ReadTable(utf8, data + tail, at) == ReadTable(utf8, data, at)
  {
    FieldsStay(data, tail, at);
    HostsStay(utf8, data, tail);
    var count := ReadU64(data, at);
    if count.Got? {
      ManyStay(HostReader(utf8, data), HostReader(utf8, data + tail), count.next, count.value);
    }
  }

  lemma ListStays(utf8: Utf8, data: seq<byte>, tail: seq<byte>, at: nat, providers: nat)
    ensures ReadList(utf8, data, at, providers).Got? ==>
              ReadList(utf8, data + tail, at, providers) == ReadList(utf8, data, at, providers)
  {
    FieldsStay(data, tail, at);
    EntriesStay(utf8, data, tail, providers);
    var total := ReadU64(data, at);
    if total.Got? {
      ManyStay(EntryReader(utf8, data, providers), EntryReader(utf8, data + tail, providers), total.next, total.value);
    }
  }

  /** Bytes after a complete snapshot make the file unreadable. */
  lemma SuffixIsRefused(utf8: Utf8, data: seq<byte>, tail: seq<byte>)
    requires tail != []
    ensures Parse(utf8, data).Read? ==> Parse(utf8, data + tail) == Failed
  {
    hide ReadTable, ReadList;
    if Parse(utf8, data).Read? {
      TableStays(utf8, data, tail, |MAGIC|);
      var hosts := ReadTable(utf8, data, |MAGIC|);
      ListStays(utf8, data, tail, hosts.next, |hosts.value|);
      assert (data + tail)[..|MAGIC|] == data[..|MAGIC|];
    }
  }
}
