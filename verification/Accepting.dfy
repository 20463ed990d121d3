/**
  What the readers accept, exactly: the bytes that the writers produce, and nothing else.
 */
module Accepting {
  import opened Words
  import opened Snapshots
  import opened Cursors
  import opened Identities
  import opened Restoring
  import opened SnapshotCodec
  import opened Registry
  import opened Payloads
  import opened HybridCache
  import DiskCodec

  // ---------- fields ----------

  lemma GotU16(data: seq<byte>, at: nat)
    ensures var r := ReadU16(data, at); r.Got? ==> Sits(data, at, ToLe(r.value, 2)) && r.next == at + 2
  {
    if ReadU16(data, at).Got? {
      LeFromBytes(data[at..at + 2]);
    }
  }

  lemma GotU32(data: seq<byte>, at: nat)
    ensures var r := ReadU32(data, at); r.Got? ==> Sits(data, at, ToLe(r.value, 4)) && r.next == at + 4
  {
    if ReadU32(data, at).Got? {
      LeFromBytes(data[at..at + 4]);
    }
  }

  lemma GotU64(data: seq<byte>, at: nat)
    ensures var r := ReadU64(data, at); r.Got? ==> Sits(data, at, ToLe(r.value, 8)) && r.next == at + 8
  {
    if ReadU64(data, at).Got? {
      LeFromBytes(data[at..at + 8]);
    }
  }

  lemma GotBytes(data: seq<byte>, at: nat, n: nat)
    ensures var r := ReadBytes(data, at, n); r.Got? ==> Sits(data, at, r.value) && |r.value| == n && r.next == at + n
  {
  }

  lemma GotMask(data: seq<byte>, at: nat)
    ensures var r := ReadU64(data, at);
            r.Got? ==> Sits(data, at, ToLe(WordOf(BitsOf(r.value, MAX_BACKENDS)), 8)) && r.next == at + 8
  {
    GotU64(data, at);
    PowersOfTwo();
    if ReadU64(data, at).Got? {
      WordOfBits(ReadU64(data, at).value, MAX_BACKENDS);
    }
  }

  // ---------- hosts and entries ----------

  /** A host that was read is the identity of an acceptable one that was written. */
  lemma GotHost(utf8: Utf8, data: seq<byte>, at: nat) returns (raw: Host)
    requires ReadHost(utf8, data, at).Got?
    ensures HostOk(utf8, raw) && Sits(data, at, HostBytes(raw))
    ensures ReadHost(utf8, data, at) == Got(Canon(raw), at + |HostBytes(raw)|)
  {
    hide ReadU32, ToLe, Canon;
    var length := ReadU32(data, at);
    GotU32(data, at);
    GotBytes(data, at + 4, length.value);
    raw := ReadBytes(data, at + 4, length.value).value;
    SitsTwo(data, at, ToLe(|raw|, 4), raw);
  }

  /** Acceptable hosts lie between two positions and are read as `hosts`. */
  ghost predicate HostsSit(utf8: Utf8, data: seq<byte>, at: nat, raws: seq<Host>, hosts: seq<Host>, next: nat) {
    && HostsOk(utf8, raws) && hosts == CanonAll(raws)
    && Sits(data, at, Join(HostPieces(raws))) && next == at + |Join(HostPieces(raws))|
  }

  lemma HostsSitMore(utf8: Utf8, data: seq<byte>, at: nat, raws: seq<Host>, hosts: seq<Host>, raw: Host, next: nat)
    requires HostsSit(utf8, data, at, raws, hosts, next) && HostOk(utf8, raw) && Sits(data, next, HostBytes(raw))
    ensures HostsSit(utf8, data, at, raws + [raw], hosts + [Canon(raw)], next + |HostBytes(raw)|)
  {
    hide HostBytes, HostOk, Canon, Join;
    assert HostPieces(raws + [raw]) == HostPieces(raws) + [HostBytes(raw)];
    JoinMore(HostPieces(raws), HostBytes(raw));
    SitsTwo(data, at, Join(HostPieces(raws)), HostBytes(raw));
    assert CanonAll(raws + [raw]) == CanonAll(raws) + [Canon(raw)];
  }

  lemma {:induction false} GotHosts(utf8: Utf8, data: seq<byte>, at: nat, n: nat) returns (raws: seq<Host>)
    requires at <= |data| && ReadMany(HostReader(utf8, data), at, n).Got?
    ensures var r := ReadMany(HostReader(utf8, data), at, n);
            |raws| == n && HostsSit(utf8, data, at, raws, r.value, r.next)
  {
    hide ReadHost, Canon, HostBytes, HostOk;
    raws := [];
    if n > 0 {
      hide HostsSit;
      var front := ReadMany(HostReader(utf8, data), at, n - 1);
      var before := GotHosts(utf8, data, at, n - 1);
      var last := GotHost(utf8, data, front.next);
      HostsSitMore(utf8, data, at, before, front.value, last, front.next);
      raws := before + [last];
    }
  }

  lemma GotKey(utf8: Utf8, data: seq<byte>, at: nat)
    ensures var r := ReadKey(utf8, data, at);
            r.Got? ==>
              && KeyFits(r.value) && utf8(r.value) && Sits(data, at, ToLe(|r.value|, 2) + r.value)
              && r.next == at + 2 + |r.value|
  {
    hide ReadU16, ToLe;
    var r := ReadKey(utf8, data, at);
    if r.Got? {
      var length := ReadU16(data, at);
      GotU16(data, at);
      GotBytes(data, at + 2, length.value);
      SitsTwo(data, at, ToLe(|r.value|, 2), r.value);
    }
  }

  lemma GotMissing(data: seq<byte>, at: nat, providers: nat)
    ensures var r := ReadMissing(data, at, providers);
            r.Got? ==> Within(r.value, providers) && Sits(data, at, ToLe(WordOf(r.value), 8)) && r.next == at + 8
  {
    hide ReadU64, ToLe, WordOf, BitsOf;
    GotMask(data, at);
  }

  /** An entry that was read is an acceptable one, exactly as it was written. */
  lemma GotEntry(utf8: Utf8, data: seq<byte>, at: nat, providers: nat)
    ensures var r := ReadEntry(utf8, data, at, providers);
            r.Got? ==>
              && KeyFits(r.value.key) && EntryOk(utf8, r.value, providers)
              && Sits(data, at, EntryBytes(r.value)) && r.next == at + |EntryBytes(r.value)|
  {
    hide ReadU64, ReadU16, ReadKey, ReadMissing, ToLe, WordOf, KeyFits, Within;
    var r := ReadEntry(utf8, data, at, providers);
    if r.Got? {
      var e := r.value;
      GotU64(data, at);
      GotU16(data, at + 8);
      GotKey(utf8, data, at + 10);
      var key, missing, time := ToLe(|e.key|, 2) + e.key, ToLe(WordOf(e.missing), 8), ToLe(e.insertedAt, 8);
      GotMissing(data, at + 10 + |key|, providers);
      GotU64(data, at + 18 + |key|);
      SitsTwo(data, at + 10 + |key|, missing, time);
      SitsTwo(data, at + 10, key, missing + time);
      SitsTwo(data, at + 8, ToLe(e.tag, 2), key + (missing + time));
      SitsTwo(data, at, ToLe(e.hash, 8), ToLe(e.tag, 2) + (key + (missing + time)));
    }
  }

  /** Acceptable entries lie between two positions. */
  ghost predicate ListSits(utf8: Utf8, data: seq<byte>, at: nat, entries: seq<Entry>, providers: nat, next: nat) {
    && (forall i :: 0 <= i < |entries| ==> KeyFits(entries[i].key)) && EntriesOk(utf8, entries, providers)
    && Sits(data, at, Join(EntryPieces(entries))) && next == at + |Join(EntryPieces(entries))|
  }

  lemma ListSitsMore(utf8: Utf8, data: seq<byte>, at: nat, entries: seq<Entry>, e: Entry, providers: nat, next: nat)
    requires ListSits(utf8, data, at, entries, providers, next)
    requires KeyFits(e.key) && EntryOk(utf8, e, providers) && Sits(data, next, EntryBytes(e))
    ensures ListSits(utf8, data, at, entries + [e], providers, next + |EntryBytes(e)|)
  {
    hide EntryBytes, EntryOk, KeyFits, Join;
    assert EntryPieces(entries + [e]) == EntryPieces(entries) + [EntryBytes(e)];
    JoinMore(EntryPieces(entries), EntryBytes(e));
    SitsTwo(data, at, Join(EntryPieces(entries)), EntryBytes(e));
  }

  lemma {:induction false} GotEntries(utf8: Utf8, data: seq<byte>, at: nat, n: nat, providers: nat)
    requires at <= |data|
    ensures var r := ReadMany(EntryReader(utf8, data, providers), at, n);
            r.Got? ==> ListSits(utf8, data, at, r.value, providers, r.next)
  {
    hide ReadEntry, EntryBytes, EntryOk, KeyFits;
    var r := ReadMany(EntryReader(utf8, data, providers), at, n);
    if n > 0 && r.Got? {
      hide ListSits;
      GotEntries(utf8, data, at, n - 1, providers);
      var front := ReadMany(EntryReader(utf8, data, providers), at, n - 1);
      GotEntry(utf8, data, front.next, providers);
      var last := ReadEntry(utf8, data, front.next, providers).value;
      ListSitsMore(utf8, data, at, front.value, last, providers, front.next);
    }
  }

  // ---------- snapshots ----------

  lemma GotTable(utf8: Utf8, data: seq<byte>, at: nat) returns (raws: seq<Host>)
    requires ReadTable(utf8, data, at).Got?
    ensures TableOk(utf8, raws) && Sits(data, at, ToLe(|raws|, 8) + Join(HostPieces(raws)))
    ensures ReadTable(utf8, data, at) == Got(CanonAll(raws), at + 8 + |Join(HostPieces(raws))|)
  {
    hide ReadU64, ReadMany, ToLe, HostsOk, Join, Distinct;
    GotU64(data, at);
    raws := GotHosts(utf8, data, at + 8, ReadU64(data, at).value);
    SitsTwo(data, at, ToLe(|raws|, 8), Join(HostPieces(raws)));
  }

  lemma GotList(utf8: Utf8, data: seq<byte>, at: nat, providers: nat)
    ensures var r := ReadList(utf8, data, at, providers);
            r.Got? ==>
              && |r.value| <= U64_MAX && (forall i :: 0 <= i < |r.value| ==> KeyFits(r.value[i].key))
              && EntriesOk(utf8, r.value, providers)
              && Sits(data, at, ToLe(|r.value|, 8) + Join(EntryPieces(r.value)))
              && r.next == at + 8 + |Join(EntryPieces(r.value))|
  {
    hide ReadU64, ReadMany, ToLe, EntriesOk, Join, KeyFits;
    var r := ReadList(utf8, data, at, providers);
    if r.Got? {
      GotU64(data, at);
      GotEntries(utf8, data, at + 8, ReadU64(data, at).value, providers);
      SitsTwo(data, at, ToLe(|r.value|, 8), Join(EntryPieces(r.value)));
    }
  }

  lemma AcceptedSnapshot(utf8: Utf8, data: seq<byte>) returns (s: Snapshot)
    requires Parse(utf8, data).Read?
    ensures Writable(s) && Readable(utf8, s) && data == SnapshotBytes(s)
  {
    hide ReadTable, ReadList, ToLe, HostsOk, EntriesOk, Join, KeyFits, Distinct;
    var raws := GotTable(utf8, data, |MAGIC|);
    var list := |MAGIC| + 8 + |Join(HostPieces(raws))|;
    GotList(utf8, data, list, |raws|);
    s := Snapshot(raws, ReadList(utf8, data, list, |raws|).value);
    ShortHosts(utf8, raws);
    assert data[|MAGIC|..list] == ToLe(|raws|, 8) + Join(HostPieces(raws));
    assert data[list..] == ToLe(|s.entries|, 8) + Join(EntryPieces(s.entries));
    assert data == data[..|MAGIC|] + (data[|MAGIC|..list] + data[list..]);
    Regroup(ToLe(|raws|, 8), Join(HostPieces(raws)), ToLe(|s.entries|, 8), Join(EntryPieces(s.entries)));
  }

  lemma Regroup(w: seq<byte>, x: seq<byte>, y: seq<byte>, z: seq<byte>)
    ensures (w + x) + (y + z) == w + (x + (y + z))
  {
  }

  lemma ShortHosts(utf8: Utf8, hosts: seq<Host>)
    requires TableOk(utf8, hosts)
    ensures |hosts| <= U64_MAX && forall i :: 0 <= i < |hosts| ==> |hosts[i]| < 0x1_0000_0000
  {
    hide Canon, Distinct;
    assert forall i :: 0 <= i < |hosts| ==> HostOk(utf8, hosts[i]);
  }

  /** A file is read as a snapshot exactly when it is, to the last byte, what a save of a readable snapshot writes. */
  lemma AcceptedIff(utf8: Utf8, data: seq<byte>)
    ensures Parse(utf8, data).Read? <==> exists s :: Writable(s) && Readable(utf8, s) && data == SnapshotBytes(s)
  {
    hide Parse, SnapshotBytes, Readable, Writable;
    if Parse(utf8, data).Read? {
      var s := AcceptedSnapshot(utf8, data);
    }
    forall s | Writable(s) && Readable(utf8, s) && data == SnapshotBytes(s)
      ensures Parse(utf8, data).Read?
    {
      ParseOfSaved(utf8, s);
    }
  }

  // ---------- the registry ----------

  lemma AcceptedRegistry(utf8: Utf8, data: seq<byte>) returns (r: Registered)
    requires ReadRegistry(utf8, data).Some?
    ensures TableOk(utf8, r.identities) && data == RegistryBytes(r)
  {
    hide ReadU64, ReadMany, ToLe, HostsOk, Join, Distinct;
    GotU64(data, 8);
    GotU64(data, 16);
    var epoch, count := ReadU64(data, 8).value, ReadU64(data, 16).value;
    var raws := GotHosts(utf8, data, 24, count);
    r := Registered(raws, epoch);
    assert data[..8] == REGISTRY_MAGIC && data[8..16] == ToLe(epoch, 8) && data[16..24] == ToLe(|raws|, 8);
    assert data[24..] == Join(HostPieces(raws));
    assert data == data[..8] + (data[8..16] + (data[16..24] + data[24..]));
  }

  /** A registry file is read exactly when it is, to the last byte, what publishing an acceptable table writes. */
  lemma RegistryAcceptedIff(utf8: Utf8, data: seq<byte>)
    ensures ReadRegistry(utf8, data).Some? <==>
            exists r: Registered :: TableOk(utf8, r.identities) && data == RegistryBytes(r)
  {
    hide ReadRegistry, RegistryBytes, TableOk;
    if ReadRegistry(utf8, data).Some? {
      var r := AcceptedRegistry(utf8, data);
    }
    forall r: Registered | TableOk(utf8, r.identities) && data == RegistryBytes(r)
      ensures ReadRegistry(utf8, data).Some?
    {
      ShortHosts(utf8, r.identities);
      ReadOfPublished(utf8, r);
    }
  }

  // ---------- entries on disk ----------

  lemma GotByte(data: seq<byte>, at: nat)
    ensures var r := DiskCodec.ReadByte(data, at); r.Got? ==> Sits(data, at, [r.value]) && r.next == at + 1
  {
  }

  lemma GotNumber(data: seq<byte>, at: nat)
    ensures var r := DiskCodec.ReadNumber(data, at);
            r.Got? ==>
              && Sits(data, at, DiskCodec.NumberBytes(r.value)) && r.next == at + 8
              && |DiskCodec.NumberBytes(r.value)| == 8
              && DiskCodec.NumberBack(r.value) == r.value
  {
    hide ReadU64, ToLe;
    GotU64(data, at);
  }

  /** A section that was read is one that fits, with what its format restores. */
  lemma GotSection(data: seq<byte>, at: nat, v: DiskCodec.Version) returns (raw: seq<byte>)
    requires DiskCodec.ReadSection(data, at, v).Got?
    ensures |raw| <= DiskCodec.MAX_SECTION && Sits(data, at, DiskCodec.SectionBytes(raw))
    ensures DiskCodec.ReadSection(data, at, v) ==
            Got(DiskCodec.Restored(raw, v), at + |DiskCodec.SectionBytes(raw)|)
  {
    hide ReadU32, ToLe, DiskCodec.Restored;
    var length := ReadU32(data, at);
    GotU32(data, at);
    GotBytes(data, at + 4, length.value);
    raw := ReadBytes(data, at + 4, length.value).value;
    SitsTwo(data, at, ToLe(|raw|, 4), raw);
  }

  /** A payload kind, a number and one or two sections, one after the other. */
  lemma SitsParts(data: seq<byte>, at: nat, kind: byte, number: seq<byte>, rest: seq<byte>)
    requires Sits(data, at, [kind]) && Sits(data, at + 1, number) && Sits(data, at + 1 + |number|, rest)
    ensures Sits(data, at, [kind] + (number + rest))
  {
    SitsTwo(data, at + 1, number, rest);
    SitsTwo(data, at, [kind], number + rest);
  }

  lemma GotOneSection(data: seq<byte>, at: nat, v: DiskCodec.Version) returns (p: Payload)
    requires DiskCodec.ReadPayload(data, at, v).Got? && DiskCodec.ReadByte(data, at).value in {3, 4}
    ensures DiskCodec.SectionsFit(p) && Sits(data, at, DiskCodec.PayloadBytes(p))
    ensures DiskCodec.ReadPayload(data, at, v) ==
            Got(DiskCodec.PayloadBack(p, v), at + |DiskCodec.PayloadBytes(p)|)
  {
    hide DiskCodec.ReadNumber, DiskCodec.ReadSection, DiskCodec.NumberBytes, DiskCodec.SectionBytes, DiskCodec.Restored,
         DiskCodec.NumberBack, Sits;
    GotByte(data, at);
    GotNumber(data, at + 1);
    var kind, n := DiskCodec.ReadByte(data, at).value, DiskCodec.ReadNumber(data, at + 1).value;
    var first := GotSection(data, at + 9, v);
    SitsParts(data, at, kind, DiskCodec.NumberBytes(n), DiskCodec.SectionBytes(first));
    p := if kind == 3 then Head(n, first) else Body(n, first);
  }

  lemma GotTwoSections(data: seq<byte>, at: nat, v: DiskCodec.Version) returns (p: Payload)
    requires DiskCodec.ReadPayload(data, at, v).Got? && DiskCodec.ReadByte(data, at).value == 2
    ensures DiskCodec.SectionsFit(p) && Sits(data, at, DiskCodec.PayloadBytes(p))
    ensures DiskCodec.ReadPayload(data, at, v) ==
            Got(DiskCodec.PayloadBack(p, v), at + |DiskCodec.PayloadBytes(p)|)
  {
    hide DiskCodec.ReadNumber, DiskCodec.ReadSection, DiskCodec.NumberBytes, DiskCodec.SectionBytes, DiskCodec.Restored,
         DiskCodec.NumberBack, Sits;
    GotByte(data, at);
    GotNumber(data, at + 1);
    var n := DiskCodec.ReadNumber(data, at + 1).value;
    var first := GotSection(data, at + 9, v);
    var x := DiskCodec.SectionBytes(first);
    var second := GotSection(data, at + 9 + |x|, v);
    var y := DiskCodec.SectionBytes(second);
    SitsTwo(data, at + 9, x, y);
    SitsParts(data, at, 2, DiskCodec.NumberBytes(n), x + y);
    p := Article(n, first, second);
  }

  /** A payload that was read is one whose sections fit, with what its format restores. */
  lemma GotPayload(data: seq<byte>, at: nat, v: DiskCodec.Version) returns (p: Payload)
    requires DiskCodec.ReadPayload(data, at, v).Got?
    ensures DiskCodec.SectionsFit(p) && Sits(data, at, DiskCodec.PayloadBytes(p))
    ensures DiskCodec.ReadPayload(data, at, v) ==
            Got(DiskCodec.PayloadBack(p, v), at + |DiskCodec.PayloadBytes(p)|)
  {
    hide DiskCodec.ReadNumber, DiskCodec.ReadSection, DiskCodec.NumberBytes, DiskCodec.SectionBytes, DiskCodec.Restored,
         DiskCodec.NumberBack, Sits;
    var kind := DiskCodec.ReadByte(data, at).value;
    GotByte(data, at);
    if kind == 2 {
      p := GotTwoSections(data, at, v);
    } else if kind in {3, 4} {
      p := GotOneSection(data, at, v);
    } else if kind == 5 {
      GotNumber(data, at + 1);
      p := Stat(DiskCodec.ReadNumber(data, at + 1).value);
      SitsTwo(data, at, [5], DiskCodec.NumberBytes(p.number));
    } else {
      p := if kind == 0 then Missing else AvailabilityOnly;
    }
  }

  lemma GotFront(data: seq<byte>, at: nat, d: DiskCachedArticle)
    requires var r := DiskCodec.ReadFront(data, at);
             r.Got? && d.status == r.value.status && d.epoch == r.value.epoch
    ensures var r := DiskCodec.ReadFront(data, at);
            var head := DiskCodec.HeadBytes(d, r.value.version);
            && Sits(data, at, head) && r.next == at + |head|
            && (!r.value.version.HasEpoch() ==> r.value.epoch == 0)
  {
    hide ReadU32, ReadU16, ReadU64, ToLe, Sits;
    var v := DiskCodec.ReadFront(data, at).value.version;
    GotU32(data, at);
    GotU16(data, at + 4);
    var epoch := if v.HasEpoch() then ToLe(d.epoch, 8) else [];
    if v.HasEpoch() {
      GotU64(data, at + 6);
    } else {
      NothingSits(data, at + 6);
    }
    SitsTwo(data, at + 4, ToLe(d.status, 2), epoch);
    SitsTwo(data, at, ToLe(v.Magic(), 4), ToLe(d.status, 2) + epoch);
  }

  lemma NothingSits(data: seq<byte>, at: nat)
    ensures at <= |data| ==> Sits(data, at, [])
  {
  }

  /** Words between two positions. */
  ghost predicate WordsSit(data: seq<byte>, at: nat, words: seq<u64>, next: nat) {
    Sits(data, at, Join(DiskCodec.WordPieces(words))) && next == at + |Join(DiskCodec.WordPieces(words))|
  }

  lemma WordsSitMore(data: seq<byte>, at: nat, words: seq<u64>, word: u64, next: nat)
    requires WordsSit(data, at, words, next) && Sits(data, next, ToLe(word, 8))
    ensures WordsSit(data, at, words + [word], next + 8)
  {
    hide ToLe, Join;
    var pieces := DiskCodec.WordPieces(words);
    assert DiskCodec.WordPieces(words + [word]) == pieces + [ToLe(word, 8)];
    JoinMore(pieces, ToLe(word, 8));
    SitsTwo(data, at, Join(pieces), ToLe(word, 8));
  }

  lemma {:induction false} GotWords(data: seq<byte>, at: nat, n: nat)
    requires at <= |data|
    ensures var r := ReadMany(DiskCodec.WordReader(data), at, n); r.Got? ==> WordsSit(data, at, r.value, r.next)
  {
    hide ReadU64, ToLe;
    var r := ReadMany(DiskCodec.WordReader(data), at, n);
    if n > 0 && r.Got? {
      hide WordsSit;
      GotWords(data, at, n - 1);
      var front := ReadMany(DiskCodec.WordReader(data), at, n - 1);
      GotU64(data, front.next);
      WordsSitMore(data, at, front.value, ReadU64(data, front.next).value, front.next);
    }
  }

  lemma GotStored(data: seq<byte>, at: nat, v: DiskCodec.Version, d: DiskCachedArticle)
    requires var r := DiskCodec.ReadStored(data, at, v);
             && r.Got? && d.missing == r.value.missing && (v.HasStamps() ==> r.value.stamps == Some(d.stamps))
    ensures var r, miss := DiskCodec.ReadStored(data, at, v), DiskCodec.MissBytes(d, v);
            Sits(data, at, miss) && r.next == at + |miss| && (r.value.stamps.Some? <==> v.HasStamps())
  {
    hide ReadU64, ToLe, WordOf, BitsOf, Join, ReadMany, Sits;
    GotMask(data, at);
    var times := if v.HasStamps() then Join(DiskCodec.WordPieces(d.stamps)) else [];
    if v.HasStamps() {
      GotWords(data, at + 8, MAX_BACKENDS);
    } else {
      NothingSits(data, at + 8);
    }
    SitsTwo(data, at, ToLe(WordOf(d.missing), 8), times);
  }

  /** An entry that was read is, in some format, one whose sections fit. */
  lemma AcceptedEntry(data: seq<byte>, at: nat) returns (d: DiskCachedArticle, v: DiskCodec.Version)
    requires DiskCodec.Decode(data, at).Got?
    ensures DiskCodec.SectionsFit(d.payload) && Sits(data, at, DiskCodec.EntryBytes(d, v))
  {
    hide DiskCodec.ReadFront, DiskCodec.ReadStored, DiskCodec.HeadBytes, DiskCodec.MissBytes, DiskCodec.ReadPayload,
         DiskCodec.PayloadBytes, DiskCodec.SectionsFit, DiskCodec.PayloadBack, Sits, ToLe, ReadU64, DiskCodec.ReadByte;
    var front := DiskCodec.ReadFront(data, at);
    v := front.value.version;
    var stored := DiskCodec.ReadStored(data, front.next, v);
    var timestamp := ReadU64(data, stored.next);
    var tier := DiskCodec.ReadByte(data, timestamp.next);
    var p := GotPayload(data, tier.next, v);
    d := DiskCodec.ReadRest(data, stored.next, front.value, stored.value).value.(payload := p);
    GotFront(data, at, d);
    StampsOfFormat(data, front.next, v);
    GotStored(data, front.next, v, d);
    GotU64(data, stored.next);
    GotByte(data, timestamp.next);
    var head, miss, payload := DiskCodec.HeadBytes(d, v), DiskCodec.MissBytes(d, v), DiskCodec.PayloadBytes(p);
    SitsTwo(data, timestamp.next, [d.tier], payload);
    SitsTwo(data, stored.next, ToLe(d.timestamp, 8), [d.tier] + payload);
    SitsTwo(data, front.next, miss, ToLe(d.timestamp, 8) + ([d.tier] + payload));
    SitsTwo(data, at, head, miss + (ToLe(d.timestamp, 8) + ([d.tier] + payload)));
  }

  lemma StampsOfFormat(data: seq<byte>, at: nat, v: DiskCodec.Version)
    ensures var r := DiskCodec.ReadStored(data, at, v); r.Got? ==> (r.value.stamps.Some? <==> v.HasStamps())
  {
    hide ReadMany, ReadU64, BitsOf;
  }

  /** Bytes are read as an entry exactly when some entry whose sections fit was written there, in one of the formats. */
  lemma EntryAcceptedIff(data: seq<byte>, at: nat)
    ensures DiskCodec.Decode(data, at).Got? <==>
            exists d: DiskCachedArticle, v: DiskCodec.Version ::
              DiskCodec.SectionsFit(d.payload) && Sits(data, at, DiskCodec.EntryBytes(d, v))
  {
    hide DiskCodec.Decode, DiskCodec.EntryBytes, DiskCodec.SectionsFit, Sits;
    if DiskCodec.Decode(data, at).Got? {
      var d, v := AcceptedEntry(data, at);
    }
    forall d: DiskCachedArticle, v: DiskCodec.Version |
      DiskCodec.SectionsFit(d.payload) && Sits(data, at, DiskCodec.EntryBytes(d, v))
      ensures DiskCodec.Decode(data, at).Got?
    {
      DiskCodec.DecodeOfEncoded(data, at, d, v);
    }
  }
}
