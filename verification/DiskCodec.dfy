/**
  The bytes of a disk cache entry: format NPC9, and what is read from the older formats
  NPC6 to NPC8.
 */
module DiskCodec {
  import opened Words
  import opened Payloads
  import opened Cursors
  import opened HybridCache

  /** NPC6 has neither epoch nor times, NPC7 no times, NPC8 sections without their last line end. */
  datatype Version = V6 | V7 | V8 | V9 {
    function Magic(): nat {
      match this case V6 => 0x4e50_4336 case V7 => 0x4e50_4337 case V8 => 0x4e50_4338 case V9 => 0x4e50_4339
    }
    predicate HasEpoch() { !V6? }
    predicate HasStamps() { V8? || V9? }
  }

  function VersionOf(magic: nat): (v: Option<Version>)
    ensures v.Some? ==> v.value.Magic() == magic
    ensures v.None? ==> forall w: Version :: w.Magic() != magic
  {
    if magic == V6.Magic() then Some(V6)
    else if magic == V7.Magic() then Some(V7)
    else if magic == V8.Magic() then Some(V8)
    else if magic == V9.Magic() then Some(V9)
    else None
  }

  const MAX_SECTION: nat := 4 * 1024 * 1024
  /** Bytes of an entry before its payload. */
  const FIXED_SIZE: nat := 4 + 2 + 8 + 8 * MAX_BACKENDS + 8 + 8 + 1

  // ---------- payloads ----------

  /** The largest number stands for none. */
  function NumberBytes(n: Number): seq<byte> { ToLe(if n.Some? then n.value else U64_MAX, 8) }

  function SectionBytes(s: seq<byte>): seq<byte> { ToLe(|s|, 4) + s }

  function PayloadBytes(p: Payload): seq<byte> {
    match p
    case Missing => [0]
    case AvailabilityOnly => [1]
    case Article(n, headers, body) => [2] + (NumberBytes(n) + (SectionBytes(headers) + SectionBytes(body)))
    case Head(n, headers) => [3] + (NumberBytes(n) + SectionBytes(headers))
    case Body(n, body) => [4] + (NumberBytes(n) + SectionBytes(body))
    case Stat(n) => [5] + NumberBytes(n)
  }

  function PayloadSize(p: Payload): nat {
    match p
    case Missing => 1
    case AvailabilityOnly => 1
    case Stat(_) => 9
    case Article(_, headers, body) => 1 + 8 + 4 + |headers| + 4 + |body|
    case Head(_, headers) => 1 + 8 + 4 + |headers|
    case Body(_, body) => 1 + 8 + 4 + |body|
  }

  predicate SectionsFit(p: Payload) {
    match p
    case Article(_, headers, body) => |headers| <= MAX_SECTION && |body| <= MAX_SECTION
    case Head(_, headers) => |headers| <= MAX_SECTION
    case Body(_, body) => |body| <= MAX_SECTION
    case _ => true
  }

  function ReadByte(data: seq<byte>, at: nat): Parsed<byte> { if at < |data| then Got(data[at], at + 1) else Bad }

  function ReadNumber(data: seq<byte>, at: nat): Parsed<Number> {
    var raw := ReadU64(data, at);
    if raw.Bad? then Bad else Got(if raw.value == U64_MAX then None else Some(raw.value), raw.next)
  }

  /** Older formats dropped the last line end of a section that is not empty. */
  function Restored(s: seq<byte>, v: Version): seq<byte> { if !v.V9? && s != [] then s + CRLF else s }

  function ReadSection(data: seq<byte>, at: nat, v: Version): Parsed<seq<byte>> {
    var length := ReadU32(data, at);
    if length.Bad? || length.value > MAX_SECTION then Bad
    else
      var s := ReadBytes(data, length.next, length.value);
      if s.Bad? then Bad else Got(Restored(s.value, v), s.next)
  }

  function ReadPayload(data: seq<byte>, at: nat, v: Version): Parsed<Payload> {
    var kind := ReadByte(data, at);
    if kind.Bad? || kind.value > 5 then Bad
    else if kind.value == 0 then Got(Missing, kind.next)
    else if kind.value == 1 then Got(AvailabilityOnly, kind.next)
    else
      var n := ReadNumber(data, kind.next);
      if n.Bad? then Bad
      else if kind.value == 5 then Got(Stat(n.value), n.next)
      else
        var first := ReadSection(data, n.next, v);
        if first.Bad? then Bad
        else if kind.value == 3 then Got(Head(n.value, first.value), first.next)
        else if kind.value == 4 then Got(Body(n.value, first.value), first.next)
        else
          var second := ReadSection(data, first.next, v);
          if second.Bad? then Bad else Got(Article(n.value, first.value, second.value), second.next)
  }

  function NumberBack(n: Number): Number { if n == Some(U64_MAX) then None else n }

  /** The payload that is read back. */
  function PayloadBack(p: Payload, v: Version): Payload {
    match p
    case Article(n, headers, body) => Article(NumberBack(n), Restored(headers, v), Restored(body, v))
    case Head(n, headers) => Head(NumberBack(n), Restored(headers, v))
    case Body(n, body) => Body(NumberBack(n), Restored(body, v))
    case Stat(n) => Stat(NumberBack(n))
    case _ => p
  }

  lemma ReadsNumber(data: seq<byte>, at: nat, n: Number)
    requires Sits(data, at, NumberBytes(n))
    ensures ReadNumber(data, at) == Got(NumberBack(n), at + 8)
  {
    ReadsU64(data, at, if n.Some? then n.value else U64_MAX);
  }

  lemma ReadsSection(data: seq<byte>, at: nat, s: seq<byte>, v: Version)
    requires |s| <= MAX_SECTION && Sits(data, at, SectionBytes(s))
    ensures ReadSection(data, at, v) == Got(Restored(s, v), at + |SectionBytes(s)|)
  {
    hide ReadU32, ToLe;
    SitsTwo(data, at, ToLe(|s|, 4), s);
    ReadsU32(data, at, |s|);
  }

  lemma ReadsByte(data: seq<byte>, at: nat, b: byte)
    requires Sits(data, at, [b])
    ensures ReadByte(data, at) == Got(b, at + 1)
  {
    assert data[at] == data[at..at + 1][0];
  }

  lemma ReadsPayload(data: seq<byte>, at: nat, p: Payload, v: Version)
    requires SectionsFit(p) && Sits(data, at, PayloadBytes(p))
    ensures ReadPayload(data, at, v) == Got(PayloadBack(p, v), at + |PayloadBytes(p)|)
  {
    hide ReadNumber, ReadSection, NumberBytes, SectionBytes, Restored, NumberBack, Sits;
    NumberWidth();
    match p
    case Missing => ReadsByte(data, at, 0);
    case AvailabilityOnly => ReadsByte(data, at, 1);
    case Stat(n) =>
      SitsTwo(data, at, [5], NumberBytes(n));
      ReadsByte(data, at, 5);
      ReadsNumber(data, at + 1, n);
    case Head(n, headers) =>
      SitsTwo(data, at, [3], NumberBytes(n) + SectionBytes(headers));
      SitsTwo(data, at + 1, NumberBytes(n), SectionBytes(headers));
      ReadsByte(data, at, 3);
      ReadsNumber(data, at + 1, n);
      ReadsSection(data, at + 9, headers, v);
    case Body(n, body) =>
      SitsTwo(data, at, [4], NumberBytes(n) + SectionBytes(body));
      SitsTwo(data, at + 1, NumberBytes(n), SectionBytes(body));
      ReadsByte(data, at, 4);
      ReadsNumber(data, at + 1, n);
      ReadsSection(data, at + 9, body, v);
    case Article(n, headers, body) =>
      SitsTwo(data, at, [2], NumberBytes(n) + (SectionBytes(headers) + SectionBytes(body)));
      SitsTwo(data, at + 1, NumberBytes(n), SectionBytes(headers) + SectionBytes(body));
      SitsTwo(data, at + 9, SectionBytes(headers), SectionBytes(body));
      ReadsByte(data, at, 2);
      ReadsNumber(data, at + 1, n);
      ReadsSection(data, at + 9, headers, v);
      ReadsSection(data, at + 9 + |SectionBytes(headers)|, body, v);
  }

  lemma NumberWidth()
    ensures forall n: Number :: |NumberBytes(n)| == 8
  {
  }

  lemma PayloadSizeIsExact(p: Payload)
    ensures PayloadSize(p) == |PayloadBytes(p)|
  {
  }

  // ---------- entries ----------

  function WordPieces(words: seq<u64>): (pieces: seq<seq<byte>>)
    ensures |pieces| == |words| && forall i :: 0 <= i < |words| ==> pieces[i] == ToLe(words[i], 8)
  {
    seq(|words|, i requires 0 <= i < |words| => ToLe(words[i], 8))
  }

  /** Format, response code and, from NPC7 on, the epoch. */
  function HeadBytes(d: DiskCachedArticle, v: Version): seq<byte> {
    ToLe(v.Magic(), 4) + (ToLe(d.status, 2) + if v.HasEpoch() then ToLe(d.epoch, 8) else [])
  }

  /** The bitmap and, from NPC8 on, one time per slot. */
  function MissBytes(d: DiskCachedArticle, v: Version): seq<byte> {
    ToLe(WordOf(d.missing), 8) + if v.HasStamps() then Join(WordPieces(d.stamps)) else []
  }

  function TailBytes(d: DiskCachedArticle): seq<byte> {
    ToLe(d.timestamp, 8) + ([d.tier] + PayloadBytes(d.payload))
  }

  /** An entry in a given format; the cache writes NPC9. */
  function EntryBytes(d: DiskCachedArticle, v: Version): seq<byte> {
    HeadBytes(d, v) + (MissBytes(d, v) + TailBytes(d))
  }

  function EncodedLen(d: DiskCachedArticle): nat { FIXED_SIZE + PayloadSize(d.payload) }

  datatype Front = Front(version: Version, status: Status, epoch: u64)

  function ReadFront(data: seq<byte>, at: nat): Parsed<Front> {
    var magic := ReadU32(data, at);
    if magic.Bad? || VersionOf(magic.value).None? then Bad
    else
      var v, status := VersionOf(magic.value).value, ReadU16(data, magic.next);
      if status.Bad? || status.value !in {220, 221, 222, 223, 430} then Bad
      else if !v.HasEpoch() then Got(Front(v, status.value, 0), status.next)
      else
        var epoch := ReadU64(data, status.next);
        if epoch.Bad? then Bad else Got(Front(v, status.value, epoch.value), epoch.next)
  }

  function WordReader(data: seq<byte>): Reader<u64> { (at: nat) => ReadU64(data, at) }

  datatype Stored = Stored(missing: Mask, stamps: Option<Stamps>)

  function ReadStored(data: seq<byte>, at: nat, v: Version): Parsed<Stored> {
    var word := ReadU64(data, at);
    if word.Bad? then Bad
    else if !v.HasStamps() then Got(Stored(BitsOf(word.value, MAX_BACKENDS), None), word.next)
    else
      var stamps := ReadMany(WordReader(data), word.next, MAX_BACKENDS);
      if stamps.Bad? then Bad else Got(Stored(BitsOf(word.value, MAX_BACKENDS), Some(stamps.value)), stamps.next)
  }

  function AllStamps(t: u64): Stamps { seq(MAX_BACKENDS, _ => t) }

  function ReadRest(data: seq<byte>, at: nat, front: Front, stored: Stored): Parsed<DiskCachedArticle> {
    var timestamp := ReadU64(data, at);
    if timestamp.Bad? then Bad else
    var tier := ReadByte(data, timestamp.next);
    if tier.Bad? then Bad else
    var payload := ReadPayload(data, tier.next, front.version);
    if payload.Bad? then Bad
    else
      var stamps := if stored.stamps.Some? then stored.stamps.value else AllStamps(timestamp.value);
      Got(DiskCachedArticle(front.status, front.epoch, stored.missing, stamps, timestamp.value, tier.value,
                            payload.value),
          payload.next)
  }

  function Decode(data: seq<byte>, at: nat): Parsed<DiskCachedArticle> {
    var front := ReadFront(data, at);
    if front.Bad? then Bad else
    var stored := ReadStored(data, front.next, front.value.version);
    if stored.Bad? then Bad else ReadRest(data, stored.next, front.value, stored.value)
  }

  /** Writes an entry, field by field; a section that is too long is an error. */
  method Encode(d: DiskCachedArticle) returns (bytes: Option<seq<byte>>)
    ensures bytes == if SectionsFit(d.payload) then Some(EntryBytes(d, V9)) else None
  {
    hide ToLe, PayloadBytes, WordOf;
    var head := ToLe(0x4e50_4339, 4) + (ToLe(d.status, 2) + ToLe(d.epoch, 8));
    var times: seq<byte>, i := [], 0;
    while i < MAX_BACKENDS
      invariant 0 <= i <= MAX_BACKENDS && times == Join(WordPieces(d.stamps[..i]))
    {
      assert WordPieces(d.stamps[..i + 1]) == WordPieces(d.stamps[..i]) + [ToLe(d.stamps[i], 8)];
      JoinMore(WordPieces(d.stamps[..i]), ToLe(d.stamps[i], 8));
      times := times + ToLe(d.stamps[i], 8);
      i := i + 1;
    }
    assert d.stamps[..i] == d.stamps;
    if !SectionsFit(d.payload) {
      return None;
    }
    bytes := Some(head + ((ToLe(WordOf(d.missing), 8) + times)
                          + (ToLe(d.timestamp, 8) + ([d.tier] + PayloadBytes(d.payload)))));
  }

  /** Reads an entry in any of the four formats. */
  method DecodeEntry(data: seq<byte>, at: nat) returns (r: Parsed<DiskCachedArticle>)
    ensures r == Decode(data, at)
  {
    hide ReadU64, ReadPayload, ReadByte;
    var front := ReadFront(data, at);
    if front.Bad? {
      return Bad;
    }
    var word := ReadU64(data, front.next);
    if word.Bad? {
      return Bad;
    }
    var missing, cursor := BitsOf(word.value, MAX_BACKENDS), word.next;
    var stamps: Option<Stamps> := None;
    if front.value.version.HasStamps() {
      var times := LoadMany(WordReader(data), cursor, MAX_BACKENDS);
      if times.Bad? {
        return Bad;
      }
      stamps, cursor := Some(times.value), times.next;
    }
    r := ReadRest(data, cursor, front.value, Stored(missing, stamps));
  }

  // ---------- round trips ----------

  /** What is read back from an entry written in a given format. */
  function ReadBack(d: DiskCachedArticle, v: Version): DiskCachedArticle {
    d.(epoch := if v.HasEpoch() then d.epoch else 0,
       stamps := if v.HasStamps() then d.stamps else AllStamps(d.timestamp),
       payload := PayloadBack(d.payload, v))
  }

  lemma ReadsFront(data: seq<byte>, at: nat, d: DiskCachedArticle, v: Version)
    requires Sits(data, at, HeadBytes(d, v))
    ensures ReadFront(data, at) == Got(Front(v, d.status, if v.HasEpoch() then d.epoch else 0), at + |HeadBytes(d, v)|)
  {
    hide ReadU32, ReadU16, ReadU64, ToLe, Sits;
    var epoch := if v.HasEpoch() then ToLe(d.epoch, 8) else [];
    SitsTwo(data, at, ToLe(v.Magic(), 4), ToLe(d.status, 2) + epoch);
    SitsTwo(data, at + 4, ToLe(d.status, 2), epoch);
    ReadsU32(data, at, v.Magic());
    ReadsU16(data, at + 4, d.status);
    if v.HasEpoch() {
      ReadsU64(data, at + 6, d.epoch);
    }
  }

  lemma ReadsWords(data: seq<byte>, at: nat, words: seq<u64>)
    requires Sits(data, at, Join(WordPieces(words)))
    ensures ReadMany(WordReader(data), at, |words|) == Got(words, at + |Join(WordPieces(words))|)
  {
    hide ReadU64, ToLe, Sits, Join;
    var read, pieces, ok := WordReader(data), WordPieces(words), Fill(|words|, true);
    forall i | 0 <= i < |words|
      ensures ReadsAs(data, read, pieces[i], words[i], ok[i])
    {
      forall c: nat | Sits(data, c, pieces[i])
        ensures read(c) == Got(words[i], c + |pieces[i]|)
      {
        ReadsU64(data, c, words[i]);
      }
    }
    ReadsMany(data, read, at, pieces, words, ok);
  }

  lemma ReadsStored(data: seq<byte>, at: nat, d: DiskCachedArticle, v: Version)
    requires Sits(data, at, MissBytes(d, v))
    ensures ReadStored(data, at, v) ==
            Got(Stored(d.missing, if v.HasStamps() then Some(d.stamps) else None), at + |MissBytes(d, v)|)
  {
    hide ReadU64, ToLe, Sits, Join, ReadMany, WordPieces, WordOf, BitsOf;
    var stamps := if v.HasStamps() then Join(WordPieces(d.stamps)) else [];
    SitsTwo(data, at, ToLe(WordOf(d.missing), 8), stamps);
    BitsOfWord(d.missing);
    PowersOfTwo();
    ReadsU64(data, at, WordOf(d.missing));
    if v.HasStamps() {
      ReadsWords(data, at + 8, d.stamps);
    }
  }

  lemma ReadsRest(data: seq<byte>, at: nat, d: DiskCachedArticle, front: Front, stored: Stored)
    requires SectionsFit(d.payload) && Sits(data, at, TailBytes(d))
    ensures ReadRest(data, at, front, stored) ==
            Got(DiskCachedArticle(front.status, front.epoch, stored.missing,
                                  if stored.stamps.Some? then stored.stamps.value else AllStamps(d.timestamp),
                                  d.timestamp, d.tier, PayloadBack(d.payload, front.version)), at + |TailBytes(d)|)
  {
    hide ReadU64, ReadByte, ReadPayload, ToLe, Sits, PayloadBytes, PayloadBack, AllStamps, SectionsFit;
    SitsTwo(data, at, ToLe(d.timestamp, 8), [d.tier] + PayloadBytes(d.payload));
    SitsTwo(data, at + 8, [d.tier], PayloadBytes(d.payload));
    ReadsU64(data, at, d.timestamp);
    ReadsByte(data, at + 8, d.tier);
    ReadsPayload(data, at + 9, d.payload, front.version);
  }

  /** Decoding any encoded entry, wherever it lies and whatever follows. */
  lemma DecodeOfEncoded(data: seq<byte>, at: nat, d: DiskCachedArticle, v: Version)
    requires SectionsFit(d.payload) && Sits(data, at, EntryBytes(d, v))
    ensures Decode(data, at) == Got(ReadBack(d, v), at + |EntryBytes(d, v)|)
  {
    hide ReadFront, ReadStored, ReadRest, HeadBytes, MissBytes, TailBytes, Sits, PayloadBack, SectionsFit;
    var head, miss, tail := HeadBytes(d, v), MissBytes(d, v), TailBytes(d);
    SitsTwo(data, at, head, miss + tail);
    SitsTwo(data, at + |head|, miss, tail);
    ReadsFront(data, at, d, v);
    ReadsStored(data, at + |head|, d, v);
    ReadsRest(data, at + |head| + |miss|, d, Front(v, d.status, if v.HasEpoch() then d.epoch else 0),
              Stored(d.missing, if v.HasStamps() then Some(d.stamps) else None));
  }

  function NumberOf(p: Payload): Number {
    if p.Missing? || p.AvailabilityOnly? then None else p.number
  }

  /**
    Decoding what was encoded gives back the entry and leaves exactly what follows it; the
    entry is exactly the same unless its article number is the one that stands for none.
   */
  lemma RoundTripIff(d: DiskCachedArticle, tail: seq<byte>)
    requires SectionsFit(d.payload)
    ensures var r := Decode(EntryBytes(d, V9) + tail, 0);
            && r.Got? && (EntryBytes(d, V9) + tail)[r.next..] == tail
            && (r.value == d <==> NumberOf(d.payload) != Some(U64_MAX))
  {
    hide EntryBytes, Decode;
    SitsWhole(EntryBytes(d, V9), tail);
    DecodeOfEncoded(EntryBytes(d, V9) + tail, 0, d, V9);
  }

  /** A section that is not empty has gained the line end the older formats left out. */
  predicate Gained(back: seq<byte>, written: seq<byte>) {
    if written == [] then back == [] else back == written + [13, 10]
  }

  /** The same kind of payload with the same number, and each section with its line end. */
  predicate Completed(back: Payload, p: Payload) {
    match p
    case Missing => back.Missing?
    case AvailabilityOnly => back.AvailabilityOnly?
    case Stat(n) => back == Stat(n)
    case Head(n, headers) => back.Head? && back.number == n && Gained(back.headers, headers)
    case Body(n, body) => back.Body? && back.number == n && Gained(back.body, body)
    case Article(n, headers, body) =>
      back.Article? && back.number == n && Gained(back.headers, headers) && Gained(back.body, body)
  }

  lemma OlderCompletes(p: Payload, v: Version)
    requires v != V9 && NumberOf(p) != Some(U64_MAX)
    ensures Completed(PayloadBack(p, v), p)
  {
  }

  /**
    Under the previous format's name the same bytes give the same entry, with CR LF
    added to each section that is not empty.
   */
  lemma RelabelledAsV8(d: DiskCachedArticle, tail: seq<byte>)
    requires SectionsFit(d.payload) && NumberOf(d.payload) != Some(U64_MAX)
    ensures EntryBytes(d, V8)[4..] == EntryBytes(d, V9)[4..]
    ensures var r := Decode(EntryBytes(d, V8) + tail, 0);
            && r.Got? && r.next == |EntryBytes(d, V8)|
            && r.value == d.(payload := r.value.payload) && Completed(r.value.payload, d.payload)
  {
    hide Decode, PayloadBytes, PayloadBack, Join, WordPieces, ToLe, WordOf;
    SitsWhole(EntryBytes(d, V8), tail);
    DecodeOfEncoded(EntryBytes(d, V8) + tail, 0, d, V8);
    OlderCompletes(d.payload, V8);
  }

  /**
    The two oldest formats are the current one without the times of the misses, and the
    oldest also without the epoch. Every miss then counts as seen when the entry was
    written, and the sections gain their CR LF as well.
   */
  lemma OldestFormats(d: DiskCachedArticle, v: Version, tail: seq<byte>)
    requires v in {V6, V7} && SectionsFit(d.payload) && NumberOf(d.payload) != Some(U64_MAX)
    ensures var current, older := EntryBytes(d, V9), EntryBytes(d, v);
            && |current| >= 534
            && older[4..] == (if v == V7 then current[4..22] else current[4..6] + current[14..22]) + current[534..]
    ensures var r := Decode(EntryBytes(d, v) + tail, 0);
            && r.Got? && r.next == |EntryBytes(d, v)|
            && (forall p :: 0 <= p < MAX_BACKENDS ==> r.value.stamps[p] == d.timestamp)
            && r.value.epoch == (if v == V7 then d.epoch else 0)
            && r.value == d.(payload := r.value.payload, stamps := r.value.stamps, epoch := r.value.epoch)
            && Completed(r.value.payload, d.payload)
  {
    hide Decode, PayloadBytes, PayloadBack, Join, WordPieces, ToLe, WordOf;
    SitsWhole(EntryBytes(d, v), tail);
    DecodeOfEncoded(EntryBytes(d, v) + tail, 0, d, v);
    OlderCompletes(d.payload, v);
    WordsWidth(d.stamps);
  }

  /** An entry begins with the name of its format, NPC6 to NPC9, read from the last letter to the first. */
  lemma FormatName(d: DiskCachedArticle, v: Version)
    ensures EntryBytes(d, v)[..4] == [match v case V6 => 54 case V7 => 55 case V8 => 56 case V9 => 57, 67, 80, 78]
  {
    hide PayloadBytes, Join, WordPieces, WordOf;
    assert ToLe(v.Magic(), 4) == [v.Magic() % 256] + ToLe(v.Magic() / 256, 3);
    assert ToLe(0x4e_5043, 3) == [67, 80, 78];
  }

  /** What counts as the length of a payload is what its sections take on disk. */
  lemma LenOnDisk(p: Payload)
    ensures |PayloadBytes(p)| - Len(p) ==
            (if p.Article? then 17 else if p.Head? || p.Body? then 13 else if p.Stat? then 9 else 1)
  {
  }

  lemma {:induction false} WordsWidth(words: seq<u64>)
    ensures |Join(WordPieces(words))| == 8 * |words|
  {
    if words != [] {
      var n := |words| - 1;
      WordsWidth(words[..n]);
      assert WordPieces(words)[..n] == WordPieces(words[..n]);
    }
  }

  /** The size estimate is the number of bytes. */
  lemma EncodedLenIsExact(d: DiskCachedArticle)
    ensures EncodedLen(d) == |EntryBytes(d, V9)|
  {
    hide PayloadSize, PayloadBytes, Join, ToLe, WordPieces, WordOf;
    PayloadSizeIsExact(d.payload);
    WordsWidth(d.stamps);
  }
}
