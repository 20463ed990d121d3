/**
  What a payload cache knows about a message, independent of how it stores it: the
  reference that both caches are measured against, and what holds of it in every run.
 */
module Lookups {
  import opened Words
  import opened Ttl
  import opened Payloads

  type Key = seq<byte>

  /** When each provider slot was last seen missing the message. */
  type Misses = m: seq<Option<u64>> | |m| == MAX_BACKENDS witness NoMisses()

  function NoMisses(): (m: seq<Option<u64>>)
    ensures |m| == MAX_BACKENDS && forall p :: 0 <= p < MAX_BACKENDS ==> m[p] == None
  {
    seq(MAX_BACKENDS, _ => None)
  }

  datatype View = View(status: nat, payload: Payload, tier: Tier, insertedAt: u64, misses: Misses)

  /** A miss is forgotten one base time to live after it was seen, whatever the tier. */
  function Live(miss: Option<u64>, base: u64, now: u64): Option<u64> {
    if miss.Some? && !Expired(miss.value, base, 0, now) then miss else None
  }

  function LiveMisses(misses: Misses, base: u64, now: u64): (live: Misses)
    ensures forall p :: 0 <= p < MAX_BACKENDS ==> live[p] == Live(misses[p], base, now)
  {
    seq(MAX_BACKENDS, p requires 0 <= p < MAX_BACKENDS => Live(misses[p], base, now))
  }

  /** What is still known at `now`; this is also what a lookup returns. */
  function Fresh(v: Option<View>, base: u64, now: u64): Option<View> {
    if v.None? || Expired(v.value.insertedAt, base, v.value.tier, now) then None
    else Some(v.value.(misses := LiveMisses(v.value.misses, base, now)))
  }

  // ---------- updates ----------

  /** An update from provider slot `slot`, or a lookup. */
  datatype Op =
    | Ingest(key: Key, slot: Slot, status: nat, payload: Payload, tier: Tier, now: u64)
    | HasStatus(key: Key, slot: Slot, status: nat, tier: Tier, now: u64)
    | HasStat(key: Key, slot: Slot, tier: Tier, now: u64)
    | Miss(key: Key, slot: Slot, now: u64)
    | Get(key: Key, now: u64)

  /** Neither a section nor a STAT answer is stored. */
  predicate Bare(p: Payload) { p.Missing? || p.AvailabilityOnly? }

  /** The entry an update leaves, from what is fresh when it happens. */
  function Update(known: Option<View>, op: Op): View
    requires !op.Get?
  {
    match op
    case Ingest(_, slot, status, payload, tier, now) =>
      if known.None? then View(status, payload, tier, now, NoMisses())
      else if known.value.misses[slot].Some? then known.value
      else
        (match Merged(known.value.payload, payload)
         case Some(article) =>
           known.value.(status := 220, payload := article, tier := Max(known.value.tier, tier), insertedAt := now)
         case None =>
           if Replaces(known.value.status, known.value.payload, status, payload)
           then known.value.(status := status, payload := payload, tier := tier, insertedAt := now)
           else known.value)
    case HasStatus(_, slot, status, tier, now) =>
      if known.None? then View(status, AvailabilityOnly, tier, now, NoMisses())
      else if known.value.misses[slot].Some? then known.value
      else if Bare(known.value.payload)
      then known.value.(status := status, payload := AvailabilityOnly, tier := tier, insertedAt := now)
      else known.value.(insertedAt := now)
    case HasStat(_, slot, tier, now) =>
      if known.None? then View(223, Stat(None), tier, now, NoMisses())
      else if known.value.misses[slot].Some? then known.value
      else if Bare(known.value.payload)
      then known.value.(status := 223, payload := Stat(None), tier := tier, insertedAt := now)
      else known.value.(insertedAt := now)
    case Miss(_, slot, now) =>
      var v := if known.None? then View(430, Missing, 0, now, NoMisses()) else known.value;
      v.(misses := v.misses[slot := Some(now)])
  }

  function After(known: Option<View>, op: Op, base: u64): Option<View> {
    if op.Get? then known else Some(Update(Fresh(known, base, op.now), op))
  }

  /** What a history that starts with something known tells about one key. */
  function Continue(ops: seq<Op>, known: Option<View>, key: Key, base: u64): Option<View> {
    if ops == [] then known
    else
      var rest, op := ops[..|ops| - 1], ops[|ops| - 1];
      if op.key == key then After(Continue(rest, known, key, base), op, base) else Continue(rest, known, key, base)
  }

  /** What a history tells about one key. */
  function History(ops: seq<Op>, key: Key, base: u64): Option<View> { Continue(ops, None, key, base) }

  // ---------- freshness ----------

  /** Looking twice is looking once. */
  lemma FreshLater(v: Option<View>, base: u64, now: u64, later: u64)
    requires now <= later
    ensures Fresh(Fresh(v, base, now), base, later) == Fresh(v, base, later)
  {
    if v.Some? && !Expired(v.value.insertedAt, base, v.value.tier, now) {
      var live := LiveMisses(v.value.misses, base, now);
      assert LiveMisses(live, base, later) == LiveMisses(v.value.misses, base, later);
    }
  }

  // ---------- what holds in every run ----------

  ghost predicate InOrder(ops: seq<Op>, now: nat) {
    && (forall i :: 0 <= i < |ops| ==> ops[i].now <= now)
    && (forall i, j :: 0 <= i < j < |ops| ==> ops[i].now <= ops[j].now)
  }

  /** The history records a 430 for `key` from `slot` at `t`. */
  ghost predicate Missed(ops: seq<Op>, key: Key, slot: Slot, t: u64) { Miss(key, slot, t) in ops }

  /** Every remembered miss was recorded. */
  lemma {:induction false} MissesWereRecorded(ops: seq<Op>, key: Key, base: u64, p: Slot)
    ensures var v := History(ops, key, base);
            v.Some? && v.value.misses[p].Some? ==> Missed(ops, key, p, v.value.misses[p].value)
  {
    hide Merged, Replaces, Expired;
    if ops != [] {
      var rest := ops[..|ops| - 1];
      MissesWereRecorded(rest, key, base, p);
      assert ops == rest + [ops[|ops| - 1]];
    }
  }

  /**
    Every missing bit returned by a lookup was recorded as a 430 for exactly this key and
    slot less than one base time to live ago, whatever updates and tiers came between.
   */
  lemma ReportedMissIsRecent(ops: seq<Op>, key: Key, base: u64, p: Slot, now: u64)
    requires var v := Fresh(History(ops, key, base), base, now); v.Some? && v.value.misses[p].Some?
    ensures var t := Fresh(History(ops, key, base), base, now).value.misses[p].value;
            Missed(ops, key, p, t) && now < t + base
  {
    MissesWereRecorded(ops, key, base, p);
    BaseTier(base);
  }

  /** A positive update from a slot with a live 430 changes nothing at all. */
  lemma MissOutweighsSuccess(known: Option<View>, op: Op, base: u64)
    requires !op.Get? && !op.Miss?
    requires var v := Fresh(known, base, op.now); v.Some? && v.value.misses[op.slot].Some?
    ensures After(known, op, base) == Fresh(known, base, op.now)
  {
  }

  /** No update of an unexpired entry forgets or refreshes another slot's live miss. */
  lemma MissesSurvive(known: Option<View>, op: Op, base: u64, p: Slot)
    requires Fresh(known, base, op.now).Some? && !op.Get? && !(op.Miss? && op.slot == p)
    ensures After(known, op, base).value.misses[p] == Fresh(known, base, op.now).value.misses[p]
  {
  }

  // ---------- progress ----------

  ghost predicate WellFormed(v: View) { Fitting(v.status, v.payload) }

  ghost predicate FittingOp(op: Op) { op.Ingest? ==> Fitting(op.status, op.payload) }

  /** The one update that can lose an answer. */
  predicate Loses(v: View, op: Op) {
    op.Ingest? && v.misses[op.slot].None? && Displaces(op.payload, v.payload)
  }

  /** An update of an unexpired entry loses a request kind exactly in the one losing case. */
  lemma ProgressIff(v: View, op: Op)
    requires WellFormed(v) && FittingOp(op) && !op.Get?
    ensures WellFormed(Update(Some(v), op))
    ensures (exists kind :: Answers(v.payload, kind) && !Answers(Update(Some(v), op).payload, kind)) <==> Loses(v, op)
  {
    if op.Ingest? {
      LosesIff(v.status, v.payload, op.status, op.payload);
    }
  }

  /** The entry for `key` is found unexpired by every update of a history. */
  ghost predicate NeverStale(ops: seq<Op>, known: Option<View>, key: Key, base: u64) {
    ops == [] ||
    var rest, op := ops[..|ops| - 1], ops[|ops| - 1];
    && NeverStale(rest, known, key, base)
    && (op.key == key && !op.Get? ==> Fresh(Continue(rest, known, key, base), base, op.now).Some?)
  }

  /** While its entry does not expire, a complete article stays complete. */
  lemma {:induction false} CompleteThroughout(ops: seq<Op>, known: View, key: Key, base: u64)
    requires Complete(known.status, known.payload) && NeverStale(ops, Some(known), key, base)
    requires forall i :: 0 <= i < |ops| ==> FittingOp(ops[i])
    ensures var v := Continue(ops, Some(known), key, base); v.Some? && Complete(v.value.status, v.value.payload)
  {
    if ops != [] {
      var rest, op := ops[..|ops| - 1], ops[|ops| - 1];
      CompleteThroughout(rest, known, key, base);
      assert FittingOp(op);
    }
  }

  /** While its entry does not expire and nothing losing is ingested, every request kind stays answerable. */
  ghost predicate NothingLost(ops: seq<Op>, known: Option<View>, key: Key, base: u64) {
    ops == [] ||
    var rest, op := ops[..|ops| - 1], ops[|ops| - 1];
    && NothingLost(rest, known, key, base)
    && var v := Fresh(Continue(rest, known, key, base), base, op.now);
       (op.key == key && v.Some? ==> !Loses(v.value, op))
  }

  lemma {:induction false} AnswersGrow(ops: seq<Op>, known: View, key: Key, base: u64, kind: Kind)
    requires WellFormed(known) && NeverStale(ops, Some(known), key, base) && NothingLost(ops, Some(known), key, base)
    requires (forall i :: 0 <= i < |ops| ==> FittingOp(ops[i])) && Answers(known.payload, kind)
    ensures var v := Continue(ops, Some(known), key, base);
            v.Some? && WellFormed(v.value) && Answers(v.value.payload, kind)
  {
    if ops != [] {
      var rest, op := ops[..|ops| - 1], ops[|ops| - 1];
      AnswersGrow(rest, known, key, base, kind);
      assert FittingOp(op);
      if op.key == key && !op.Get? {
        ProgressIff(Fresh(Continue(rest, Some(known), key, base), base, op.now).value, op);
      }
    }
  }

  /** An article, a HEAD or a BODY that holds at least one byte. */
  predicate Substantial(p: Payload) { p.Article? || p.Head? || p.Body? ==> Len(p) > 0 }

  /** What is ingested for `key` holds something. */
  ghost predicate SubstantialOps(ops: seq<Op>, key: Key) {
    forall i :: 0 <= i < |ops| && ops[i].Ingest? && ops[i].key == key ==> Substantial(ops[i].payload)
  }

  lemma SubstantialAfter(known: Option<View>, op: Op, base: u64)
    requires (known.Some? ==> Substantial(known.value.payload)) && (op.Ingest? ==> Substantial(op.payload))
    ensures var v := After(known, op, base); v.Some? ==> Substantial(v.value.payload)
  {
    hide Replaces, Expired, LiveMisses;
  }

  /** Where every ingested section holds something nothing is ever lost, expired entries or not. */
  lemma {:induction false} SubstantialNeverLoses(ops: seq<Op>, known: Option<View>, key: Key, base: u64)
    requires (known.Some? ==> Substantial(known.value.payload)) && SubstantialOps(ops, key)
    ensures NothingLost(ops, known, key, base)
    ensures var v := Continue(ops, known, key, base); v.Some? ==> Substantial(v.value.payload)
  {
    hide After;
    if ops != [] {
      var rest, op := ops[..|ops| - 1], ops[|ops| - 1];
      SubstantialNeverLoses(rest, known, key, base);
      if op.key == key {
        assert op.Ingest? ==> Substantial(op.payload);
        SubstantialAfter(Continue(rest, known, key, base), op, base);
      }
    }
  }

  // ---------- stores that follow a history ----------

  function KnownIn(views: map<Key, View>, key: Key): Option<View> {
    if key in views then Some(views[key]) else None
  }

  /** What is told of a key by a history over a store that held `initial` at first. */
  function Told(initial: map<Key, View>, log: seq<Op>, key: Key, base: u64): Option<View> {
    Continue(log, KnownIn(initial, key), key, base)
  }

  /** From `clock` on the stored entries tell what the history tells. */
  ghost predicate Tracks(views: map<Key, View>, initial: map<Key, View>, log: seq<Op>, base: u64, clock: u64) {
    forall key: Key :: Fresh(KnownIn(views, key), base, clock) == Fresh(Told(initial, log, key, base), base, clock)
  }

  /** What a lookup finds in a store that follows a history. */
  lemma TracksFresh(views: map<Key, View>, initial: map<Key, View>, log: seq<Op>, base: u64, clock: u64, key: Key,
                    now: u64)
    requires Tracks(views, initial, log, base, clock) && clock <= now
    ensures Fresh(KnownIn(views, key), base, now) == Fresh(Told(initial, log, key, base), base, now)
  {
    FreshLater(KnownIn(views, key), base, clock, now);
    FreshLater(Told(initial, log, key, base), base, clock, now);
  }

  /** One operation: only its key changes, and to something as fresh as the reference makes it. */
  ghost predicate Applies(views: map<Key, View>, after: map<Key, View>, op: Op, base: u64) {
    && (forall key :: key != op.key ==> KnownIn(after, key) == KnownIn(views, key))
    && Fresh(KnownIn(after, op.key), base, op.now) == Fresh(After(KnownIn(views, op.key), op, base), base, op.now)
  }

  lemma TracksStep(views: map<Key, View>, after: map<Key, View>, initial: map<Key, View>, log: seq<Op>, op: Op,
                   base: u64, clock: u64)
    requires Tracks(views, initial, log, base, clock) && clock <= op.now && Applies(views, after, op, base)
    ensures Tracks(after, initial, log + [op], base, op.now)
  {
    hide Fresh, Update;
    assert (log + [op])[..|log|] == log;
    forall key: Key
      ensures Fresh(KnownIn(after, key), base, op.now) == Fresh(Told(initial, log + [op], key, base), base, op.now)
    {
      TracksFresh(views, initial, log, base, clock, key, op.now);
    }
  }
}
