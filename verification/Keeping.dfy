/**
  What an ingest keeps and for how long a lookup finds it, said of the reference without
  the rules that decide it.
 */
module Keeping {
  import opened Words
  import opened Ttl
  import opened Payloads
  import opened Lookups

  // ---------- what an ingest keeps ----------

  /** The stored entry with what the ingest brings in place of what it held. */
  function Taken(v: View, op: Op): View
    requires op.Ingest?
  {
    v.(status := op.status, payload := op.payload, tier := op.tier, insertedAt := op.now)
  }

  /** `incoming` answers every request `existing` answers, and one more. */
  ghost predicate AnswersMore(incoming: Payload, existing: Payload) {
    && (forall kind :: Answers(existing, kind) ==> Answers(incoming, kind))
    && (exists kind :: Answers(incoming, kind) && !Answers(existing, kind))
  }

  /** One is a HEAD and the other a BODY. */
  predicate Complementary(left: Payload, right: Payload) {
    (left.Head? && right.Body?) || (left.Body? && right.Head?)
  }

  /** An article that can be served: stored under code 220, with at least one byte. */
  predicate Servable(status: nat, p: Payload) { status == 220 && p.Article? && Len(p) > 0 }

  /**
    Sections that do not complement each other, neither side a servable article: what is
    kept is one of the two and never shorter than either. At equal length the new one
    is taken exactly when it answers strictly more.
   */
  lemma LongerIsKept(v: View, op: Op)
    requires op.Ingest? && v.misses[op.slot].None? && !Complementary(v.payload, op.payload)
    requires !Servable(v.status, v.payload) && !Servable(op.status, op.payload)
    ensures Len(op.payload) > Len(v.payload) ==> Update(Some(v), op) == Taken(v, op)
    ensures Len(op.payload) < Len(v.payload) ==> Update(Some(v), op) == v
    ensures Len(op.payload) == Len(v.payload) ==>
              Update(Some(v), op) == if AnswersMore(op.payload, v.payload) then Taken(v, op) else v
  {
    KindsCompare(op.payload, v.payload, StatKind);
  }

  /** A nonempty HEAD or BODY takes the place of an entry that holds no section. */
  lemma SectionReplacesNone(v: View, op: Op)
    requires op.Ingest? && v.misses[op.slot].None? && (op.payload.Head? || op.payload.Body?) && Len(op.payload) > 0
    requires v.payload.Missing? || v.payload.AvailabilityOnly? || v.payload.Stat?
    ensures Update(Some(v), op) == Taken(v, op)
  {
    LongerIsKept(v, op);
  }

  /** A servable article takes the place of anything else; among servable ones the longer is kept. */
  lemma CompleteIsKept(v: View, op: Op)
    requires op.Ingest? && v.misses[op.slot].None? && (Servable(v.status, v.payload) || Servable(op.status, op.payload))
    ensures !Servable(v.status, v.payload) ==> Update(Some(v), op) == Taken(v, op)
    ensures !Servable(op.status, op.payload) ==> Update(Some(v), op) == v
    ensures Servable(v.status, v.payload) && Servable(op.status, op.payload) ==>
              Update(Some(v), op) == if Len(op.payload) > Len(v.payload) then Taken(v, op) else v
  {
  }

  /** Complementary sections make one article that lives as long as the longer-lived of the two. */
  lemma SectionsCombine(v: View, op: Op)
    requires op.Ingest? && v.misses[op.slot].None? && Complementary(v.payload, op.payload)
    ensures var u := Update(Some(v), op);
            && u.status == 220 && u.payload.Article? && u.insertedAt == op.now && u.misses == v.misses
            && v.tier <= u.tier && op.tier <= u.tier && (u.tier == v.tier || u.tier == op.tier)
            && u.payload.headers == (if v.payload.Head? then v.payload.headers else op.payload.headers)
            && u.payload.body == (if v.payload.Body? then v.payload.body else op.payload.body)
            && (forall n :: u.payload.number == Some(n) <==>
                  && (v.payload.number == Some(n) || op.payload.number == Some(n))
                  && v.payload.number in [None, Some(n)] && op.payload.number in [None, Some(n)])
  {
  }

  /** An ingest refuses an answer of the new payload exactly when that is an empty article met by a nonempty section. */
  lemma NewAnswersIff(v: View, op: Op)
    requires op.Ingest? && v.misses[op.slot].None? && WellFormed(v) && FittingOp(op)
    ensures (exists kind :: Answers(op.payload, kind) && !Answers(Update(Some(v), op).payload, kind)) <==>
            && op.payload.Article? && op.payload.headers == [] && op.payload.body == []
            && (v.payload.Head? || v.payload.Body?) && Len(v.payload) > 0
  {
    RefusesIff(v.status, v.payload, op.status, op.payload);
  }

  // ---------- over a run ----------

  /** Servable before not servable, then longer before shorter. */
  predicate AtLeast(v: View, status: nat, p: Payload) {
    && (Servable(status, p) ==> Servable(v.status, v.payload))
    && (Servable(status, p) == Servable(v.status, v.payload) ==> Len(p) <= Len(v.payload))
  }

  lemma UpdateKeepsRank(v: View, op: Op)
    requires !op.Get?
    ensures AtLeast(Update(Some(v), op), v.status, v.payload)
    ensures op.Ingest? && v.misses[op.slot].None? ==> AtLeast(Update(Some(v), op), op.status, op.payload)
  {
  }

  /** While its entry does not expire, what is kept never gets worse. */
  lemma {:induction false} RankStays(ops: seq<Op>, known: View, key: Key, base: u64)
    requires NeverStale(ops, Some(known), key, base)
    ensures var v := Continue(ops, Some(known), key, base); v.Some? && AtLeast(v.value, known.status, known.payload)
  {
    hide Update, Servable, Len;
    if ops != [] {
      var rest, op := ops[..|ops| - 1], ops[|ops| - 1];
      RankStays(rest, known, key, base);
      if op.key == key && !op.Get? {
        UpdateKeepsRank(Fresh(Continue(rest, Some(known), key, base), base, op.now).value, op);
      }
    }
  }

  /**
    Whatever was ingested from a provider without a live 430: while the entry does not
    expire, what a later lookup finds is at least as good.
   */
  lemma BestIsKept(known: Option<View>, op: Op, ops: seq<Op>, base: u64)
    requires op.Ingest? && (Fresh(known, base, op.now).Some? ==> Fresh(known, base, op.now).value.misses[op.slot].None?)
    requires NeverStale(ops, After(known, op, base), op.key, base)
    ensures var v := Continue(ops, After(known, op, base), op.key, base);
            v.Some? && AtLeast(v.value, op.status, op.payload)
  {
    if Fresh(known, base, op.now).Some? {
      UpdateKeepsRank(Fresh(known, base, op.now).value, op);
    }
    RankStays(ops, After(known, op, base).value, op.key, base);
  }

  // ---------- for how long it is found ----------

  /** Nothing but lookups of `key`. */
  ghost predicate Untouched(ops: seq<Op>, key: Key) {
    forall i :: 0 <= i < |ops| && ops[i].key == key ==> ops[i].Get?
  }

  lemma {:induction false} UntouchedStays(ops: seq<Op>, known: Option<View>, key: Key, base: u64)
    requires Untouched(ops, key)
    ensures Continue(ops, known, key, base) == known
  {
    if ops != [] {
      UntouchedStays(ops[..|ops| - 1], known, key, base);
    }
  }

  /** An age, as far as the clock has moved on. */
  function Age(stored: u64, now: u64): nat { if now < stored then 0 else now - stored }

  /**
    An entry last stored at t under tier k is found at `now` exactly when its age is below
    the base time to live doubled min(k, 63) times, or below the largest word if that is less.
   */
  lemma FoundIff(known: View, ops: seq<Op>, key: Key, base: u64, now: u64)
    requires Untouched(ops, key)
    ensures Fresh(Continue(ops, Some(known), key, base), base, now).Some? <==>
              Age(known.insertedAt, now) < Min(U64_MAX, Doubled(base, Min(known.tier, 63)))
  {
    UntouchedStays(ops, Some(known), key, base);
    TierDoubles(base, known.tier);
  }

  /** The same from the ingest of a message that is not known, and of one that replaces what is stored. */
  lemma IngestFoundIff(known: Option<View>, op: Op, ops: seq<Op>, base: u64, now: u64)
    requires op.Ingest? && Untouched(ops, op.key)
    requires var v := Fresh(known, base, op.now); v.None? || After(known, op, base) == Some(Taken(v.value, op))
    ensures Fresh(Continue(ops, After(known, op, base), op.key, base), base, now).Some? <==>
              Age(op.now, now) < Min(U64_MAX, Doubled(base, Min(op.tier, 63)))
  {
    FoundIff(After(known, op, base).value, ops, op.key, base, now);
  }

  /** A status or STAT success renews an entry, and its tier only where no section and no STAT answer is held. */
  lemma SuccessRenews(v: View, op: Op)
    requires (op.HasStatus? || op.HasStat?) && v.misses[op.slot].None?
    ensures var u := Update(Some(v), op);
            && u.insertedAt == op.now && u.misses == v.misses
            && (Len(v.payload) > 0 || v.payload.Article? || v.payload.Head? || v.payload.Body? || v.payload.Stat? ==>
                  u == v.(insertedAt := op.now))
            && (v.payload.Missing? || v.payload.AvailabilityOnly? ==>
                  && u.tier == op.tier
                  && u.payload == (if op.HasStat? then Stat(None) else AvailabilityOnly)
                  && u.status == (if op.HasStat? then 223 else op.status))
  {
  }
}
