/**
  The memory cache and the hybrid cache give the same answers.
 */
module CachesAgree {
  import opened Words
  import opened Lookups
  import MemoryCache
  import HybridCache

  /** The entry of the hybrid cache as the rest of the proxy sees it: slots with their times, in slot order. */
  method IntoCachedArticle(d: HybridCache.DiskCachedArticle) returns (e: MemoryCache.CachedArticle)
    ensures MemoryCache.Matched(e) && MemoryCache.ViewOf(e) == HybridCache.ViewOf(d, d.epoch)
  {
    var negatives: seq<MemoryCache.Negative>, i := [], 0;
    while i < MAX_BACKENDS
      invariant 0 <= i <= MAX_BACKENDS && MemoryCache.OneTimeEach(negatives)
      invariant forall j :: 0 <= j < |negatives| ==> negatives[j].slot < i
      invariant forall p: Slot ::
                  MemoryCache.TimeOf(negatives, p) == if p < i && Has(d.missing, p) then Some(d.stamps[p]) else None
    {
      if d.missing[i] {
        var n := MemoryCache.Negative(i, d.stamps[i]);
        forall p: Slot
          ensures MemoryCache.TimeOf(negatives + [n], p) ==
                  if p < i + 1 && Has(d.missing, p) then Some(d.stamps[p]) else None
        {
          MemoryCache.TimeOfAppended(negatives, n, p);
        }
        negatives := negatives + [n];
      }
      i := i + 1;
    }
    e := MemoryCache.CachedArticle(d.missing, negatives, d.status, d.payload, d.tier, d.timestamp);
    assert MemoryCache.MissesOf(d.missing, negatives) == HybridCache.MissesOf(d.missing, d.stamps);
  }

  /**
    For every sequence of ingests, statuses, STATs, misses and lookups with response codes
    220 to 223 and 430 and one clock, every lookup in the memory cache and in the hybrid
    cache returns the same status, payload, tier, timestamp, missing slots and miss times.
   */
  method SideBySide(ops: seq<Op>, base: u64, epoch: u64) returns (memory: seq<Option<View>>, hybrid: seq<Option<View>>)
    requires InOrder(ops, U64_MAX) && forall i :: 0 <= i < |ops| ==> HybridCache.Storable(ops[i])
    ensures memory == hybrid
    ensures |memory| == |ops|
    ensures forall i :: 0 <= i < |ops| ==>
              memory[i] == if ops[i].Get? then Fresh(History(ops[..i], ops[i].key, base), base, ops[i].now) else None
  {
    hide Fresh, Continue, Tracks, MemoryCache.Matched;
    var m := new MemoryCache.ArticleCache(base);
    var h := new HybridCache.HybridArticleCache(base, epoch);
    memory, hybrid := [], [];
    var i := 0;
    while i < |ops|
      invariant 0 <= i <= |ops| && m.Valid() && h.Valid() && m.base == h.base == base
      invariant m.log == h.log == ops[..i] && h.initial == map[]
                && m.clock == h.clock == if i == 0 then 0 else ops[i - 1].now
      invariant memory == hybrid && |memory| == i
      invariant forall j :: 0 <= j < i ==>
                  memory[j] == if ops[j].Get? then Fresh(History(ops[..j], ops[j].key, base), base, ops[j].now)
                  else None
    {
      var op := ops[i];
      var a, b := Step(m, h, op);
      memory, hybrid := memory + [a], hybrid + [b];
      assert ops[..i + 1] == ops[..i] + [op];
      i := i + 1;
    }
  }

  /** One operation on both caches. */
  method Step(m: MemoryCache.ArticleCache, h: HybridCache.HybridArticleCache, op: Op) returns (a: Option<View>,
              b: Option<View>)
    requires m.Valid() && h.Valid() && m.base == h.base && m.log == h.log && h.initial == map[]
             && m.clock == h.clock <= op.now
    requires HybridCache.Storable(op)
    modifies m, h
    ensures m.Valid() && h.Valid() && m.log == h.log == old(m.log) + [op] && m.clock == h.clock == op.now
    ensures a == b == if op.Get? then Fresh(History(old(m.log), op.key, m.base), m.base, op.now) else None
  {
    a, b := None, None;
    match op {
      case Ingest(_, _, _, _, _, _) =>
        m.Ingest(op);
        h.Ingest(op);
      case HasStatus(_, _, _, _, _) =>
        m.RecordHasStatus(op);
        h.RecordHasStatus(op);
      case HasStat(_, _, _, _) =>
        m.RecordStat(op);
        h.RecordStat(op);
      case Miss(_, _, _) =>
        m.RecordMiss(op);
        h.RecordMiss(op);
      case Get(key, now) =>
        a := m.Get(key, now);
        b := h.Get(key, now);
    }
  }
}
