/**
  The publication latch under every interleaving, from any index that holds nothing while
  its latch is not set: the order in which operations take effect is that of an index
  without latch, and it respects real time.
 */
module Latch {
  import opened Words
  import opened Blocks
  import opened Rotation
  import opened Index
  import opened LatchSteps

  // ---------- the atomic index ----------

  function OpsOf(order: seq<Effect>): (ops: seq<Op>)
    ensures |ops| == |order| && forall i :: 0 <= i < |order| ==> ops[i] == order[i].op
  {
    seq(|order|, i requires 0 <= i < |order| => order[i].op)
  }

  /** An index without latch: one that always looks. */
  function Atomic(h: Hasher, start: Index, order: seq<Effect>): (idx: Index)
    requires Startable(start)
    ensures Fit(idx) && idx.geo == start.geo
  {
    RunIndex(h, start.(populated := true), OpsOf(order))
  }

  /** Every lookup answered what the atomic index answers at its place in the order. */
  ghost predicate Conforms(h: Hasher, start: Index, order: seq<Effect>)
    requires Startable(start)
  {
    forall i :: 0 <= i < |order| && order[i].op.Lookup? ==>
      order[i].answer == AnswerIndex(h, Atomic(h, start, order[..i]), order[i].op.key, order[i].op.now)
  }

  lemma AtomicMore(h: Hasher, start: Index, order: seq<Effect>, e: Effect)
    requires Startable(start)
    ensures Atomic(h, start, order + [e]) == ApplyIndex(h, Atomic(h, start, order), e.op)
  {
    hide ApplyIndex, Empty;
    assert OpsOf(order + [e])[..|order|] == OpsOf(order);
  }

  lemma ConformsMore(h: Hasher, start: Index, order: seq<Effect>, e: Effect)
    requires Startable(start) && Conforms(h, start, order)
    requires e.op.Lookup? ==> e.answer == AnswerIndex(h, Atomic(h, start, order), e.op.key, e.op.now)
    ensures Conforms(h, start, order + [e])
  {
    hide Atomic, AnswerIndex;
    var more := order + [e];
    forall i | 0 <= i < |more| && more[i].op.Lookup?
      ensures more[i].answer == AnswerIndex(h, Atomic(h, start, more[..i]), more[i].op.key, more[i].op.now)
    {
      assert more[..i] == if i < |order| then order[..i] else order;
    }
  }

  // ---------- the invariant ----------

  ghost predicate OnlyNotes(effects: seq<Effect>) { forall i :: 0 <= i < |effects| ==> effects[i].op.Note? }

  ghost predicate Linked(h: Hasher, start: Index, sys: Machine)
    requires Startable(start)
  {
    && Fit(sys.index) && sys.index.geo == start.geo && Conforms(h, start, sys.order) && OnlyNotes(sys.waiting)
    && Atomic(h, start, sys.order + sys.waiting).shards == sys.index.shards
    && (sys.index.populated ==> sys.waiting == [])
    && (!sys.index.populated ==> Atomic(h, start, sys.order).shards == Empty(start.geo).shards)
  }

  /** Insertions do not look at the latch. */
  lemma NoteIgnoresLatch(h: Hasher, x: Index, y: Index, op: Op)
    requires Fit(x) && Fit(y) && x.geo == y.geo && x.shards == y.shards && op.Note?
    ensures ApplyIndex(h, x, op).shards == ApplyIndex(h, y, op).shards
  {
    forall s | 0 <= s < x.geo.shards
      ensures ApplyIndex(h, x, op).shards[s] == ApplyIndex(h, y, op).shards[s]
    {
      StepOfShard(h, x, op, s);
      StepOfShard(h, y, op, s);
    }
  }

  lemma {:induction false} AtomicLooks(h: Hasher, start: Index, order: seq<Effect>)
    requires Startable(start)
    ensures Atomic(h, start, order).populated
  {
    if order != [] {
      var n := |order| - 1;
      AtomicLooks(h, start, order[..n]);
      AtomicMore(h, start, order[..n], order[n]);
      assert order == order[..n] + [order[n]];
    }
  }

  /** Looking into an empty index finds nothing and changes nothing. */
  lemma EmptyLookup(h: Hasher, idx: Index, key: Key, now: u64)
    requires Fit(idx) && idx.shards == Empty(idx.geo).shards
    ensures AnswerIndex(h, idx, key, now) == NO_SLOTS && ApplyIndex(h, idx, Lookup(key, now)).shards == idx.shards
  {
    forall s | 0 <= s < idx.geo.shards
      ensures ApplyIndex(h, idx, Lookup(key, now)).shards[s] == idx.shards[s]
    {
      StepOfShard(h, idx, Lookup(key, now), s);
      FreshIsStill(ShardShape(idx.geo, s), now);
    }
    var s := ShardOf(idx.geo, h(key).hash);
    RoutesIn(idx.geo, h, s);
    FreshAnswers(ShardShape(idx.geo, s), RouteIn(idx.geo, h, s)(key), key, now);
  }

  lemma {:induction false} SameFuture(h: Hasher, start: Index, a: seq<Effect>, b: seq<Effect>, more: seq<Effect>)
    requires Startable(start) && Atomic(h, start, a) == Atomic(h, start, b)
    ensures Atomic(h, start, a + more) == Atomic(h, start, b + more)
  {
    hide Atomic, ApplyIndex;
    if more == [] {
      assert a + more == a && b + more == b;
    } else {
      var n := |more| - 1;
      SameFuture(h, start, a, b, more[..n]);
      AtomicMore(h, start, a + more[..n], more[n]);
      AtomicMore(h, start, b + more[..n], more[n]);
      assert a + more[..n] + [more[n]] == a + more && b + more[..n] + [more[n]] == b + more;
    }
  }

  lemma {:induction false} ConformsNotes(h: Hasher, start: Index, order: seq<Effect>, notes: seq<Effect>)
    requires Startable(start) && Conforms(h, start, order) && OnlyNotes(notes)
    ensures Conforms(h, start, order + notes)
  {
    hide Conforms;
    if notes == [] {
      assert order + notes == order;
    } else {
      var n := |notes| - 1;
      ConformsNotes(h, start, order, notes[..n]);
      ConformsMore(h, start, order + notes[..n], notes[n]);
      assert order + notes[..n] + [notes[n]] == order + notes;
    }
  }

  // ---------- every step keeps it ----------

  lemma RecordLinked(h: Hasher, start: Index, sys: Machine, id: nat, now: u64)
    requires Startable(start) && Linked(h, start, sys) && InPhase(sys, Record(id, now))
    ensures Linked(h, start, Step(h, sys, Record(id, now)))
  {
    hide Atomic, ApplyIndex, Conforms, Empty;
    var op := Note(sys.phases[id].key, sys.phases[id].bits, now);
    var e, all := Effect(id, op, NO_SLOTS), sys.order + sys.waiting;
    NoteIgnoresLatch(h, Atomic(h, start, all), sys.index, op);
    AtomicMore(h, start, all, e);
    if sys.index.populated {
      assert all == sys.order && sys.order + [e] + [] == all + [e];
      ConformsMore(h, start, sys.order, e);
    } else {
      assert sys.order + (sys.waiting + [e]) == all + [e];
    }
  }

  lemma LatchLinked(h: Hasher, start: Index, sys: Machine, id: nat)
    requires Startable(start) && Linked(h, start, sys) && InPhase(sys, SetLatch(id))
    ensures Linked(h, start, Step(h, sys, SetLatch(id)))
  {
    hide Atomic, Conforms, Empty;
    ConformsNotes(h, start, sys.order, sys.waiting);
    assert sys.order + sys.waiting + [] == sys.order + sys.waiting;
  }

  lemma ReadLinked(h: Hasher, start: Index, sys: Machine, id: nat)
    requires Startable(start) && Linked(h, start, sys) && InPhase(sys, ReadLatch(id))
    ensures Linked(h, start, Step(h, sys, ReadLatch(id)))
  {
    hide Atomic, Conforms, ApplyIndex, AnswerIndex, Empty;
    if !sys.index.populated {
      var key := sys.phases[id].key;
      var e, before := Effect(id, Lookup(key, 0), NO_SLOTS), Atomic(h, start, sys.order);
      EmptyLookup(h, before, key, 0);
      ConformsMore(h, start, sys.order, e);
      AtomicMore(h, start, sys.order, e);
      AtomicLooks(h, start, sys.order);
      AtomicLooks(h, start, sys.order + [e]);
      SameFuture(h, start, sys.order, sys.order + [e], sys.waiting);
    }
  }

  lemma LookupLinked(h: Hasher, start: Index, sys: Machine, id: nat, now: u64)
    requires Startable(start) && Linked(h, start, sys) && InPhase(sys, LockedLookup(id, now)) && sys.index.populated
    ensures Linked(h, start, Step(h, sys, LockedLookup(id, now)))
  {
    hide Atomic, Conforms, ApplyIndex, AnswerIndex, Empty;
    var key := sys.phases[id].key;
    var e := Effect(id, Lookup(key, now), AnswerIndex(h, sys.index, key, now));
    assert sys.order + sys.waiting == sys.order;
    AtomicLooks(h, start, sys.order);
    assert Atomic(h, start, sys.order) == sys.index;
    ConformsMore(h, start, sys.order, e);
    AtomicMore(h, start, sys.order, e);
    AtomicLooks(h, start, sys.order + [e]);
    assert sys.order + [e] + [] == sys.order + [e];
  }

  // ---------- who has taken effect ----------

  ghost predicate In(effects: seq<Effect>, id: nat) { exists i :: 0 <= i < |effects| && effects[i].id == id }

  ghost predicate OnceEach(effects: seq<Effect>) {
    forall i, j :: 0 <= i < j < |effects| ==> effects[i].id != effects[j].id
  }

  predicate Finished(p: Phase) { p.Settled? || p.Returned? }

  predicate Effective(p: Phase) { p.Published? || p.Answered? || Finished(p) }

  /** The effect is that of an operation in this phase: what it did and what it answers. */
  predicate Matches(p: Phase, e: Effect) {
    match p
    case Recorded(op) => op.Note? && e.op == op
    case Published(op) => op.Note? && e.op == op
    case Settled(op) => op.Note? && e.op == op
    case Answered(op, answer) => op.Lookup? && e.op == op && e.answer == answer
    case Returned(op, answer) => op.Lookup? && e.op == op && e.answer == answer
    case _ => false
  }

  ghost predicate AllMatch(phases: map<nat, Phase>, effects: seq<Effect>) {
    forall i :: 0 <= i < |effects| ==> effects[i].id in phases && Matches(phases[effects[i].id], effects[i])
  }

  ghost predicate Booked(sys: Machine) {
    && OnceEach(sys.order + sys.waiting) && AllMatch(sys.phases, sys.order) && AllMatch(sys.phases, sys.waiting)
    && (forall id :: id in sys.phases && Effective(sys.phases[id]) ==> In(sys.order, id))
    && (forall id :: id in sys.phases && sys.phases[id].Recorded? ==> In(sys.order, id) || In(sys.waiting, id))
    && (forall id :: id in sys.phases && (sys.phases[id].Published? || sys.phases[id].Locking?) ==> sys.index.populated)
  }

  lemma InConcat(a: seq<Effect>, b: seq<Effect>, id: nat)
    ensures In(a + b, id) <==> In(a, id) || In(b, id)
  {
    if In(a, id) {
      var i :| 0 <= i < |a| && a[i].id == id;
      assert (a + b)[i].id == id;
    }
    if In(b, id) {
      var i :| 0 <= i < |b| && b[i].id == id;
      assert (a + b)[|a| + i].id == id;
    }
  }

  lemma OnceMore(effects: seq<Effect>, e: Effect)
    requires OnceEach(effects) && !In(effects, e.id)
    ensures OnceEach(effects + [e])
  {
  }

  /** Appending a new effect to one of the two lists. */
  lemma BookOne(order: seq<Effect>, waiting: seq<Effect>, e: Effect)
    requires OnceEach(order + waiting) && !In(order, e.id) && !In(waiting, e.id)
    ensures OnceEach(order + [e] + waiting) && OnceEach(order + (waiting + [e]))
    ensures forall id :: In(order + [e], id) <==> In(order, id) || id == e.id
    ensures forall id :: In(waiting + [e], id) <==> In(waiting, id) || id == e.id
  {
    InConcat(order, waiting, e.id);
    OnceMore(order + waiting, e);
    assert order + (waiting + [e]) == order + waiting + [e];
    assert In([e], e.id) by { assert [e][0].id == e.id; }
    forall id
      ensures In(order + [e], id) <==> In(order, id) || id == e.id
      ensures In(waiting + [e], id) <==> In(waiting, id) || id == e.id
    {
      InConcat(order, [e], id);
      InConcat(waiting, [e], id);
    }
    Inserted(order, waiting, e);
  }

  lemma Inserted(order: seq<Effect>, waiting: seq<Effect>, e: Effect)
    requires OnceEach(order + waiting) && !In(order, e.id) && !In(waiting, e.id)
    ensures OnceEach(order + [e] + waiting)
  {
    var all, was := order + [e] + waiting, order + waiting;
    forall i, j | 0 <= i < j < |all|
      ensures all[i].id != all[j].id
    {
      var i', j' := if i <= |order| then i else i - 1, if j <= |order| then j else j - 1;
      if i != |order| && j != |order| {
        assert all[i] == was[i'] && all[j] == was[j'];
      } else if i == |order| {
        assert all[j] == waiting[j - |order| - 1];
      } else {
        assert all[i] == order[i];
      }
    }
  }

  lemma LatchStays(h: Hasher, idx: Index, op: Op)
    requires Fit(idx)
    ensures idx.populated ==> ApplyIndex(h, idx, op).populated
  {
  }

  /** An operation that moves on without losing what it did. */
  lemma MoveOn(phases: map<nat, Phase>, effects: seq<Effect>, id: nat, p: Phase)
    requires AllMatch(phases, effects)
    requires id in phases ==> forall e :: Matches(phases[id], e) ==> Matches(p, e)
    ensures AllMatch(phases[id := p], effects)
  {
    hide Matches;
  }

  lemma NotYet(phases: map<nat, Phase>, effects: seq<Effect>, id: nat)
    requires AllMatch(phases, effects)
    requires id in phases ==> phases[id].Inserting? || phases[id].Looking? || phases[id].Locking?
    ensures !In(effects, id)
  {
  }

  lemma MatchMore(phases: map<nat, Phase>, effects: seq<Effect>, e: Effect)
    requires AllMatch(phases, effects) && e.id in phases && Matches(phases[e.id], e)
    ensures AllMatch(phases, effects + [e])
  {
  }

  /** What the step does to the phase of its own operation. */
  lemma StepMatches(h: Hasher, sys: Machine, e: Event)
    requires Fit(sys.index) && AllMatch(sys.phases, sys.order) && AllMatch(sys.phases, sys.waiting)
    ensures var sys' := Step(h, sys, e); AllMatch(sys'.phases, sys'.order) && AllMatch(sys'.phases, sys'.waiting)
  {
    hide ApplyIndex, AnswerIndex, AllMatch;
    if InPhase(sys, e) {
      var sys' := Step(h, sys, e);
      assert sys'.phases == sys.phases[e.id := sys'.phases[e.id]];
      MoveOn(sys.phases, sys.order, e.id, sys'.phases[e.id]);
      MoveOn(sys.phases, sys.waiting, e.id, sys'.phases[e.id]);
      match e
      case Record(id, now) =>
        var effect := Effect(id, Note(sys.phases[id].key, sys.phases[id].bits, now), NO_SLOTS);
        MatchMore(sys'.phases, sys.order, effect);
        MatchMore(sys'.phases, sys.waiting, effect);
      case SetLatch(_) => MatchBoth(sys'.phases, sys.order, sys.waiting);
      case ReadLatch(id) =>
        if !sys.index.populated {
          MatchMore(sys'.phases, sys.order, Effect(id, Lookup(sys.phases[id].key, 0), NO_SLOTS));
        }
      case LockedLookup(id, now) =>
        var key := sys.phases[id].key;
        MatchMore(sys'.phases, sys.order, Effect(id, Lookup(key, now), AnswerIndex(h, sys.index, key, now)));
      case _ =>
    }
  }

  lemma MatchBoth(phases: map<nat, Phase>, a: seq<Effect>, b: seq<Effect>)
    requires AllMatch(phases, a) && AllMatch(phases, b)
    ensures AllMatch(phases, a + b) && AllMatch(phases, [])
  {
  }

  lemma StepBooked(h: Hasher, sys: Machine, e: Event)
    requires Fit(sys.index) && Booked(sys)
    ensures Booked(Step(h, sys, e))
  {
    hide ApplyIndex, AnswerIndex, OnceEach, In, AllMatch, Matches;
    StepMatches(h, sys, e);
    if InPhase(sys, e) {
      if e.Record? || e.ReadLatch? || e.LockedLookup? {
        NotYet(sys.phases, sys.order, e.id);
        NotYet(sys.phases, sys.waiting, e.id);
      }
      match e
      case Record(id, now) =>
        BookOne(sys.order, sys.waiting, Effect(id, Note(sys.phases[id].key, sys.phases[id].bits, now), NO_SLOTS));
      case SetLatch(_) =>
        assert sys.order + sys.waiting + [] == sys.order + sys.waiting;
        NoneIn();
        forall id
          ensures In(sys.order + sys.waiting, id) <==> In(sys.order, id) || In(sys.waiting, id)
        {
          InConcat(sys.order, sys.waiting, id);
        }
      case ReadLatch(id) =>
        BookOne(sys.order, sys.waiting, Effect(id, Lookup(sys.phases[id].key, 0), NO_SLOTS));
      case LockedLookup(id, now) =>
        LatchStays(h, sys.index, Lookup(sys.phases[id].key, now));
        var key := sys.phases[id].key;
        BookOne(sys.order, sys.waiting, Effect(id, Lookup(key, now), AnswerIndex(h, sys.index, key, now)));
      case _ =>
    }
  }

  lemma NoneIn()
    ensures forall id :: !In([], id)
  {
  }

  // ---------- theorems ----------

  lemma StepLinked(h: Hasher, start: Index, sys: Machine, e: Event)
    requires Startable(start) && Linked(h, start, sys) && Booked(sys)
    ensures Linked(h, start, Step(h, sys, e))
  {
    hide Atomic, Conforms, ApplyIndex, AnswerIndex, Empty;
    if InPhase(sys, e) {
      match e
      case Record(id, now) => RecordLinked(h, start, sys, id, now);
      case SetLatch(id) => LatchLinked(h, start, sys, id);
      case ReadLatch(id) => ReadLinked(h, start, sys, id);
      case LockedLookup(id, now) => LookupLinked(h, start, sys, id, now);
      case _ =>
    }
  }

  lemma StartLinked(h: Hasher, start: Index)
    requires Startable(start)
    ensures Linked(h, start, Machine(start, map[], [], [])) && Booked(Machine(start, map[], [], []))
  {
    var none: seq<Effect> := [];
    assert OpsOf(none) == [] && none + none == none;
    NoneIn();
  }

  /**
    Every history of insertions and lookups is linearizable to an index without latch: the
    operations that have taken effect are in one order, each once and as the operation that
    it is, every finished operation is among them, and every lookup of the order answered
    what the atomic index answers at its place.
   */
  lemma {:induction false} Linearizable(h: Hasher, start: Index, events: seq<Event>)
    requires Startable(start)
    ensures var sys := Trace(h, start, events); Linked(h, start, sys) && Booked(sys)
  {
    hide Linked, Booked, Step;
    if events == [] {
      StartLinked(h, start);
    } else {
      var before := Trace(h, start, events[..|events| - 1]);
      Linearizable(h, start, events[..|events| - 1]);
      StepLinked(h, start, before, events[|events| - 1]);
      StepBooked(h, before, events[|events| - 1]);
    }
  }

  lemma StepGrows(h: Hasher, sys: Machine, e: Event)
    requires Fit(sys.index)
    ensures sys.order <= Step(h, sys, e).order && (sys.index.populated ==> Step(h, sys, e).index.populated)
  {
    hide ApplyIndex, AnswerIndex;
    if InPhase(sys, e) && e.LockedLookup? {
      LatchStays(h, sys.index, Lookup(sys.phases[e.id].key, e.now));
    }
  }

  /** The order only grows at its end. */
  lemma {:induction false} OrderGrows(h: Hasher, start: Index, events: seq<Event>, i: nat)
    requires Startable(start) && i <= |events|
    ensures Trace(h, start, events[..i]).order <= Trace(h, start, events).order
    ensures Trace(h, start, events[..i]).index.populated ==> Trace(h, start, events).index.populated
    decreases |events|
  {
    hide Step;
    if i == |events| {
      assert events[..i] == events;
    } else {
      var rest := events[..|events| - 1];
      OrderGrows(h, start, rest, i);
      assert rest[..i] == events[..i];
      StepGrows(h, Trace(h, start, rest), events[|events| - 1]);
    }
  }

  lemma NotBefore(early: seq<Effect>, all: seq<Effect>, id: nat, q: nat)
    requires early <= all && !In(early, id) && q < |all| && all[q].id == id
    ensures q >= |early|
  {
    assert forall k :: 0 <= k < |early| ==> early[k].id != id && all[k] == early[k];
  }

  /** The order respects real time: what had finished before something started comes before it. */
  lemma RealTime(h: Hasher, start: Index, events: seq<Event>, i: nat, a: nat, b: nat, p: nat, q: nat)
    requires Startable(start) && i <= |events|
    ensures Before(Trace(h, start, events[..i]), Trace(h, start, events).order, a, b, p, q) ==> p < q
  {
    hide Trace, Linked;
    if Before(Trace(h, start, events[..i]), Trace(h, start, events).order, a, b, p, q) {
      InOrder(h, start, events, i, a, b, p, q);
    }
  }

  /** `a` had finished and `b` had not started; `p` and `q` are their places in the order. */
  ghost predicate Before(early: Machine, order: seq<Effect>, a: nat, b: nat, p: nat, q: nat) {
    && a in early.phases && Finished(early.phases[a]) && b !in early.phases
    && p < |order| && q < |order| && order[p].id == a && order[q].id == b
  }

  lemma InOrder(h: Hasher, start: Index, events: seq<Event>, i: nat, a: nat, b: nat, p: nat, q: nat)
    requires Startable(start) && i <= |events|
    requires Before(Trace(h, start, events[..i]), Trace(h, start, events).order, a, b, p, q)
    ensures p < q
  {
    hide Trace, Linked;
    Linearizable(h, start, events);
    Linearizable(h, start, events[..i]);
    OrderGrows(h, start, events, i);
    var early, sys := Trace(h, start, events[..i]), Trace(h, start, events);
    assert In(early.order, a);
    var r :| 0 <= r < |early.order| && early.order[r].id == a;
    assert sys.order[r] == early.order[r];
    assert (sys.order + sys.waiting)[p] == sys.order[p] && (sys.order + sys.waiting)[r] == sys.order[r];
    NotBefore(early.order, sys.order, b, q);
  }

  /** A lookup that reads the latch after some insertion has finished takes the lock. */
  lemma FinishedInsertIsSeen(h: Hasher, start: Index, events: seq<Event>, i: nat, j: nat)
    requires Startable(start) && i < j < |events|
    requires events[i].FinishInsert? && events[j].ReadLatch?
    ensures InPhase(Trace(h, start, events[..i]), events[i]) && InPhase(Trace(h, start, events[..j]), events[j]) ==>
              var phases := Trace(h, start, events[..j + 1]).phases;
              events[j].id in phases && phases[events[j].id].Locking?
  {
    hide Linked, Trace, ApplyIndex, AnswerIndex;
    Linearizable(h, start, events[..i]);
    OrderGrows(h, start, events[..j], i);
    assert events[..j][..i] == events[..i];
    TraceMore(h, start, events, j);
  }

  lemma TraceMore(h: Hasher, start: Index, events: seq<Event>, j: nat)
    requires Startable(start) && j < |events|
    ensures Trace(h, start, events[..j + 1]) == Step(h, Trace(h, start, events[..j]), events[j])
  {
    hide Step;
    assert events[..j + 1][..j] == events[..j];
  }

  // ---------- what a caller gets ----------

  /** A later phase of the same operation: same call, same effect, same answer. */
  predicate Continues(p: Phase, q: Phase) {
    match p
    case Inserting(key, bits) => q == p || (Storing(q) && q.op == Note(key, bits, q.op.now))
    case Looking(key) => Asking(q, key)
    case Locking(key) => Asking(q, key)
    case Answered(op, answer) => (q.Answered? || q.Returned?) && q.op == op && q.answer == answer
    case Returned(_, _) => q == p
    case _ => Storing(q) && q.op == p.op
  }

  predicate Storing(q: Phase) { (q.Recorded? || q.Published? || q.Settled?) && q.op.Note? }

  predicate Asking(q: Phase, key: Key) {
    if q.Looking? || q.Locking? then q.key == key
    else (q.Answered? || q.Returned?) && q.op.Lookup? && q.op.key == key
  }

  predicate Sound(p: Phase) {
    && (p.Recorded? || p.Published? || p.Settled? ==> p.op.Note?)
    && (p.Answered? || p.Returned? ==> p.op.Lookup?)
  }

  ghost predicate AllSound(sys: Machine) { forall id :: id in sys.phases ==> Sound(sys.phases[id]) }

  lemma StepContinues(h: Hasher, sys: Machine, e: Event, id: nat)
    requires Fit(sys.index) && AllSound(sys)
    ensures AllSound(Step(h, sys, e))
    ensures id in sys.phases ==> id in Step(h, sys, e).phases && Continues(sys.phases[id], Step(h, sys, e).phases[id])
  {
    hide ApplyIndex, AnswerIndex;
  }

  /** From its start on, an operation keeps its call, then its effect, then its answer. */
  lemma {:induction false} CallStays(h: Hasher, start: Index, events: seq<Event>, i: nat, id: nat)
    requires Startable(start) && i <= |events|
    ensures AllSound(Trace(h, start, events))
    ensures var early, late := Trace(h, start, events[..i]).phases, Trace(h, start, events).phases;
            id in early ==> id in late && Continues(early[id], late[id])
    decreases |events|
  {
    hide Step;
    if |events| == 0 {
    } else {
      var rest := events[..|events| - 1];
      CallStays(h, start, rest, if i < |events| then i else 0, id);
      StepContinues(h, Trace(h, start, rest), events[|events| - 1], id);
      if i < |events| {
        assert rest[..i] == events[..i];
      } else {
        assert events[..i] == events;
      }
    }
  }

  /** `e` has a place in the order at which the atomic index gives its answer. */
  ghost predicate TakesEffect(h: Hasher, start: Index, order: seq<Effect>, e: Effect)
    requires Startable(start)
  {
    exists p :: 0 <= p < |order| && order[p] == e
      && (e.op.Lookup? ==> e.answer == AnswerIndex(h, Atomic(h, start, order[..p]), e.op.key, e.op.now))
  }

  lemma Placed(h: Hasher, start: Index, sys: Machine, id: nat) returns (e: Effect)
    requires Startable(start) && Linked(h, start, sys) && Booked(sys) && id in sys.phases && Effective(sys.phases[id])
    ensures e.id == id && Matches(sys.phases[id], e) && TakesEffect(h, start, sys.order, e)
  {
    hide Atomic, AnswerIndex, Empty;
    var p :| 0 <= p < |sys.order| && sys.order[p].id == id;
    e := sys.order[p];
  }

  /**
    What a lookup returns to its caller is what the atomic index answers for the key the
    lookup was called with, at the place of that lookup in the order.
   */
  lemma LookupReturns(h: Hasher, start: Index, events: seq<Event>, i: nat, id: nat, key: Key)
    requires Startable(start) && i < |events| && events[i] == StartLookup(id, key)
    ensures InPhase(Trace(h, start, events[..i]), events[i]) ==>
              var sys := Trace(h, start, events);
              && id in sys.phases && Asking(sys.phases[id], key)
              && (sys.phases[id].Returned? ==>
                    TakesEffect(h, start, sys.order,
                                Effect(id, Lookup(key, sys.phases[id].op.now), sys.phases[id].answer)))
  {
    hide Trace, Linked, Booked, TakesEffect;
    TraceMore(h, start, events, i);
    CallStays(h, start, events, i + 1, id);
    Linearizable(h, start, events);
    var sys := Trace(h, start, events);
    if id in sys.phases && sys.phases[id].Returned? {
      var e := Placed(h, start, sys, id);
    }
  }

  /** A finished insertion is in the order with the key and the bits it was called with. */
  lemma InsertTakesEffect(h: Hasher, start: Index, events: seq<Event>, i: nat, id: nat, key: Key, bits: Mask)
    requires Startable(start) && i < |events| && events[i] == StartInsert(id, key, bits)
    ensures InPhase(Trace(h, start, events[..i]), events[i]) ==>
              var sys := Trace(h, start, events);
              && id in sys.phases && Continues(Inserting(key, bits), sys.phases[id])
              && (sys.phases[id].Settled? ==>
                    exists e: Effect :: e.id == id && e.op == Note(key, bits, sys.phases[id].op.now)
                      && TakesEffect(h, start, sys.order, e))
  {
    hide Trace, Linked, Booked, TakesEffect;
    TraceMore(h, start, events, i);
    CallStays(h, start, events, i + 1, id);
    Linearizable(h, start, events);
    var sys := Trace(h, start, events);
    if id in sys.phases && sys.phases[id].Settled? {
      var e := Placed(h, start, sys, id);
    }
  }
}
