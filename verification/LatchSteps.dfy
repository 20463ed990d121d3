/**
  The publication latch as a machine: insertions and lookups in steps that interleave.

  An insertion records under a shard's lock and then sets the latch; a lookup reads the
  latch and takes the lock only if it is set.  The order in which operations take effect
  is built while the machine runs: insertions that have recorded but whose latch is not
  yet set wait, and take effect together when the latch is set for the first time.
 */
module LatchSteps {
  import opened Words
  import opened Blocks
  import opened Rotation
  import opened Index

  datatype Event =
    | StartInsert(id: nat, key: Key, bits: Mask)
    | Record(id: nat, now: u64)
    | SetLatch(id: nat)
    | FinishInsert(id: nat)
    | StartLookup(id: nat, key: Key)
    | ReadLatch(id: nat)
    | LockedLookup(id: nat, now: u64)
    | FinishLookup(id: nat)

  /** How far an operation has come, with what it was called with, did and returns. */
  datatype Phase =
    | Inserting(key: Key, bits: Mask)
    | Recorded(op: Op)
    | Published(op: Op)
    | Settled(op: Op)
    | Looking(key: Key)
    | Locking(key: Key)
    | Answered(op: Op, answer: Mask)
    | Returned(op: Op, answer: Mask)

  /** An operation that has taken effect; a lookup with its answer. */
  datatype Effect = Effect(id: nat, op: Op, answer: Mask)

  datatype Machine = Machine(index: Index, phases: map<nat, Phase>, order: seq<Effect>, waiting: seq<Effect>)

  predicate InPhase(sys: Machine, e: Event) {
    match e
    case StartInsert(id, key, bits) => id !in sys.phases && !Ignored(sys.index, Note(key, bits, 1))
    case StartLookup(id, _) => id !in sys.phases
    case Record(id, _) => id in sys.phases && sys.phases[id].Inserting?
    case SetLatch(id) => id in sys.phases && sys.phases[id].Recorded?
    case FinishInsert(id) => id in sys.phases && sys.phases[id].Published?
    case ReadLatch(id) => id in sys.phases && sys.phases[id].Looking?
    case LockedLookup(id, _) => id in sys.phases && sys.phases[id].Locking?
    case FinishLookup(id) => id in sys.phases && sys.phases[id].Answered?
  }

  /** One step of one operation; an event that is not next for its operation does not happen. */
  function Step(h: Hasher, sys: Machine, e: Event): (sys': Machine)
    requires Fit(sys.index)
    ensures Fit(sys'.index) && sys'.index.geo == sys.index.geo
  {
    if !InPhase(sys, e) then sys
    else
      match e
      case StartInsert(id, key, bits) => sys.(phases := sys.phases[id := Inserting(key, bits)])
      case StartLookup(id, key) => sys.(phases := sys.phases[id := Looking(key)])
      case Record(id, now) =>
        var op := Note(sys.phases[id].key, sys.phases[id].bits, now);
        var effect := Effect(id, op, NO_SLOTS);
        Machine(ApplyIndex(h, sys.index, op).(populated := sys.index.populated), sys.phases[id := Recorded(op)],
               if sys.index.populated then sys.order + [effect] else sys.order,
               if sys.index.populated then sys.waiting else sys.waiting + [effect])
      case SetLatch(id) =>
        Machine(sys.index.(populated := true), sys.phases[id := Published(sys.phases[id].op)],
                sys.order + sys.waiting, [])
      case FinishInsert(id) => sys.(phases := sys.phases[id := Settled(sys.phases[id].op)])
      case ReadLatch(id) =>
        if sys.index.populated then sys.(phases := sys.phases[id := Locking(sys.phases[id].key)])
        else
          var op := Lookup(sys.phases[id].key, 0);
          sys.(phases := sys.phases[id := Answered(op, NO_SLOTS)],
               order := sys.order + [Effect(id, op, NO_SLOTS)])
      case LockedLookup(id, now) =>
        var op := Lookup(sys.phases[id].key, now);
        var answer := AnswerIndex(h, sys.index, op.key, now);
        sys.(index := ApplyIndex(h, sys.index, op), phases := sys.phases[id := Answered(op, answer)],
             order := sys.order + [Effect(id, op, answer)])
      case FinishLookup(id) =>
        sys.(phases := sys.phases[id := Returned(sys.phases[id].op, sys.phases[id].answer)])
  }

  /** An index to start from, new or loaded: nothing is held while its latch is not set. */
  ghost predicate Startable(idx: Index) { Fit(idx) && (!idx.populated ==> idx.shards == Empty(idx.geo).shards) }

  function Trace(h: Hasher, start: Index, events: seq<Event>): (sys: Machine)
    requires Fit(start)
    ensures Fit(sys.index) && sys.index.geo == start.geo
  {
    if events == [] then Machine(start, map[], [], [])
    else Step(h, Trace(h, start, events[..|events| - 1]), events[|events| - 1])
  }
}
