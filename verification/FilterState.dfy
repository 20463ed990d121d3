/**
  The availability filter of one shard, as the proxy keeps it: a ring of generations of
  two-slot blocks updated in place.  Every method is proved to do to the window, read by
  age, what `Rotation` and `Snapshots` say.
 */
module FilterStates {
  import opened Words
  import opened Blocks
  import opened Rotation
  import opened Snapshots
  import opened Rings

  // ---------- one generation ----------

  const BLOCK_SLOTS: nat := 2

  datatype BlockData = BlockData(hashes: seq<u64>, tags: seq<Tag>, missing: seq<Mask>)

  const CLEARED := BlockData([0, 0], [0, 0], [NO_SLOTS, NO_SLOTS])

  type RawBlock = b: BlockData | |b.hashes| == |b.tags| == |b.missing| == BLOCK_SLOTS witness CLEARED

  function CellOf(b: RawBlock, slot: nat, key: Option<Key>): Cell
    requires slot < BLOCK_SLOTS
  {
    if b.hashes[slot] == 0 || key.None? then Vacant
    else Held(Fingerprint(b.hashes[slot], b.tags[slot]), key.value, b.missing[slot])
  }

  function BlockOf(b: RawBlock, first: Option<Key>, second: Option<Key>): Block {
    Block(CellOf(b, 0, first), CellOf(b, 1, second))
  }

  function BlocksOf(raw: seq<RawBlock>, keys: seq<Option<Key>>): seq<Block>
    requires |keys| == BLOCK_SLOTS * |raw|
  {
    seq(|raw|, b requires 0 <= b < |raw| => BlockOf(raw[b], keys[2 * b], keys[2 * b + 1]))
  }

  /** Writing one slot changes one block. */
  lemma BlocksOfUpdate(raw: seq<RawBlock>, keys: seq<Option<Key>>, block: nat, b: RawBlock, slot: nat, key: Option<Key>)
    requires |keys| == BLOCK_SLOTS * |raw| && block < |raw| && slot < BLOCK_SLOTS
    ensures var keys' := keys[2 * block + slot := key];
            BlocksOf(raw[block := b], keys') ==
            BlocksOf(raw, keys)[block := BlockOf(b, keys'[2 * block], keys'[2 * block + 1])]
  {
  }

  /** The slots whose fingerprint and tag match. */
  method MatchingSlots(b: RawBlock, fp: Fingerprint) returns (mask: set<nat>)
    ensures mask == set i | 0 <= i < BLOCK_SLOTS && b.hashes[i] == fp.hash && b.tags[i] == fp.tag
  {
    mask := {};
    for i := 0 to BLOCK_SLOTS
      invariant mask == set j | 0 <= j < i && b.hashes[j] == fp.hash && b.tags[j] == fp.tag
    {
      if b.hashes[i] == fp.hash && b.tags[i] == fp.tag {
        mask := mask + {i};
      }
    }
  }

  class Generation {
    var startedAt: u64
    var occupied: nat
    const blocks: array<RawBlock>
    const keys: array<Option<Key>>

    ghost var value: Gen

    /** A key is kept exactly where a hash is not zero; `value` is what the fields say. */
    ghost predicate Valid()
      reads this, blocks, keys
    {
      && keys.Length == BLOCK_SLOTS * blocks.Length
      && (forall b :: 0 <= b < blocks.Length ==>
            && (blocks[b].hashes[0] != 0 <==> keys[2 * b].Some?)
            && (blocks[b].hashes[1] != 0 <==> keys[2 * b + 1].Some?))
      && value == Gen(startedAt, occupied, BlocksOf(blocks[..], keys[..]))
    }

    constructor (blocksPerGeneration: nat)
      ensures Valid() && value == EmptyGen(blocksPerGeneration) && blocks.Length == blocksPerGeneration
      ensures fresh(blocks) && fresh(keys)
    {
      startedAt := 0;
      occupied := 0;
      blocks := new RawBlock[blocksPerGeneration](_ => CLEARED);
      keys := new Option<Key>[BLOCK_SLOTS * blocksPerGeneration](_ => None);
      value := EmptyGen(blocksPerGeneration);
      new;
      assert BlocksOf(blocks[..], keys[..]) == EmptyGen(blocksPerGeneration).blocks;
    }

    method Clear() returns (evicted: nat)
      requires Valid()
      modifies this, blocks, keys
      ensures Valid() && value == EmptyGen(blocks.Length)
      ensures evicted == old(value).occupied
    {
      evicted := occupied;
      for b := 0 to blocks.Length
        invariant forall c :: 0 <= c < b ==> blocks[c] == CLEARED
        invariant forall k :: 0 <= k < 2 * b ==> keys[k].None?
      {
        blocks[b] := CLEARED;
        for slot := 0 to BLOCK_SLOTS
          invariant forall c :: 0 <= c <= b ==> blocks[c] == CLEARED
          invariant forall k :: 0 <= k < 2 * b + slot ==> keys[k].None?
        {
          keys[b * BLOCK_SLOTS + slot] := None;
        }
      }
      startedAt := 0;
      occupied := 0;
      value := EmptyGen(blocks.Length);
      assert BlocksOf(blocks[..], keys[..]) == value.blocks;
    }

    method LookupMissingBits(fp: Fingerprint, key: Key, block: nat) returns (bits: Mask)
      requires Valid() && block < blocks.Length
      ensures bits == LookupBlock(value.blocks[block], fp, key)
    {
      var candidates := MatchingSlots(blocks[block], fp);
      ghost var b := value.blocks[block];
      bits := NO_SLOTS;
      for slot := 0 to BLOCK_SLOTS
        invariant bits == Or(if slot > 0 then LookupCell(b.first, fp, key) else NO_SLOTS,
                             if slot > 1 then LookupCell(b.second, fp, key) else NO_SLOTS)
      {
        OrNothing(NO_SLOTS);
        OrNothing(LookupCell(b.first, fp, key));
        if slot in candidates && keys[block * BLOCK_SLOTS + slot] == Some(key) {
          bits := Or(bits, blocks[block].missing[slot]);
        }
      }
    }

    /** The slot that holds exactly this key, or `BLOCK_SLOTS`. */
    method FindExact(fp: Fingerprint, key: Key, block: nat) returns (slot: nat)
      requires Valid() && block < blocks.Length
      ensures slot == if Matches(value.blocks[block].first, fp, key) then 0
                      else if Matches(value.blocks[block].second, fp, key) then 1 else BLOCK_SLOTS
    {
      var candidates := MatchingSlots(blocks[block], fp);
      slot := 0;
      while slot < BLOCK_SLOTS
        invariant 0 <= slot <= BLOCK_SLOTS
        invariant slot > 0 ==> !Matches(value.blocks[block].first, fp, key)
        invariant slot > 1 ==> !Matches(value.blocks[block].second, fp, key)
      {
        if slot in candidates && keys[block * BLOCK_SLOTS + slot] == Some(key) {
          return;
        }
        slot := slot + 1;
      }
    }

    /** Overwrites one slot of one block. */
    method WriteSlot(block: nat, slot: nat, data: RawBlock, key: Key)
      requires Valid() && block < blocks.Length && slot < BLOCK_SLOTS
      requires data.hashes[slot] != 0 && data.hashes[1 - slot] == blocks[block].hashes[1 - slot]
      modifies this`value, blocks, keys
      ensures Valid()
      ensures value == old(value).(blocks := old(value).blocks[block :=
                         if slot == 0 then BlockOf(data, Some(key), old(keys[2 * block + 1]))
                         else BlockOf(data, old(keys[2 * block]), Some(key))])
    {
      blocks[block] := data;
      keys[block * BLOCK_SLOTS + slot] := Some(key);
      BlocksOfUpdate(old(blocks[..]), old(keys[..]), block, data, slot, Some(key));
      assert blocks[..] == old(blocks[..])[block := data];
      assert keys[..] == old(keys[..])[2 * block + slot := Some(key)];
      value := Gen(startedAt, occupied, BlocksOf(blocks[..], keys[..]));
    }

    method InsertMissingBits(fp: Fingerprint, key: Key, bits: Mask, block: nat) returns (outcome: Outcome)
      requires Valid() && block < blocks.Length
      modifies this`value, blocks, keys
      ensures Valid()
      ensures outcome == OutcomeOf(old(value).blocks[block], fp, key)
      ensures value == old(value).(blocks := old(value).blocks[block :=
                         InsertBlock(old(value).blocks[block], fp, key, bits)])
    {
      var b := blocks[block];
      var slot := FindExact(fp, key, block);
      if slot < BLOCK_SLOTS {
        WriteSlot(block, slot, b.(missing := b.missing[slot := Or(b.missing[slot], bits)]), key);
        return Updated;
      }
      slot := if b.hashes[0] == 0 then 0 else if b.hashes[1] == 0 then 1
              else if VictimIsSecond(fp.hash) then 1 else 0;
      outcome := if b.hashes[slot] == 0 then Inserted else Replaced;
      WriteSlot(block, slot, BlockData(b.hashes[slot := fp.hash], b.tags[slot := fp.tag], b.missing[slot := bits]),
                key);
    }

    /** Writes one observation and counts a newly occupied slot. */
    method Insert(fp: Fingerprint, key: Key, bits: Mask, block: nat) returns (outcome: Outcome)
      requires Valid() && block < blocks.Length
      modifies this, blocks, keys
      ensures Valid() && value == InsertGen(old(value), fp, key, bits, block)
      ensures outcome == OutcomeOf(old(value).blocks[block], fp, key)
    {
      outcome := InsertMissingBits(fp, key, bits, block);
      if outcome == Inserted {
        occupied := occupied + 1;
        value := value.(occupied := occupied);
      }
    }

    /** Writes an observation made at `t`, which may be older than the generation's start. */
    method InsertBackdated(t: u64, fp: Fingerprint, key: Key, bits: Mask, block: nat) returns (outcome: Outcome)
      requires Valid() && block < blocks.Length
      modifies this, blocks, keys
      ensures Valid() && value == InsertGen(Backdate(old(value), t), fp, key, bits, block)
      ensures outcome == OutcomeOf(old(value).blocks[block], fp, key)
    {
      Stamp(if startedAt == 0 then t else Min(startedAt, t));
      outcome := Insert(fp, key, bits, block);
    }

    /** The persisted form of one block. */
    method EntriesAt(b: nat) returns (entries: seq<Entry>)
      requires Valid() && b < blocks.Length
      ensures entries == BlockEntries(value.blocks[b], startedAt)
    {
      ghost var block := value.blocks[b];
      entries := [];
      for slot := 0 to BLOCK_SLOTS
        invariant entries == (if slot > 0 then CellEntries(block.first, startedAt) else [])
                             + (if slot > 1 then CellEntries(block.second, startedAt) else [])
      {
        var hash, missing := blocks[b].hashes[slot], blocks[b].missing[slot];
        if hash != 0 && missing != NO_SLOTS {
          entries := entries + [Entry(hash, blocks[b].tags[slot], keys[b * BLOCK_SLOTS + slot].value, missing,
                                      startedAt)];
        }
      }
    }

    /** The persisted form of everything this generation holds, block by block. */
    method Entries() returns (entries: seq<Entry>)
      requires Valid()
      ensures entries == BlocksEntries(value.blocks, value.startedAt)
    {
      ghost var held := value.blocks;
      entries := [];
      for b := 0 to blocks.Length
        invariant entries == BlocksEntries(held[..b], startedAt)
      {
        var more := EntriesAt(b);
        entries := entries + more;
        assert held[..b + 1][..b] == held[..b];
      }
      assert held[..blocks.Length] == held;
    }

    method Stamp(t: u64)
      requires Valid()
      modifies this
      ensures Valid() && value == old(value).(startedAt := t)
    {
      startedAt := t;
      value := value.(startedAt := t);
    }
  }

  // ---------- the ring of generations ----------

  class FilterState {
    const generations: seq<Generation>
    const blocksPerGeneration: nat
    const interval: u64
    var current: nat
    var live: nat
    var next: u64
    ghost var ring: seq<Gen>
    ghost const Parts: set<object>
    ghost const position: map<object, nat>

    function Geo(): Shape { Shape(|generations|, blocksPerGeneration, interval) }

    ghost function State(): Ring
      reads this
    {
      Ring(ring, current, live, next)
    }

    /** `o` is part of the generation at position `i` and of no other. */
    ghost predicate Owns(o: object, i: nat) { o in Parts && o in position && position[o] == i }

    /** `ring` lists the values of the generations by position. */
    ghost predicate Sound()
      reads this`ring, Parts
    {
      && this !in Parts && 1 <= |generations| == |ring|
      && forall i :: 0 <= i < |generations| ==>
           && Owns(generations[i], i) && Owns(generations[i].blocks, i) && Owns(generations[i].keys, i)
           && generations[i].blocks.Length == blocksPerGeneration
           && generations[i].Valid() && generations[i].value == ring[i]
    }

    ghost predicate Valid()
      reads this, Parts
    {
      Sound() && Rings.Valid(Geo(), State())
    }

    /** The window: the generations by age and the schedule. */
    ghost function W(): Rotation.Window
      reads this
      requires current < |ring|
    {
      Rings.Window(State())
    }

    constructor (blocksPerGeneration: nat, generationCount: nat, interval: u64)
      ensures Valid() && fresh(Parts)
      ensures Geo() == Shape(Max(generationCount, 1), blocksPerGeneration, interval)
      ensures State() == Cleared(Geo())
    {
      var count := Max(generationCount, 1);
      var gens: seq<Generation> := [];
      ghost var parts: set<object>, places: map<object, nat> := {}, map[];
      for i := 0 to count
        invariant |gens| == i && fresh(parts) && places.Keys == parts
        invariant forall k :: 0 <= k < i ==>
                    && gens[k] in parts && gens[k].blocks in parts && gens[k].keys in parts
                    && places[gens[k]] == places[gens[k].blocks] == places[gens[k].keys] == k
                    && gens[k].Valid() && gens[k].value == EmptyGen(blocksPerGeneration)
                    && gens[k].blocks.Length == blocksPerGeneration
      {
        var g := new Generation(blocksPerGeneration);
        gens := gens + [g];
        parts := parts + {g, g.blocks, g.keys};
        places := places[g := i][g.blocks := i][g.keys := i];
      }
      generations := gens;
      this.blocksPerGeneration := blocksPerGeneration;
      this.interval := interval;
      current, live, next := 0, 0, 0;
      ring := seq(count, _ => EmptyGen(blocksPerGeneration));
      Parts, position := parts, places;
    }

    method ClearAt(i: nat) returns (evicted: nat)
      requires Sound() && i < |generations|
      modifies this`ring, generations[i], generations[i].blocks, generations[i].keys
      ensures Sound() && ring == old(ring)[i := EmptyGen(blocksPerGeneration)]
      ensures evicted == old(ring)[i].occupied
    {
      evicted := generations[i].Clear();
      ring := ring[i := EmptyGen(blocksPerGeneration)];
    }

    /** Clears every generation. */
    method ClearAll() returns (evicted: nat)
      requires Sound()
      modifies this`ring, Parts
      ensures Sound() && ring == Cleared(Geo()).gens
      ensures evicted == Occupied(old(ring))
    {
      evicted := 0;
      ghost var before := ring;
      for i := 0 to |generations|
        invariant Sound()
        invariant forall k :: 0 <= k < i ==> ring[k] == EmptyGen(blocksPerGeneration)
        invariant forall k :: i <= k < |ring| ==> ring[k] == before[k]
        invariant evicted == Occupied(before[..i])
      {
        OccupiedAt(before, i);
        var cleared := ClearAt(i);
        evicted := evicted + cleared;
      }
      assert before[..|generations|] == before;
    }

    /** Clears everything and goes back to position 0. */
    method Reset() returns (evicted: nat)
      requires Sound()
      modifies this, Parts
      ensures Sound() && State() == Cleared(Geo())
      ensures evicted == Occupied(old(ring))
    {
      evicted := ClearAll();
      current := 0;
      live := 0;
      next := 0;
    }

    /** The rotation loop: each step clears the oldest generation and makes it the current one. */
    method AdvanceBy(rotations: nat) returns (evicted: nat)
      requires Sound() && current < |generations|
      modifies this`ring, this`current, Parts
      ensures Sound() && (ring, current) == Advance(Geo(), old(ring), old(current), rotations)
      ensures evicted == AdvanceEvicts(Geo(), old(ring), old(current), rotations)
    {
      evicted := 0;
      for r := 0 to rotations
        invariant Sound() && (ring, current) == Advance(Geo(), old(ring), old(current), r)
        invariant evicted == AdvanceEvicts(Geo(), old(ring), old(current), r)
      {
        current := Successor(current, |generations|);
        var cleared := ClearAt(current);
        evicted := evicted + cleared;
      }
    }

    /** The rotation itself, on the ring. */
    method RotateGenerations(now: u64) returns (evicted: nat)
      requires Sound() && current < |generations|
      modifies this, Parts
      ensures Sound() && State() == RotateRing(Geo(), old(State()), now)
      ensures evicted == RotateEvicts(Geo(), old(State()), now)
    {
      if blocksPerGeneration == 0 {
        return 0;
      }
      if interval == 0 {
        evicted := Reset();
        return;
      }
      if interval == U64_MAX || live == 0 || next == 0 || now < next {
        return 0;
      }
      var scheduledAt := next;
      var rotations := Min(1 + (now - next) / interval, |generations|);
      evicted := AdvanceBy(rotations);
      live := Min(live + rotations, |generations|);
      next := SatAdd(scheduledAt, SatMul(rotations, interval));
    }

    method RotateIfNeeded(now: u64) returns (evicted: nat)
      requires Valid()
      modifies this, Parts
      ensures Valid() && State() == RotateRing(Geo(), old(State()), now)
      ensures W() == Rotate(Geo(), old(W()), now) && evicted == Dropped(Geo(), old(W()), now)
    {
      RotateRefines(Geo(), State(), now);
      evicted := RotateGenerations(now);
    }

    /** Sets the start of the generation at position `i`. */
    method StampAt(i: nat, t: u64)
      requires Sound() && i < |generations|
      modifies this`ring, generations[i]
      ensures Sound() && ring == old(ring)[i := old(ring)[i].(startedAt := t)]
    {
      ghost var stamped := ring[i].(startedAt := t);
      generations[i].Stamp(t);
      ring := ring[i := stamped];
    }

    method EnsureCurrentGenerationStarted(now: u64)
      requires Sound() && current < |generations|
      modifies this, Parts
      ensures Sound() && State() == StartRing(Geo(), old(State()), now)
    {
      if generations[current].startedAt != 0 {
        return;
      }
      StampAt(current, now);
      live := Max(live, 1);
      next := if interval == 0 || interval == U64_MAX then 0 else SatAdd(now, interval);
    }

    /** Writes one observation into the generation at position `i`. */
    method InsertAt(i: nat, fp: Fingerprint, key: Key, bits: Mask, block: nat) returns (outcome: Outcome)
      requires Sound() && i < |generations| && block < blocksPerGeneration
      modifies this`ring, generations[i], generations[i].blocks, generations[i].keys
      ensures Sound() && ring == old(ring)[i := InsertGen(old(ring)[i], fp, key, bits, block)]
      ensures outcome == OutcomeOf(old(ring)[i].blocks[block], fp, key)
    {
      ghost var inserted := InsertGen(ring[i], fp, key, bits, block);
      outcome := generations[i].Insert(fp, key, bits, block);
      ring := ring[i := inserted];
    }

    method InsertMissingBits(fp: Fingerprint, key: Key, bits: Mask, block: nat, now: u64) returns (evicted: nat)
      requires Valid() && (blocksPerGeneration != 0 ==> block < blocksPerGeneration)
      modifies this, Parts
      ensures Valid() && W() == Record(Geo(), old(W()), Spot(fp, block), key, bits, now)
      ensures evicted == RecordDropped(Geo(), old(W()), Spot(fp, block), key, bits, now)
    {
      RecordRefines(Geo(), State(), Spot(fp, block), key, bits, now);
      evicted := RotateIfNeeded(now);
      if blocksPerGeneration == 0 || bits == NO_SLOTS || interval == 0 {
        return;
      }
      assert W().gens[0] == ring[current];
      EnsureCurrentGenerationStarted(now);
      var outcome := InsertAt(current, fp, key, bits, block);
      if outcome == Replaced {
        evicted := evicted + 1;
      }
    }

    /** Where the generation of age `offset` is. */
    method PositionOf(offset: nat) returns (i: nat)
      requires Sound() && current < |generations| && offset < |generations|
      ensures i < |generations| && i == Position(current, |generations|, offset)
      ensures ByAge(ring, current)[offset] == ring[i] == generations[i].value
    {
      PositionIsModular(current, |generations|, offset);
      i := (current + |generations| - offset) % |generations|;
    }

    method LookupMissingBits(fp: Fingerprint, key: Key, block: nat, now: u64) returns (bits: Mask, evicted: nat)
      requires Valid() && (blocksPerGeneration != 0 ==> block < blocksPerGeneration)
      modifies this, Parts
      ensures Valid() && W() == Rotate(Geo(), old(W()), now) && evicted == Dropped(Geo(), old(W()), now)
      ensures bits == Answer(Geo(), old(W()), Spot(fp, block), key, now)
    {
      evicted := RotateIfNeeded(now);
      bits := NO_SLOTS;
      if blocksPerGeneration != 0 {
        ClearedByAge(Geo(), State());
        GatherCleared(Geo(), W().gens, live, |generations|, Spot(fp, block), key);
        bits := GatherLive(W().gens, Spot(fp, block), key);
      }
    }

    /** Asks the generation of age `offset`. */
    method LookupAge(offset: nat, spot: Spot, key: Key) returns (found: Mask)
      requires Sound() && current < |generations| && offset < |generations| && spot.block < blocksPerGeneration
      ensures spot.block < |ByAge(ring, current)[offset].blocks|
      ensures found == LookupBlock(ByAge(ring, current)[offset].blocks[spot.block], spot.fp, key)
    {
      var i := PositionOf(offset);
      found := generations[i].LookupMissingBits(spot.fp, key, spot.block);
    }

    /** Asks the live generations, newest first, until every provider is known to be missing. */
    method GatherLive(ghost gens: seq<Gen>, spot: Spot, key: Key) returns (bits: Mask)
      requires Sound() && current < |generations| && live <= |generations| && spot.block < blocksPerGeneration
      requires gens == ByAge(ring, current) && forall a :: 0 <= a < |gens| ==> spot.block < |gens[a].blocks|
      ensures bits == Gather(gens, live, spot, key)
    {
      bits := NO_SLOTS;
      for offset := 0 to live
        invariant bits == Gather(gens, offset, spot, key)
      {
        var found := LookupAge(offset, spot, key);
        bits := Or(bits, found);
        if bits == ALL_SLOTS {
          GatherFull(gens, offset + 1, live, spot, key);
          break;
        }
      }
    }

    method OccupiedSlots() returns (count: nat)
      requires Valid()
      ensures count == Occupied(W().gens)
    {
      ghost var gens := W().gens;
      ClearedByAge(Geo(), State());
      LiveEntries(Geo(), gens, live);
      count := 0;
      for offset := 0 to live
        invariant count == Occupied(gens[..offset])
      {
        var i := PositionOf(offset);
        OccupiedAt(gens, offset);
        count := count + generations[i].occupied;
      }
    }

    method InsertBackdatedAt(i: nat, e: Entry, block: nat) returns (outcome: Outcome)
      requires Sound() && i < |generations| && block < blocksPerGeneration && e.hash != 0
      modifies this`ring, generations[i], generations[i].blocks, generations[i].keys
      ensures Sound() && ring == old(ring)[i := InsertGen(Backdate(old(ring)[i], e.insertedAt),
                                                          Fingerprint(e.hash, e.tag), e.key, e.missing, block)]
      ensures outcome == OutcomeOf(old(ring)[i].blocks[block], Fingerprint(e.hash, e.tag), e.key)
    {
      ghost var restored := InsertGen(Backdate(ring[i], e.insertedAt), Fingerprint(e.hash, e.tag), e.key, e.missing,
                                      block);
      outcome := generations[i].InsertBackdated(e.insertedAt, Fingerprint(e.hash, e.tag), e.key, e.missing, block);
      ring := ring[i := restored];
    }

    /** Puts an entry into the generation of its age. */
    method RestoreAt(e: Entry, block: nat, now: u64) returns (outcome: Outcome)
      requires Sound() && current < |generations| && block < blocksPerGeneration && e.hash != 0
      modifies this, Parts
      ensures Sound() && current == old(current) && next == old(next)
      ensures var a := AgeOf(Geo(), e.insertedAt, now);
              var i := Position(current, |generations|, a);
              && live == Max(old(live), a + 1)
              && outcome == OutcomeOf(old(ring)[i].blocks[block], Fingerprint(e.hash, e.tag), e.key)
              && ring == old(ring)[i := InsertGen(Backdate(old(ring)[i], e.insertedAt),
                                                  Fingerprint(e.hash, e.tag), e.key, e.missing, block)]
    {
      var offset := if interval == 0 || interval == U64_MAX then 0 else SatSub(now, e.insertedAt) / interval;
      offset := Min(offset, |generations| - 1);
      var i := PositionOf(offset);
      live := Max(live, offset + 1);
      outcome := InsertBackdatedAt(i, e, block);
    }

    method RestoreEntry(e: Entry, block: nat, now: u64, ttl: u64) returns (evicted: nat)
      requires Valid() && (blocksPerGeneration != 0 ==> block < blocksPerGeneration)
      modifies this, Parts
      ensures Valid() && current == old(current)
      ensures W() == Snapshots.RestoreEntry(Geo(), old(W()), e, block, now, ttl)
      ensures evicted == RestoreDropped(Geo(), old(W()), e, block, now, ttl)
    {
      RestoreRefines(Geo(), State(), e, block, now, ttl);
      evicted := 0;
      if !Skipped(Geo(), e, now, ttl) {
        assert W().gens[AgeOf(Geo(), e.insertedAt, now)] ==
               ring[Position(current, |generations|, AgeOf(Geo(), e.insertedAt, now))];
        var outcome := RestoreAt(e, block, now);
        evicted := if outcome == Replaced then 1 else 0;
      }
    }

    /**
      The newest started generation becomes current.  On a ring that was restored from the
      start, everything in its age class at `now`, this keeps the generations beyond the live
      ones cleared and turns the window.
     */
    method ReanchorCurrentGeneration(ghost now: nat)
      requires Valid()
      modifies this
      ensures Sound() && State() == ReanchorRing(Geo(), old(State()))
      ensures old(current == 0 && Bucketed(Geo(), W(), now)) ==> Valid() && W() == Reanchor(Geo(), old(W()))
    {
      hide Bucketed, Reanchor;
      if current == 0 && Bucketed(Geo(), W(), now) {
        ReanchorRefines(Geo(), State(), now);
      }
      var best, newest := None, 0;
      for i := 0 to |generations|
        invariant best == AnchorPosition(ring, i)
        invariant best.Some? ==> newest == ring[best.value].startedAt
      {
        var startedAt := generations[i].startedAt;
        if startedAt != 0 && (best.None? || startedAt >= newest) {
          best, newest := Some(i), startedAt;
        }
      }
      if best.Some? {
        current := best.value;
        next := if interval == 0 || interval == U64_MAX then 0 else SatAdd(newest, interval);
      }
    }

    method SnapshotEntries(now: u64) returns (entries: seq<Entry>, evicted: nat)
      requires Valid()
      modifies this, Parts
      ensures Valid() && W() == Rotate(Geo(), old(W()), now) && evicted == Dropped(Geo(), old(W()), now)
      ensures entries == GensEntries(W().gens)
    {
      evicted := RotateIfNeeded(now);
      ClearedByAge(Geo(), State());
      LiveEntries(Geo(), W().gens, live);
      entries := LiveGenerationEntries(W().gens);
    }

    method LiveGenerationEntries(ghost gens: seq<Gen>) returns (entries: seq<Entry>)
      requires Sound() && current < |generations| && live <= |generations| && gens == ByAge(ring, current)
      ensures entries == GensEntries(gens[..live])
    {
      entries := [];
      for offset := 0 to live
        invariant entries == GensEntries(gens[..offset])
      {
        var i := PositionOf(offset);
        var more := generations[i].Entries();
        assert gens[..offset + 1][..offset] == gens[..offset];
        entries := entries + more;
      }
    }
  }
}
