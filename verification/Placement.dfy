/**
  Where a fingerprint is placed, bit by bit, and what follows: every block is used, and
  insertions that are placed in different blocks never make each other forgotten.
 */
module Placement {
  import opened Words
  import opened Blocks
  import opened Rotation
  import opened Index
  import Retention
  import Projection
  import opened Worlds
  import opened SnapshotCodec
  import Longest

  // ---------- bits of a word ----------

  predicate BitAt(x: nat, i: nat) { if i == 0 then x % 2 == 1 else BitAt(x / 2, i - 1) }

  lemma {:induction false} XorHalves(a: nat, b: nat)
    ensures Xor(a, b) / 2 == Xor(a / 2, b / 2)
    ensures Xor(a, b) % 2 == 1 <==> (a % 2 == 1) != (b % 2 == 1)
  {
  }

  /** An exclusive or has exactly the bits in which the two words differ. */
  lemma {:induction false} XorBits(a: nat, b: nat, i: nat)
    ensures BitAt(Xor(a, b), i) <==> BitAt(a, i) != BitAt(b, i)
  {
    hide Xor;
    XorHalves(a, b);
    if i > 0 {
      XorBits(a / 2, b / 2, i - 1);
    }
  }

  lemma {:induction false} XorBound(a: nat, b: nat, n: nat)
    requires a < Pow2(n) && b < Pow2(n)
    ensures Xor(a, b) < Pow2(n)
  {
    if n > 0 {
      XorBound(a / 2, b / 2, n - 1);
    }
  }

  /** A word without its `k` lowest bits. */
  function Shifted(x: nat, k: nat): nat { if k == 0 then x else Shifted(x / 2, k - 1) }

  lemma {:induction false} BitsShift(x: nat, i: nat, k: nat)
    ensures BitAt(Shifted(x, k), i) == BitAt(x, i + k)
  {
    if k > 0 {
      BitsShift(x / 2, i, k - 1);
    }
  }

  lemma {:induction false} ShiftedBounds(x: nat, k: nat)
    ensures Shifted(x, k) * Pow2(k) <= x < (Shifted(x, k) + 1) * Pow2(k)
  {
    if k > 0 {
      ShiftedBounds(x / 2, k - 1);
      var q, p := Shifted(x, k), Pow2(k - 1);
      Doubles(q, p);
      Doubles(q + 1, p);
    }
  }

  lemma Doubles(q: nat, d: nat)
    ensures q * (2 * d) == 2 * (q * d)
  {
  }

  lemma {:induction false} NoBitsAbove(x: nat, n: nat, i: nat)
    requires x < Pow2(n) && n <= i
    ensures !BitAt(x, i)
    decreases i
  {
    if i > 0 {
      NoBitsAbove(x / 2, if n > 0 then n - 1 else 0, i - 1);
    }
  }

  lemma {:induction false} SameBits(x: nat, y: nat, n: nat)
    requires x < Pow2(n) && y < Pow2(n) && forall i :: 0 <= i < n ==> BitAt(x, i) == BitAt(y, i)
    ensures x == y
  {
    if n > 0 {
      assert BitAt(x, 0) == BitAt(y, 0);
      forall i | 0 <= i < n - 1
        ensures BitAt(x / 2, i) == BitAt(y / 2, i)
      {
        assert BitAt(x, i + 1) == BitAt(y, i + 1);
      }
      SameBits(x / 2, y / 2, n - 1);
    }
  }

  // ---------- the block of a hash ----------

  /** Bit `i` of `x` is that of the hash, flipped if the bit 32 places above is set. */
  predicate Flips(hash: u64, x: nat, i: nat) { BitAt(x, i) <==> BitAt(hash, i) != (i < 32 && BitAt(hash, i + 32)) }

  /** `x` is the hash with its lower half flipped wherever the upper half has a bit. */
  ghost predicate Mixes(hash: u64, x: nat) { x <= U64_MAX && forall i :: 0 <= i < 64 ==> Flips(hash, x, i) }

  lemma HalfWidth()
    ensures Pow2(32) == 0x1_0000_0000
  {
    assert Pow2(2) == 4;
    PowDoubles(2, 4);
    PowDoubles(4, 0x10);
    PowDoubles(8, 0x100);
    PowDoubles(16, 0x1_0000);
  }

  lemma UpperHalf(hash: u64, i: nat)
    ensures BitAt(hash / 0x1_0000_0000, i) == (i < 32 && BitAt(hash, i + 32))
  {
    hide Pow2, Shifted;
    HalfWidth();
    PowersOfTwo();
    ShiftedBounds(hash, 32);
    BitsShift(hash, i, 32);
    if i >= 32 {
      NoBitsAbove(hash, 64, i + 32);
    }
  }

  lemma XorMixes(hash: u64)
    ensures Mixes(hash, Xor(hash / 0x1_0000_0000, hash))
  {
    PowersOfTwo();
    XorBound(hash / 0x1_0000_0000, hash, 64);
    forall i | 0 <= i < 64
      ensures Flips(hash, Xor(hash / 0x1_0000_0000, hash), i)
    {
      XorBits(hash / 0x1_0000_0000, hash, i);
      UpperHalf(hash, i);
    }
  }

  /** There is one such word, and the block is that word modulo the number of blocks. */
  lemma BlockIsMixed(geo: Geometry, hash: u64)
    requires geo.blocks > 0
    ensures exists x: nat :: Mixes(hash, x)
    ensures forall x: nat :: Mixes(hash, x) ==> GlobalBlock(geo, hash) == x % geo.blocks
  {
    hide Xor, BitAt;
    var mixed := Xor(hash / 0x1_0000_0000, hash);
    XorMixes(hash);
    PowersOfTwo();
    forall x: nat | Mixes(hash, x)
      ensures GlobalBlock(geo, hash) == x % geo.blocks
    {
      forall i: nat | i < 64
        ensures BitAt(x, i) == BitAt(mixed, i)
      {
        assert Flips(hash, x, i) && Flips(hash, mixed, i);
      }
      SameBits(x, mixed, 64);
    }
  }

  /** Laying the upper half over the lower half twice changes nothing. */
  lemma MixedTwice(v: u64)
    ensures var hash := Xor(v / 0x1_0000_0000, v); hash <= U64_MAX && Xor(hash / 0x1_0000_0000, hash) == v
  {
    hide Xor, BitAt;
    var hash := Xor(v / 0x1_0000_0000, v);
    XorMixes(v);
    XorMixes(hash);
    PowersOfTwo();
    var back := Xor(hash / 0x1_0000_0000, hash);
    forall i: nat | i < 64
      ensures BitAt(back, i) == BitAt(v, i)
    {
      assert Flips(hash, back, i) && Flips(v, hash, i);
      if i < 32 {
        assert Flips(v, hash, i + 32);
      }
    }
    SameBits(back, v, 64);
  }

  /** Every block of every budget is the block of some hash. */
  lemma EveryBlockIsUsed(geo: Geometry, g: nat)
    requires 0 < geo.blocks <= U64_MAX && g < geo.blocks
    ensures exists hash: Hash :: GlobalBlock(geo, hash) == g
  {
    hide Xor;
    var v: u64 := if g == 0 then geo.blocks else g;
    MixedTwice(v);
    XorOfZero();
    var hash: Hash := Xor(v / 0x1_0000_0000, v);
    assert GlobalBlock(geo, hash) == v % geo.blocks;
    Remainders(g, geo.blocks);
  }

  lemma Remainders(g: nat, d: nat)
    requires g < d
    ensures g % d == g && d % d == 0
  {
    QuotientIs(g, d, 0);
    QuotientIs(d, d, 1);
    assert g == g / d * d + g % d && d == d / d * d + d % d;
  }

  lemma XorOfZero()
    ensures Xor(0, 0) == 0
  {
  }

  // ---------- which slot of a full block is taken ----------

  lemma VictimByBit(hash: Hash)
    ensures VictimIsSecond(hash) <==> BitAt(hash, 48)
  {
    hide Pow2, Shifted;
    Width48();
    ShiftedBounds(hash, 48);
    BitsShift(hash, 0, 48);
  }

  lemma Width48()
    ensures Pow2(48) == 0x1_0000_0000_0000
  {
    HalfWidth();
    assert Pow2(2) == 4;
    PowDoubles(2, 4);
    PowDoubles(4, 0x10);
    PowDoubles(8, 0x100);
    PowAdds(32, 16);
  }

  /** A full block keeps its first key where bit 48 of the new hash is set, and its second otherwise. */
  lemma FullBlockKeepsOne(b: Block, fp: Fingerprint, key: Key, bits: Mask)
    requires b.first.Held? && b.second.Held? && !Matches(b.first, fp, key) && !Matches(b.second, fp, key)
    ensures InsertBlock(b, fp, key, bits) ==
            if BitAt(fp.hash, 48) then Block(b.first, Held(fp, key, bits)) else Block(Held(fp, key, bits), b.second)
    ensures Victim(b, fp, key) == Some(if BitAt(fp.hash, 48) then b.second.key else b.first.key)
  {
    VictimByBit(fp.hash);
  }

  // ---------- what does not meet is not forgotten ----------

  /** Two hashes whose mixed words differ modulo the number of blocks. */
  ghost predicate Apart(geo: Geometry, a: u64, b: u64)
    requires geo.blocks > 0
  {
    forall x: nat, y: nat :: Mixes(a, x) && Mixes(b, y) ==> x % geo.blocks != y % geo.blocks
  }

  lemma ApartInBlocks(geo: Geometry, a: u64, b: u64)
    requires geo.blocks > 0
    ensures Apart(geo, a, b) <==> GlobalBlock(geo, a) != GlobalBlock(geo, b)
  {
    hide Mixes, GlobalBlock;
    BlockIsMixed(geo, a);
    BlockIsMixed(geo, b);
  }

  /** Whatever else is recorded is placed apart from `key`. */
  ghost predicate OthersApart(geo: Geometry, h: Hasher, ops: seq<Op>, key: Key)
    requires geo.blocks > 0
  {
    forall i :: 0 <= i < |ops| && ops[i].Note? && ops[i].key != key ==> Apart(geo, h(ops[i].key).hash, h(key).hash)
  }

  lemma SameRouteSameBlock(geo: Geometry, h: Hasher, key: Key, other: Key)
    requires Sane(geo) && ShardOf(geo, h(key).hash) == ShardOf(geo, h(other).hash)
    requires var s := ShardOf(geo, h(key).hash);
             RouteIn(geo, h, s)(key).block == RouteIn(geo, h, s)(other).block
    ensures GlobalBlock(geo, h(key).hash) == GlobalBlock(geo, h(other).hash)
  {
    hide GlobalBlock;
    PlaceSums(geo.shards, GlobalBlock(geo, h(key).hash));
    PlaceSums(geo.shards, GlobalBlock(geo, h(other).hash));
  }

  lemma {:induction false} ApartUndisturbed(geo: Geometry, h: Hasher, shard: Shard, ops: seq<Op>, key: Key)
    requires Sane(geo) && geo.blocks > 0 && OthersApart(geo, h, ops, key)
    requires var s := ShardOf(geo, h(key).hash);
             && Routes(ShardShape(geo, s), RouteIn(geo, h, s)) && ShardShape(geo, s).blocks != 0
             && Fits(ShardShape(geo, s), shard.window)
    requires forall i :: 0 <= i < |ops| && ops[i].Note? ==>
               ShardOf(geo, h(ops[i].key).hash) == ShardOf(geo, h(key).hash)
    ensures var s := ShardOf(geo, h(key).hash);
            Retention.Undisturbed(ShardShape(geo, s), RouteIn(geo, h, s), shard, ops, key)
  {
    hide Victim, GlobalBlock, Run, Due, Apart;
    if ops != [] {
      var rest, op := ops[..|ops| - 1], ops[|ops| - 1];
      ApartUndisturbed(geo, h, shard, rest, key);
      if op.Note? && op.key != key {
        assert Apart(geo, h(op.key).hash, h(key).hash);
        ApartInBlocks(geo, h(op.key).hash, h(key).hash);
        var s := ShardOf(geo, h(key).hash);
        if RouteIn(geo, h, s)(op.key).block == RouteIn(geo, h, s)(key).block {
          SameRouteSameBlock(geo, h, key, op.key);
        }
      }
    }
  }

  lemma {:induction false} OwnOpsTouch(h: Hasher, idx: Index, ops: seq<Op>, s: nat)
    requires Fit(idx)
    ensures forall op :: op in Projection.ShardOps(h, idx, ops, s) && op.Note? ==> ShardOf(idx.geo, h(op.key).hash) == s
  {
    hide Ignored, RunIndex, ShardOf;
    if ops != [] {
      OwnOpsTouch(h, idx, ops[..|ops| - 1], s);
    }
  }

  lemma OthersApartUndisturbed(h: Hasher, idx: Index, after: seq<Op>, key: Key)
    requires Fit(idx) && idx.geo.blocks > 0 && OthersApart(idx.geo, h, after, key)
    ensures Projection.Undisturbed(h, idx, after, key)
  {
    hide Retention.Undisturbed, Projection.ShardOps, ShardOf, RouteIn, Apart;
    var s := ShardOf(idx.geo, h(key).hash);
    var own := Projection.ShardOps(h, idx, after, s);
    RoutesIn(idx.geo, h, s);
    Projection.HasBlocks(h, idx.geo, key);
    Projection.ShardOpsAreOps(h, idx, after, s);
    OwnOpsTouch(h, idx, after, s);
    forall i | 0 <= i < |own|
      ensures own[i] in after
      ensures own[i].Note? && own[i].key != key ==> Apart(idx.geo, h(own[i].key).hash, h(key).hash)
      ensures own[i].Note? ==> ShardOf(idx.geo, h(own[i].key).hash) == s
    {
      assert own[i] in own;
    }
    ApartUndisturbed(idx.geo, h, idx.shards[s], own, key);
  }

  /**
    After any history: what a proxy records is reported by every lookup up to (G-1)*I
    later, if everything else it then records is placed apart from it.
   */
  lemma OthersApartIsRemembered(h: Hasher, utf8: Utf8, steps: seq<Step>, id: nat, note: Op, after: seq<Op>, p: Slot,
                                now: u64)
    requires InOrder(steps, note.now) && id in Happen(h, utf8, steps).proxies
    requires note.Note? && note.key != [] && Has(note.bits, p) && note.now <= now && Timely(after, now)
    requires forall i :: 0 <= i < |after| ==> note.now <= after[i].now
    ensures var idx := Happen(h, utf8, steps).proxies[id].index;
            && 0 < idx.geo.interval < U64_MAX && idx.geo.blocks > 0
            && now <= note.now + Projection.LeastRetention(idx.geo)
            && OthersApart(idx.geo, h, after, note.key) ==>
              Has(AnswerIndex(h, RunIndex(h, ApplyIndex(h, idx, note), after), note.key, now), p)
  {
    hide Happen, AnswerIndex, RunIndex, ApplyIndex, Projection.Undisturbed, OthersApart, Projection.LeastRetention,
         InOrder, Timely;
    var idx := Happen(h, utf8, steps).proxies[id].index;
    Longest.RecordedIsRemembered(h, utf8, steps, id, note, after, p, now);
    if idx.geo.blocks > 0 && OthersApart(idx.geo, h, after, note.key) {
      OthersApartUndisturbed(h, ApplyIndex(h, idx, note), after, note.key);
    }
  }
}
