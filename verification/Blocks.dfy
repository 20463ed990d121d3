/**
  Two-slot fingerprint blocks and the generations made of them.

  An occupied slot keeps a 64-bit fingerprint, a 16-bit confirmation tag, the exact
  message key and the provider slots known to be missing that message.  A zero hash marks
  a vacant slot in the proxy; here it is the constructor `Vacant`.
 */
module Blocks {
  import opened Words

  type Key = seq<byte>
  type Hash = x: u64 | x != 0 witness 1
  type Tag = x: nat | x < 0x1_0000

  datatype Fingerprint = Fingerprint(hash: Hash, tag: Tag)

  datatype Cell = Vacant | Held(fp: Fingerprint, key: Key, missing: Mask)

  datatype Block = Block(first: Cell, second: Cell)

  const EMPTY_BLOCK := Block(Vacant, Vacant)

  datatype Outcome = Inserted | Updated | Replaced

  predicate Matches(c: Cell, fp: Fingerprint, key: Key) {
    c.Held? && c.fp == fp && c.key == key
  }

  /** Which slot of a full block is overwritten: bit 48 of the hash. */
  function VictimIsSecond(hash: Hash): bool { (hash / 0x1_0000_0000_0000) % 2 == 1 }

  function LookupCell(c: Cell, fp: Fingerprint, key: Key): Mask {
    if Matches(c, fp, key) then c.missing else NO_SLOTS
  }

  function LookupBlock(b: Block, fp: Fingerprint, key: Key): Mask {
    Or(LookupCell(b.first, fp, key), LookupCell(b.second, fp, key))
  }

  function OutcomeOf(b: Block, fp: Fingerprint, key: Key): Outcome {
    if Matches(b.first, fp, key) || Matches(b.second, fp, key) then Updated
    else if b.first.Vacant? || b.second.Vacant? then Inserted
    else Replaced
  }

  function InsertBlock(b: Block, fp: Fingerprint, key: Key, bits: Mask): Block {
    if Matches(b.first, fp, key) then b.(first := b.first.(missing := Or(b.first.missing, bits)))
    else if Matches(b.second, fp, key) then b.(second := b.second.(missing := Or(b.second.missing, bits)))
    else if b.first.Vacant? then b.(first := Held(fp, key, bits))
    else if b.second.Vacant? then b.(second := Held(fp, key, bits))
    else if VictimIsSecond(fp.hash) then b.(second := Held(fp, key, bits))
    else b.(first := Held(fp, key, bits))
  }

  /** The message whose evidence the insertion of `key` throws away. */
  function Victim(b: Block, fp: Fingerprint, key: Key): Option<Key> {
    if OutcomeOf(b, fp, key) != Replaced then None
    else if VictimIsSecond(fp.hash) then Some(b.second.key)
    else Some(b.first.key)
  }

  ghost predicate CellSays(c: Cell, key: Key, slot: Slot) {
    c.Held? && c.key == key && Has(c.missing, slot)
  }

  /** The block holds the fact "provider `slot` is missing message `key`". */
  ghost predicate Says(b: Block, key: Key, slot: Slot) {
    CellSays(b.first, key, slot) || CellSays(b.second, key, slot)
  }

  function HeldIn(b: Block): nat {
    (if b.first.Held? then 1 else 0) + (if b.second.Held? then 1 else 0)
  }

  /** An insertion adds nothing but the given facts about the given key. */
  lemma InsertSaysOnly(b: Block, fp: Fingerprint, key: Key, bits: Mask, k: Key, p: Slot)
    requires Says(InsertBlock(b, fp, key, bits), k, p)
    ensures Says(b, k, p) || (k == key && Has(bits, p))
  {
  }

  /** A fact is found where the block holds it under the fingerprint of its key. */
  predicate Finds(b: Block, fp: Fingerprint, key: Key, p: Slot) {
    Has(LookupBlock(b, fp, key), p)
  }

  lemma FindsMeans(b: Block, fp: Fingerprint, key: Key, p: Slot)
    ensures Finds(b, fp, key, p) <==>
            || (Matches(b.first, fp, key) && Has(b.first.missing, p))
            || (Matches(b.second, fp, key) && Has(b.second.missing, p))
    ensures Finds(b, fp, key, p) ==> Says(b, key, p)
  {
  }

  /** An insertion makes its facts visible. */
  lemma InsertFinds(b: Block, fp: Fingerprint, key: Key, bits: Mask, p: Slot)
    requires Has(bits, p)
    ensures Finds(InsertBlock(b, fp, key, bits), fp, key, p)
  {
    FindsMeans(InsertBlock(b, fp, key, bits), fp, key, p);
  }

  /** An insertion loses facts about its victim only. */
  lemma InsertKeeps(b: Block, fp: Fingerprint, key: Key, bits: Mask, f: Fingerprint, k: Key, p: Slot)
    requires Finds(b, f, k, p) && Victim(b, fp, key) != Some(k)
    ensures Finds(InsertBlock(b, fp, key, bits), f, k, p)
  {
    FindsMeans(b, f, k, p);
    FindsMeans(InsertBlock(b, fp, key, bits), f, k, p);
  }

  // ---------- generations ----------

  datatype Gen = Gen(startedAt: u64, occupied: nat, blocks: seq<Block>)

  function EmptyGen(blocks: nat): Gen { Gen(0, 0, seq(blocks, _ => EMPTY_BLOCK)) }

  function CountHeld(blocks: seq<Block>): nat {
    Sum(seq(|blocks|, i requires 0 <= i < |blocks| => HeldIn(blocks[i])))
  }

  /** Writes one observation into a generation; the occupancy counter follows the outcome. */
  function InsertGen(g: Gen, fp: Fingerprint, key: Key, bits: Mask, block: nat): Gen
    requires block < |g.blocks|
  {
    g.(blocks := g.blocks[block := InsertBlock(g.blocks[block], fp, key, bits)],
       occupied := g.occupied + if OutcomeOf(g.blocks[block], fp, key) == Inserted then 1 else 0)
  }

  lemma CountUpdate(blocks: seq<Block>, i: nat, b: Block)
    requires i < |blocks|
    ensures CountHeld(blocks[i := b]) == CountHeld(blocks) - HeldIn(blocks[i]) + HeldIn(b)
  {
    var counts := seq(|blocks|, j requires 0 <= j < |blocks| => HeldIn(blocks[j]));
    var updated := blocks[i := b];
    SumUpdate(counts, i, HeldIn(b));
    assert seq(|updated|, j requires 0 <= j < |updated| => HeldIn(updated[j])) == counts[i := HeldIn(b)];
  }

  lemma {:induction false} SumOfZeros(n: nat)
    ensures Sum(seq(n, _ => 0)) == 0
  {
    if n > 0 {
      SumOfZeros(n - 1);
      assert seq(n, _ => 0)[1..] == seq(n - 1, _ => 0);
    }
  }

  lemma CountEmpty(n: nat)
    ensures CountHeld(EmptyGen(n).blocks) == 0
  {
    var blocks := EmptyGen(n).blocks;
    SumOfZeros(n);
    assert seq(|blocks|, i requires 0 <= i < |blocks| => HeldIn(blocks[i])) == seq(n, _ => 0);
  }

  /** The occupancy counter stays the number of held slots. */
  lemma InsertGenCounts(g: Gen, fp: Fingerprint, key: Key, bits: Mask, block: nat)
    requires block < |g.blocks| && g.occupied == CountHeld(g.blocks)
    ensures var g' := InsertGen(g, fp, key, bits, block); g'.occupied == CountHeld(g'.blocks)
  {
    CountUpdate(g.blocks, block, InsertBlock(g.blocks[block], fp, key, bits));
  }
}
