/**
  Machine words, saturating arithmetic and little-endian bytes.

  Provider bitmaps are `usize` words in the proxy; here they are their 64 bits.
 */
module Words {

  const U64_MAX: nat := 0xFFFF_FFFF_FFFF_FFFF
  const MAX_BACKENDS: nat := 64

  type u64 = x: nat | x <= U64_MAX
  type byte = x: nat | x < 256
  /** A provider slot: a bit position of the 64-bit bitmap. */
  type Slot = x: nat | x < MAX_BACKENDS
  /** A provider bitmap. */
  type Mask = m: seq<bool> | |m| == MAX_BACKENDS witness Fill(MAX_BACKENDS, false)

  datatype Option<+T> = None | Some(value: T)

  function Min(a: nat, b: nat): nat { if a <= b then a else b }

  function Max(a: nat, b: nat): nat { if a >= b then a else b }

  function SatAdd(a: nat, b: nat): u64 { Min(U64_MAX, a + b) }

  function SatSub(a: nat, b: nat): nat { if a >= b then a - b else 0 }

  function SatMul(a: nat, b: nat): u64 { Min(U64_MAX, a * b) }

  function Pow2(n: nat): (p: nat)
    ensures p >= 1
  {
    if n == 0 then 1 else 2 * Pow2(n - 1)
  }

  /** Exclusive or of two words, one bit at a time. */
  function Xor(a: nat, b: nat): nat
    decreases a + b
  {
    if a == 0 && b == 0 then 0 else (a + b) % 2 + 2 * Xor(a / 2, b / 2)
  }

  // ---------- products and quotients ----------

  lemma MulOrder(a: nat, b: nat, d: nat)
    ensures a <= b ==> a * d <= b * d
  {
  }

  lemma QuotientIs(x: nat, d: nat, q: nat)
    requires d > 0 && q * d <= x < (q + 1) * d
    ensures x / d == q
  {
    var r := x / d;
    assert r * d <= x < (r + 1) * d by { assert x == r * d + x % d; }
    MulOrder(r + 1, q, d);
    MulOrder(q + 1, r, d);
  }

  lemma QuotientAtLeast(x: nat, d: nat, q: nat)
    requires d > 0 && q * d <= x
    ensures q <= x / d
  {
    var r := x / d;
    assert x == r * d + x % d && (r + 1) * d == r * d + d;
    MulOrder(r + 1, q, d);
  }

  lemma QuotientStep(x: nat, d: nat)
    requires 0 < d <= x
    ensures x / d == 1 + (x - d) / d
  {
    var q := (x - d) / d;
    assert x - d == q * d + (x - d) % d;
    assert (1 + q) * d == q * d + d && (2 + q) * d == q * d + 2 * d;
    QuotientIs(x, d, 1 + q);
  }

  // ---------- provider bitmaps ----------

  function Fill(n: nat, v: bool): (bits: seq<bool>)
    ensures |bits| == n && forall p :: 0 <= p < n ==> bits[p] == v
  {
    seq(n, _ => v)
  }

  const NO_SLOTS: Mask := Fill(MAX_BACKENDS, false)
  const ALL_SLOTS: Mask := Fill(MAX_BACKENDS, true)

  predicate Has(m: Mask, p: Slot) { m[p] }

  function Or(a: Mask, b: Mask): Mask { seq(MAX_BACKENDS, p requires 0 <= p < MAX_BACKENDS => a[p] || b[p]) }

  /** The bitmap with only slot `p`. */
  function Bit(p: Slot): Mask { NO_SLOTS[p := true] }

  lemma OrNothing(a: Mask)
    ensures Or(a, NO_SLOTS) == a && Or(NO_SLOTS, a) == a
  {
  }

  lemma OrEverything(a: Mask)
    ensures Or(ALL_SLOTS, a) == ALL_SLOTS
  {
  }

  /** The bitmap as the word that goes on the wire, slot 0 in the lowest bit. */
  function WordOf(bits: seq<bool>): nat {
    if bits == [] then 0 else (if bits[0] then 1 else 0) + 2 * WordOf(bits[1..])
  }

  function BitsOf(w: nat, n: nat): (bits: seq<bool>)
    ensures |bits| == n
  {
    if n == 0 then [] else [w % 2 == 1] + BitsOf(w / 2, n - 1)
  }

  lemma {:induction false} BitsOfWord(bits: seq<bool>)
    ensures WordOf(bits) < Pow2(|bits|) && BitsOf(WordOf(bits), |bits|) == bits
  {
    if bits != [] {
      BitsOfWord(bits[1..]);
      assert WordOf(bits) / 2 == WordOf(bits[1..]);
    }
  }

  lemma {:induction false} WordOfBits(w: nat, n: nat)
    requires w < Pow2(n)
    ensures WordOf(BitsOf(w, n)) == w
  {
    if n > 0 {
      WordOfBits(w / 2, n - 1);
      assert BitsOf(w, n)[1..] == BitsOf(w / 2, n - 1);
    }
  }

  lemma PowersOfTwo()
    ensures Pow2(64) == U64_MAX + 1
  {
    assert Pow2(2) == 4;
    PowDoubles(2, 4);
    PowDoubles(4, 0x10);
    PowDoubles(8, 0x100);
    PowDoubles(16, 0x1_0000);
    PowDoubles(32, 0x1_0000_0000);
  }

  lemma PowDoubles(n: nat, v: nat)
    requires Pow2(n) == v
    ensures Pow2(n + n) == v * v
  {
    PowAdds(n, n);
  }

  lemma {:induction false} PowAdds(a: nat, b: nat)
    ensures Pow2(a + b) == Pow2(a) * Pow2(b)
  {
    if a > 0 {
      PowAdds(a - 1, b);
      assert Pow2(a + b) == 2 * Pow2(a - 1 + b);
      assert 2 * (Pow2(a - 1) * Pow2(b)) == (2 * Pow2(a - 1)) * Pow2(b);
    }
  }

  // ---------- little-endian bytes ----------

  function Pow256(n: nat): (p: nat)
    ensures p >= 1
  {
    if n == 0 then 1 else 256 * Pow256(n - 1)
  }

  function ToLe(n: nat, width: nat): (bytes: seq<byte>)
    ensures |bytes| == width
  {
    if width == 0 then [] else [n % 256] + ToLe(n / 256, width - 1)
  }

  function FromLe(bytes: seq<byte>): nat
  {
    if bytes == [] then 0 else bytes[0] + 256 * FromLe(bytes[1..])
  }

  lemma {:induction false} LeRoundTrip(n: nat, width: nat)
    requires n < Pow256(width)
    ensures FromLe(ToLe(n, width)) == n
  {
    if width > 0 {
      LeRoundTrip(n / 256, width - 1);
      assert ToLe(n, width)[1..] == ToLe(n / 256, width - 1);
    }
  }

  lemma {:induction false} LeFromBytes(bytes: seq<byte>)
    ensures ToLe(FromLe(bytes), |bytes|) == bytes
  {
    if bytes != [] {
      LeFromBytes(bytes[1..]);
    }
  }

  lemma {:induction false} FromLeBound(bytes: seq<byte>)
    ensures FromLe(bytes) < Pow256(|bytes|)
  {
    if bytes != [] {
      FromLeBound(bytes[1..]);
    }
  }

  lemma Widths()
    ensures Pow256(1) == 256 && Pow256(2) == 0x1_0000
    ensures Pow256(4) == 0x1_0000_0000
    ensures Pow256(8) == U64_MAX + 1
  {
    assert Pow256(3) == 0x100_0000;
    assert Pow256(4) == 0x1_0000_0000;
    assert Pow256(5) == 0x100_0000_0000;
    assert Pow256(6) == 0x1_0000_0000_0000;
    assert Pow256(7) == 0x100_0000_0000_0000;
  }

  // ---------- sums ----------

  function Sum(s: seq<nat>): nat
  {
    if s == [] then 0 else s[0] + Sum(s[1..])
  }

  lemma {:induction false} SumConcat(s: seq<nat>, t: seq<nat>)
    ensures Sum(s + t) == Sum(s) + Sum(t)
  {
    if s == [] {
      assert s + t == t;
    } else {
      SumConcat(s[1..], t);
      assert (s + t)[1..] == s[1..] + t;
    }
  }

  lemma {:induction false} SumUpdate(s: seq<nat>, i: nat, v: nat)
    requires i < |s|
    ensures Sum(s[i := v]) == Sum(s) - s[i] + v
  {
    if i == 0 {
      assert s[0 := v][1..] == s[1..];
    } else {
      SumUpdate(s[1..], i - 1, v);
      assert s[i := v][1..] == s[1..][i - 1 := v];
    }
  }
}
