/**
  Time to live by backend tier: doubled for every tier, saturating.
 */
module Ttl {
  import opened Words

  /** A backend tier. */
  type Tier = byte

  const MAX_TTL_TIER: nat := 63

  function EffectiveTtl(base: u64, tier: Tier): u64 { SatMul(base, Pow2(Min(tier, MAX_TTL_TIER))) }

  predicate Expired(at: u64, base: u64, tier: Tier, now: u64) { SatSub(now, at) >= EffectiveTtl(base, tier) }

  /** Tier 0 has the base time to live. */
  lemma BaseTier(base: u64)
    ensures EffectiveTtl(base, 0) == base
  {
    assert Pow2(0) == 1;
  }

  /** `base` doubled `n` times, without bound. */
  function Doubled(base: nat, n: nat): nat { if n == 0 then base else 2 * Doubled(base, n - 1) }

  lemma {:induction false} DoubledIs(base: nat, n: nat)
    ensures Doubled(base, n) == base * Pow2(n)
  {
    if n > 0 {
      DoubledIs(base, n - 1);
      var p := Pow2(n - 1);
      assert base * (2 * p) == 2 * (base * p);
    }
  }

  /** The time to live is the base, doubled once for each tier up to 63, as far as a word can hold it. */
  lemma TierDoubles(base: u64, tier: Tier)
    ensures EffectiveTtl(base, tier) == Min(U64_MAX, Doubled(base, Min(tier, 63)))
    ensures tier < 63 ==> EffectiveTtl(base, tier + 1) == Min(U64_MAX, 2 * EffectiveTtl(base, tier))
    ensures tier >= 63 ==> EffectiveTtl(base, tier) == EffectiveTtl(base, 63)
  {
    DoubledIs(base, Min(tier, 63));
    DoubledIs(base, Min(tier + 1, 63));
  }

  lemma {:induction false} PowGrows(a: nat, b: nat)
    requires a <= b
    ensures Pow2(a) <= Pow2(b)
  {
    if a < b {
      PowGrows(a, b - 1);
    }
  }

  /** A higher tier never lives shorter. */
  lemma HigherTierLivesLonger(base: u64, low: Tier, high: Tier)
    requires low <= high
    ensures EffectiveTtl(base, low) <= EffectiveTtl(base, high)
  {
    PowGrows(Min(low, MAX_TTL_TIER), Min(high, MAX_TTL_TIER));
    MulOrder(Pow2(Min(low, MAX_TTL_TIER)), Pow2(Min(high, MAX_TTL_TIER)), base);
  }
}
