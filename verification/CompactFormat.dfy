/** Compact numbers with a language's own suffixes: the tier, and the tenths of it that are shown. */
module CompactFormat {

  /** Index of the last suffix ("", Tsd., Mio., Mrd., Bio.). */
  const LAST_TIER: nat := 4

  /** 1000 to the power of a tier. */
  function Scale(tier: nat): (s: real)
    requires tier <= LAST_TIER
    ensures s >= 1.0
  {
    if tier == 0 then 1.0
    else if tier == 1 then 1_000.0
    else if tier == 2 then 1_000_000.0
    else if tier == 3 then 1_000_000_000.0
    else 1_000_000_000_000.0
  }

  /** `Math.round`: the nearest integer, halves upwards. */
  function Round(x: real): int { (x + 0.5).Floor }

  function Magnitude(value: real): real { if value < 0.0 then -value else value }

  function Tenths(magnitude: real, tier: nat): int
    requires tier <= LAST_TIER
  {
    Round(magnitude * 10.0 / Scale(tier))
  }

  datatype Compact = Compact(negative: bool, tier: nat, tenths: int)

  /** The number a reader of the compact form sees. */
  function Shown(c: Compact): real
    requires c.tier <= LAST_TIER
  {
    if c.negative then -ShownMagnitude(c.tenths, c.tier) else ShownMagnitude(c.tenths, c.tier)
  }

  function ShownMagnitude(tenths: int, tier: nat): real
    requires tier <= LAST_TIER
  {
    tenths as real / 10.0 * Scale(tier)
  }

  /** The highest tier the magnitude reaches. */
  predicate IsTier(magnitude: real, tier: nat) {
    tier <= LAST_TIER && (tier > 0 ==> magnitude >= Scale(tier)) && (tier < LAST_TIER ==> magnitude < Scale(tier + 1))
  }

  /** The reached tier, or the next one when the tenths round up to 1000 of it. */
  predicate IsCompact(value: real, c: Compact) {
    && c.tier <= LAST_TIER
    && c.negative == (value < 0.0)
    && c.tenths == Tenths(Magnitude(value), c.tier)
    && (|| (IsTier(Magnitude(value), c.tier) && (c.tier < LAST_TIER ==> c.tenths < 10_000))
        || (&& c.tier > 0 && IsTier(Magnitude(value), c.tier - 1)
            && Tenths(Magnitude(value), c.tier - 1) >= 10_000))
  }

  method SuffixCompact(value: real) returns (c: Compact)
    ensures IsCompact(value, c)
  {
    var magnitude := Magnitude(value);
    var tier := 0;
    while tier < LAST_TIER && magnitude >= Scale(tier + 1)
      invariant tier <= LAST_TIER
      invariant tier > 0 ==> magnitude >= Scale(tier)
    {
      tier := tier + 1;
    }
    var tenths := Tenths(magnitude, tier);
    if tenths >= 10_000 && tier < LAST_TIER {
      tier := tier + 1;
      tenths := Tenths(magnitude, tier);
    }
    c := Compact(value < 0.0, tier, tenths);
  }

  /** The magnitude lies within half a tenth of the tenths it is rounded to, below the upper half. */
  lemma TenthsBounds(magnitude: real, tier: nat)
    requires tier <= LAST_TIER
    ensures var t := Tenths(magnitude, tier) as real;
      (t - 0.5) * Scale(tier) <= 10.0 * magnitude < (t + 0.5) * Scale(tier)
  {
    if tier == 0 {
      assert magnitude * 10.0 / 1.0 == magnitude * 10.0;
    } else if tier == 1 {
    } else if tier == 2 {
    } else if tier == 3 {
    } else {
    }
  }

  /**
   * One promotion always suffices: below the last tier fewer than 1000.0 of it is shown, above the first at least
   * 1.0; what is shown is off by at most half a tenth of the tier.
   */
  lemma CompactBounds(value: real, c: Compact)
    requires IsCompact(value, c)
    ensures c.tier < LAST_TIER ==> c.tenths < 10_000
    ensures c.tier > 0 ==> c.tenths >= 10
    ensures c.tenths >= 0
    ensures -Scale(c.tier) / 20.0 <= Shown(c) - value <= Scale(c.tier) / 20.0
  {
    TenthsInRange(value, c);
    ShownIsNear(Magnitude(value), c.tier);
  }

  lemma TenthsInRange(value: real, c: Compact)
    requires IsCompact(value, c)
    ensures c.tier < LAST_TIER ==> c.tenths < 10_000
    ensures c.tier > 0 ==> c.tenths >= 10
    ensures c.tenths >= 0
  {
    TenthsBounds(Magnitude(value), c.tier);
    if c.tier > 0 { TenthsBounds(Magnitude(value), c.tier - 1); }
  }

  lemma ShownIsNear(magnitude: real, tier: nat)
    requires tier <= LAST_TIER
    ensures var s := ShownMagnitude(Tenths(magnitude, tier), tier);
      -Scale(tier) / 20.0 <= s - magnitude <= Scale(tier) / 20.0
  {
    TenthsBounds(magnitude, tier);
    if tier == 0 {
    } else if tier == 1 {
    } else if tier == 2 {
    } else if tier == 3 {
    } else {
    }
  }

  lemma ShownGrows(s: int, c: nat, t: int, d: nat)
    requires c <= d <= LAST_TIER && 0 <= s && 0 <= t
    requires c < d ==> s < 10_000 && t >= 10
    requires c == d ==> s <= t
    ensures 0.0 <= ShownMagnitude(s, c) <= ShownMagnitude(t, d)
  {
    ShownGrowsInTier(s, if c == d then t else 10_000, c);
    if c < d {
      ShownGrowsInTier(10, t, d);
      assert ShownMagnitude(10_000, c) <= ShownMagnitude(10, d);
    }
  }

  lemma ShownGrowsInTier(s: int, t: int, tier: nat)
    requires tier <= LAST_TIER && 0 <= s <= t
    ensures 0.0 <= ShownMagnitude(s, tier) <= ShownMagnitude(t, tier)
  {
    if tier == 0 {
    } else if tier == 1 {
    } else if tier == 2 {
    } else if tier == 3 {
    } else {
    }
  }

  /** In one tier tenths grow with the magnitude. */
  lemma TenthsGrow(v: real, w: real, tier: nat)
    requires tier <= LAST_TIER && v <= w
    ensures Tenths(v, tier) <= Tenths(w, tier)
  {
    TenthsBounds(v, tier);
    TenthsBounds(w, tier);
    if tier == 0 {
    } else if tier == 1 {
    } else if tier == 2 {
    } else if tier == 3 {
    } else {
    }
  }

  /** A magnitude that reaches a tier, or is rounded up to it, takes every larger one there. */
  lemma TierOrder(v: real, w: real, c: Compact, d: Compact)
    requires IsCompact(v, c) && IsCompact(w, d) && Magnitude(v) <= Magnitude(w)
    ensures c.tier <= d.tier
  {
    if c.tier == d.tier + 1 { TenthsGrow(Magnitude(v), Magnitude(w), d.tier); }
  }

  lemma TierNeverFalls(v: real, w: real, c: Compact, d: Compact)
    requires IsCompact(v, c) && IsCompact(w, d) && Magnitude(v) <= Magnitude(w)
    ensures c.tier < d.tier || (c.tier == d.tier && c.tenths <= d.tenths)
  {
    TierOrder(v, w, c, d);
    if c.tier == d.tier { TenthsGrow(Magnitude(v), Magnitude(w), c.tier); }
  }

  /** A larger value is never shown as a smaller one, also across tiers, promotions and zero. */
  lemma CompactMonotone(v: real, w: real, c: Compact, d: Compact)
    requires IsCompact(v, c) && IsCompact(w, d) && v <= w
    ensures Shown(c) <= Shown(d)
  {
    TenthsInRange(v, c);
    TenthsInRange(w, d);
    if v >= 0.0 {
      TierNeverFalls(v, w, c, d);
      ShownGrows(c.tenths, c.tier, d.tenths, d.tier);
    } else if w < 0.0 {
      TierNeverFalls(w, v, d, c);
      ShownGrows(d.tenths, d.tier, c.tenths, c.tier);
    } else {
      ShownGrowsInTier(0, c.tenths, c.tier);
      ShownGrowsInTier(0, d.tenths, d.tier);
    }
  }
}
