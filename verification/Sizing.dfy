/** How many samples each tier gets: fixed sizes, scaled to a share of the memory. */
module Sizing {
  const STORE_TIERS: nat := 3
  const TIER_INTERVAL: seq<nat> := [1, 15, 300]
  const TIER_CAPACITY: seq<nat> := [1800, 2880, 8640]
  const TIER_MIN_CAPACITY: seq<nat> := [300, 720, 576]

  function Max(a: nat, b: nat): nat { if a < b then b else a }

  function FineInterval(base: nat): nat { Max(1, base) }

  function PerSample(nMetrics: nat): nat { nMetrics * 4 + 8 }

  /** 0.015 of the memory, as a whole number of bytes. */
  function Budget(memory: nat): nat { memory * 15 / 1000 }

  function Unscaled(base: nat, i: nat): (c: nat)
    requires i < STORE_TIERS
    ensures c > 0
  {
    if i == 0 then Max(TIER_MIN_CAPACITY[0], TIER_CAPACITY[0] / FineInterval(base)) else TIER_CAPACITY[i]
  }

  function UnscaledTotal(base: nat): (t: nat)
    ensures t > 0
  {
    Unscaled(base, 0) + Unscaled(base, 1) + Unscaled(base, 2)
  }

  function Wanted(nMetrics: nat, base: nat): (w: nat)
    ensures w > 0
  {
    MulPositive(UnscaledTotal(base), PerSample(nMetrics));
    UnscaledTotal(base) * PerSample(nMetrics)
  }

  /** A memory of 0 stands for an unreadable /proc/meminfo. */
  predicate Scales(nMetrics: nat, base: nat, memory: nat)
  {
    memory > 0 && Wanted(nMetrics, base) > Budget(memory)
  }

  /** Whole-number division, with what it means spelled out. */
  function Quotient(a: nat, w: nat): (q: nat)
    requires w > 0
    ensures q * w <= a < q * w + w
  {
    var q := a / w;
    assert a == w * q + a % w;
    q
  }

  /** What the scale factor budget / wanted leaves of a capacity. */
  function Share(nMetrics: nat, base: nat, memory: nat, i: nat): nat
    requires i < STORE_TIERS
  {
    Quotient(Unscaled(base, i) * Budget(memory), Wanted(nMetrics, base))
  }

  function Capacity(nMetrics: nat, base: nat, memory: nat, i: nat): nat
    requires i < STORE_TIERS
  {
    if Scales(nMetrics, base, memory) then Max(TIER_MIN_CAPACITY[i], Share(nMetrics, base, memory, i))
    else Unscaled(base, i)
  }

  function StoreBytes(nMetrics: nat, base: nat, memory: nat): nat
  {
    Capacity(nMetrics, base, memory, 0) * PerSample(nMetrics)
    + Capacity(nMetrics, base, memory, 1) * PerSample(nMetrics)
    + Capacity(nMetrics, base, memory, 2) * PerSample(nMetrics)
  }

  lemma {:induction false} MulPositive(a: nat, b: nat)
    requires a > 0 && b > 0
    ensures a * b > 0
  {
  }

  lemma {:induction false} MulMonotone(a: nat, b: nat, p: nat)
    requires a <= b
    ensures a * p <= b * p
  {
  }

  /** A share of a capacity by a factor below one is no larger than the capacity. */
  lemma {:induction false} ShareBelow(q: nat, c: nat, b: nat, w: nat)
    requires w > 0 && b <= w && q * w <= c * b
    ensures q <= c
  {
    MulMonotone(b, w, c);
    assert q * w <= c * w;
    CancelFactor(q, c, w);
  }

  lemma {:induction false} CancelFactor(q: nat, c: nat, w: nat)
    requires w > 0 && q * w <= c * w
    ensures q <= c
  {
    assert (c + 1) * w == c * w + w;
    if q > c {
      MulMonotone(c + 1, q, w);
    }
  }

  /** Scaling never goes under a tier's minimum or over its full size. */
  lemma {:induction false} CapacityWithinBounds(nMetrics: nat, base: nat, memory: nat, i: nat)
    requires i < STORE_TIERS
    ensures TIER_MIN_CAPACITY[i] <= Capacity(nMetrics, base, memory, i) <= Unscaled(base, i)
  {
    if Scales(nMetrics, base, memory) {
      ShareBelow(Share(nMetrics, base, memory, i), Unscaled(base, i), Budget(memory), Wanted(nMetrics, base));
    }
  }

  /** The three shares together stay within the budget. */
  lemma {:induction false} SharesWithinBudget(nMetrics: nat, base: nat, memory: nat)
    requires Scales(nMetrics, base, memory)
    ensures (Share(nMetrics, base, memory, 0) + Share(nMetrics, base, memory, 1) + Share(nMetrics, base, memory, 2))
            * PerSample(nMetrics) <= Budget(memory)
  {
    var b, w, p, t := Budget(memory), Wanted(nMetrics, base), PerSample(nMetrics), UnscaledTotal(base);
    var s0, s1, s2 := Share(nMetrics, base, memory, 0), Share(nMetrics, base, memory, 1),
                      Share(nMetrics, base, memory, 2);
    SumTimes(s0, s1, s2, w);
    SumTimes(Unscaled(base, 0), Unscaled(base, 1), Unscaled(base, 2), b);
    hide Share, Unscaled, Budget;
    CancelTotal(s0 + s1 + s2, p, t, b);
  }

  lemma {:induction false} SumTimes(x: nat, y: nat, z: nat, w: nat)
    ensures (x + y + z) * w == x * w + y * w + z * w
  {
  }

  lemma {:induction false} CancelTotal(s: nat, p: nat, t: nat, b: nat)
    requires t > 0 && s * (t * p) <= t * b
    ensures s * p <= b
  {
    assert s * (t * p) == (s * p) * t;
    CancelFactor(s * p, b, t);
  }

  /** Record memory stays within the budget unless a minimum binds, and exceeds it by
      no more than the minima themselves in every case. */
  lemma {:induction false} MemoryWithinBudget(nMetrics: nat, base: nat, memory: nat)
    requires memory > 0
    ensures (forall i :: 0 <= i < STORE_TIERS ==>
               Scales(nMetrics, base, memory) ==> Share(nMetrics, base, memory, i) >= TIER_MIN_CAPACITY[i])
            ==> StoreBytes(nMetrics, base, memory) <= Budget(memory)
    ensures StoreBytes(nMetrics, base, memory) <=
            Budget(memory) + (TIER_MIN_CAPACITY[0] + TIER_MIN_CAPACITY[1] + TIER_MIN_CAPACITY[2]) * PerSample(nMetrics)
  {
    var p := PerSample(nMetrics);
    var k0, k1, k2 := Capacity(nMetrics, base, memory, 0), Capacity(nMetrics, base, memory, 1),
                      Capacity(nMetrics, base, memory, 2);
    var m := TIER_MIN_CAPACITY[0] + TIER_MIN_CAPACITY[1] + TIER_MIN_CAPACITY[2];
    SumTimes(k0, k1, k2, p);
    if Scales(nMetrics, base, memory) {
      SharesWithinBudget(nMetrics, base, memory);
      var s := Share(nMetrics, base, memory, 0) + Share(nMetrics, base, memory, 1) + Share(nMetrics, base, memory, 2);
      assert k0 + k1 + k2 <= s + m;
      hide Share, Unscaled, Budget, PerSample;
      BytesBound(k0 + k1 + k2, s, m, p, Budget(memory));
    } else {
      assert Wanted(nMetrics, base) == (k0 + k1 + k2) * p;
    }
  }

  lemma {:induction false} BytesBound(k: nat, s: nat, m: nat, p: nat, b: nat)
    requires k <= s + m && s * p <= b
    ensures k * p <= b + m * p
  {
    MulMonotone(k, s + m, p);
    assert (s + m) * p == s * p + m * p;
  }

  /** The fine window in seconds. */
  function FineSpan(nMetrics: nat, base: nat, memory: nat): nat
  {
    FineInterval(base) * Capacity(nMetrics, base, memory, 0)
  }

  lemma {:induction false} UnscaledFine(base: nat)
    ensures base <= 1 ==> Unscaled(base, 0) == 1800
    ensures base >= 6 ==> Unscaled(base, 0) == 300
    ensures 1 <= base <= 6 ==> base * Unscaled(base, 0) == 1800 && Unscaled(base, 0) >= 300
    ensures UnscaledTotal(base) == Unscaled(base, 0) + 11520
  {
    if base >= 7 {
      SlowQuotient(base, 1800 / base);
    }
  }

  lemma {:induction false} SlowQuotient(s: nat, q: nat)
    requires s >= 7 && q == 1800 / s
    ensures q <= 300
  {
    var q := Quotient(1800, s);
    MulMonotone(7, s, q);
  }

  /** A slower interval asks for no more memory. */
  lemma {:induction false} SlowerWantsLess(nMetrics: nat, base: nat)
    ensures Wanted(nMetrics, base) <= Wanted(nMetrics, 1)
  {
    UnscaledFine(base);
    UnscaledFine(1);
    if 2 <= base <= 5 {
      MulMonotone(2, base, Unscaled(base, 0));
    }
    MulMonotone(UnscaledTotal(base), UnscaledTotal(1), PerSample(nMetrics));
  }

  /** Shares of one budget at 1 second and at a slower interval: c of 1800 slots and q of u,
      where each slot takes p bytes and w, v are the bytes wanted. */
  lemma {:induction false} SlowerShareSpansMore(base: nat, u: nat, p: nat, b: nat, c: nat, q: nat)
    requires 2 <= base <= 6 && base * u == 1800 && p > 0 && c >= 600
    requires c * (13320 * p) <= 1800 * b && u * b < (q + 1) * ((u + 11520) * p)
    ensures base * q > c
  {
    if base * q <= c {
      var total := u + 11520;
      assert 1800 * b == base * (u * b) by {
        MulGroups(base, u, b);
      }
      MulLess(u * b, (q + 1) * (total * p), base);
      assert base * ((q + 1) * (total * p)) == (base * q + base) * (total * p) by {
        MulSpread(base, q, total * p);
      }
      MulMonotone(base * q + base, c + base, total * p);
      assert c * (13320 * p) < (c + base) * (total * p);
      CancelSlot(c, base, total, p);
      SmallTotals(base, u, c);
    }
  }

  lemma {:induction false} MulGroups(x: nat, y: nat, z: nat)
    ensures x * (y * z) == (x * y) * z
  {
  }

  lemma {:induction false} MulLess(x: nat, y: nat, k: nat)
    requires x < y && k > 0
    ensures k * x < k * y
  {
  }

  lemma {:induction false} MulSpread(k: nat, q: nat, z: nat)
    ensures k * ((q + 1) * z) == (k * q + k) * z
  {
    MulGroups(k, q + 1, z);
  }

  lemma {:induction false} CancelSlot(c: nat, base: nat, total: nat, p: nat)
    requires p > 0 && c * (13320 * p) < (c + base) * (total * p)
    ensures c * 13320 < (c + base) * total
  {
    MulGroups(c, 13320, p);
    MulGroups(c + base, total, p);
    if (c + base) * total <= c * 13320 {
      MulMonotone((c + base) * total, c * 13320, p);
    }
  }

  lemma {:induction false} SmallTotals(base: nat, u: nat, c: nat)
    requires 2 <= base <= 6 && base * u == 1800 && c >= 600
    ensures (c + base) * (u + 11520) <= c * 13320
  {
    assert u == 1800 / base;
    match base {
      case 2 => assert u == 900;
      case 3 => assert u == 600;
      case 4 => assert u == 450;
      case 5 => assert u == 360;
      case _ => assert u == 300;
    }
  }

  /** A slower sample interval buys a longer fine window exactly from 7 seconds on, where
      the minimum capacity takes over, and from 2 seconds on where memory is so short that
      the tiers are scaled. Otherwise the capacity is divided by the interval. */
  lemma {:induction false} SlowerSamplingLongerWindowIff(nMetrics: nat, base: nat, memory: nat)
    ensures FineSpan(nMetrics, base, memory) > FineSpan(nMetrics, 1, memory)
            <==> base >= 7 || (base >= 2 && Scales(nMetrics, 1, memory))
  {
    UnscaledFine(base);
    UnscaledFine(1);
    CapacityWithinBounds(nMetrics, base, memory, 0);
    CapacityWithinBounds(nMetrics, 1, memory, 0);
    SlowerWantsLess(nMetrics, base);
    if base >= 7 {
      MulMonotone(7, base, 300);
    } else if base >= 2 {
      var c := Capacity(nMetrics, 1, memory, 0);
      MulMonotone(300, Capacity(nMetrics, base, memory, 0), base);
      if Scales(nMetrics, 1, memory) {
        ShareBelowAll(nMetrics, memory);
        if Scales(nMetrics, base, memory) && c >= 600 {
          ScaledSpansMore(nMetrics, base, memory);
        }
      }
    }
  }

  /** Where the tiers are scaled at one second, the fine one gets less than all its slots. */
  lemma {:induction false} ShareBelowAll(nMetrics: nat, memory: nat)
    requires Scales(nMetrics, 1, memory)
    ensures Capacity(nMetrics, 1, memory, 0) < 1800
  {
    var b, w, q := Budget(memory), Wanted(nMetrics, 1), Share(nMetrics, 1, memory, 0);
    UnscaledFine(1);
    MulLess(b, w, 1800);
    if q >= 1800 {
      MulMonotone(1800, q, w);
    }
  }

  lemma {:induction false} ScaledSpansMore(nMetrics: nat, base: nat, memory: nat)
    requires 2 <= base <= 6 && Scales(nMetrics, 1, memory) && Scales(nMetrics, base, memory)
    requires Capacity(nMetrics, 1, memory, 0) >= 600
    ensures base * Capacity(nMetrics, base, memory, 0) > Capacity(nMetrics, 1, memory, 0)
  {
    UnscaledFine(base);
    UnscaledFine(1);
    var u, p, b := Unscaled(base, 0), PerSample(nMetrics), Budget(memory);
    var c, q := Share(nMetrics, 1, memory, 0), Share(nMetrics, base, memory, 0);
    assert (q + 1) * ((u + 11520) * p) == q * ((u + 11520) * p) + (u + 11520) * p by {
      MulNext(q, (u + 11520) * p);
    }
    SlowerShareSpansMore(base, u, p, b, c, q);
    MulMonotone(q, Capacity(nMetrics, base, memory, 0), base);
  }

  lemma {:induction false} MulNext(q: nat, z: nat)
    ensures (q + 1) * z == q * z + z
  {
  }

  /** A recorder with 256 MiB and 200 metrics: 2 seconds buy 722 seconds instead of 673. */
  lemma {:induction false} SmallMemoryWindow()
    ensures FineSpan(200, 1, 268435456) == 673 && FineSpan(200, 2, 268435456) == 722
  {
    QuotientIs(1800 * 4026531, 13320 * 808, 673);
    QuotientIs(900 * 4026531, 12420 * 808, 361);
  }

  lemma {:induction false} QuotientIs(a: nat, w: nat, q: nat)
    requires w > 0 && q * w <= a < q * w + w
    ensures Quotient(a, w) == q
  {
    var r := Quotient(a, w);
    if r < q {
      MulMonotone(r + 1, q, w);
      MulNext(r, w);
    } else if r > q {
      MulMonotone(q + 1, r, w);
      MulNext(q, w);
    }
  }

  function PartialTotal(base: nat, k: nat): nat
    requires k <= STORE_TIERS
  {
    if k == 0 then 0 else PartialTotal(base, k - 1) + Unscaled(base, k - 1)
  }

  method WantedBytes(capacity: array<nat>, base: nat, perSample: nat) returns (wanted: nat)
    requires capacity.Length == STORE_TIERS
    requires forall k :: 0 <= k < STORE_TIERS ==> capacity[k] == Unscaled(base, k)
    ensures wanted == UnscaledTotal(base) * perSample
  {
    hide Unscaled;
    wanted := 0;
    for i := 0 to STORE_TIERS
      invariant wanted == PartialTotal(base, i) * perSample
    {
      assert (PartialTotal(base, i) + capacity[i]) * perSample == wanted + capacity[i] * perSample;
      wanted := wanted + capacity[i] * perSample;
    }
    assert PartialTotal(base, 3) == PartialTotal(base, 2) + Unscaled(base, 2);
    assert PartialTotal(base, 2) == PartialTotal(base, 1) + Unscaled(base, 1);
  }

  /** The sizing part of store_new. */
  method TierCapacities(nMetrics: nat, base: nat, memory: nat) returns (capacity: array<nat>)
    ensures fresh(capacity) && capacity.Length == STORE_TIERS
    ensures forall i :: 0 <= i < STORE_TIERS ==> capacity[i] == Capacity(nMetrics, base, memory, i)
  {
    capacity := new nat[STORE_TIERS];
    for i := 0 to STORE_TIERS
      invariant forall k :: 0 <= k < i ==> capacity[k] == TIER_CAPACITY[k]
    {
      capacity[i] := TIER_CAPACITY[i];
    }
    capacity[0] := Max(TIER_MIN_CAPACITY[0], TIER_CAPACITY[0] / FineInterval(base));
    if memory > 0 {
      var budget, perSample := Budget(memory), PerSample(nMetrics);
      var wanted := WantedBytes(capacity, base, perSample);
      assert wanted == Wanted(nMetrics, base);
      if wanted > budget {
        for i := 0 to STORE_TIERS
          invariant forall k :: 0 <= k < i ==> capacity[k] == Capacity(nMetrics, base, memory, k)
          invariant forall k :: i <= k < STORE_TIERS ==> capacity[k] == Unscaled(base, k)
        {
          hide Unscaled, Budget, PerSample, Quotient;
          capacity[i] := Max(TIER_MIN_CAPACITY[i], Quotient(capacity[i] * budget, wanted));
        }
      }
    }
  }

  /** What the tiers are made for, in seconds: at one sample a second and with memory enough
      30 minutes, 12 hours and 30 days, of one row a second, every 15 seconds and every five
      minutes; and however short the memory never less than 5 minutes, 3 hours and 2 days. */
  lemma {:induction false} WindowsOfTiers(nMetrics: nat, memory: nat)
    ensures FineInterval(1) == 1 && TIER_INTERVAL[1] == 15 && TIER_INTERVAL[2] == 300
    ensures var fine, medium, coarse := Capacity(nMetrics, 1, memory, 0), Capacity(nMetrics, 1, memory, 1),
                                        Capacity(nMetrics, 1, memory, 2);
            && 300 <= fine <= 1800 && 3 * 3600 <= medium * 15 <= 12 * 3600 && 2 * 86400 <= coarse * 300 <= 30 * 86400
            && (!Scales(nMetrics, 1, memory) ==> fine == 1800 && medium * 15 == 12 * 3600 && coarse * 300 == 30 * 86400)
  {
    CapacityWithinBounds(nMetrics, 1, memory, 0);
    CapacityWithinBounds(nMetrics, 1, memory, 1);
    CapacityWithinBounds(nMetrics, 1, memory, 2);
    hide Share, Scales;
  }
}
