/** What a series request gets: the samples of one tier since a point in time, at most
    4000 of them, with one timestamp array for all metrics. */
module Query {
  import opened Samples
  import opened Rings
  import opened Stores
  import B = Buckets
  import Z = Sizing

  const MAX_SERIES_POINTS: nat := 4000

  ghost predicate Spaced(xs: seq<Sample>, gap: nat)
  {
    forall i :: 0 < i < |xs| ==> xs[i].ts - xs[i - 1].ts >= gap
  }

  lemma {:induction false} SpacedFar(xs: seq<Sample>, gap: nat, i: nat, j: nat)
    requires Spaced(xs, gap) && i <= j < |xs|
    ensures xs[j].ts - xs[i].ts >= (j - i) * gap
    decreases j
  {
    if i < j {
      SpacedFar(xs, gap, i, j - 1);
      assert (j - i) * gap == (j - 1 - i) * gap + gap;
    }
  }

  ghost predicate InTimeOrder(xs: seq<Sample>)
  {
    forall i, j :: 0 <= i < j < |xs| ==> xs[i].ts <= xs[j].ts
  }

  lemma {:induction false} SpacedInOrder(xs: seq<Sample>, gap: nat)
    requires Spaced(xs, gap)
    ensures InTimeOrder(xs)
  {
    forall i, j | 0 <= i < j < |xs| ensures xs[i].ts <= xs[j].ts {
      SpacedFar(xs, gap, i, j);
      Z.MulMonotone(0, j - i, gap);
    }
  }

  // --------------------------------------------------- which samples match

  /** On samples in time order the match is a suffix: everything at or after the time
      and nothing before it. */
  lemma {:induction false} SinceIsSuffix(xs: seq<Sample>, since: int) returns (j: nat)
    requires InTimeOrder(xs)
    ensures j <= |xs| && Since(xs, since) == xs[j..]
    ensures forall k :: 0 <= k < j ==> xs[k].ts < since
    ensures forall k :: j <= k < |xs| ==> xs[k].ts >= since
    decreases |xs|
  {
    if xs == [] {
      return 0;
    }
    var last := |xs| - 1;
    var front := xs[..last];
    assert forall k :: 0 <= k < last ==> front[k] == xs[k];
    j := SinceIsSuffix(front, since);
    hide InTimeOrder;
    if xs[last].ts < since {
      assert j == last by {
        LastIsNewest(xs, j, since);
      }
      j := |xs|;
    } else {
      assert xs[j..] == front[j..] + [xs[last]];
    }
  }

  lemma {:induction false} LastIsNewest(xs: seq<Sample>, j: nat, since: int)
    requires InTimeOrder(xs) && xs != [] && j < |xs| && xs[|xs| - 1].ts < since
    requires forall k :: j <= k < |xs| - 1 ==> xs[k].ts >= since
    ensures j == |xs| - 1
  {
    var x, last := xs[j], xs[|xs| - 1];
  }

  lemma {:induction false} SinceNoLonger(xs: seq<Sample>, since: int)
    ensures |Since(xs, since)| <= |xs|
    decreases |xs|
  {
    if xs != [] {
      SinceNoLonger(xs[..|xs| - 1], since);
    }
  }

  /** Any two samples lie at least gap apart, in whatever order they are held. */
  ghost predicate Apart(xs: seq<Sample>, gap: nat)
  {
    forall i, j :: 0 <= i < |xs| && 0 <= j < |xs| && i != j ==> FarFrom(xs[i], xs[j], gap)
  }

  predicate FarFrom(x: Sample, y: Sample, gap: nat) { x.ts - y.ts >= gap || y.ts - x.ts >= gap }

  lemma {:induction false} SpacedIsApart(xs: seq<Sample>, gap: nat)
    requires Spaced(xs, gap)
    ensures Apart(xs, gap)
  {
    forall i, j | 0 <= i < |xs| && 0 <= j < |xs| && i != j ensures FarFrom(xs[i], xs[j], gap) {
      var lo, hi := if i < j then i else j, if i < j then j else i;
      SpacedFar(xs, gap, lo, hi);
      Z.MulMonotone(1, hi - lo, gap);
    }
  }

  lemma {:induction false} Newest(xs: seq<Sample>) returns (k: nat)
    requires xs != []
    ensures k < |xs| && forall i :: 0 <= i < |xs| ==> xs[i].ts <= xs[k].ts
    decreases |xs|
  {
    var last := |xs| - 1;
    if last == 0 {
      k := 0;
    } else {
      k := Newest(xs[..last]);
      assert forall i :: 0 <= i < last ==> xs[..last][i] == xs[i];
      if xs[last].ts > xs[k].ts {
        k := last;
      }
    }
  }

  ghost predicate Within(xs: seq<Sample>, lo: int, hi: int)
  {
    forall i :: 0 <= i < |xs| ==> lo <= xs[i].ts <= hi
  }

  lemma {:induction false} WithoutNewest(xs: seq<Sample>, gap: nat, k: nat, lo: int, hi: int)
    requires Apart(xs, gap) && Within(xs, lo, hi) && k < |xs| && Within(xs, lo, xs[k].ts)
    ensures var ys := xs[..k] + xs[k + 1..]; Apart(ys, gap) && Within(ys, lo, xs[k].ts - gap)
  {
    var ys := xs[..k] + xs[k + 1..];
    assert forall i :: 0 <= i < |ys| ==> ys[i] == xs[if i < k then i else i + 1];
    forall i | 0 <= i < |ys| ensures lo <= ys[i].ts <= xs[k].ts - gap {
      assert FarFrom(xs[if i < k then i else i + 1], xs[k], gap);
    }
    forall i, j | 0 <= i < |ys| && 0 <= j < |ys| && i != j ensures FarFrom(ys[i], ys[j], gap) {
      assert FarFrom(xs[if i < k then i else i + 1], xs[if j < k then j else j + 1], gap);
    }
  }

  /** So many samples apart do not fit a shorter stretch of time. */
  lemma {:induction false} ApartFit(xs: seq<Sample>, gap: nat, lo: int, hi: int)
    requires Apart(xs, gap) && xs != [] && Within(xs, lo, hi)
    ensures (|xs| - 1) * gap <= hi - lo
    decreases |xs|
  {
    var k := Newest(xs);
    assert lo <= xs[k].ts <= hi;
    if |xs| > 1 {
      var ys := xs[..k] + xs[k + 1..];
      WithoutNewest(xs, gap, k, lo, hi);
      hide Apart, Within;
      ApartFit(ys, gap, lo, xs[k].ts - gap);
      OneGapMore(|ys|, gap);
    }
  }

  lemma {:induction false} OneGapMore(n: nat, gap: nat)
    ensures n * gap == (n - 1) * gap + gap
  {
  }

  lemma {:induction false} SinceFrom(xs: seq<Sample>, since: int, k: nat) returns (i: nat)
    requires k < |Since(xs, since)|
    ensures i < |xs| && xs[i] == Since(xs, since)[k]
    decreases |xs|
  {
    var front := xs[..|xs| - 1];
    if k < |Since(front, since)| {
      i := SinceFrom(front, since, k);
    } else {
      i := |xs| - 1;
    }
  }

  lemma {:induction false} SinceApart(xs: seq<Sample>, since: int, gap: nat)
    requires Apart(xs, gap)
    ensures Apart(Since(xs, since), gap) && forall k :: 0 <= k < |Since(xs, since)| ==> Since(xs, since)[k].ts >= since
    decreases |xs|
  {
    if xs != [] {
      var last := |xs| - 1;
      var front := xs[..last];
      assert forall i :: 0 <= i < last ==> front[i] == xs[i];
      SinceApart(front, since, gap);
      var picked := Since(front, since);
      forall k | 0 <= k < |picked| ensures FarFrom(picked[k], xs[last], gap) && FarFrom(xs[last], picked[k], gap) {
        var i := SinceFrom(front, since, k);
      }
    }
  }

  /** Of samples at least gap apart, in any order, no more than a window holds match. */
  lemma {:induction false} MatchesFitWindow(xs: seq<Sample>, gap: nat, since: int, now: int)
    requires Apart(xs, gap) && forall i :: 0 <= i < |xs| ==> xs[i].ts <= now
    ensures var n := |Since(xs, since)|;
            n > 0 ==> (n - 1) * gap <= now - since
  {
    var picked := Since(xs, since);
    SinceApart(xs, since, gap);
    forall k | 0 <= k < |picked| ensures picked[k].ts <= now {
      var i := SinceFrom(xs, since, k);
    }
    if picked != [] {
      ApartFit(picked, gap, since, now);
    }
  }

  // ------------------------------------------------------ query completeness

  /** What a tier can hold when a request comes: rows of the process, no more than fit,
      none from the future, and in the coarse tier at least 300 seconds apart, though not
      in order after a crash. */
  ghost predicate Content(n: nat, tier: nat, capacity: nat, xs: seq<Sample>, now: int)
  {
    && |xs| <= capacity && (forall i :: 0 <= i < |xs| ==> |xs[i].row| == n && xs[i].ts <= now)
    && (tier == 2 ==> Apart(xs, Z.TIER_INTERVAL[2]))
  }

  /** The answer has every sample of the window. */
  ghost predicate Complete(xs: seq<Sample>, window: nat, now: int)
  {
    FirstN(Since(xs, now - window), MAX_SERIES_POINTS) == Since(xs, now - window)
  }

  ghost predicate AlwaysComplete(n: nat, tier: nat, capacity: nat, window: nat)
  {
    forall xs, now :: Content(n, tier, capacity, xs, now) ==> Complete(xs, window, now)
  }

  lemma {:induction false} QueryComplete(n: nat, tier: nat, capacity: nat, window: nat, xs: seq<Sample>, now: int)
    requires Content(n, tier, capacity, xs, now)
    requires capacity <= MAX_SERIES_POINTS || (tier == 2 && window < 1_200_000)
    ensures Complete(xs, window, now)
  {
    SinceNoLonger(xs, now - window);
    if capacity > MAX_SERIES_POINTS {
      MatchesFitWindow(xs, Z.TIER_INTERVAL[2], now - window, now);
    }
  }

  /** A sample every 300 seconds. */
  function Steady(n: nat, count: nat): (xs: seq<Sample>)
    ensures |xs| == count && forall k :: 0 <= k < count ==> |xs[k].row| == n && xs[k].ts == 300 * k + 300
  {
    seq(count, k requires 0 <= k < count => Sample(300 * k + 300, seq(n, _ => Present(0.0))))
  }

  /** From the second push on, each one closes a bucket of the coarse tier. */
  lemma {:induction false} SteadyRun(n: nat, count: nat)
    ensures var r := B.Run(n, 300, Steady(n, count));
            && |r.emitted| == (if count == 0 then 0 else count - 1)
            && r.acc.start == 300 * count
            && forall k :: 0 <= k < |r.emitted| ==> |r.emitted[k].row| == n && r.emitted[k].ts == 300 * k + 600
    decreases count
  {
    if count > 0 {
      SteadyRun(n, count - 1);
      assert Steady(n, count)[..count - 1] == Steady(n, count - 1);
    }
  }

  /** What the coarse tier of a process holds after 4002 such pushes. */
  function SteadyTier(n: nat, capacity: nat): seq<Sample>
  {
    LastN(B.Run(n, 300, Steady(n, 4002)).emitted, capacity)
  }

  /** For every window from 1,200,000 seconds on, which the code answers from the coarse
      tier, and every capacity over 4000 there is a run of pushes after which the answer
      leaves out the newest sample. */
  lemma {:induction false} LongQueryLosesNewest(n: nat, base: nat, capacity: nat, window: nat)
    requires window >= 1_200_000 && capacity > MAX_SERIES_POINTS
    ensures var xs, now := SteadyTier(n, capacity), 1_200_600;
            var picked := FirstN(Since(xs, now - window), MAX_SERIES_POINTS);
            && Content(n, 2, capacity, xs, now) && |xs| == 4001 && xs[4000].ts == now
            && |picked| == 4000 && xs[4000] !in picked && !Complete(xs, window, now)
    ensures base <= 10 ==> TierFor(window, Z.FineInterval(base), Z.TIER_INTERVAL[1]) == 2
  {
    var xs, now := SteadyTier(n, capacity), 1_200_600;
    SteadyRun(n, 4002);
    hide B.Run, Apart;
    assert Spaced(xs, 300);
    SpacedIsApart(xs, 300);
    SpacedInOrder(xs, 300);
    var j := SinceIsSuffix(xs, now - window);
    assert xs[0].ts == 600 && j == 0;
    assert xs[0..] == xs;
    assert forall k :: 0 <= k < 4000 ==> xs[k].ts < now;
    if base <= 10 {
      WindowInTiers(window, Z.FineInterval(base));
    }
  }

  lemma {:induction false} WindowInTiers(window: nat, interval: nat)
    requires window >= 1_200_000 && 1 <= interval <= 10
    ensures window / interval > 2000
  {
    var q := Z.Quotient(window, interval);
    if q <= 2000 {
      Z.MulMonotone(q + 1, 2001, interval);
      Z.MulMonotone(interval, 10, 2001);
      Z.MulNext(q, interval);
    }
  }

  /** A request is answered in full, whatever the tier it is answered from may hold, if and
      only if that tier has no more than 4000 slots or the window is under 1,200,000
      seconds. */
  lemma {:induction false} RequestCompleteIff(n: nat, base: nat, memory: nat, window: nat)
    ensures var tier := TierFor(window, Z.FineInterval(base), Z.TIER_INTERVAL[1]);
            var capacity := Z.Capacity(n, base, memory, tier);
            AlwaysComplete(n, tier, capacity, window) <==> capacity <= 4000 || window < 1_200_000
  {
    var tier := TierFor(window, Z.FineInterval(base), Z.TIER_INTERVAL[1]);
    var capacity := Z.Capacity(n, base, memory, tier);
    Z.CapacityWithinBounds(n, base, memory, tier);
    Z.UnscaledFine(base);
    hide Z.Capacity, Z.FineInterval, Content, Complete, Z.Unscaled;
    if capacity <= MAX_SERIES_POINTS || window < 1_200_000 {
      forall xs, now | Content(n, tier, capacity, xs, now) ensures Complete(xs, window, now) {
        QueryComplete(n, tier, capacity, window, xs, now);
      }
    } else {
      LongQueryLosesNewest(n, base, capacity, window);
      assert Content(n, tier, capacity, SteadyTier(n, capacity), 1_200_600);
    }
  }

  lemma {:induction false} EmittedLater(n: nat, interval: nat, xs: seq<Sample>)
    requires interval > 0 && B.Pushable(xs, n)
    ensures var emitted := B.Run(n, interval, xs).emitted;
            Spaced(emitted, interval) && (emitted != [] ==> xs != [] && emitted[0].ts >= xs[0].ts + interval)
  {
    var emitted := B.Run(n, interval, xs).emitted;
    forall i | 0 < i < |emitted| ensures emitted[i].ts - emitted[i - 1].ts >= interval {
      B.RowsSpaced(n, interval, xs, i - 1);
    }
    if emitted != [] {
      B.RunEmitsMeans(n, interval, xs);
      var s := B.Cut(xs, interval);
      assert B.ClosesAtLast(s.closed[0], B.StartOf(s.closed, xs[0].ts, 0), interval);
    }
  }

  /** Where the spacing comes from: saved rows that are spaced, followed by what one
      process emits on a clock that does not run backwards past them. */
  lemma {:induction false} CoarseTierSpaced(saved: seq<Sample>, n: nat, interval: nat, xs: seq<Sample>, capacity: nat)
    requires Spaced(saved, interval) && interval > 0 && B.Pushable(xs, n)
    requires saved != [] && xs != [] ==> saved[|saved| - 1].ts <= xs[0].ts
    ensures Spaced(LastN(saved + B.Run(n, interval, xs).emitted, capacity), interval)
  {
    var emitted := B.Run(n, interval, xs).emitted;
    EmittedLater(n, interval, xs);
    hide B.Run;
    var all := saved + emitted;
    forall i | 0 < i < |all| ensures all[i].ts - all[i - 1].ts >= interval {
      if i > |saved| {
        assert all[i] == emitted[i - |saved|] && all[i - 1] == emitted[i - 1 - |saved|];
      }
    }
  }

  /** The same for rows in any order, as a crash may leave them. */
  lemma {:induction false} CoarseTierApart(saved: seq<Sample>, n: nat, interval: nat, xs: seq<Sample>, capacity: nat)
    requires Apart(saved, interval) && interval > 0 && B.Pushable(xs, n)
    requires forall i :: 0 <= i < |saved| && xs != [] ==> saved[i].ts <= xs[0].ts
    ensures Apart(LastN(saved + B.Run(n, interval, xs).emitted, capacity), interval)
  {
    hide B.Run, Apart, Spaced, LastN;
    var emitted := B.Run(n, interval, xs).emitted;
    EmittedLater(n, interval, xs);
    SpacedIsApart(emitted, interval);
    SpacedInOrder(emitted, interval);
    if emitted != [] {
      assert forall j :: 0 <= j < |emitted| ==> emitted[0].ts <= emitted[j].ts;
      ApartJoins(saved, emitted, interval, xs[0].ts);
    } else {
      assert saved + emitted == saved;
    }
    ApartKept(saved + emitted, interval, capacity);
  }

  lemma {:induction false} ApartJoins(xs: seq<Sample>, ys: seq<Sample>, gap: nat, between: int)
    requires Apart(xs, gap) && Apart(ys, gap)
    requires forall i :: 0 <= i < |xs| ==> xs[i].ts <= between
    requires forall j :: 0 <= j < |ys| ==> between + gap <= ys[j].ts
    ensures Apart(xs + ys, gap)
  {
    var all := xs + ys;
    forall i, j | 0 <= i < |all| && 0 <= j < |all| && i != j ensures FarFrom(all[i], all[j], gap) {
      if i < |xs| && j < |xs| {
        assert FarFrom(xs[i], xs[j], gap);
      } else if i >= |xs| && j >= |xs| {
        assert FarFrom(ys[i - |xs|], ys[j - |xs|], gap);
      }
    }
  }

  lemma {:induction false} ApartKept(xs: seq<Sample>, gap: nat, capacity: nat)
    requires Apart(xs, gap)
    ensures Apart(LastN(xs, capacity), gap)
  {
    var kept := LastN(xs, capacity);
    var cut := |xs| - |kept|;
    forall i, j | 0 <= i < |kept| && 0 <= j < |kept| && i != j ensures FarFrom(kept[i], kept[j], gap) {
      assert kept[i] == xs[cut + i] && kept[j] == xs[cut + j];
    }
  }

  // ------------------------------------------- the reader behind the request

  /** The values of one column of the picked samples. */
  function Column(picked: seq<Sample>, m: nat): (c: seq<Reading>)
    requires forall k :: 0 <= k < |picked| ==> m < |picked[k].row|
    ensures |c| == |picked| && forall k :: 0 <= k < |picked| ==> c[k] == picked[k].row[m]
  {
    seq(|picked|, k requires 0 <= k < |picked| => picked[k].row[m])
  }

  function Times(picked: seq<Sample>): (t: seq<int>)
    ensures |t| == |picked| && forall k :: 0 <= k < |picked| ==> t[k] == picked[k].ts
  {
    seq(|picked|, k requires 0 <= k < |picked| => picked[k].ts)
  }

  /** The query loop of api_series_json: every wanted metric through the same two
      buffers, the timestamps kept from the first one that has any. They are right for
      all of them, and every column has their length. */
  method SeriesColumns(tier: Tier, wanted: seq<nat>, since: int)
    returns (columns: seq<seq<Reading>>, sharedTimes: seq<int>)
    requires tier.Valid() && forall w :: 0 <= w < |wanted| ==> wanted[w] < tier.nMetrics
    ensures var picked := FirstN(Since(Denote(tier.RingOf()), since), MAX_SERIES_POINTS);
            && |columns| == |wanted|
            && (wanted != [] ==> sharedTimes == Times(picked))
            && forall w :: 0 <= w < |wanted| ==>
                 (forall k :: 0 <= k < |picked| ==> wanted[w] < |picked[k].row|) &&
                 columns[w] == Column(picked, wanted[w])
  {
    hide Since, FirstN, Tier.RingOf, Denote, Tier.Valid;
    var times := new int[MAX_SERIES_POINTS](_ => 0);
    var values := new Reading[MAX_SERIES_POINTS](_ => Absent);
    ghost var picked := FirstN(Since(Denote(tier.RingOf()), since), MAX_SERIES_POINTS);
    columns, sharedTimes := [], [];
    var i := 0;
    while i < |wanted|
      invariant i == |columns| <= |wanted| && tier.Valid()
      invariant picked == FirstN(Since(Denote(tier.RingOf()), since), MAX_SERIES_POINTS)
      invariant i > 0 ==> sharedTimes == Times(picked)
      invariant i == 0 ==> sharedTimes == []
      invariant forall w :: 0 <= w < i ==>
                  (forall k :: 0 <= k < |picked| ==> wanted[w] < |picked[k].row|) &&
                  columns[w] == Column(picked, wanted[w])
      modifies times, values
    {
      var n := tier.Series(wanted[i], since, times, values, MAX_SERIES_POINTS);
      if sharedTimes == [] && n > 0 {
        sharedTimes := times[..n];
      }
      assert times[..n] == Times(picked);
      assert values[..n] == Column(picked, wanted[i]);
      columns := columns + [values[..n]];
      i := i + 1;
    }
  }
}
