/** The in-memory history: three rings of sample rows, the coarse ones fed with bucket
    means. */
module Stores {
  import opened Samples
  import opened Rings
  import B = Buckets
  import Z = Sizing

  /** First cell of a slot's row in the flat data array. */
  function RowStart(slot: nat, n: nat): nat { slot * n }

  /** Rows of different slots do not share a cell. */
  lemma {:induction false} RowsApart(s: nat, t: nat, n: nat)
    requires s < t
    ensures RowStart(s, n) + n <= RowStart(t, n)
    decreases t
  {
    assert RowStart(t, n) == RowStart(t - 1, n) + n;
    if s < t - 1 {
      RowsApart(s, t - 1, n);
    }
  }

  lemma {:induction false} SameElsewhere<T>(before: seq<T>, after: seq<T>, base: nat, n: nat, o: nat)
    requires |before| == |after| && base + n <= |before| && o + n <= |before|
    requires after[..base] == before[..base] && after[base + n..] == before[base + n..]
    requires o + n <= base || base + n <= o
    ensures after[o..o + n] == before[o..o + n]
  {
    forall i | o <= i < o + n ensures after[i] == before[i] {
      if o + n <= base {
        assert after[i] == after[..base][i] && before[i] == before[..base][i];
      } else {
        assert after[i] == after[base + n..][i - base - n] && before[i] == before[base + n..][i - base - n];
      }
    }
  }

  /** The part of a query one metric gets: samples at or after a time, oldest first. */
  function Since(xs: seq<Sample>, since: int): seq<Sample>
    decreases |xs|
  {
    if xs == [] then []
    else
      var front, x := Since(xs[..|xs| - 1], since), xs[|xs| - 1];
      if x.ts < since then front else front + [x]
  }

  function FirstN<T>(s: seq<T>, n: nat): seq<T>
  {
    if |s| <= n then s else s[..n]
  }

  /** A tier's ring, its open bucket, and whether someone listens to its appends. */
  datatype TierState = TierState(ring: Ring<Sample>, acc: B.Acc, called: bool)

  /** A row waiting for its tier's callback, which runs after the push. */
  datatype Pending = NoCall | Call(row: Row)

  /** A push into the fine tier: the sample itself. */
  function FinePush(s: TierState, x: Sample): (TierState, Pending)
    requires |s.ring.slots| > 0 && s.ring.head < |s.ring.slots| && s.ring.count <= |s.ring.slots|
  {
    (s.(ring := Rings.Append(s.ring, x)), if s.called then Call(x.row) else NoCall)
  }

  /** A push into a coarse tier: the mean row of the bucket it closes, if it closes one. */
  function CoarsePush(s: TierState, interval: nat, x: Sample): (TierState, Pending)
    requires |s.ring.slots| > 0 && s.ring.head < |s.ring.slots| && s.ring.count <= |s.ring.slots|
    requires B.Shaped(s.acc, |x.row|)
  {
    var step := B.Push(s.acc, interval, x);
    if step.emitted == [] then (s.(acc := step.acc), NoCall)
    else (TierState(Rings.Append(s.ring, step.emitted[0]), step.acc, s.called),
          if s.called then Call(step.emitted[0].row) else NoCall)
  }

  class Tier {
    const nMetrics: nat
    const intervalS: nat
    const capacity: nat
    const timestamps: array<int>
    const data: array<Reading>
    const acc: array<real>
    const accN: array<nat>
    ghost const Repr: set<object>
    var count: nat
    var head: nat
    var accStart: int
    var hasCallback: bool

    ghost predicate Valid()
      reads this
    {
      && capacity > 0 && timestamps.Length == capacity && data.Length == RowStart(capacity, nMetrics)
      && acc.Length == nMetrics && accN.Length == nMetrics
      && accN as object != timestamps
      && this in Repr && timestamps in Repr && data in Repr && acc in Repr && accN in Repr
      && head < capacity && count <= capacity
    }

    /** The row of one slot, cut out of the flat data array. */
    ghost function RowAt(slot: nat): (row: Row)
      requires Valid() && slot < capacity
      reads this, data
      ensures |row| == nMetrics
    {
      RowsApart(slot, capacity, nMetrics);
      data[RowStart(slot, nMetrics)..RowStart(slot, nMetrics) + nMetrics]
    }

    ghost function RingOf(): (r: Ring<Sample>)
      requires Valid()
      reads this, timestamps, data
      ensures Rings.Valid(r) && |r.slots| == capacity && r.head == head && r.count == count
      ensures forall s :: 0 <= s < capacity ==> r.slots[s] == Sample(timestamps[s], RowAt(s))
    {
      Ring(seq(capacity, s requires 0 <= s < capacity && Valid() reads this, timestamps, data =>
                 Sample(timestamps[s], RowAt(s))), head, count)
    }

    ghost function AccOf(): (a: B.Acc)
      requires Valid()
      reads this, acc, accN
      ensures B.Shaped(a, nMetrics)
    {
      B.Acc(accStart, acc[..], accN[..])
    }

    ghost function State(): (s: TierState)
      requires Valid()
      reads this, timestamps, data, acc, accN
      ensures Rings.Valid(s.ring) && B.Shaped(s.acc, nMetrics)
    {
      TierState(RingOf(), AccOf(), hasCallback)
    }

    /** Zeroed arrays, an empty ring, no open bucket and nobody listening. */
    ghost predicate IsNew(n: nat, interval: nat, capacity: nat)
      reads this, timestamps, data, acc, accN
      ensures IsNew(n, interval, capacity) ==> Valid() && !hasCallback
    {
      && Valid() && nMetrics == n && intervalS == interval && this.capacity == capacity
      && RingOf() == ZeroRing(n, capacity) && AccOf() == B.Fresh(n, 0) && !hasCallback
    }

    constructor (n: nat, intervalS: nat, capacity: nat)
      requires capacity > 0
      ensures IsNew(n, intervalS, capacity) && fresh(Repr)
    {
      nMetrics := n;
      this.intervalS := intervalS;
      this.capacity := capacity;
      timestamps := new int[capacity](_ => 0);
      data := new Reading[RowStart(capacity, n)](_ => Present(0.0));
      acc := new real[n](_ => 0.0);
      accN := new nat[n](_ => 0);
      count, head, accStart, hasCallback := 0, 0, 0, false;
      Repr := {this, timestamps, data, acc, accN};
      new;
      forall s | 0 <= s < capacity ensures RowAt(s) == ZeroRing(n, capacity).slots[s].row {
        RowsApart(s, capacity, n);
      }
      assert RingOf().slots == ZeroRing(n, capacity).slots;
      assert acc[..] == seq(n, _ => 0.0);
      assert accN[..] == seq(n, _ => 0);
    }

    /** memcpy of one row into the flat array. */
    method CopyInto(base: nat, values: Row)
      requires Valid() && |values| == nMetrics && base + nMetrics <= data.Length
      modifies data
      ensures data[base..base + nMetrics] == values
      ensures data[..base] == old(data[..])[..base]
      ensures data[base + nMetrics..] == old(data[..])[base + nMetrics..]
    {
      var m := 0;
      while m < nMetrics
        invariant m <= nMetrics
        invariant data[base..base + m] == values[..m]
        invariant data[..base] == old(data[..])[..base]
        invariant data[base + nMetrics..] == old(data[..])[base + nMetrics..]
      {
        data[base + m] := values[m];
        m := m + 1;
      }
    }

    method CopyRow(slot: nat, values: Row)
      requires Valid() && slot < capacity && |values| == nMetrics
      modifies data
      ensures RowAt(slot) == values
      ensures forall s :: 0 <= s < capacity && s != slot ==> RowAt(s) == old(RowAt(s))
    {
      hide RowStart;
      RowsApart(slot, capacity, nMetrics);
      var base := RowStart(slot, nMetrics);
      CopyInto(base, values);
      forall s | 0 <= s < capacity && s != slot ensures RowAt(s) == old(RowAt(s)) {
        RowsApart(s, capacity, nMetrics);
        if s < slot { RowsApart(s, slot, nMetrics); } else { RowsApart(slot, s, nMetrics); }
        SameElsewhere(old(data[..]), data[..], base, nMetrics, RowStart(s, nMetrics));
      }
    }

    /** tier_append: one row into the next slot. */
    method Append(values: Row, timestamp: int)
      requires Valid() && |values| == nMetrics
      modifies this`head, this`count, timestamps, data
      ensures Valid()
      ensures RingOf() == Rings.Append(old(RingOf()), Sample(timestamp, values))
    {
      ghost var before := RingOf();
      timestamps[head] := timestamp;
      CopyRow(head, values);
      assert RingOf().slots == before.slots[head := Sample(timestamp, values)];
      head := (head + 1) % capacity;
      if count < capacity {
        count := count + 1;
      }
      assert RingOf().slots == before.slots[old(head) := Sample(timestamp, values)];
    }

    /** store_tier_sample: the index-th row, oldest first. */
    method SampleAt(index: nat) returns (ok: bool, row: Row, timestamp: int)
      requires Valid()
      ensures ok <==> index < count
      ensures ok ==> Sample(timestamp, row) == Denote(RingOf())[index]
    {
      ok := index < count;
      row, timestamp := [], 0;
      if ok {
        var start := (head + capacity - count) % capacity;
        var slot := (start + index) % capacity;
        RowsApart(slot, capacity, nMetrics);
        row := data[RowStart(slot, nMetrics)..RowStart(slot, nMetrics) + nMetrics];
        timestamp := timestamps[slot];
        assert row == RowAt(slot);
      }
    }

    /** store_series: fills two arrays with one metric's samples at or after a time, up
        to a maximum, and says how many. */
    method Series(metric: nat, since: int, outTimes: array<int>, outValues: array<Reading>, maxPoints: nat)
      returns (written: nat)
      requires Valid() && metric < nMetrics
      requires maxPoints <= outTimes.Length && maxPoints <= outValues.Length
      requires outTimes as object !in Repr && outValues as object !in Repr
      modifies outTimes, outValues
      ensures Valid() && RingOf() == old(RingOf())
      ensures var picked := FirstN(Since(Denote(RingOf()), since), maxPoints);
              written == |picked| <= maxPoints &&
              forall k :: 0 <= k < written ==>
                outTimes[k] == picked[k].ts && metric < |picked[k].row| && outValues[k] == picked[k].row[metric]
    {
      hide Since, RowStart, Denote, RingOf;
      written := 0;
      ghost var held := Denote(RingOf());
      SinceNone(since);
      ghost var picked := [];
      var start := (head + capacity - count) % capacity;
      var i := 0;
      while i < count && written < maxPoints
        invariant i <= count && written <= maxPoints
        invariant picked == Since(held[..i], since) && written == |picked|
        invariant forall k :: 0 <= k < written ==>
                    outTimes[k] == picked[k].ts && metric < |picked[k].row| && outValues[k] == picked[k].row[metric]
        modifies outTimes, outValues
        decreases count - i
      {
        var stamp, value := PointAt(start, i, metric);
        SinceNext(held, since, i);
        if stamp >= since {
          picked := picked + [held[i]];
          outTimes[written] := stamp;
          outValues[written] := value;
          written := written + 1;
        }
        i := i + 1;
      }
      SincePrefix(held, since, i);
      assert held[..|held|] == held;
    }

    /** One metric of the i-th sample from the start slot on. */
    method PointAt(start: nat, i: nat, metric: nat) returns (stamp: int, value: Reading)
      requires Valid() && i < count && metric < nMetrics && start == (head + capacity - count) % capacity
      ensures var x := Denote(RingOf())[i]; |x.row| == nMetrics && stamp == x.ts && value == x.row[metric]
    {
      hide RowStart;
      var slot := (start + i) % capacity;
      RowsApart(slot, capacity, nMetrics);
      stamp, value := timestamps[slot], data[RowStart(slot, nMetrics) + metric];
      assert Denote(RingOf())[i] == Sample(timestamps[slot], RowAt(slot));
    }

    /** Adds the present readings of a row to the open bucket. */
    method AddReadings(values: Row)
      requires Valid() && |values| == nMetrics
      modifies acc, accN
      ensures AccOf() == B.Added(old(AccOf()), values)
    {
      ghost var before := AccOf();
      var m := 0;
      while m < nMetrics
        invariant m <= nMetrics
        invariant forall k :: 0 <= k < m ==>
                    acc[k] == B.Added(before, values).sums[k] && accN[k] == B.Added(before, values).ns[k]
        invariant forall k :: m <= k < nMetrics ==> acc[k] == before.sums[k] && accN[k] == before.ns[k]
      {
        if values[m].Present? {
          acc[m] := acc[m] + values[m].value;
          accN[m] := accN[m] + 1;
        }
        m := m + 1;
      }
      assert acc[..] == B.Added(before, values).sums;
      assert accN[..] == B.Added(before, values).ns;
    }

    method BucketMeans() returns (means: Row)
      requires Valid()
      ensures means == B.Means(AccOf())
    {
      var scratch := new Reading[nMetrics];
      var m := 0;
      while m < nMetrics
        invariant m <= nMetrics
        invariant forall k :: 0 <= k < m ==> scratch[k] == B.MeanReading(acc[k], accN[k])
        modifies scratch
      {
        scratch[m] := if accN[m] > 0 then Present(acc[m] / accN[m] as real) else Absent;
        m := m + 1;
      }
      means := scratch[..];
    }

    method ClearBucket()
      requires Valid()
      modifies acc, accN
      ensures AccOf() == B.Fresh(nMetrics, accStart)
    {
      var m := 0;
      while m < nMetrics
        invariant m <= nMetrics
        invariant forall k :: 0 <= k < m ==> acc[k] == 0.0 && accN[k] == 0
      {
        acc[m], accN[m] := 0.0, 0;
        m := m + 1;
      }
      assert acc[..] == B.Fresh(nMetrics, accStart).sums;
      assert accN[..] == B.Fresh(nMetrics, accStart).ns;
    }

    /** The coarse-tier half of store_push. */
    method Accumulate(values: Row, timestamp: int) returns (emitted: bool, means: Row)
      requires Valid() && |values| == nMetrics
      modifies this`head, this`count, this`accStart, timestamps, data, acc, accN
      ensures Valid()
      ensures var step := B.Push(old(AccOf()), intervalS, Sample(timestamp, values));
              AccOf() == step.acc &&
              emitted == (step.emitted != []) &&
              (emitted ==> |means| == nMetrics && step.emitted == [Sample(timestamp, means)]) &&
              RingOf() == if emitted then Rings.Append(old(RingOf()), Sample(timestamp, means)) else old(RingOf())
    {
      emitted, means := false, [];
      if accStart == 0 {
        accStart := timestamp;
      }
      AddReadings(values);
      if timestamp - accStart >= intervalS {
        means := BucketMeans();
        emitted := true;
        Append(means, timestamp);
        accStart := timestamp;
        ClearBucket();
      }
    }
  }

  lemma {:induction false} SinceNone(since: int)
    ensures Since([], since) == []
  {
  }

  lemma {:induction false} SinceNext(xs: seq<Sample>, since: int, i: nat)
    requires i < |xs|
    ensures Since(xs[..i + 1], since) ==
            if xs[i].ts < since then Since(xs[..i], since) else Since(xs[..i], since) + [xs[i]]
  {
    assert xs[..i + 1][..i] == xs[..i];
  }

  /** Stopping a scan once enough was found changes nothing about what was found first. */
  lemma {:induction false} SincePrefix(xs: seq<Sample>, since: int, i: nat)
    requires i <= |xs|
    ensures Since(xs[..i], since) <= Since(xs, since)
    decreases |xs| - i
  {
    if i == |xs| {
      assert xs[..i] == xs;
    } else {
      assert xs[..i + 1][..i] == xs[..i];
      SincePrefix(xs, since, i + 1);
    }
  }

  const STORE_TIERS: nat := Z.STORE_TIERS

  /** The tier a request for a window is answered from. */
  function TierFor(window: nat, fine: nat, medium: nat): (i: nat)
    requires fine > 0 && medium > 0
    ensures i < STORE_TIERS
  {
    if window / fine <= 2000 then 0 else if window / medium <= 2000 then 1 else 2
  }

  class Store {
    const nMetrics: nat
    const fine: Tier
    const medium: Tier
    const coarse: Tier
    var latest: Row
    var latestTs: int
    var hasLatest: bool

    function TierAt(i: nat): Tier
      requires i < STORE_TIERS
    {
      if i == 0 then fine else if i == 1 then medium else coarse
    }

    ghost function Footprint(): set<object>
    {
      {this} + fine.Repr + medium.Repr + coarse.Repr
    }

    ghost predicate Valid()
      reads this, fine, medium, coarse
    {
      && fine.Valid() && medium.Valid() && coarse.Valid()
      && fine.nMetrics == medium.nMetrics == coarse.nMetrics == nMetrics
      && this !in fine.Repr && this !in medium.Repr && this !in coarse.Repr
      && fine.Repr !! medium.Repr && fine.Repr !! coarse.Repr && medium.Repr !! coarse.Repr
    }

    constructor (nMetrics: nat, base: nat, memory: nat)
      ensures Valid() && fresh(Footprint()) && this.nMetrics == nMetrics
      ensures fine.IsNew(nMetrics, Z.FineInterval(base), Z.Capacity(nMetrics, base, memory, 0))
      ensures medium.IsNew(nMetrics, Z.TIER_INTERVAL[1], Z.Capacity(nMetrics, base, memory, 1))
      ensures coarse.IsNew(nMetrics, Z.TIER_INTERVAL[2], Z.Capacity(nMetrics, base, memory, 2))
      ensures !hasLatest
    {
      var capacity := Z.TierCapacities(nMetrics, base, memory);
      Z.CapacityWithinBounds(nMetrics, base, memory, 0);
      Z.CapacityWithinBounds(nMetrics, base, memory, 1);
      Z.CapacityWithinBounds(nMetrics, base, memory, 2);
      hide Z.Capacity, Z.FineInterval, B.Fresh;
      var first := new Tier(nMetrics, Z.FineInterval(base), capacity[0]);
      var second := new Tier(nMetrics, Z.TIER_INTERVAL[1], capacity[1]);
      var third := new Tier(nMetrics, Z.TIER_INTERVAL[2], capacity[2]);
      this.nMetrics := nMetrics;
      fine, medium, coarse := first, second, third;
      latest, latestTs, hasLatest := [], 0, false;
    }

    /** store_push: every tier takes the sample in, the fine one as it is and the others
        into their open bucket. A tier that gained a row and has a callback leaves the
        row pending for it. */
    method Push(values: Row, timestamp: int) returns (pending: seq<Pending>)
      requires Valid() && |values| == nMetrics
      modifies Footprint()
      ensures Valid() && hasLatest && latest == values && latestTs == timestamp
      ensures |pending| == STORE_TIERS
      ensures var x := Sample(timestamp, values);
              (fine.State(), pending[0]) == FinePush(old(fine.State()), x) &&
              (medium.State(), pending[1]) == CoarsePush(old(medium.State()), medium.intervalS, x) &&
              (coarse.State(), pending[2]) == CoarsePush(old(coarse.State()), coarse.intervalS, x)
    {
      hide FinePush, CoarsePush, Tier.State, Tier.RingOf, Tier.AccOf, Rings.Valid, B.Shaped;
      latest, latestTs, hasLatest := values, timestamp, true;
      var zero := PushFine(fine, values, timestamp);
      var one := PushCoarse(medium, values, timestamp);
      var two := PushCoarse(coarse, values, timestamp);
      pending := [zero, one, two];
    }

    static method PushFine(tier: Tier, values: Row, timestamp: int) returns (pending: Pending)
      requires tier.Valid() && |values| == tier.nMetrics
      modifies tier.Repr
      ensures tier.Valid()
      ensures (tier.State(), pending) == FinePush(old(tier.State()), Sample(timestamp, values))
    {
      tier.Append(values, timestamp);
      pending := if tier.hasCallback then Call(values) else NoCall;
    }

    static method PushCoarse(tier: Tier, values: Row, timestamp: int) returns (pending: Pending)
      requires tier.Valid() && |values| == tier.nMetrics
      modifies tier.Repr
      ensures tier.Valid()
      ensures (tier.State(), pending) == CoarsePush(old(tier.State()), tier.intervalS, Sample(timestamp, values))
    {
      var emitted, means := tier.Accumulate(values, timestamp);
      pending := if emitted && tier.hasCallback then Call(means) else NoCall;
    }

    /** store_tier_for_window: the finest tier that answers with at most 2000 points. */
    method TierForWindow(window: nat) returns (i: nat)
      requires Valid() && fine.intervalS > 0 && medium.intervalS > 0 && coarse.intervalS > 0
      ensures i == TierFor(window, fine.intervalS, medium.intervalS)
      ensures forall k :: 0 <= k < i ==> window / TierAt(k).intervalS > 2000
      ensures i < STORE_TIERS - 1 ==> window / TierAt(i).intervalS <= 2000
    {
      assert TierAt(0) == fine && TierAt(1) == medium;
      i := 0;
      while i < STORE_TIERS
        invariant i <= STORE_TIERS
        invariant forall k :: 0 <= k < i ==> window / TierAt(k).intervalS > 2000
      {
        if window / TierAt(i).intervalS <= 2000 {
          return;
        }
        i := i + 1;
      }
      i := STORE_TIERS - 1;
    }
  }

  /** A coarse tier over a run of pushes. */
  function CoarseRun(s: TierState, interval: nat, n: nat, xs: seq<Sample>): (t: TierState)
    requires |s.ring.slots| > 0 && s.ring.head < |s.ring.slots| && s.ring.count <= |s.ring.slots|
    requires B.Shaped(s.acc, n) && forall i :: 0 <= i < |xs| ==> |xs[i].row| == n
    ensures Rings.Valid(t.ring) && B.Shaped(t.acc, n)
    decreases |xs|
  {
    if xs == [] then s else CoarsePush(CoarseRun(s, interval, n, xs[..|xs| - 1]), interval, xs[|xs| - 1]).0
  }

  /** From a new store, a coarse ring receives exactly the bucket means of the run, on
      top of what it held, and its accumulator is the open bucket. */
  lemma {:induction false} CoarseRunIsBucketRun(
    ring: Ring<Sample>, called: bool, interval: nat, n: nat, xs: seq<Sample>)
    requires Rings.Valid(ring) && B.Pushable(xs, n)
    ensures var t := CoarseRun(TierState(ring, B.Fresh(n, 0), called), interval, n, xs);
            var r := B.Run(n, interval, xs);
            t == TierState(Rings.AppendAll(ring, r.emitted), r.acc, called) &&
            Denote(t.ring) == LastN(Denote(ring) + r.emitted, |ring.slots|)
    decreases |xs|
  {
    AppendAllDenotes(ring, B.Run(n, interval, xs).emitted);
    if xs != [] {
      var front := xs[..|xs| - 1];
      CoarseRunIsBucketRun(ring, called, interval, n, front);
      var before := B.Run(n, interval, front);
      var step := B.Push(before.acc, interval, xs[|xs| - 1]);
      if step.emitted != [] {
        assert (before.emitted + step.emitted)[..|before.emitted|] == before.emitted;
      } else {
        assert before.emitted + [] == before.emitted;
      }
    }
  }
}
