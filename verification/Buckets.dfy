/** Downsampling: how a coarse tier turns pushes into bucket means, and what those
    means are worth. */
module Buckets {
  import opened Samples

  /** Running sums and counts of one bucket. A start of 0 means no bucket is open. */
  datatype Acc = Acc(start: int, sums: seq<real>, ns: seq<nat>)

  datatype Pushed = Pushed(acc: Acc, emitted: seq<Sample>)

  predicate Shaped(a: Acc, n: nat) { |a.sums| == n && |a.ns| == n }

  function Fresh(n: nat, start: int): (a: Acc)
    ensures Shaped(a, n)
  {
    Acc(start, seq(n, _ => 0.0), seq(n, _ => 0))
  }

  function Added(a: Acc, row: Row): (b: Acc)
    requires Shaped(a, |row|)
    ensures Shaped(b, |row|) && b.start == a.start
  {
    Acc(a.start,
        seq(|row|, m requires 0 <= m < |row| => if row[m].Present? then a.sums[m] + row[m].value else a.sums[m]),
        seq(|row|, m requires 0 <= m < |row| => if row[m].Present? then a.ns[m] + 1 else a.ns[m]))
  }

  function MeanReading(sum: real, n: nat): Reading
  {
    if n == 0 then Absent else Present(sum / n as real)
  }

  function Means(a: Acc): (row: Row)
    requires |a.sums| == |a.ns|
    ensures |row| == |a.sums|
  {
    seq(|a.sums|, m requires 0 <= m < |a.sums| => MeanReading(a.sums[m], a.ns[m]))
  }

  /** One push into a coarse tier: the sample that closes a bucket is part of it, and
      its clock reading stamps the mean and starts the next bucket. */
  function Push(a: Acc, interval: nat, x: Sample): (r: Pushed)
    requires Shaped(a, |x.row|)
    ensures Shaped(r.acc, |x.row|)
    ensures forall i :: 0 <= i < |r.emitted| ==> |r.emitted[i].row| == |x.row| && r.emitted[i].ts == x.ts
    ensures |r.emitted| <= 1
  {
    var b := Added(a.(start := if a.start == 0 then x.ts else a.start), x.row);
    if x.ts - b.start >= interval then Pushed(Fresh(|x.row|, x.ts), [Sample(x.ts, Means(b))])
    else Pushed(b, [])
  }

  ghost predicate Pushable(xs: seq<Sample>, n: nat)
  {
    forall i :: 0 <= i < |xs| ==> |xs[i].row| == n && xs[i].ts > 0
  }

  /** A whole run of pushes from a new store. */
  function Run(n: nat, interval: nat, xs: seq<Sample>): (r: Pushed)
    requires forall i :: 0 <= i < |xs| ==> |xs[i].row| == n && xs[i].ts > 0
    ensures Shaped(r.acc, n)
    decreases |xs|
  {
    if xs == [] then Pushed(Fresh(n, 0), [])
    else
      var before := Run(n, interval, xs[..|xs| - 1]);
      var step := Push(before.acc, interval, xs[|xs| - 1]);
      Pushed(step.acc, before.emitted + step.emitted)
  }

  // ------------------------------------------------- the buckets of a run

  datatype Split = Split(closed: seq<seq<Sample>>, open: seq<Sample>)

  function Flat(bs: seq<seq<Sample>>): seq<Sample>
    decreases |bs|
  {
    if bs == [] then [] else Flat(bs[..|bs| - 1]) + bs[|bs| - 1]
  }

  function Last(b: seq<Sample>): Sample
    requires b != []
  {
    b[|b| - 1]
  }

  /** The clock reading bucket i counts from: its own first sample for the first
      bucket, the closing sample of the bucket before for the others. */
  function StartOf(closed: seq<seq<Sample>>, first: int, i: nat): int
    requires i <= |closed| && forall k :: 0 <= k < |closed| ==> closed[k] != []
  {
    if i == 0 then first else Last(closed[i - 1]).ts
  }

  /** b closes at its last sample and at no earlier one. */
  ghost predicate ClosesAtLast(b: seq<Sample>, start: int, interval: nat)
  {
    b != [] && Last(b).ts - start >= interval && StaysOpen(b[..|b| - 1], start, interval)
  }

  ghost predicate StaysOpen(b: seq<Sample>, start: int, interval: nat)
  {
    forall k :: 0 <= k < |b| ==> b[k].ts - start < interval
  }

  ghost predicate Nonempty(closed: seq<seq<Sample>>)
  {
    forall k :: 0 <= k < |closed| ==> closed[k] != []
  }

  /** Every closed bucket closes at the first sample at least the interval after its
      start, and the open one has not reached that point. */
  ghost predicate Closes(s: Split, first: int, interval: nat)
  {
    && Nonempty(s.closed)
    && (forall i :: 0 <= i < |s.closed| ==> ClosesAtLast(s.closed[i], StartOf(s.closed, first, i), interval))
    && StaysOpen(s.open, StartOf(s.closed, first, |s.closed|), interval)
  }

  /** s cuts xs into consecutive buckets that close where they must, and an open rest. */
  ghost predicate IsPartition(s: Split, xs: seq<Sample>, interval: nat)
  {
    Flat(s.closed) + s.open == xs && Nonempty(s.closed) && (xs != [] ==> Closes(s, xs[0].ts, interval))
  }

  /** The cut of a run, one sample at a time. */
  function Cut(xs: seq<Sample>, interval: nat): (s: Split)
    ensures forall k :: 0 <= k < |s.closed| ==> s.closed[k] != []
    decreases |xs|
  {
    if xs == [] then Split([], [])
    else
      var before, x := Cut(xs[..|xs| - 1], interval), xs[|xs| - 1];
      if x.ts - StartOf(before.closed, xs[0].ts, |before.closed|) >= interval
      then Split(before.closed + [before.open + [x]], [])
      else Split(before.closed, before.open + [x])
  }

  lemma {:induction false} ClosingStep(s: Split, x: Sample, first: int, interval: nat)
    requires Closes(s, first, interval) && x.ts - StartOf(s.closed, first, |s.closed|) >= interval
    ensures var t := Split(s.closed + [s.open + [x]], []);
            Closes(t, first, interval) && Flat(t.closed) + t.open == Flat(s.closed) + s.open + [x]
  {
    var b := s.open + [x];
    var closed := s.closed + [b];
    assert Last(b) == x && b[..|b| - 1] == s.open && closed[..|closed| - 1] == s.closed;
    forall i | 0 <= i < |closed| ensures ClosesAtLast(closed[i], StartOf(closed, first, i), interval) {
      assert StartOf(closed, first, i) == StartOf(s.closed, first, i);
    }
    assert Flat(closed) + [] == Flat(s.closed) + b == Flat(s.closed) + s.open + [x];
  }

  lemma {:induction false} StayingStep(s: Split, x: Sample, first: int, interval: nat)
    requires Closes(s, first, interval) && x.ts - StartOf(s.closed, first, |s.closed|) < interval
    ensures var t := Split(s.closed, s.open + [x]);
            Closes(t, first, interval) && Flat(t.closed) + t.open == Flat(s.closed) + s.open + [x]
  {
    assert Flat(s.closed) + (s.open + [x]) == Flat(s.closed) + s.open + [x];
  }

  lemma {:induction false} CutIsPartition(xs: seq<Sample>, interval: nat)
    ensures IsPartition(Cut(xs, interval), xs, interval)
    decreases |xs|
  {
    if xs != [] {
      var front, x := xs[..|xs| - 1], xs[|xs| - 1];
      var before := Cut(front, interval);
      CutIsPartition(front, interval);
      assert xs == front + [x];
      if x.ts - StartOf(before.closed, xs[0].ts, |before.closed|) >= interval {
        ClosingStep(before, x, xs[0].ts, interval);
      } else {
        StayingStep(before, x, xs[0].ts, interval);
      }
    }
  }

  /** The cut without its last sample. */
  ghost function Undone(s: Split): (p: Split)
    requires Nonempty(s.closed)
  {
    if s.open != [] then Split(s.closed, s.open[..|s.open| - 1])
    else if s.closed != [] then
      var b := s.closed[|s.closed| - 1];
      Split(s.closed[..|s.closed| - 1], b[..|b| - 1])
    else s
  }

  ghost predicate ComesFrom(s: Split, p: Split, xs: seq<Sample>, interval: nat)
    requires xs != [] && Nonempty(p.closed)
  {
    var x, start := xs[|xs| - 1], StartOf(p.closed, xs[0].ts, |p.closed|);
    && Flat(p.closed) + p.open == xs[..|xs| - 1]
    && Closes(p, xs[0].ts, interval)
    && s == if x.ts - start >= interval then Split(p.closed + [p.open + [x]], []) else Split(p.closed, p.open + [x])
  }

  lemma {:induction false} UndoneOpen(s: Split, xs: seq<Sample>, interval: nat)
    requires IsPartition(s, xs, interval) && s.open != []
    ensures ComesFrom(s, Undone(s), xs, interval)
  {
    var open := s.open[..|s.open| - 1];
    assert s.open == open + [xs[|xs| - 1]];
    assert xs == (Flat(s.closed) + open) + [xs[|xs| - 1]];
  }

  lemma {:induction false} SameStarts(bs: seq<seq<Sample>>, first: int, i: nat)
    requires Nonempty(bs) && i < |bs|
    ensures StartOf(bs[..|bs| - 1], first, i) == StartOf(bs, first, i)
  {
  }

  lemma {:induction false} FrontCloses(s: Split, first: int, interval: nat)
    requires s.closed != [] && Closes(s, first, interval)
    ensures Closes(Undone(Split(s.closed, [])), first, interval)
  {
    var k := |s.closed| - 1;
    var closed := s.closed[..k];
    assert ClosesAtLast(s.closed[k], StartOf(s.closed, first, k), interval);
    SameStarts(s.closed, first, k);
    hide StartOf;
    forall i | 0 <= i < k ensures ClosesAtLast(closed[i], StartOf(closed, first, i), interval) {
      SameStarts(s.closed, first, i);
      assert ClosesAtLast(s.closed[i], StartOf(s.closed, first, i), interval);
    }
  }

  lemma {:induction false} LastCloses(s: Split, first: int, interval: nat)
    requires s.closed != [] && Closes(s, first, interval)
    ensures var k := |s.closed| - 1; Last(s.closed[k]).ts - StartOf(s.closed[..k], first, k) >= interval
  {
    var k := |s.closed| - 1;
    SameStarts(s.closed, first, k);
    hide StartOf;
    assert ClosesAtLast(s.closed[k], StartOf(s.closed, first, k), interval);
  }

  lemma {:induction false} FlatWithoutLast(s: Split, xs: seq<Sample>)
    requires Nonempty(s.closed) && s.closed != [] && Flat(s.closed) == xs
    ensures xs != [] && Flat(Undone(Split(s.closed, [])).closed) + Undone(Split(s.closed, [])).open == xs[..|xs| - 1]
    ensures Last(s.closed[|s.closed| - 1]) == xs[|xs| - 1]
  {
    var k := |s.closed| - 1;
    var b := s.closed[k];
    var front := Flat(s.closed[..k]);
    assert xs == front + b;
    assert xs[..|xs| - 1] == front + b[..|b| - 1];
  }

  lemma {:induction false} UndoneClosed(s: Split, xs: seq<Sample>, interval: nat)
    requires IsPartition(s, xs, interval) && xs != [] && s.open == []
    ensures ComesFrom(s, Undone(s), xs, interval)
  {
    hide Flat, Closes, StartOf;
    var k, first := |s.closed| - 1, xs[0].ts;
    NoBuckets();
    assert Flat(s.closed) + [] == Flat(s.closed);
    assert s.closed != [] && s == Split(s.closed, []);
    FlatWithoutLast(s, xs);
    FrontCloses(s, first, interval);
    LastCloses(s, first, interval);
    var b := s.closed[k];
    assert b == b[..|b| - 1] + [Last(b)] && s.closed == s.closed[..k] + [b];
  }

  lemma {:induction false} NoBuckets()
    ensures Flat([]) == []
  {
  }

  /** There is only one way to cut a run. */
  lemma {:induction false} PartitionUnique(s: Split, xs: seq<Sample>, interval: nat)
    requires IsPartition(s, xs, interval)
    ensures s == Cut(xs, interval)
    decreases |xs|
  {
    if xs == [] {
      assert s.closed == [];
    } else {
      var p := Undone(s);
      if s.open != [] { UndoneOpen(s, xs, interval); } else { UndoneClosed(s, xs, interval); }
      if |xs| == 1 {
        assert p.closed == [];
      }
      PartitionUnique(p, xs[..|xs| - 1], interval);
    }
  }

  // ------------------------------------------------------ sums and counts

  /** One metric's reading in a sample. */
  function At(x: Sample, m: nat): Reading
  {
    if m < |x.row| then x.row[m] else Absent
  }

  function Sum(xs: seq<Sample>, m: nat): real
    decreases |xs|
  {
    if xs == [] then 0.0
    else
      var r := At(xs[|xs| - 1], m);
      Sum(xs[..|xs| - 1], m) + if r.Present? then r.value else 0.0
  }

  function Count(xs: seq<Sample>, m: nat): nat
    decreases |xs|
  {
    if xs == [] then 0
    else Count(xs[..|xs| - 1], m) + if At(xs[|xs| - 1], m).Present? then 1 else 0
  }

  lemma {:induction false} TotalsSplit(xs: seq<Sample>, ys: seq<Sample>, m: nat)
    ensures Sum(xs + ys, m) == Sum(xs, m) + Sum(ys, m)
    ensures Count(xs + ys, m) == Count(xs, m) + Count(ys, m)
    decreases |ys|
  {
    if ys == [] {
      assert xs + ys == xs;
    } else {
      assert (xs + ys)[..|xs + ys| - 1] == xs + ys[..|ys| - 1];
      TotalsSplit(xs, ys[..|ys| - 1], m);
    }
  }

  /** The accumulator holds the sums and counts of a list of samples. */
  ghost predicate Holds(a: Acc, b: seq<Sample>, n: nat)
  {
    Shaped(a, n) &&
    forall m :: 0 <= m < n ==> a.sums[m] == Sum(b, m) && a.ns[m] == Count(b, m)
  }

  lemma {:induction false} AddedHolds(a: Acc, b: seq<Sample>, x: Sample)
    requires Holds(a, b, |x.row|)
    ensures Holds(Added(a, x.row), b + [x], |x.row|)
  {
    assert (b + [x])[..|b|] == b;
  }

  /** The mean of a bucket's present readings of one metric. */
  function MeanOf(b: seq<Sample>, n: nat): (row: Row)
    ensures |row| == n
    ensures forall m :: 0 <= m < n ==> row[m] == MeanReading(Sum(b, m), Count(b, m))
  {
    seq(n, m requires 0 <= m < n => MeanReading(Sum(b, m), Count(b, m)))
  }

  /** One row per closed bucket: its mean, stamped with its closing sample. */
  ghost predicate EmitsMeans(emitted: seq<Sample>, closed: seq<seq<Sample>>, n: nat)
  {
    |emitted| == |closed| && Nonempty(closed) &&
    forall i :: 0 <= i < |closed| ==> emitted[i] == Sample(Last(closed[i]).ts, MeanOf(closed[i], n))
  }

  /** What a run has emitted and kept, in terms of the cut of what was pushed. */
  ghost predicate Explains(r: Pushed, s: Split, n: nat)
  {
    EmitsMeans(r.emitted, s.closed, n) && Holds(r.acc, s.open, n)
  }

  /** One push on a state that is explained by a cut whose start is armed. */
  lemma {:induction false} PushExplained(r: Pushed, s: Split, n: nat, interval: nat, x: Sample)
    requires Explains(r, s, n) && |x.row| == n
    ensures var start := if r.acc.start == 0 then x.ts else r.acc.start;
            var p := Push(r.acc, interval, x);
            var q := Pushed(p.acc, r.emitted + p.emitted);
            if x.ts - start >= interval
            then Explains(q, Split(s.closed + [s.open + [x]], []), n) && q.acc.start == x.ts
            else Explains(q, Split(s.closed, s.open + [x]), n) && q.acc.start == start
  {
    var armed := r.acc.(start := if r.acc.start == 0 then x.ts else r.acc.start);
    AddedHolds(armed, s.open, x);
    assert Means(Added(armed, x.row)) == MeanOf(s.open + [x], n);
    assert Last(s.open + [x]) == x;
  }

  /** Every run emits the means of its closed buckets, stamped with their closing
      samples, and holds the totals of the open one. */
  lemma {:induction false} RunEmitsMeans(n: nat, interval: nat, xs: seq<Sample>)
    requires Pushable(xs, n) && interval > 0
    ensures var r, s := Run(n, interval, xs), Cut(xs, interval);
            IsPartition(s, xs, interval) && Explains(r, s, n) &&
            r.acc.start == if xs == [] then 0 else StartOf(s.closed, xs[0].ts, |s.closed|)
    decreases |xs|
  {
    CutIsPartition(xs, interval);
    if xs != [] {
      var front, x := xs[..|xs| - 1], xs[|xs| - 1];
      var before, r := Cut(front, interval), Run(n, interval, front);
      RunEmitsMeans(n, interval, front);
      if before.closed != [] {
        StartIsPushed(front, interval);
      }
      PushExplained(r, before, n, interval, x);
    }
  }

  /** The start of an open bucket is the clock reading of some pushed sample. */
  lemma {:induction false} StartIsPushed(xs: seq<Sample>, interval: nat)
    requires IsPartition(Cut(xs, interval), xs, interval) && xs != [] && Cut(xs, interval).closed != []
    ensures var s := Cut(xs, interval);
            exists k :: 0 <= k < |xs| && xs[k].ts == StartOf(s.closed, xs[0].ts, |s.closed|)
  {
    var s := Cut(xs, interval);
    var b := s.closed[|s.closed| - 1];
    var k := |Flat(s.closed[..|s.closed| - 1])| + |b| - 1;
    assert Flat(s.closed)[k] == Last(b);
    assert xs[k] == Last(b);
  }

  /** The samples of the open bucket leave no trace in the rows: without them the same rows
      are emitted. */
  lemma {:induction false} OpenBucketLeavesNoTrace(n: nat, interval: nat, xs: seq<Sample>)
    requires Pushable(xs, n) && interval > 0
    ensures var closed := Flat(Cut(xs, interval).closed);
            Pushable(closed, n) && closed <= xs && Run(n, interval, closed).emitted == Run(n, interval, xs).emitted
  {
    hide Run, Flat, Cut, Closes, Holds;
    var s := Cut(xs, interval);
    var ys := Flat(s.closed);
    CutIsPartition(xs, interval);
    assert ys <= xs && xs[..|ys|] == ys;
    assert ys + [] == ys;
    NoBuckets();
    if s.closed != [] {
      FirstOfFlat(s.closed);
      assert xs[0] == ys[0];
      ClosesWithoutOpen(s, xs[0].ts, interval);
    }
    PartitionUnique(Split(s.closed, []), ys, interval);
    RunEmitsMeans(n, interval, xs);
    RunEmitsMeans(n, interval, ys);
    assert Run(n, interval, ys).emitted == Run(n, interval, xs).emitted;
  }

  lemma {:induction false} ClosesWithoutOpen(s: Split, first: int, interval: nat)
    requires Closes(s, first, interval)
    ensures Closes(Split(s.closed, []), first, interval)
  {
  }

  lemma {:induction false} FirstOfFlat(bs: seq<seq<Sample>>)
    requires bs != [] && Nonempty(bs)
    ensures Flat(bs) != []
  {
  }

  /** Successive rows of a coarse tier lie at least one interval apart. */
  lemma {:induction false} RowsSpaced(n: nat, interval: nat, xs: seq<Sample>, i: nat)
    requires Pushable(xs, n) && interval > 0
    requires i + 1 < |Run(n, interval, xs).emitted|
    ensures var e := Run(n, interval, xs).emitted;
            e[i + 1].ts - e[i].ts >= interval
  {
    RunEmitsMeans(n, interval, xs);
    var s := Cut(xs, interval);
    assert ClosesAtLast(s.closed[i + 1], StartOf(s.closed, xs[0].ts, i + 1), interval);
  }

  // ---------------------------------------------------------- conservation

  /** What a mean over n readings stands for. */
  function Weighted(mean: Reading, n: nat): real
  {
    if mean.Present? then mean.value * n as real else 0.0
  }

  /** The sum behind the emitted means of one metric: mean times number of readings. */
  function EmittedSum(emitted: seq<Sample>, closed: seq<seq<Sample>>, m: nat): real
    requires |emitted| == |closed|
    decreases |closed|
  {
    if closed == [] then 0.0
    else
      var k := |closed| - 1;
      EmittedSum(emitted[..k], closed[..k], m) + Weighted(At(emitted[k], m), Count(closed[k], m))
  }

  function EmittedCount(closed: seq<seq<Sample>>, m: nat): nat
    decreases |closed|
  {
    if closed == [] then 0
    else EmittedCount(closed[..|closed| - 1], m) + Count(closed[|closed| - 1], m)
  }

  lemma {:induction false} CountZeroSumZero(xs: seq<Sample>, m: nat)
    requires Count(xs, m) == 0
    ensures Sum(xs, m) == 0.0
    decreases |xs|
  {
    if xs != [] {
      CountZeroSumZero(xs[..|xs| - 1], m);
    }
  }

  /** A mean times its count is its sum, also when there was nothing to average. */
  lemma {:induction false} MeanTimesCount(b: seq<Sample>, m: nat)
    ensures Weighted(MeanReading(Sum(b, m), Count(b, m)), Count(b, m)) == Sum(b, m)
  {
    if Count(b, m) == 0 {
      CountZeroSumZero(b, m);
    }
  }

  lemma {:induction false} FrontEmitsMeans(emitted: seq<Sample>, closed: seq<seq<Sample>>, n: nat)
    requires EmitsMeans(emitted, closed, n) && closed != []
    ensures var k := |closed| - 1;
            |emitted| == |closed| && EmitsMeans(emitted[..k], closed[..k], n) &&
            emitted[k].row == MeanOf(closed[k], n)
  {
  }

  lemma {:induction false} EmittedTotals(emitted: seq<Sample>, closed: seq<seq<Sample>>, n: nat, m: nat)
    requires EmitsMeans(emitted, closed, n) && m < n
    ensures EmittedSum(emitted, closed, m) == Sum(Flat(closed), m)
    ensures EmittedCount(closed, m) == Count(Flat(closed), m)
    decreases |closed|
  {
    if closed != [] {
      hide Sum, Count, MeanReading, Weighted, EmitsMeans;
      var k := |closed| - 1;
      FrontEmitsMeans(emitted, closed, n);
      EmittedTotals(emitted[..k], closed[..k], n, m);
      TotalsSplit(Flat(closed[..k]), closed[k], m);
      MeanTimesCount(closed[k], m);
    }
  }

  /** Nothing is lost or counted twice: emitted totals plus the open accumulator are the
      totals of everything pushed, for every metric. */
  lemma {:induction false} RunConserves(n: nat, interval: nat, xs: seq<Sample>, m: nat)
    requires Pushable(xs, n) && interval > 0 && m < n
    ensures var r, s := Run(n, interval, xs), Cut(xs, interval);
            Explains(r, s, n) &&
            EmittedSum(r.emitted, s.closed, m) + r.acc.sums[m] == Sum(xs, m) &&
            EmittedCount(s.closed, m) + r.acc.ns[m] == Count(xs, m)
  {
    RunEmitsMeans(n, interval, xs);
    var r, s := Run(n, interval, xs), Cut(xs, interval);
    EmittedTotals(r.emitted, s.closed, n, m);
    TotalsSplit(Flat(s.closed), s.open, m);
  }

  lemma {:induction false} SumWithinBounds(b: seq<Sample>, m: nat, lo: real, hi: real)
    requires forall i :: 0 <= i < |b| ==> At(b[i], m).Present? ==> lo <= At(b[i], m).value <= hi
    ensures Times(lo, Count(b, m)) <= Sum(b, m) <= Times(hi, Count(b, m))
    decreases |b|
  {
    if b != [] {
      hide Times;
      var c := Count(b[..|b| - 1], m);
      SumWithinBounds(b[..|b| - 1], m, lo, hi);
      OneMore(lo, c);
      OneMore(hi, c);
    }
  }

  function Times(x: real, n: nat): real { x * n as real }

  lemma {:induction false} OneMore(x: real, n: nat)
    ensures Times(x, n + 1) == Times(x, n) + x
  {
  }

  /** A mean is present exactly when its bucket has a reading, and it lies within any
      bounds those readings lie in. */
  lemma {:induction false} MeanWithinBounds(b: seq<Sample>, n: nat, m: nat, lo: real, hi: real)
    requires m < n
    requires forall i :: 0 <= i < |b| ==> At(b[i], m).Present? ==> lo <= At(b[i], m).value <= hi
    ensures MeanOf(b, n)[m].Present? <==> exists i :: 0 <= i < |b| && At(b[i], m).Present?
    ensures MeanOf(b, n)[m].Present? ==> lo <= MeanOf(b, n)[m].value <= hi
  {
    SumWithinBounds(b, m, lo, hi);
    CountPositiveIff(b, m);
    if Count(b, m) > 0 {
      QuotientWithin(Sum(b, m), Count(b, m), lo, hi);
    }
  }

  lemma {:induction false} CountPositiveIff(b: seq<Sample>, m: nat)
    ensures Count(b, m) > 0 <==> exists i :: 0 <= i < |b| && At(b[i], m).Present?
    decreases |b|
  {
    if b != [] {
      var front := b[..|b| - 1];
      CountPositiveIff(front, m);
      if i :| 0 <= i < |b| && At(b[i], m).Present? {
        assert i < |front| ==> At(front[i], m).Present?;
      }
      if i :| 0 <= i < |front| && At(front[i], m).Present? {
        assert At(b[i], m).Present?;
      }
    }
  }

  lemma {:induction false} QuotientWithin(s: real, n: nat, lo: real, hi: real)
    requires n > 0 && Times(lo, n) <= s <= Times(hi, n)
    ensures lo <= s / n as real <= hi
  {
    var c := n as real;
    var q := s / c;
    assert (q - lo) * c == s - lo * c;
    assert (hi - q) * c == hi * c - s;
    FactorNonnegative(q - lo, c);
    FactorNonnegative(hi - q, c);
  }

  lemma {:induction false} FactorNonnegative(x: real, c: real)
    requires c > 0.0 && x * c >= 0.0
    ensures x >= 0.0
  {
  }
}
