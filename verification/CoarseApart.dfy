/** The rows of a coarse tier, in memory and on its storage, lie an interval apart over every
    run of process lives on a clock that never runs back. */
module CoarseApart {
  import opened Samples
  import opened Bytes
  import opened Rings
  import opened CoarseHistory
  import B = Buckets
  import H = History
  import M = Mirror
  import Q = Query

  ghost predicate UpTo(xs: seq<Sample>, t: int)
  {
    forall i :: 0 <= i < |xs| ==> xs[i].ts <= t
  }

  /** Rows that lie apart and none after a point in time. */
  ghost predicate Good(xs: seq<Sample>, gap: nat, t: int)
  {
    Q.Apart(xs, gap) && UpTo(xs, t)
  }

  ghost predicate LoadsGood(image: Image, gap: nat, t: int)
  {
    forall ids :: Good(M.Load(image, gap, ids), gap, t)
  }

  ghost predicate SavedGood(s: H.Saved, gap: nat, t: int)
  {
    match s
    case Found(image) => LoadsGood(image, gap, t)
    case Ours(_, interval, _, flushed, pending) => interval == gap ==> Good(flushed + pending, gap, t)
  }

  /** No row is later than the start of the open bucket, or than the clock if none is open. */
  function Bound(acc: B.Acc, t: int): int { if acc.start == 0 then t else acc.start }

  ghost predicate Invariant(c: Coarse, a: H.Plain, gap: nat, t: int)
  {
    && c.world.interval == a.interval == gap && 0 <= t && c.acc.start <= t
    && Good(a.held, gap, Bound(c.acc, t)) && SavedGood(a.saved, gap, Bound(c.acc, t))
  }

  // ------------------------------------------------------- lists of rows

  lemma {:induction false} GoodLater(xs: seq<Sample>, gap: nat, s: int, t: int)
    requires Good(xs, gap, s) && s <= t
    ensures Good(xs, gap, t)
  {
    hide Q.Apart;
  }

  lemma {:induction false} GoodPart(xs: seq<Sample>, gap: nat, t: int, lo: nat, hi: nat)
    requires Good(xs, gap, t) && lo <= hi <= |xs|
    ensures Good(xs[lo..hi], gap, t)
  {
    var ys := xs[lo..hi];
    forall i, j | 0 <= i < |ys| && 0 <= j < |ys| && i != j ensures Q.FarFrom(ys[i], ys[j], gap) {
      assert ys[i] == xs[lo + i] && ys[j] == xs[lo + j];
    }
  }

  lemma {:induction false} GoodLast(xs: seq<Sample>, gap: nat, t: int, n: nat)
    requires Good(xs, gap, t)
    ensures Good(LastN(xs, n), gap, t)
  {
    if |xs| > n {
      GoodPart(xs, gap, t, |xs| - n, |xs|);
      assert xs[|xs| - n..|xs|] == xs[|xs| - n..];
    }
  }

  lemma {:induction false} GoodRow(xs: seq<Sample>, gap: nat, t: int, y: Sample)
    requires Good(xs, gap, t) && y.ts >= t + gap
    ensures Good(xs + [y], gap, y.ts)
  {
    Q.ApartJoins(xs, [y], gap, t);
  }

  lemma {:induction false} GoodStale(flushed: seq<Sample>, pending: seq<Sample>, capacity: nat, gap: nat, t: int)
    requires |flushed| <= capacity && |pending| <= capacity && Good(flushed + pending, gap, t)
    ensures Good(M.Recovered(flushed, pending, capacity), gap, t)
  {
    var all, held := flushed + pending, M.Recovered(flushed, pending, capacity);
    CrashKeepsApart(flushed, pending, capacity, gap);
    forall i | 0 <= i < |held| ensures held[i].ts <= t {
      assert held[i] == all[if capacity + i < |all| then capacity + i else i];
    }
  }

  lemma {:induction false} GoodRemapped(xs: seq<Sample>, saved: seq<string>, ids: seq<string>, gap: nat, t: int)
    requires Good(xs, gap, t) && M.Rows(xs, |saved|)
    ensures Good(M.RemapAll(xs, saved, ids), gap, t)
  {
    var ys := M.RemapAll(xs, saved, ids);
    hide M.Scatter;
    forall i, j | 0 <= i < |ys| && 0 <= j < |ys| && i != j ensures Q.FarFrom(ys[i], ys[j], gap) {
      assert Q.FarFrom(xs[i], xs[j], gap);
    }
  }

  // ------------------------------------------------------ the saved file

  lemma {:induction false} SavedLater(s: H.Saved, gap: nat, r: int, t: int)
    requires SavedGood(s, gap, r) && r <= t
    ensures SavedGood(s, gap, t)
  {
    hide Good;
    match s
    case Found(image) =>
      forall ids ensures Good(M.Load(image, gap, ids), gap, t) {
        GoodLater(M.Load(image, gap, ids), gap, r, t);
      }
    case Ours(_, _, _, flushed, pending) =>
      if s.interval == gap {
        GoodLater(flushed + pending, gap, r, t);
      }
  }

  lemma {:induction false} ReloadedGood(s: H.Saved, gap: nat, t: int, ids: seq<string>)
    requires H.SavedWell(s) && SavedGood(s, gap, t)
    ensures Good(H.Reloaded(s, gap, ids), gap, t)
  {
    if s.Ours? && s.interval == gap {
      hide Good;
      GoodStale(s.flushed, s.pending, s.capacity, gap, t);
      GoodRemapped(M.Recovered(s.flushed, s.pending, s.capacity), s.ids, ids, gap, t);
    }
  }

  lemma {:induction false} AppendGood(s: H.Saved, x: Sample, gap: nat, t: int)
    requires s.Ours? && H.SavedWell(s) && SavedGood(s, gap, t) && x.ts >= t + gap
    requires |x.row| == |s.ids| && 0 < x.ts < TWO63
    ensures SavedGood(H.SavedAppend(s, x), gap, x.ts) && SavedGood(s.(pending := s.pending + [x]), gap, x.ts)
  {
    hide Good;
    if s.interval == gap {
      GoodRow(s.flushed + s.pending, gap, t, x);
      assert s.flushed + (s.pending + [x]) == s.flushed + s.pending + [x];
      GoodLast(s.flushed + s.pending + [x], gap, x.ts, s.capacity);
      assert LastN(s.flushed + s.pending + [x], s.capacity) + [] == LastN(s.flushed + s.pending + [x], s.capacity);
    }
  }

  lemma {:induction false} CloseGood(s: H.Saved, gap: nat, t: int)
    requires s.Ours? && H.SavedWell(s) && SavedGood(s, gap, t)
    ensures SavedGood(H.SavedClose(s), gap, t)
  {
    hide Good;
    if s.interval == gap {
      GoodLast(s.flushed + s.pending, gap, t, s.capacity);
      assert LastN(s.flushed + s.pending, s.capacity) + [] == LastN(s.flushed + s.pending, s.capacity);
    }
  }

  lemma {:induction false} SyncGood(ids: seq<string>, interval: nat, capacity: nat, xs: seq<Sample>, gap: nat, t: int)
    requires H.Usable(ids, interval, capacity) && M.Dated(xs) && M.Rows(xs, |ids|) && |xs| <= capacity
    requires Good(xs, gap, t)
    ensures SavedGood(H.SavedSync(ids, interval, capacity, xs), gap, t)
    ensures var s := H.SavedSync(ids, interval, capacity, xs); s.flushed + s.pending == xs
  {
  }

  // ------------------------------------------------------- one event

  lemma {:induction false} AdoptedGood(a: H.Plain, t: int)
    requires H.PlainWell(a) && Good(a.held, a.interval, t) && SavedGood(a.saved, a.interval, t)
    ensures Good(H.Adopted(a), a.interval, t)
  {
    hide Good, SavedGood;
    ReloadedGood(a.saved, a.interval, t, a.ids);
    GoodLast(H.Reloaded(a.saved, a.interval, a.ids), a.interval, t, a.capacity);
  }

  lemma {:induction false} ReplayCutGood(a: H.Plain, k: nat, half: bool, t: int)
    requires H.PlainWell(a) && Good(a.held, a.interval, t) && SavedGood(a.saved, a.interval, t)
    ensures SavedGood(H.CutSaved(a, H.InReplay(k, half)), a.interval, t)
  {
    if !a.attached {
      var held := H.Adopted(a);
      var part := H.FirstOf(held, k);
      AdoptedGood(a, t);
      GoodPart(held, a.interval, t, 0, |part|);
      assert held[0..|part|] == part;
      hide Good;
      SyncGood(a.ids, a.interval, a.capacity, part, a.interval, t);
      if half && k < |held| {
        var s := H.SavedSync(a.ids, a.interval, a.capacity, part);
        GoodPart(held, a.interval, t, 0, k + 1);
        assert s.flushed + (s.pending + [held[k]]) == held[0..k + 1];
      }
    }
  }

  /** An event of the tier itself adds no row, so the rows stay good. */
  lemma {:induction false} TierGood(a: H.Plain, e: H.Event, t: int)
    requires H.PlainWell(a) && Good(a.held, a.interval, t) && SavedGood(a.saved, a.interval, t)
    requires H.Allowed(a.ids, e) && !e.Append? && !e.OtherStorage? && !(e.Cut? && e.at.InAppend?)
    requires H.EndsProcess(e) ==> e.interval == a.interval
    ensures var b := H.PlainStep(a, e);
            b.interval == a.interval && Good(b.held, a.interval, t) && SavedGood(b.saved, a.interval, t)
  {
    match e
    case Open =>
      AdoptedGood(a, t);
      hide Good;
      if !a.attached {
        SyncGood(a.ids, a.interval, a.capacity, H.Adopted(a), a.interval, t);
      }
    case OpenFails =>
    case Close =>
      hide Good;
      if a.attached { CloseGood(a.saved, a.interval, t); }
    case Restart(_, _, _) =>
    case Cut(at, _, _, _) =>
      ReplayCutGood(a, at.replayed, at.half, t);
      hide H.CutSaved;
  }

  /** The clock after an event. */
  function ClockAfter(e: Event, t: int): int
  {
    match e
    case Tick(x) => x.ts
    case TickCut(x, _, _, _) => x.ts
    case Tier(_) => t
  }

  /** The event comes no earlier than t, stays on the storage, and keeps the interval. */
  predicate InTime(e: Event, gap: nat, t: int)
  {
    match e
    case Tick(x) => x.ts >= t
    case TickCut(x, _, interval, _) => x.ts >= t && interval == gap
    case Tier(h) => !h.OtherStorage? && (H.EndsProcess(h) ==> h.interval == gap)
  }

  /** The plain view after what an event is to the tier. */
  ghost function PlainAfter(c: Coarse, a: H.Plain, e: Event): (b: H.Plain)
    requires Healthy(c) && Allowed(c.world.ids, e) && H.PlainWell(a) && a.ids == c.world.ids
  {
    match e
    case Tick(x) =>
      var p := Pushed(c, x); if p.emitted == [] then a else H.PlainStep(a, H.Event.Append(p.emitted[0]))
    case Tier(h) => H.PlainStep(a, h)
    case TickCut(_, _, _, _) => H.PlainStep(a, CutEvent(c, e))
  }

  lemma {:induction false} TickGood(c: Coarse, a: H.Plain, x: Sample, gap: nat, t: int)
    requires Healthy(c) && Allowed(c.world.ids, Tick(x)) && H.PlainWell(a) && a.ids == c.world.ids
    requires Invariant(c, a, gap, t) && x.ts >= t && gap > 0
    ensures var b, d := PlainAfter(c, a, Tick(x)), Step(c, Tick(x));
            b.interval == gap && d.acc.start == Bound(d.acc, x.ts) <= x.ts &&
            Good(b.held, gap, d.acc.start) && SavedGood(b.saved, gap, d.acc.start)
  {
    hide Good, SavedGood, H.Step;
    var p := Pushed(c, x);
    var bound := Bound(c.acc, t);
    if p.emitted == [] {
      GoodLater(a.held, gap, bound, p.acc.start);
      SavedLater(a.saved, gap, bound, p.acc.start);
    } else {
      var row := p.emitted[0];
      GoodRow(a.held, gap, bound, row);
      GoodLast(a.held + [row], gap, row.ts, a.capacity);
      if a.attached {
        AppendGood(a.saved, row, gap, bound);
      } else {
        SavedLater(a.saved, gap, bound, row.ts);
      }
    }
  }

  lemma {:induction false} TickCutGood(c: Coarse, a: H.Plain, e: Event, gap: nat, t: int)
    requires Healthy(c) && Allowed(c.world.ids, e) && H.PlainWell(a) && a.ids == c.world.ids
    requires e.TickCut? && Invariant(c, a, gap, t) && InTime(e, gap, t) && gap > 0
    ensures var b := PlainAfter(c, a, e);
            b.interval == gap && b.held == [] && SavedGood(b.saved, gap, e.x.ts)
  {
    hide Good, SavedGood;
    var p := Pushed(c, e.x);
    var bound := Bound(c.acc, t);
    if p.emitted != [] && a.attached {
      AppendGood(a.saved, p.emitted[0], gap, bound);
    } else {
      SavedLater(a.saved, gap, bound, e.x.ts);
    }
  }

  lemma {:induction false} NothingGood(gap: nat, t: int)
    ensures Good([], gap, t)
  {
  }

  lemma {:induction false} NextHasInterval(c: Coarse, h: H.Event)
    requires Healthy(c) && Allowed(c.world.ids, Tier(h)) && H.EndsProcess(h)
    ensures Step(c, Tier(h)).world.interval == h.interval && Step(c, Tier(h)).acc.start == 0
  {
    hide H.CutImage;
  }

  lemma {:induction false} StepGood(c: Coarse, a: H.Plain, e: Event, gap: nat, t: int)
    requires Healthy(c) && Allowed(c.world.ids, e) && H.PlainWell(a) && a.ids == c.world.ids
    requires Invariant(c, a, gap, t) && InTime(e, gap, t) && gap > 0
    ensures Invariant(Step(c, e), PlainAfter(c, a, e), gap, ClockAfter(e, t))
  {
    hide Good, SavedGood, M.AppendRecord, M.AppendRecords, M.CloseImage, M.Load, H.CutImage, H.CutSaved, H.Adopted;
    NothingGood(gap, ClockAfter(e, t));
    match e
    case Tick(x) =>
      TickGood(c, a, x, gap, t);
      IntervalStays(c, e);
    case TickCut(_, _, _, _) =>
      TickCutGood(c, a, e, gap, t);
    case Tier(h) =>
      TierGood(a, h, Bound(c.acc, t));
      if !Ends(e) {
        IntervalStays(c, e);
      } else {
        NextHasInterval(c, h);
        GoodLater(H.PlainStep(a, h).held, gap, Bound(c.acc, t), t);
        SavedLater(H.PlainStep(a, h).saved, gap, Bound(c.acc, t), t);
      }
  }

  // ------------------------------------------------------------ every run

  /** The clock does not run back over the run, nor behind t. */
  predicate Clocked(es: seq<Event>, gap: nat, t: int)
    decreases |es|
  {
    es == [] || (InTime(es[0], gap, t) && Clocked(es[1..], gap, ClockAfter(es[0], t)))
  }

  function ClockAtEnd(es: seq<Event>, t: int): int
    decreases |es|
  {
    if es == [] then t else ClockAtEnd(es[1..], ClockAfter(es[0], t))
  }

  lemma {:induction false} PlainAfterIsRun(c: Coarse, a: H.Plain, e: Event)
    requires Healthy(c) && Allowed(c.world.ids, e) && H.Simulates(c.world, a)
    ensures H.Simulates(Step(c, e).world, PlainAfter(c, a, e))
  {
    hide H.Simulates, H.Step, H.PlainStep;
    match e
    case Tick(x) =>
      var p := Pushed(c, x);
      if p.emitted != [] {
        SimulatedStep(c, a, H.Event.Append(p.emitted[0]));
      }
    case Tier(h) => SimulatedStep(c, a, h);
    case TickCut(_, _, _, _) => SimulatedStep(c, a, CutEvent(c, e));
  }

  lemma {:induction false} SimulatedStep(c: Coarse, a: H.Plain, h: H.Event)
    requires H.Simulates(c.world, a) && H.Allowed(c.world.ids, h)
    ensures H.PlainWell(a) && a.ids == c.world.ids && H.Healthy(c.world)
    ensures H.Simulates(H.Step(c.world, h), H.PlainStep(a, h))
  {
    H.StepSimulated(c.world, a, h);
  }

  lemma {:induction false} HeldIs(w: H.World, a: H.Plain)
    requires H.Simulates(w, a)
    ensures H.Healthy(w) && H.PlainWell(a) && a.ids == w.ids && a.held == Denote(w.ring)
  {
  }

  lemma {:induction false} RunGood(c: Coarse, a: H.Plain, es: seq<Event>, gap: nat, t: int)
    requires Healthy(c) && AllowedRun(c.world.ids, es) && H.Simulates(c.world, a)
    requires Invariant(c, a, gap, t) && Clocked(es, gap, t) && gap > 0
    ensures Good(Denote(Run(c, es).world.ring), gap, ClockAtEnd(es, t))
    ensures Run(c, es).world.interval == gap
    decreases |es|
  {
    hide H.Simulates, Step, PlainAfter, Good, SavedGood, InTime, ClockAfter, Allowed, Healthy;
    HeldIs(c.world, a);
    if es == [] {
      GoodLater(a.held, gap, Bound(c.acc, t), t);
    } else {
      StepGood(c, a, es[0], gap, t);
      PlainAfterIsRun(c, a, es[0]);
      RunGood(Step(c, es[0]), PlainAfter(c, a, es[0]), es[1..], gap, ClockAfter(es[0], t));
    }
  }

  /** Over every run of ticks, opens, failures, closes, restarts and crashes anywhere, through
      any number of processes and metric sets, on one storage that begins with good rows and
      a clock that never runs back: the rows of a coarse tier lie an interval apart. */
  lemma {:induction false} RowsStayApart(start: Coarse, es: seq<Event>, t: int)
    requires Begins(start) && AllowedRun(start.world.ids, es) && start.world.interval > 0 && t >= 0
    requires LoadsGood(start.world.file.image, start.world.interval, t) && Clocked(es, start.world.interval, t)
    ensures var w := Run(start, es).world;
            w.interval == start.world.interval && Good(Denote(w.ring), w.interval, ClockAtEnd(es, t))
  {
    BeginsFed(start);
    H.StartSimulated(start.world);
    hide H.Simulates, Run, Good;
    NothingGood(start.world.interval, t);
    RunGood(start, H.PlainOf(start.world), es, start.world.interval, t);
  }

  /** So over every such run a request to the 300 second tier is answered in full whenever
      its window is under 1,200,000 seconds. */
  lemma {:induction false} RequestsStayComplete(start: Coarse, es: seq<Event>, t: int, window: nat, now: int)
    requires Begins(start) && AllowedRun(start.world.ids, es) && start.world.interval == 300 && t >= 0
    requires LoadsGood(start.world.file.image, 300, t) && Clocked(es, 300, t)
    requires ClockAtEnd(es, t) <= now && window < 1_200_000
    ensures Q.Complete(Denote(Run(start, es).world.ring), window, now)
  {
    BeginsFed(start);
    RowsStayApart(start, es, t);
    var w := Run(start, es).world;
    hide Run, LoadsGood, Clocked, Q.Complete, Q.Apart;
    Q.QueryComplete(|w.ids|, 2, |w.ring.slots|, window, Denote(w.ring), now);
  }
}
