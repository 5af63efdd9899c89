/** A coarse tier from pushes to file: the open bucket in front of the ring, over many
    process lives. */
module CoarseHistory {
  import opened Samples
  import opened Rings
  import B = Buckets
  import H = History
  import M = Mirror
  import R = Recovery
  import Q = Query
  import Registry

  datatype Coarse = Coarse(world: H.World, acc: B.Acc)

  /** A sample of the process, anything else that happens to the tier, or a crash inside
      the tick of a sample, after the tier's record if that tick makes one. */
  datatype Event =
    | Tick(x: Sample)
    | Tier(e: H.Event)
    | TickCut(x: Sample, ids: seq<string>, interval: nat, capacity: nat)

  predicate Ends(e: Event) { e.TickCut? || (e.Tier? && H.EndsProcess(e.e)) }

  /** The metric ids in force after an event. */
  function IdsAfter(ids: seq<string>, e: Event): seq<string>
  {
    match e
    case Tick(_) => ids
    case Tier(t) => if H.EndsProcess(t) then t.ids else ids
    case TickCut(_, next, _, _) => next
  }

  ghost predicate Healthy(c: Coarse)
  {
    H.Healthy(c.world) && B.Shaped(c.acc, |c.world.ids|)
  }

  ghost predicate Allowed(ids: seq<string>, e: Event)
  {
    match e
    case Tick(x) => H.Allowed(ids, H.Event.Append(x))
    case Tier(t) => !t.Append? && !(t.Cut? && t.at.InAppend?) && H.Allowed(ids, t)
    case TickCut(x, next, interval, capacity) => H.Allowed(ids, H.Event.Append(x)) && H.Usable(next, interval, capacity)
  }

  function Pushed(c: Coarse, x: Sample): B.Pushed
    requires B.Shaped(c.acc, |x.row|)
  {
    B.Push(c.acc, c.world.interval, x)
  }

  /** What a crash inside a tick is to the tier. */
  function CutEvent(c: Coarse, e: Event): H.Event
    requires e.TickCut? && B.Shaped(c.acc, |e.x.row|)
  {
    var p := Pushed(c, e.x);
    if p.emitted == [] then H.Restart(e.ids, e.interval, e.capacity)
    else H.Cut(H.InAppend(p.emitted[0]), e.ids, e.interval, e.capacity)
  }

  /** A tick reaches the ring, and the file, only as the mean of a bucket it closes. A new
      process starts with no bucket open. */
  ghost function Step(c: Coarse, e: Event): (d: Coarse)
    requires Healthy(c) && Allowed(c.world.ids, e)
    ensures Healthy(d) && d.world.ids == IdsAfter(c.world.ids, e)
  {
    match e
    case Tick(x) =>
      var p := Pushed(c, x);
      Coarse(if p.emitted == [] then c.world else H.Step(c.world, H.Event.Append(p.emitted[0])), p.acc)
    case Tier(t) => Coarse(H.Step(c.world, t), if H.EndsProcess(t) then B.Fresh(|t.ids|, 0) else c.acc)
    case TickCut(_, ids, _, _) => Coarse(H.Step(c.world, CutEvent(c, e)), B.Fresh(|ids|, 0))
  }

  ghost predicate AllowedRun(ids: seq<string>, es: seq<Event>)
    decreases |es|
  {
    es == [] ||
    (Allowed(ids, es[0]) && AllowedRun(IdsAfter(ids, es[0]), es[1..]))
  }

  ghost function Run(c: Coarse, es: seq<Event>): (d: Coarse)
    requires Healthy(c) && AllowedRun(c.world.ids, es)
    ensures Healthy(d)
    decreases |es|
  {
    if es == [] then c else Run(Step(c, es[0]), es[1..])
  }

  /** What one event is to the ring and the file. */
  ghost function TierEvent(c: Coarse, e: Event): seq<H.Event>
    requires Healthy(c) && Allowed(c.world.ids, e)
  {
    match e
    case Tick(x) => var p := Pushed(c, x); if p.emitted == [] then [] else [H.Event.Append(p.emitted[0])]
    case Tier(t) => [t]
    case TickCut(_, _, _, _) => [CutEvent(c, e)]
  }

  ghost function TierEvents(c: Coarse, es: seq<Event>): seq<H.Event>
    requires Healthy(c) && AllowedRun(c.world.ids, es)
    decreases |es|
  {
    if es == [] then [] else TierEvent(c, es[0]) + TierEvents(Step(c, es[0]), es[1..])
  }

  lemma {:induction false} StepIsTierRun(c: Coarse, e: Event, rest: seq<H.Event>)
    requires Healthy(c) && Allowed(c.world.ids, e)
    requires H.AllowedRun(Step(c, e).world.ids, rest)
    ensures var es := TierEvent(c, e) + rest;
            H.AllowedRun(c.world.ids, es) && H.Run(c.world, es) == H.Run(Step(c, e).world, rest)
  {
    var es := TierEvent(c, e) + rest;
    if TierEvent(c, e) == [] {
      assert es == rest;
    } else {
      assert es[1..] == rest;
    }
  }

  /** So every run of a coarse tier is a run of the ring and the file, and what is known of
      those holds for it. */
  lemma {:induction false} RunIsTierRun(c: Coarse, es: seq<Event>)
    requires Healthy(c) && AllowedRun(c.world.ids, es)
    ensures H.AllowedRun(c.world.ids, TierEvents(c, es))
    ensures Run(c, es).world == H.Run(c.world, TierEvents(c, es))
    decreases |es|
  {
    hide Step, TierEvent, Healthy, Allowed;
    if es != [] {
      RunIsTierRun(Step(c, es[0]), es[1..]);
      StepIsTierRun(c, es[0], TierEvents(Step(c, es[0]), es[1..]));
    }
  }

  // --------------------------------------------------- one process's ticks

  predicate OneProcess(es: seq<Event>)
  {
    forall i :: 0 <= i < |es| ==> !Ends(es[i]) && !(es[i].Tier? && es[i].e.OtherStorage?)
  }

  /** The samples pushed during a run. */
  function Pushes(es: seq<Event>): seq<Sample>
    decreases |es|
  {
    if es == [] then [] else (if es[0].Tick? then [es[0].x] else []) + Pushes(es[1..])
  }

  /** The bucket machine, given these pushes from the start of the process, is where the
      tier is, and has emitted these rows. */
  ghost predicate Fed(c: Coarse, pushed: seq<Sample>, emitted: seq<Sample>)
  {
    B.Pushable(pushed, |c.world.ids|) &&
    B.Run(|c.world.ids|, c.world.interval, pushed) == B.Pushed(c.acc, emitted)
  }

  lemma {:induction false} TickFed(c: Coarse, pushed: seq<Sample>, emitted: seq<Sample>, x: Sample)
    requires Healthy(c) && Allowed(c.world.ids, Tick(x)) && Fed(c, pushed, emitted)
    ensures Fed(Step(c, Tick(x)), pushed + [x], emitted + Pushed(c, x).emitted)
  {
    hide B.Push, H.Step;
    assert (pushed + [x])[..|pushed|] == pushed;
    var d := Step(c, Tick(x));
    assert d.world.interval == c.world.interval by {
      IntervalStays(c, Tick(x));
    }
  }

  lemma {:induction false} IntervalStays(c: Coarse, e: Event)
    requires Healthy(c) && Allowed(c.world.ids, e) && !Ends(e)
    ensures Step(c, e).world.interval == c.world.interval
  {
    hide M.AppendRecord, M.AppendRecords, M.CloseImage, M.Load;
  }

  lemma {:induction false} TickAppended(c: Coarse, x: Sample)
    requires Healthy(c) && Allowed(c.world.ids, Tick(x))
    ensures H.Appended(TierEvent(c, Tick(x))) == Pushed(c, x).emitted && Pushes([Tick(x)]) == [x]
  {
    var p := Pushed(c, x);
    assert [Tick(x)][1..] == [];
    if p.emitted != [] {
      assert [H.Event.Append(p.emitted[0])][1..] == [];
      assert p.emitted == [p.emitted[0]];
    }
  }

  lemma {:induction false} StepFed(c: Coarse, pushed: seq<Sample>, emitted: seq<Sample>, e: Event)
    requires Healthy(c) && Allowed(c.world.ids, e) && OneProcess([e]) && Fed(c, pushed, emitted)
    ensures Fed(Step(c, e), pushed + Pushes([e]), emitted + H.Appended(TierEvent(c, e)))
    ensures Step(c, e).world.ids == c.world.ids && Step(c, e).world.interval == c.world.interval
    ensures H.OneProcess(TierEvent(c, e))
  {
    hide B.Push, H.Step, B.Run;
    assert [e][0] == e;
    match e
    case Tick(x) =>
      TickAppended(c, x);
      IntervalStays(c, e);
      TickFed(c, pushed, emitted, x);
    case Tier(t) =>
      IntervalStays(c, e);
      assert [e][1..] == [] && [t][1..] == [];
      assert pushed + [] == pushed && emitted + [] == emitted;
  }

  lemma {:induction false} AppendedJoins(a: seq<H.Event>, b: seq<H.Event>)
    ensures H.Appended(a + b) == H.Appended(a) + H.Appended(b)
    decreases |a|
  {
    if a == [] {
      assert a + b == b;
    } else {
      AppendedJoins(a[1..], b);
      assert (a + b)[0] == a[0] && (a + b)[1..] == a[1..] + b;
      var x := if a[0].Append? then [a[0].x] else [];
      assert H.Appended(a) == x + H.Appended(a[1..]);
      assert H.Appended(a + b) == x + H.Appended(a[1..] + b);
      hide H.Appended;
      Grouped(x, H.Appended(a[1..]), H.Appended(b));
    }
  }

  lemma {:induction false} OneProcessJoins(a: seq<H.Event>, b: seq<H.Event>)
    requires H.OneProcess(a) && H.OneProcess(b)
    ensures H.OneProcess(a + b)
  {
  }

  lemma {:induction false} PushesSplit(es: seq<Event>)
    requires es != []
    ensures Pushes(es) == Pushes([es[0]]) + Pushes(es[1..])
  {
    assert [es[0]][1..] == [];
  }

  /** What a process appends to a coarse tier is what its bucket machine emits. */
  lemma {:induction false} RunFed(c: Coarse, pushed: seq<Sample>, emitted: seq<Sample>, es: seq<Event>)
    requires Healthy(c) && AllowedRun(c.world.ids, es) && OneProcess(es) && Fed(c, pushed, emitted)
    ensures Fed(Run(c, es), pushed + Pushes(es), emitted + H.Appended(TierEvents(c, es)))
    ensures Run(c, es).world.ids == c.world.ids && Run(c, es).world.interval == c.world.interval
    ensures H.OneProcess(TierEvents(c, es))
    decreases |es|
  {
    hide Healthy, Allowed, Fed, Step, TierEvent, H.Appended, Pushes, OneProcess, H.OneProcess;
    if es == [] {
      NoEvents();
      assert pushed + [] == pushed && emitted + [] == emitted;
    } else {
      var e, d, rest := es[0], Step(c, es[0]), es[1..];
      var last, more := TierEvent(c, e), TierEvents(d, rest);
      OneEvent(es);
      StepFed(c, pushed, emitted, e);
      RunFed(d, pushed + Pushes([e]), emitted + H.Appended(last), rest);
      PushesSplit(es);
      AppendedJoins(last, more);
      OneProcessJoins(last, more);
      Grouped(pushed, Pushes([e]), Pushes(rest));
      Grouped(emitted, H.Appended(last), H.Appended(more));
    }
  }

  lemma {:induction false} NoEvents()
    ensures Pushes([]) == [] && H.Appended([]) == [] && H.OneProcess([])
  {
  }

  lemma {:induction false} Grouped(a: seq<Sample>, b: seq<Sample>, c: seq<Sample>)
    ensures a + b + c == a + (b + c)
  {
  }

  lemma {:induction false} OneEvent(es: seq<Event>)
    requires es != [] && OneProcess(es)
    ensures OneProcess([es[0]]) && OneProcess(es[1..])
  {
  }

  /** A process starts on storage with any contents. */
  ghost predicate Begins(c: Coarse)
  {
    H.Begins(c.world) && c.acc == B.Fresh(|c.world.ids|, 0)
  }

  lemma {:induction false} BeginsFed(c: Coarse)
    requires Begins(c)
    ensures Healthy(c) && Fed(c, [], [])
  {
  }

  // ---------------------------------------------------------- main results

  /** From w to v the tier took in the saved rows, if it adopted them, and these rows of
      its own. */
  ghost predicate KeepsHistory(w: H.World, adopts: bool, emitted: seq<Sample>, v: H.World)
    requires Rings.Valid(w.ring) && Rings.Valid(v.ring)
  {
    Denote(v.ring) == LastN((if adopts then M.Load(w.file.image, w.interval, w.ids) else []) + emitted, |w.ring.slots|)
  }

  /** Whatever happened before, over a process life of ticks and opens, failed opens and
      closes in any order: a coarse tier holds the newest of the saved rows, if the first
      open found it empty, followed by the means of the buckets its process closed, and
      while its file is open the file's ring denotes the same. */
  lemma {:induction false} CoarseProcessHistory(start: Coarse, before: seq<Event>, es: seq<Event>)
    returns (emitted: seq<Sample>)
    requires Begins(start) && AllowedRun(start.world.ids, before) && Begins(Run(start, before))
    requires AllowedRun(Run(start, before).world.ids, es) && OneProcess(es)
    ensures var c := Run(start, before);
            var d := Run(c, es);
            && Fed(d, Pushes(es), emitted)
            && KeepsHistory(c.world, H.OpensEmpty(TierEvents(c, es)), emitted, d.world)
            && (d.world.attached ==> H.FileDenotes(d.world))
            && d.world.ids == c.world.ids && d.world.interval == c.world.interval
  {
    var c := Run(start, before);
    BeginsFed(start);
    var a := Reached(start, before);
    hide Run, Begins, Fed, TierEvents, KeepsHistory, H.FileDenotes, H.Simulates;
    emitted := HistoryFrom(c, a, es);
  }

  /** The plain view that the run so far has led to. */
  lemma {:induction false} Reached(start: Coarse, es: seq<Event>) returns (a: H.Plain)
    requires Begins(start) && Healthy(start) && AllowedRun(start.world.ids, es)
    ensures H.Simulates(Run(start, es).world, a)
  {
    hide Run, H.Run, H.Simulates, H.PlainRun, TierEvents;
    RunIsTierRun(start, es);
    H.ReachedSimulated(start.world, TierEvents(start, es));
    a := H.PlainRun(H.PlainOf(start.world), TierEvents(start, es));
  }

  lemma {:induction false} HistoryFrom(c: Coarse, a: H.Plain, es: seq<Event>) returns (emitted: seq<Sample>)
    requires Begins(c) && AllowedRun(c.world.ids, es) && OneProcess(es) && H.Simulates(c.world, a)
    ensures Healthy(c)
    ensures var d := Run(c, es);
            && Fed(d, Pushes(es), emitted)
            && KeepsHistory(c.world, H.OpensEmpty(TierEvents(c, es)), emitted, d.world)
            && (d.world.attached ==> H.FileDenotes(d.world))
            && d.world.ids == c.world.ids && d.world.interval == c.world.interval
  {
    BeginsFed(c);
    BeginsClosed(c);
    hide Run, H.Run, Fed, H.Simulates, TierEvents, H.FileDenotes, H.Appended, Begins, Healthy, H.Healthy;
    hide AllowedRun, H.AllowedRun, Pushes, OneProcess, H.OneProcess, H.OpensEmpty, KeepsHistory;
    RunIsTierRun(c, es);
    RunFed(c, [], [], es);
    emitted := H.Appended(TierEvents(c, es));
    assert [] + Pushes(es) == Pushes(es) && [] + emitted == emitted;
    KeptFrom(c.world, a, TierEvents(c, es));
  }

  lemma {:induction false} BeginsClosed(c: Coarse)
    requires Begins(c)
    ensures H.Healthy(c.world) && c.world.ring.count == 0 && !c.world.attached
  {
  }

  lemma {:induction false} KeptFrom(w: H.World, a: H.Plain, es: seq<H.Event>)
    requires H.Healthy(w) && H.Simulates(w, a) && H.AllowedRun(w.ids, es) && H.OneProcess(es)
    requires w.ring.count == 0 && !w.attached
    ensures H.Healthy(H.Run(w, es)) && Rings.Valid(w.ring) && Rings.Valid(H.Run(w, es).ring)
    ensures KeepsHistory(w, H.OpensEmpty(es), H.Appended(es), H.Run(w, es))
    ensures H.Run(w, es).attached ==> H.FileDenotes(H.Run(w, es))
  {
    hide H.Run, H.Simulates, H.FileDenotes, H.Appended, H.AllowedRun, H.OneProcess, H.OpensEmpty, M.Load, Denote, LastN;
    H.HistoryFrom(w, a, es);
  }

  // ---------------------------------------------------- rows stay apart

  /** A crash may put the rows out of order, but not closer together. */
  lemma {:induction false} CrashKeepsApart(flushed: seq<Sample>, pending: seq<Sample>, capacity: nat, gap: nat)
    requires |flushed| <= capacity && |pending| <= capacity && Q.Apart(flushed + pending, gap)
    ensures Q.Apart(M.Recovered(flushed, pending, capacity), gap)
  {
    var all, held := flushed + pending, M.Recovered(flushed, pending, capacity);
    var over := |all| - capacity;
    forall i, j | 0 <= i < |held| && 0 <= j < |held| && i != j ensures Q.FarFrom(held[i], held[j], gap) {
      assert held[i] == all[if i < over then capacity + i else i];
      assert held[j] == all[if j < over then capacity + j else j];
      assert Q.FarFrom(all[if i < over then capacity + i else i], all[if j < over then capacity + j else j], gap);
    }
  }

  /** Over a process life that begins with rows apart, all of them older than its first
      sample, the coarse tier's rows stay apart, so requests of it are answered in full
      under the same condition as ever. */
  lemma {:induction false} ProcessKeepsApart(start: Coarse, before: seq<Event>, es: seq<Event>)
    requires Begins(start) && AllowedRun(start.world.ids, before) && Begins(Run(start, before))
    requires AllowedRun(Run(start, before).world.ids, es) && OneProcess(es)
    requires var w := Run(start, before).world;
             w.interval > 0 && Q.Apart(M.Load(w.file.image, w.interval, w.ids), w.interval) &&
             OlderThan(M.Load(w.file.image, w.interval, w.ids), Pushes(es))
    ensures Q.Apart(Denote(Run(Run(start, before), es).world.ring), Run(start, before).world.interval)
  {
    var emitted := CoarseProcessHistory(start, before, es);
    hide Run, TierEvents, M.Load, H.FileDenotes, Q.Apart, Allowed, AllowedRun, Begins;
    var c := Run(start, before);
    FedKeepsApart(c, Run(c, es), H.OpensEmpty(TierEvents(c, es)), Pushes(es), emitted);
  }

  lemma {:induction false} FedKeepsApart(c: Coarse, d: Coarse, adopts: bool, pushes: seq<Sample>, emitted: seq<Sample>)
    requires Healthy(c) && Healthy(d) && d.world.ids == c.world.ids && d.world.interval == c.world.interval > 0
    requires Fed(d, pushes, emitted) && KeepsHistory(c.world, adopts, emitted, d.world)
    requires var loaded := M.Load(c.world.file.image, c.world.interval, c.world.ids);
             Q.Apart(loaded, c.world.interval) && OlderThan(loaded, pushes)
    ensures Q.Apart(Denote(d.world.ring), c.world.interval)
  {
    var w := c.world;
    var saved := if adopts then M.Load(w.file.image, w.interval, w.ids) else [];
    hide M.Load, B.Run;
    Q.CoarseTierApart(saved, |w.ids|, w.interval, pushes, |w.ring.slots|);
  }

  predicate OlderThan(xs: seq<Sample>, ys: seq<Sample>)
  {
    ys != [] ==> forall i :: 0 <= i < |xs| ==> xs[i].ts <= ys[0].ts
  }

  // ------------------------------------------------------------ a clean stop

  /** A close, and the next process with the same metrics and sizes. */
  function CleanRestart(w: H.World): seq<Event>
  {
    [Tier(H.Close), Tier(H.Restart(w.ids, w.interval, |w.ring.slots|)), Tier(H.Open)]
  }

  lemma {:induction false} CleanRestartSteps(d: Coarse)
    requires Healthy(d)
    ensures AllowedRun(d.world.ids, CleanRestart(d.world))
    ensures var w := d.world;
            && H.Usable(w.ids, w.interval, |w.ring.slots|)
            && Run(d, CleanRestart(w)) == Coarse(H.Reopened(H.Step(w, H.Close), w.ids, w.interval, |w.ring.slots|),
                                                 B.Fresh(|w.ids|, 0))
  {
    hide H.Step, H.Usable, B.Fresh;
    var w := d.world;
    assert H.Usable(w.ids, w.interval, |w.ring.slots|) by {
      HealthyUsable(w);
    }
    var stop := CleanRestart(w);
    var a := Step(d, stop[0]);
    var b := Step(a, stop[1]);
    assert stop[1..] == [stop[1], stop[2]] && stop[1..][1..] == [stop[2]] && stop[1..][1..][1..] == [];
    assert Run(b, [stop[2]]) == Step(b, stop[2]) by {
      assert [stop[2]][1..] == [];
    }
  }

  lemma {:induction false} HealthyUsable(w: H.World)
    requires H.Healthy(w)
    ensures H.Usable(w.ids, w.interval, |w.ring.slots|)
  {
  }

  /** A clean stop and the next start keep every row of a coarse tier, but the samples of
      the bucket that was open are gone: the rows are those of a process that was never
      given them, and the next one starts with no bucket. */
  lemma {:induction false} CleanStopLosesOpenBucket(start: Coarse, es: seq<Event>) returns (emitted: seq<Sample>)
    requires Begins(start) && AllowedRun(start.world.ids, es) && OneProcess(es)
    requires Run(start, es).world.attached && start.world.interval > 0 && Registry.Distinct(start.world.ids)
    ensures var d := Run(start, es);
            && AllowedRun(d.world.ids, CleanRestart(d.world))
            && (var next := Run(d, CleanRestart(d.world));
                Denote(next.world.ring) == Denote(d.world.ring) && next.acc == B.Fresh(|d.world.ids|, 0))
    ensures Fed(Run(start, es), Pushes(es), emitted) && EmittedWithoutOpen(start.world, Pushes(es), emitted)
  {
    BeginsFed(start);
    RunFed(start, [], [], es);
    emitted := H.Appended(TierEvents(start, es));
    assert [] + Pushes(es) == Pushes(es) && [] + emitted == emitted;
    var d := Run(start, es);
    WithoutOpen(d, Pushes(es), emitted);
    RunIsTierRun(start, es);
    hide Fed, Run, TierEvents, H.Run, AllowedRun, EmittedWithoutOpen, H.Reopened, H.Appended;
    CleanRestartSteps(d);
    H.CleanRestartIdentity(start.world, TierEvents(start, es));
  }

  /** The samples of the closed buckets alone make the same rows. */
  ghost predicate EmittedWithoutOpen(w: H.World, pushes: seq<Sample>, emitted: seq<Sample>)
  {
    var closed := B.Flat(B.Cut(pushes, w.interval).closed);
    B.Pushable(closed, |w.ids|) && closed <= pushes && B.Run(|w.ids|, w.interval, closed).emitted == emitted
  }

  lemma {:induction false} WithoutOpen(d: Coarse, pushes: seq<Sample>, emitted: seq<Sample>)
    requires Fed(d, pushes, emitted) && d.world.interval > 0
    ensures EmittedWithoutOpen(d.world, pushes, emitted)
  {
    B.OpenBucketLeavesNoTrace(|d.world.ids|, d.world.interval, pushes);
  }
}
