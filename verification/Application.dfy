/** The part of the main program that keeps the history: the tiers, their files, and
    the open, retry, close and rebuild steps around them. */
module Application {
  import opened Samples
  import opened Bytes
  import opened Rings
  import opened ProgramRuns
  import B = Buckets
  import CH = CoarseHistory
  import H = History
  import L = Layout
  import M = Mirror
  import P = PersistFiles
  import R = Registry
  import S = Stores
  import Z = Sizing

  /** What the program keeps for one tier: the ring, its file on the storage, and the
      handle on that file while one is open. */
  class Line {
    const tier: S.Tier
    const file: P.File
    var persist: P.Persist?
    ghost var Repr: set<object>

    ghost predicate Valid()
      reads this, Repr
      ensures Valid() ==> this in Repr && file in Repr && (persist != null ==> persist in Repr)
      ensures Valid() ==> tier.Valid() && tier.Repr <= Repr
    {
      && this in Repr && file in Repr && tier in Repr && tier.Repr <= Repr
      && tier.Valid() && this !in tier.Repr && file !in tier.Repr
      && (persist != null ==>
            persist in Repr && persist !in tier.Repr && persist.Valid() && persist.file == file &&
            persist.nMetrics == tier.nMetrics && persist.capacity == tier.capacity &&
            persist.intervalS == tier.intervalS)
      && tier.hasCallback == (persist != null)
    }

    /** The tier as one world, for the metric ids of the process. */
    ghost function World(ids: seq<string>): (w: H.World)
      requires Valid()
      reads this, Repr
      ensures Rings.Valid(w.ring) && w.attached == (persist != null) && w.file.image == file.bytes && w.ids == ids
    {
      H.World(ids, tier.intervalS, tier.RingOf(), persist != null,
              if persist == null then H.Handle(ids, tier.intervalS, tier.capacity, file.bytes) else persist.State())
    }

    /** The same with the tier's open bucket. */
    ghost function History(ids: seq<string>): (c: CH.Coarse)
      requires Valid()
      reads this, Repr
      ensures c.world == World(ids)
    {
      CH.Coarse(World(ids), tier.AccOf())
    }

    constructor (tier: S.Tier, file: P.File)
      requires tier.Valid() && file !in tier.Repr && !tier.hasCallback
      ensures Valid() && this.tier == tier && this.file == file && persist == null
      ensures Repr == {this, file} + tier.Repr
    {
      this.tier := tier;
      this.file := file;
      persist := null;
      Repr := {this, file} + tier.Repr;
    }

    /** Saved samples enter an empty tier only. */
    method AdoptSaved(handle: P.Persist, registry: R.MetricRegistry)
      requires Valid() && persist == null && registry.Valid() && registry.count == tier.nMetrics
      requires handle.Valid() && handle.file == file && handle.intervalS == tier.intervalS
      modifies tier`head, tier`count, tier.timestamps, tier.data
      ensures Valid() && tier.RingOf() == H.Adopt(old(World(registry.Ids())))
    {
      hide M.Load, Rings.AppendAll, S.Tier.RingOf, Denote;
      if tier.count == 0 {
        var restored := handle.Load(registry, tier);
      }
    }

    /** persist_open on storage that is there, the load of an empty tier, the sync, and
        the callback. */
    method Attach(registry: R.MetricRegistry)
      requires Valid() && persist == null && registry.Valid() && registry.count == tier.nMetrics
      requires H.Healthy(World(registry.Ids()))
      requires registry !in Repr && registry.defs !in Repr
      modifies Repr
      ensures Valid() && persist != null && fresh(Repr - old(Repr))
      ensures World(registry.Ids()) == H.Step(old(World(registry.Ids())), H.Open)
      ensures tier.AccOf() == old(tier.AccOf())
    {
      hide M.Load, H.Sync, S.Tier.RingOf, S.Tier.State, Denote, H.Adopt, Rings.AppendAll, R.MetricRegistry.Ids, M.Dated;
      hide M.Rows, Rings.Valid, B.Shaped;
      ghost var ids := registry.Ids();
      ghost var before := World(ids);
      H.AdoptedDated(before);
      assert L.AllText(ids);
      var handle := new P.Persist(file, tier.nMetrics, tier.capacity, tier.intervalS);
      AdoptSaved(handle, registry);
      handle.Sync(registry, tier);
      tier.hasCallback := true;
      persist := handle;
      Repr := Repr + {handle};
    }

    /** One tier's share of close_persistence. */
    method Detach(ghost ids: seq<string>)
      requires Valid() && H.Healthy(World(ids)) && |ids| == tier.nMetrics
      modifies Repr
      ensures Valid() && persist == null && Repr == old(Repr)
      ensures World(ids) == H.Step(old(World(ids)), H.Close) && tier.AccOf() == old(tier.AccOf())
    {
      if persist == null {
        return;
      }
      tier.hasCallback := false;
      persist.Close();
      persist := null;
    }

    /** on_tier_sample, for the row a push left pending. */
    method Deliver(pending: S.Pending, timestamp: int, ghost ids: seq<string>)
      requires Valid() && IsInt64(timestamp)
      requires pending.Call? ==> persist != null && |pending.row| == tier.nMetrics
      modifies persist, file
      ensures Valid() && Repr == old(Repr) && persist == old(persist)
      ensures tier.State() == old(tier.State())
      ensures World(ids) == Delivered(old(World(ids)), pending, timestamp)
    {
      if pending.Call? {
        persist.Append(pending.row, timestamp);
      }
    }
  }

  /** The file side of an append, run after the ring side. */
  ghost function Delivered(w: H.World, pending: S.Pending, timestamp: int): H.World
    requires pending.Call? ==> w.file.capacity > 0 && IsInt64(timestamp)
  {
    match pending
    case NoCall => w
    case Call(row) => w.(file := M.AppendRecord(w.file, Sample(timestamp, row)))
  }

  lemma {:induction false} LineIsNew(line: Line, ids: seq<string>, base: nat, memory: nat, i: nat)
    requires line.Valid() && line.persist == null && i < TIERS
    requires line.tier.IsNew(|ids|, IntervalOf(base, i), Z.Capacity(|ids|, base, memory, i))
    ensures line.History(ids) == NewState(ids, base, memory, i, line.file.bytes)
  {
  }

  lemma {:induction false} ReprsApart(a: Line, b: Line, r: set<object>, s: set<object>)
    requires a.Repr == {a, a.file} + r && b.Repr == {b, b.file} + s
    requires r !! s && a != b && a.file != b.file && a !in s && a.file !in s && b !in r && b.file !in r
    ensures a.Repr !! b.Repr
  {
  }

  /** Three lines that share nothing. */
  ghost predicate Separate(a: Line, b: Line, c: Line)
    reads a, b, c, a.Repr, b.Repr, c.Repr
  {
    && a.Valid() && b.Valid() && c.Valid()
    && a.Repr !! b.Repr && a.Repr !! c.Repr && b.Repr !! c.Repr
  }

  class App {
    var registry: R.MetricRegistry
    var store: S.Store
    var fine: Line
    var medium: Line
    var coarse: Line

    function LineAt(i: nat): Line
      requires i < TIERS
      reads this
    {
      if i == 0 then fine else if i == 1 then medium else coarse
    }

    ghost function Repr(): set<object>
      reads this, fine, medium, coarse
    {
      fine.Repr + medium.Repr + coarse.Repr
    }

    ghost predicate Valid()
      reads this, registry, registry.defs, store, store.fine, store.medium, store.coarse, fine, medium, coarse, Repr()
    {
      && registry.Valid() && store.Valid() && store.nMetrics == registry.count
      && fine.tier == store.fine && medium.tier == store.medium && coarse.tier == store.coarse
      && Separate(fine, medium, coarse)
      && Repr() !! {this, registry, registry.defs, store}
    }

    /** A tier with its file and its open bucket, for the metrics of the process. */
    ghost function State(i: nat): (c: CH.Coarse)
      requires Valid() && i < TIERS
      reads this, registry, registry.defs, store, store.fine, store.medium, store.coarse, fine, medium, coarse, Repr()
      ensures Rings.Valid(c.world.ring) && c.world.ids == registry.Ids()
    {
      LineAt(i).History(registry.Ids())
    }

    /** All three tiers. */
    ghost function Program(): (p: Program)
      requires Valid()
      reads this, registry, registry.defs, store, store.fine, store.medium, store.coarse, fine, medium, coarse, Repr()
    {
      ProgramRuns.Program(State(0), State(1), State(2))
    }

    ghost predicate Healthy()
      requires Valid()
      reads this, registry, registry.defs, store, store.fine, store.medium, store.coarse, fine, medium, coarse, Repr()
    {
      CH.Healthy(State(0)) && CH.Healthy(State(1)) && CH.Healthy(State(2))
    }

    /** A process start on some storage, before the first open: new empty tiers over
        whatever the files hold. */
    constructor (registry: R.MetricRegistry, base: nat, memory: nat, f0: P.File, f1: P.File, f2: P.File)
      requires registry.Valid() && f0 != f1 && f0 != f2 && f1 != f2
      ensures Valid() && this.registry == registry && fresh(Repr() - {f0, f1, f2})
      ensures fine.file == f0 && medium.file == f1 && coarse.file == f2
      ensures fine.persist == null && medium.persist == null && coarse.persist == null
      ensures State(0) == NewState(registry.Ids(), base, memory, 0, f0.bytes)
      ensures State(1) == NewState(registry.Ids(), base, memory, 1, f1.bytes)
      ensures State(2) == NewState(registry.Ids(), base, memory, 2, f2.bytes)
    {
      hide NewState, Line.History, Line.Valid, S.Store.Valid;
      var tiers, a, b, c := NewLines(registry.count, base, memory, f0, f1, f2, registry.Ids());
      this.registry := registry;
      store := tiers;
      fine, medium, coarse := a, b, c;
    }

    static method NewLines(
      n: nat, base: nat, memory: nat, f0: P.File, f1: P.File, f2: P.File, ghost ids: seq<string>)
      returns (tiers: S.Store, a: Line, b: Line, c: Line)
      requires f0 != f1 && f0 != f2 && f1 != f2 && n == |ids|
      ensures fresh(tiers) && tiers.Valid() && tiers.nMetrics == n
      ensures fresh(a) && fresh(b) && fresh(c) && Separate(a, b, c)
      ensures a.tier == tiers.fine && b.tier == tiers.medium && c.tier == tiers.coarse
      ensures a.file == f0 && b.file == f1 && c.file == f2
      ensures a.persist == null && b.persist == null && c.persist == null
      ensures fresh(a.Repr + b.Repr + c.Repr - {f0, f1, f2}) && tiers !in a.Repr + b.Repr + c.Repr
      ensures a.History(ids) == NewState(ids, base, memory, 0, f0.bytes)
      ensures b.History(ids) == NewState(ids, base, memory, 1, f1.bytes)
      ensures c.History(ids) == NewState(ids, base, memory, 2, f2.bytes)
    {
      hide NewState, Line.History, Line.Valid, S.Tier.Valid, S.Tier.IsNew, Z.Capacity, Z.FineInterval;
      tiers := new S.Store(n, base, memory);
      a, b, c := LinesOver(tiers, f0, f1, f2);
      LineIsNew(a, ids, base, memory, 0);
      LineIsNew(b, ids, base, memory, 1);
      LineIsNew(c, ids, base, memory, 2);
    }

    static method LinesOver(tiers: S.Store, f0: P.File, f1: P.File, f2: P.File) returns (a: Line, b: Line, c: Line)
      requires tiers.Valid() && f0 != f1 && f0 != f2 && f1 != f2 && {f0, f1, f2} !! tiers.Footprint()
      requires !tiers.fine.hasCallback && !tiers.medium.hasCallback && !tiers.coarse.hasCallback
      ensures fresh(a) && fresh(b) && fresh(c) && Separate(a, b, c)
      ensures a.tier == tiers.fine && b.tier == tiers.medium && c.tier == tiers.coarse
      ensures a.file == f0 && b.file == f1 && c.file == f2
      ensures a.persist == null && b.persist == null && c.persist == null
      ensures a.Repr + b.Repr + c.Repr <= {a, b, c, f0, f1, f2} + tiers.Footprint() - {tiers}
    {
      hide S.Tier.Valid;
      a := new Line(tiers.fine, f0);
      b := new Line(tiers.medium, f1);
      c := new Line(tiers.coarse, f2);
      ReprsApart(a, b, tiers.fine.Repr, tiers.medium.Repr);
      ReprsApart(a, c, tiers.fine.Repr, tiers.coarse.Repr);
      ReprsApart(b, c, tiers.medium.Repr, tiers.coarse.Repr);
    }

    /** One line's share of close_persistence; the other two stay what they were. */
    static method CloseOne(line: Line, a: Line, b: Line, ghost ids: seq<string>)
      requires Separate(line, a, b) && CH.Healthy(line.History(ids)) && |ids| == line.tier.nMetrics
      modifies line.Repr
      ensures Separate(line, a, b) && line.persist == null && line.Repr == old(line.Repr)
      ensures line.History(ids) == ClosedState(old(line.History(ids)))
      ensures a.Repr == old(a.Repr) && a.persist == old(a.persist) && a.History(ids) == old(a.History(ids))
      ensures b.Repr == old(b.Repr) && b.persist == old(b.persist) && b.History(ids) == old(b.History(ids))
    {
      hide H.Healthy, H.Step, Line.World, S.Tier.AccOf;
      line.Detach(ids);
    }

    /** One line's share of try_open_persistence; the other two stay what they were. */
    static method OpenOne(line: Line, a: Line, b: Line, registry: R.MetricRegistry)
      requires Separate(line, a, b) && registry.Valid() && registry.count == line.tier.nMetrics
      requires line.persist == null && CH.Healthy(line.History(registry.Ids()))
      requires {registry, registry.defs} !! line.Repr + a.Repr + b.Repr
      modifies line.Repr
      ensures Separate(line, a, b) && line.persist != null && fresh(line.Repr - old(line.Repr))
      ensures line.History(registry.Ids()) == OpenedState(old(line.History(registry.Ids())))
      ensures a.Repr == old(a.Repr) && a.persist == old(a.persist)
      ensures a.History(registry.Ids()) == old(a.History(registry.Ids()))
      ensures b.Repr == old(b.Repr) && b.persist == old(b.persist)
      ensures b.History(registry.Ids()) == old(b.History(registry.Ids()))
    {
      hide H.Healthy, H.Step, Line.World, S.Tier.AccOf, R.MetricRegistry.Ids;
      line.Attach(registry);
    }

    /** close_persistence. */
    method ClosePersistence()
      requires Valid() && Healthy()
      modifies Repr()
      ensures Valid() && Healthy() && Repr() == old(Repr())
      ensures fine.persist == null && medium.persist == null && coarse.persist == null
      ensures registry.Ids() == old(registry.Ids())
      ensures Program() == After(old(Program()), Stop)
    {
      hide CH.Healthy, ClosedState, After, Line.History, Line.Valid, S.Tier.Valid;
      ghost var ids := registry.Ids();
      AfterStop(Program());
      CloseOne(fine, medium, coarse, ids);
      CloseOne(medium, fine, coarse, ids);
      CloseOne(coarse, fine, medium, ids);
    }

    /** Between steps either every tier has its file open or none has. */
    ghost predicate Even()
      reads this, fine, medium, coarse
    {
      (fine.persist != null) == (medium.persist != null) == (coarse.persist != null)
    }

    /** try_open_persistence while the mounts are what they were. available says which of the
        three opens would succeed; the first that does not rolls back the ones before. */
    method TryOpen(available: seq<bool>) returns (again: bool)
      requires Valid() && Healthy() && Even() && |available| == TIERS
      modifies Repr()
      ensures Valid() && Healthy() && Even() && fresh(Repr() - old(Repr()))
      ensures registry.Ids() == old(registry.Ids())
      ensures old(coarse.persist) != null ==> !again
      ensures old(coarse.persist) == null ==> again == !(available[0] && available[1] && available[2])
      ensures (coarse.persist != null) == !again
      ensures Program() ==
              if old(coarse.persist) != null then old(Program()) else AfterOpens(old(Program()), available)
    {
      hide CH.Healthy, After, AfterOpens, Opening, WithOpen, FirstAvailable;
      hide Line.History, Line.Valid, S.Store.Valid, S.Tier.Valid, R.MetricRegistry.Ids;
      if coarse.persist != null {
        return false;
      }
      ghost var p := Program();
      NothingOpening(p);
      OneMoreAvailable(available, 0);
      var i := 0;
      while i < TIERS
        invariant i <= TIERS && Valid() && Healthy() && fresh(Repr() - old(Repr()))
        invariant registry.Ids() == old(registry.Ids())
        invariant (fine.persist != null) == (i > 0) && (medium.persist != null) == (i > 1)
        invariant (coarse.persist != null) == (i > 2)
        invariant Program() == Opening(p, i)
        invariant FirstAvailable(available, i)
        modifies Repr()
      {
        OneMoreAvailable(available, i);
        if !available[i] {
          RoundFails(p, available, i);
          ClosePersistence();
          return true;
        }
        OpensOneMore(p, i);
        OpenAt(i);
        i := i + 1;
      }
      RoundSucceeds(p, available);
      again := false;
    }

    /** One turn of the loop over the tiers. */
    method OpenAt(i: nat)
      requires Valid() && Healthy() && i < TIERS && LineAt(i).persist == null
      modifies LineAt(i).Repr
      ensures Valid() && Healthy() && LineAt(i).persist != null && fresh(Repr() - old(Repr()))
      ensures registry.Ids() == old(registry.Ids()) && Program() == WithOpen(old(Program()), i)
      ensures forall k :: 0 <= k < TIERS && k != i ==> LineAt(k).persist == old(LineAt(k).persist)
    {
      hide CH.Healthy, OpenedState, Line.History, Line.Valid, S.Tier.Valid, R.MetricRegistry.Ids;
      if i == 0 {
        OpenOne(fine, medium, coarse, registry);
      } else if i == 1 {
        OpenOne(medium, fine, coarse, registry);
      } else {
        OpenOne(coarse, fine, medium, registry);
      }
    }

    /** The files of the next set of tiers: each the one of now or one of another storage. */
    ghost predicate Finds(f0: P.File, f1: P.File, f2: P.File)
      reads this, fine, medium, coarse
    {
      && f0 != f1 && f0 != f2 && f1 != f2
      && (f0 == fine.file || f0 !in Repr()) && (f1 == medium.file || f1 !in Repr())
      && (f2 == coarse.file || f2 !in Repr())
    }

    /** rebuild_for_new_storage: close, forget everything, take up the new metric set over
        the files found now, and try to open them. */
    method Rebuild(newRegistry: R.MetricRegistry, base: nat, memory: nat, f0: P.File, f1: P.File, f2: P.File,
                   available: seq<bool>) returns (next: App, again: bool)
      requires Valid() && Healthy() && |available| == TIERS
      requires newRegistry.Valid() && Finds(f0, f1, f2) && {newRegistry, newRegistry.defs} !! Repr()
      requires AllUsable(newRegistry.Ids(), base, memory)
      modifies Repr(), f0, f1, f2
      ensures next.Valid() && next.Healthy() && next.Even() && next.registry == newRegistry
      ensures newRegistry.Ids() == old(newRegistry.Ids())
      ensures again == !(available[0] && available[1] && available[2])
      ensures next.Program() == AfterOpens(old(Rebuilt(Program(), BootOver(newRegistry, base, memory, f0, f1, f2))),
                                           available)
    {
      hide CH.Healthy, Line.History, NewProgram, AfterOpens, Rebuilt, AllUsable, Line.Valid, S.Store.Valid,
           R.MetricRegistry.Ids, R.MetricRegistry.Valid;
      GiveUp(newRegistry, base, memory, f0, f1, f2);
      next, again := StartOver(newRegistry, base, memory, f0, f1, f2, available);
    }

    /** New tiers over the files, and a round of opens. */
    static method StartOver(registry: R.MetricRegistry, base: nat, memory: nat, f0: P.File, f1: P.File, f2: P.File,
                            available: seq<bool>) returns (next: App, again: bool)
      requires registry.Valid() && f0 != f1 && f0 != f2 && f1 != f2 && AllUsable(registry.Ids(), base, memory)
      requires |available| == TIERS
      modifies f0, f1, f2
      ensures next.Valid() && next.Healthy() && next.Even() && next.registry == registry
      ensures registry.Valid() && registry.Ids() == old(registry.Ids())
      ensures again == !(available[0] && available[1] && available[2])
      ensures Fit(old(NewProgram(registry.Ids(), base, memory, f0.bytes, f1.bytes, f2.bytes)))
      ensures next.Program() ==
              AfterOpens(old(NewProgram(registry.Ids(), base, memory, f0.bytes, f1.bytes, f2.bytes)), available)
    {
      hide CH.Healthy, Line.History, NewProgram, AfterOpens, AllUsable, Line.Valid, S.Store.Valid,
           R.MetricRegistry.Ids;
      NewProgramFits(registry.Ids(), base, memory, f0.bytes, f1.bytes, f2.bytes);
      next := TakeUp(registry, base, memory, f0, f1, f2);
      again := next.TryOpen(available);
    }

    /** The close before a rebuild, and what the next set of tiers then starts from. */
    method GiveUp(newRegistry: R.MetricRegistry, ghost base: nat, ghost memory: nat, f0: P.File, f1: P.File, f2: P.File)
      requires Valid() && Healthy() && newRegistry.Valid() && Finds(f0, f1, f2)
      requires {newRegistry, newRegistry.defs} !! Repr() && AllUsable(newRegistry.Ids(), base, memory)
      modifies Repr()
      ensures newRegistry.Valid() && newRegistry.Ids() == old(newRegistry.Ids())
      ensures NewProgram(newRegistry.Ids(), base, memory, f0.bytes, f1.bytes, f2.bytes)
           == old(Rebuilt(Program(), BootOver(newRegistry, base, memory, f0, f1, f2)))
    {
      hide CH.Healthy, ClosedState, After, NewState, Restarted, AllUsable;
      ghost var ids := newRegistry.Ids();
      ghost var p := Program();
      ghost var o0, o1, o2 := Other(fine, f0), Other(medium, f1), Other(coarse, f2);
      AfterStop(p);
      ClosePersistence();
      NewIsRestarted(p.fine, ids, base, memory, 0, o0, f0.bytes);
      NewIsRestarted(p.medium, ids, base, memory, 1, o1, f1.bytes);
      NewIsRestarted(p.coarse, ids, base, memory, 2, o2, f2.bytes);
    }

    /** A fit new process state over the given files. */
    static method TakeUp(registry: R.MetricRegistry, base: nat, memory: nat, f0: P.File, f1: P.File, f2: P.File)
      returns (next: App)
      requires registry.Valid() && f0 != f1 && f0 != f2 && f1 != f2 && AllUsable(registry.Ids(), base, memory)
      ensures fresh(next) && next.Valid() && next.Healthy() && next.Even() && next.coarse.persist == null
      ensures next.registry == registry && fresh(next.Repr() - {f0, f1, f2})
      ensures next.Program() == NewProgram(registry.Ids(), base, memory, f0.bytes, f1.bytes, f2.bytes)
    {
      hide CH.Healthy, Line.History, NewState, AllUsable, Line.Valid, S.Store.Valid;
      next := new App(registry, base, memory, f0, f1, f2);
      NewProgramFits(registry.Ids(), base, memory, f0.bytes, f1.bytes, f2.bytes);
    }

    /** try_open_persistence as the retry timer calls it. A new disk needs a rebuild, which
        arms a timer of its own if its opens fail. */
    method Retry(mountsChanged: bool, newRegistry: R.MetricRegistry, base: nat, memory: nat,
                 f0: P.File, f1: P.File, f2: P.File, available: seq<bool>)
      returns (next: App, again: bool, rearmed: bool)
      requires Valid() && Healthy() && Even() && |available| == TIERS
      requires newRegistry.Valid() && Finds(f0, f1, f2) && {newRegistry, newRegistry.defs} !! Repr()
      requires AllUsable(newRegistry.Ids(), base, memory)
      modifies Repr(), f0, f1, f2
      ensures next.Valid() && next.Healthy() && next.Even()
      ensures var rebuilds := old(coarse.persist) == null && mountsChanged;
              var opens := old(coarse.persist) == null && !mountsChanged;
              var failed := !(available[0] && available[1] && available[2]);
              && (rebuilds ==> next.registry == newRegistry) && (!rebuilds ==> next == this)
              && again == (opens && failed) && rearmed == (rebuilds && failed)
      ensures next.Program() ==
              After(old(Program()),
                    ProgramRuns.Retry(mountsChanged, old(BootOver(newRegistry, base, memory, f0, f1, f2)), available))
    {
      hide CH.Healthy, Line.History, AfterOpens, Rebuilt, AllUsable, Line.Valid, S.Store.Valid, R.MetricRegistry.Valid,
           After;
      AfterRetry(Program(), mountsChanged, BootOver(newRegistry, base, memory, f0, f1, f2), available);
      next, again, rearmed := this, false, false;
      if coarse.persist != null {
        return;
      }
      if mountsChanged {
        next, rearmed := Rebuild(newRegistry, base, memory, f0, f1, f2, available);
      } else {
        again := TryOpen(available);
      }
    }

    /** What the next process or rebuild would start with. */
    ghost function BootOver(newRegistry: R.MetricRegistry, base: nat, memory: nat, f0: P.File, f1: P.File, f2: P.File)
      : (b: Boot)
      requires newRegistry.Valid()
      reads this, fine, medium, coarse, newRegistry, newRegistry.defs, f0, f1, f2
    {
      Boot(newRegistry.Ids(), base, memory, [Other(fine, f0), Other(medium, f1), Other(coarse, f2)])
    }

    /** The push itself: rings and buckets move, files do not. */
    method PushStore(values: Row, now: int) returns (pending: seq<S.Pending>)
      requires Valid() && |values| == registry.count
      modifies store, fine.tier.Repr, medium.tier.Repr, coarse.tier.Repr
      ensures Valid() && |pending| == TIERS && registry.Ids() == old(registry.Ids()) && Even() == old(Even())
      ensures var ids := registry.Ids();
              && fine.World(ids) == old(fine.World(ids)).(ring := fine.tier.RingOf())
              && medium.World(ids) == old(medium.World(ids)).(ring := medium.tier.RingOf())
              && coarse.World(ids) == old(coarse.World(ids)).(ring := coarse.tier.RingOf())
      ensures var x := Sample(now, values);
              (fine.tier.State(), pending[0]) == S.FinePush(old(fine.tier.State()), x) &&
              (medium.tier.State(), pending[1]) == S.CoarsePush(old(medium.tier.State()), medium.tier.intervalS, x) &&
              (coarse.tier.State(), pending[2]) == S.CoarsePush(old(coarse.tier.State()), coarse.tier.intervalS, x)
    {
      hide S.FinePush, S.CoarsePush, S.Tier.RingOf, S.Tier.AccOf;
      ghost var x := Sample(now, values);
      CalledKept(fine.tier.State(), x);
      CalledKept(medium.tier.State(), x, medium.tier.intervalS);
      CalledKept(coarse.tier.State(), x, coarse.tier.intervalS);
      pending := store.Push(values, now);
    }

    /** One line's share of the callbacks; the other two lines stay what they were. */
    static method DeliverOne(line: Line, a: Line, b: Line, pending: S.Pending, now: int, ghost ids: seq<string>)
      requires Separate(line, a, b) && IsInt64(now)
      requires Due(line, pending)
      modifies line.persist, line.file
      ensures Separate(line, a, b) && line.Repr == old(line.Repr) && line.persist == old(line.persist)
      ensures line.World(ids) == Delivered(old(line.World(ids)), pending, now)
      ensures line.tier.State() == old(line.tier.State())
      ensures a.World(ids) == old(a.World(ids)) && a.tier.State() == old(a.tier.State())
      ensures b.World(ids) == old(b.World(ids)) && b.tier.State() == old(b.tier.State())
    {
      hide Delivered, Line.World, S.Tier.State;
      line.Deliver(pending, now, ids);
    }

    /** The deferred callbacks: files move, rings and buckets do not. */
    static method DeliverAll(a: Line, b: Line, c: Line, pending: seq<S.Pending>, now: int, ghost ids: seq<string>)
      requires Separate(a, b, c) && |pending| == TIERS && IsInt64(now)
      requires Due(a, pending[0]) && Due(b, pending[1]) && Due(c, pending[2])
      modifies a.persist, a.file, b.persist, b.file, c.persist, c.file
      ensures Separate(a, b, c)
      ensures a.Repr == old(a.Repr) && b.Repr == old(b.Repr) && c.Repr == old(c.Repr)
      ensures a.persist == old(a.persist) && b.persist == old(b.persist) && c.persist == old(c.persist)
      ensures a.World(ids) == Delivered(old(a.World(ids)), pending[0], now)
      ensures b.World(ids) == Delivered(old(b.World(ids)), pending[1], now)
      ensures c.World(ids) == Delivered(old(c.World(ids)), pending[2], now)
      ensures a.tier.State() == old(a.tier.State())
      ensures b.tier.State() == old(b.tier.State())
      ensures c.tier.State() == old(c.tier.State())
    {
      hide Delivered, Line.World, Line.Valid, S.Tier.State, S.Tier.Valid;
      DeliverOne(a, b, c, pending[0], now, ids);
      DeliverOne(b, a, c, pending[1], now, ids);
      DeliverOne(c, a, b, pending[2], now, ids);
    }

    /** The push, in terms of what the callbacks will make of it. */
    method PushTick(values: Row, now: int) returns (pending: seq<S.Pending>)
      requires Valid() && Healthy() && |values| == registry.count && 0 < now < TWO63
      modifies store, fine.tier.Repr, medium.tier.Repr, coarse.tier.Repr
      ensures Valid() && registry.Ids() == old(registry.Ids()) && |pending| == TIERS
      ensures Due(fine, pending[0]) && Due(medium, pending[1]) && Due(coarse, pending[2])
      ensures Repr() == old(Repr()) && Even() == old(Even())
      ensures Awaits(fine.History(registry.Ids()), pending[0], now) == FineTicked(old(State(0)), Sample(now, values))
      ensures Awaits(medium.History(registry.Ids()), pending[1], now)
           == CH.Step(old(State(1)), CH.Tick(Sample(now, values)))
      ensures Awaits(coarse.History(registry.Ids()), pending[2], now)
           == CH.Step(old(State(2)), CH.Tick(Sample(now, values)))
    {
      hide H.Healthy, FineTicked, CH.Step, S.FinePush, S.CoarsePush, Delivered, S.Tier.AccOf, S.Tier.RingOf;
      ghost var x := Sample(now, values);
      FineTick(State(0), fine.tier.State(), x);
      CoarseTick(State(1), medium.tier.State(), x);
      CoarseTick(State(2), coarse.tier.State(), x);
      pending := PushStore(values, now);
    }

    /** The store part of on_sample_tick: push, then run the callbacks the push left. */
    method OnSampleTick(values: Row, now: int)
      requires Valid() && Healthy() && |values| == registry.count && 0 < now < TWO63
      modifies Repr(), store
      ensures Valid() && Healthy() && Even() == old(Even()) && registry.Ids() == old(registry.Ids())
      ensures Program() == After(old(Program()), Tick(Sample(now, values)))
    {
      AfterTick(Program(), Sample(now, values));
      hide CH.Healthy, FineTicked, CH.Step, After, Awaits;
      hide Line.History, Line.Valid, S.Store.Valid, R.MetricRegistry.Ids;
      var pending := PushTick(values, now);
      RunCallbacks(pending, now);
    }

    /** The callbacks the push left: files move, rings and buckets do not. */
    method RunCallbacks(pending: seq<S.Pending>, now: int)
      requires Valid() && |pending| == TIERS && IsInt64(now)
      requires Due(fine, pending[0]) && Due(medium, pending[1]) && Due(coarse, pending[2])
      modifies Repr()
      ensures Valid() && Even() == old(Even()) && registry.Ids() == old(registry.Ids())
      ensures State(0) == Awaits(old(State(0)), pending[0], now)
      ensures State(1) == Awaits(old(State(1)), pending[1], now)
      ensures State(2) == Awaits(old(State(2)), pending[2], now)
    {
      hide Delivered, S.Tier.RingOf, S.Tier.Valid, Line.World, Line.Valid, R.MetricRegistry.Ids;
      DeliverAll(fine, medium, coarse, pending, now, registry.Ids());
    }
  }

  /** A pending row can go to the line's file. */
  ghost predicate Due(line: Line, pending: S.Pending)
    reads line
  {
    pending.Call? ==> line.persist != null && |pending.row| == line.tier.nMetrics
  }

  /** A tier whose pending row has reached its file. */
  ghost function Awaits(c: CH.Coarse, pending: S.Pending, now: int): CH.Coarse
    requires pending.Call? ==> c.world.file.capacity > 0 && IsInt64(now)
  {
    c.(world := Delivered(c.world, pending, now))
  }

  lemma {:induction false} CalledKept(s: S.TierState, x: Sample, interval: nat := 0)
    requires Rings.Valid(s.ring) && B.Shaped(s.acc, |x.row|)
    ensures S.FinePush(s, x).0.called == s.called
    ensures S.CoarsePush(s, interval, x).0.called == s.called
  {
  }

  /** A tier's state and its history are two views of one tier. */
  ghost predicate Matches(s: S.TierState, c: CH.Coarse)
  {
    s == S.TierState(c.world.ring, c.acc, c.world.attached)
  }

  /** Ring and file of the fine tier after a push and its callback. */
  lemma {:induction false} FineTick(c: CH.Coarse, s: S.TierState, x: Sample)
    requires CH.Healthy(c) && CH.Allowed(c.world.ids, CH.Tick(x)) && Matches(s, c)
    ensures var (after, pending) := S.FinePush(s, x);
            && CH.Coarse(Delivered(c.world.(ring := after.ring), pending, x.ts), after.acc) == FineTicked(c, x)
            && (pending.Call? ==> s.called && |pending.row| == |c.world.ids|)
  {
  }

  /** Ring, file and open bucket of a coarse tier after a push and its callback. */
  lemma {:induction false} CoarseTick(c: CH.Coarse, s: S.TierState, x: Sample)
    requires CH.Healthy(c) && CH.Allowed(c.world.ids, CH.Tick(x)) && Matches(s, c)
    ensures var (after, pending) := S.CoarsePush(s, c.world.interval, x);
            && CH.Coarse(Delivered(c.world.(ring := after.ring), pending, x.ts), after.acc) == CH.Step(c, CH.Tick(x))
            && (pending.Call? ==> s.called && |pending.row| == |c.world.ids|)
  {
  }

  /** The contents of a file on another storage, if it is not the line's own. */
  ghost function Other(line: Line, file: P.File): (image: R.Option<Image>)
    reads line, file
  {
    if file == line.file then R.None else R.Some(file.bytes)
  }
}
