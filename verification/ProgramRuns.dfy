/** The history part of the program on values: three tiers going through ticks, rounds of
    opens, rebuilds, stops, crashes and starts, each of them a run of its own history. */
module ProgramRuns {
  import opened Samples
  import opened Bytes
  import opened Rings
  import B = Buckets
  import CH = CoarseHistory
  import H = History
  import R = Registry
  import Z = Sizing

  const TIERS: nat := 3

  function IntervalOf(base: nat, i: nat): nat
    requires i < TIERS
  {
    if i == 0 then Z.FineInterval(base) else Z.TIER_INTERVAL[i]
  }

  /** A tier at the start of a process, over a file with the given contents. */
  function NewWorld(ids: seq<string>, base: nat, memory: nat, i: nat, image: Image): (w: H.World)
    requires i < TIERS
  {
    Z.CapacityWithinBounds(|ids|, base, memory, i);
    var capacity := Z.Capacity(|ids|, base, memory, i);
    H.World(ids, IntervalOf(base, i), ZeroRing(|ids|, capacity), false,
            H.Handle(ids, IntervalOf(base, i), capacity, image))
  }

  function NewState(ids: seq<string>, base: nat, memory: nat, i: nat, image: Image): (c: CH.Coarse)
    requires i < TIERS
  {
    CH.Coarse(NewWorld(ids, base, memory, i, image), B.Fresh(|ids|, 0))
  }

  /** The events one round of opens stands for in one tier: all tiers open, or those before
      the first that cannot are opened and closed again and the others are left alone. */
  function OutcomeEvents(available: seq<bool>, i: nat): seq<H.Event>
    requires |available| == TIERS && i < TIERS
  {
    if available[0] && available[1] && available[2] then [H.Open]
    else if forall k :: 0 <= k <= i ==> available[k] then [H.Open, H.Close]
    else [H.OpenFails]
  }

  ghost function OpenedState(c: CH.Coarse): (d: CH.Coarse)
    requires CH.Healthy(c)
    ensures CH.Healthy(d) && d.world.ids == c.world.ids
  {
    CH.Step(c, CH.Tier(H.Open))
  }

  ghost function ClosedState(c: CH.Coarse): (d: CH.Coarse)
    requires CH.Healthy(c)
    ensures CH.Healthy(d) && d.world.ids == c.world.ids
  {
    CH.Step(c, CH.Tier(H.Close))
  }

  /** How a round of opens ends for one tier. */
  ghost function Outcome(c: CH.Coarse, available: seq<bool>, i: nat): (d: CH.Coarse)
    requires CH.Healthy(c) && |available| == TIERS && i < TIERS
    ensures CH.Healthy(d)
  {
    if available[0] && available[1] && available[2] then OpenedState(c)
    else if forall k :: 0 <= k <= i ==> available[k] then ClosedState(OpenedState(c))
    else c
  }

  lemma {:induction false} CloseIdle(c: CH.Coarse)
    requires CH.Healthy(c)
    ensures !c.world.attached ==> ClosedState(c) == c
  {
    H.CloseDetached(c.world);
  }

  ghost predicate AllUsable(ids: seq<string>, base: nat, memory: nat)
  {
    forall i :: 0 <= i < TIERS ==> H.Usable(ids, IntervalOf(base, i), Z.Capacity(|ids|, base, memory, i))
  }

  /** The events a rebuild stands for in one tier, before the files are opened again. */
  function RebuildEvents(ids: seq<string>, base: nat, memory: nat, i: nat, other: R.Option<Image>): seq<H.Event>
    requires i < TIERS
  {
    [H.Close, H.Restart(ids, IntervalOf(base, i), Z.Capacity(|ids|, base, memory, i))]
    + if other.None? then [] else [H.OtherStorage(other.value)]
  }

  /** A closed tier taken up by the next metric set, over its own file or another. */
  ghost function Restarted(c: CH.Coarse, ids: seq<string>, base: nat, memory: nat, i: nat, other: R.Option<Image>)
    : (d: CH.Coarse)
    requires CH.Healthy(c) && i < TIERS && AllUsable(ids, base, memory)
    ensures CH.Healthy(d) && d.world.ids == ids
  {
    var restart := H.Restart(ids, IntervalOf(base, i), Z.Capacity(|ids|, base, memory, i));
    var taken := CH.Step(ClosedState(c), CH.Tier(restart));
    if other.None? then taken else CH.Step(taken, CH.Tier(H.OtherStorage(other.value)))
  }

  lemma {:induction false} NewIsRestarted(
    c: CH.Coarse, ids: seq<string>, base: nat, memory: nat, i: nat, other: R.Option<Image>, image: Image)
    requires CH.Healthy(c) && i < TIERS && AllUsable(ids, base, memory)
    requires image == if other.None? then ClosedState(c).world.file.image else other.value
    ensures NewState(ids, base, memory, i, image) == Restarted(c, ids, base, memory, i, other)
  {
  }

  lemma {:induction false} NewIsHealthy(ids: seq<string>, base: nat, memory: nat, i: nat, image: Image)
    requires i < TIERS && AllUsable(ids, base, memory)
    ensures CH.Healthy(NewState(ids, base, memory, i, image))
  {
  }

  /** One tier after a retry: nothing while its file is open, else a round of opens, on new
      tiers if the mounts changed. */
  ghost function Retried(
    c: CH.Coarse, isOpen: bool, mountsChanged: bool, ids: seq<string>, base: nat, memory: nat, i: nat,
    other: R.Option<Image>, available: seq<bool>): (d: CH.Coarse)
    requires CH.Healthy(c) && i < TIERS && |available| == TIERS && AllUsable(ids, base, memory)
    ensures CH.Healthy(d)
  {
    if isOpen then c
    else Outcome(if mountsChanged then Restarted(c, ids, base, memory, i, other) else c, available, i)
  }

  /** The fine tier after a tick: every sample is a row. */
  ghost function FineTicked(c: CH.Coarse, x: Sample): (d: CH.Coarse)
    requires CH.Healthy(c) && CH.Allowed(c.world.ids, CH.Tick(x))
    ensures CH.Healthy(d)
  {
    c.(world := H.Step(c.world, H.Event.Append(x)))
  }

  // --------------------------------------------- steps of one tier as runs

  /** Tier events as events of a tier with its open bucket. */
  function AsTier(es: seq<H.Event>): (ts: seq<CH.Event>)
    ensures |ts| == |es| && forall i :: 0 <= i < |es| ==> ts[i] == CH.Tier(es[i])
  {
    seq(|es|, i requires 0 <= i < |es| => CH.Tier(es[i]))
  }

  lemma {:induction false} RunOne(c: CH.Coarse, e: CH.Event)
    requires CH.Healthy(c) && CH.Allowed(c.world.ids, e)
    ensures CH.AllowedRun(c.world.ids, [e]) && CH.Run(c, [e]) == CH.Step(c, e)
  {
    assert [e][1..] == [];
  }

  lemma {:induction false} RunTwo(c: CH.Coarse, e: CH.Event, f: CH.Event)
    requires CH.Healthy(c) && CH.Allowed(c.world.ids, e) && CH.Allowed(CH.Step(c, e).world.ids, f)
    ensures CH.AllowedRun(c.world.ids, [e, f]) && CH.Run(c, [e, f]) == CH.Step(CH.Step(c, e), f)
  {
    assert [e, f][1..] == [f];
    RunOne(CH.Step(c, e), f);
  }

  lemma {:induction false} RunThree(c: CH.Coarse, e: CH.Event, f: CH.Event, g: CH.Event)
    requires CH.Healthy(c) && CH.Allowed(c.world.ids, e) && CH.Allowed(CH.Step(c, e).world.ids, f)
    requires CH.Allowed(CH.Step(CH.Step(c, e), f).world.ids, g)
    ensures CH.AllowedRun(c.world.ids, [e, f, g])
    ensures CH.Run(c, [e, f, g]) == CH.Step(CH.Step(CH.Step(c, e), f), g)
  {
    assert [e, f, g][1..] == [f, g];
    RunTwo(CH.Step(c, e), f, g);
  }

  lemma {:induction false} OpenFailsIsNothing(c: CH.Coarse)
    requires CH.Healthy(c)
    ensures CH.Step(c, CH.Tier(H.OpenFails)) == c
  {
  }

  /** A round of opens is a run of each tier's history. */
  lemma {:induction false} OpensAreRuns(c: CH.Coarse, available: seq<bool>, i: nat)
    requires CH.Healthy(c) && |available| == TIERS && i < TIERS
    ensures var es := AsTier(OutcomeEvents(available, i));
            CH.AllowedRun(c.world.ids, es) && Outcome(c, available, i) == CH.Run(c, es)
  {
    hide CH.Step, CH.Healthy;
    var es := AsTier(OutcomeEvents(available, i));
    RunOne(c, es[0]);
    if |es| == 2 {
      assert es == [es[0], es[1]];
      RunTwo(c, es[0], es[1]);
    } else {
      assert es == [es[0]];
      OpenFailsIsNothing(c);
    }
  }

  /** So is a rebuild, on the same storage or another. */
  lemma {:induction false} RebuildsAreRuns(
    c: CH.Coarse, ids: seq<string>, base: nat, memory: nat, i: nat, other: R.Option<Image>)
    requires CH.Healthy(c) && i < TIERS && AllUsable(ids, base, memory)
    ensures var es := AsTier(RebuildEvents(ids, base, memory, i, other));
            CH.AllowedRun(c.world.ids, es) && Restarted(c, ids, base, memory, i, other) == CH.Run(c, es)
  {
    var es := AsTier(RebuildEvents(ids, base, memory, i, other));
    var usable := H.Usable(ids, IntervalOf(base, i), Z.Capacity(|ids|, base, memory, i));
    assert usable;
    hide CH.Step, CH.Healthy, H.Usable, Z.Capacity, IntervalOf;
    if other.None? {
      assert es == [es[0], es[1]];
      RunTwo(c, es[0], es[1]);
    } else {
      assert es == [es[0], es[1], es[2]];
      RunThree(c, es[0], es[1], es[2]);
    }
  }

  lemma {:induction false} RunsJoin(c: CH.Coarse, a: seq<CH.Event>, b: seq<CH.Event>)
    requires CH.Healthy(c) && CH.AllowedRun(c.world.ids, a) && CH.AllowedRun(CH.Run(c, a).world.ids, b)
    ensures CH.AllowedRun(c.world.ids, a + b) && CH.Run(c, a + b) == CH.Run(CH.Run(c, a), b)
    decreases |a|
  {
    hide CH.Step, CH.Healthy, CH.Allowed;
    if a == [] {
      assert a + b == b;
    } else {
      RunsJoin(CH.Step(c, a[0]), a[1..], b);
      assert (a + b)[0] == a[0] && (a + b)[1..] == a[1..] + b;
    }
  }

  lemma {:induction false} WorldRunsJoin(w: H.World, a: seq<H.Event>, b: seq<H.Event>)
    requires H.Healthy(w) && H.AllowedRun(w.ids, a) && H.AllowedRun(H.Run(w, a).ids, b)
    ensures H.AllowedRun(w.ids, a + b) && H.Run(w, a + b) == H.Run(H.Run(w, a), b)
    decreases |a|
  {
    hide H.Step, H.Healthy, H.Allowed;
    if a == [] {
      assert a + b == b;
    } else {
      WorldRunsJoin(H.Step(w, a[0]), a[1..], b);
      assert (a + b)[0] == a[0] && (a + b)[1..] == a[1..] + b;
    }
  }

  /** Events of the tier alone are the same run with and without the open bucket. */
  lemma {:induction false} WorldOfTierRun(c: CH.Coarse, es: seq<H.Event>)
    requires CH.Healthy(c) && CH.AllowedRun(c.world.ids, AsTier(es))
    ensures H.AllowedRun(c.world.ids, es) && CH.Run(c, AsTier(es)).world == H.Run(c.world, es)
  {
    CH.RunIsTierRun(c, AsTier(es));
    TierEventsOfTier(c, es);
  }

  lemma {:induction false} TierEventsOfTier(c: CH.Coarse, es: seq<H.Event>)
    requires CH.Healthy(c) && CH.AllowedRun(c.world.ids, AsTier(es))
    ensures CH.TierEvents(c, AsTier(es)) == es
    decreases |es|
  {
    hide CH.Step, CH.Healthy, CH.Allowed;
    if es != [] {
      assert AsTier(es)[1..] == AsTier(es[1..]);
      TierEventsOfTier(CH.Step(c, AsTier(es)[0]), es[1..]);
      assert es == [es[0]] + es[1..];
    }
  }

  // -------------------------------------------------- steps of the program

  /** What a process starts with: its metrics, its sizing, and for each tier the contents of
      the file it finds if that is not the file of before. */
  datatype Boot = Boot(ids: seq<string>, base: nat, memory: nat, others: seq<R.Option<Image>>)

  datatype Program = Program(fine: CH.Coarse, medium: CH.Coarse, coarse: CH.Coarse)

  /** What is under way when a process ends: nothing; a tick, in the callback of tier j,
      before or after its record; a round of opens, in the replay of tier j, after some whole
      records and perhaps one more without its index; a round between two tiers, with so many
      of them opened and, if it failed, so many of those closed again; or a stop, with so many
      tiers closed. */
  datatype Halt =
    | Idle
    | InTick(x: Sample, j: nat, half: bool)
    | InReplay(j: nat, replayed: nat, half: bool)
    | InRound(reached: nat, closed: nat)
    | InStop(closed: nat)

  /** Next ends the process and starts another: cleanly after a Stop, otherwise by a crash. A
      rebuild, which closes nothing since no file is open then, is a Next with its round of
      opens behind it, so a crash inside it is one inside that round. */
  datatype Step =
    | Tick(x: Sample)
    | Retry(mountsChanged: bool, boot: Boot, available: seq<bool>)
    | Stop
    | Next(at: Halt, boot: Boot)

  predicate IsTick(s: Step) { s.Tick? || (s.Next? && s.at.InTick?) }

  ghost predicate BootFits(b: Boot)
  {
    |b.others| == TIERS && AllUsable(b.ids, b.base, b.memory)
  }

  ghost predicate Allowed(ids: seq<string>, s: Step)
  {
    match s
    case Tick(x) => CH.Allowed(ids, CH.Tick(x))
    case Retry(_, b, available) => BootFits(b) && |available| == TIERS
    case Stop => true
    case Next(at, b) => BootFits(b) && (at.InTick? ==> CH.Allowed(ids, CH.Tick(at.x)))
  }

  // --------------------------------------------------- one tier after a step

  /** What a tier finds at its start. */
  function Found(b: Boot, i: nat, image: Image): Image
    requires i < TIERS == |b.others|
  {
    if b.others[i].None? then image else b.others[i].value
  }

  /** A tier of the next process, over the disk as the last one left it. */
  ghost function Started(b: Boot, i: nat, image: Image): (c: CH.Coarse)
    requires i < TIERS && BootFits(b)
    ensures CH.Healthy(c) && c.world.ids == b.ids
  {
    NewIsHealthy(b.ids, b.base, b.memory, i, Found(b, i, image));
    NewState(b.ids, b.base, b.memory, i, Found(b, i, image))
  }

  /** How far a tier has come when the process ends outside a tick. */
  ghost function Reached(c: CH.Coarse, i: nat, isOpen: bool, at: Halt): (d: CH.Coarse)
    requires CH.Healthy(c) && !at.InTick?
    ensures CH.Healthy(d) && d.world.ids == c.world.ids
  {
    match at
    case InReplay(j, _, _) => if isOpen || i >= j then c else OpenedState(c)
    case InRound(reached, closed) =>
      if isOpen || i >= reached then c else if i < closed then ClosedState(OpenedState(c)) else OpenedState(c)
    case InStop(closed) => if i < closed then ClosedState(c) else c
    case _ => c
  }

  predicate Replaying(i: nat, isOpen: bool, at: Halt) { at.InReplay? && !isOpen && i == at.j }

  /** What a process that ends outside a tick leaves of a tier on disk. */
  ghost function Disk(c: CH.Coarse, i: nat, isOpen: bool, at: Halt): Image
    requires CH.Healthy(c) && !at.InTick?
  {
    if Replaying(i, isOpen, at) then H.CutImage(c.world, H.InReplay(at.replayed, at.half))
    else Reached(c, i, isOpen, at).world.file.image
  }

  /** What one that ends inside a tick leaves of a coarse tier: the callbacks of the tiers
      before have run, and that of tier j has perhaps written the row that is due. */
  ghost function CoarseDiskInTick(c: CH.Coarse, i: nat, x: Sample, j: nat, half: bool): Image
    requires CH.Healthy(c) && CH.Allowed(c.world.ids, CH.Tick(x))
  {
    if i < j then CH.Step(c, CH.Tick(x)).world.file.image
    else
      var due := CH.Pushed(c, x).emitted;
      if i == j && half && due != [] then H.CutImage(c.world, H.InAppend(due[0]))
      else c.world.file.image
  }

  /** And of the fine tier, where every sample is a row. */
  ghost function FineDiskInTick(c: CH.Coarse, x: Sample, j: nat, half: bool): Image
    requires CH.Healthy(c) && CH.Allowed(c.world.ids, CH.Tick(x))
  {
    if 0 < j then FineTicked(c, x).world.file.image
    else if half then H.CutImage(c.world, H.InAppend(x)) else c.world.file.image
  }

  /** A step that is no tick is the same for all tiers. */
  ghost function TierAfter(c: CH.Coarse, i: nat, isOpen: bool, s: Step): (d: CH.Coarse)
    requires CH.Healthy(c) && i < TIERS && Allowed(c.world.ids, s) && !IsTick(s)
    ensures CH.Healthy(d) && d.world.ids == IdsAfter(c.world.ids, isOpen, s)
  {
    match s
    case Retry(mountsChanged, b, available) =>
      Retried(c, isOpen, mountsChanged, b.ids, b.base, b.memory, i, b.others[i], available)
    case Stop => ClosedState(c)
    case Next(at, b) => Started(b, i, Disk(c, i, isOpen, at))
  }

  ghost function CoarseAfter(c: CH.Coarse, i: nat, isOpen: bool, s: Step): (d: CH.Coarse)
    requires CH.Healthy(c) && i < TIERS && Allowed(c.world.ids, s)
    ensures CH.Healthy(d) && d.world.ids == IdsAfter(c.world.ids, isOpen, s)
  {
    if s.Tick? then CH.Step(c, CH.Tick(s.x))
    else if IsTick(s) then Started(s.boot, i, CoarseDiskInTick(c, i, s.at.x, s.at.j, s.at.half))
    else TierAfter(c, i, isOpen, s)
  }

  ghost function FineAfter(c: CH.Coarse, isOpen: bool, s: Step): (d: CH.Coarse)
    requires CH.Healthy(c) && Allowed(c.world.ids, s)
    ensures CH.Healthy(d) && d.world.ids == IdsAfter(c.world.ids, isOpen, s)
  {
    if s.Tick? then FineTicked(c, s.x)
    else if IsTick(s) then Started(s.boot, 0, FineDiskInTick(c, s.at.x, s.at.j, s.at.half))
    else TierAfter(c, 0, isOpen, s)
  }

  function IdsAfter(ids: seq<string>, isOpen: bool, s: Step): seq<string>
  {
    match s
    case Retry(mountsChanged, b, _) => if !isOpen && mountsChanged then b.ids else ids
    case Next(_, b) => b.ids
    case _ => ids
  }

  // ------------------------------------------- a step as events of one tier

  function StartEvent(b: Boot, i: nat): H.Event
    requires i < TIERS
  {
    H.Restart(b.ids, IntervalOf(b.base, i), Z.Capacity(|b.ids|, b.base, b.memory, i))
  }

  function CutEvent(b: Boot, i: nat, at: H.Place): H.Event
    requires i < TIERS
  {
    H.Cut(at, b.ids, IntervalOf(b.base, i), Z.Capacity(|b.ids|, b.base, b.memory, i))
  }

  function TickCutEvent(b: Boot, i: nat, x: Sample): CH.Event
    requires i < TIERS
  {
    CH.TickCut(x, b.ids, IntervalOf(b.base, i), Z.Capacity(|b.ids|, b.base, b.memory, i))
  }

  function StorageEvents(b: Boot, i: nat): seq<H.Event>
    requires i < TIERS == |b.others|
  {
    if b.others[i].None? then [] else [H.OtherStorage(b.others[i].value)]
  }

  /** What a tier still goes through before the process ends. */
  function LastEvents(i: nat, isOpen: bool, at: Halt): seq<H.Event>
  {
    match at
    case InReplay(j, _, _) => if isOpen || i >= j then [] else [H.Open]
    case InRound(reached, closed) =>
      if isOpen || i >= reached then [] else if i < closed then [H.Open, H.Close] else [H.Open]
    case InStop(closed) => if i < closed then [H.Close] else []
    case _ => []
  }

  function EndEvent(b: Boot, i: nat, isOpen: bool, at: Halt): H.Event
    requires i < TIERS
  {
    if Replaying(i, isOpen, at) then CutEvent(b, i, H.InReplay(at.replayed, at.half)) else StartEvent(b, i)
  }

  ghost function TierEventsOf(i: nat, isOpen: bool, s: Step): seq<H.Event>
    requires i < TIERS && !IsTick(s)
    requires (s.Next? || s.Retry? ==> BootFits(s.boot)) && (s.Retry? ==> |s.available| == TIERS)
  {
    match s
    case Retry(mountsChanged, b, available) =>
      if isOpen then []
      else (if mountsChanged then RebuildEvents(b.ids, b.base, b.memory, i, b.others[i]) else [])
           + OutcomeEvents(available, i)
    case Stop => [H.Close]
    case Next(at, b) => LastEvents(i, isOpen, at) + ([EndEvent(b, i, isOpen, at)] + StorageEvents(b, i))
  }

  ghost function FineEventsOf(ids: seq<string>, isOpen: bool, s: Step): seq<H.Event>
    requires Allowed(ids, s)
  {
    if s.Tick? then [H.Event.Append(s.x)]
    else if IsTick(s) then
      (if 0 < s.at.j then [H.Event.Append(s.at.x)] else [])
      + ([if s.at.j == 0 && s.at.half then CutEvent(s.boot, 0, H.InAppend(s.at.x)) else StartEvent(s.boot, 0)]
         + StorageEvents(s.boot, 0))
    else TierEventsOf(0, isOpen, s)
  }

  ghost function CoarseEventsOf(ids: seq<string>, i: nat, isOpen: bool, s: Step): seq<CH.Event>
    requires i < TIERS && Allowed(ids, s)
  {
    if s.Tick? then [CH.Tick(s.x)]
    else if IsTick(s) then
      (if i < s.at.j then [CH.Tick(s.at.x)] else [])
      + ([if i == s.at.j && s.at.half then TickCutEvent(s.boot, i, s.at.x) else CH.Tier(StartEvent(s.boot, i))]
         + AsTier(StorageEvents(s.boot, i)))
    else AsTier(TierEventsOf(i, isOpen, s))
  }

  // ---------------------------------------- every step is a run of histories

  lemma {:induction false} RetriedIsRun(
    c: CH.Coarse, i: nat, isOpen: bool, mountsChanged: bool, b: Boot, available: seq<bool>)
    requires CH.Healthy(c) && i < TIERS && BootFits(b) && |available| == TIERS
    ensures var es := AsTier(TierEventsOf(i, isOpen, Retry(mountsChanged, b, available)));
            CH.AllowedRun(c.world.ids, es) &&
            Retried(c, isOpen, mountsChanged, b.ids, b.base, b.memory, i, b.others[i], available) == CH.Run(c, es)
  {
    NothingIsARun(c);
    hide CH.Healthy, CH.Step, CH.Run, CH.AllowedRun, AsTier, H.Usable, RebuildEvents, OutcomeEvents, Outcome;
    hide Restarted, AllUsable;
    if !isOpen {
      var rebuild := RebuildEvents(b.ids, b.base, b.memory, i, b.others[i]);
      var round := OutcomeEvents(available, i);
      if mountsChanged {
        RebuildsAreRuns(c, b.ids, b.base, b.memory, i, b.others[i]);
        OpensAreRuns(CH.Run(c, AsTier(rebuild)), available, i);
        RunsJoin(c, AsTier(rebuild), AsTier(round));
        AsTierAfter(rebuild, round);
      } else {
        OpensAreRuns(c, available, i);
        assert [] + round == round;
      }
    }
  }

  lemma {:induction false} NothingIsARun(c: CH.Coarse)
    requires CH.Healthy(c)
    ensures AsTier([]) == [] && CH.AllowedRun(c.world.ids, []) && CH.Run(c, []) == c
  {
  }

  lemma {:induction false} AsTierAfter(a: seq<H.Event>, b: seq<H.Event>)
    ensures AsTier(a + b) == AsTier(a) + AsTier(b)
  {
  }

  lemma {:induction false} StopIsRun(c: CH.Coarse)
    requires CH.Healthy(c)
    ensures CH.AllowedRun(c.world.ids, AsTier([H.Close])) && ClosedState(c) == CH.Run(c, AsTier([H.Close]))
  {
    hide CH.Step, CH.Healthy;
    RunOne(c, CH.Tier(H.Close));
    assert AsTier([H.Close]) == [CH.Tier(H.Close)];
  }

  /** An end that leaves this disk, and the next process over it or over another, is a run. */
  lemma {:induction false} StartIsRun(d: CH.Coarse, b: Boot, i: nat, e: CH.Event, image: Image)
    requires CH.Healthy(d) && i < TIERS && BootFits(b) && CH.Allowed(d.world.ids, e)
    requires CH.Step(d, e) == NewState(b.ids, b.base, b.memory, i, image)
    ensures var es := [e] + AsTier(StorageEvents(b, i));
            CH.AllowedRun(d.world.ids, es) && CH.Run(d, es) == Started(b, i, image)
  {
    var n := NewState(b.ids, b.base, b.memory, i, image);
    if b.others[i].None? {
      RunOne(d, e);
      assert [e] + AsTier(StorageEvents(b, i)) == [e];
    } else {
      var f := CH.Tier(H.OtherStorage(b.others[i].value));
      RunTwo(d, e, f);
      assert [e] + AsTier(StorageEvents(b, i)) == [e, f];
    }
  }

  lemma {:induction false} BootUsable(b: Boot, i: nat)
    requires BootFits(b) && i < TIERS
    ensures H.Usable(b.ids, IntervalOf(b.base, i), Z.Capacity(|b.ids|, b.base, b.memory, i))
  {
  }

  lemma {:induction false} EndStep(c: CH.Coarse, b: Boot, i: nat, isOpen: bool, at: Halt)
    requires CH.Healthy(c) && i < TIERS && BootFits(b) && !at.InTick?
    ensures var e := CH.Tier(EndEvent(b, i, isOpen, at));
            && CH.Allowed(c.world.ids, e)
            && CH.Step(Reached(c, i, isOpen, at), e) == NewState(b.ids, b.base, b.memory, i, Disk(c, i, isOpen, at))
  {
    BootUsable(b, i);
    hide H.CutImage, H.Usable, Z.Capacity, IntervalOf, OpenedState, ClosedState;
  }

  lemma {:induction false} AsTierJoins(a: seq<H.Event>, e: H.Event, b: seq<H.Event>)
    ensures AsTier(a + ([e] + b)) == AsTier(a) + ([CH.Tier(e)] + AsTier(b))
  {
  }

  lemma {:induction false} LastEventsRun(c: CH.Coarse, i: nat, isOpen: bool, at: Halt)
    requires CH.Healthy(c) && !at.InTick?
    ensures var es := AsTier(LastEvents(i, isOpen, at));
            CH.AllowedRun(c.world.ids, es) && CH.Run(c, es) == Reached(c, i, isOpen, at)
  {
    hide CH.Step, CH.Healthy;
    var es := AsTier(LastEvents(i, isOpen, at));
    if |es| == 1 {
      RunOne(c, es[0]);
      assert es == [es[0]];
    } else if |es| == 2 {
      RunTwo(c, es[0], es[1]);
      assert es == [es[0], es[1]];
    }
  }

  lemma {:induction false} EndIsRun(c: CH.Coarse, i: nat, isOpen: bool, at: Halt, b: Boot)
    requires CH.Healthy(c) && i < TIERS && BootFits(b) && !at.InTick?
    ensures var es := AsTier(TierEventsOf(i, isOpen, Next(at, b)));
            CH.AllowedRun(c.world.ids, es) && CH.Run(c, es) == Started(b, i, Disk(c, i, isOpen, at))
  {
    hide CH.Step, CH.Healthy, CH.Allowed, CH.Run, CH.AllowedRun, Disk, AsTier, LastEvents, EndEvent, StorageEvents;
    hide Reached, NewState, Started, AllUsable;
    var last, e, rest := LastEvents(i, isOpen, at), EndEvent(b, i, isOpen, at), StorageEvents(b, i);
    LastEventsRun(c, i, isOpen, at);
    EndStep(c, b, i, isOpen, at);
    StartIsRun(Reached(c, i, isOpen, at), b, i, CH.Tier(e), Disk(c, i, isOpen, at));
    AsTierJoins(last, e, rest);
    RunsJoin(c, AsTier(last), [CH.Tier(e)] + AsTier(rest));
  }

  lemma {:induction false} TierAfterIsRun(c: CH.Coarse, i: nat, isOpen: bool, s: Step)
    requires CH.Healthy(c) && i < TIERS && Allowed(c.world.ids, s) && !IsTick(s)
    ensures var es := AsTier(TierEventsOf(i, isOpen, s));
            CH.AllowedRun(c.world.ids, es) && CH.Run(c, es) == TierAfter(c, i, isOpen, s)
  {
    match s
    case Retry(mountsChanged, b, available) => RetriedIsRun(c, i, isOpen, mountsChanged, b, available);
    case Stop => StopIsRun(c);
    case Next(at, b) => EndIsRun(c, i, isOpen, at, b);
  }

  /** A crash in a coarse tier's own callback, or one that hits before it. */
  lemma {:induction false} TickEndStep(c: CH.Coarse, b: Boot, i: nat, x: Sample, half: bool)
    requires CH.Healthy(c) && i < TIERS && BootFits(b) && CH.Allowed(c.world.ids, CH.Tick(x))
    ensures var e := if half then TickCutEvent(b, i, x) else CH.Tier(StartEvent(b, i));
            CH.Allowed(c.world.ids, e) &&
            CH.Step(c, e) == NewState(b.ids, b.base, b.memory, i, CoarseDiskInTick(c, i, x, i, half))
  {
    BootUsable(b, i);
    hide H.CutImage, H.Usable, Z.Capacity, IntervalOf, B.Push;
  }

  lemma {:induction false} TickStartStep(c: CH.Coarse, b: Boot, i: nat)
    requires CH.Healthy(c) && i < TIERS && BootFits(b)
    ensures var e := CH.Tier(StartEvent(b, i));
            CH.Allowed(c.world.ids, e) &&
            CH.Step(c, e) == NewState(b.ids, b.base, b.memory, i, c.world.file.image)
  {
    EndStep(c, b, i, false, Idle);
  }

  lemma {:induction false} CoarseTickEndIsRun(c: CH.Coarse, i: nat, isOpen: bool, at: Halt, b: Boot)
    requires CH.Healthy(c) && i < TIERS && BootFits(b) && at.InTick? && CH.Allowed(c.world.ids, CH.Tick(at.x))
    ensures var es := CoarseEventsOf(c.world.ids, i, isOpen, Next(at, b));
            CH.AllowedRun(c.world.ids, es) &&
            CH.Run(c, es) == Started(b, i, CoarseDiskInTick(c, i, at.x, at.j, at.half))
  {
    var rest := AsTier(StorageEvents(b, i));
    var e := if i == at.j && at.half then TickCutEvent(b, i, at.x) else CH.Tier(StartEvent(b, i));
    TickEndStep(c, b, i, at.x, at.half);
    TickStartStep(c, b, i);
    hide CH.Step, CH.Healthy, H.CutImage, NewState, StorageEvents, Started, StartEvent, TickCutEvent;
    if i < at.j {
      RunOne(c, CH.Tick(at.x));
      var d := CH.Step(c, CH.Tick(at.x));
      TickStartStep(d, b, i);
      StartIsRun(d, b, i, e, d.world.file.image);
      RunsJoin(c, [CH.Tick(at.x)], [e] + rest);
    } else {
      StartIsRun(c, b, i, e, CoarseDiskInTick(c, i, at.x, at.j, at.half));
      assert [] + ([e] + rest) == [e] + rest;
    }
  }

  lemma {:induction false} CoarseAfterIsRun(c: CH.Coarse, i: nat, isOpen: bool, s: Step)
    requires CH.Healthy(c) && i < TIERS && Allowed(c.world.ids, s)
    ensures var es := CoarseEventsOf(c.world.ids, i, isOpen, s);
            CH.AllowedRun(c.world.ids, es) && CoarseAfter(c, i, isOpen, s) == CH.Run(c, es)
  {
    if s.Tick? {
      RunOne(c, CH.Tick(s.x));
    } else if IsTick(s) {
      CoarseTickEndIsRun(c, i, isOpen, s.at, s.boot);
    } else {
      TierAfterIsRun(c, i, isOpen, s);
    }
  }

  lemma {:induction false} FineTickEndStep(c: CH.Coarse, b: Boot, x: Sample, half: bool)
    requires CH.Healthy(c) && BootFits(b) && CH.Allowed(c.world.ids, CH.Tick(x))
    ensures var e := if half then CutEvent(b, 0, H.InAppend(x)) else StartEvent(b, 0);
            H.Allowed(c.world.ids, e) &&
            H.Step(c.world, e) == NewState(b.ids, b.base, b.memory, 0, FineDiskInTick(c, x, 0, half)).world
  {
    BootUsable(b, 0);
    hide H.CutImage, H.Usable, Z.Capacity, IntervalOf;
  }

  lemma {:induction false} StorageIsRun(b: Boot, image: Image)
    requires BootFits(b)
    ensures var w := NewState(b.ids, b.base, b.memory, 0, image).world;
            && H.Healthy(w) && H.AllowedRun(w.ids, StorageEvents(b, 0))
            && H.Run(w, StorageEvents(b, 0)) == Started(b, 0, image).world
  {
    NewIsHealthy(b.ids, b.base, b.memory, 0, image);
    hide H.Healthy, AllUsable;
    if b.others[0].Some? {
      assert StorageEvents(b, 0)[1..] == [];
    }
  }

  lemma {:induction false} FineStartIsRun(w: H.World, b: Boot, e: H.Event, image: Image)
    requires H.Healthy(w) && BootFits(b) && H.Allowed(w.ids, e) && H.EndsProcess(e) && e.ids == b.ids
    requires H.Step(w, e) == NewState(b.ids, b.base, b.memory, 0, image).world
    ensures var es := [e] + StorageEvents(b, 0);
            H.AllowedRun(w.ids, es) && H.Run(w, es) == Started(b, 0, image).world
  {
    hide H.Step, H.Healthy, H.Allowed, NewState, Started, StorageEvents, AllUsable;
    var es := [e] + StorageEvents(b, 0);
    assert es[0] == e && es[1..] == StorageEvents(b, 0);
    StorageIsRun(b, image);
  }

  lemma {:induction false} FineTickIsRun(c: CH.Coarse, x: Sample)
    requires CH.Healthy(c) && CH.Allowed(c.world.ids, CH.Tick(x))
    ensures var es := [H.Event.Append(x)];
            H.AllowedRun(c.world.ids, es) && H.Run(c.world, es) == FineTicked(c, x).world
  {
    assert [H.Event.Append(x)][1..] == [];
  }

  lemma {:induction false} FineTickEndIsRun(c: CH.Coarse, isOpen: bool, at: Halt, b: Boot)
    requires CH.Healthy(c) && BootFits(b) && at.InTick? && CH.Allowed(c.world.ids, CH.Tick(at.x))
    ensures var es := FineEventsOf(c.world.ids, isOpen, Next(at, b));
            H.AllowedRun(c.world.ids, es) &&
            H.Run(c.world, es) == Started(b, 0, FineDiskInTick(c, at.x, at.j, at.half)).world
  {
    var e := if at.j == 0 && at.half then CutEvent(b, 0, H.InAppend(at.x)) else StartEvent(b, 0);
    var rest := StorageEvents(b, 0);
    FineTickEndStep(c, b, at.x, at.half);
    hide H.Step, H.CutImage, NewState, StorageEvents, Started, StartEvent, CutEvent, CH.Step;
    if 0 < at.j {
      var d := FineTicked(c, at.x);
      FineTickIsRun(c, at.x);
      FineTickEndStep(d, b, at.x, false);
      FineStartIsRun(d.world, b, e, d.world.file.image);
      WorldRunsJoin(c.world, [H.Event.Append(at.x)], [e] + rest);
    } else {
      FineStartIsRun(c.world, b, e, FineDiskInTick(c, at.x, at.j, at.half));
      assert [] + ([e] + rest) == [e] + rest;
    }
  }

  lemma {:induction false} FineAfterIsRun(c: CH.Coarse, isOpen: bool, s: Step)
    requires CH.Healthy(c) && Allowed(c.world.ids, s)
    ensures var es := FineEventsOf(c.world.ids, isOpen, s);
            H.AllowedRun(c.world.ids, es) && FineAfter(c, isOpen, s).world == H.Run(c.world, es)
  {
    if s.Tick? {
      FineTickIsRun(c, s.x);
    } else if IsTick(s) {
      FineTickEndIsRun(c, isOpen, s.at, s.boot);
    } else {
      TierAfterIsRun(c, 0, isOpen, s);
      WorldOfTierRun(c, TierEventsOf(0, isOpen, s));
    }
  }

  // ------------------------------------------------------ the whole program

  /** Three fit tiers of one process. */
  ghost predicate Fit(p: Program)
  {
    && CH.Healthy(p.fine) && CH.Healthy(p.medium) && CH.Healthy(p.coarse)
    && p.fine.world.ids == p.medium.world.ids == p.coarse.world.ids
  }

  function Ids(p: Program): seq<string> { p.coarse.world.ids }

  /** The files are open: the program asks the coarse tier. */
  function IsOpen(p: Program): bool { p.coarse.world.attached }

  ghost function After(p: Program, s: Step): (q: Program)
    requires Fit(p) && Allowed(Ids(p), s)
    ensures Fit(q)
  {
    Program(FineAfter(p.fine, IsOpen(p), s), CoarseAfter(p.medium, 1, IsOpen(p), s),
            CoarseAfter(p.coarse, 2, IsOpen(p), s))
  }

  ghost predicate AllowedRun(p: Program, ss: seq<Step>)
    requires Fit(p)
    decreases |ss|
  {
    ss == [] || (Allowed(Ids(p), ss[0]) && AllowedRun(After(p, ss[0]), ss[1..]))
  }

  ghost function Run(p: Program, ss: seq<Step>): (q: Program)
    requires Fit(p) && AllowedRun(p, ss)
    ensures Fit(q)
    decreases |ss|
  {
    if ss == [] then p else Run(After(p, ss[0]), ss[1..])
  }

  /** What the fine tier goes through in a run of the program. */
  ghost function FineEvents(p: Program, ss: seq<Step>): seq<H.Event>
    requires Fit(p) && AllowedRun(p, ss)
    decreases |ss|
  {
    if ss == [] then [] else FineEventsOf(Ids(p), IsOpen(p), ss[0]) + FineEvents(After(p, ss[0]), ss[1..])
  }

  /** What a coarse tier goes through. */
  ghost function CoarseEvents(p: Program, ss: seq<Step>, i: nat): seq<CH.Event>
    requires Fit(p) && AllowedRun(p, ss) && i < TIERS
    decreases |ss|
  {
    if ss == [] then [] else CoarseEventsOf(Ids(p), i, IsOpen(p), ss[0]) + CoarseEvents(After(p, ss[0]), ss[1..], i)
  }

  /** Every run of the program, of any steps in any order, is a run of each tier's history,
      so what holds of all runs of those holds of the program. */
  lemma {:induction false} ProgramRunsAreHistories(p: Program, ss: seq<Step>)
    requires Fit(p) && AllowedRun(p, ss)
    ensures H.AllowedRun(Ids(p), FineEvents(p, ss)) && Run(p, ss).fine.world == H.Run(p.fine.world, FineEvents(p, ss))
    ensures CH.AllowedRun(Ids(p), CoarseEvents(p, ss, 1))
    ensures Run(p, ss).medium == CH.Run(p.medium, CoarseEvents(p, ss, 1))
    ensures CH.AllowedRun(Ids(p), CoarseEvents(p, ss, 2))
    ensures Run(p, ss).coarse == CH.Run(p.coarse, CoarseEvents(p, ss, 2))
    decreases |ss|
  {
    if ss != [] {
      hide CH.Healthy, Allowed, FineAfter, CoarseAfter, FineEventsOf, CoarseEventsOf;
      var s, q, rest := ss[0], After(p, ss[0]), ss[1..];
      FineAfterIsRun(p.fine, IsOpen(p), s);
      CoarseAfterIsRun(p.medium, 1, IsOpen(p), s);
      CoarseAfterIsRun(p.coarse, 2, IsOpen(p), s);
      ProgramRunsAreHistories(q, rest);
      WorldRunsJoin(p.fine.world, FineEventsOf(Ids(p), IsOpen(p), s), FineEvents(q, rest));
      RunsJoin(p.medium, CoarseEventsOf(Ids(p), 1, IsOpen(p), s), CoarseEvents(q, rest, 1));
      RunsJoin(p.coarse, CoarseEventsOf(Ids(p), 2, IsOpen(p), s), CoarseEvents(q, rest, 2));
    }
  }

  /** New tiers over files with these contents. */
  function NewProgram(ids: seq<string>, base: nat, memory: nat, i0: Image, i1: Image, i2: Image): Program
  {
    Program(NewState(ids, base, memory, 0, i0), NewState(ids, base, memory, 1, i1), NewState(ids, base, memory, 2, i2))
  }

  lemma {:induction false} NewProgramFits(ids: seq<string>, base: nat, memory: nat, i0: Image, i1: Image, i2: Image)
    requires AllUsable(ids, base, memory)
    ensures Fit(NewProgram(ids, base, memory, i0, i1, i2))
  {
    NewIsHealthy(ids, base, memory, 0, i0);
    NewIsHealthy(ids, base, memory, 1, i1);
    NewIsHealthy(ids, base, memory, 2, i2);
    hide CH.Healthy;
  }

  /** One more tier open. */
  ghost function WithOpen(p: Program, i: nat): (q: Program)
    requires Fit(p) && i < TIERS
    ensures Fit(q)
  {
    if i == 0 then p.(fine := OpenedState(p.fine))
    else if i == 1 then p.(medium := OpenedState(p.medium)) else p.(coarse := OpenedState(p.coarse))
  }

  /** The first tiers open. */
  ghost function Opening(p: Program, i: nat): (q: Program)
    requires Fit(p) && i <= TIERS
    ensures Fit(q)
  {
    if i == 0 then p else WithOpen(Opening(p, i - 1), i - 1)
  }

  lemma {:induction false} NothingOpening(p: Program)
    requires Fit(p)
    ensures Opening(p, 0) == p
  {
  }

  lemma {:induction false} OpensOneMore(p: Program, i: nat)
    requires Fit(p) && i < TIERS
    ensures Opening(p, i + 1) == WithOpen(Opening(p, i), i)
  {
  }

  predicate FirstAvailable(available: seq<bool>, i: nat)
  {
    i <= |available| && forall k :: 0 <= k < i ==> available[k]
  }

  lemma {:induction false} OneMoreAvailable(available: seq<bool>, i: nat)
    ensures FirstAvailable(available, 0)
    ensures FirstAvailable(available, i) && i < |available| && available[i] ==> FirstAvailable(available, i + 1)
  {
  }

  /** A round that got as far as tier i, and closes what it opened. */
  lemma {:induction false} RoundFails(p: Program, available: seq<bool>, i: nat)
    requires Fit(p) && |available| == TIERS && i < TIERS && !available[i] && FirstAvailable(available, i)
    requires !p.fine.world.attached && !p.medium.world.attached && !p.coarse.world.attached
    ensures After(Opening(p, i), Stop) == AfterOpens(p, available) && !(available[0] && available[1] && available[2])
  {
    hide CH.Healthy, OpenedState, ClosedState, After;
    AfterStop(Opening(p, i));
    CloseIdle(p.fine);
    CloseIdle(p.medium);
    CloseIdle(p.coarse);
    assert Opening(p, 0) == p;
    assert i > 0 ==> Opening(p, 1) == WithOpen(p, 0);
    assert i > 1 ==> Opening(p, 2) == WithOpen(Opening(p, 1), 1);
  }

  lemma {:induction false} RoundSucceeds(p: Program, available: seq<bool>)
    requires Fit(p) && |available| == TIERS && FirstAvailable(available, TIERS)
    ensures Opening(p, TIERS) == AfterOpens(p, available) && available[0] && available[1] && available[2]
  {
    hide CH.Healthy, OpenedState, ClosedState;
    assert Opening(p, 0) == p && Opening(p, 1) == WithOpen(p, 0);
    assert Opening(p, 2) == WithOpen(Opening(p, 1), 1) && Opening(p, 3) == WithOpen(Opening(p, 2), 2);
  }

  /** A round of opens in all tiers. */
  ghost function AfterOpens(p: Program, available: seq<bool>): (q: Program)
    requires Fit(p) && |available| == TIERS
  {
    Program(Outcome(p.fine, available, 0), Outcome(p.medium, available, 1), Outcome(p.coarse, available, 2))
  }

  /** A close of all tiers and new ones in their place. */
  ghost function Rebuilt(p: Program, b: Boot): (q: Program)
    requires Fit(p) && BootFits(b)
    ensures Fit(q)
  {
    Program(Restarted(p.fine, b.ids, b.base, b.memory, 0, b.others[0]),
            Restarted(p.medium, b.ids, b.base, b.memory, 1, b.others[1]),
            Restarted(p.coarse, b.ids, b.base, b.memory, 2, b.others[2]))
  }

  lemma {:induction false} AfterTick(p: Program, x: Sample)
    requires Fit(p) && Allowed(Ids(p), Tick(x))
    ensures After(p, Tick(x)) ==
            Program(FineTicked(p.fine, x), CH.Step(p.medium, CH.Tick(x)), CH.Step(p.coarse, CH.Tick(x)))
  {
  }

  lemma {:induction false} AfterStop(p: Program)
    requires Fit(p)
    ensures After(p, Stop) == Program(ClosedState(p.fine), ClosedState(p.medium), ClosedState(p.coarse))
  {
  }

  lemma {:induction false} AfterRetry(p: Program, mountsChanged: bool, b: Boot, available: seq<bool>)
    requires Fit(p) && BootFits(b) && |available| == TIERS
    ensures After(p, Retry(mountsChanged, b, available)) ==
            if IsOpen(p) then p else AfterOpens(if mountsChanged then Rebuilt(p, b) else p, available)
  {
    hide AllUsable, Outcome, Restarted, CH.Healthy;
  }
}
