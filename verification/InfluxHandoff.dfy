/** The hand-off of payloads from the main thread to the InfluxDB writer: a queue on which
    both threads act, a policy that drops what was not fetched in time, and a sentinel that
    ends the writer. Each step is one queue operation or one piece of a thread's own code,
    and the steps of the two threads interleave freely. */
module InfluxHandoff {

  /** Payloads are numbered in the order they are built. */
  datatype Item = Payload(n: nat) | Quit

  datatype Config = Config(enabled: bool, hasUrl: bool, interval: nat)

  /** Where the main thread is. Draining, Freeing stale, Building and Pushing are a tick
      past its checks; the rest from Stopping on is the shutdown. */
  datatype Main =
    | Idle
    | Draining
    | FreeingStale(stale: Item)
    | Building
    | Pushing(n: nat)
    | Stopping
    | Joining
    | Closing
    | FreeingPending(pending: Item)
    | Done

  datatype Worker =
    | Waiting
    | Popped(n: nat)
    | Copied(n: nat, config: Config)
    | Finished(n: nat)
    | Exited

  datatype State = State(
    config: Config, stopping: bool, lastWrite: int, queue: seq<Item>, main: Main, worker: Worker,
    built: nat, freed: seq<Item>, written: seq<nat>)

  const INITIAL: State := State(Config(false, false, 0), false, 0, [], Idle, Waiting, 0, [], [])

  datatype Step =
    // the main thread
    | Apply(config: Config)
    | Tick(now: int)
    | TryPop
    | FreeStale
    | Build(something: bool)
    | Push
    | Stop
    | PushQuit
    | Join
    | PopPending
    | FreePending
    // the worker
    | Pop
    | CopyConfig
    | Write
    | Free

  predicate Enabled(s: State, step: Step)
  {
    match step
    case Apply(_) => s.main.Idle?
    case Tick(_) => s.main.Idle?
    case TryPop => s.main.Draining?
    case FreeStale => s.main.FreeingStale?
    case Build(_) => s.main.Building?
    case Push => s.main.Pushing?
    case Stop => s.main.Idle?
    case PushQuit => s.main.Stopping?
    case Join => s.main.Joining? && s.worker.Exited?
    case PopPending => s.main.Closing?
    case FreePending => s.main.FreeingPending?
    case Pop => s.worker.Waiting? && s.queue != []
    case CopyConfig => s.worker.Popped?
    case Write => s.worker.Copied?
    case Free => s.worker.Finished?
  }

  predicate TickPasses(s: State, now: int)
  {
    s.config.enabled && !s.stopping && s.config.hasUrl &&
    !(s.lastWrite != 0 && now - s.lastWrite < s.config.interval)
  }

  function Do(s: State, step: Step): State
    requires Enabled(s, step)
  {
    match step
    case Apply(c) => s.(config := c, lastWrite := if c.enabled && !s.config.enabled then 0 else s.lastWrite)
    case Tick(now) => if TickPasses(s, now) then s.(main := Draining, lastWrite := now) else s
    case TryPop =>
      if s.queue == [] then s.(main := Building) else s.(main := FreeingStale(s.queue[0]), queue := s.queue[1..])
    case FreeStale => s.(main := Draining, freed := s.freed + [s.main.stale])
    case Build(something) =>
      if something then s.(main := Pushing(s.built), built := s.built + 1) else s.(main := Idle)
    case Push => s.(main := Idle, queue := s.queue + [Payload(s.main.n)])
    case Stop => s.(main := Stopping, stopping := true)
    case PushQuit => s.(main := Joining, queue := s.queue + [Quit])
    case Join => s.(main := Closing)
    case PopPending =>
      if s.queue == [] then s.(main := Done) else s.(main := FreeingPending(s.queue[0]), queue := s.queue[1..])
    case FreePending =>
      s.(main := Closing, freed := if s.main.pending.Quit? then s.freed else s.freed + [s.main.pending])
    case Pop =>
      s.(worker := if s.queue[0].Quit? then Exited else Popped(s.queue[0].n), queue := s.queue[1..])
    case CopyConfig => s.(worker := Copied(s.worker.n, s.config))
    case Write =>
      var sent := s.worker.config.enabled && s.worker.config.hasUrl;
      s.(worker := Finished(s.worker.n), written := if sent then s.written + [s.worker.n] else s.written)
    case Free => s.(worker := Waiting, freed := s.freed + [Payload(s.worker.n)])
  }

  ghost predicate Next(s: State, t: State)
  {
    exists step :: Enabled(s, step) && t == Do(s, step)
  }

  /** Any interleaving of the two threads from the start. */
  ghost predicate IsRun(run: seq<State>)
  {
    run != [] && run[0] == INITIAL && forall i :: 0 < i < |run| ==> Next(run[i - 1], run[i])
  }

  // ------------------------------------------------------------ ownership

  function MainHolds(m: Main): seq<Item>
  {
    match m
    case FreeingStale(item) => [item]
    case Pushing(n) => [Payload(n)]
    case FreeingPending(item) => [item]
    case _ => []
  }

  function WorkerHolds(w: Worker): seq<Item>
  {
    match w
    case Waiting => []
    case Exited => [Quit]
    case _ => [Payload(w.n)]
  }

  function Times(s: seq<Item>, x: Item): nat { multiset(s)[x] }

  /** How often an item is with anyone: a thread, the queue, or the allocator again. */
  function Owners(s: State, x: Item): nat
  {
    Times(MainHolds(s.main), x) + Times(s.queue, x) + Times(WorkerHolds(s.worker), x) + Times(s.freed, x)
  }

  function Built(n: nat): seq<Item>
  {
    seq(n, i requires 0 <= i < n => Payload(i))
  }

  predicate QuitSent(m: Main) { m.Joining? || m.Closing? || m.FreeingPending? || m.Done? }

  predicate Joined(m: Main) { m.Closing? || m.FreeingPending? || m.Done? }

  ghost predicate Conserved(s: State)
  {
    forall x :: Owners(s, x) == Times(Built(s.built), x) + (if QuitSent(s.main) then Times([Quit], x) else 0)
  }

  /** The queue holds the newest payload or none, and the sentinel behind it at the end. */
  ghost predicate QueueInOrder(s: State)
  {
    var end := if QuitSent(s.main) && !s.worker.Exited? then [Quit] else [];
    s.queue == end || (s.built > 0 && s.queue == [Payload(s.built - 1)] + end && !s.worker.Exited?)
  }

  ghost predicate Phases(s: State)
  {
    && (s.main.Building? || s.main.Pushing? ==> s.queue == [])
    && (s.main.Pushing? ==> s.main.n + 1 == s.built)
    && (s.main.FreeingStale? ==> s.main.stale.Payload?)
    && !s.main.FreeingPending?
    && (s.worker.Exited? ==> QuitSent(s.main))
    && (Joined(s.main) ==> s.worker.Exited?)
    && (s.stopping <==> s.main.Stopping? || QuitSent(s.main))
    && Quit !in s.freed
  }

  /** The newest payload has not been fetched yet. */
  predicate Unfetched(s: State) { s.main.Pushing? || (s.queue != [] && s.queue[0].Payload?) }

  /** Payloads fetched so far are older than what still waits. */
  function Limit(s: State): nat
  {
    if Unfetched(s) && s.built > 0 then s.built - 1 else s.built
  }

  predicate Increasing(ns: seq<nat>)
  {
    forall i, j :: 0 <= i < j < |ns| ==> ns[i] < ns[j]
  }

  ghost predicate Ordered(s: State)
  {
    && Increasing(s.written)
    && (forall i :: 0 <= i < |s.written| ==> s.written[i] < Limit(s))
    && (s.worker.Popped? || s.worker.Copied? || s.worker.Finished? ==> s.worker.n < Limit(s))
    && (s.worker.Popped? || s.worker.Copied? ==> forall i :: 0 <= i < |s.written| ==> s.written[i] < s.worker.n)
    && (s.worker.Finished? ==> forall i :: 0 <= i < |s.written| ==> s.written[i] <= s.worker.n)
  }

  ghost predicate Invariant(s: State)
  {
    Conserved(s) && QueueInOrder(s) && Phases(s) && Ordered(s)
  }

  // ------------------------------------------------------------ the proof

  lemma {:induction false} TimesSums(x: Item)
    ensures Times([], x) == 0
    ensures forall a, b :: Times(a + b, x) == Times(a, x) + Times(b, x)
  {
  }

  lemma {:induction false} TimesHead(s: seq<Item>, x: Item)
    ensures s != [] ==> Times(s, x) == Times([s[0]], x) + Times(s[1..], x)
  {
    if s != [] {
      assert s == [s[0]] + s[1..];
    }
  }

  lemma {:induction false} BuiltNext(n: nat)
    ensures Built(n + 1) == Built(n) + [Payload(n)]
  {
  }

  lemma {:induction false} OwnersNext(s: State, step: Step, x: Item)
    requires Conserved(s) && Phases(s) && Enabled(s, step)
    ensures var t := Do(s, step);
            Owners(t, x) == Times(Built(t.built), x) + (if QuitSent(t.main) then Times([Quit], x) else 0)
  {
    hide Times, Built;
    BuiltNext(s.built);
    assert Owners(s, x) == Times(Built(s.built), x) + (if QuitSent(s.main) then Times([Quit], x) else 0);
    TimesSums(x);
    TimesHead(s.queue, x);
  }

  lemma {:induction false} ConservedNext(s: State, step: Step)
    requires Conserved(s) && Phases(s) && Enabled(s, step)
    ensures Conserved(Do(s, step))
  {
    hide Owners, Do, Phases, Times;
    forall x ensures var t := Do(s, step);
                     Owners(t, x) == Times(Built(t.built), x) + (if QuitSent(t.main) then Times([Quit], x) else 0)
    {
      OwnersNext(s, step, x);
    }
  }

  lemma {:induction false} QueueNext(s: State, step: Step)
    requires QueueInOrder(s) && Phases(s) && Enabled(s, step)
    ensures QueueInOrder(Do(s, step)) && Phases(Do(s, step))
  {
  }

  predicate WorkerStep(step: Step) { step.Pop? || step.CopyConfig? || step.Write? || step.Free? }

  lemma {:induction false} OrderedNextMain(s: State, step: Step)
    requires QueueInOrder(s) && Phases(s) && Ordered(s) && Enabled(s, step) && !WorkerStep(step)
    ensures Ordered(Do(s, step))
  {
    assert Limit(s) <= Limit(Do(s, step));
    hide Limit, QueueInOrder;
  }

  lemma {:induction false} OrderedNextPop(s: State)
    requires QueueInOrder(s) && Phases(s) && Ordered(s) && Enabled(s, Pop)
    ensures Ordered(Do(s, Pop))
  {
  }

  /** The worker's own steps, after its fetch, leave what still waits alone. */
  lemma {:induction false} OrderedNextOwn(s: State, step: Step)
    requires Ordered(s) && Enabled(s, step) && (step.CopyConfig? || step.Write? || step.Free?)
    ensures Ordered(Do(s, step))
  {
    assert Limit(s) == Limit(Do(s, step));
    hide Limit;
  }

  lemma {:induction false} OrderedNext(s: State, step: Step)
    requires QueueInOrder(s) && Phases(s) && Ordered(s) && Enabled(s, step)
    ensures Ordered(Do(s, step))
  {
    hide QueueInOrder, Phases, Ordered, Enabled, Do;
    if step.Pop? {
      OrderedNextPop(s);
    } else if step.CopyConfig? || step.Write? || step.Free? {
      OrderedNextOwn(s, step);
    } else {
      OrderedNextMain(s, step);
    }
  }

  lemma {:induction false} InvariantNext(s: State, t: State)
    requires Invariant(s) && Next(s, t)
    ensures Invariant(t)
  {
    var step :| Enabled(s, step) && t == Do(s, step);
    ConservedNext(s, step);
    QueueNext(s, step);
    OrderedNext(s, step);
  }

  lemma {:induction false} InvariantAtStart()
    ensures Invariant(INITIAL)
  {
    hide Times;
    assert Built(0) == [];
    forall x ensures Owners(INITIAL, x) == Times(Built(0), x) {
      TimesSums(x);
    }
  }

  lemma {:induction false} ShorterRun(run: seq<State>)
    requires IsRun(run) && |run| > 1
    ensures IsRun(run[..|run| - 1]) && Next(run[|run| - 2], run[|run| - 1])
  {
    hide Next;
  }

  lemma {:induction false} RunsKeepInvariant(run: seq<State>)
    requires IsRun(run)
    ensures Invariant(run[|run| - 1])
    decreases |run|
  {
    hide Next, Invariant;
    if |run| > 1 {
      ShorterRun(run);
      RunsKeepInvariant(run[..|run| - 1]);
      InvariantNext(run[|run| - 2], run[|run| - 1]);
    } else {
      InvariantAtStart();
    }
  }

  lemma {:induction false} BuiltOnce(built: nat, n: nat)
    ensures Times(Built(built), Payload(n)) == if n < built then 1 else 0
    decreases built
  {
    if built > 0 {
      BuiltOnce(built - 1, n);
      assert Built(built) == Built(built - 1) + [Payload(built - 1)];
    } else {
      assert Built(0) == [];
    }
  }

  // --------------------------------------------------------- what it means

  /** In every interleaving, each payload built so far has exactly one owner, the main
      thread, the queue, the worker or the allocator; no other payload is anywhere, and
      the sentinel is never freed. */
  lemma {:induction false} OneOwner(run: seq<State>, n: nat)
    requires IsRun(run)
    ensures var s := run[|run| - 1];
            Owners(s, Payload(n)) == (if n < s.built then 1 else 0) && Quit !in s.freed
  {
    hide QueueInOrder, Ordered;
    var s := run[|run| - 1];
    RunsKeepInvariant(run);
    BuiltOnce(s.built, n);
  }

  /** In every interleaving at most one payload is queued, it is the newest one built, and
      nothing but the sentinel comes behind it. */
  lemma {:induction false} QueueHoldsNewest(run: seq<State>)
    requires IsRun(run)
    ensures var s := run[|run| - 1];
            s.queue == [] || s.queue == [Quit] ||
            (s.built > 0 && (s.queue == [Payload(s.built - 1)] || s.queue == [Payload(s.built - 1), Quit]))
  {
    RunsKeepInvariant(run);
  }

  /** In every interleaving payloads are written in the order they were built, each at most
      once, and none is written after it was freed. */
  lemma {:induction false} WrittenInOrder(run: seq<State>)
    requires IsRun(run)
    ensures var s := run[|run| - 1];
            && Increasing(s.written) && (forall i :: 0 <= i < |s.written| ==> s.written[i] < s.built)
            && (s.worker.Copied? ==> Payload(s.worker.n) !in s.freed && s.worker.n !in s.written)
  {
    var s := run[|run| - 1];
    RunsKeepInvariant(run);
    if s.worker.Copied? {
      OneOwner(run, s.worker.n);
      assert WorkerHolds(s.worker) == [Payload(s.worker.n)];
      assert Times(s.freed, Payload(s.worker.n)) == 0;
    }
  }

  /** Once the worker has been joined the queue is empty, so the loop that empties it
      finds nothing, and at the end every payload built has been freed exactly once. */
  lemma {:induction false} ShutdownFreesAll(run: seq<State>, n: nat)
    requires IsRun(run)
    ensures var s := run[|run| - 1];
            && (Joined(s.main) ==> s.queue == [] && !s.main.FreeingPending? && s.worker.Exited?)
            && (s.main.Done? ==> Times(s.freed, Payload(n)) == if n < s.built then 1 else 0)
  {
    RunsKeepInvariant(run);
    OneOwner(run, n);
  }

  // ------------------------------------------------------- what is written

  predicate Allows(c: Config) { c.enabled && c.hasUrl }

  lemma {:induction false} PrefixOfRun(run: seq<State>, k: nat)
    requires IsRun(run) && 0 < k <= |run|
    ensures IsRun(run[..k])
  {
    hide Next;
  }

  /** The worker has written the payload, or passed over it, and perhaps freed it. */
  predicate Behind(s: State, n: nat) { s.worker == Finished(n) || Payload(n) in s.freed }

  lemma {:induction false} NotYetWritten(run: seq<State>, n: nat, c: Config)
    requires IsRun(run) && run[|run| - 1].worker == Copied(n, c)
    ensures n !in run[|run| - 1].written && Payload(n) !in run[|run| - 1].freed
  {
    WrittenInOrder(run);
  }

  /** One step of a payload in hand. */
  lemma {:induction false} BehindNext(run: seq<State>, n: nat, c: Config)
    requires IsRun(run) && |run| > 1
    requires var s := run[|run| - 2]; s.worker == Copied(n, c) || (Behind(s, n) && (n in s.written <==> Allows(c)))
    ensures var t := run[|run| - 1]; t.worker == Copied(n, c) || (Behind(t, n) && (n in t.written <==> Allows(c)))
  {
    var s, t := run[|run| - 2], run[|run| - 1];
    ShorterRun(run);
    if s.worker.Copied? {
      NotYetWritten(run[..|run| - 1], s.worker.n, s.worker.config);
    }
    hide IsRun, Behind, Next;
    BehindStep(s, t, n, c);
  }

  lemma {:induction false} BehindStep(s: State, t: State, n: nat, c: Config)
    requires Next(s, t) && (s.worker.Copied? ==> s.worker.n !in s.written && Payload(s.worker.n) !in s.freed)
    requires s.worker == Copied(n, c) || (Behind(s, n) && (n in s.written <==> Allows(c)))
    ensures t.worker == Copied(n, c) || (Behind(t, n) && (n in t.written <==> Allows(c)))
  {
    var step :| Enabled(s, step) && t == Do(s, step);
    if !WorkerStep(step) {
      assert t.worker == s.worker && t.written == s.written && forall x :: x in s.freed ==> x in t.freed;
    }
  }

  /** In every interleaving, the copy of the settings that the worker takes before a payload
      decides whether the payload is written: once the worker is past it, the payload is
      among those written if and only if the writer was on and had an address. */
  lemma {:induction false} WrittenIff(run: seq<State>, i: nat, n: nat, c: Config)
    requires IsRun(run) && i < |run| && run[i].worker == Copied(n, c)
    ensures var s := run[|run| - 1];
            s.worker == Copied(n, c) || (Behind(s, n) && (n in s.written <==> c.enabled && c.hasUrl))
    decreases |run|
  {
    if i < |run| - 1 {
      PrefixOfRun(run, |run| - 1);
      WrittenIff(run[..|run| - 1], i, n, c);
      hide IsRun, Behind;
      BehindNext(run, n, c);
    }
  }

  /** Those settings are the ones in force when it takes them. */
  lemma {:induction false} CopiedInForce(run: seq<State>, i: nat)
    requires IsRun(run) && i + 1 < |run| && run[i].worker.Popped? && run[i + 1].worker.Copied?
    ensures run[i + 1].worker == Copied(run[i].worker.n, run[i].config)
  {
    assert Next(run[i], run[i + 1]);
    hide IsRun;
    var step :| Enabled(run[i], step) && run[i + 1] == Do(run[i], step);
  }

  /** And nothing else is ever written. */
  lemma {:induction false} OnlyAllowedWritten(run: seq<State>, n: nat) returns (i: nat)
    requires IsRun(run) && n in run[|run| - 1].written
    ensures i < |run| && run[i].worker.Copied? && run[i].worker.n == n
    ensures run[i].worker.config.enabled && run[i].worker.config.hasUrl
    decreases |run|
  {
    var k := |run| - 1;
    assert k > 0;
    ShorterRun(run);
    if n in run[k - 1].written {
      i := OnlyAllowedWritten(run[..k], n);
    } else {
      i := k - 1;
      hide IsRun, Next;
      WrittenBy(run[k - 1], run[k], n);
    }
  }

  lemma {:induction false} WrittenBy(s: State, t: State, n: nat)
    requires Next(s, t) && n !in s.written && n in t.written
    ensures s.worker.Copied? && s.worker.n == n && Allows(s.worker.config)
  {
    var step :| Enabled(s, step) && t == Do(s, step);
  }

  /** It happens: a payload is built, fetched, written and freed. */
  lemma {:induction false} OneIsWritten()
    ensures exists run: seq<State> ::
              IsRun(run) && run[|run| - 1].written == [0] && run[|run| - 1].freed == [Payload(0)]
  {
    var run := OneIsQueued();
    hide IsRun;
    run := OneMoreStep(run, Pop);
    run := OneMoreStep(run, CopyConfig);
    run := OneMoreStep(run, Write);
    run := OneMoreStep(run, Free);
  }

  lemma {:induction false} OneIsQueued() returns (run: seq<State>)
    ensures IsRun(run)
    ensures run[|run| - 1] == State(Config(true, true, 10), false, 5, [Payload(0)], Idle, Waiting, 1, [], [])
  {
    run := [INITIAL];
    assert IsRun(run);
    hide IsRun;
    run := OneMoreStep(run, Apply(Config(true, true, 10)));
    run := OneMoreStep(run, Tick(5));
    run := OneMoreStep(run, TryPop);
    run := OneMoreStep(run, Build(true));
    run := OneMoreStep(run, Push);
  }

  // --------------------------------------------------------- how often

  /** A tick goes past its checks. */
  predicate Passes(s: State, t: State) { s.main.Idle? && t.main.Draining? }

  /** A tick goes past its checks exactly when the writer is on, has an address, is not being
      stopped, and the last one that did is an interval ago or was never. */
  lemma {:induction false} TickPassesIff(s: State, now: int)
    requires s.main.Idle?
    ensures Passes(s, Do(s, Tick(now))) <==>
            s.config.enabled && s.config.hasUrl && !s.stopping &&
            (s.lastWrite == 0 || now - s.lastWrite >= s.config.interval)
    ensures Passes(s, Do(s, Tick(now))) ==> Do(s, Tick(now)).lastWrite == now
  {
  }

  /** Switching the writer on lets the next tick through, however recent the last write. */
  lemma {:induction false} SwitchedOnWritesAtOnce(s: State, c: Config, now: int)
    requires s.main.Idle? && !s.stopping && !s.config.enabled && c.enabled && c.hasUrl
    ensures var t := Do(s, Apply(c)); t.main.Idle? && Passes(t, Do(t, Tick(now)))
  {
  }

  lemma {:induction false} LastWriteGrows(s: State, t: State)
    requires Next(s, t) && s.config.enabled && s.lastWrite > 0
    ensures t.lastWrite >= s.lastWrite
    ensures Passes(s, t) ==> t.lastWrite - s.lastWrite >= s.config.interval
  {
    var step :| Enabled(s, step) && t == Do(s, step);
  }

  /** In every interleaving, two ticks that go past their checks are an interval apart, as
      long as the writer stays on between them. */
  lemma {:induction false} TicksSpaced(run: seq<State>, i: nat, j: nat)
    requires IsRun(run) && i < j < |run| - 1
    requires Passes(run[i], run[i + 1]) && Passes(run[j], run[j + 1])
    requires run[i + 1].lastWrite > 0 && forall k :: i < k <= j ==> run[k].config.enabled
    ensures run[j + 1].lastWrite - run[i + 1].lastWrite >= run[j].config.interval
  {
    LastWriteKept(run, i + 1, j);
    assert Next(run[j], run[j + 1]);
    hide IsRun, Next;
    LastWriteGrows(run[j], run[j + 1]);
  }

  lemma {:induction false} LastWriteKept(run: seq<State>, i: nat, j: nat)
    requires IsRun(run) && i <= j < |run| && run[i].lastWrite > 0
    requires forall k :: i <= k < j ==> run[k].config.enabled
    ensures run[j].lastWrite >= run[i].lastWrite
    decreases j
  {
    if i < j {
      LastWriteKept(run, i, j - 1);
      assert Next(run[j - 1], run[j]);
      hide IsRun, Next;
      LastWriteGrows(run[j - 1], run[j]);
    }
  }

  // ------------------------------------------------ no deadlock at shutdown

  /** Steps left until the shutdown is over, when the main thread waits for the worker. */
  function Remaining(s: State): nat
  {
    (match s.worker case Waiting => 0 case Popped(_) => 3 case Copied(_, _) => 2 case Finished(_) => 1 case Exited => 0)
    + 4 * |s.queue|
  }

  /** While the main thread waits in the join the worker always has a step to take, every
      step brings its end nearer, and when it has none left the join can return. */
  lemma {:induction false} JoinReturns(run: seq<State>)
    requires IsRun(run) && run[|run| - 1].main.Joining?
    ensures var s := run[|run| - 1];
            if s.worker.Exited? then Enabled(s, Join)
            else exists step: Step :: WorkerStep(step) && Enabled(s, step)
                                && Remaining(Do(s, step)) < Remaining(s)
  {
    var s := run[|run| - 1];
    RunsKeepInvariant(run);
    var step := match s.worker
      case Waiting => Pop case Popped(_) => CopyConfig case Copied(_, _) => Write case _ => Free;
    if !s.worker.Exited? {
      assert Enabled(s, step);
      assert Remaining(Do(s, step)) < Remaining(s);
    }
  }

  // -------------------------------------------- a queued payload may be idle

  /** The worker has a payload in hand: it is writing it, about to, or just done. */
  predicate Busy(w: Worker) { w.Popped? || w.Copied? || w.Finished? }

  /** In every interleaving, what a tick drops as stale is the newest payload, and it drops
      one with no write under way exactly when the worker could have fetched it instead. */
  lemma {:induction false} DroppedWhileIdleIff(run: seq<State>)
    requires IsRun(run) && run[|run| - 1].main.Draining?
    ensures var s := run[|run| - 1];
            var t := Do(s, TryPop);
            && (t.main.FreeingStale? <==> s.queue != [])
            && (t.main.FreeingStale? ==> s.built > 0 && t.main.stale == Payload(s.built - 1))
            && (t.main.FreeingStale? && !Busy(t.worker) <==> Enabled(s, Pop))
  {
    RunsKeepInvariant(run);
    hide Conserved, Ordered;
  }

  /** It happens: a payload is dropped although nothing was ever written. */
  lemma {:induction false} DroppedWhileIdle()
    ensures exists run: seq<State> ::
              && IsRun(run) && run[|run| - 1].main == FreeingStale(Payload(0))
              && run[|run| - 1].worker.Waiting? && run[|run| - 1].written == []
  {
    var run := OneIsQueued();
    hide IsRun;
    run := OneMoreStep(run, Tick(15));
    run := OneMoreStep(run, TryPop);
  }

  lemma {:induction false} OneMoreStep(run: seq<State>, step: Step) returns (longer: seq<State>)
    requires IsRun(run) && Enabled(run[|run| - 1], step)
    ensures IsRun(longer) && longer[|longer| - 1] == Do(run[|run| - 1], step)
  {
    longer := run + [Do(run[|run| - 1], step)];
    assert Next(run[|run| - 1], longer[|run|]);
    hide Next, Do;
  }
}
