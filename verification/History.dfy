/** One tier over many process lives: the ring in memory, the file behind it, and the
    plain lists they stand for through opens, closes, crashes and metric changes. */
module History {
  import opened Samples
  import opened Bytes
  import opened Layout
  import opened Rings
  import opened Mirror
  import opened Recovery
  import Registry

  /** Where a crash can hit a step that writes more than once: in an append, after the record
      and before the index that may be due; or in an open, after the layout, some whole
      records of the replay, and perhaps the next record without its index. */
  datatype Place = InAppend(x: Sample) | InReplay(replayed: nat, half: bool)

  /** What can happen to a tier. Restart is the end of a process and the start of the
      next, or a rebuild after a storage change: a clean one comes after Close, a Restart
      while the file is attached is a crash between two steps, and a Cut is a crash inside
      one. OtherStorage is a change of what the next open will find, since each one picks
      the largest disk there is; a file that is open stays the one it was. */
  datatype Event =
    | Append(x: Sample)
    | Open
    | OpenFails
    | Close
    | Restart(ids: seq<string>, interval: nat, capacity: nat)
    | Cut(at: Place, ids: seq<string>, interval: nat, capacity: nat)
    | OtherStorage(image: Image)

  /** The event is the end of a process and the start of the next. */
  predicate EndsProcess(e: Event) { e.Restart? || e.Cut? }

  // ------------------------------------------------ the tier as it is kept

  /** file.image is the file on disk; the rest of file is a bare handle while detached. */
  datatype World = World(ids: seq<string>, interval: nat, ring: Ring<Sample>, attached: bool, file: Mirror.State)

  /** A handle on a file as persist_open leaves it: nothing of it is its own yet. */
  function Handle(ids: seq<string>, interval: nat, capacity: nat, image: Image): (p: Mirror.State)
  {
    Mirror.State(|ids|, capacity, interval, 0, 0, 0, false, image)
  }

  function Opened(w: World): (p: Mirror.State)
  {
    Handle(w.ids, w.interval, |w.ring.slots|, w.file.image)
  }

  /** Closing a handle that never laid its file out leaves the file untouched. */
  lemma {:induction false} UnsyncedCloseKeepsFile(w: World)
    ensures CloseImage(Opened(w)) == w.file.image
  {
  }

  /** What a successful open does to the ring: saved samples enter an empty tier only. */
  function Adopt(w: World): (r: Ring<Sample>)
    requires Valid(w.ring)
    ensures Valid(r) && |r.slots| == |w.ring.slots|
  {
    if w.ring.count == 0 then Rings.AppendAll(w.ring, Load(w.file.image, w.interval, w.ids)) else w.ring
  }

  /** persist_sync: lay the file out and replay the tier. */
  function Sync(p: Mirror.State, ids: seq<string>, xs: seq<Sample>): Mirror.State
    requires p.capacity > 0
    requires forall i :: 0 <= i < |ids| ==> IsText(ids[i])
    requires forall i :: 0 <= i < |xs| ==> IsInt64(xs[i].ts)
  {
    AppendRecords(Initialise(p, ids), xs)
  }

  ghost predicate Usable(ids: seq<string>, interval: nat, capacity: nat)
  {
    Fits(|ids|, capacity, interval, ids)
  }

  ghost predicate Healthy(w: World)
  {
    Usable(w.ids, w.interval, |w.ring.slots|) && Valid(w.ring) && w.file.capacity > 0 &&
    Dated(Denote(w.ring)) && Rows(Denote(w.ring), |w.ids|)
  }

  ghost predicate Allowed(now: seq<string>, e: Event)
  {
    match e
    case Append(x) => |x.row| == |now| && 0 < x.ts < TWO63
    case Restart(ids, interval, capacity) => Usable(ids, interval, capacity)
    case Cut(at, ids, interval, capacity) =>
      Usable(ids, interval, capacity) && (at.InAppend? ==> |at.x.row| == |now| && 0 < at.x.ts < TWO63)
    case _ => true
  }

  lemma {:induction false} AdoptedDated(w: World)
    requires Healthy(w)
    ensures Dated(Denote(Adopt(w))) && Rows(Denote(Adopt(w)), |w.ids|)
    ensures Denote(Adopt(w)) == if w.ring.count == 0 then LastN(Load(w.file.image, w.interval, w.ids), |w.ring.slots|)
                                else Denote(w.ring)
  {
    if w.ring.count == 0 {
      RestoreIntoEmpty(w.ring, Load(w.file.image, w.interval, w.ids));
    }
  }

  ghost function AppendStep(w: World, x: Sample): (v: World)
    requires Healthy(w) && Allowed(w.ids, Event.Append(x))
    ensures Healthy(v) && v.ids == w.ids
  {
    AppendDenotes(w.ring, x);
    w.(ring := Rings.Append(w.ring, x), file := if w.attached then AppendRecord(w.file, x) else w.file)
  }

  /** persist_open, persist_load for an empty tier, persist_sync. */
  ghost function OpenStep(w: World): (v: World)
    requires Healthy(w)
    ensures Healthy(v) && v.ids == w.ids
  {
    if w.attached then w
    else
      AdoptedDated(w);
      w.(ring := Adopt(w), attached := true, file := Sync(Opened(w), w.ids, Denote(Adopt(w))))
  }

  ghost function CloseStep(w: World): (v: World)
    requires Healthy(w)
    ensures Healthy(v) && v.ids == w.ids
  {
    if w.attached then w.(attached := false, file := Handle(w.ids, w.interval, |w.ring.slots|, CloseImage(w.file)))
    else w
  }

  ghost function NextProcess(ids: seq<string>, interval: nat, capacity: nat, image: Image): (v: World)
    requires Usable(ids, interval, capacity)
    ensures Healthy(v) && v.ids == ids && v.file.image == image
  {
    World(ids, interval, ZeroRing(|ids|, capacity), false, Handle(ids, interval, capacity, image))
  }

  function FirstOf<T>(xs: seq<T>, k: nat): (ys: seq<T>)
    ensures ys <= xs && |ys| == if k < |xs| then k else |xs|
  {
    if k < |xs| then xs[..k] else xs
  }

  /** The file as a crash inside a step leaves it. */
  ghost function CutImage(w: World, at: Place): Image
    requires Healthy(w) && (at.InAppend? ==> IsInt64(at.x.ts))
  {
    match at
    case InAppend(x) => if w.attached then WriteRecord(w.file, x).image else w.file.image
    case InReplay(k, half) =>
      if w.attached then w.file.image
      else
        AdoptedDated(w);
        var held := Denote(Adopt(w));
        var q := Sync(Opened(w), w.ids, FirstOf(held, k));
        if half && k < |held| then WriteRecord(q, held[k]).image else q.image
  }

  ghost function Step(w: World, e: Event): (v: World)
    requires Healthy(w) && Allowed(w.ids, e)
    ensures Healthy(v) && v.ids == if EndsProcess(e) then e.ids else w.ids
  {
    match e
    case Append(x) => AppendStep(w, x)
    case Open => OpenStep(w)
    case OpenFails => w
    case Close => CloseStep(w)
    case Restart(ids, interval, capacity) =>
      NextProcess(ids, interval, capacity, w.file.image)
    case Cut(at, ids, interval, capacity) => NextProcess(ids, interval, capacity, CutImage(w, at))
    case OtherStorage(image) =>
      if w.attached then w else w.(file := Handle(w.ids, w.interval, |w.ring.slots|, image))
  }

  lemma {:induction false} CloseDetached(w: World)
    requires Healthy(w)
    ensures !w.attached ==> Step(w, Close) == w
  {
  }

  // ------------------------------------------------- the tier as plain lists

  /** What a file is worth: some bytes from outside, or a file of ours whose index
      covers flushed while pending went on top. */
  datatype Saved =
    | Found(image: Image)
    | Ours(ids: seq<string>, interval: nat, capacity: nat, flushed: seq<Sample>, pending: seq<Sample>)

  datatype Plain = Plain(
    ids: seq<string>, interval: nat, capacity: nat, held: seq<Sample>, attached: bool, saved: Saved)

  /** The metric set in force decides which samples may come; it changes at a restart. */
  ghost predicate AllowedRun(now: seq<string>, es: seq<Event>)
    decreases |es|
  {
    es == [] || (Allowed(now, es[0]) && AllowedRun(if EndsProcess(es[0]) then es[0].ids else now, es[1..]))
  }

  ghost function Run(w: World, es: seq<Event>): (v: World)
    requires Healthy(w) && AllowedRun(w.ids, es)
    ensures Healthy(v)
    decreases |es|
  {
    if es == [] then w else Run(Step(w, es[0]), es[1..])
  }

  ghost predicate SavedWell(s: Saved)
  {
    s.Ours? ==>
      Usable(s.ids, s.interval, s.capacity) && |s.flushed| <= s.capacity && |s.pending| <= 60 &&
      Dated(s.flushed) && Dated(s.pending) && Rows(s.flushed, |s.ids|) && Rows(s.pending, |s.ids|)
  }

  /** What a load by the given metric set brings back. */
  ghost function Reloaded(s: Saved, interval: nat, ids: seq<string>): (xs: seq<Sample>)
    requires SavedWell(s)
    ensures Dated(xs) && Rows(xs, |ids|)
  {
    match s
    case Found(image) => Load(image, interval, ids)
    case Ours(saved, was, capacity, flushed, pending) =>
      if interval != was then [] else RemapAll(Recovered(flushed, pending, capacity), saved, ids)
  }

  ghost function SavedAppend(s: Saved, x: Sample): (t: Saved)
    requires s.Ours? && SavedWell(s) && |x.row| == |s.ids| && 0 < x.ts < TWO63
    ensures SavedWell(t) && t.Ours? && t.ids == s.ids && t.interval == s.interval && t.capacity == s.capacity
    ensures |t.pending| < 60
  {
    if |s.pending| + 1 < 60 then s.(pending := s.pending + [x])
    else s.(flushed := LastN(s.flushed + s.pending + [x], s.capacity), pending := [])
  }

  ghost function SavedClose(s: Saved): (t: Saved)
    requires s.Ours? && SavedWell(s)
    ensures SavedWell(t) && t.Ours? && t.ids == s.ids && t.interval == s.interval && t.capacity == s.capacity
  {
    s.(flushed := LastN(s.flushed + s.pending, s.capacity), pending := [])
  }

  /** The file after laying it out and replaying a list. */
  ghost function SavedSync(ids: seq<string>, interval: nat, capacity: nat, xs: seq<Sample>): (t: Saved)
    requires Usable(ids, interval, capacity) && Dated(xs) && Rows(xs, |ids|)
    ensures SavedWell(t) && t.Ours? && t.ids == ids && t.interval == interval && t.capacity == capacity
    ensures |t.pending| < 60
  {
    var f := Flushed(|xs|);
    Ours(ids, interval, capacity, LastN(xs[..f], capacity), xs[f..])
  }

  ghost predicate PlainWell(a: Plain)
  {
    && Usable(a.ids, a.interval, a.capacity)
    && |a.held| <= a.capacity && Dated(a.held) && Rows(a.held, |a.ids|)
    && SavedWell(a.saved)
    && (a.attached ==> a.saved.Ours? && a.saved.ids == a.ids && a.saved.capacity == a.capacity &&
                       |a.saved.pending| < 60)
  }

  /** What an open that succeeds makes the tier hold. */
  ghost function Adopted(a: Plain): (held: seq<Sample>)
    requires PlainWell(a)
    ensures |held| <= a.capacity && Dated(held) && Rows(held, |a.ids|)
  {
    if a.held == [] then LastN(Reloaded(a.saved, a.interval, a.ids), a.capacity) else a.held
  }

  /** What the file is worth after a crash inside a step: the record that was written has
      no index over it yet. */
  ghost function CutSaved(a: Plain, at: Place): (s: Saved)
    requires PlainWell(a) && (at.InAppend? ==> |at.x.row| == |a.ids| && 0 < at.x.ts < TWO63)
    ensures SavedWell(s)
  {
    match at
    case InAppend(x) => if a.attached then a.saved.(pending := a.saved.pending + [x]) else a.saved
    case InReplay(k, half) =>
      if a.attached then a.saved
      else
        var held := Adopted(a);
        var s := SavedSync(a.ids, a.interval, a.capacity, FirstOf(held, k));
        if half && k < |held| then s.(pending := s.pending + [held[k]]) else s
  }

  ghost function PlainStep(a: Plain, e: Event): (b: Plain)
    requires PlainWell(a) && Allowed(a.ids, e)
    ensures PlainWell(b) && b.ids == if EndsProcess(e) then e.ids else a.ids
  {
    match e
    case Append(x) =>
      a.(held := LastN(a.held + [x], a.capacity), saved := if a.attached then SavedAppend(a.saved, x) else a.saved)
    case Open =>
      if a.attached then a
      else
        var held := Adopted(a);
        a.(held := held, attached := true, saved := SavedSync(a.ids, a.interval, a.capacity, held))
    case OpenFails => a
    case Close => if a.attached then a.(attached := false, saved := SavedClose(a.saved)) else a
    case Restart(ids, interval, capacity) => Plain(ids, interval, capacity, [], false, a.saved)
    case Cut(at, ids, interval, capacity) => Plain(ids, interval, capacity, [], false, CutSaved(a, at))
    case OtherStorage(image) => if a.attached then a else a.(saved := Found(image))
  }

  ghost function PlainRun(a: Plain, es: seq<Event>): (b: Plain)
    requires PlainWell(a) && AllowedRun(a.ids, es)
    ensures PlainWell(b)
    decreases |es|
  {
    if es == [] then a else PlainRun(PlainStep(a, es[0]), es[1..])
  }

  // ------------------------------------------------------ the simulation

  /** The bytes on disk are worth what the plain view says. */
  ghost predicate Worth(image: Image, s: Saved)
  {
    match s
    case Found(bytes) => image == bytes
    case Ours(ids, interval, capacity, flushed, pending) =>
      var h := DiskHeader(image);
      && h == Header(|ids|, capacity, interval, h.head, |flushed|)
      && LaidOut(image, ids, h)
      && |pending| <= capacity
      && Denote(Ring(Slots(image, |ids|, capacity), h.head, h.count)) == Recovered(flushed, pending, capacity)
  }

  ghost predicate Simulates(w: World, a: Plain)
  {
    && Healthy(w) && PlainWell(a)
    && a == Plain(w.ids, w.interval, |w.ring.slots|, Denote(w.ring), w.attached, a.saved)
    && (if w.attached then Backed(w, a.saved) else Worth(w.file.image, a.saved))
  }

  /** While attached the file is a mirror of the ring. */
  ghost predicate Backed(w: World, s: Saved)
    requires Valid(w.ring)
  {
    && s.Ours? && s.ids == w.ids && s.interval == w.interval && s.capacity == |w.ring.slots|
    && w.file.n == |w.ids| && w.file.capacity == s.capacity && w.file.interval == s.interval
    && Mirrors(w.file, w.ids, s.flushed, s.pending)
    && LastN(s.flushed + s.pending, s.capacity) == Denote(w.ring)
  }

  /** A mirrored file, seen from outside, is worth its two lists. */
  lemma {:induction false} MirrorsAreWorth(p: Mirror.State, s: Saved)
    requires s.Ours? && Mirrors(p, s.ids, s.flushed, s.pending)
    requires p.n == |s.ids| && p.capacity == s.capacity && p.interval == s.interval
    ensures Worth(p.image, s)
  {
  }

  /** A load reads exactly what the plain view says the file is worth. */
  lemma {:induction false} LoadIsReloaded(image: Image, s: Saved, interval: nat, ids: seq<string>)
    requires SavedWell(s) && Worth(image, s)
    ensures Load(image, interval, ids) == Reloaded(s, interval, ids)
  {
    if s.Ours? {
      var h := DiskHeader(image);
      if interval == s.interval {
        RecoveredDated(s.flushed, s.pending, s.capacity);
        LoadReadsIndex(image, s.ids, h, ids);
      } else {
        assert !Readable(image, interval);
      }
    }
  }

  lemma {:induction false} RecoveredDated(flushed: seq<Sample>, pending: seq<Sample>, capacity: nat)
    requires |flushed| <= capacity && |pending| <= capacity && Dated(flushed) && Dated(pending)
    ensures Dated(Recovered(flushed, pending, capacity))
  {
  }

  // -------------------------------------------------- one event at a time

  lemma {:induction false} AppendSimulated(w: World, a: Plain, x: Sample)
    requires Simulates(w, a) && Allowed(w.ids, Event.Append(x))
    ensures Simulates(Step(w, Event.Append(x)), PlainStep(a, Event.Append(x)))
  {
    var v, b := Step(w, Event.Append(x)), PlainStep(a, Event.Append(x));
    AppendDenotes(w.ring, x);
    if w.attached {
      AppendBacked(w.file, w.ring, a.saved, x);
    }
  }

  lemma {:induction false} AppendBacked(p: Mirror.State, ring: Ring<Sample>, s: Saved, x: Sample)
    requires s.Ours? && SavedWell(s) && Valid(ring)
    requires p.n == |s.ids| && p.capacity == s.capacity == |ring.slots| && p.interval == s.interval
    requires Mirrors(p, s.ids, s.flushed, s.pending)
    requires LastN(s.flushed + s.pending, s.capacity) == Denote(ring)
    requires |x.row| == p.n && 0 < x.ts < TWO63
    ensures var q, t := AppendRecord(p, x), SavedAppend(s, x);
            SavedWell(t) && Mirrors(q, t.ids, t.flushed, t.pending) &&
            q.n == p.n && q.capacity == p.capacity && q.interval == p.interval &&
            LastN(t.flushed + t.pending, t.capacity) == LastN(Denote(ring) + [x], s.capacity)
  {
    hide Mirrors;
    AppendMirrors(p, s.ids, s.flushed, s.pending, x);
    LastNOfTrimmed(s.flushed + s.pending, [x], s.capacity);
    assert s.flushed + (s.pending + [x]) == s.flushed + s.pending + [x];
    var t := SavedAppend(s, x);
    if t.pending == [] {
      assert t.flushed + [] == t.flushed;
    }
  }

  /** After a sync the file is a mirror of the replayed list. */
  lemma {:induction false} SyncBacked(p: Mirror.State, ids: seq<string>, xs: seq<Sample>)
    requires Fits(p.n, p.capacity, p.interval, ids) && Rows(xs, p.n) && Dated(xs) && |xs| <= p.capacity
    ensures var q, t := Sync(p, ids, xs), SavedSync(ids, p.interval, p.capacity, xs);
            SavedWell(t) && Mirrors(q, ids, t.flushed, t.pending) &&
            q.n == p.n && q.capacity == p.capacity && q.interval == p.interval &&
            LastN(t.flushed + t.pending, t.capacity) == xs
  {
    hide Mirrors, Initialise, AppendRecord;
    RunMirrors(p, ids, xs);
    var f := Flushed(|xs|);
    assert xs[..f] + xs[f..] == xs;
  }

  lemma {:induction false} OpenSimulated(w: World, a: Plain)
    requires Simulates(w, a) && !w.attached
    ensures Simulates(Step(w, Open), PlainStep(a, Open))
  {
    hide Mirrors, Worth;
    AdoptedDated(w);
    LoadIsReloaded(w.file.image, a.saved, w.interval, w.ids);
    SyncBacked(Opened(w), w.ids, Denote(Adopt(w)));
  }

  lemma {:induction false} CloseBacked(p: Mirror.State, s: Saved)
    requires s.Ours? && SavedWell(s) && Mirrors(p, s.ids, s.flushed, s.pending)
    requires p.n == |s.ids| && p.capacity == s.capacity && p.interval == s.interval
    ensures SavedWell(SavedClose(s)) && Worth(CloseImage(p), SavedClose(s))
  {
    hide Mirrors, Worth;
    CloseMirrors(p, s.ids, s.flushed, s.pending);
    MirrorsAreWorth(WriteHeader(p), SavedClose(s));
  }

  lemma {:induction false} CloseSimulated(w: World, a: Plain)
    requires Simulates(w, a)
    ensures Simulates(Step(w, Close), PlainStep(a, Close))
  {
    hide Mirrors, Worth;
    if w.attached {
      CloseBacked(w.file, a.saved);
    }
  }

  lemma {:induction false} RestartSimulated(w: World, a: Plain, ids: seq<string>, interval: nat, capacity: nat)
    requires Simulates(w, a) && Usable(ids, interval, capacity)
    ensures Simulates(Step(w, Restart(ids, interval, capacity)), PlainStep(a, Restart(ids, interval, capacity)))
  {
    hide Mirrors, Worth;
    if w.attached {
      MirrorsAreWorth(w.file, a.saved);
    }
  }

  /** A record without its index is worth one more pending entry. */
  lemma {:induction false} HalfAppendIsWorth(p: Mirror.State, s: Saved, x: Sample)
    requires s.Ours? && Mirrors(p, s.ids, s.flushed, s.pending)
    requires p.n == |s.ids| && p.capacity == s.capacity && p.interval == s.interval
    requires |x.row| == p.n && IsInt64(x.ts)
    ensures Worth(WriteRecord(p, x).image, s.(pending := s.pending + [x]))
  {
    WriteRecordMirrors(p, s.ids, s.flushed, s.pending, x);
    hide Denote, Recovered, EncodeRecord, Splice;
  }

  lemma {:induction false} CutImageIsWorth(w: World, a: Plain, at: Place)
    requires Simulates(w, a) && (at.InAppend? ==> |at.x.row| == |w.ids| && 0 < at.x.ts < TWO63)
    ensures Worth(CutImage(w, at), CutSaved(a, at))
  {
    hide Mirrors, Worth, Load;
    if w.attached {
      MirrorsAreWorth(w.file, a.saved);
      if at.InAppend? {
        HalfAppendIsWorth(w.file, a.saved, at.x);
      }
    } else if at.InReplay? {
      AdoptedDated(w);
      LoadIsReloaded(w.file.image, a.saved, w.interval, w.ids);
      ReplayIsWorth(Opened(w), w.ids, Denote(Adopt(w)), at.replayed, at.half);
    }
  }

  lemma {:induction false} ReplayIsWorth(p: Mirror.State, ids: seq<string>, held: seq<Sample>, k: nat, half: bool)
    requires Fits(p.n, p.capacity, p.interval, ids) && Rows(held, p.n) && Dated(held) && |held| <= p.capacity
    ensures var q, t := Sync(p, ids, FirstOf(held, k)), SavedSync(ids, p.interval, p.capacity, FirstOf(held, k));
            if half && k < |held| then Worth(WriteRecord(q, held[k]).image, t.(pending := t.pending + [held[k]]))
            else Worth(q.image, t)
  {
    hide Mirrors, Worth, Sync, SavedSync;
    SyncBacked(p, ids, FirstOf(held, k));
    var q, t := Sync(p, ids, FirstOf(held, k)), SavedSync(ids, p.interval, p.capacity, FirstOf(held, k));
    MirrorsAreWorth(q, t);
    if half && k < |held| {
      HalfAppendIsWorth(q, t, held[k]);
    }
  }

  lemma {:induction false} CutSimulated(w: World, a: Plain, at: Place, ids: seq<string>, interval: nat, capacity: nat)
    requires Simulates(w, a) && Allowed(w.ids, Event.Cut(at, ids, interval, capacity))
    ensures Simulates(
      Step(w, Event.Cut(at, ids, interval, capacity)), PlainStep(a, Event.Cut(at, ids, interval, capacity)))
  {
    hide Mirrors, Worth, CutImage, CutSaved;
    CutImageIsWorth(w, a, at);
  }

  lemma {:induction false} OtherStorageSimulated(w: World, a: Plain, image: Image)
    requires Simulates(w, a)
    ensures Simulates(Step(w, OtherStorage(image)), PlainStep(a, OtherStorage(image)))
  {
  }

  /** Whatever happens, the ring, the file and the plain lists keep step. */
  lemma {:induction false} StepSimulated(w: World, a: Plain, e: Event)
    requires Simulates(w, a) && Allowed(w.ids, e)
    ensures Simulates(Step(w, e), PlainStep(a, e))
  {
    hide Backed, Worth, Healthy, SavedWell;
    match e
    case Append(x) => AppendSimulated(w, a, x);
    case Open => if !w.attached { OpenSimulated(w, a); }
    case OpenFails =>
    case Close => CloseSimulated(w, a);
    case Restart(ids, interval, capacity) => RestartSimulated(w, a, ids, interval, capacity);
    case Cut(at, ids, interval, capacity) => CutSimulated(w, a, at, ids, interval, capacity);
    case OtherStorage(image) => OtherStorageSimulated(w, a, image);
  }

  /** And so over every run, through any number of restarts and crashes. */
  lemma {:induction false} RunSimulated(w: World, a: Plain, es: seq<Event>)
    requires Simulates(w, a) && AllowedRun(w.ids, es)
    ensures Simulates(Run(w, es), PlainRun(a, es))
    decreases |es|
  {
    hide Step, PlainStep, Healthy, PlainWell, Backed, Worth;
    if es != [] {
      StepSimulated(w, a, es[0]);
      RunSimulated(Step(w, es[0]), PlainStep(a, es[0]), es[1..]);
    }
  }

  /** A process start on storage with any contents: nothing held, nothing open. */
  ghost predicate Begins(w: World)
  {
    Healthy(w) && w.ring.count == 0 && !w.attached
  }

  function PlainOf(w: World): Plain
  {
    Plain(w.ids, w.interval, |w.ring.slots|, [], false, Found(w.file.image))
  }

  lemma {:induction false} StartSimulated(w: World)
    requires Begins(w)
    ensures Simulates(w, PlainOf(w))
  {
  }

  /** Every state that any run reaches from a first start is a simulated one. */
  lemma {:induction false} ReachedSimulated(start: World, es: seq<Event>)
    requires Begins(start) && AllowedRun(start.ids, es)
    ensures PlainWell(PlainOf(start)) && Simulates(Run(start, es), PlainRun(PlainOf(start), es))
  {
    hide Begins, Healthy, PlainOf, PlainRun, Run;
    StartSimulated(start);
    RunSimulated(start, PlainOf(start), es);
  }

  // -------------------------------------------------- what that amounts to

  /** The file's own ring is there and denotes what the tier's ring denotes. */
  ghost predicate FileDenotes(w: World)
    requires Valid(w.ring)
  {
    && FileBytes(w.file.n, w.file.capacity) <= |w.file.image| && Valid(FileRing(w.file))
    && Denote(FileRing(w.file)) == Denote(w.ring)
  }

  lemma {:induction false} SimulatedMirror(w: World, a: Plain)
    requires Simulates(w, a) && w.attached
    ensures FileDenotes(w)
  {
  }

  /** Once attached, the file ring denotes what the tier denotes. */
  lemma {:induction false} MirrorRefines(start: World, es: seq<Event>)
    requires Begins(start) && AllowedRun(start.ids, es)
    ensures Run(start, es).attached ==> FileDenotes(Run(start, es))
  {
    ReachedSimulated(start, es);
    hide Begins, Run, PlainRun, Simulates, FileDenotes;
    if Run(start, es).attached {
      SimulatedMirror(Run(start, es), PlainRun(PlainOf(start), es));
    }
  }

  lemma {:induction false} RecordsHead(p: Mirror.State, xs: seq<Sample>)
    requires p.capacity > 0 && p.head < p.capacity && forall i :: 0 <= i < |xs| ==> IsInt64(xs[i].ts)
    ensures AppendRecords(p, xs).head == (p.head + |xs|) % p.capacity
    decreases |xs|
  {
    hide Splice, EncodeRecord, EncodeHeader;
    if xs == [] {
      SmallMod(p.head, p.capacity);
    } else {
      RecordsHead(p, xs[..|xs| - 1]);
      ModStep(p.head + |xs| - 1, p.capacity);
    }
  }

  /** The two rings denote one list from different slots: an open of a full tier leaves
      the file at slot 0 and the ring where it was. */
  lemma {:induction false} OpenRotatesFile(w: World)
    requires Healthy(w) && !w.attached && w.ring.count == |w.ring.slots|
    ensures Step(w, Open).file.head == 0 && Step(w, Open).ring.head == w.ring.head
  {
    hide Splice, EncodeHeader, EncodeIds, Resize, AppendRecord, Load, Denote;
    RecordsHead(Initialise(Opened(w), w.ids), Denote(w.ring));
    ModUnique(|w.ring.slots|, 1, 0, |w.ring.slots|);
  }

  function Appended(es: seq<Event>): seq<Sample>
    decreases |es|
  {
    if es == [] then []
    else (if es[0].Append? then [es[0].x] else []) + Appended(es[1..])
  }

  /** One process over one storage. */
  predicate OneProcess(es: seq<Event>)
  {
    forall i :: 0 <= i < |es| ==> !EndsProcess(es[i]) && !es[i].OtherStorage?
  }

  /** The first successful open comes while nothing has been sampled yet. */
  predicate OpensEmpty(es: seq<Event>)
    decreases |es|
  {
    es != [] && (es[0].Open? || (!es[0].Append? && OpensEmpty(es[1..])))
  }

  /** The tier holds something, or its file is ours and empty: nothing left to adopt. */
  ghost predicate Settled(a: Plain)
  {
    a.held != [] || (a.saved.Ours? && a.saved.flushed == [] && a.saved.pending == [])
  }

  lemma {:induction false} SettledStep(a: Plain, e: Event)
    requires PlainWell(a) && Allowed(a.ids, e) && !EndsProcess(e) && !e.OtherStorage? && Settled(a)
    ensures var b := PlainStep(a, e);
            Settled(b) && b.capacity == a.capacity &&
            b.held == if e.Append? then LastN(a.held + [e.x], a.capacity) else a.held
  {
  }

  lemma {:induction false} TrimStep<T>(held: seq<T>, x: T, rest: seq<T>, n: nat)
    ensures LastN(LastN(held + [x], n) + rest, n) == LastN(held + ([x] + rest), n)
  {
    LastNOfTrimmed(held + [x], rest, n);
    assert held + [x] + rest == held + ([x] + rest);
  }

  /** Once settled, only appends count. */
  lemma {:induction false} SettledHistory(a: Plain, es: seq<Event>)
    requires PlainWell(a) && AllowedRun(a.ids, es) && OneProcess(es) && Settled(a)
    ensures PlainRun(a, es).held == LastN(a.held + Appended(es), a.capacity)
    decreases |es|
  {
    if es == [] {
      assert a.held + [] == a.held;
    } else {
      hide PlainStep, Settled, PlainWell, Allowed, LastN;
      var e, rest := es[0], es[1..];
      SettledStep(a, e);
      SettledHistory(PlainStep(a, e), rest);
      if e.Append? {
        TrimStep(a.held, e.x, Appended(rest), a.capacity);
      } else {
        assert [] + Appended(rest) == Appended(rest);
      }
    }
  }

  lemma {:induction false} PlainHistory(a: Plain, es: seq<Event>)
    requires PlainWell(a) && AllowedRun(a.ids, es) && OneProcess(es)
    requires a.held == [] && !a.attached
    ensures PlainRun(a, es).held ==
            LastN((if OpensEmpty(es) then Reloaded(a.saved, a.interval, a.ids) else []) + Appended(es), a.capacity)
    decreases |es|
  {
    if es != [] {
      var b := PlainStep(a, es[0]);
      assert OneProcess(es[1..]);
      match es[0]
      case Append(x) =>
        SettledHistory(b, es[1..]);
        LastNOfTrimmed([x], Appended(es[1..]), a.capacity);
        assert [] + [x] == [x] && [] + Appended(es) == [x] + Appended(es[1..]);
      case Open =>
        var loaded := Reloaded(a.saved, a.interval, a.ids);
        SettledHistory(b, es[1..]);
        LastNOfTrimmed(loaded, Appended(es[1..]), a.capacity);
        assert Appended(es) == Appended(es[1..]);
      case OpenFails =>
        PlainHistory(b, es[1..]);
        assert Appended(es) == Appended(es[1..]);
      case Close =>
        PlainHistory(b, es[1..]);
        assert Appended(es) == Appended(es[1..]);
      case Restart(_, _, _) =>
        assert false;
      case Cut(_, _, _, _) =>
        assert false;
      case OtherStorage(_) =>
        assert false;
    }
  }

  lemma {:induction false} HistoryFrom(w: World, a: Plain, es: seq<Event>)
    requires Simulates(w, a) && AllowedRun(w.ids, es) && OneProcess(es)
    requires w.ring.count == 0 && !w.attached
    ensures Denote(Run(w, es).ring) ==
            LastN((if OpensEmpty(es) then Load(w.file.image, w.interval, w.ids) else []) + Appended(es), |w.ring.slots|)
    ensures Run(w, es).attached ==> FileDenotes(Run(w, es))
  {
    hide Worth, FileDenotes;
    RunSimulated(w, a, es);
    if Run(w, es).attached {
      SimulatedMirror(Run(w, es), PlainRun(a, es));
    }
    LoadIsReloaded(w.file.image, a.saved, w.interval, w.ids);
    PlainHistory(a, es);
  }

  /** Whatever happened before, over a whole process life, through failed opens, retries,
      closes and reopens, the tier holds the newest entries of the saved samples followed
      by its own appends if the first successful open found it empty, and of its own
      appends alone if not. */
  lemma {:induction false} ProcessHistory(start: World, before: seq<Event>, es: seq<Event>)
    requires Begins(start) && AllowedRun(start.ids, before) && Begins(Run(start, before))
    requires AllowedRun(Run(start, before).ids, es) && OneProcess(es)
    ensures var w := Run(start, before);
            Denote(Run(w, es).ring) ==
            LastN((if OpensEmpty(es) then Load(w.file.image, w.interval, w.ids) else []) + Appended(es), |w.ring.slots|)
  {
    ReachedSimulated(start, before);
    hide Simulates, Run, PlainRun, Load;
    HistoryFrom(Run(start, before), PlainRun(PlainOf(start), before), es);
  }

  ghost function Reopened(w: World, ids: seq<string>, interval: nat, capacity: nat): World
    requires Healthy(w) && Usable(ids, interval, capacity)
  {
    Step(Step(w, Restart(ids, interval, capacity)), Open)
  }

  /** The next process adopts what it can load. */
  lemma {:induction false} NextAdopts(ids: seq<string>, interval: nat, capacity: nat, image: Image)
    requires Usable(ids, interval, capacity)
    ensures var v := NextProcess(ids, interval, capacity, image);
            Denote(Step(v, Open).ring) == LastN(Load(image, interval, ids), capacity)
  {
    hide Load, Sync, Rings.AppendAll;
    AdoptedDated(NextProcess(ids, interval, capacity, image));
  }

  lemma {:induction false} ReopenedLoads(w: World, ids: seq<string>, interval: nat, capacity: nat)
    requires Healthy(w) && Usable(ids, interval, capacity)
    ensures Denote(Reopened(w, ids, interval, capacity).ring) == LastN(Load(w.file.image, interval, ids), capacity)
  {
    hide OpenStep, NextProcess;
    NextAdopts(ids, interval, capacity, w.file.image);
  }

  lemma {:induction false} CleanRestartFrom(w: World, a: Plain, ids: seq<string>, interval: nat, capacity: nat)
    requires Simulates(w, a) && w.attached && Usable(ids, interval, capacity)
    ensures Rows(Denote(w.ring), |w.ids|)
    ensures Denote(Reopened(Step(w, Close), ids, interval, capacity).ring)
         == if interval == w.interval then LastN(RemapAll(Denote(w.ring), w.ids, ids), capacity) else []
  {
    hide Worth, Mirrors, Load;
    var closed := Step(w, Close);
    CloseSimulated(w, a);
    LoadIsReloaded(closed.file.image, SavedClose(a.saved), interval, ids);
    hide Reopened;
    ReopenedLoads(closed, ids, interval, capacity);
  }

  /** After any run that leaves the file attached, a clean close and a restart with another
      metric set and capacity keep the newest samples that fit, remapped by id. A restart
      at another sample interval abandons them all. */
  lemma {:induction false} CleanRestart(start: World, es: seq<Event>, ids: seq<string>, interval: nat, capacity: nat)
    requires Begins(start) && AllowedRun(start.ids, es) && Run(start, es).attached && Usable(ids, interval, capacity)
    ensures var w := Run(start, es);
            && Rows(Denote(w.ring), |w.ids|)
            && Denote(Reopened(Step(w, Close), ids, interval, capacity).ring)
            == if interval == w.interval then LastN(RemapAll(Denote(w.ring), w.ids, ids), capacity) else []
  {
    ReachedSimulated(start, es);
    hide Simulates, Run, PlainRun, Reopened, Step, Begins, Usable;
    CleanRestartFrom(Run(start, es), PlainRun(PlainOf(start), es), ids, interval, capacity);
  }

  /** With the registry and the capacity unchanged no sample the tier held is lost. */
  lemma {:induction false} CleanRestartIdentity(start: World, es: seq<Event>)
    requires Begins(start) && AllowedRun(start.ids, es) && Run(start, es).attached
    requires Registry.Distinct(Run(start, es).ids)
    ensures var w := Run(start, es);
            Denote(Reopened(Step(w, Close), w.ids, w.interval, |w.ring.slots|).ring) == Denote(w.ring)
  {
    var w := Run(start, es);
    hide Run, Reopened, Step, Begins, Usable;
    CleanRestart(start, es, w.ids, w.interval, |w.ring.slots|);
    RemapIdentity(Denote(w.ring), w.ids);
  }

  /** A crash of w, whose file covers s.flushed with s.pending on top: the tier held the
      newest of the two, fewer than 60 of them pending, and the next process holds their
      stale view, remapped by id. */
  ghost predicate ComesBackStale(w: World, s: Saved, ids: seq<string>, capacity: nat)
    requires Healthy(w) && SavedWell(s) && s.Ours? && Usable(ids, w.interval, capacity)
  {
    && s.ids == w.ids && s.capacity == |w.ring.slots| && |s.pending| < 60
    && Denote(w.ring) == LastN(s.flushed + s.pending, s.capacity)
    && var stale := Recovered(s.flushed, s.pending, s.capacity);
       Rows(stale, |s.ids|) &&
       Denote(Reopened(w, ids, w.interval, capacity).ring) == LastN(RemapAll(stale, s.ids, ids), capacity)
  }

  lemma {:induction false} StaleRows(flushed: seq<Sample>, pending: seq<Sample>, capacity: nat, n: nat)
    requires |flushed| <= capacity && |pending| <= capacity && Rows(flushed, n) && Rows(pending, n)
    ensures Rows(Recovered(flushed, pending, capacity), n)
  {
  }

  lemma {:induction false} CrashRestartFrom(w: World, a: Plain, ids: seq<string>, capacity: nat)
    requires Simulates(w, a) && w.attached && Usable(ids, w.interval, capacity)
    ensures a.saved.Ours? && ComesBackStale(w, a.saved, ids, capacity)
  {
    hide Mirrors, Worth, Load, Reopened, Recovered;
    MirrorsAreWorth(w.file, a.saved);
    LoadIsReloaded(w.file.image, a.saved, w.interval, ids);
    StaleRows(a.saved.flushed, a.saved.pending, a.saved.capacity, |w.ids|);
    ReopenedLoads(w, ids, w.interval, capacity);
  }

  /** After any run, a crash while the file is attached. */
  lemma {:induction false} CrashRestart(start: World, es: seq<Event>, ids: seq<string>, capacity: nat)
    requires Begins(start) && AllowedRun(start.ids, es) && Run(start, es).attached
    requires Usable(ids, Run(start, es).interval, capacity)
    ensures PlainWell(PlainOf(start)) && PlainRun(PlainOf(start), es).saved.Ours?
    ensures ComesBackStale(Run(start, es), PlainRun(PlainOf(start), es).saved, ids, capacity)
  {
    ReachedSimulated(start, es);
    hide ComesBackStale, Begins, Run, PlainRun, Usable;
    CrashRestartFrom(Run(start, es), PlainRun(PlainOf(start), es), ids, capacity);
  }

  /** The next process after a crash inside a step, with its file open. */
  ghost function AfterCut(w: World, at: Place, ids: seq<string>, capacity: nat): (v: World)
    requires Healthy(w) && Allowed(w.ids, Cut(at, ids, w.interval, capacity))
    ensures Healthy(v) && v.ids == ids
  {
    Step(Step(w, Cut(at, ids, w.interval, capacity)), Open)
  }

  /** A crash inside an append that follows s.flushed and s.pending: the record written is
      one more pending sample, the sixtieth at most. */
  ghost predicate ComesBackCut(w: World, s: Saved, x: Sample, ids: seq<string>, capacity: nat)
    requires Healthy(w) && SavedWell(s) && s.Ours? && Usable(ids, w.interval, capacity)
    requires |x.row| == |w.ids| && 0 < x.ts < TWO63
  {
    && s.ids == w.ids && s.capacity == |w.ring.slots| && |s.pending + [x]| <= 60
    && Denote(w.ring) == LastN(s.flushed + s.pending, s.capacity)
    && var stale := Recovered(s.flushed, s.pending + [x], s.capacity);
       Rows(stale, |s.ids|) &&
       Denote(AfterCut(w, InAppend(x), ids, capacity).ring) == LastN(RemapAll(stale, s.ids, ids), capacity)
  }

  lemma {:induction false} CutRestartFrom(w: World, a: Plain, at: Place, ids: seq<string>, capacity: nat)
    requires Simulates(w, a) && Allowed(w.ids, Cut(at, ids, w.interval, capacity))
    ensures Denote(AfterCut(w, at, ids, capacity).ring) == LastN(Reloaded(CutSaved(a, at), w.interval, ids), capacity)
  {
    hide Mirrors, Worth, Load, CutImage, CutSaved, Reloaded;
    CutImageIsWorth(w, a, at);
    LoadIsReloaded(CutImage(w, at), CutSaved(a, at), w.interval, ids);
    hide OpenStep, NextProcess;
    NextAdopts(ids, w.interval, capacity, CutImage(w, at));
  }

  lemma {:induction false} CutAppendFrom(w: World, a: Plain, x: Sample, ids: seq<string>, capacity: nat)
    requires Simulates(w, a) && w.attached && Allowed(w.ids, Cut(InAppend(x), ids, w.interval, capacity))
    ensures a.saved.Ours? && ComesBackCut(w, a.saved, x, ids, capacity)
  {
    hide Mirrors, Worth, Load, CutImage, AfterCut, Recovered;
    CutRestartFrom(w, a, InAppend(x), ids, capacity);
    StaleRows(a.saved.flushed, a.saved.pending + [x], a.saved.capacity, |w.ids|);
  }

  /** After any run, a crash inside an append while the file is attached. */
  lemma {:induction false} CutAppendRestart(start: World, es: seq<Event>, x: Sample, ids: seq<string>, capacity: nat)
    requires Begins(start) && AllowedRun(start.ids, es) && Run(start, es).attached
    requires Allowed(Run(start, es).ids, Cut(InAppend(x), ids, Run(start, es).interval, capacity))
    ensures PlainWell(PlainOf(start)) && PlainRun(PlainOf(start), es).saved.Ours?
    ensures ComesBackCut(Run(start, es), PlainRun(PlainOf(start), es).saved, x, ids, capacity)
  {
    ReachedSimulated(start, es);
    hide ComesBackCut, Begins, Run, PlainRun, Usable;
    CutAppendFrom(Run(start, es), PlainRun(PlainOf(start), es), x, ids, capacity);
  }

  /** What the index covers after a replay was cut after k records. */
  function Replayed(held: seq<Sample>, k: nat): (ys: seq<Sample>)
    ensures ys <= held
  {
    held[..Flushed(|FirstOf(held, k)|)]
  }

  /** Any file that is closed is at least worth its bytes. */
  function Closed(w: World): Plain
    requires Valid(w.ring)
  {
    Plain(w.ids, w.interval, |w.ring.slots|, Denote(w.ring), false, Found(w.file.image))
  }

  lemma {:induction false} ClosedSimulated(w: World)
    requires Healthy(w) && !w.attached
    ensures Simulates(w, Closed(w)) && Adopted(Closed(w)) == Denote(Adopt(w))
  {
    hide Load;
    AdoptedDated(w);
  }

  /** What a file is worth once its replay was cut, to the next metric set. */
  lemma {:induction false} CutReloads(a: Plain, k: nat, half: bool, ids: seq<string>)
    requires PlainWell(a) && !a.attached
    ensures Reloaded(CutSaved(a, InReplay(k, half)), a.interval, ids) == RemapAll(Replayed(Adopted(a), k), a.ids, ids)
  {
    hide Adopted, Scatter;
    var held := Adopted(a);
    var s := CutSaved(a, InReplay(k, half));
    assert Recovered(s.flushed, s.pending, s.capacity) == Replayed(held, k);
  }

  /** A crash inside an open, from any state: the next process finds what the replay had
      flushed of what the tier held, and no more. */
  lemma {:induction false} CutReplayRestart(w: World, k: nat, half: bool, ids: seq<string>, capacity: nat)
    requires Healthy(w) && !w.attached && Usable(ids, w.interval, capacity)
    ensures Rows(Denote(Adopt(w)), |w.ids|)
    ensures Denote(AfterCut(w, InReplay(k, half), ids, capacity).ring)
         == LastN(RemapAll(Replayed(Denote(Adopt(w)), k), w.ids, ids), capacity)
  {
    AdoptedDated(w);
    ClosedSimulated(w);
    hide AfterCut, Adopt, Adopted, CutSaved, Simulates, Reloaded, Replayed;
    CutRestartFrom(w, Closed(w), InReplay(k, half), ids, capacity);
    CutReloads(Closed(w), k, half, ids);
  }

  /** So with nothing changed, a crash inside an open costs everything from the last full
      flush of the replay on: all that is held if fewer than 60 records were replayed, and
      fewer than 60 samples if and only if the replay had passed its last flush. */
  lemma {:induction false} CutReplayLoss(w: World, k: nat, half: bool)
    requires Healthy(w) && !w.attached && Registry.Distinct(w.ids)
    ensures var held := Denote(Adopt(w));
            var back := Denote(AfterCut(w, InReplay(k, half), w.ids, |w.ring.slots|).ring);
            && back <= held && |back| == Flushed(|FirstOf(held, k)|)
            && (k < 60 ==> back == [])
            && (|held| - |back| < 60 <==> Flushed(|FirstOf(held, k)|) == Flushed(|held|))
  {
    hide AfterCut, Adopt;
    var held := Denote(Adopt(w));
    CutReplayRestart(w, k, half, w.ids, |w.ring.slots|);
    RemapIdentity(Replayed(held, k), w.ids);
    FlushedSame(|FirstOf(held, k)|, |held|);
  }

  lemma {:induction false} FlushedSame(k: nat, n: nat)
    requires k <= n
    ensures n - Flushed(k) < 60 <==> Flushed(k) == Flushed(n)
    ensures k < 60 ==> Flushed(k) == 0
  {
  }

  /** A rebuild while nothing is attached drops what was only in memory: the tier is
      what the file holds. */
  lemma {:induction false} RebuildResetsToFile(w: World, ids: seq<string>, capacity: nat)
    requires Healthy(w) && !w.attached && Usable(ids, w.interval, capacity)
    ensures Denote(Reopened(Step(w, Close), ids, w.interval, capacity).ring)
         == LastN(Load(w.file.image, w.interval, ids), capacity)
  {
    hide Reopened;
    ReopenedLoads(w, ids, w.interval, capacity);
  }
}
