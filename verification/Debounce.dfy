/** One alert rule over time: a condition has to hold for a while before the rule fires,
    and a good reading has to come before it clears. */
module Debounce {

  datatype Op = Above | Below

  datatype Condition = Condition(op: Op, threshold: real, duration: nat)

  /** What a rule sees at one evaluation: its metric may not exist on the device, the
      rule may be switched off, or the reading may be absent. */
  datatype Seen = NoMetric | Disabled | NoReading | Value(v: real)

  datatype Observation = Observation(now: int, seen: Seen)

  /** breachSince is 0 while the condition does not hold. */
  datatype Runtime = Runtime(firing: bool, breachSince: int, firedAt: int, lastValue: real)

  datatype Note = Quiet | Fired | Cleared

  const INITIAL: Runtime := Runtime(false, 0, 0, 0.0)

  predicate Breach(c: Condition, v: real)
  {
    if c.op.Above? then v > c.threshold else v < c.threshold
  }

  /** One evaluation of one rule. */
  function Step(c: Condition, r: Runtime, o: Observation): (Runtime, Note)
  {
    match o.seen
    case Value(v) =>
      var seen := r.(lastValue := v);
      if !Breach(c, v) then
        (seen.(breachSince := 0, firing := false), if r.firing then Cleared else Quiet)
      else
        var since := if r.breachSince == 0 then o.now else r.breachSince;
        if !r.firing && o.now - since >= c.duration
        then (seen.(breachSince := since, firing := true, firedAt := o.now), Fired)
        else (seen.(breachSince := since), Quiet)
    case _ => (r.(breachSince := 0), Quiet)
  }

  function Run(c: Condition, h: seq<Observation>): Runtime
    decreases |h|
  {
    if h == [] then INITIAL else Step(c, Run(c, h[..|h| - 1]), h[|h| - 1]).0
  }

  // ------------------------------------------------- what a history means

  predicate Breached(c: Condition, o: Observation) { o.seen.Value? && Breach(c, o.seen.v) }

  /** A reading that is there and does not breach. */
  predicate Clears(c: Condition, o: Observation) { o.seen.Value? && !Breach(c, o.seen.v) }

  /** A positive clock that does not run backwards. */
  ghost predicate Clocked(h: seq<Observation>)
  {
    (forall i :: 0 <= i < |h| ==> h[i].now > 0) &&
    forall i, j :: 0 <= i < j < |h| ==> h[i].now <= h[j].now
  }

  ghost predicate AllBreached(c: Condition, h: seq<Observation>, s: nat, e: nat)
  {
    s <= e <= |h| && forall k :: s <= k < e ==> Breached(c, h[k])
  }

  /** Where the maximal run of breached observations that ends the history begins. */
  function TrailStart(c: Condition, h: seq<Observation>): (s: nat)
    ensures s <= |h|
    ensures forall k :: s <= k < |h| ==> Breached(c, h[k])
    ensures s > 0 ==> !Breached(c, h[s - 1])
    decreases |h|
  {
    if h == [] || !Breached(c, h[|h| - 1]) then |h| else TrailStart(c, h[..|h| - 1])
  }

  /** A breach has lasted long enough at e, counted from s. */
  ghost predicate LastedAt(c: Condition, h: seq<Observation>, s: nat, e: nat)
  {
    s <= e < |h| && AllBreached(c, h, s, e + 1) && h[e].now - h[s].now >= c.duration
  }

  ghost predicate NotClearedAfter(c: Condition, h: seq<Observation>, e: nat)
  {
    forall k :: e < k < |h| ==> !Clears(c, h[k])
  }

  /** Some run of breaches lasted for the duration and no good reading came after it. */
  ghost predicate ShouldFire(c: Condition, h: seq<Observation>)
  {
    exists s: nat, e: nat :: LastedAt(c, h, s, e) && NotClearedAfter(c, h, e)
  }

  lemma {:induction false} TrailUnique(c: Condition, h: seq<Observation>, s: nat)
    requires s <= |h| && (forall k :: s <= k < |h| ==> Breached(c, h[k])) && (s > 0 ==> !Breached(c, h[s - 1]))
    ensures s == TrailStart(c, h)
  {
    var t := TrailStart(c, h);
    assert t > 0 ==> !Breached(c, h[t - 1]);
    assert s > 0 ==> !Breached(c, h[s - 1]);
  }

  // ------------------------------------------------------ the main results

  /** breachSince dates the run of breaches the history ends with, 0 if it ends in none. */
  lemma {:induction false} BreachSinceIsTrailStart(c: Condition, h: seq<Observation>)
    requires Clocked(h)
    ensures var s := TrailStart(c, h);
            Run(c, h).breachSince == if s == |h| then 0 else h[s].now
    decreases |h|
  {
    if h != [] {
      var front, o := h[..|h| - 1], h[|h| - 1];
      BreachSinceIsTrailStart(c, front);
      var s := TrailStart(c, front);
      if Breached(c, o) {
        TrailUnique(c, h, s);
      } else {
        TrailUnique(c, h, |h|);
      }
    }
  }

  lemma {:induction false} OldRunStillCounts(c: Condition, h: seq<Observation>, o: Observation)
    requires !Clears(c, o) && ShouldFire(c, h)
    ensures ShouldFire(c, h + [o])
  {
    var s: nat, e: nat :| LastedAt(c, h, s, e) && NotClearedAfter(c, h, e);
    assert LastedAt(c, h + [o], s, e);
    assert NotClearedAfter(c, h + [o], e);
  }

  lemma {:induction false} OldRunCounted(c: Condition, h: seq<Observation>, o: Observation, s: nat, e: nat)
    requires e < |h| && LastedAt(c, h + [o], s, e) && NotClearedAfter(c, h + [o], e)
    ensures !Clears(c, o) && ShouldFire(c, h)
  {
    var all := h + [o];
    assert forall k :: 0 <= k < |h| ==> all[k] == h[k];
    assert !Clears(c, all[|h|]);
    assert LastedAt(c, h, s, e);
    assert NotClearedAfter(c, h, e);
  }

  lemma {:induction false} ShouldFireExtends(c: Condition, h: seq<Observation>, o: Observation)
    requires Clocked(h + [o])
    ensures var all := h + [o];
            var s := TrailStart(c, all);
            ShouldFire(c, all) <==>
              (!Clears(c, o) && ShouldFire(c, h)) || (s <= |h| && o.now - all[s].now >= c.duration)
  {
    var all := h + [o];
    var t := TrailStart(c, all);
    if !Clears(c, o) && ShouldFire(c, h) {
      OldRunStillCounts(c, h, o);
    }
    if t <= |h| && o.now - all[t].now >= c.duration {
      assert LastedAt(c, all, t, |h|);
      assert NotClearedAfter(c, all, |h|);
    }
    if ShouldFire(c, all) {
      var s: nat, e: nat :| LastedAt(c, all, s, e) && NotClearedAfter(c, all, e);
      if e < |h| {
        OldRunCounted(c, h, o, s, e);
      } else {
        assert t > 0 ==> !Breached(c, all[t - 1]);
        assert t <= s;
        assert all[t].now <= all[s].now;
      }
    }
  }

  lemma {:induction false} StepFires(c: Condition, r: Runtime, o: Observation)
    requires o.now > 0
    ensures var next := Step(c, r, o).0;
            next.firing <==>
              (!Clears(c, o) && r.firing) || (next.breachSince != 0 && o.now - next.breachSince >= c.duration)
  {
  }

  /** A rule is firing exactly when some run of breaches lasted for its duration and no
      good reading has come since. */
  lemma {:induction false} FiringIff(c: Condition, h: seq<Observation>)
    requires Clocked(h)
    ensures Run(c, h).firing <==> ShouldFire(c, h)
    decreases |h|
  {
    if h == [] {
      assert !ShouldFire(c, h);
    } else {
      var front, o := h[..|h| - 1], h[|h| - 1];
      assert h == front + [o];
      FiringIff(c, front);
      ShouldFireExtends(c, front, o);
      BreachSinceIsTrailStart(c, h);
      StepFires(c, Run(c, front), o);
      hide ShouldFire, Step;
    }
  }

  /** What is not a reading, a missing metric, a disabled rule or an absent value, ends
      a breach in progress and leaves a firing rule firing. */
  lemma {:induction false} OnlyReadingsClear(c: Condition, h: seq<Observation>, gap: seq<Observation>)
    requires forall k :: 0 <= k < |gap| ==> !gap[k].seen.Value?
    ensures Run(c, h + gap).firing == Run(c, h).firing
    ensures gap != [] ==> Run(c, h + gap).breachSince == 0
    decreases |gap|
  {
    if gap == [] {
      assert h + gap == h;
    } else {
      OnlyReadingsClear(c, h, gap[..|gap| - 1]);
      assert (h + gap)[..|h + gap| - 1] == h + gap[..|gap| - 1];
    }
  }

  // -------------------------------------------------------- notifications

  /** The notes of a run in which the condition may be edited at any time, from any
      runtime state. */
  function Notes(cs: seq<Condition>, r: Runtime, h: seq<Observation>): (ns: seq<Note>)
    requires |cs| == |h|
    decreases |h|
  {
    if h == [] then []
    else
      var (next, note) := Step(cs[0], r, h[0]);
      (if note.Quiet? then [] else [note]) + Notes(cs[1..], next, h[1..])
  }

  function After(cs: seq<Condition>, r: Runtime, h: seq<Observation>): Runtime
    requires |cs| == |h|
    decreases |h|
  {
    if h == [] then r else After(cs[1..], Step(cs[0], r, h[0]).0, h[1..])
  }

  /** Fire and clear in turn, beginning with the one that changes the given state. */
  predicate Alternate(ns: seq<Note>, firing: bool)
    decreases |ns|
  {
    ns == [] || (ns[0] == (if firing then Cleared else Fired) && Alternate(ns[1..], !firing))
  }

  /** A step notifies exactly when it changes whether the rule is firing. */
  lemma {:induction false} NoteTellsChange(c: Condition, r: Runtime, o: Observation)
    ensures var (next, note) := Step(c, r, o);
            if next.firing == r.firing then note == Quiet else note == if r.firing then Cleared else Fired
  {
  }

  /** Fire and clear notifications strictly alternate, and their number says whether the
      rule is firing, whatever is observed and however the condition is edited. */
  lemma {:induction false} NotesAlternate(cs: seq<Condition>, r: Runtime, h: seq<Observation>)
    requires |cs| == |h|
    ensures Alternate(Notes(cs, r, h), r.firing)
    ensures After(cs, r, h).firing == (r.firing != (|Notes(cs, r, h)| % 2 == 1))
    decreases |h|
  {
    if h != [] {
      var (next, note) := Step(cs[0], r, h[0]);
      NotesAlternate(cs[1..], next, h[1..]);
      var rest := Notes(cs[1..], next, h[1..]);
      if !note.Quiet? {
        assert ([note] + rest)[1..] == rest;
      } else {
        assert [] + rest == rest;
      }
    }
  }
}
