/** What the alert rules do for somebody who only knows the table, the rows and the clock:
    which evaluations leave a rule alone, when it is heard, and what a save changes. */
module AlertEffects {
  import opened Samples
  import opened Debounce
  import opened Registry
  import opened RuleTable
  import opened AlertRuns
  import L = Layout

  // -------------------------------------------------------- one evaluation

  /** The rule is off, its metric is not registered, or there is no reading of it. */
  ghost predicate Blind(r: AlertRule, ids: seq<string>, row: Row)
    requires |row| == |ids|
  {
    !r.enabled || r.metric !in ids ||
    exists k :: 0 <= k < |ids| && ids[k] == r.metric && r.metric !in ids[..k] && row[k] == Absent
  }

  /** The rule is on, and this is the reading of its metric. */
  ghost predicate Reads(r: AlertRule, ids: seq<string>, row: Row, v: real)
    requires |row| == |ids|
  {
    r.enabled && exists k :: 0 <= k < |ids| && ids[k] == r.metric && r.metric !in ids[..k] && row[k] == Present(v)
  }

  predicate Past(c: Condition, v: real)
  {
    (c.op == Above && v > c.threshold) || (c.op == Below && v < c.threshold)
  }

  lemma {:induction false} FirstColumn(ids: seq<string>, metric: string, k: nat)
    requires k < |ids| && ids[k] == metric && metric !in ids[..k]
    ensures Find(ids, metric) == k
  {
    var i := Find(ids, metric);
    assert ids[k] in ids;
    assert forall j :: 0 <= j < k ==> ids[..k][j] == ids[j];
    assert forall j :: 0 <= j < i ==> ids[..i][j] == ids[j];
  }

  /** An evaluation that shows a rule nothing ends its breach, leaves everything else of it
      as it was, and says nothing of it. */
  lemma {:induction false} BlindRule(t: Table, ids: seq<string>, row: Row, now: int, i: nat)
    requires Sound(t) && |row| == |ids| && i < |t| && Blind(t[i], ids, row)
    ensures Evaluated(t, ids, row, now)[i] == t[i].(runtime := t[i].runtime.(breachSince := 0))
    ensures For(t[i].id, NotesOf(t, ids, row, now)) == []
  {
    var r := t[i];
    if r.enabled && r.metric in ids {
      var k :| 0 <= k < |ids| && ids[k] == r.metric && r.metric !in ids[..k] && row[k] == Absent;
      FirstColumn(ids, r.metric, k);
    }
    OneNotePerRule(t, ids, row, now, i);
  }

  /** An evaluation that shows it a reading: a good one clears it, a breach counts from the
      first of its kind and fires once it has lasted. */
  lemma {:induction false} SeeingRule(t: Table, ids: seq<string>, row: Row, now: int, i: nat, v: real)
    requires Sound(t) && |row| == |ids| && i < |t| && Reads(t[i], ids, row, v)
    ensures var c, was := t[i].condition, t[i].runtime;
            var since := if was.breachSince == 0 then now else was.breachSince;
            var fires := !was.firing && now - since >= c.duration;
            var s, heard := Evaluated(t, ids, row, now)[i], For(t[i].id, NotesOf(t, ids, row, now));
            && s == t[i].(runtime := s.runtime)
            && (!Past(c, v) ==> s.runtime == Runtime(false, 0, was.firedAt, v) &&
                                heard == if was.firing then [Cleared] else [])
            && (Past(c, v) ==>
                  && s.runtime == Runtime(was.firing || fires, since, if fires then now else was.firedAt, v)
                  && heard == if fires then [Fired] else [])
  {
    var r := t[i];
    var k :| 0 <= k < |ids| && ids[k] == r.metric && r.metric !in ids[..k] && row[k] == Present(v);
    FirstColumn(ids, r.metric, k);
    OneNotePerRule(t, ids, row, now, i);
    assert Past(r.condition, v) <==> Breach(r.condition, v);
  }

  /** The same, for the rule of an id. */
  lemma {:induction false} RuleAfter(t: Table, ids: seq<string>, row: Row, now: int, id: string)
    requires Sound(t) && HasRule(t, id) && |row| == |ids|
    ensures var s := Evaluated(t, ids, row, now);
            && FindRule(t, id) >= 0 && RuleIn(t, id) == t[FindRule(t, id)] && RuleIn(t, id).id == id
            && Sound(s) && HasRule(s, id) && RuleIn(s, id) == s[FindRule(t, id)]
  {
    var s, i := Evaluated(t, ids, row, now), FindRule(t, id);
    AfterSound(t, ids, Evaluate(row, now));
    assert s[i].id == id;
    FindUnique(s, i);
  }

  // ------------------------------------------------------ a rule that is off

  /** The rule is off whenever something happens. */
  ghost predicate StaysOff(t: Table, ids: seq<string>, es: seq<Event>, id: string)
    requires Possible(t, ids, es)
    decreases |es|
  {
    es == [] ||
    (HasRule(t, id) && !RuleIn(t, id).enabled && StaysOff(AlertRuns.After(t, ids, es[0]).0, ids, es[1..], id))
  }

  /** Over every run of evaluations and edits in which a rule stays off, its listener hears
      nothing and it neither starts nor stops firing. */
  lemma {:induction false} OffIsSilent(t: Table, ids: seq<string>, es: seq<Event>, id: string)
    requires Sound(t) && Possible(t, ids, es) && Spares(t, ids, es, id) && HasRule(t, id) && StaysOff(t, ids, es, id)
    ensures Heard(t, ids, es, id) == [] && FiringIn(RunTable(t, ids, es), id) == FiringIn(t, id)
    decreases |es|
  {
    if es != [] {
      var s := AlertRuns.After(t, ids, es[0]).0;
      AfterSound(t, ids, es[0]);
      OffOnce(t, ids, es[0], id);
      OffIsSilent(s, ids, es[1..], id);
    }
  }

  lemma {:induction false} OffOnce(t: Table, ids: seq<string>, e: Event, id: string)
    requires Sound(t) && Acceptable(t, ids, e) && HasRule(t, id) && !(e.Apply? && Deletes(t, e.fields, id))
    requires !RuleIn(t, id).enabled
    ensures var (s, ns) := AlertRuns.After(t, ids, e);
            HasRule(s, id) && For(id, ns) == [] && FiringIn(s, id) == FiringIn(t, id)
  {
    match e
    case Apply(f) => AppliedKeepsRule(t, f, id);
    case Evaluate(row, now) =>
      RuleAfter(t, ids, row, now, id);
      BlindRule(t, ids, row, now, FindRule(t, id));
  }

  // ------------------------------------------- a condition that holds for long

  /** Every event is a sample whose reading of the rule's metric is past the threshold, or
      every one is a sample whose reading is not; time does not run backwards. */
  ghost predicate Steady(r: AlertRule, ids: seq<string>, es: seq<Event>, past: bool)
  {
    && (forall i :: 0 <= i < |es| ==>
          es[i].Evaluate? && |es[i].values| == |ids| && es[i].now > 0 &&
          exists v :: Reads(r, ids, es[i].values, v) && Past(r.condition, v) == past)
    && forall i, j :: 0 <= i < j < |es| ==> es[i].now <= es[j].now
  }

  lemma {:induction false} SteadyRest(r: AlertRule, q: AlertRule, ids: seq<string>, es: seq<Event>, past: bool)
    requires es != [] && Steady(r, ids, es, past) && q == r.(runtime := q.runtime)
    ensures Steady(q, ids, es[1..], past)
  {
    var rest := es[1..];
    forall i | 0 <= i < |rest|
      ensures rest[i].Evaluate? && |rest[i].values| == |ids| && rest[i].now > 0
      ensures exists v :: Reads(q, ids, rest[i].values, v) && Past(q.condition, v) == past
    {
      assert rest[i] == es[i + 1];
      var v :| Reads(r, ids, es[i + 1].values, v) && Past(r.condition, v) == past;
      assert Reads(q, ids, rest[i].values, v) && Past(q.condition, v) == past;
    }
    assert forall i :: 0 <= i < |rest| ==> rest[i] == es[i + 1];
  }

  lemma {:induction false} SteadyFirst(r: AlertRule, ids: seq<string>, es: seq<Event>, past: bool) returns (v: real)
    requires es != [] && Steady(r, ids, es, past)
    ensures es[0].Evaluate? && |es[0].values| == |ids| && es[0].now > 0
    ensures Reads(r, ids, es[0].values, v) && Past(r.condition, v) == past
    ensures es[|es| - 1].Evaluate? && es[0].now <= es[|es| - 1].now
  {
    v :| Reads(r, ids, es[0].values, v) && Past(r.condition, v) == past;
  }

  /** What is heard of a breach that counts from `since` and is there until `last`. */
  function FiredOnce(firing: bool, since: int, last: int, duration: nat): seq<Note>
  {
    if !firing && last - since >= duration then [Fired] else []
  }

  /** However many samples with a reading past the threshold follow one another, a rule that
      is on is heard of exactly once, and that if and only if it was not firing and the last
      of them comes its duration after the breach began. */
  lemma {:induction false} SteadyBreachHeard(t: Table, ids: seq<string>, es: seq<Event>, id: string)
    requires Sound(t) && HasRule(t, id) && es != [] && Steady(RuleIn(t, id), ids, es, true)
    ensures var was := RuleIn(t, id).runtime;
            var since := if was.breachSince == 0 then es[0].now else was.breachSince;
            && Possible(t, ids, es) && Spares(t, ids, es, id)
            && Heard(t, ids, es, id)
               == FiredOnce(was.firing, since, es[|es| - 1].now, RuleIn(t, id).condition.duration)
    decreases |es|
  {
    hide Reads, Steady, Evaluated, NotesOf, For, Sound, HasRule, RuleIn, FiredOnce, Past;
    var r, rest, last := RuleIn(t, id), es[1..], es[|es| - 1];
    var v := SteadyFirst(r, ids, es, true);
    var s := Evaluated(t, ids, es[0].values, es[0].now);
    SampleSeen(t, ids, es[0].values, es[0].now, id, v);
    SteadyRest(r, RuleIn(s, id), ids, es, true);
    var was := r.runtime;
    var since := if was.breachSince == 0 then es[0].now else was.breachSince;
    var d := r.condition.duration;
    FiredThen(was.firing, since, es[0].now, last.now, d);
    if |es| == 1 {
      assert rest == [];
      NothingHappens(s, ids, id);
    } else {
      assert rest[|rest| - 1] == last;
      SteadyBreachHeard(s, ids, rest, id);
    }
    SampleFirst(t, ids, es, id);
  }

  /** What is heard first and what is heard after it. */
  lemma {:induction false} FiredThen(firing: bool, since: int, now: int, last: int, duration: nat)
    requires now <= last
    ensures var fires := !firing && now - since >= duration;
            var first := if fires then [Fired] else [];
            && first + FiredOnce(firing || fires, since, last, duration) == FiredOnce(firing, since, last, duration)
            && (now == last ==> first + [] == FiredOnce(firing, since, last, duration))
  {
  }

  /** An evaluation with a reading of the rule of an id. */
  lemma {:induction false} SampleSeen(t: Table, ids: seq<string>, row: Row, now: int, id: string, v: real)
    requires Sound(t) && HasRule(t, id) && |row| == |ids| && Reads(RuleIn(t, id), ids, row, v)
    ensures var c, was := RuleIn(t, id).condition, RuleIn(t, id).runtime;
            var since := if was.breachSince == 0 then now else was.breachSince;
            var fires := !was.firing && now - since >= c.duration;
            var s, heard := Evaluated(t, ids, row, now), For(id, NotesOf(t, ids, row, now));
            && Sound(s) && HasRule(s, id) && RuleIn(s, id) == RuleIn(t, id).(runtime := RuleIn(s, id).runtime)
            && (!Past(c, v) ==> !RuleIn(s, id).runtime.firing && heard == if was.firing then [Cleared] else [])
            && (Past(c, v) ==>
                  && RuleIn(s, id).runtime.firing == (was.firing || fires) && RuleIn(s, id).runtime.breachSince == since
                  && heard == if fires then [Fired] else [])
  {
    RuleAfter(t, ids, row, now, id);
    SeeingRule(t, ids, row, now, FindRule(t, id), v);
    hide Reads, Evaluated, NotesOf, For, Sound;
  }

  /** A run that begins with a sample. */
  lemma {:induction false} SampleFirst(t: Table, ids: seq<string>, es: seq<Event>, id: string)
    requires es != [] && es[0].Evaluate? && |es[0].values| == |ids|
    requires var s := Evaluated(t, ids, es[0].values, es[0].now);
             Possible(s, ids, es[1..]) && Spares(s, ids, es[1..], id)
    ensures Possible(t, ids, es) && Spares(t, ids, es, id)
    ensures Heard(t, ids, es, id)
         == For(id, NotesOf(t, ids, es[0].values, es[0].now))
            + Heard(Evaluated(t, ids, es[0].values, es[0].now), ids, es[1..], id)
  {
  }

  lemma {:induction false} NothingHappens(t: Table, ids: seq<string>, id: string)
    ensures Possible(t, ids, []) && Spares(t, ids, [], id) && Heard(t, ids, [], id) == []
  {
  }

  /** And of readings that are not past it, a rule that is not firing is not heard. */
  lemma {:induction false} SteadyCalm(t: Table, ids: seq<string>, es: seq<Event>, id: string)
    requires Sound(t) && HasRule(t, id) && Steady(RuleIn(t, id), ids, es, false) && !RuleIn(t, id).runtime.firing
    ensures Possible(t, ids, es) && Spares(t, ids, es, id) && Heard(t, ids, es, id) == []
    decreases |es|
  {
    if es != [] {
      hide Reads, Steady, Evaluated, NotesOf, For, Sound, HasRule, RuleIn, Past;
      var r := RuleIn(t, id);
      var v := SteadyFirst(r, ids, es, false);
      var s := Evaluated(t, ids, es[0].values, es[0].now);
      SampleSeen(t, ids, es[0].values, es[0].now, id, v);
      SteadyRest(r, RuleIn(s, id), ids, es, false);
      SteadyCalm(s, ids, es[1..], id);
      SampleFirst(t, ids, es, id);
    }
  }

  // ------------------------------------------------------- what a save does

  function Cut(s: string, size: nat): string
    requires size > 0
  {
    if |s| < size then s else s[..size - 1]
  }

  /** What a save finds: the rule of the id, or a new one that is off and watches nothing. */
  function Before(t: Table, id: string): AlertRule
  {
    if HasRule(t, id) then RuleIn(t, id)
    else AlertRule(id, "", "", Condition(Above, 0.0, 0), false, false, Runtime(false, 0, 0, 0.0))
  }

  /** After a save under an id of at most 47 characters, to which there is always an answer
      and which changes something unless the table is full, the rule of the id has every
      field given and keeps every one not given. A built-in keeps its metric. */
  lemma {:induction false} SaveTakesEffect(t: Table, f: Fields, id: string)
    requires Sound(t) && f.action == Some("save") && f.id == Some(id) && |id| < 48
    ensures !Faults(t, f)
    ensures Applied(t, f).1 <==> HasRule(t, id) || |t| < 64
    ensures !Applied(t, f).1 ==> Applied(t, f).0 == t
    ensures Applied(t, f).1 ==>
              var was, s := Before(t, id), Applied(t, f).0;
              && HasRule(s, id)
              && (var r := RuleIn(s, id);
                  && r.id == id && r.builtin == was.builtin && r.runtime == was.runtime
                  && r.condition.threshold == (if f.threshold.Some? then f.threshold.value else was.condition.threshold)
                  && r.condition.duration == (if f.duration.Some? then f.duration.value else was.condition.duration)
                  && (f.op == None ==> r.condition.op == was.condition.op)
                  && (f.op != None ==> (r.condition.op == Below <==> f.op == Some("below")))
                  && (f.enabled == None ==> r.enabled == was.enabled)
                  && (f.enabled != None ==> (r.enabled <==> f.enabled == Some("yes")))
                  && (f.metric == None || was.builtin ==> r.metric == was.metric)
                  && (f.metric != None && !was.builtin ==> r.metric == Cut(f.metric.value, 64))
                  && (var name := if f.name == None then was.name else Cut(f.name.value, 96);
                      r.name == if name == "" then id else name))
  {
    FaultsIff(t, f);
    var k := FindRule(t, id);
    if k >= 0 {
      SavedAt(t, k, f);
    } else if |t| < 64 {
      var s := t + [BlankRule(id)];
      AddedSound(t, BlankRule(id));
      assert Added(t, BlankRule(id)) == s && s[|t|] == BlankRule(id) && s[|t|].id == id;
      FindUnique(s, |t|);
      SavedAt(s, |t|, f);
    }
  }

  lemma {:induction false} SavedAt(s: Table, k: nat, f: Fields)
    requires Sound(s) && k < |s|
    ensures var q := s[k := Edited(s[k], f)];
            FindRule(s, s[k].id) == k && HasRule(q, s[k].id) && RuleIn(q, s[k].id) == Edited(s[k], f)
  {
    hide Edited;
    FindUnique(s, k);
    ReplacedSound(s, k, Edited(s[k], f));
    FindUnique(s[k := Edited(s[k], f)], k);
  }

  /** For one: readings between a new, lower threshold and the old one are not heard before
      the save, and after it, if they last, are. */
  lemma {:induction false} LoweredThresholdFires(t: Table, ids: seq<string>, id: string, f: Fields, es: seq<Event>)
    requires Sound(t) && HasRule(t, id) && es != []
    requires f == Fields(Some("save"), Some(id), None, None, None, f.threshold, None, None) && f.threshold.Some?
    requires var r := RuleIn(t, id);
             && r.condition.op == Above && !r.runtime.firing && r.runtime.breachSince == 0
             && Steady(r, ids, es, false)
             && Steady(r.(condition := r.condition.(threshold := f.threshold.value)), ids, es, true)
             && es[|es| - 1].now - es[0].now >= r.condition.duration
    ensures Possible(t, ids, es) && Heard(t, ids, es, id) == []
    ensures Possible(t, ids, [Apply(f)] + es) && Heard(t, ids, [Apply(f)] + es, id) == [Fired]
  {
    var r := RuleIn(t, id);
    SteadyCalm(t, ids, es, id);
    assert r.id == id && |id| < 48;
    SaveTakesEffect(t, f, id);
    AppliedSound(t, f);
    var s := Applied(t, f).0;
    SameButName(r, RuleIn(s, id), f.threshold.value, ids, es);
    hide Sound, Steady, HasRule, Applied, Faults;
    SteadyBreachHeard(s, ids, es, id);
    EditFirst(t, ids, f, es, id);
  }

  lemma {:induction false} EditFirst(t: Table, ids: seq<string>, f: Fields, es: seq<Event>, id: string)
    requires !Faults(t, f) && Possible(Applied(t, f).0, ids, es)
    ensures Possible(t, ids, [Apply(f)] + es)
    ensures Heard(t, ids, [Apply(f)] + es, id) == Heard(Applied(t, f).0, ids, es, id)
  {
    hide Applied, Faults;
    var all := [Apply(f)] + es;
    assert all[0] == Apply(f) && all[1..] == es;
    assert For(id, []) == [];
  }

  lemma {:induction false} SameButName(r: AlertRule, q: AlertRule, threshold: real, ids: seq<string>, es: seq<Event>)
    requires q.metric == r.metric && q.enabled == r.enabled && q.condition == r.condition.(threshold := threshold)
    requires Steady(r.(condition := r.condition.(threshold := threshold)), ids, es, true)
    ensures Steady(q, ids, es, true)
  {
    var p := r.(condition := r.condition.(threshold := threshold));
    forall i | 0 <= i < |es|
      ensures es[i].Evaluate? && |es[i].values| == |ids| && es[i].now > 0
      ensures exists v :: Reads(q, ids, es[i].values, v) && Past(q.condition, v) == true
    {
      var v :| Reads(p, ids, es[i].values, v) && Past(p.condition, v) == true;
      assert Reads(q, ids, es[i].values, v) && Past(q.condition, v) == true;
    }
  }

  // ---------------------------------------------------- what a start watches

  /** The rule of the id is on, not firing, and fires above the threshold. */
  ghost predicate Watches(t: Table, id: string, name: string, metric: string, threshold: real, duration: nat)
  {
    HasRule(t, id) &&
    var r := RuleIn(t, id);
    && r.name == name && r.metric == metric && r.enabled && r.builtin
    && r.condition == Condition(Above, threshold, duration) && r.runtime == Runtime(false, 0, 0, 0.0)
  }

  lemma {:induction false} RuleOfTable(t: Table, r: AlertRule)
    requires Sound(t) && r in t
    ensures HasRule(t, r.id) && RuleIn(t, r.id) == r
  {
    var i :| 0 <= i < |t| && t[i] == r;
    FindUnique(t, i);
  }

  /** With room, a start watches the processor and the memory at 90 percent for five minutes
      and the temperature at 85 degrees for two, where the device has the metric and nothing
      was saved under the rule's id. */
  lemma {:induction false} DefaultsInForce(saved: seq<SavedRule>, ids: seq<string>)
    requires Room(saved, ids)
    ensures var t, own := Constructed(saved, ids), SavedRules(saved);
            && ("cpu.usage" in ids && !HasRule(own, "cpu_high") ==>
                  Watches(t, "cpu_high", "CPU usage high", "cpu.usage", 90.0, 300))
            && ("mem.usage" in ids && !HasRule(own, "memory_high") ==>
                  Watches(t, "memory_high", "Memory usage high", "mem.usage", 90.0, 300))
            && ("sensor.CPU" in ids && !HasRule(own, "temperature_high") ==>
                  Watches(t, "temperature_high", "Temperature high", "sensor.CPU", 85.0, 120))
  {
    DefaultInForce(saved, ids, 0);
    DefaultInForce(saved, ids, 1);
    DefaultInForce(saved, ids, 2);
    hide Constructed, SavedRules, Room, HasRule;
  }

  lemma {:induction false} DefaultInForce(saved: seq<SavedRule>, ids: seq<string>, k: nat)
    requires Room(saved, ids) && k < |BUILTIN|
    ensures BUILTIN[k].metric in ids && !HasRule(SavedRules(saved), BUILTIN[k].id) ==>
              var t := Constructed(saved, ids); HasRule(t, BUILTIN[k].id) && RuleIn(t, BUILTIN[k].id) == BUILTIN[k]
  {
    DefaultPresentIff(saved, ids, k);
    ConstructionSound(saved, ids);
    hide Constructed, SavedRules, Room, HasRule;
    if BUILTIN[k] in Constructed(saved, ids) {
      RuleOfTable(Constructed(saved, ids), BUILTIN[k]);
    }
  }

  /** And every filesystem, at 90 percent for five minutes, whose rule id fits and was not
      taken by a saved rule or an earlier filesystem. */
  lemma {:induction false} SpaceRuleInForce(saved: seq<SavedRule>, ids: seq<string>, k: nat, area: string)
    requires Room(saved, ids) && Distinct(ids) && forall i :: 0 <= i < |ids| ==> |ids[i]| < 64
    requires k < |ids| && ids[k] == "fs." + area + ".usage" && |area| <= 34
    requires !HasRule(SavedRules(saved), "storage_full_" + area)
    requires forall j :: 0 <= j < k && IsFilesystemUsage(ids[j]) ==> StorageRule(ids[j]).id != "storage_full_" + area
    ensures Watches(Constructed(saved, ids), "storage_full_" + area, area + " almost full", ids[k], 90.0, 300)
  {
    AreaMetric(area);
    var rule := StorageRule(ids[k]);
    assert rule.id == "storage_full_" + area && rule.metric == ids[k] && rule.name == area + " almost full";
    assert ids[k] in ids;
    assert rule.id in StorageIds(ids);
    assert rule.enabled && rule.builtin && rule.condition == Condition(Above, 90.0, 300);
    hide Constructed, SavedRules, Room, StorageIds, StorageRule, IsFilesystemUsage;
    SpaceRulePresentIff(saved, ids, k);
    ConstructionSound(saved, ids);
    RuleOfTable(Constructed(saved, ids), rule);
  }

  /** What is watched is heard: readings above the threshold, the duration apart. */
  lemma {:induction false} WatchedIsHeard(
    t: Table, ids: seq<string>, es: seq<Event>, id: string, name: string, metric: string, threshold: real,
    duration: nat)
    requires Sound(t) && Watches(t, id, name, metric, threshold, duration) && es != []
    requires Steady(RuleIn(t, id), ids, es, true)
    ensures Possible(t, ids, es)
    ensures Heard(t, ids, es, id) == if es[|es| - 1].now - es[0].now >= duration then [Fired] else []
  {
    hide Sound, HasRule, Steady;
    SteadyBreachHeard(t, ids, es, id);
  }

  // ----------------------------------------------------- what a start loads

  /** A saved rule that would come into the table and has the id. */
  predicate Claims(s: SavedRule, id: string)
  {
    s.metric.Some? && s.metric.value != "" && Cut(s.group, 48) == id
  }

  lemma {:induction false} FirstSaved(saved: seq<SavedRule>, i: nat, id: string)
    requires i < |saved| && Claims(saved[i], id) && forall j :: 0 <= j < i ==> !Claims(saved[j], id)
    ensures var own := SavedRules(saved); HasRule(own, id) && own[FindRule(own, id)] == FromSaved(saved[i])
    decreases |saved|
  {
    var front, last := saved[..|saved| - 1], saved[|saved| - 1];
    var own, r := SavedRules(front), FromSaved(last);
    assert r.metric != "" ==> last.metric.Some? && last.metric.value != "";
    if i < |front| {
      FirstSaved(front, i, id);
    } else {
      NoneSaved(front, id);
      assert r.id == id && r.metric != "";
    }
    hide FromSaved;
    FindInEither(own, [r], id);
    FindInOne(r, id);
    assert (own + [r])[|own|] == r;
  }

  lemma {:induction false} NoneSaved(saved: seq<SavedRule>, id: string)
    requires forall j :: 0 <= j < |saved| ==> !Claims(saved[j], id)
    ensures FindRule(SavedRules(saved), id) < 0
    decreases |saved|
  {
    if saved != [] {
      var n := |saved| - 1;
      var own, r := SavedRules(saved[..n]), FromSaved(saved[n]);
      NoneSaved(saved[..n], id);
      assert !Claims(saved[n], id);
      assert r.metric != "" ==> r.id != id;
      hide FromSaved;
      FindInEither(own, [r], id);
      FindInOne(r, id);
    }
  }

  /** With room, a user's saved rule, the first of its id, is in the table as it was saved,
      and starts afresh. */
  lemma {:induction false} LoadedAsSaved(saved: seq<SavedRule>, ids: seq<string>, i: nat)
    requires Room(saved, ids) && i < |saved| && !saved[i].builtin
    requires var s := saved[i];
             && |s.group| < 48 && Claims(s, s.group) && forall j :: 0 <= j < i ==> !Claims(saved[j], s.group)
    ensures var s, t := saved[i], Constructed(saved, ids);
            && HasRule(t, s.group)
            && (var r := RuleIn(t, s.group);
                && r.metric == Cut(s.metric.value, 64) && r.enabled == s.enabled && !r.builtin
                && r.name == Cut(if s.name == None then s.group else s.name.value, 96)
                && r.condition.threshold == s.threshold && r.condition.duration == s.duration
                && (r.condition.op == Below <==> s.op == Some("below"))
                && r.runtime == Runtime(false, 0, 0, 0.0))
  {
    var s, r := saved[i], FromSaved(saved[i]);
    FirstSaved(saved, i, s.group);
    assert r.id == s.group && !r.builtin && r.runtime == Runtime(false, 0, 0, 0.0);
    assert r.metric == Cut(s.metric.value, 64) && r.name == Cut(if s.name == None then s.group else s.name.value, 96);
    hide Constructed, SavedRules, Room, Expected;
    SavedRuleOwnsItsId(saved, ids, s.group);
    ConstructionSound(saved, ids);
    RuleOfTable(Constructed(saved, ids), r);
  }
}
