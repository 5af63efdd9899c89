/** The alert rules in use: edits, evaluations, and what any run of them keeps. */
module AlertRuns {
  import opened Samples
  import opened Debounce
  import opened Registry
  import opened RuleTable
  import L = Layout

  // --------------------------------------------------------------- edits

  /** One form-encoded change, field by field. */
  datatype Fields = Fields(
    action: Option<string>, id: Option<string>, name: Option<string>, metric: Option<string>, op: Option<string>,
    threshold: Option<real>, duration: Option<nat>, enabled: Option<string>)

  function GetOr<T>(o: Option<T>, default: T): T
  {
    if o.Some? then o.value else default
  }

  function BlankRule(id: string): AlertRule
  {
    AlertRule(L.Truncated(id, RULE_ID_MAX), "", "", Condition(Above, 0.0, 0), false, false, INITIAL)
  }

  function EditedCondition(c: Condition, f: Fields): Condition
  {
    Condition(if f.op.Some? then OpFrom(f.op) else c.op, GetOr(f.threshold, c.threshold), GetOr(f.duration, c.duration))
  }

  /** A saved rule: the given fields, and never the metric of a built-in. */
  function Edited(r: AlertRule, f: Fields): (e: AlertRule)
    ensures e.id == r.id && e.builtin == r.builtin && e.runtime == r.runtime
  {
    var name := if f.name.Some? then L.Truncated(f.name.value, RULE_NAME_MAX) else r.name;
    r.(name := if name == "" then L.Truncated(r.id, RULE_NAME_MAX) else name,
       metric := if f.metric.Some? && !r.builtin then L.Truncated(f.metric.value, L.METRIC_ID_MAX) else r.metric,
       condition := EditedCondition(r.condition, f),
       enabled := if f.enabled.Some? then f.enabled.value == "yes" else r.enabled)
  }

  function DeletedAt(t: Table, i: nat): Table
    requires i < |t|
  {
    t[..i] + t[i + 1..]
  }

  function DeleteRule(t: Table, id: string): (r: (Table, bool))
  {
    var i := FindRule(t, id);
    if i >= 0 && !t[i].builtin then (DeletedAt(t, i), true) else (t, false)
  }

  /** The new rule was added and is then not found under the id it was asked for: the
      program goes on with no rule in hand, and there is no answer to the request. */
  predicate SaveFaults(t: Table, id: string)
  {
    !HasRule(t, id) && Added(t, BlankRule(id)) != t && !HasRule(Added(t, BlankRule(id)), id)
  }

  predicate Faults(t: Table, f: Fields)
  {
    f.action == Some("save") && f.id.Some? && SaveFaults(t, f.id.value)
  }

  /** That happens exactly when the id is too long for its field, its first 47 characters
      are not the id of a rule, and there is room for one more. */
  lemma {:induction false} FaultsIff(t: Table, f: Fields)
    requires Sound(t)
    ensures Faults(t, f) <==>
            f.action == Some("save") && f.id.Some? && |f.id.value| >= 48 && |t| < 64 &&
            !HasRule(t, f.id.value[..47])
  {
    if f.id.Some? {
      var r := BlankRule(f.id.value);
      assert (t + [r])[|t|] == r;
      HasRuleIff(t, f.id.value);
      HasRuleIff(t + [r], f.id.value);
    }
  }

  function SaveRule(t: Table, id: string, f: Fields): (r: (Table, bool))
    requires !SaveFaults(t, id)
  {
    var s := if FindRule(t, id) >= 0 then t else Added(t, BlankRule(id));
    var k := FindRule(s, id);
    if k < 0 then (t, false) else (s[k := Edited(s[k], f)], true)
  }

  /** The table after a change, and whether anything changed. */
  function Applied(t: Table, f: Fields): (r: (Table, bool))
    requires !Faults(t, f)
  {
    if f.action.None? || f.id.None? then (t, false)
    else if f.action.value == "delete" then DeleteRule(t, f.id.value)
    else if f.action.value == "save" then SaveRule(t, f.id.value, f)
    else (t, false)
  }

  predicate Deletes(t: Table, f: Fields, id: string)
  {
    f.action == Some("delete") && f.id == Some(id) && FindRule(t, id) >= 0 && !t[FindRule(t, id)].builtin
  }

  lemma {:induction false} FindUnique(t: Table, i: nat)
    requires Sound(t) && i < |t|
    ensures FindRule(t, t[i].id) == i
  {
  }

  lemma {:induction false} DeletedSound(t: Table, i: nat)
    requires Sound(t) && i < |t|
    ensures Sound(DeletedAt(t, i))
  {
  }

  lemma {:induction false} ReplacedSound(t: Table, i: nat, r: AlertRule)
    requires Sound(t) && i < |t| && r.id == t[i].id
    ensures Sound(t[i := r])
  {
  }

  lemma {:induction false} DeleteSound(t: Table, id: string)
    requires Sound(t)
    ensures Sound(DeleteRule(t, id).0)
  {
    if FindRule(t, id) >= 0 {
      DeletedSound(t, FindRule(t, id));
    }
  }

  lemma {:induction false} SaveSound(t: Table, id: string, f: Fields)
    requires Sound(t) && !SaveFaults(t, id)
    ensures Sound(SaveRule(t, id, f).0)
  {
    hide Sound, Edited, Added;
    AddedSound(t, BlankRule(id));
    var s := if FindRule(t, id) >= 0 then t else Added(t, BlankRule(id));
    var k := FindRule(s, id);
    if k >= 0 {
      ReplacedSound(s, k, Edited(s[k], f));
    }
  }

  lemma {:induction false} AppliedSound(t: Table, f: Fields)
    requires Sound(t) && !Faults(t, f)
    ensures Sound(Applied(t, f).0)
  {
    hide Sound, DeleteRule, SaveRule;
    if f.action.Some? && f.id.Some? {
      DeleteSound(t, f.id.value);
      if f.action.value == "save" {
        SaveSound(t, f.id.value, f);
      }
    }
  }

  /** What an operation on the table leaves of a rule it does not delete. */
  ghost predicate RuleKept(t: Table, s: Table, id: string)
  {
    HasRule(t, id) && HasRule(s, id) &&
    var r, q := t[FindRule(t, id)], s[FindRule(s, id)];
    q.runtime == r.runtime && q.builtin == r.builtin && (r.builtin ==> q.metric == r.metric)
  }

  lemma {:induction false} KeptAt(t: Table, s: Table, i: nat, k: nat)
    requires Sound(t) && Sound(s) && i < |t| && k < |s|
    requires s[k].id == t[i].id && s[k].runtime == t[i].runtime && s[k].builtin == t[i].builtin
    requires t[i].builtin ==> s[k].metric == t[i].metric
    ensures RuleKept(t, s, t[i].id)
  {
    FindUnique(t, i);
    FindUnique(s, k);
  }

  lemma {:induction false} DeleteKeeps(t: Table, d: nat, i: nat)
    requires Sound(t) && d < |t| && i < |t| && i != d
    ensures RuleKept(t, DeletedAt(t, d), t[i].id)
  {
    DeletedSound(t, d);
    KeptAt(t, DeletedAt(t, d), i, if i < d then i else i - 1);
  }

  lemma {:induction false} SaveKeeps(t: Table, id: string, f: Fields, i: nat)
    requires Sound(t) && !SaveFaults(t, id) && i < |t|
    ensures RuleKept(t, SaveRule(t, id, f).0, t[i].id)
  {
    var s := if FindRule(t, id) >= 0 then t else Added(t, BlankRule(id));
    var k := FindRule(s, id);
    AddedSound(t, BlankRule(id));
    assert s[i] == t[i];
    if k >= 0 {
      ReplacedSound(s, k, Edited(s[k], f));
      KeptAt(t, s[k := Edited(s[k], f)], i, i);
    } else {
      KeptAt(t, t, i, i);
    }
  }

  /** An edit that does not delete a rule leaves its id, origin and runtime state alone,
      and a built-in also keeps the metric it watches. */
  lemma {:induction false} AppliedKeepsRule(t: Table, f: Fields, id: string)
    requires Sound(t) && !Faults(t, f) && HasRule(t, id) && !Deletes(t, f, id)
    ensures RuleKept(t, Applied(t, f).0, id)
  {
    hide Sound, RuleKept, SaveRule;
    var i := FindRule(t, id);
    KeptAt(t, t, i, i);
    if f.action.Some? && f.id.Some? {
      if f.action.value == "save" {
        SaveKeeps(t, f.id.value, f, i);
      }
      var d := FindRule(t, f.id.value);
      if d >= 0 && d != i {
        DeleteKeeps(t, d, i);
      }
    }
  }

  /** No change request removes a built-in. */
  lemma {:induction false} BuiltinsStay(t: Table, f: Fields, i: nat)
    requires Sound(t) && !Faults(t, f) && i < |t| && t[i].builtin
    ensures var s := Applied(t, f).0;
            exists k :: 0 <= k < |s| && s[k].id == t[i].id && s[k].builtin && s[k].metric == t[i].metric
  {
    FindUnique(t, i);
    AppliedKeepsRule(t, f, t[i].id);
  }

  // ---------------------------------------------------------- evaluation

  function SeenBy(r: AlertRule, ids: seq<string>, values: Row): Seen
    requires |ids| == |values|
  {
    var i := Find(ids, r.metric);
    if i < 0 then NoMetric
    else if !r.enabled then Disabled
    else match values[i]
      case Absent => NoReading
      case Present(v) => Value(v)
  }

  function Judged(r: AlertRule, ids: seq<string>, values: Row, now: int): (j: (AlertRule, Note))
    requires |ids| == |values|
    ensures j.0 == r.(runtime := j.0.runtime)
  {
    var (next, note) := Step(r.condition, r.runtime, Observation(now, SeenBy(r, ids, values)));
    (r.(runtime := next), note)
  }

  function Evaluated(t: Table, ids: seq<string>, values: Row, now: int): (s: Table)
    requires |ids| == |values|
    ensures |s| == |t| && forall i :: 0 <= i < |t| ==> s[i] == Judged(t[i], ids, values, now).0
  {
    seq(|t|, i requires 0 <= i < |t| => Judged(t[i], ids, values, now).0)
  }

  /** The notifications of one evaluation, in table order. */
  function NotesOf(t: Table, ids: seq<string>, values: Row, now: int): seq<(string, Note)>
    requires |ids| == |values|
    decreases |t|
  {
    if t == [] then []
    else
      var front, note := NotesOf(t[..|t| - 1], ids, values, now), Judged(t[|t| - 1], ids, values, now).1;
      if note.Quiet? then front else front + [(t[|t| - 1].id, note)]
  }

  /** What one rule's listener gets to hear. */
  function For(id: string, ns: seq<(string, Note)>): seq<Note>
    decreases |ns|
  {
    if ns == [] then []
    else
      var front := For(id, ns[..|ns| - 1]);
      if ns[|ns| - 1].0 == id then front + [ns[|ns| - 1].1] else front
  }

  lemma {:induction false} NotesOfOthers(t: Table, ids: seq<string>, values: Row, now: int, id: string)
    requires |ids| == |values| && forall k :: 0 <= k < |t| ==> t[k].id != id
    ensures For(id, NotesOf(t, ids, values, now)) == []
    decreases |t|
  {
    if t != [] {
      var front := NotesOf(t[..|t| - 1], ids, values, now);
      NotesOfOthers(t[..|t| - 1], ids, values, now, id);
      var note := Judged(t[|t| - 1], ids, values, now).1;
      assert (front + [(t[|t| - 1].id, note)])[..|front|] == front;
    }
  }

  /** A rule is heard of at most once per evaluation, through its own note. */
  lemma {:induction false} OneNotePerRule(t: Table, ids: seq<string>, values: Row, now: int, i: nat)
    requires |ids| == |values| && i < |t|
    requires forall j, k :: 0 <= j < k < |t| ==> t[j].id != t[k].id
    ensures var note := Judged(t[i], ids, values, now).1;
            For(t[i].id, NotesOf(t, ids, values, now)) == if note.Quiet? then [] else [note]
    decreases |t|
  {
    var n := |t| - 1;
    var front := NotesOf(t[..n], ids, values, now);
    var last := (t[n].id, Judged(t[n], ids, values, now).1);
    assert (front + [last])[..|front|] == front;
    if i < n {
      OneNotePerRule(t[..n], ids, values, now, i);
    } else {
      NotesOfOthers(t[..n], ids, values, now, t[n].id);
    }
  }

  // ---------------------------------------------------------------- runs

  datatype Event = Evaluate(values: Row, now: int) | Apply(fields: Fields)

  /** A sample of the registry's metrics, or a request the program can answer. */
  predicate Acceptable(t: Table, ids: seq<string>, e: Event)
  {
    match e
    case Evaluate(values, _) => |values| == |ids|
    case Apply(f) => !Faults(t, f)
  }

  function After(t: Table, ids: seq<string>, e: Event): (Table, seq<(string, Note)>)
    requires Acceptable(t, ids, e)
  {
    match e
    case Evaluate(values, now) => (Evaluated(t, ids, values, now), NotesOf(t, ids, values, now))
    case Apply(f) => (Applied(t, f).0, [])
  }

  ghost predicate Possible(t: Table, ids: seq<string>, es: seq<Event>)
    decreases |es|
  {
    es == [] || (Acceptable(t, ids, es[0]) && Possible(After(t, ids, es[0]).0, ids, es[1..]))
  }

  /** The run never deletes the rule. */
  ghost predicate Spares(t: Table, ids: seq<string>, es: seq<Event>, id: string)
    requires Possible(t, ids, es)
    decreases |es|
  {
    es == [] ||
    (!(es[0].Apply? && Deletes(t, es[0].fields, id)) && Spares(After(t, ids, es[0]).0, ids, es[1..], id))
  }

  ghost function RunTable(t: Table, ids: seq<string>, es: seq<Event>): Table
    requires Possible(t, ids, es)
    decreases |es|
  {
    if es == [] then t
    else
      RunTable(After(t, ids, es[0]).0, ids, es[1..])
  }

  /** Everything the listener of one rule hears over a run. */
  ghost function Heard(t: Table, ids: seq<string>, es: seq<Event>, id: string): seq<Note>
    requires Possible(t, ids, es)
    decreases |es|
  {
    if es == [] then []
    else
      For(id, After(t, ids, es[0]).1) + Heard(After(t, ids, es[0]).0, ids, es[1..], id)
  }

  lemma {:induction false} AfterSound(t: Table, ids: seq<string>, e: Event)
    requires Sound(t) && Acceptable(t, ids, e)
    ensures Sound(After(t, ids, e).0)
  {
    if e.Apply? {
      AppliedSound(t, e.fields);
    }
  }

  /** Unique ids, ids that fit, and at most 64 rules, over every run. */
  lemma {:induction false} RunSound(t: Table, ids: seq<string>, es: seq<Event>)
    requires Sound(t) && Possible(t, ids, es)
    ensures Sound(RunTable(t, ids, es))
    decreases |es|
  {
    if es != [] {
      AfterSound(t, ids, es[0]);
      RunSound(After(t, ids, es[0]).0, ids, es[1..]);
    }
  }

  predicate FiringIn(t: Table, id: string) { HasRule(t, id) && t[FindRule(t, id)].runtime.firing }

  /** One event as the listener of a spared rule hears it: one note when the rule starts
      or stops firing, and nothing otherwise. */
  lemma {:induction false} AfterRule(t: Table, ids: seq<string>, e: Event, id: string)
    requires Sound(t) && Acceptable(t, ids, e) && HasRule(t, id) && !(e.Apply? && Deletes(t, e.fields, id))
    ensures var (s, ns) := After(t, ids, e);
            HasRule(s, id) && For(id, ns) == Change(FiringIn(t, id), FiringIn(s, id))
  {
    match e
    case Apply(f) => AppliedKeepsRule(t, f, id);
    case Evaluate(values, now) =>
      var i := FindRule(t, id);
      var s := Evaluated(t, ids, values, now);
      AfterSound(t, ids, e);
      assert s[i].id == id;
      FindUnique(s, i);
      OneNotePerRule(t, ids, values, now, i);
      NoteTellsChange(t[i].condition, t[i].runtime, Observation(now, SeenBy(t[i], ids, values)));
  }

  function Change(was: bool, now: bool): seq<Note>
  {
    if was == now then [] else [if was then Cleared else Fired]
  }

  lemma {:induction false} ChangeThen(was: bool, now: bool, rest: seq<Note>)
    requires Alternate(rest, now)
    ensures Alternate(Change(was, now) + rest, was)
    ensures (now != (|rest| % 2 == 1)) == (was != (|Change(was, now) + rest| % 2 == 1))
  {
    if was == now {
      assert [] + rest == rest;
    } else {
      assert (Change(was, now) + rest)[1..] == rest;
    }
  }

  /** Over every run of evaluations and edits that does not delete a rule, its listener
      hears fire and clear in strict alternation, beginning with a fire if the rule was
      not firing, and their number tells whether it is firing at the end. */
  lemma {:induction false} HeardAlternates(t: Table, ids: seq<string>, es: seq<Event>, id: string)
    requires Sound(t) && Possible(t, ids, es) && HasRule(t, id) && Spares(t, ids, es, id)
    ensures HasRule(RunTable(t, ids, es), id) && Alternate(Heard(t, ids, es, id), FiringIn(t, id))
    ensures FiringIn(RunTable(t, ids, es), id) == (FiringIn(t, id) != (|Heard(t, ids, es, id)| % 2 == 1))
    decreases |es|
  {
    hide After, HasRule, FiringIn, Sound, For, Deletes, Alternate, Change;
    if es != [] {
      var (s, ns) := After(t, ids, es[0]);
      AfterSound(t, ids, es[0]);
      AfterRule(t, ids, es[0], id);
      HeardAlternates(s, ids, es[1..], id);
      ChangeThen(FiringIn(t, id), FiringIn(s, id), Heard(s, ids, es[1..], id));
    } else {
      NothingHeard(FiringIn(t, id));
    }
  }

  lemma {:induction false} NothingHeard(firing: bool)
    ensures Alternate([], firing)
  {
  }

  // -------------------------------------------------------------- rebuilds

  lemma {:induction false} AlternateJoins(a: seq<Note>, b: seq<Note>, was: bool)
    requires Alternate(a, was) && Alternate(b, false)
    ensures Alternate(a + b, was) <==> b == [] || was == (|a| % 2 == 1)
    decreases |a|
  {
    if a == [] {
      assert a + b == b;
      if b != [] {
        assert b[0] == Fired;
      }
    } else {
      AlternateJoins(a[1..], b, !was);
      assert (a + b)[1..] == a[1..] + b && (a + b)[0] == a[0];
      if b == [] {
        assert a + b == a;
      }
    }
  }

  /** A rebuild throws the table away and constructs it anew, so a rule that was firing is
      forgotten without a clear. Over a run, a rebuild and a second run a listener hears
      fire and clear in turn if and only if the rule was not firing at the rebuild or is
      not heard of after it: else a second fire follows the first. */
  lemma {:induction false} RebuildBreaksIff(t: Table, ids: seq<string>, es: seq<Event>, id: string,
                                            saved: seq<SavedRule>, newIds: seq<string>, more: seq<Event>)
    requires Sound(t) && Possible(t, ids, es) && HasRule(t, id) && Spares(t, ids, es, id)
    requires var s := Constructed(saved, newIds);
             HasRule(s, id) && Possible(s, newIds, more) && Spares(s, newIds, more, id)
    ensures var after := Heard(Constructed(saved, newIds), newIds, more, id);
            Alternate(Heard(t, ids, es, id) + after, FiringIn(t, id)) <==>
              !FiringIn(RunTable(t, ids, es), id) || after == []
  {
    hide Alternate, Heard, RunTable, Spares, Possible, Constructed, Sound, HasRule;
    var s := Constructed(saved, newIds);
    ConstructionSound(saved, newIds);
    FreshIsQuiet(saved, newIds, id);
    HeardAlternates(t, ids, es, id);
    HeardAlternates(s, newIds, more, id);
    AlternateJoins(Heard(t, ids, es, id), Heard(s, newIds, more, id), FiringIn(t, id));
  }

  lemma {:induction false} FreshIsQuiet(saved: seq<SavedRule>, ids: seq<string>, id: string)
    ensures !FiringIn(Constructed(saved, ids), id)
  {
    if HasRule(Constructed(saved, ids), id) {
      ConstructedFresh(saved, ids, id);
    }
  }

  // ------------------------------------------- one rule through a whole run

  /** No change request names the rule. */
  ghost predicate Unedited(es: seq<Event>, id: string)
  {
    forall i :: 0 <= i < |es| ==> es[i].Apply? ==> es[i].fields.id != Some(id)
  }

  function ObservedOnce(r: AlertRule, ids: seq<string>, e: Event): seq<Observation>
  {
    if e.Evaluate? && |e.values| == |ids| then [Observation(e.now, SeenBy(r, ids, e.values))] else []
  }

  /** What a rule gets to see of a run. */
  ghost function Observed(r: AlertRule, ids: seq<string>, es: seq<Event>): seq<Observation>
    decreases |es|
  {
    if es == [] then []
    else
      ObservedOnce(r, ids, es[0]) + Observed(r, ids, es[1..])
  }

  function RuleIn(t: Table, id: string): AlertRule
    requires HasRule(t, id)
  {
    t[FindRule(t, id)]
  }

  lemma {:induction false} SameRuleAt(t: Table, s: Table, i: nat, k: nat)
    requires Sound(t) && Sound(s) && i < |t| && k < |s| && s[k] == t[i]
    ensures HasRule(s, t[i].id) && RuleIn(s, t[i].id) == t[i]
  {
    FindUnique(s, k);
  }

  lemma {:induction false} DeletedOther(t: Table, d: nat, i: nat)
    requires Sound(t) && d < |t| && i < |t| && i != d
    ensures HasRule(DeletedAt(t, d), t[i].id) && RuleIn(DeletedAt(t, d), t[i].id) == t[i]
  {
    DeletedSound(t, d);
    SameRuleAt(t, DeletedAt(t, d), i, if i < d then i else i - 1);
  }

  lemma {:induction false} SavedOther(t: Table, other: string, f: Fields, i: nat)
    requires Sound(t) && !SaveFaults(t, other) && i < |t| && other != t[i].id
    ensures var s := SaveRule(t, other, f).0; HasRule(s, t[i].id) && RuleIn(s, t[i].id) == t[i]
  {
    hide Sound, Edited;
    SaveSound(t, other, f);
    AddedSound(t, BlankRule(other));
    SameRuleAt(t, SaveRule(t, other, f).0, i, i);
  }

  lemma {:induction false} AppliedToOthers(t: Table, f: Fields, id: string)
    requires Sound(t) && !Faults(t, f) && HasRule(t, id) && f.id != Some(id)
    ensures var s := Applied(t, f).0; HasRule(s, id) && RuleIn(s, id) == RuleIn(t, id)
  {
    hide Sound, SaveRule, DeletedAt;
    if f.action.Some? && f.id.Some? {
      if f.action.value == "save" {
        SavedOther(t, f.id.value, f, FindRule(t, id));
      }
      if FindRule(t, f.id.value) >= 0 {
        DeletedOther(t, FindRule(t, f.id.value), FindRule(t, id));
      }
    }
  }

  lemma {:induction false} AfterUnedited(t: Table, ids: seq<string>, e: Event, id: string, h: seq<Observation>)
    requires Sound(t) && Acceptable(t, ids, e) && HasRule(t, id) && Unedited([e], id)
    requires RuleIn(t, id).runtime == Debounce.Run(RuleIn(t, id).condition, h)
    ensures var r := RuleIn(t, id);
            var s, o := After(t, ids, e).0, h + Observed(r, ids, [e]);
            HasRule(s, id) && RuleIn(s, id) == r.(runtime := Debounce.Run(r.condition, o))
  {
    assert [e][0] == e && [e][1..] == [];
    match e
    case Apply(f) =>
      AppliedToOthers(t, f, id);
      assert h + ([] + []) == h;
    case Evaluate(values, now) =>
      var i := FindRule(t, id);
      var s := Evaluated(t, ids, values, now);
      AfterSound(t, ids, e);
      assert s[i].id == id;
      FindUnique(s, i);
      var o := Observation(now, SeenBy(t[i], ids, values));
      assert (h + [o])[..|h|] == h && [o] + [] == [o];
  }

  /** A rule that no request names goes through any run of evaluations and edits of other
      rules exactly as the debounce machine goes through what the rule observes. */
  lemma {:induction false} UneditedRule(t: Table, ids: seq<string>, es: seq<Event>, id: string, h: seq<Observation>)
    requires Sound(t) && Possible(t, ids, es) && HasRule(t, id) && Unedited(es, id)
    requires RuleIn(t, id).runtime == Debounce.Run(RuleIn(t, id).condition, h)
    ensures var r, s := RuleIn(t, id), RunTable(t, ids, es);
            HasRule(s, id) && RuleIn(s, id) == r.(runtime := Debounce.Run(r.condition, h + Observed(r, ids, es)))
    decreases |es|
  {
    hide After, Sound, HasRule, RuleIn, Observed, Acceptable, Debounce.Run;
    var r := RuleIn(t, id);
    if es != [] {
      var s := After(t, ids, es[0]).0;
      AfterSound(t, ids, es[0]);
      AfterUnedited(t, ids, es[0], id, h);
      var seen := Observed(r, ids, [es[0]]);
      UneditedRule(s, ids, es[1..], id, h + seen);
      ObservedSplits(r, RuleIn(s, id), ids, es);
      Grouped(h, seen, Observed(r, ids, es[1..]));
    } else {
      NothingObserved(r, ids);
      assert h + [] == h;
    }
  }

  lemma {:induction false} NothingObserved(r: AlertRule, ids: seq<string>)
    ensures Observed(r, ids, []) == []
  {
  }

  lemma {:induction false} Grouped<T>(a: seq<T>, b: seq<T>, c: seq<T>)
    ensures a + b + c == a + (b + c)
  {
  }

  lemma {:induction false} ObservedSplits(r: AlertRule, q: AlertRule, ids: seq<string>, es: seq<Event>)
    requires es != [] && q == r.(runtime := q.runtime)
    ensures Observed(r, ids, es) == Observed(r, ids, [es[0]]) + Observed(r, ids, es[1..])
    ensures Observed(q, ids, es[1..]) == Observed(r, ids, es[1..])
  {
    var one := ObservedOnce(r, ids, es[0]);
    assert [es[0]][1..] == [];
    assert one + [] == one;
    ObservedSame(r, q, ids, es[1..]);
  }

  lemma {:induction false} ObservedSame(r: AlertRule, q: AlertRule, ids: seq<string>, es: seq<Event>)
    requires q == r.(runtime := q.runtime)
    ensures Observed(q, ids, es) == Observed(r, ids, es)
    decreases |es|
  {
    if es != [] {
      ObservedSame(r, q, ids, es[1..]);
    }
  }

  lemma {:induction false} LoadedFresh(saved: seq<SavedRule>)
    ensures forall r :: r in Loaded(saved) ==> r.runtime == INITIAL
    decreases |saved|
  {
    if saved != [] {
      LoadedFresh(saved[..|saved| - 1]);
    }
  }

  lemma {:induction false} WithStorageFresh(t: Table, ids: seq<string>)
    requires forall r :: r in t ==> r.runtime == INITIAL
    ensures forall r :: r in WithStorage(t, ids) ==> r.runtime == INITIAL
    decreases |ids|
  {
    if ids != [] {
      WithStorageFresh(t, ids[..|ids| - 1]);
    }
  }

  lemma {:induction false} WithBuiltinsFresh(t: Table, ids: seq<string>, defaults: seq<AlertRule>)
    requires forall r :: r in t || r in defaults ==> r.runtime == INITIAL
    ensures forall r :: r in WithBuiltins(t, ids, defaults) ==> r.runtime == INITIAL
    decreases |defaults|
  {
    if defaults != [] {
      WithBuiltinsFresh(t, ids, defaults[..|defaults| - 1]);
    }
  }

  lemma {:induction false} ConstructedFresh(saved: seq<SavedRule>, ids: seq<string>, id: string)
    requires HasRule(Constructed(saved, ids), id)
    ensures RuleIn(Constructed(saved, ids), id).runtime == INITIAL
  {
    var a := WithStorage(Loaded(saved), ids);
    LoadedFresh(saved);
    WithStorageFresh(Loaded(saved), ids);
    WithBuiltinsFresh(a, ids, BUILTIN);
    PrunedKeeps(WithBuiltins(a, ids, BUILTIN), Expected(ids));
    assert RuleIn(Constructed(saved, ids), id) in Constructed(saved, ids);
  }

  /** From a start on, a rule nobody edits is firing exactly when a run of breaches it
      observed lasted for its duration and no good reading came after it. */
  lemma {:induction false} TableFiresIff(saved: seq<SavedRule>, ids: seq<string>, es: seq<Event>, id: string)
    requires Possible(Constructed(saved, ids), ids, es) && HasRule(Constructed(saved, ids), id) && Unedited(es, id)
    requires Clocked(Observed(RuleIn(Constructed(saved, ids), id), ids, es))
    ensures var r := RuleIn(Constructed(saved, ids), id);
            FiringIn(RunTable(Constructed(saved, ids), ids, es), id) <==> ShouldFire(r.condition, Observed(r, ids, es))
  {
    hide Constructed, Clocked, ShouldFire, Observed, RunTable;
    var t := Constructed(saved, ids);
    var r := RuleIn(t, id);
    ConstructionSound(saved, ids);
    ConstructedFresh(saved, ids, id);
    UneditedRule(t, ids, es, id, []);
    assert [] + Observed(r, ids, es) == Observed(r, ids, es);
    FiringIff(r.condition, Observed(r, ids, es));
  }

  // ------------------------------------------------- a rule that fires twice

  /** Two samples of a breach, the duration of the rule apart. */
  function BreachRun(row: Row, now: int, duration: nat): seq<Event>
  {
    [Evaluate(row, now), Evaluate(row, now + duration)]
  }

  /** The rule is on and the row breaches it. */
  predicate Breaches(r: AlertRule, ids: seq<string>, row: Row)
    requires |row| == |ids|
  {
    var i := Find(ids, r.metric);
    r.enabled && i >= 0 && row[i].Present? && Breach(r.condition, row[i].value)
  }

  lemma {:induction false} AtMostOneNoteEach(t: Table, ids: seq<string>, es: seq<Event>, id: string)
    requires Sound(t) && Possible(t, ids, es) && HasRule(t, id) && Spares(t, ids, es, id)
    ensures |Heard(t, ids, es, id)| <= |es|
    decreases |es|
  {
    if es != [] {
      hide After, HasRule, FiringIn, Sound, For, Deletes;
      AfterSound(t, ids, es[0]);
      AfterRule(t, ids, es[0], id);
      AtMostOneNoteEach(After(t, ids, es[0]).0, ids, es[1..], id);
    }
  }

  lemma {:induction false} BreachRunPossible(t: Table, ids: seq<string>, row: Row, now: int, d: nat, id: string)
    requires |row| == |ids|
    ensures var es := BreachRun(row, now, d);
            Possible(t, ids, es) && Spares(t, ids, es, id) && Unedited(es, id)
  {
    hide After, Deletes;
    var es := BreachRun(row, now, d);
    var s := After(t, ids, es[0]).0;
    assert es[1..] == [es[1]] && es[1..][1..] == [];
    assert Possible(s, ids, es[1..]);
    assert Spares(s, ids, es[1..], id);
  }

  lemma {:induction false} BreachRunSeen(r: AlertRule, ids: seq<string>, row: Row, now: int)
    requires |row| == |ids| && Breaches(r, ids, row) && now > 0
    ensures var h := Observed(r, ids, BreachRun(row, now, r.condition.duration));
            Clocked(h) && ShouldFire(r.condition, h)
  {
    var d := r.condition.duration;
    var es := BreachRun(row, now, d);
    var seen := SeenBy(r, ids, row);
    assert es[1..] == [es[1]] && es[1..][1..] == [];
    assert Observed(r, ids, es[1..]) == [Observation(now + d, seen)] + [];
    var h := Observed(r, ids, es);
    assert h == [Observation(now, seen), Observation(now + d, seen)];
    assert LastedAt(r.condition, h, 0, 1) && NotClearedAfter(r.condition, h, 1);
  }

  /** A fresh rule fires over such a run. */
  lemma {:induction false} BreachRunEnds(t: Table, ids: seq<string>, row: Row, now: int, id: string)
    requires Sound(t) && HasRule(t, id) && |row| == |ids| && now > 0
    requires RuleIn(t, id).runtime == INITIAL && Breaches(RuleIn(t, id), ids, row)
    ensures var es := BreachRun(row, now, RuleIn(t, id).condition.duration);
            Possible(t, ids, es) && Spares(t, ids, es, id) && FiringIn(RunTable(t, ids, es), id)
  {
    var r := RuleIn(t, id);
    var es := BreachRun(row, now, r.condition.duration);
    BreachRunPossible(t, ids, row, now, r.condition.duration, id);
    BreachRunSeen(r, ids, row, now);
    FreshRuntime(r.condition);
    hide BreachRun, Possible, Spares, Observed, ShouldFire, Clocked, RunTable, Sound, HasRule, Debounce.Run, Breaches;
    UneditedRule(t, ids, es, id, []);
    assert [] + Observed(r, ids, es) == Observed(r, ids, es);
    FiringIff(r.condition, Observed(r, ids, es));
  }

  lemma {:induction false} FreshRuntime(c: Condition)
    ensures Debounce.Run(c, []) == INITIAL
  {
  }

  lemma {:induction false} OneNote(ns: seq<Note>)
    requires Alternate(ns, false) && |ns| <= 2 && |ns| % 2 == 1
    ensures ns == [Fired]
  {
  }

  /** And is heard of just once. */
  lemma {:induction false} BreachRunFires(t: Table, ids: seq<string>, row: Row, now: int, id: string)
    requires Sound(t) && HasRule(t, id) && |row| == |ids| && now > 0
    requires RuleIn(t, id).runtime == INITIAL && Breaches(RuleIn(t, id), ids, row)
    ensures var es := BreachRun(row, now, RuleIn(t, id).condition.duration);
            Possible(t, ids, es) && Spares(t, ids, es, id) && Heard(t, ids, es, id) == [Fired]
  {
    var es := BreachRun(row, now, RuleIn(t, id).condition.duration);
    BreachRunLength(row, now, RuleIn(t, id).condition.duration);
    BreachRunEnds(t, ids, row, now, id);
    assert !FiringIn(t, id);
    hide BreachRun, Possible, Spares, Heard, RunTable, Sound, HasRule, FiringIn, Breaches, Alternate;
    HeardAlternates(t, ids, es, id);
    AtMostOneNoteEach(t, ids, es, id);
    OneNote(Heard(t, ids, es, id));
  }

  lemma {:induction false} BreachRunLength(row: Row, now: int, d: nat)
    ensures |BreachRun(row, now, d)| == 2
  {
  }

  /** Any rule of a device, breached for its duration, then a rebuild with the same rules and
      metrics, then the breach again: the listener hears two fires and no clear. */
  lemma {:induction false} RefiresAfterRebuild(saved: seq<SavedRule>, ids: seq<string>, row: Row, now: int, id: string)
    requires HasRule(Constructed(saved, ids), id) && |row| == |ids| && now > 0
    requires Breaches(RuleIn(Constructed(saved, ids), id), ids, row)
    ensures var t := Constructed(saved, ids);
            var es := BreachRun(row, now, RuleIn(t, id).condition.duration);
            && Possible(t, ids, es) && Spares(t, ids, es, id) && Heard(t, ids, es, id) == [Fired]
            && !Alternate(Heard(t, ids, es, id) + Heard(t, ids, es, id), FiringIn(t, id))
  {
    hide Constructed, Possible, Spares, Heard, BreachRun, Sound, Breaches;
    ConstructionSound(saved, ids);
    ConstructedFresh(saved, ids, id);
    BreachRunFires(Constructed(saved, ids), ids, row, now, id);
    assert ([Fired] + [Fired])[1..] == [Fired];
  }

  /** For one, the CPU rule of a device that has no other metric, at 95 percent. */
  lemma {:induction false} CpuHighRefires()
    ensures var ids, row := ["cpu.usage"], [Present(95.0)];
            var t := Constructed([], ids);
            var es := BreachRun(row, 1000, 300);
            && HasRule(t, "cpu_high") && Possible(t, ids, es) && Spares(t, ids, es, "cpu_high")
            && Heard(t, ids, es, "cpu_high") == [Fired]
            && !Alternate(Heard(t, ids, es, "cpu_high") + Heard(t, ids, es, "cpu_high"), false)
  {
    OnlyCpuRule();
    var ids, row := ["cpu.usage"], [Present(95.0)];
    var t := Constructed([], ids);
    assert RuleIn(t, "cpu_high") == BUILTIN[0];
    assert Find(ids, "cpu.usage") == 0;
    hide Constructed, Possible, Spares, Heard, BreachRun;
    RefiresAfterRebuild([], ids, row, 1000, "cpu_high");
  }

  lemma {:induction false} OnlyCpuRule()
    ensures Constructed([], ["cpu.usage"]) == [BUILTIN[0]]
  {
    var ids := ["cpu.usage"];
    assert ids[..0] == [] && BUILTIN[..3] == BUILTIN;
    assert "cpu.usage"[..3] == "cpu";
    assert !IsFilesystemUsage("cpu.usage");
    assert WithStorage([], ids) == [];
    assert Find(ids, "mem.usage") < 0 && Find(ids, "sensor.CPU") < 0;
    WithBuiltinsStep([], ids, 0);
    WithBuiltinsStep([], ids, 1);
    WithBuiltinsStep([], ids, 2);
    assert "cpu_high" in Expected(ids) by {
      assert BUILTIN[0] in BUILTIN;
    }
    assert Pruned([BUILTIN[0]], Expected(ids)) == [] + [BUILTIN[0]];
  }

  lemma {:induction false} WithBuiltinsStep(t: Table, ids: seq<string>, k: nat)
    requires k < |BUILTIN|
    ensures var before := WithBuiltins(t, ids, BUILTIN[..k]);
            WithBuiltins(t, ids, BUILTIN[..k + 1]) ==
            if FindRule(before, BUILTIN[k].id) >= 0 || Find(ids, BUILTIN[k].metric) < 0 then before
            else Added(before, BUILTIN[k])
  {
    hide FindRule, Added;
    assert BUILTIN[..k + 1][..k] == BUILTIN[..k];
  }
}
