/** The alert rules as the program keeps them: a fixed table of 64 slots, compacted and
    shifted in place. */
module Alerts {
  import opened Samples
  import opened Debounce
  import opened Registry
  import opened RuleTable
  import opened AlertRuns
  import E = AlertEffects
  import F = Forms
  import L = Layout

  /** How the text of a field is read as a number. */
  datatype Numbers = Numbers(threshold: string -> real, duration: string -> nat)

  function FieldIn(body: string, name: string): Option<string>
  {
    F.Lookup(F.AfterPath(body), name)
  }

  /** The change request a form body stands for. */
  function FieldsIn(body: string, numbers: Numbers): Fields
  {
    var threshold, duration := FieldIn(body, "threshold"), FieldIn(body, "duration");
    Fields(FieldIn(body, "action"), FieldIn(body, "id"), FieldIn(body, "name"), FieldIn(body, "metric"),
           FieldIn(body, "op"), if threshold.None? then None else Some(numbers.threshold(threshold.value)),
           if duration.None? then None else Some(numbers.duration(duration.value)), FieldIn(body, "enabled"))
  }

  class Alerts {
    const registry: MetricRegistry
    const rules: array<AlertRule>
    var count: nat

    ghost predicate Valid()
      reads this, registry
    {
      registry.Valid() && rules.Length == MAX_RULES && count <= MAX_RULES
    }

    ghost function Table(): Table
      requires Valid()
      reads this, registry, rules
    {
      rules[..count]
    }

    /** The table a fresh process builds from the saved rules and the registry. */
    constructor (registry: MetricRegistry, saved: seq<SavedRule>)
      requires registry.Valid()
      ensures Valid() && this.registry == registry && fresh(rules)
      ensures Table() == Constructed(saved, registry.Ids())
    {
      this.registry := registry;
      rules := new AlertRule[MAX_RULES](_ => AlertRule("", "", "", Condition(Above, 0.0, 0), false, false, INITIAL));
      count := 0;
      new;
      hide Constructed;
      Construct(saved);
    }

    /** Fills the empty table: saved rules, space rules, defaults, and what is stale out again. */
    method Construct(saved: seq<SavedRule>)
      requires Valid() && Table() == []
      modifies this`count, rules
      ensures Valid() && Table() == Constructed(saved, registry.Ids())
    {
      hide Loaded, WithStorage, WithBuiltins, Pruned, Expected, Table, MetricRegistry.Ids;
      LoadRules(saved);
      var expected := AddStorageRules();
      AddBuiltins();
      PruneStaleBuiltins(expected);
    }

    method FindRule(id: string) returns (index: int)
      requires Valid()
      ensures index == RuleTable.FindRule(Table(), id)
    {
      var i := 0;
      while i < count
        invariant i <= count
        invariant forall k :: 0 <= k < i ==> rules[k].id != id
      {
        if rules[i].id == id {
          FirstRule(Table(), id, i);
          return i;
        }
        i := i + 1;
      }
      return -1;
    }

    method AddRule(source: AlertRule) returns (ok: bool)
      requires Valid()
      modifies this`count, rules
      ensures Valid() && Table() == Added(old(Table()), source)
      ensures ok <==> old(count) < MAX_RULES && !HasRule(old(Table()), source.id)
    {
      var existing := FindRule(source.id);
      if count >= MAX_RULES || existing >= 0 {
        return false;
      }
      rules[count] := source;
      count := count + 1;
      return true;
    }

    method LoadRules(saved: seq<SavedRule>)
      requires Valid() && Table() == []
      modifies this`count, rules
      ensures Valid() && Table() == Loaded(saved)
    {
      hide RuleTable.FindRule, Added, FromSaved;
      var i := 0;
      while i < |saved| && count < MAX_RULES
        invariant i <= |saved| && Valid()
        invariant Table() == Loaded(saved[..i])
      {
        assert saved[..i + 1][..i] == saved[..i];
        var rule := FromSaved(saved[i]);
        if rule.metric != "" {
          var _ := AddRule(rule);
        }
        i := i + 1;
      }
      FullTableLoaded(saved, i);
      assert saved[..|saved|] == saved;
    }

    /** The ids of the default rules whose metric the device has. */
    method ExpectedDefaults() returns (expected: set<string>)
      requires Valid()
      ensures expected == set r | r in BUILTIN && r.metric in registry.Ids() :: r.id
    {
      expected := {};
      var b := 0;
      while b < |BUILTIN|
        invariant b <= |BUILTIN|
        invariant expected == set r | r in BUILTIN[..b] && r.metric in registry.Ids() :: r.id
      {
        var index := registry.MetricsFind(BUILTIN[b].metric);
        if index >= 0 {
          expected := expected + {BUILTIN[b].id};
        }
        assert BUILTIN[..b + 1] == BUILTIN[..b] + [BUILTIN[b]];
        b := b + 1;
      }
      assert BUILTIN[..b] == BUILTIN;
    }

    /** One space rule per filesystem; returns the ids of the built-ins that belong here. */
    method AddStorageRules() returns (expected: set<string>)
      requires Valid()
      modifies this`count, rules
      ensures Valid() && Table() == WithStorage(old(Table()), registry.Ids())
      ensures expected == Expected(registry.Ids())
    {
      hide Table, WithSpaceRule, IsFilesystemUsage, StorageRuleId, StorageIds, MetricRegistry.Ids;
      ghost var ids, before := registry.Ids(), Table();
      expected := ExpectedDefaults();
      ghost var defaults := expected;
      NoStorage(before, ids);
      var i := 0;
      while i < registry.count
        invariant i <= registry.count == |ids| && Valid() && registry.Ids() == ids
        invariant Table() == WithStorage(before, ids[..i])
        invariant expected == defaults + StorageIds(ids[..i])
      {
        assert ids[..i + 1][..i] == ids[..i];
        StorageIdsNext(ids, i);
        var id := IdAt(i);
        AddSpaceRule(id);
        if IsFilesystemUsage(id) {
          expected := expected + {StorageRuleId(id)};
        }
        i := i + 1;
      }
      assert ids[..i] == ids;
    }

    method IdAt(i: nat) returns (id: string)
      requires Valid() && i < registry.count
      ensures id == registry.Ids()[i]
    {
      id := registry.defs[i].id;
    }

    /** The space rule of one filesystem, unless there is a rule of its id. */
    method AddSpaceRule(id: string)
      requires Valid()
      modifies this`count, rules
      ensures Valid() && Table() == WithSpaceRule(old(Table()), id)
    {
      if IsFilesystemUsage(id) {
        var existing := FindRule(StorageRuleId(id));
        if existing < 0 {
          var _ := AddRule(StorageRule(id));
        }
      }
    }

    method AddBuiltins()
      requires Valid()
      modifies this`count, rules
      ensures Valid() && Table() == WithBuiltins(old(Table()), registry.Ids(), BUILTIN)
    {
      hide RuleTable.FindRule, Added, Find, MetricRegistry.Ids;
      ghost var ids := registry.Ids();
      var b := 0;
      while b < |BUILTIN|
        invariant b <= |BUILTIN| && Valid() && registry.Ids() == ids
        invariant Table() == WithBuiltins(old(Table()), ids, BUILTIN[..b])
      {
        assert BUILTIN[..b + 1][..b] == BUILTIN[..b];
        var existing := FindRule(BUILTIN[b].id);
        if existing < 0 {
          var index := registry.MetricsFind(BUILTIN[b].metric);
          if index >= 0 {
            var _ := AddRule(BUILTIN[b]);
          }
        }
        b := b + 1;
      }
      assert BUILTIN[..b] == BUILTIN;
    }

    /** Drops, in place, the built-ins that the device does not call for. */
    method PruneStaleBuiltins(expected: set<string>)
      requires Valid()
      modifies this`count, rules
      ensures Valid() && Table() == Pruned(old(Table()), expected)
    {
      ghost var before := Table();
      var kept, i := 0, 0;
      while i < count
        invariant kept <= i <= count == old(count)
        invariant rules[..kept] == Pruned(before[..i], expected)
        invariant forall k :: i <= k < count ==> rules[k] == before[k]
      {
        assert before[..i + 1][..i] == before[..i];
        var rule := rules[i];
        if Kept(rule, expected) {
          rules[kept] := rule;
          kept := kept + 1;
        }
        i := i + 1;
      }
      count := kept;
      assert before[..i] == before;
    }

    /** Judges every rule by one sample; returns the notifications sent. */
    method Evaluate(values: Row, now: int) returns (sent: seq<(string, Note)>)
      requires Valid() && |values| == registry.count
      modifies rules
      ensures Valid() && Table() == Evaluated(old(Table()), registry.Ids(), values, now)
      ensures sent == NotesOf(old(Table()), registry.Ids(), values, now)
    {
      hide Judged, MetricRegistry.Ids;
      ghost var before, ids := Table(), registry.Ids();
      sent := [];
      var i := 0;
      while i < count
        invariant i <= count && Valid() && registry.Ids() == ids
        invariant forall k :: 0 <= k < i ==> rules[k] == Judged(before[k], ids, values, now).0
        invariant forall k :: i <= k < count ==> rules[k] == before[k]
        invariant sent == NotesOf(before[..i], ids, values, now)
      {
        assert before[..i + 1][..i] == before[..i];
        var note := EvaluateRule(i, values, now);
        if !note.Quiet? {
          sent := sent + [(rules[i].id, note)];
        }
        i := i + 1;
      }
      assert before[..i] == before;
    }

    method EvaluateRule(i: nat, values: Row, now: int) returns (note: Note)
      requires Valid() && i < count && |values| == registry.count
      modifies rules
      ensures Valid() && rules[..] == old(rules[..])[i := Judged(old(rules[i]), registry.Ids(), values, now).0]
      ensures note == Judged(old(rules[i]), registry.Ids(), values, now).1
    {
      var r := rules[i];
      var index := registry.MetricsFind(r.metric);
      if index < 0 || !r.enabled {
        rules[i] := r.(runtime := r.runtime.(breachSince := 0));
        return Quiet;
      }
      var reading := values[index];
      if reading.Absent? {
        rules[i] := r.(runtime := r.runtime.(breachSince := 0));
        return Quiet;
      }
      var runtime := r.runtime.(lastValue := reading.value);
      note := Quiet;
      if !Breach(r.condition, reading.value) {
        runtime := runtime.(breachSince := 0);
        if runtime.firing {
          runtime := runtime.(firing := false);
          note := Cleared;
        }
      } else {
        if runtime.breachSince == 0 {
          runtime := runtime.(breachSince := now);
        }
        if !runtime.firing && now - runtime.breachSince >= r.condition.duration {
          runtime := runtime.(firing := true, firedAt := now);
          note := Fired;
        }
      }
      rules[i] := r.(runtime := runtime);
    }

    /** Applies the change request of a form body. */
    method ApplyForm(body: string, numbers: Numbers) returns (changed: bool)
      requires Valid() && !Faults(Table(), FieldsIn(body, numbers))
      modifies this`count, rules
      ensures Valid() && (Table(), changed) == Applied(old(Table()), FieldsIn(body, numbers))
    {
      hide F.Lookup, F.AfterPath, Applied;
      var action := F.ApiQueryParam(Some(body), "action");
      var id := F.ApiQueryParam(Some(body), "id");
      if action.None? || id.None? {
        NoRequest(Table(), FieldsIn(body, numbers));
        return false;
      }
      var name := F.ApiQueryParam(Some(body), "name");
      var metric := F.ApiQueryParam(Some(body), "metric");
      var op := F.ApiQueryParam(Some(body), "op");
      var threshold := F.ApiQueryParam(Some(body), "threshold");
      var duration := F.ApiQueryParam(Some(body), "duration");
      var enabled := F.ApiQueryParam(Some(body), "enabled");
      changed := Apply(Fields(
        action, id, name, metric, op, if threshold.None? then None else Some(numbers.threshold(threshold.value)),
        if duration.None? then None else Some(numbers.duration(duration.value)), enabled));
    }

    /** Applies one change request; says whether anything changed. */
    method Apply(f: Fields) returns (changed: bool)
      requires Valid() && !Faults(Table(), f)
      modifies this`count, rules
      ensures Valid() && (Table(), changed) == Applied(old(Table()), f)
    {
      if f.action.None? || f.id.None? {
        return false;
      }
      if f.action.value == "delete" {
        changed := Delete(f.id.value);
      } else if f.action.value == "save" {
        changed := Save(f.id.value, f);
      } else {
        changed := false;
      }
    }

    /** Closes the gap of a deleted rule. */
    method Delete(id: string) returns (changed: bool)
      requires Valid()
      modifies this`count, rules
      ensures Valid() && (Table(), changed) == DeleteRule(old(Table()), id)
    {
      hide RuleTable.FindRule, DeletedAt;
      var index := FindRule(id);
      if index < 0 || rules[index].builtin {
        return false;
      }
      CloseGap(index);
      return true;
    }

    /** Moves the rules behind one down by one place. */
    method CloseGap(index: nat)
      requires Valid() && index < count
      modifies this`count, rules
      ensures Valid() && Table() == DeletedAt(old(Table()), index)
    {
      ghost var before := Table();
      forall k | index <= k < count - 1 {
        rules[k] := rules[k + 1];
      }
      count := count - 1;
      assert rules[..index] == before[..index];
      assert rules[index..count] == before[index + 1..];
      assert rules[..count] == rules[..index] + rules[index..count];
    }

    method Save(id: string, f: Fields) returns (changed: bool)
      requires Valid() && !SaveFaults(Table(), id)
      modifies this`count, rules
      ensures Valid() && (Table(), changed) == SaveRule(old(Table()), id, f)
    {
      hide Edited, BlankRule;
      var index := FindRule(id);
      if index < 0 {
        var ok := AddRule(BlankRule(id));
        if !ok {
          return false;
        }
        AddedFound(old(Table()), BlankRule(id));
        index := FindRule(id);
      }
      hide SaveFaults, Added, RuleTable.FindRule;
      EditRule(index, f);
      return true;
    }

    static method EditCondition(condition: Condition, f: Fields) returns (c: Condition)
      ensures c == EditedCondition(condition, f)
    {
      c := condition;
      if f.op.Some? {
        c := c.(op := OpFrom(f.op));
      }
      if f.threshold.Some? {
        c := c.(threshold := f.threshold.value);
      }
      if f.duration.Some? {
        c := c.(duration := f.duration.value);
      }
    }

    method EditRule(i: nat, f: Fields)
      requires Valid() && i < count
      modifies rules
      ensures rules[..] == old(rules[..])[i := Edited(old(rules[i]), f)]
    {
      hide L.Truncated, EditedCondition;
      var r := rules[i];
      if f.name.Some? {
        r := r.(name := L.Truncated(f.name.value, RULE_NAME_MAX));
      }
      if f.metric.Some? && !r.builtin {
        r := r.(metric := L.Truncated(f.metric.value, L.METRIC_ID_MAX));
      }
      var condition := EditCondition(r.condition, f);
      r := r.(condition := condition);
      if f.enabled.Some? {
        r := r.(enabled := f.enabled.value == "yes");
      }
      if r.name == "" {
        r := r.(name := L.Truncated(r.id, RULE_NAME_MAX));
      }
      rules[i] := r;
    }
  }

  lemma {:induction false} FirstRule(t: Table, id: string, i: nat)
    requires i < |t| && t[i].id == id && forall k :: 0 <= k < i ==> t[k].id != id
    ensures RuleTable.FindRule(t, id) == i
  {
  }

  lemma {:induction false} NoStorage(t: Table, ids: seq<string>)
    ensures WithStorage(t, ids[..0]) == t && StorageIds(ids[..0]) == {}
  {
  }

  lemma {:induction false} AddedFound(t: Table, r: AlertRule)
    requires |t| < MAX_RULES && !HasRule(t, r.id)
    ensures RuleTable.FindRule(Added(t, r), r.id) == |t|
  {
    assert (t + [r])[|t|] == r;
  }

  /** A full table takes no more of the saved rules. */
  lemma {:induction false} FullTableLoaded(saved: seq<SavedRule>, n: nat)
    requires n <= |saved| && (n == |saved| || |Loaded(saved[..n])| >= MAX_RULES)
    ensures Loaded(saved) == Loaded(saved[..n])
    decreases |saved|
  {
    if n == |saved| {
      assert saved[..n] == saved;
    } else {
      var front := saved[..|saved| - 1];
      assert front[..n] == saved[..n];
      FullTableLoaded(front, n);
    }
  }

  lemma {:induction false} NoRequest(t: Table, f: Fields)
    requires f.action.None? || f.id.None?
    ensures !Faults(t, f) && Applied(t, f) == (t, false)
  {
  }

  /** Every field of a written form, in any encoding and order, comes to its own place. */
  lemma {:induction false} FieldsOfForm(fs: seq<F.Field>, numbers: Numbers)
    requires forall k :: 0 <= k < |fs| ==> F.Written(fs[k])
    ensures var f := FieldsIn(F.FormText(fs), numbers);
            && f.action == F.FirstValue(fs, "action") && f.id == F.FirstValue(fs, "id")
            && f.name == F.FirstValue(fs, "name") && f.metric == F.FirstValue(fs, "metric")
            && f.op == F.FirstValue(fs, "op") && f.enabled == F.FirstValue(fs, "enabled")
            && (f.threshold == match F.FirstValue(fs, "threshold")
                               case None => None case Some(v) => Some(numbers.threshold(v)))
            && (f.duration == match F.FirstValue(fs, "duration")
                              case None => None case Some(v) => Some(numbers.duration(v)))
  {
    FieldOfForm(fs, "action");
    FieldOfForm(fs, "id");
    FieldOfForm(fs, "name");
    FieldOfForm(fs, "metric");
    FieldOfForm(fs, "op");
    FieldOfForm(fs, "threshold");
    FieldOfForm(fs, "duration");
    FieldOfForm(fs, "enabled");
    hide FieldIn, F.FormText, F.FirstValue, F.Written;
  }

  lemma {:induction false} FieldOfForm(fs: seq<F.Field>, name: string)
    requires forall k :: 0 <= k < |fs| ==> F.Written(fs[k])
    ensures FieldIn(F.FormText(fs), name) == F.FirstValue(fs, name)
  {
    hide F.Lookup, F.Written, F.AfterPath;
    F.LookupInvertsEncoding(None, fs, name);
    assert "" + F.FormText(fs) == F.FormText(fs);
  }

  /** So a save request sets the threshold, the duration, the direction and the switch that
      stand in its form, of the rule that it names. */
  lemma {:induction false} SaveFormSaves(t: Table, fs: seq<F.Field>, id: string, numbers: Numbers)
    requires Sound(t) && forall k :: 0 <= k < |fs| ==> F.Written(fs[k])
    requires F.FirstValue(fs, "action") == Some("save") && F.FirstValue(fs, "id") == Some(id)
    requires |id| < 48 && (HasRule(t, id) || |t| < 64)
    ensures var f := FieldsIn(F.FormText(fs), numbers);
            && !Faults(t, f) && Applied(t, f).1 && HasRule(Applied(t, f).0, id)
            && (var r := RuleIn(Applied(t, f).0, id);
                && (forall v :: F.FirstValue(fs, "threshold") == Some(v) ==>
                      r.condition.threshold == numbers.threshold(v))
                && (forall v :: F.FirstValue(fs, "duration") == Some(v) ==> r.condition.duration == numbers.duration(v))
                && (forall v :: F.FirstValue(fs, "op") == Some(v) ==> (r.condition.op.Below? <==> v == "below"))
                && (forall v :: F.FirstValue(fs, "enabled") == Some(v) ==> (r.enabled <==> v == "yes")))
  {
    FieldsOfForm(fs, numbers);
    hide FieldsIn, F.FormText, F.FirstValue, F.Written, Applied, Faults, Sound, HasRule;
    E.SaveTakesEffect(t, FieldsIn(F.FormText(fs), numbers), id);
  }

  /** A delete request in any encoding, its fields in any order and among any others,
      deletes exactly the user rule it names. */
  lemma {:induction false} DeleteFormDeletes(t: Table, fs: seq<F.Field>, a: nat, i: nat, numbers: Numbers)
    requires forall k :: 0 <= k < |fs| ==> F.Written(fs[k])
    requires a < |fs| && fs[a].name == "action" && fs[a].value == "delete"
    requires i < |fs| && fs[i].name == "id" && '\0' !in fs[i].value
    requires forall k :: 0 <= k < a ==> fs[k].name != "action"
    requires forall k :: 0 <= k < i ==> fs[k].name != "id"
    ensures !Faults(t, FieldsIn(F.FormText(fs), numbers))
    ensures Applied(t, FieldsIn(F.FormText(fs), numbers)) == DeleteRule(t, fs[i].value)
  {
    hide F.Lookup, F.AfterPath, F.Written, F.FormText, DeleteRule;
    F.ValueComesBackIff(fs, a);
    F.ValueComesBackIff(fs, i);
  }
}
