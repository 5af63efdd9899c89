/** The table of alert rules: how it is built at a start, what edits may do to it, and
    what an evaluation of all rules sends out. */
module RuleTable {
  import opened Samples
  import opened Debounce
  import opened Registry
  import opened Text
  import L = Layout

  const MAX_RULES: nat := 64
  const RULE_ID_MAX: nat := 48
  const RULE_NAME_MAX: nat := 96

  datatype AlertRule = AlertRule(
    id: string, name: string, metric: string, condition: Condition, enabled: bool, builtin: bool, runtime: Runtime)

  type Table = seq<AlertRule>

  const BUILTIN: seq<AlertRule> := [
    AlertRule("cpu_high", "CPU usage high", "cpu.usage", Condition(Above, 90.0, 300), true, true, INITIAL),
    AlertRule("memory_high", "Memory usage high", "mem.usage", Condition(Above, 90.0, 300), true, true, INITIAL),
    AlertRule("temperature_high", "Temperature high", "sensor.CPU", Condition(Above, 85.0, 120), true, true, INITIAL)
  ]

  function OpFrom(name: Option<string>): Op
  {
    if name == Some("below") then Below else Above
  }

  // ------------------------------------------------------------ the table

  /** find_rule: the first rule with the id, or -1. */
  function FindRule(t: Table, id: string): (i: int)
    ensures -1 <= i < |t|
    ensures i >= 0 ==> t[i].id == id && forall k :: 0 <= k < i ==> t[k].id != id
    ensures i < 0 ==> forall k :: 0 <= k < |t| ==> t[k].id != id
  {
    if t == [] then -1
    else if t[0].id == id then 0
    else
      var rest := FindRule(t[1..], id);
      if rest < 0 then -1 else rest + 1
  }

  function Added(t: Table, r: AlertRule): Table
  {
    if |t| >= MAX_RULES || FindRule(t, r.id) >= 0 then t else t + [r]
  }

  /** Ids are unique, fit their field, and there are at most 64 rules. */
  ghost predicate Sound(t: Table)
  {
    && |t| <= 64
    && (forall i :: 0 <= i < |t| ==> |t[i].id| < 48)
    && forall i, j :: 0 <= i < j < |t| ==> t[i].id != t[j].id
  }

  // -------------------------------------------------------- construction

  /** One group of the saved rules file. */
  datatype SavedRule = SavedRule(
    group: string, name: Option<string>, metric: Option<string>, op: Option<string>,
    threshold: real, duration: nat, enabled: bool, builtin: bool)

  function FromSaved(s: SavedRule): AlertRule
  {
    AlertRule(L.Truncated(s.group, RULE_ID_MAX),
              L.Truncated(if s.name.Some? then s.name.value else s.group, RULE_NAME_MAX),
              L.Truncated(if s.metric.Some? then s.metric.value else "", L.METRIC_ID_MAX),
              Condition(OpFrom(s.op), s.threshold, s.duration), s.enabled, s.builtin, INITIAL)
  }

  function Loaded(saved: seq<SavedRule>): Table
    decreases |saved|
  {
    if saved == [] then []
    else
      var t, r := Loaded(saved[..|saved| - 1]), FromSaved(saved[|saved| - 1]);
      if r.metric == "" then t else Added(t, r)
  }

  predicate IsFilesystemUsage(id: string) { HasPrefix(id, "fs.") && HasSuffix(id, ".usage") }

  /** What stands between "fs." and ".usage"; when the two overlap, all that follows "fs.". */
  function AreaOf(id: string): string
    requires IsFilesystemUsage(id)
  {
    if |id| >= 9 then id[3..|id| - 6] else id[3..]
  }

  function StorageRuleId(id: string): string
    requires IsFilesystemUsage(id)
  {
    "storage_full_" + AreaOf(id)
  }

  function StorageRule(id: string): (r: AlertRule)
    requires IsFilesystemUsage(id)
    ensures |r.id| < 48
  {
    AlertRule(L.Truncated(StorageRuleId(id), RULE_ID_MAX), L.Truncated(AreaOf(id) + " almost full", RULE_NAME_MAX),
              L.Truncated(id, L.METRIC_ID_MAX), Condition(Above, 90.0, 300), true, true, INITIAL)
  }

  /** One space rule per filesystem, unless a rule has its full id already. */
  function WithStorage(t: Table, ids: seq<string>): Table
    decreases |ids|
  {
    if ids == [] then t
    else
      WithSpaceRule(WithStorage(t, ids[..|ids| - 1]), ids[|ids| - 1])
  }

  function WithSpaceRule(t: Table, id: string): Table
  {
    if !IsFilesystemUsage(id) || FindRule(t, StorageRuleId(id)) >= 0 then t else Added(t, StorageRule(id))
  }

  function WithBuiltins(t: Table, ids: seq<string>, defaults: seq<AlertRule>): Table
    decreases |defaults|
  {
    if defaults == [] then t
    else
      var before, b := WithBuiltins(t, ids, defaults[..|defaults| - 1]), defaults[|defaults| - 1];
      if FindRule(before, b.id) >= 0 || Find(ids, b.metric) < 0 then before else Added(before, b)
  }

  /** The ids of the built-in rules this device calls for. */
  function Expected(ids: seq<string>): set<string>
  {
    (set b | b in BUILTIN && b.metric in ids :: b.id) + StorageIds(ids)
  }

  function StorageIds(ids: seq<string>): set<string>
  {
    set id | id in ids && IsFilesystemUsage(id) :: StorageRuleId(id)
  }

  lemma {:induction false} StorageIdsNext(ids: seq<string>, i: nat)
    requires i < |ids|
    ensures StorageIds(ids[..i + 1]) ==
            StorageIds(ids[..i]) + if IsFilesystemUsage(ids[i]) then {StorageRuleId(ids[i])} else {}
  {
    hide IsFilesystemUsage, StorageRuleId;
    assert ids[..i + 1] == ids[..i] + [ids[i]];
  }

  predicate Kept(r: AlertRule, expected: set<string>) { !r.builtin || r.id in expected }

  function Pruned(t: Table, expected: set<string>): Table
    decreases |t|
  {
    if t == [] then []
    else
      var front, r := Pruned(t[..|t| - 1], expected), t[|t| - 1];
      if Kept(r, expected) then front + [r] else front
  }

  /** The table alerts_new builds from the saved rules and the registry. */
  function Constructed(saved: seq<SavedRule>, ids: seq<string>): Table
  {
    Pruned(WithBuiltins(WithStorage(Loaded(saved), ids), ids, BUILTIN), Expected(ids))
  }

  /** The rules of the user's own, in order. */
  function Users(t: Table): Table
    decreases |t|
  {
    if t == [] then []
    else
      var front, r := Users(t[..|t| - 1]), t[|t| - 1];
      if r.builtin then front else front + [r]
  }

  lemma {:induction false} AddedSound(t: Table, r: AlertRule)
    requires Sound(t) && |r.id| < 48
    ensures Sound(Added(t, r)) && t <= Added(t, r)
    ensures r.builtin ==> Users(Added(t, r)) == Users(t)
  {
    assert (t + [r])[..|t|] == t;
  }

  lemma {:induction false} LoadedSound(saved: seq<SavedRule>)
    ensures Sound(Loaded(saved))
    decreases |saved|
  {
    if saved != [] {
      LoadedSound(saved[..|saved| - 1]);
      AddedSound(Loaded(saved[..|saved| - 1]), FromSaved(saved[|saved| - 1]));
    }
  }

  lemma {:induction false} WithStorageSound(t: Table, ids: seq<string>)
    requires Sound(t)
    ensures var s := WithStorage(t, ids);
            Sound(s) && t <= s && Users(s) == Users(t)
    decreases |ids|
  {
    if ids != [] {
      var front, id := ids[..|ids| - 1], ids[|ids| - 1];
      WithStorageSound(t, front);
      if IsFilesystemUsage(id) {
        AddedSound(WithStorage(t, front), StorageRule(id));
      }
    }
  }

  lemma {:induction false} WithBuiltinsSound(t: Table, ids: seq<string>, defaults: seq<AlertRule>)
    requires Sound(t)
    requires forall i :: 0 <= i < |defaults| ==> defaults[i].builtin && |defaults[i].id| < 48
    ensures var s := WithBuiltins(t, ids, defaults);
            Sound(s) && t <= s && Users(s) == Users(t)
    decreases |defaults|
  {
    if defaults != [] {
      var front := defaults[..|defaults| - 1];
      WithBuiltinsSound(t, ids, front);
      AddedSound(WithBuiltins(t, ids, front), defaults[|defaults| - 1]);
    }
  }

  lemma {:induction false} PrunedKeeps(t: Table, expected: set<string>)
    ensures var p := Pruned(t, expected);
            && |p| <= |t| && Users(p) == Users(t)
            && (forall r :: r in p <==> r in t && Kept(r, expected))
    decreases |t|
  {
    if t != [] {
      var front, r := t[..|t| - 1], t[|t| - 1];
      PrunedKeeps(front, expected);
      assert t == front + [r];
      if Kept(r, expected) {
        assert (Pruned(front, expected) + [r])[..|Pruned(front, expected)|] == Pruned(front, expected);
      }
    }
  }

  lemma {:induction false} PrunedSound(t: Table, expected: set<string>)
    requires Sound(t)
    ensures Sound(Pruned(t, expected))
    decreases |t|
  {
    if t != [] {
      var front, r := t[..|t| - 1], t[|t| - 1];
      PrunedSound(front, expected);
      PrunedKeeps(front, expected);
      var p := Pruned(front, expected);
      forall i | 0 <= i < |p| ensures p[i].id != r.id && |p[i].id| < 48 {
        assert p[i] in p;
        var k :| 0 <= k < |front| && front[k] == p[i];
        assert t[k] == p[i];
      }
    }
  }

  /** Construction keeps the invariant, keeps the user's rules exactly and in order, and
      leaves no built-in rule the device does not call for. */
  lemma {:induction false} ConstructionSound(saved: seq<SavedRule>, ids: seq<string>)
    ensures var t := Constructed(saved, ids);
            && Sound(t) && Users(t) == Users(Loaded(saved))
            && forall r :: r in t && r.builtin ==> r.id in Expected(ids)
  {
    hide WithStorage, WithBuiltins, Pruned, Loaded, Users, Expected, Sound;
    var a := WithStorage(Loaded(saved), ids);
    var b := WithBuiltins(a, ids, BUILTIN);
    LoadedSound(saved);
    WithStorageSound(Loaded(saved), ids);
    WithBuiltinsSound(a, ids, BUILTIN);
    PrunedKeeps(b, Expected(ids));
    PrunedSound(b, Expected(ids));
  }

  predicate HasRule(t: Table, id: string) { FindRule(t, id) >= 0 }

  lemma {:induction false} HasRuleIff(t: Table, id: string)
    ensures HasRule(t, id) <==> exists r :: r in t && r.id == id
  {
    if HasRule(t, id) {
      assert t[FindRule(t, id)] in t;
    }
  }

  /** An expected id that some rule carries survives the pruning. */
  lemma {:induction false} PruningSpares(t: Table, expected: set<string>, id: string)
    requires id in expected && HasRule(t, id)
    ensures HasRule(Pruned(t, expected), id)
  {
    PrunedKeeps(t, expected);
    var r := t[FindRule(t, id)];
    assert r in t && Kept(r, expected);
    HasRuleIff(Pruned(t, expected), id);
  }

  // ---------------------------------------------- what the table holds

  /** Rules offered to a table one after the other. */
  function AddedAll(t: Table, rs: seq<AlertRule>): Table
    decreases |rs|
  {
    if rs == [] then t else Added(AddedAll(t, rs[..|rs| - 1]), rs[|rs| - 1])
  }

  function SavedRules(saved: seq<SavedRule>): seq<AlertRule>
    decreases |saved|
  {
    if saved == [] then []
    else
      var front, r := SavedRules(saved[..|saved| - 1]), FromSaved(saved[|saved| - 1]);
      if r.metric == "" then front else front + [r]
  }

  function SpaceRules(ids: seq<string>): seq<AlertRule>
    decreases |ids|
  {
    if ids == [] then []
    else
      var front, id := SpaceRules(ids[..|ids| - 1]), ids[|ids| - 1];
      if IsFilesystemUsage(id) then front + [StorageRule(id)] else front
  }

  function DefaultRules(ids: seq<string>, defaults: seq<AlertRule>): seq<AlertRule>
    decreases |defaults|
  {
    if defaults == [] then []
    else
      var front, b := DefaultRules(ids, defaults[..|defaults| - 1]), defaults[|defaults| - 1];
      if b.metric in ids then front + [b] else front
  }

  /** Everything a start offers to the table, in its order. */
  function Candidates(saved: seq<SavedRule>, ids: seq<string>): seq<AlertRule>
  {
    SavedRules(saved) + SpaceRules(ids) + DefaultRules(ids, BUILTIN)
  }

  function Ids(rs: seq<AlertRule>): set<string> { set i | 0 <= i < |rs| :: rs[i].id }

  /** The i-th is the first of its id, and fewer than 64 ids come before it. */
  predicate Enters(rs: seq<AlertRule>, i: int)
  {
    0 <= i < |rs| && rs[i].id !in Ids(rs[..i]) && |Ids(rs[..i])| < 64
  }

  lemma {:induction false} IdsNext(rs: seq<AlertRule>)
    requires rs != []
    ensures Ids(rs) == Ids(rs[..|rs| - 1]) + {rs[|rs| - 1].id}
    ensures rs[|rs| - 1].id in Ids(rs[..|rs| - 1]) ==> |Ids(rs)| == |Ids(rs[..|rs| - 1])|
    ensures rs[|rs| - 1].id !in Ids(rs[..|rs| - 1]) ==> |Ids(rs)| == |Ids(rs[..|rs| - 1])| + 1
  {
    assert rs == rs[..|rs| - 1] + [rs[|rs| - 1]];
    assert rs[|rs| - 1].id in Ids(rs[..|rs| - 1]) ==> Ids(rs) == Ids(rs[..|rs| - 1]);
  }

  lemma {:induction false} IdsFound(rs: seq<AlertRule>, id: string)
    ensures id in Ids(rs) <==> FindRule(rs, id) >= 0
  {
    if FindRule(rs, id) >= 0 {
      assert rs[FindRule(rs, id)].id == id;
    }
  }

  lemma {:induction false} EntersNext(rs: seq<AlertRule>, i: nat)
    requires i + 1 < |rs|
    ensures Enters(rs, i) <==> Enters(rs[..|rs| - 1], i)
  {
    assert rs[..|rs| - 1][..i] == rs[..i];
  }

  /** The table after all offers: as many rules as there are ids, up to 64, and of each id
      the first one offered. */
  lemma {:induction false} AddedAllIff(rs: seq<AlertRule>)
    ensures var t := AddedAll([], rs);
            && |t| == (if |Ids(rs)| < 64 then |Ids(rs)| else 64)
            && (|Ids(rs)| <= 64 ==> Ids(t) == Ids(rs))
            && forall r :: r in t <==> exists i :: Enters(rs, i) && rs[i] == r
    decreases |rs|
  {
    hide Ids, FindRule;
    if rs == [] {
      NoRulesNoIds();
    } else {
      var front, last, n := rs[..|rs| - 1], rs[|rs| - 1], |rs| - 1;
      AddedAllIff(front);
      IdsNext(rs);
      var s := AddedAll([], front);
      IdsFound(s, last.id);
      IdsNext(s + [last]);
      assert (s + [last])[..|s|] == s;
      assert rs[..n] == front;
      forall r ensures r in AddedAll([], rs) <==> exists i :: Enters(rs, i) && rs[i] == r {
        if i :| Enters(rs, i) && rs[i] == r {
          if i < n { EntersNext(rs, i); assert front[i] == r; }
        }
        if i :| Enters(front, i) && front[i] == r {
          EntersNext(rs, i);
          assert rs[i] == r;
        }
      }
    }
  }

  lemma {:induction false} NoRulesNoIds()
    ensures Ids([]) == {} && |Ids([])| == 0
  {
  }

  lemma {:induction false} AddedAllJoins(t: Table, a: seq<AlertRule>, b: seq<AlertRule>)
    ensures AddedAll(AddedAll(t, a), b) == AddedAll(t, a + b)
    decreases |b|
  {
    if b == [] {
      assert a + b == a;
    } else {
      AddedAllJoins(t, a, b[..|b| - 1]);
      assert (a + b)[..|a + b| - 1] == a + b[..|b| - 1];
    }
  }

  lemma {:induction false} LoadedIsOffered(saved: seq<SavedRule>)
    ensures Loaded(saved) == AddedAll([], SavedRules(saved))
    decreases |saved|
  {
    if saved != [] {
      hide FromSaved, Added;
      var front, r := saved[..|saved| - 1], FromSaved(saved[|saved| - 1]);
      LoadedIsOffered(front);
      assert (SavedRules(front) + [r])[..|SavedRules(front)|] == SavedRules(front);
    }
  }

  /** The look for the full id and the one for the stored id agree: a rule with the full id
      means that nothing was cut off. */
  lemma {:induction false} SpaceRuleIsOffered(t: Table, id: string)
    requires Sound(t) && IsFilesystemUsage(id)
    ensures WithSpaceRule(t, id) == Added(t, StorageRule(id))
  {
    hide AreaOf;
  }

  lemma {:induction false} StorageIsOffered(t: Table, ids: seq<string>)
    requires Sound(t)
    ensures WithStorage(t, ids) == AddedAll(t, SpaceRules(ids))
    decreases |ids|
  {
    if ids != [] {
      hide Added, StorageRule, IsFilesystemUsage, Sound, Users;
      var front, id := ids[..|ids| - 1], ids[|ids| - 1];
      StorageIsOffered(t, front);
      WithStorageSound(t, front);
      if IsFilesystemUsage(id) {
        SpaceRuleIsOffered(WithStorage(t, front), id);
        assert (SpaceRules(front) + [StorageRule(id)])[..|SpaceRules(front)|] == SpaceRules(front);
      } else {
        assert WithSpaceRule(WithStorage(t, front), id) == WithStorage(t, front);
      }
    }
  }

  lemma {:induction false} DefaultsAreOffered(t: Table, ids: seq<string>, defaults: seq<AlertRule>)
    ensures WithBuiltins(t, ids, defaults) == AddedAll(t, DefaultRules(ids, defaults))
    decreases |defaults|
  {
    if defaults != [] {
      var front, b := defaults[..|defaults| - 1], defaults[|defaults| - 1];
      DefaultsAreOffered(t, ids, front);
      assert (DefaultRules(ids, front) + [b])[..|DefaultRules(ids, front)|] == DefaultRules(ids, front);
    }
  }

  /** Exactly which rules a start ends with, whatever was saved and however full the table
      gets: of all that is offered the first of each id, the first 64 of those, and of these
      the user's own and the expected ones. */
  lemma {:induction false} ConstructedIff(saved: seq<SavedRule>, ids: seq<string>, r: AlertRule)
    ensures var rs := Candidates(saved, ids);
            r in Constructed(saved, ids) <==>
              Kept(r, Expected(ids)) && exists i :: Enters(rs, i) && rs[i] == r
  {
    hide Loaded, WithStorage, WithBuiltins, SavedRules, SpaceRules, DefaultRules, AddedAll, Expected, Pruned, Enters;
    hide Users, Sound;
    var t := Loaded(saved);
    LoadedSound(saved);
    LoadedIsOffered(saved);
    StorageIsOffered(t, ids);
    DefaultsAreOffered(WithStorage(t, ids), ids, BUILTIN);
    AddedAllJoins([], SavedRules(saved), SpaceRules(ids));
    AddedAllJoins([], SavedRules(saved) + SpaceRules(ids), DefaultRules(ids, BUILTIN));
    AddedAllIff(Candidates(saved, ids));
    PrunedKeeps(WithBuiltins(WithStorage(t, ids), ids, BUILTIN), Expected(ids));
  }

  /** All that is offered has at most 64 different ids. */
  predicate Room(saved: seq<SavedRule>, ids: seq<string>)
  {
    |Ids(Candidates(saved, ids))| <= 64
  }

  lemma {:induction false} FewIds(rs: seq<AlertRule>)
    ensures |Ids(rs)| <= |rs|
    decreases |rs|
  {
    if rs != [] {
      hide Ids;
      FewIds(rs[..|rs| - 1]);
      IdsNext(rs);
    }
  }

  lemma {:induction false} PrefixIds(rs: seq<AlertRule>, i: nat)
    requires i < |rs| && rs[i].id !in Ids(rs[..i])
    ensures |Ids(rs[..i])| < |Ids(rs)|
  {
    var a, b := Ids(rs[..i]) + {rs[i].id}, Ids(rs);
    assert a <= b;
    assert |b| == |a| + |b - a|;
  }

  /** With room, the rule of an id is the first that is offered. */
  lemma {:induction false} ConstructedWithRoom(saved: seq<SavedRule>, ids: seq<string>, r: AlertRule)
    requires Room(saved, ids)
    ensures var rs := Candidates(saved, ids);
            var i := FindRule(rs, r.id);
            r in Constructed(saved, ids) <==> Kept(r, Expected(ids)) && i >= 0 && rs[i] == r
  {
    hide Candidates, Expected, Constructed;
    var rs := Candidates(saved, ids);
    var i := FindRule(rs, r.id);
    ConstructedIff(saved, ids, r);
    if i >= 0 {
      assert r.id !in Ids(rs[..i]);
      PrefixIds(rs, i);
    }
    if j :| Enters(rs, j) && rs[j] == r {
      assert i <= j;
      if i < j {
        assert rs[..j][i].id == r.id;
      }
    }
  }

  lemma {:induction false} FindsAt(t: Table, id: string, i: nat)
    requires i < |t| && t[i].id == id && forall k :: 0 <= k < i ==> t[k].id != id
    ensures FindRule(t, id) == i
  {
    hide FindRule;
  }

  lemma {:induction false} FindInEither(a: seq<AlertRule>, b: seq<AlertRule>, id: string)
    ensures var i, j, k := FindRule(a, id), FindRule(b, id), FindRule(a + b, id);
            k == if i >= 0 then i else if j >= 0 then |a| + j else -1
  {
    hide FindRule;
    var i, j, k := FindRule(a, id), FindRule(b, id), FindRule(a + b, id);
    assert forall n :: 0 <= n < |a| ==> (a + b)[n] == a[n];
    assert forall n :: 0 <= n < |b| ==> (a + b)[|a| + n] == b[n];
    if i >= 0 {
      FindsAt(a + b, id, i);
    } else if j >= 0 {
      FindsAt(a + b, id, |a| + j);
    } else {
      assert forall n :: 0 <= n < |a + b| ==> (a + b)[n].id != id;
    }
  }

  /** A saved rule keeps its id to itself: it is in the table as it was saved, unless it is a
      built-in the device no longer calls for, and no rule of that id is added to it. */
  lemma {:induction false} SavedRuleOwnsItsId(saved: seq<SavedRule>, ids: seq<string>, id: string)
    requires Room(saved, ids) && HasRule(SavedRules(saved), id)
    ensures var own := SavedRules(saved)[FindRule(SavedRules(saved), id)];
            forall r: AlertRule :: r.id == id ==>
              (r in Constructed(saved, ids) <==> r == own && Kept(own, Expected(ids)))
  {
    hide Constructed, Expected, SavedRules, SpaceRules, DefaultRules, Ids, FindRule;
    var s, rest := SavedRules(saved), SpaceRules(ids) + DefaultRules(ids, BUILTIN);
    assert Candidates(saved, ids) == s + rest;
    FindInEither(s, rest, id);
    var i := FindRule(s, id);
    assert (s + rest)[i] == s[i];
    forall r: AlertRule | r.id == id
      ensures r in Constructed(saved, ids) <==> r == s[i] && Kept(s[i], Expected(ids))
    {
      ConstructedWithRoom(saved, ids, r);
    }
  }

  /** No filesystem before the k-th has a space rule of the id. */
  ghost predicate NoneBefore(ids: seq<string>, k: nat, id: string)
    requires k <= |ids|
  {
    forall j :: 0 <= j < k && IsFilesystemUsage(ids[j]) ==> StorageRule(ids[j]).id != id
  }

  /** Of the space rules offered the first with an id is that of the first filesystem with
      the id. */
  lemma {:induction false} FirstSpaceRule(ids: seq<string>, id: string) returns (k: nat)
    ensures k <= |ids| && NoneBefore(ids, k, id)
    ensures var i := FindRule(SpaceRules(ids), id);
            if i < 0 then k == |ids|
            else k < |ids| && IsFilesystemUsage(ids[k]) && SpaceRules(ids)[i] == StorageRule(ids[k])
    decreases |ids|
  {
    hide IsFilesystemUsage, StorageRule, FindRule, NoneBefore;
    if ids == [] {
      k := 0;
      NothingBefore(ids, id);
    } else {
      var front, last := ids[..|ids| - 1], ids[|ids| - 1];
      k := FirstSpaceRule(front, id);
      NoneBeforeEither(front, last, k, id);
      assert front + [last] == ids;
      if IsFilesystemUsage(last) {
        FindInEither(SpaceRules(front), [StorageRule(last)], id);
        FindInOne(StorageRule(last), id);
        k := if k == |front| && StorageRule(last).id != id then |ids| else k;
      } else {
        k := if k == |front| then |ids| else k;
      }
    }
  }

  lemma {:induction false} NothingBefore(ids: seq<string>, id: string)
    ensures NoneBefore(ids, 0, id) && SpaceRules([]) == [] && FindRule([], id) == -1
  {
  }

  lemma {:induction false} NoneBeforeEither(front: seq<string>, last: string, k: nat, id: string)
    requires k <= |front| && NoneBefore(front, k, id)
    ensures NoneBefore(front + [last], k, id)
    ensures k == |front| && !(IsFilesystemUsage(last) && StorageRule(last).id == id) ==>
              NoneBefore(front + [last], |front| + 1, id)
  {
    hide IsFilesystemUsage, StorageRule;
    assert forall j :: 0 <= j < |front| ==> (front + [last])[j] == front[j];
  }

  lemma {:induction false} FindInOne(r: AlertRule, id: string)
    ensures FindRule([r], id) == if r.id == id then 0 else -1
  {
  }

  lemma {:induction false} DefaultsOffered(ids: seq<string>, defaults: seq<AlertRule>, b: AlertRule)
    ensures b in DefaultRules(ids, defaults) <==> b in defaults && b.metric in ids
    decreases |defaults|
  {
    if defaults != [] {
      DefaultsOffered(ids, defaults[..|defaults| - 1], b);
      assert defaults == defaults[..|defaults| - 1] + [defaults[|defaults| - 1]];
    }
  }

  /** Space rules and defaults never share an id. */
  lemma {:induction false} SpaceIdsDiffer(id: string)
    requires IsFilesystemUsage(id)
    ensures forall b :: b in BUILTIN ==> b.id != StorageRule(id).id && b.id != StorageRuleId(id)
  {
    var stored := L.Truncated(StorageRuleId(id), RULE_ID_MAX);
    assert StorageRuleId(id)[0] == 's' && stored[0] == 's' && stored[1] == 't';
    assert "cpu_high"[0] == 'c' && "memory_high"[0] == 'm' && "temperature_high"[0] == 't';
  }

  /** With room in the table, the exact condition for the space rule of a filesystem to be
      in it. Its id, cut to the 47 characters of the field, must be the full id of some
      filesystem here, so that the pruning spares it. And the rule must have come first: a
      saved rule of the id has to be that very rule, and if none was saved no earlier
      filesystem may have the same id when cut. */
  lemma {:induction false} SpaceRulePresentIff(saved: seq<SavedRule>, ids: seq<string>, k: nat)
    requires Room(saved, ids) && Distinct(ids) && forall i :: 0 <= i < |ids| ==> |ids[i]| < L.METRIC_ID_MAX
    requires k < |ids| && IsFilesystemUsage(ids[k])
    ensures var rule, own := StorageRule(ids[k]), SavedRules(saved);
            rule in Constructed(saved, ids) <==>
              rule.id in StorageIds(ids) &&
              if HasRule(own, rule.id) then own[FindRule(own, rule.id)] == rule
              else forall j :: 0 <= j < k && IsFilesystemUsage(ids[j]) ==> StorageRule(ids[j]).id != rule.id
  {
    var rule, own := StorageRule(ids[k]), SavedRules(saved);
    SpaceRuleExpected(ids, k);
    StoredMetric(ids[k]);
    if HasRule(own, rule.id) {
      hide Constructed, Expected, StorageIds, SavedRules, Candidates, FindRule, Ids, StorageRule;
      SavedRuleOwnsItsId(saved, ids, rule.id);
    } else {
      hide Constructed, Expected, StorageIds, SavedRules, SpaceRules, Candidates, FindRule, Ids, StorageRule;
      hide IsFilesystemUsage;
      ConstructedWithRoom(saved, ids, rule);
      FirstUnsaved(saved, ids, rule.id);
      var m := FirstSpaceRule(ids, rule.id);
      assert m <= k;
      StoredMetric(ids[m]);
    }
  }

  lemma {:induction false} StoredMetric(id: string)
    requires IsFilesystemUsage(id) && |id| < L.METRIC_ID_MAX
    ensures StorageRule(id).metric == id && StorageRule(id).builtin
  {
  }

  lemma {:induction false} SpaceRuleExpected(ids: seq<string>, k: nat)
    requires k < |ids| && IsFilesystemUsage(ids[k])
    ensures Kept(StorageRule(ids[k]), Expected(ids)) <==> StorageRule(ids[k]).id in StorageIds(ids)
  {
    hide AreaOf, IsFilesystemUsage, StorageIds;
    SpaceIdsDiffer(ids[k]);
  }

  /** Where nothing was saved under a space rule's id, the space rules come first. */
  lemma {:induction false} FirstUnsaved(saved: seq<SavedRule>, ids: seq<string>, id: string)
    requires !HasRule(SavedRules(saved), id)
    ensures var i, j := FindRule(Candidates(saved, ids), id), FindRule(SpaceRules(ids), id);
            j >= 0 ==> i >= 0 && Candidates(saved, ids)[i] == SpaceRules(ids)[j]
  {
    hide SavedRules, SpaceRules, DefaultRules, FindRule;
    FindInEither(SavedRules(saved) + SpaceRules(ids), DefaultRules(ids, BUILTIN), id);
    FindInEither(SavedRules(saved), SpaceRules(ids), id);
  }

  /** With room in the table, the exact condition for a default rule: the device has its
      metric, and no saved rule has its id but the default itself. */
  lemma {:induction false} DefaultPresentIff(saved: seq<SavedRule>, ids: seq<string>, k: nat)
    requires Room(saved, ids) && k < |BUILTIN|
    ensures var own := SavedRules(saved);
            BUILTIN[k] in Constructed(saved, ids) <==>
              BUILTIN[k].metric in ids &&
              (HasRule(own, BUILTIN[k].id) ==> own[FindRule(own, BUILTIN[k].id)] == BUILTIN[k])
  {
    var rule, own := BUILTIN[k], SavedRules(saved);
    DefaultExpected(ids, k);
    assert rule.builtin;
    hide Constructed, Expected, SavedRules, Candidates, FindRule, Ids;
    if HasRule(own, rule.id) {
      SavedRuleOwnsItsId(saved, ids, rule.id);
    } else {
      ConstructedWithRoom(saved, ids, rule);
      if rule.metric in ids {
        FirstDefault(saved, ids, k);
      }
    }
  }

  lemma {:induction false} DefaultIdsDiffer()
    ensures forall b, c :: b in BUILTIN && c in BUILTIN && b.id == c.id ==> b == c
  {
    assert "cpu_high"[0] == 'c' && "memory_high"[0] == 'm' && "temperature_high"[0] == 't';
  }

  lemma {:induction false} DefaultExpected(ids: seq<string>, k: nat)
    requires k < |BUILTIN|
    ensures Kept(BUILTIN[k], Expected(ids)) <==> BUILTIN[k].metric in ids
  {
    hide AreaOf, IsFilesystemUsage;
    DefaultIdsDiffer();
    assert BUILTIN[k] in BUILTIN;
    forall id | id in ids && IsFilesystemUsage(id) ensures StorageRuleId(id) != BUILTIN[k].id {
      SpaceIdsDiffer(id);
    }
  }

  /** No space rule has a default's id, so a default nobody saved is offered first. */
  lemma {:induction false} FirstDefault(saved: seq<SavedRule>, ids: seq<string>, k: nat)
    requires k < |BUILTIN| && !HasRule(SavedRules(saved), BUILTIN[k].id) && BUILTIN[k].metric in ids
    ensures var i := FindRule(Candidates(saved, ids), BUILTIN[k].id);
            i >= 0 && Candidates(saved, ids)[i] == BUILTIN[k]
  {
    var id := BUILTIN[k].id;
    var defaults := DefaultRules(ids, BUILTIN);
    assert BUILTIN[k] in BUILTIN;
    DefaultIdsDiffer();
    DefaultsOffered(ids, BUILTIN, BUILTIN[k]);
    forall f | f in ids && IsFilesystemUsage(f) ensures StorageRule(f).id != id {
      SpaceIdsDiffer(f);
    }
    hide SavedRules, SpaceRules, DefaultRules, FindRule, IsFilesystemUsage, StorageRule;
    var m := FirstSpaceRule(ids, id);
    FindInEither(SavedRules(saved) + SpaceRules(ids), defaults, id);
    FindInEither(SavedRules(saved), SpaceRules(ids), id);
    IdsFound(defaults, id);
    var j := FindRule(defaults, id);
    assert BUILTIN[k] in defaults;
    assert defaults[j] in defaults;
    DefaultsOffered(ids, BUILTIN, defaults[j]);
  }

  // ------------------------------------------- filesystems nobody watches

  /** No rule of the table looks at the metric. */
  ghost predicate Unwatched(t: Table, metric: string) { forall r :: r in t ==> r.metric != metric }

  /** Nothing is in the table that was not offered. */
  lemma {:induction false} OnlyOffered(saved: seq<SavedRule>, ids: seq<string>, r: AlertRule)
    requires r in Constructed(saved, ids)
    ensures r in SavedRules(saved) || r in SpaceRules(ids) || r in DefaultRules(ids, BUILTIN)
  {
    hide Constructed, SavedRules, SpaceRules, DefaultRules, Expected, Ids;
    ConstructedIff(saved, ids, r);
    var i :| Enters(Candidates(saved, ids), i) && Candidates(saved, ids)[i] == r;
  }

  lemma {:induction false} NoDefaults(ids: seq<string>)
    requires forall id :: id in ids ==> HasPrefix(id, "fs.")
    ensures DefaultRules(ids, BUILTIN) == []
  {
    assert forall id :: id in ids ==> id[0] == id[..3][0] == 'f';
    assert "cpu.usage"[0] == 'c' && "mem.usage"[0] == 'm' && "sensor.CPU"[0] == 's';
    if DefaultRules(ids, BUILTIN) != [] {
      DefaultsOffered(ids, BUILTIN, DefaultRules(ids, BUILTIN)[0]);
    }
  }

  lemma {:induction false} AreaMetric(area: string)
    ensures var id := "fs." + area + ".usage";
            IsFilesystemUsage(id) && AreaOf(id) == area && StorageRuleId(id) == "storage_full_" + area
  {
    var id := "fs." + area + ".usage";
    assert id[..3] == "fs." && id[|id| - 6..] == ".usage" && id[3..|id| - 6] == area;
  }

  /** A user's rule under the space rule's id, saved while the card was out, stands in for
      the space rule: the id is there, and nothing watches the filesystem. */
  lemma {:induction false} UsersRuleStandsIn(area: string, s: SavedRule)
    requires |area| <= 34 && s.group == "storage_full_" + area && !s.builtin && s.metric == Some("cpu.usage")
    ensures var ids := ["fs." + area + ".usage"];
            && HasRule(Constructed([s], ids), s.group)
            && Unwatched(Constructed([s], ids), ids[0])
  {
    var id := "fs." + area + ".usage";
    var ids, own, rule := [id], FromSaved(s), StorageRule(id);
    AreaMetric(area);
    assert own.id == rule.id == s.group && own.metric == "cpu.usage" && id[0] == 'f';
    assert own.metric != "";
    OneSavedRule(s);
    OneSpaceRule(id);
    NoDefaults(ids);
    hide SavedRules, SpaceRules, DefaultRules, Constructed, Expected, FromSaved, StorageRule, Ids;
    FewIds(Candidates([s], ids));
    SavedRuleOwnsItsId([s], ids, s.group);
    HasRuleIff(Constructed([s], ids), s.group);
    forall r | r in Constructed([s], ids) ensures r.metric != id {
      OnlyOffered([s], ids, r);
    }
  }

  /** Two filesystems, the first with the name of the second and one character more: its
      space rule takes the id of the second's when it is cut, and the pruning spares it
      because the second calls for that id. */
  lemma {:induction false} CutIdShadows(area: string, c: char)
    requires |area| == 34
    ensures var ids := ["fs." + area + [c] + ".usage", "fs." + area + ".usage"];
            && Constructed([], ids) == [StorageRule(ids[0])]
            && Unwatched(Constructed([], ids), ids[1])
  {
    var a, b := "fs." + area + [c] + ".usage", "fs." + area + ".usage";
    var ids, t := [a, b], Constructed([], [a, b]);
    hide SavedRules, SpaceRules, DefaultRules, Constructed, Expected, StorageRule, Ids, StorageRuleId;
    hide IsFilesystemUsage;
    CutIdIsTheOthers(area, c);
    TwoSpaceRules(a, b);
    NoDefaults(ids);
    NoSavedRules();
    assert b in ids && StorageRule(a).id in StorageIds(ids);
    hide StorageIds;
    FewIds(Candidates([], ids));
    SpaceRulePresentIff([], ids, 0);
    SpaceRulePresentIff([], ids, 1);
    forall r | r in t ensures r == StorageRule(a) {
      OnlyOffered([], ids, r);
    }
    ConstructionSound([], ids);
    AllTheSame(t, StorageRule(a));
  }

  lemma {:induction false} CutIdIsTheOthers(area: string, c: char)
    requires |area| == 34
    ensures var a, b := "fs." + area + [c] + ".usage", "fs." + area + ".usage";
            && IsFilesystemUsage(a) && IsFilesystemUsage(b) && HasPrefix(a, "fs.") && HasPrefix(b, "fs.")
            && StorageRule(a).id == StorageRule(b).id == StorageRuleId(b)
            && StorageRule(a).metric == a && StorageRule(b).metric == b && |a| == |b| + 1 < L.METRIC_ID_MAX
  {
    var a, b := "fs." + area + [c] + ".usage", "fs." + area + ".usage";
    assert a == "fs." + (area + [c]) + ".usage";
    AreaMetric(area + [c]);
    AreaMetric(area);
    assert StorageRuleId(b) == StorageRuleId(a)[..47];
    StoredMetric(a);
    StoredMetric(b);
  }

  lemma {:induction false} OneSavedRule(s: SavedRule)
    requires FromSaved(s).metric != ""
    ensures SavedRules([s]) == [FromSaved(s)]
  {
    hide FromSaved;
    assert [s][..0] == [] && SavedRules([]) == [];
  }

  lemma {:induction false} NoSavedRules()
    ensures SavedRules([]) == []
  {
  }

  lemma {:induction false} OneSpaceRule(id: string)
    requires IsFilesystemUsage(id)
    ensures SpaceRules([id]) == [StorageRule(id)]
  {
    hide IsFilesystemUsage, StorageRule;
    assert [id][..0] == [] && SpaceRules([]) == [];
  }

  lemma {:induction false} TwoSpaceRules(a: string, b: string)
    requires IsFilesystemUsage(a) && IsFilesystemUsage(b)
    ensures SpaceRules([a, b]) == [StorageRule(a), StorageRule(b)]
  {
    hide IsFilesystemUsage, StorageRule;
    OneSpaceRule(a);
    assert [a, b][..1] == [a];
  }

  lemma {:induction false} AllTheSame(t: Table, r: AlertRule)
    requires Sound(t) && r in t && forall q :: q in t ==> q == r
    ensures t == [r]
  {
    assert forall k :: 0 <= k < |t| ==> t[k] in t;
    assert |t| > 1 ==> t[0].id != t[1].id;
  }
}
