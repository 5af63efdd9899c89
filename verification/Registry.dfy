/** The flat metric registry: a growable table that names each column of a sample. */
module Registry {
  import opened Layout

  const METRIC_LABEL_MAX: nat := 80
  const METRIC_UNIT_MAX: nat := 16
  const METRIC_GROUP_MAX: nat := 24

  datatype MetricDef = MetricDef(id: string, title: string, unit: string, group: string)
  datatype Option<T> = None | Some(value: T)

  /** Index of the first metric with the id, or -1. */
  function Find(ids: seq<string>, id: string): (i: int)
    ensures -1 <= i < |ids|
    ensures i >= 0 ==> ids[i] == id && id !in ids[..i]
    ensures i < 0 <==> id !in ids
  {
    if ids == [] then -1
    else if ids[0] == id then 0
    else
      var rest := Find(ids[1..], id);
      if rest < 0 then -1 else (assert ids[..rest + 1] == [ids[0]] + ids[1..][..rest]; rest + 1)
  }

  ghost predicate Distinct<T(!new)>(s: seq<T>)
  {
    forall i, j :: 0 <= i < j < |s| ==> s[i] != s[j]
  }

  /** Ids as registered: a known id adds nothing, a new one is cut to 63 characters. */
  function Registered(ids: seq<string>, id: string): seq<string>
  {
    if Find(ids, id) >= 0 then ids else ids + [Truncated(id, METRIC_ID_MAX)]
  }

  /** Registration looks for the whole id but stores its first 63 characters, so the
      table stays free of duplicates exactly when the id is already there or its
      stored form is new. */
  lemma {:induction false} RegisteredDistinct(ids: seq<string>, id: string)
    requires Distinct(ids)
    ensures Distinct(Registered(ids, id)) <==> (id in ids || Truncated(id, 64) !in ids)
  {
    var r := Registered(ids, id);
    var t := Truncated(id, METRIC_ID_MAX);
    if id !in ids && t in ids {
      var k :| 0 <= k < |ids| && ids[k] == t;
      assert r[k] == r[|ids|];
    }
  }

  /** Registering an id of 64 or more characters twice breaks uniqueness, whatever is
      listed already: stored ids are shorter, so it is never found. */
  lemma {:induction false} LongIdRegisteredTwice(ids: seq<string>, id: string)
    requires |id| >= 64 && forall i :: 0 <= i < |ids| ==> |ids[i]| < 64
    ensures !Distinct(Registered(Registered(ids, id), id))
  {
    var t := Truncated(id, METRIC_ID_MAX);
    var once := Registered(ids, id);
    assert once == ids + [t] && id !in once;
    var twice := once + [t];
    assert twice[|ids|] == t && twice[|once|] == t;
  }

  function RegisterAll(ids: seq<string>, wanted: seq<string>): seq<string>
    decreases |wanted|
  {
    if wanted == [] then ids
    else Registered(RegisterAll(ids, wanted[..|wanted| - 1]), wanted[|wanted| - 1])
  }

  /** Discovery from an empty table, with ids short enough to store: the table lists
      exactly the wanted ids, each once. */
  lemma {:induction false} RegisterAllDistinct(wanted: seq<string>)
    requires forall i :: 0 <= i < |wanted| ==> |wanted[i]| < 64
    ensures Distinct(RegisterAll([], wanted))
    ensures forall id :: id in RegisterAll([], wanted) <==> id in wanted
    decreases |wanted|
  {
    if wanted != [] {
      var front, last := wanted[..|wanted| - 1], wanted[|wanted| - 1];
      RegisterAllDistinct(front);
      RegisteredDistinct(RegisterAll([], front), last);
      assert wanted == front + [last];
    }
  }

  class MetricRegistry {
    var defs: array<MetricDef>
    var count: nat

    ghost predicate Valid()
      reads this
    {
      0 < defs.Length && count <= defs.Length
    }

    ghost function Defs(): (s: seq<MetricDef>)
      requires Valid()
      reads this, defs
    {
      defs[..count]
    }

    ghost function Ids(): (s: seq<string>)
      requires Valid()
      reads this, defs
      ensures |s| == count
    {
      seq(count, i requires 0 <= i < count reads this, defs requires Valid() => defs[i].id)
    }

    constructor ()
      ensures Valid() && Defs() == [] && fresh(defs)
    {
      defs := new MetricDef[64](_ => MetricDef("", "", "", ""));
      count := 0;
    }

    method MetricsFind(id: string) returns (index: int)
      requires Valid()
      ensures index == Find(Ids(), id)
    {
      var i := 0;
      while i < count
        invariant i <= count
        invariant id !in Ids()[..i]
      {
        if defs[i].id == id {
          FirstIsFound(Ids(), id, i);
          return i;
        }
        i := i + 1;
      }
      assert Ids()[..count] == Ids();
      return -1;
    }

    /** Doubles the table. */
    method Grow()
      requires Valid()
      modifies this
      ensures Valid() && fresh(defs) && defs.Length == 2 * old(defs.Length)
      ensures count == old(count) && Defs() == old(Defs()) && Ids() == old(Ids())
    {
      var grown := new MetricDef[2 * defs.Length](_ => MetricDef("", "", "", ""));
      var i := 0;
      while i < count
        invariant i <= count
        invariant grown[..i] == defs[..i]
        modifies grown
      {
        grown[i] := defs[i];
        i := i + 1;
      }
      ghost var before := Defs();
      defs := grown;
      assert forall k :: 0 <= k < count ==> Defs()[k] == before[k];
    }

    /** Adds a metric unless its id is known; the table doubles when it is full. */
    method Register(id: string, title: Option<string>, unit: Option<string>, group: Option<string>)
      returns (index: nat)
      requires Valid()
      modifies this, defs
      ensures Valid()
      ensures defs == old(defs) || fresh(defs)
      ensures Ids() == Registered(old(Ids()), id)
      ensures index < count
      ensures Find(old(Ids()), id) >= 0 ==> index == Find(old(Ids()), id) && Defs() == old(Defs())
      ensures Find(old(Ids()), id) < 0 ==>
                index == old(count) &&
                Defs() == old(Defs()) + [MetricDef(
                  Truncated(id, 64),
                  Truncated(if title.Some? then title.value else id, 80),
                  Truncated(if unit.Some? then unit.value else "", 16),
                  Truncated(if group.Some? then group.value else "other", 24))]
    {
      var existing := MetricsFind(id);
      if existing >= 0 {
        return existing;
      }
      ghost var before := Ids();
      if count == defs.Length {
        Grow();
      }
      defs[count] := MetricDef(
        Truncated(id, METRIC_ID_MAX),
        Truncated(if title.Some? then title.value else id, METRIC_LABEL_MAX),
        Truncated(if unit.Some? then unit.value else "", METRIC_UNIT_MAX),
        Truncated(if group.Some? then group.value else "other", METRIC_GROUP_MAX));
      count := count + 1;
      index := count - 1;
      assert Ids() == before + [Truncated(id, METRIC_ID_MAX)];
    }
  }

  lemma {:induction false} FirstIsFound(ids: seq<string>, id: string, i: nat)
    requires i < |ids| && ids[i] == id && id !in ids[..i]
    ensures Find(ids, id) == i
  {
    assert ids[i] in ids;
  }
}
