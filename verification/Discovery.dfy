/** Home Assistant discovery over MQTT: which entities a broker keeps retained for this
    device, through connects, losses and settings changes. */
module Discovery {
  import opened Registry
  import opened Text
  import L = Layout

  datatype Config = Config(
    enabled: bool, host: string, port: nat, tls: bool, username: string, password: string, prefix: string,
    discovery: bool, discoveryAll: bool)

  datatype Address = Address(host: string, port: nat, tls: bool)

  /** What is published retained: the availability, or one discovery config. */
  datatype Payload =
    | Online
    | Offline
    | Entity(title: string, uniqueId: string, stateTopic: string, availabilityTopic: string, metric: string,
             unit: string)

  type Retained = map<string, Payload>

  /** The device, its registered metrics, and the ids of those that may leave it. */
  datatype Site = Site(serial: string, defs: seq<MetricDef>, selected: set<string>)

  const OBJECT_ID_MAX: nat := 128

  // ---------------------------------------------------------------- wanted

  const ESSENTIAL: seq<string> := ["cpu.usage", "mem.usage", "mem.used", "load.1", "sys.uptime", "flash.life_used",
                                   "flash.pre_eol", "poe.total", "poe.budget"]

  /** The interface part of a "net." metric has an underscore. */
  predicate InterfaceIsVlan(id: string)
    requires HasPrefix(id, "net.")
  {
    var start := id[4..];
    var end := IndexOf(start, '.');
    end < |start| && '_' in start[..end]
  }

  predicate IsEssential(id: string, namedSensors: bool)
  {
    id in ESSENTIAL ||
    (if HasPrefix(id, "sensor.") then true
     else if HasPrefix(id, "temp.") then !namedSensors
     else if HasPrefix(id, "fs.") && HasSuffix(id, ".usage") then !HasPrefix(id, "fs.mnt_")
     else if HasPrefix(id, "net.") && (HasSuffix(id, ".rx_bps") || HasSuffix(id, ".tx_bps")) then !InterfaceIsVlan(id)
     else false)
  }

  /** Of the interfaces' rates exactly those of plain interfaces are on the dashboard: the
      dot of a VLAN's name arrives as an underscore. */
  lemma {:induction false} InterfaceEssentialIff(name: string, leaf: string, namedSensors: bool)
    requires '.' !in name && (leaf == ".rx_bps" || leaf == ".tx_bps")
    ensures IsEssential("net." + name + leaf, namedSensors) <==> '_' !in name
  {
    var id := "net." + name + leaf;
    assert id[..4] == "net." && id[4..] == name + leaf && id[|id| - 7..] == leaf;
    var start := id[4..];
    assert start[..|name|] == name && start[|name|] == '.';
    IndexOfAt(start, '.', |name|);
    NoNetEssential(id);
  }

  lemma {:induction false} NoNetEssential(id: string)
    requires HasPrefix(id, "net.")
    ensures id !in ESSENTIAL && !HasPrefix(id, "sensor.") && !HasPrefix(id, "temp.") && !HasPrefix(id, "fs.")
  {
    assert id[0] == id[..4][0] == 'n';
  }

  predicate HasNamedSensors(defs: seq<MetricDef>)
  {
    exists i :: 0 <= i < |defs| && HasPrefix(defs[i].id, "sensor.")
  }

  predicate Wanted(x: Site, all: bool, i: nat)
    requires i < |x.defs|
  {
    x.defs[i].id in x.selected && (all || IsEssential(x.defs[i].id, HasNamedSensors(x.defs)))
  }

  predicate IsAlnum(c: char) { '0' <= c <= '9' || 'a' <= c <= 'z' || 'A' <= c <= 'Z' }

  function Sanitized(s: string): (r: string)
    ensures |r| == |s|
    ensures forall i :: 0 <= i < |s| ==>
              r[i] == if '0' <= s[i] <= '9' || 'a' <= s[i] <= 'z' || 'A' <= s[i] <= 'Z' then s[i] else '_'
  {
    seq(|s|, i requires 0 <= i < |s| => if IsAlnum(s[i]) then s[i] else '_')
  }

  function ObjectId(x: Site, i: nat): string
    requires i < |x.defs|
  {
    Sanitized(L.Truncated(x.serial + "_" + x.defs[i].id, OBJECT_ID_MAX))
  }

  function Topic(x: Site, i: nat): string
    requires i < |x.defs|
  {
    "homeassistant/sensor/" + ObjectId(x, i) + "/config"
  }

  function StatusTopic(prefix: string): string { prefix + "/status" }

  function EntityOf(x: Site, prefix: string, i: nat): Payload
    requires i < |x.defs|
  {
    var d := x.defs[i];
    Entity(d.title, "axis_" + ObjectId(x, i), prefix + "/state", StatusTopic(prefix), d.id, d.unit)
  }

  ghost predicate DistinctIds(x: Site)
  {
    forall i, j :: 0 <= i < j < |x.defs| ==> x.defs[i].id != x.defs[j].id
  }

  /** No wanted metric shares its topic with another metric. */
  ghost predicate NoWantedTwins(x: Site, all: bool)
  {
    forall i, j :: 0 <= i < j < |x.defs| && Topic(x, i) == Topic(x, j) ==> !Wanted(x, all, i) && !Wanted(x, all, j)
  }

  // ------------------------------------------------------------ publishing

  /** What the broker retains after a discovery run over the first n metrics. */
  function Published(x: Site, c: Config, withdraw: bool, r: Retained, n: nat): Retained
    requires n <= |x.defs|
    decreases n
  {
    if n == 0 then r
    else
      var before := Published(x, c, withdraw, r, n - 1);
      if Wanted(x, c.discoveryAll, n - 1) then before[Topic(x, n - 1) := EntityOf(x, c.prefix, n - 1)]
      else if withdraw then before - {Topic(x, n - 1)}
      else before
  }

  /** What is retained among the registered metrics' topics is what is wanted. */
  ghost predicate Exactly(x: Site, r: Retained, all: bool, prefix: string)
  {
    forall i :: 0 <= i < |x.defs| ==>
      if Wanted(x, all, i) then Topic(x, i) in r && r[Topic(x, i)] == EntityOf(x, prefix, i) else Topic(x, i) !in r
  }

  predicate LastOfTopic(x: Site, i: nat, n: nat)
    requires i < n <= |x.defs|
  {
    forall j :: i < j < n ==> Topic(x, j) != Topic(x, i)
  }

  /** Whatever the ids, the last metric of a topic decides what a withdrawing run leaves
      there. */
  lemma {:induction false} LastMetricDecides(x: Site, c: Config, r: Retained, n: nat, i: nat)
    requires i < n <= |x.defs| && LastOfTopic(x, i, n)
    ensures var t, after := Topic(x, i), Published(x, c, true, r, n);
            if Wanted(x, c.discoveryAll, i) then t in after && after[t] == EntityOf(x, c.prefix, i) else t !in after
    decreases n
  {
    hide Wanted, Topic, EntityOf;
    if i < n - 1 {
      LastMetricDecides(x, c, r, n - 1, i);
    }
  }

  /** The last metric of i's topic. */
  lemma {:induction false} LastTwin(x: Site, i: nat, n: nat) returns (k: nat)
    requires i < n <= |x.defs|
    ensures i <= k < n && Topic(x, k) == Topic(x, i) && LastOfTopic(x, k, n)
    decreases n
  {
    hide Topic;
    if i == n - 1 || Topic(x, n - 1) == Topic(x, i) {
      k := n - 1;
    } else {
      k := LastTwin(x, i, n - 1);
    }
  }

  lemma {:induction false} WithdrawingIsExact(x: Site, c: Config, r: Retained)
    requires NoWantedTwins(x, c.discoveryAll)
    ensures Exactly(x, Published(x, c, true, r, |x.defs|), c.discoveryAll, c.prefix)
  {
    hide Wanted, Topic, EntityOf, Published;
    var after := Published(x, c, true, r, |x.defs|);
    forall i | 0 <= i < |x.defs|
      ensures var t := Topic(x, i);
              if Wanted(x, c.discoveryAll, i) then t in after && after[t] == EntityOf(x, c.prefix, i) else t !in after
    {
      var k := LastTwin(x, i, |x.defs|);
      LastMetricDecides(x, c, r, |x.defs|, k);
    }
  }

  lemma {:induction false} WantedTwinShows(x: Site, c: Config, r: Retained, i: nat, j: nat)
    requires DistinctIds(x) && i < |x.defs| && j < |x.defs| && i != j && Topic(x, i) == Topic(x, j)
    requires Wanted(x, c.discoveryAll, i)
    ensures !Exactly(x, Published(x, c, true, r, |x.defs|), c.discoveryAll, c.prefix)
  {
    hide Wanted, Topic, Published;
    var after := Published(x, c, true, r, |x.defs|);
    var k := LastTwin(x, i, |x.defs|);
    LastMetricDecides(x, c, r, |x.defs|, k);
    var other := if k == i then j else i;
    assert x.defs[other].id != x.defs[k].id;
    assert EntityOf(x, c.prefix, other) != EntityOf(x, c.prefix, k);
  }

  /** Whatever was there before, a withdrawing run leaves, among the registered topics, the
      wanted entities and no other, if and only if no wanted metric shares its topic with
      another metric. */
  lemma {:induction false} WithdrawingIsExactIff(x: Site, c: Config, r: Retained)
    requires DistinctIds(x)
    ensures Exactly(x, Published(x, c, true, r, |x.defs|), c.discoveryAll, c.prefix)
            <==> NoWantedTwins(x, c.discoveryAll)
  {
    hide Exactly, Wanted, Topic, Published;
    if NoWantedTwins(x, c.discoveryAll) {
      WithdrawingIsExact(x, c, r);
    } else {
      var i, j :| 0 <= i < j < |x.defs| && Topic(x, i) == Topic(x, j) &&
                  (Wanted(x, c.discoveryAll, i) || Wanted(x, c.discoveryAll, j));
      if Wanted(x, c.discoveryAll, i) {
        WantedTwinShows(x, c, r, i, j);
      } else {
        WantedTwinShows(x, c, r, j, i);
      }
    }
  }

  /** Serials and ids as their fields bound them: nothing of an object id is cut off. */
  predicate Fits(x: Site)
  {
    |x.serial| < 32 && forall i :: 0 <= i < |x.defs| ==> |x.defs[i].id| < L.METRIC_ID_MAX
  }

  /** Two metrics share a topic if and only if their ids differ in nothing but characters
      that are neither letters nor digits. */
  lemma {:induction false} SharedTopicIff(x: Site, i: nat, j: nat)
    requires Fits(x) && i < |x.defs| && j < |x.defs|
    ensures Topic(x, i) == Topic(x, j) <==> Sanitized(x.defs[i].id) == Sanitized(x.defs[j].id)
  {
    var n := |x.serial| + 1;
    forall k | k == i || k == j
      ensures ObjectId(x, k) == Sanitized(x.serial + "_") + Sanitized(x.defs[k].id)
    {
      SanitizedAppends(x.serial + "_", x.defs[k].id);
    }
    assert ObjectId(x, i)[n..] == Sanitized(x.defs[i].id) && ObjectId(x, j)[n..] == Sanitized(x.defs[j].id);
    TopicObject(ObjectId(x, i), ObjectId(x, j));
  }

  lemma {:induction false} SanitizedAppends(a: string, b: string)
    ensures Sanitized(a + b) == Sanitized(a) + Sanitized(b)
  {
  }

  lemma {:induction false} TopicObject(a: string, b: string)
    ensures "homeassistant/sensor/" + a + "/config" == "homeassistant/sensor/" + b + "/config" <==> a == b
  {
    var s, t := "homeassistant/sensor/" + a + "/config", "homeassistant/sensor/" + b + "/config";
    assert s[21..21 + |a|] == a && t[21..21 + |b|] == b;
    assert |s| == 28 + |a| && |t| == 28 + |b|;
  }

  /** What the collector registers for one figure of a storage area: the id is cut to its
      field. */
  function AreaId(area: string, leaf: string): string { L.Truncated("fs." + area + "." + leaf, L.METRIC_ID_MAX) }

  /** The ids of an area and of a second one, named like the first with an underscore and the
      figure behind it, are two ids with one topic exactly when the first id fills its field
      and its last dot is still inside. */
  lemma {:induction false} AreasCollideIff(area: string, leaf: string, other: string)
    ensures var a, b := AreaId(area, leaf), AreaId(area + "_" + leaf, other);
            a != b && Sanitized(a) == Sanitized(b) <==> |area| + |leaf| >= 59 && |area| <= 59
  {
    var a, b := AreaId(area, leaf), AreaId(area + "_" + leaf, other);
    var whole, long := "fs." + area + "." + leaf, "fs." + (area + "_" + leaf) + "." + other;
    assert |whole| == 4 + |area| + |leaf| && |long| == |whole| + 1 + |other|;
    assert forall i :: 0 <= i < |whole| && i != 3 + |area| ==> whole[i] == long[i];
    assert whole[3 + |area|] == '.' && long[3 + |area|] == '_';
    assert a == if |whole| < 64 then whole else whole[..63];
    assert b == if |long| < 64 then long else long[..63];
    if |area| >= 60 {
      assert a == b;
    } else if |area| + |leaf| >= 59 {
      assert |a| == 63 && |b| == 63;
      assert a[3 + |area|] != b[3 + |area|];
      assert Sanitized(a) == Sanitized(b);
    } else {
      assert |a| != |b|;
    }
  }

  lemma {:induction false} AreaUsageIsEssential(area: string, namedSensors: bool)
    requires |area| <= 54
    ensures IsEssential(AreaId(area, "usage"), namedSensors) <==> !HasPrefix(area, "mnt_")
  {
    var id := AreaId(area, "usage");
    assert id == "fs." + area + ".usage";
    AreaPrefix(area);
    FamilyIds(id);
  }

  lemma {:induction false} AreaPrefix(area: string)
    ensures var id := "fs." + area + ".usage";
            && HasPrefix(id, "fs.") && HasSuffix(id, ".usage")
            && (HasPrefix(id, "fs.mnt_") <==> HasPrefix(area, "mnt_"))
  {
    var id := "fs." + area + ".usage";
    assert id[..3] == "fs." && id[3..] == area + ".usage" && id[|id| - 6..] == ".usage";
    if |area| >= 4 {
      assert id[..7] == "fs." + area[..4];
      assert area[..4] == id[..7][3..];
    } else {
      assert id[3 + |area|] == '.';
      assert "fs.mnt_"[3 + |area|] != '.';
    }
  }

  /** So under the default settings the very run that publishes the usage of an area whose
      name has 54 characters withdraws it again, if there is a second area of that name with
      "_usage" behind it. */
  lemma {:induction false} EssentialAreaWithdrawn(
    serial: string, area: string, leaf: string, selected: set<string>, c: Config, r: Retained)
    requires |serial| < 32 && |area| == 54 && !HasPrefix(area, "mnt_") && !c.discoveryAll
    requires AreaId(area, "usage") in selected
    ensures var first, second := AreaId(area, "usage"), AreaId(area + "_usage", leaf);
            var x := Site(serial, [MetricDef(first, "", "", ""), MetricDef(second, "", "", "")], selected);
            DistinctIds(x) && Wanted(x, false, 0) && !Exactly(x, Published(x, c, true, r, 2), false, c.prefix)
  {
    var first, second := AreaId(area, "usage"), AreaId(area + "_usage", leaf);
    var x := Site(serial, [MetricDef(first, "", "", ""), MetricDef(second, "", "", "")], selected);
    assert area + "_" + "usage" == area + "_usage";
    AreasCollideIff(area, "usage", leaf);
    AreaUsageIsEssential(area, HasNamedSensors(x.defs));
    assert Fits(x);
    SharedTopicIff(x, 0, 1);
    hide AreaId, Topic, Published, IsEssential, Exactly, Sanitized;
    WithdrawingIsExactIff(x, c, r);
  }

  // ------------------------------------------------- what is on a dashboard

  /** No two registered metrics share a topic. */
  ghost predicate NoTwins(x: Site)
  {
    forall i, j :: 0 <= i < j < |x.defs| ==> Topic(x, i) != Topic(x, j)
  }

  ghost predicate SomeSensor(x: Site) { exists i :: 0 <= i < |x.defs| && HasPrefix(x.defs[i].id, "sensor.") }

  /** The families of ids for which the name decides. */
  predicate InFamily(id: string)
  {
    HasPrefix(id, "sensor.") || HasPrefix(id, "temp.") || (HasPrefix(id, "fs.") && HasSuffix(id, ".usage")) ||
    (HasPrefix(id, "net.") && (HasSuffix(id, ".rx_bps") || HasSuffix(id, ".tx_bps")))
  }

  /** What the broker retains of each metric after a withdrawing run with `discovery_all`
      off. Nothing of a metric that is not transmitted. Every named sensor; the raw zones if
      and only if no named sensor is registered; the usage of a filesystem unless it is an
      internal one; the rates of an interface whose name has no underscore; and of the rest
      nine ids. */
  lemma {:induction false} DashboardIff(x: Site, c: Config, r: Retained, i: nat)
    requires NoTwins(x) && !c.discoveryAll && i < |x.defs|
    ensures var id, retained := x.defs[i].id, Topic(x, i) in Published(x, c, true, r, |x.defs|);
            && (id !in x.selected ==> !retained)
            && (id in x.selected ==>
                  && (HasPrefix(id, "sensor.") ==> retained)
                  && (HasPrefix(id, "temp.") ==> (retained <==> !SomeSensor(x)))
                  && (HasPrefix(id, "fs.") && HasSuffix(id, ".usage") ==> (retained <==> !HasPrefix(id, "fs.mnt_")))
                  && (forall name: string, leaf: string ::
                        id == "net." + name + leaf && '.' !in name && (leaf == ".rx_bps" || leaf == ".tx_bps") ==>
                          (retained <==> '_' !in name))
                  && (!InFamily(id) ==>
                        (retained <==>
                           id == "cpu.usage" || id == "mem.usage" || id == "mem.used" || id == "load.1" ||
                           id == "sys.uptime" || id == "flash.life_used" || id == "flash.pre_eol" ||
                           id == "poe.total" || id == "poe.budget")))
  {
    var id := x.defs[i].id;
    TwinsWanted(x, false);
    FamilyIds(id);
    forall name: string, leaf: string
      | id == "net." + name + leaf && '.' !in name && (leaf == ".rx_bps" || leaf == ".tx_bps")
      ensures IsEssential(id, HasNamedSensors(x.defs)) <==> '_' !in name
    {
      InterfaceEssentialIff(name, leaf, HasNamedSensors(x.defs));
    }
    hide NoTwins, Topic, Published, InterfaceIsVlan, NoWantedTwins;
    WithdrawingIsExact(x, c, r);
  }

  /** With it on, all that is transmitted and nothing else. */
  lemma {:induction false} EverythingIff(x: Site, c: Config, r: Retained, i: nat)
    requires NoTwins(x) && c.discoveryAll && i < |x.defs|
    ensures Topic(x, i) in Published(x, c, true, r, |x.defs|) <==> x.defs[i].id in x.selected
  {
    TwinsWanted(x, true);
    hide NoTwins, Topic, Published, IsEssential, NoWantedTwins;
    WithdrawingIsExact(x, c, r);
  }

  lemma {:induction false} TwinsWanted(x: Site, all: bool)
    requires NoTwins(x)
    ensures NoWantedTwins(x, all)
  {
    hide Topic, Wanted;
  }

  /** The ids of the families are none of the nine, and of one family each. */
  lemma {:induction false} FamilyIds(id: string)
    ensures HasPrefix(id, "sensor.") || HasPrefix(id, "temp.") || HasPrefix(id, "fs.") || HasPrefix(id, "net.") ==>
              id !in ESSENTIAL
    ensures HasPrefix(id, "sensor.") ==> !HasPrefix(id, "temp.") && !HasPrefix(id, "fs.") && !HasPrefix(id, "net.")
    ensures HasPrefix(id, "temp.") ==> !HasPrefix(id, "fs.") && !HasPrefix(id, "net.")
    ensures HasPrefix(id, "fs.") ==> !HasPrefix(id, "net.")
  {
    if HasPrefix(id, "sensor.") { assert id[0] == id[..7][0] && id[1] == id[..7][1]; }
    if HasPrefix(id, "temp.") { assert id[0] == id[..5][0] && id[1] == id[..5][1]; }
    if HasPrefix(id, "fs.") { assert id[0] == id[..3][0] && id[1] == id[..3][1]; }
    if HasPrefix(id, "net.") { assert id[0] == id[..4][0] && id[1] == id[..4][1]; }
  }

  /** One metric's topic after a run that withdraws nothing. */
  lemma {:induction false} AddedAt(x: Site, c: Config, r: Retained, n: nat, i: nat)
    requires NoWantedTwins(x, c.discoveryAll) && n <= |x.defs| && i < |x.defs|
    ensures var t, after := Topic(x, i), Published(x, c, false, r, n);
            if i < n && Wanted(x, c.discoveryAll, i) then t in after && after[t] == EntityOf(x, c.prefix, i)
            else (t in after <==> t in r) && (t in r ==> after[t] == r[t])
    decreases n
  {
    hide Wanted, Topic, EntityOf;
    if n > 0 {
      AddedAt(x, c, r, n - 1, i);
    }
  }

  lemma {:induction false} AddingIsUnion(x: Site, c: Config, r: Retained, peak: bool)
    requires NoWantedTwins(x, c.discoveryAll) && Exactly(x, r, peak, c.prefix)
    ensures Exactly(x, Published(x, c, false, r, |x.defs|), peak || c.discoveryAll, c.prefix)
  {
    hide Topic, EntityOf, Published, IsEssential, NoWantedTwins;
    var after := Published(x, c, false, r, |x.defs|);
    forall i | 0 <= i < |x.defs|
      ensures var t := Topic(x, i);
              if Wanted(x, peak || c.discoveryAll, i) then t in after && after[t] == EntityOf(x, c.prefix, i)
              else t !in after
    {
      AddedAt(x, c, r, |x.defs|, i);
    }
  }

  /** A discovery run touches no topic but those of the registered metrics. */
  lemma {:induction false} OtherTopicsKept(x: Site, c: Config, withdraw: bool, r: Retained, n: nat, t: string)
    requires n <= |x.defs| && forall i :: 0 <= i < |x.defs| ==> Topic(x, i) != t
    ensures var after := Published(x, c, withdraw, r, n); (t in after <==> t in r) && (t in r ==> after[t] == r[t])
    decreases n
  {
    hide Topic, EntityOf, Wanted;
    if n > 0 {
      OtherTopicsKept(x, c, withdraw, r, n - 1, t);
    }
  }

  lemma {:induction false} StatusIsNoTopic(x: Site, prefix: string, i: nat)
    requires i < |x.defs|
    ensures Topic(x, i) != StatusTopic(prefix)
  {
    var t, s := Topic(x, i), StatusTopic(prefix);
    assert t[|t| - 1] == 'g' && s[|s| - 1] == 's';
  }
}
