/** The MQTT client as a machine over connects, losses, settings changes and changes of what
    there is to publish, and what every run of it leaves on the broker. */
module MqttRuns {
  import opened Registry
  import opened Discovery

  datatype Client = Client(
    site: Site, config: Config, hasClient: bool, address: Address, connected: bool, sent: bool,
    brokers: map<Address, Retained>)

  /** Changed is a rebuild of the registry or an edit of the metrics that are transmitted:
      the client looks at both only when it runs discovery. */
  datatype Event =
    | Connected
    | Lost
    | Apply(config: Config, created: bool)
    | Changed(defs: seq<MetricDef>, selected: set<string>)

  const NO_CONFIG: Config := Config(false, "", 0, false, "", "", "", false, false)

  function Start(x: Site, brokers: map<Address, Retained>): Client
  {
    Client(x, NO_CONFIG, false, Address("", 0, false), false, false, brokers)
  }

  function At(brokers: map<Address, Retained>, a: Address): Retained
  {
    if a in brokers then brokers[a] else map[]
  }

  /** A broker nothing was ever sent to retains nothing. */
  function Reached(brokers: map<Address, Retained>, a: Address): (r: map<Address, Retained>)
    ensures a in r && forall b :: At(r, b) == At(brokers, b)
  {
    if a in brokers then brokers else brokers[a := map[]]
  }

  function Here(s: Client): Retained { At(s.brokers, s.address) }

  /** The broker of the connection retains something else now. */
  function Keeping(s: Client, r: Retained): (t: Client)
    ensures Here(t) == r && t == s.(brokers := t.brokers)
    ensures forall a :: a != s.address ==> At(t.brokers, a) == At(s.brokers, a)
  {
    s.(brokers := s.brokers[s.address := r])
  }

  function AddressOf(c: Config): Address { Address(c.host, c.port, c.tls) }

  predicate ConnectionDiffers(a: Config, b: Config)
  {
    a.enabled != b.enabled || a.port != b.port || a.tls != b.tls || a.host != b.host ||
    a.username != b.username || a.password != b.password || a.prefix != b.prefix
  }

  // ----------------------------------------------------------------- steps

  function Announce(s: Client, p: Payload): Client
  {
    Keeping(s, Here(s)[StatusTopic(s.config.prefix) := p])
  }

  function Discovered(s: Client, withdraw: bool): Client
  {
    Keeping(s, Published(s.site, s.config, withdraw, Here(s), |s.site.defs|)).(sent := true)
  }

  function AfterConnected(s: Client): Client
  {
    var online := Announce(s.(connected := true), Online);
    if s.config.discovery then Discovered(online, !s.sent) else online
  }

  /** The broker publishes the will of a connection that broke. */
  function AfterLost(s: Client): Client
  {
    if s.connected then Announce(s, Offline).(connected := false) else s
  }

  function Disconnected(s: Client): Client
  {
    if !s.hasClient then s
    else (if s.connected then Announce(s, Offline) else s).(hasClient := false, connected := false, sent := false)
  }

  /** A new client for the configured broker. */
  function Opened(s: Client, created: bool): Client
  {
    var a := AddressOf(s.config);
    s.(hasClient := created, address := a, brokers := Reached(s.brokers, a))
  }

  function Reconnects(s: Client, c: Config): bool { ConnectionDiffers(s.config, c) || !s.hasClient }

  function Rediscovers(s: Client, c: Config): bool
  {
    !Reconnects(s, c) && s.connected && c.discovery &&
    (c.discovery != s.config.discovery || c.discoveryAll != s.config.discoveryAll)
  }

  /** A settings change; created says whether a new client could be made. */
  function AfterApply(s: Client, c: Config, created: bool): Client
  {
    var configured := s.(config := c);
    if !c.enabled || c.host == "" then Disconnected(configured)
    else if Reconnects(s, c) then Opened(Disconnected(configured), created)
    else if Rediscovers(s, c) then Discovered(configured, true)
    else configured
  }

  function AfterChange(s: Client, defs: seq<MetricDef>, selected: set<string>): Client
  {
    s.(site := s.site.(defs := defs, selected := selected))
  }

  /** Callbacks come only while there is a client. */
  function After(s: Client, e: Event): Client
  {
    match e
    case Connected => if s.hasClient then AfterConnected(s) else s
    case Lost => if s.hasClient then AfterLost(s) else s
    case Apply(c, created) => AfterApply(s, c, created)
    case Changed(defs, selected) => AfterChange(s, defs, selected)
  }

  function Run(x: Site, brokers: map<Address, Retained>, es: seq<Event>): Client
    decreases |es|
  {
    if es == [] then Start(x, brokers) else After(Run(x, brokers, es[..|es| - 1]), es[|es| - 1])
  }

  // --------------------------------------------------------------- history

  /** Whether the event runs discovery, and if so whether it withdraws. */
  function DiscoveryOf(s: Client, e: Event): (withdraw: Option<bool>)
  {
    match e
    case Connected => if s.hasClient && s.config.discovery then Some(!s.sent) else None
    case Lost => None
    case Apply(c, _) => if c.enabled && c.host != "" && Rediscovers(s, c) then Some(true) else None
    case Changed(_, _) => None
  }

  /** What the last discovery run was about: the metrics it went through and whether it
      published all of them; whether some run since the last withdrawing one did; and
      whether all runs since then went through the same metrics. */
  datatype View = View(site: Site, all: bool, peak: bool, steady: bool)

  function ViewAfter(s: Client, e: Event, v: View): View
  {
    match DiscoveryOf(s, e)
    case None => v
    case Some(withdraw) =>
      var all := After(s, e).config.discoveryAll;
      if withdraw then View(s.site, all, all, true)
      else View(s.site, all, v.peak || all, v.steady && v.site == s.site)
  }

  function ViewOf(x: Site, brokers: map<Address, Retained>, es: seq<Event>): View
    decreases |es|
  {
    if es == [] then View(x, false, false, true)
    else ViewAfter(Run(x, brokers, es[..|es| - 1]), es[|es| - 1], ViewOf(x, brokers, es[..|es| - 1]))
  }

  /** Under no metrics and settings of the run does a wanted metric share its topic with
      another. */
  ghost predicate Untwinned(x: Site, brokers: map<Address, Retained>, es: seq<Event>)
    decreases |es|
  {
    es != [] ==>
      var s := Run(x, brokers, es);
      Untwinned(x, brokers, es[..|es| - 1]) && NoWantedTwins(s.site, s.config.discoveryAll)
  }

  /** A client belongs to the broker of its settings, and a connected one is online there. */
  ghost predicate Bound(s: Client)
  {
    && (s.connected || s.sent ==> s.hasClient)
    && (s.hasClient ==> s.config.enabled && s.config.host != "")
    && (s.hasClient ==> s.address == Address(s.config.host, s.config.port, s.config.tls))
    && (s.connected ==> StatusTopic(s.config.prefix) in Here(s) && Here(s)[StatusTopic(s.config.prefix)] == Online)
  }

  /** Every wanted metric is retained. */
  ghost predicate Shows(x: Site, r: Retained, all: bool, prefix: string)
  {
    forall i :: 0 <= i < |x.defs| && Wanted(x, all, i) ==>
      Topic(x, i) in r && r[Topic(x, i)] == EntityOf(x, prefix, i)
  }

  /** What every run keeps. */
  ghost predicate Invariant(s: Client, v: View)
  {
    && Bound(s)
    && (s.connected && s.config.discovery ==> s.sent && v.all == s.config.discoveryAll)
    && (v.all ==> v.peak)
    && (s.sent ==> Shows(v.site, Here(s), v.all, s.config.prefix))
    && (s.sent && v.steady ==> Exactly(v.site, Here(s), v.peak, s.config.prefix))
  }

  // -------------------------------------------------------------- the proof

  /** What an announcement or a loss changes at the broker. */
  lemma {:induction false} AnnounceKeeps(x: Site, s: Client, p: Payload, all: bool, prefix: string)
    ensures Exactly(x, Here(Announce(s, p)), all, prefix) <==> Exactly(x, Here(s), all, prefix)
    ensures Shows(x, Here(Announce(s, p)), all, prefix) <==> Shows(x, Here(s), all, prefix)
  {
    hide Wanted, Topic, EntityOf, StatusTopic;
    forall i | 0 <= i < |x.defs| ensures Topic(x, i) != StatusTopic(s.config.prefix) {
      StatusIsNoTopic(x, s.config.prefix, i);
    }
  }

  lemma {:induction false} DiscoveryKeepsStatus(s: Client, withdraw: bool, prefix: string)
    ensures var t, r, q := StatusTopic(prefix), Here(s), Here(Discovered(s, withdraw));
            (t in q <==> t in r) && (t in r ==> q[t] == r[t])
  {
    hide Topic, StatusTopic, Published;
    var x := s.site;
    forall i | 0 <= i < |x.defs| ensures Topic(x, i) != StatusTopic(prefix) {
      StatusIsNoTopic(x, prefix, i);
    }
    OtherTopicsKept(x, s.config, withdraw, Here(s), |x.defs|, StatusTopic(prefix));
  }

  lemma {:induction false} ExactlyShows(x: Site, r: Retained, all: bool, prefix: string)
    requires Exactly(x, r, all, prefix)
    ensures Shows(x, r, all, prefix)
  {
  }

  /** Any discovery run shows what is wanted. */
  lemma {:induction false} DiscoveredShows(s: Client, withdraw: bool)
    requires NoWantedTwins(s.site, s.config.discoveryAll)
    ensures Shows(s.site, Here(Discovered(s, withdraw)), s.config.discoveryAll, s.config.prefix)
  {
    hide Published, Exactly, NoWantedTwins, Wanted, Topic, EntityOf;
    var x := s.site;
    if withdraw {
      WithdrawingIsExact(x, s.config, Here(s));
      ExactlyShows(x, Here(Discovered(s, withdraw)), s.config.discoveryAll, s.config.prefix);
    } else {
      forall i | 0 <= i < |x.defs| && Wanted(x, s.config.discoveryAll, i)
        ensures var q := Here(Discovered(s, withdraw));
                Topic(x, i) in q && q[Topic(x, i)] == EntityOf(x, s.config.prefix, i)
      {
        AddedAt(x, s.config, Here(s), |x.defs|, i);
      }
    }
  }

  /** A discovery run, from a client that has run one on this connection or withdraws. */
  lemma {:induction false} DiscoveredExactly(s: Client, withdraw: bool, peak: bool)
    requires NoWantedTwins(s.site, s.config.discoveryAll)
    requires withdraw || Exactly(s.site, Here(s), peak, s.config.prefix)
    ensures var all := s.config.discoveryAll;
            Exactly(s.site, Here(Discovered(s, withdraw)), if withdraw then all else peak || all, s.config.prefix)
  {
    hide Published, Exactly, NoWantedTwins;
    if withdraw {
      WithdrawingIsExact(s.site, s.config, Here(s));
    } else {
      AddingIsUnion(s.site, s.config, Here(s), peak);
    }
  }

  lemma {:induction false} ConnectedKeeps(s: Client, v: View)
    requires Invariant(s, v) && s.hasClient && NoWantedTwins(s.site, s.config.discoveryAll)
    ensures Invariant(AfterConnected(s), ViewAfter(s, Connected, v))
  {
    hide Exactly, Shows, NoWantedTwins, Published, StatusTopic;
    var online := Announce(s.(connected := true), Online);
    AnnounceKeeps(v.site, s.(connected := true), Online, v.peak, s.config.prefix);
    AnnounceKeeps(v.site, s.(connected := true), Online, v.all, s.config.prefix);
    assert Here(s.(connected := true)) == Here(s);
    if s.config.discovery {
      DiscoveredShows(online, !s.sent);
      if !s.sent || (v.steady && v.site == s.site) {
        DiscoveredExactly(online, !s.sent, v.peak);
      }
      DiscoveryKeepsStatus(online, !s.sent, s.config.prefix);
    }
  }

  lemma {:induction false} LostKeeps(s: Client, v: View)
    requires Invariant(s, v) && s.hasClient
    ensures Invariant(AfterLost(s), v)
  {
    hide Exactly, Shows, StatusTopic;
    AnnounceKeeps(v.site, s, Offline, v.peak, s.config.prefix);
    AnnounceKeeps(v.site, s, Offline, v.all, s.config.prefix);
    assert Here(AfterLost(s)) == if s.connected then Here(Announce(s, Offline)) else Here(s);
  }

  lemma {:induction false} ApplyKeeps(s: Client, c: Config, created: bool, v: View)
    requires NoWantedTwins(s.site, c.discoveryAll) && Invariant(s, v)
    ensures Invariant(AfterApply(s, c, created), ViewAfter(s, Apply(c, created), v))
  {
    hide Exactly, Shows, NoWantedTwins, Published, StatusTopic, ConnectionDiffers;
    var configured := s.(config := c);
    SameConnection(s, c);
    if c.enabled && c.host != "" && !Reconnects(s, c) {
      assert Here(configured) == Here(s);
      if Rediscovers(s, c) {
        DiscoveredShows(configured, true);
        DiscoveredExactly(configured, true, v.peak);
        DiscoveryKeepsStatus(configured, true, c.prefix);
      }
    }
  }

  lemma {:induction false} SameConnection(s: Client, c: Config)
    ensures !Reconnects(s, c) ==> s.hasClient && AddressOf(s.config) == AddressOf(c) && s.config.prefix == c.prefix
    ensures !Reconnects(s, c) ==> s.config.enabled == c.enabled && s.config.host == c.host
  {
  }

  lemma {:induction false} BoundNext(s: Client, e: Event)
    requires Bound(s)
    ensures Bound(After(s, e))
  {
    hide Published, StatusTopic;
    match e
    case Connected =>
      var online := Announce(s.(connected := true), Online);
      DiscoveryKeepsStatus(online, !s.sent, s.config.prefix);
    case Lost =>
    case Apply(c, created) =>
      DiscoveryKeepsStatus(s.(config := c), true, c.prefix);
    case Changed(_, _) =>
  }

  /** Over every run, whatever the metrics. */
  lemma {:induction false} RunsStayBound(x: Site, brokers: map<Address, Retained>, es: seq<Event>)
    ensures Bound(Run(x, brokers, es))
    decreases |es|
  {
    if es != [] {
      hide Bound, After;
      RunsStayBound(x, brokers, es[..|es| - 1]);
      BoundNext(Run(x, brokers, es[..|es| - 1]), es[|es| - 1]);
    }
  }

  lemma {:induction false} RunsKeepInvariant(x: Site, brokers: map<Address, Retained>, es: seq<Event>)
    requires Untwinned(x, brokers, es)
    ensures Invariant(Run(x, brokers, es), ViewOf(x, brokers, es))
    decreases |es|
  {
    if es != [] {
      var front, e := es[..|es| - 1], es[|es| - 1];
      var s, v := Run(x, brokers, front), ViewOf(x, brokers, front);
      RunsKeepInvariant(x, brokers, front);
      SiteAndConfig(s, e);
      hide Invariant, NoWantedTwins, AfterConnected, AfterLost, AfterApply, ViewAfter;
      match e
      case Connected => if s.hasClient { ConnectedKeeps(s, v); } else { NoDiscovery(s, e, v); }
      case Lost => NoDiscovery(s, e, v); if s.hasClient { LostKeeps(s, v); }
      case Apply(c, created) => ApplyKeeps(s, c, created, v);
      case Changed(defs, selected) => NoDiscovery(s, e, v); ChangeKeeps(s, defs, selected, v);
    }
  }

  lemma {:induction false} NoDiscovery(s: Client, e: Event, v: View)
    requires DiscoveryOf(s, e).None?
    ensures ViewAfter(s, e, v) == v
  {
  }

  lemma {:induction false} ChangeKeeps(s: Client, defs: seq<MetricDef>, selected: set<string>, v: View)
    requires Invariant(s, v)
    ensures Invariant(AfterChange(s, defs, selected), v)
  {
    hide Exactly, Shows;
  }

  /** The metrics and the settings in force after an event. */
  lemma {:induction false} SiteAndConfig(s: Client, e: Event)
    ensures After(s, e).config == if e.Apply? then e.config else s.config
    ensures After(s, e).site == if e.Changed? then s.site.(defs := e.defs, selected := e.selected) else s.site
  {
    hide Published, StatusTopic;
  }

  // ---------------------------------------------------------- main results

  /** Over every run, while connected with discovery on, every entity is retained that was
      wanted when discovery last ran. */
  lemma {:induction false} WantedAreRetained(x: Site, brokers: map<Address, Retained>, es: seq<Event>, i: nat)
    requires Untwinned(x, brokers, es) && i < |ViewOf(x, brokers, es).site.defs|
    ensures var s, y := Run(x, brokers, es), ViewOf(x, brokers, es).site;
            s.connected && s.config.discovery && Wanted(y, s.config.discoveryAll, i) ==>
              Topic(y, i) in Here(s) && Here(s)[Topic(y, i)] == EntityOf(y, s.config.prefix, i)
  {
    hide Run, ViewOf, Wanted, Topic, EntityOf, NoWantedTwins;
    RunsKeepInvariant(x, brokers, es);
  }

  /** What such an entity tells a subscriber: its metric's own name, id and unit, the topic the
      readings come on, and a topic on which the broker says that the device is online. */
  lemma {:induction false} EntitySays(x: Site, brokers: map<Address, Retained>, es: seq<Event>, i: nat)
    requires Untwinned(x, brokers, es) && i < |ViewOf(x, brokers, es).site.defs|
    requires var s, y := Run(x, brokers, es), ViewOf(x, brokers, es).site;
             s.connected && s.config.discovery && Wanted(y, s.config.discoveryAll, i)
    ensures var s, y := Run(x, brokers, es), ViewOf(x, brokers, es).site;
            var t := Topic(y, i);
            && t in Here(s) && Here(s)[t].Entity?
            && (var e := Here(s)[t];
                && e.metric == y.defs[i].id && e.title == y.defs[i].title && e.unit == y.defs[i].unit
                && e.stateTopic == s.config.prefix + "/state" && e.availabilityTopic == s.config.prefix + "/status"
                && e.availabilityTopic in Here(s) && Here(s)[e.availabilityTopic] == Online
                && "axis_" <= e.uniqueId && t == "homeassistant/sensor/" + e.uniqueId[5..] + "/config"
                && (Fits(y) ==> e.uniqueId == "axis_" + Sanitized(y.serial + "_" + y.defs[i].id)))
  {
    var y := ViewOf(x, brokers, es).site;
    UniqueIdInTopic(y, Run(x, brokers, es).config.prefix, i);
    hide Run, ViewOf, Wanted, Topic, ObjectId, Untwinned;
    RunsStayBound(x, brokers, es);
    WantedAreRetained(x, brokers, es, i);
  }

  lemma {:induction false} UniqueIdInTopic(x: Site, prefix: string, i: nat)
    requires i < |x.defs|
    ensures "axis_" <= EntityOf(x, prefix, i).uniqueId
    ensures Topic(x, i) == "homeassistant/sensor/" + EntityOf(x, prefix, i).uniqueId[5..] + "/config"
    ensures Fits(x) ==> EntityOf(x, prefix, i).uniqueId == "axis_" + Sanitized(x.serial + "_" + x.defs[i].id)
  {
    assert Fits(x) ==> ObjectId(x, i) == Sanitized(x.serial + "_" + x.defs[i].id);
    hide ObjectId;
    assert ("axis_" + ObjectId(x, i))[5..] == ObjectId(x, i);
  }

  /** Some metric is transmitted but not among the essential ones. */
  ghost predicate AllMeansMore(x: Site)
  {
    exists i :: 0 <= i < |x.defs| && Wanted(x, true, i) && !Wanted(x, false, i)
  }

  lemma {:induction false} ExactlyBoth(x: Site, r: Retained, a: bool, b: bool, prefix: string)
    requires Exactly(x, r, a, prefix)
    ensures Exactly(x, r, b, prefix) <==> a == b || !AllMeansMore(x)
  {
    hide Topic, EntityOf, IsEssential;
  }

  /** Over every run, while connected with discovery on, and the runs of discovery since the
      last withdrawing one went through the same metrics, the broker retains of those
      exactly the wanted entities unless every metric was published at some time since and
      only the essential ones are wanted by now. */
  lemma {:induction false} ExactUnlessPeak(x: Site, brokers: map<Address, Retained>, es: seq<Event>)
    requires Untwinned(x, brokers, es)
    ensures var s, v := Run(x, brokers, es), ViewOf(x, brokers, es);
            s.connected && s.config.discovery && v.steady ==>
              (Exactly(v.site, Here(s), s.config.discoveryAll, s.config.prefix) <==>
               (!v.peak || s.config.discoveryAll || !AllMeansMore(v.site)))
  {
    hide Run, ViewOf, NoWantedTwins, Exactly, Shows;
    var s, v := Run(x, brokers, es), ViewOf(x, brokers, es);
    RunsKeepInvariant(x, brokers, es);
    if s.connected && s.config.discovery && v.steady {
      ExactlyBoth(v.site, Here(s), v.peak, s.config.discoveryAll, s.config.prefix);
    }
  }

  /** Without a change of the metrics every view is steady and of the metrics there are. */
  lemma {:induction false} UnchangedIsSteady(x: Site, brokers: map<Address, Retained>, es: seq<Event>)
    requires forall i :: 0 <= i < |es| ==> !es[i].Changed?
    ensures Run(x, brokers, es).site == x == ViewOf(x, brokers, es).site && ViewOf(x, brokers, es).steady
    decreases |es|
  {
    if es != [] {
      hide After, DiscoveryOf;
      UnchangedIsSteady(x, brokers, es[..|es| - 1]);
      SiteAndConfig(Run(x, brokers, es[..|es| - 1]), es[|es| - 1]);
    }
  }

  // ------------------------------------------------- changes of the metrics

  /** Some discovery run of the events from the n-th on went through a metric of the topic. */
  ghost predicate Offered(x: Site, brokers: map<Address, Retained>, es: seq<Event>, n: nat, t: string)
    decreases |es|
  {
    n < |es| &&
    (Offered(x, brokers, es[..|es| - 1], n, t) ||
     var s := Run(x, brokers, es[..|es| - 1]);
     DiscoveryOf(s, es[|es| - 1]).Some? && exists i :: 0 <= i < |s.site.defs| && Topic(s.site, i) == t)
  }

  /** What two brokers retain under a topic is the same. */
  ghost predicate SameAt(p: Retained, q: Retained, t: string)
  {
    (t in p <==> t in q) && (t in p ==> p[t] == q[t])
  }

  predicate IsConfigTopic(t: string) { |t| > 0 && t[|t| - 1] == 'g' }

  lemma {:induction false} TopicIsConfigTopic(x: Site, i: nat)
    requires i < |x.defs|
    ensures IsConfigTopic(Topic(x, i))
  {
    assert Topic(x, i)[|Topic(x, i)| - 1] == 'g';
  }

  lemma {:induction false} StatusIsNoConfigTopic(prefix: string)
    ensures !IsConfigTopic(StatusTopic(prefix))
  {
    assert StatusTopic(prefix)[|StatusTopic(prefix)| - 1] == 's';
  }

  lemma {:induction false} AnnounceKeepsTopic(s: Client, p: Payload, t: string)
    requires IsConfigTopic(t)
    ensures forall a :: SameAt(At(s.brokers, a), At(Announce(s, p).brokers, a), t)
  {
    hide IsConfigTopic, StatusTopic;
    StatusIsNoConfigTopic(s.config.prefix);
  }

  lemma {:induction false} DiscoveryKeepsTopic(s: Client, withdraw: bool, t: string)
    requires forall i :: 0 <= i < |s.site.defs| ==> Topic(s.site, i) != t
    ensures forall a :: SameAt(At(s.brokers, a), At(Discovered(s, withdraw).brokers, a), t)
  {
    hide Topic, Published;
    OtherTopicsKept(s.site, s.config, withdraw, Here(s), |s.site.defs|, t);
  }

  lemma {:induction false} UnofferedStep(s: Client, e: Event, t: string)
    requires IsConfigTopic(t)
    requires DiscoveryOf(s, e).Some? ==> forall i :: 0 <= i < |s.site.defs| ==> Topic(s.site, i) != t
    ensures forall a :: SameAt(At(s.brokers, a), At(After(s, e).brokers, a), t)
  {
    hide Topic, Published, StatusTopic, IsConfigTopic;
    match e
    case Connected =>
      var online := Announce(s.(connected := true), Online);
      AnnounceKeepsTopic(s.(connected := true), Online, t);
      if s.hasClient && s.config.discovery {
        DiscoveryKeepsTopic(online, !s.sent, t);
      }
    case Lost => AnnounceKeepsTopic(s, Offline, t);
    case Apply(c, created) =>
      AnnounceKeepsTopic(s.(config := c), Offline, t);
      if DiscoveryOf(s, e).Some? {
        DiscoveryKeepsTopic(s.(config := c), true, t);
      }
    case Changed(_, _) =>
  }

  /** No broker changes what it retains under a metric's topic while discovery does not go
      through a metric of that topic: not at a connect, not at a withdrawing run. */
  lemma {:induction false} UnofferedStay(
    x: Site, brokers: map<Address, Retained>, es: seq<Event>, n: nat, t: string, a: Address)
    requires n <= |es| && IsConfigTopic(t) && !Offered(x, brokers, es, n, t)
    ensures SameAt(At(Run(x, brokers, es[..n]).brokers, a), At(Run(x, brokers, es).brokers, a), t)
    decreases |es|
  {
    hide After, DiscoveryOf, Topic, IsConfigTopic;
    if n == |es| {
      assert es[..n] == es;
    } else {
      var front := es[..|es| - 1];
      assert front[..n] == es[..n];
      UnofferedStay(x, brokers, front, n, t, a);
      UnofferedStep(Run(x, brokers, front), es[|es| - 1], t);
    }
  }

  /** A change of the metrics reaches no broker and ends no connection. */
  lemma {:induction false} ChangesAreSilent(
    x: Site, brokers: map<Address, Retained>, es: seq<Event>, defs: seq<MetricDef>, selected: set<string>)
    ensures var s, t := Run(x, brokers, es), Run(x, brokers, es + [Changed(defs, selected)]);
            && t.brokers == s.brokers && t.connected == s.connected && t.config == s.config
            && t.site.serial == s.site.serial && t.site.defs == defs && t.site.selected == selected
  {
    OneMore(x, brokers, es, Changed(defs, selected));
    hide Run;
  }

  /** The entity of a metric that is gone from the registry stays on the broker through all
      connects, withdrawals and changes of settings, until discovery goes through a metric
      of its topic again. */
  lemma {:induction false} GoneMetricStays(
    x: Site, brokers: map<Address, Retained>, es: seq<Event>, defs: seq<MetricDef>, selected: set<string>,
    more: seq<Event>, i: nat)
    requires Untwinned(x, brokers, es) && i < |ViewOf(x, brokers, es).site.defs|
    requires var s, y := Run(x, brokers, es), ViewOf(x, brokers, es).site;
             s.connected && s.config.discovery && Wanted(y, s.config.discoveryAll, i)
    requires !Offered(x, brokers, es + [Changed(defs, selected)] + more, |es|,
                      Topic(ViewOf(x, brokers, es).site, i))
    ensures var s, y := Run(x, brokers, es), ViewOf(x, brokers, es).site;
            var r := At(Run(x, brokers, es + [Changed(defs, selected)] + more).brokers, s.address);
            Topic(y, i) in r && r[Topic(y, i)] == EntityOf(y, s.config.prefix, i)
  {
    var all := es + [Changed(defs, selected)] + more;
    var s, y := Run(x, brokers, es), ViewOf(x, brokers, es).site;
    WantedAreRetained(x, brokers, es, i);
    TopicIsConfigTopic(y, i);
    assert all[..|es|] == es;
    hide Run, ViewOf, Offered, Wanted, Topic, EntityOf, Untwinned, IsConfigTopic;
    UnofferedStay(x, brokers, all, |es|, Topic(y, i), s.address);
  }

  /** A metric that is new, under a topic no discovery run has gone through and no broker
      has retained, is missing on every broker after it was registered; the next connect
      with discovery on brings it. */
  lemma {:induction false} NewMetricWaits(
    x: Site, brokers: map<Address, Retained>, es: seq<Event>, defs: seq<MetricDef>, selected: set<string>, i: nat)
    requires i < |defs|
    requires var y := Run(x, brokers, es).site.(defs := defs, selected := selected);
             && !Offered(x, brokers, es, 0, Topic(y, i)) && (forall a :: Topic(y, i) !in At(brokers, a))
             && Untwinned(x, brokers, es + [Changed(defs, selected)])
    ensures var s := Run(x, brokers, es + [Changed(defs, selected)]);
            && (forall a :: Topic(s.site, i) !in At(s.brokers, a))
            && (s.hasClient && s.config.discovery && Wanted(s.site, s.config.discoveryAll, i) ==>
                  var q := Run(x, brokers, es + [Changed(defs, selected)] + [Connected]);
                  Topic(s.site, i) in Here(q) && Here(q)[Topic(s.site, i)] == EntityOf(s.site, s.config.prefix, i))
  {
    var es1 := es + [Changed(defs, selected)];
    var s := Run(x, brokers, es1);
    var t := Topic(s.site, i);
    OneMore(x, brokers, es, Changed(defs, selected));
    OneMore(x, brokers, es1, Connected);
    TopicIsConfigTopic(s.site, i);
    assert NoWantedTwins(s.site, s.config.discoveryAll);
    hide Run, Offered, Topic, EntityOf, IsConfigTopic, NoWantedTwins, Wanted, Published, Untwinned;
    forall a ensures t !in At(s.brokers, a) {
      UnofferedStay(x, brokers, es, 0, t, a);
      AtTheStart(x, brokers, es);
    }
    if s.hasClient && s.config.discovery {
      var online := Announce(s.(connected := true), Online);
      DiscoveredShows(online, !s.sent);
    }
  }

  lemma {:induction false} AtTheStart(x: Site, brokers: map<Address, Retained>, es: seq<Event>)
    ensures Run(x, brokers, es[..0]) == Start(x, brokers)
  {
  }

  // ------------------------------------- settings changed during an outage

  /** No later setting publishes fewer metrics than an earlier one. */
  ghost predicate NeverTurnedDown(es: seq<Event>)
  {
    forall i, j :: 0 <= i < j < |es| && es[i].Apply? && es[j].Apply? && es[i].config.discoveryAll
                   ==> es[j].config.discoveryAll
  }

  lemma {:induction false} ConfigWasApplied(x: Site, brokers: map<Address, Retained>, es: seq<Event>)
    ensures var c := Run(x, brokers, es).config;
            c == NO_CONFIG || exists i :: 0 <= i < |es| && es[i].Apply? && es[i].config == c
    decreases |es|
  {
    if es != [] {
      var front, e := es[..|es| - 1], es[|es| - 1];
      hide After;
      ConfigWasApplied(x, brokers, front);
      SiteAndConfig(Run(x, brokers, front), e);
      assert forall i :: 0 <= i < |front| ==> es[i] == front[i];
    }
  }

  /** If the settings only ever grew, the broker retains exactly the wanted entities
      through every connect, loss and change of settings. */
  lemma {:induction false} GrowingStaysExact(x: Site, brokers: map<Address, Retained>, es: seq<Event>)
    requires Untwinned(x, brokers, es) && NeverTurnedDown(es)
    ensures var s, v := Run(x, brokers, es), ViewOf(x, brokers, es);
            s.connected && s.config.discovery && v.steady ==>
              Exactly(v.site, Here(s), s.config.discoveryAll, s.config.prefix)
  {
    hide Run, ViewOf, NoWantedTwins, Exactly;
    ExactUnlessPeak(x, brokers, es);
    PeakOnlyGrows(x, brokers, es);
  }

  lemma {:induction false} PeakOnlyGrows(x: Site, brokers: map<Address, Retained>, es: seq<Event>)
    requires NeverTurnedDown(es)
    ensures ViewOf(x, brokers, es).peak ==> Run(x, brokers, es).config.discoveryAll
    decreases |es|
  {
    if es != [] {
      var front, e := es[..|es| - 1], es[|es| - 1];
      hide After, DiscoveryOf;
      PeakOnlyGrows(x, brokers, front);
      ConfigWasApplied(x, brokers, front);
      SiteAndConfig(Run(x, brokers, front), e);
      assert forall i :: 0 <= i < |front| ==> es[i] == front[i];
    }
  }

  lemma {:induction false} OneMore(x: Site, brokers: map<Address, Retained>, es: seq<Event>, e: Event)
    ensures var s := Run(x, brokers, es);
            Run(x, brokers, es + [e]) == After(s, e) &&
            ViewOf(x, brokers, es + [e]) == ViewAfter(s, e, ViewOf(x, brokers, es)) &&
            (Untwinned(x, brokers, es + [e]) <==>
             Untwinned(x, brokers, es) && NoWantedTwins(After(s, e).site, After(s, e).config.discoveryAll))
  {
    assert (es + [e])[..|es + [e]| - 1] == es;
    hide After, DiscoveryOf, NoWantedTwins;
  }

  /** Connected with everything published, the connection breaks, the settings are turned
      down to the essential metrics, and the connection comes back. */
  function OutageRun(c: Config): seq<Event>
  {
    [] + [Apply(c, true)] + [Connected] + [Lost] + [Apply(c.(discoveryAll := false), true)] + [Connected]
  }

  /** That run leaves every transmitted metric's entity on the broker, wanted or not. */
  lemma {:induction false} OutageLeavesExtras(x: Site, brokers: map<Address, Retained>, c: Config, i: nat)
    requires NoWantedTwins(x, true) && i < |x.defs| && Wanted(x, true, i)
    requires c.enabled && c.host != "" && c.discovery && c.discoveryAll
    ensures var s := Run(x, brokers, OutageRun(c));
            s.connected && s.config == c.(discoveryAll := false) && Topic(x, i) in Here(s)
  {
    OutageSteps(x, brokers, c);
    FewerTwins(x);
    RunsKeepInvariant(x, brokers, OutageRun(c));
    hide Run, ViewOf, NoWantedTwins, Topic, Wanted, EntityOf;
  }

  lemma {:induction false} FewerTwins(x: Site)
    requires NoWantedTwins(x, true)
    ensures NoWantedTwins(x, false)
  {
    hide Topic, IsEssential;
  }

  lemma {:induction false} OutageSteps(x: Site, brokers: map<Address, Retained>, c: Config)
    requires c.enabled && c.host != "" && c.discovery && c.discoveryAll && NoWantedTwins(x, true)
    ensures var s, v := Run(x, brokers, OutageRun(c)), ViewOf(x, brokers, OutageRun(c));
            && s.connected && s.config == c.(discoveryAll := false)
            && v.site == x && v.peak && v.steady && Untwinned(x, brokers, OutageRun(c))
  {
    FewerTwins(x);
    hide Run, ViewOf, Untwinned, Published, StatusTopic, NoWantedTwins;
    var lower := c.(discoveryAll := false);
    var a := [] + [Apply(c, true)];
    Nothing(x, brokers);
    OneMore(x, brokers, [], Apply(c, true));
    OneMore(x, brokers, a, Connected);
    OneMore(x, brokers, a + [Connected], Lost);
    OneMore(x, brokers, a + [Connected] + [Lost], Apply(lower, true));
    OneMore(x, brokers, a + [Connected] + [Lost] + [Apply(lower, true)], Connected);
  }

  lemma {:induction false} Nothing(x: Site, brokers: map<Address, Retained>)
    ensures Run(x, brokers, []) == Start(x, brokers) && Untwinned(x, brokers, [])
    ensures ViewOf(x, brokers, []) == View(x, false, false, true)
  {
  }

  // -------------------------------------------------------- availability

  /** A connection that breaks leaves the device offline at the broker. */
  lemma {:induction false} LossIsOffline(x: Site, brokers: map<Address, Retained>, es: seq<Event>)
    requires Run(x, brokers, es).connected
    ensures var s, t := Run(x, brokers, es), Run(x, brokers, es + [Lost]);
            && !t.connected && t.sent == s.sent && t.address == s.address
            && s.config.prefix + "/status" in Here(t) && Here(t)[s.config.prefix + "/status"] == Offline
  {
    RunsStayBound(x, brokers, es);
    OneMore(x, brokers, es, Lost);
    hide Run;
  }

  /** A change of settings keeps a connection if and only if it changes nothing about it:
      neither the broker, nor the account, nor the prefix. */
  lemma {:induction false} StaysConnectedIff(
    x: Site, brokers: map<Address, Retained>, es: seq<Event>, c: Config, created: bool)
    requires Run(x, brokers, es).connected
    ensures var s := Run(x, brokers, es);
            var was := s.config;
            Run(x, brokers, es + [Apply(c, created)]).connected <==>
              c.enabled && c.host == was.host && c.port == was.port && c.tls == was.tls &&
              c.username == was.username && c.password == was.password && c.prefix == was.prefix
  {
    RunsStayBound(x, brokers, es);
    OneMore(x, brokers, es, Apply(c, created));
    hide Run, Published, StatusTopic;
  }

  lemma {:induction false} StatusTopicInjective(a: string, b: string)
    ensures StatusTopic(a) == StatusTopic(b) <==> a == b
  {
    assert StatusTopic(a)[..|a|] == a && StatusTopic(b)[..|b|] == b;
    assert |StatusTopic(a)| == |a| + 7 && |StatusTopic(b)| == |b| + 7;
  }

  /** A settings change that ends a live connection says goodbye under the new prefix, so
      the old broker keeps calling the device online exactly when the prefix changed. */
  lemma {:induction false} OnlineStaysIff(
    x: Site, brokers: map<Address, Retained>, es: seq<Event>, c: Config, created: bool)
    requires Run(x, brokers, es).connected
    requires !AfterApply(Run(x, brokers, es), c, created).connected
    ensures var s := Run(x, brokers, es);
            var before := At(AfterApply(s, c, created).brokers, s.address);
            StatusTopic(s.config.prefix) in before &&
            (before[StatusTopic(s.config.prefix)] == Online <==> c.prefix != s.config.prefix)
  {
    var s := Run(x, brokers, es);
    RunsStayBound(x, brokers, es);
    StatusTopicInjective(s.config.prefix, c.prefix);
    hide Run, ViewOf, StatusTopic, Published, NoWantedTwins, Exactly;
  }
}
