/** The MQTT client as the program keeps it, and the brokers it talks to. */
module Mqtt {
  import opened Registry
  import opened Discovery
  import opened MqttRuns

  /** The brokers' retained messages: they outlive every client. */
  class Network {
    var brokers: map<Address, Retained>

    constructor ()
      ensures brokers == map[]
    {
      brokers := map[];
    }

    /** A retained message replaces the one of its topic; an empty one removes it. */
    method Retain(address: Address, topic: string, payload: Option<Payload>)
      modifies this
      ensures var r := At(old(brokers), address);
              brokers == old(brokers)[address := if payload.Some? then r[topic := payload.value] else r - {topic}]
    {
      var r := if address in brokers then brokers[address] else map[];
      brokers := brokers[address := if payload.Some? then r[topic := payload.value] else r - {topic}];
    }
  }

  class Mqtt {
    const network: Network
    var site: Site
    var config: Config
    var hasClient: bool
    var address: Address
    var connected: bool
    var discoverySent: bool

    ghost function State(): Client
      reads this, network
    {
      Client(site, config, hasClient, address, connected, discoverySent, network.brokers)
    }

    constructor (site: Site, network: Network)
      ensures this.network == network && State() == Start(site, network.brokers)
    {
      this.site := site;
      this.network := network;
      config := NO_CONFIG;
      hasClient := false;
      address := Address("", 0, false);
      connected := false;
      discoverySent := false;
    }

    /** A client has a broker to talk to. */
    ghost predicate Valid()
      reads this, network
    {
      hasClient ==> address in network.brokers
    }

    /** Sends a retained message if there is a client; no payload empties the topic. */
    method Publish(topic: string, payload: Option<Payload>)
      requires Valid()
      modifies network
      ensures Valid()
      ensures var s := old(State());
              State() == if !s.hasClient then s
                         else Keeping(s, if payload.Some? then Here(s)[topic := payload.value] else Here(s) - {topic})
    {
      if hasClient {
        network.Retain(address, topic, payload);
      }
    }

    method PublishDiscovery(withdrawStale: bool)
      requires Valid() && hasClient
      modifies this`discoverySent, network
      ensures Valid() && State() == Discovered(old(State()), withdrawStale)
    {
      hide Wanted, Topic, EntityOf, HasNamedSensors, IsEssential, Published, Keeping, Here;
      ghost var s := State();
      PublishedNone(s, withdrawStale);
      var namedSensors := HasNamedSensors(site.defs);
      var i := 0;
      while i < |site.defs|
        invariant i <= |site.defs| && Valid() && hasClient
        invariant State() == Keeping(s, Published(site, s.config, withdrawStale, Here(s), i))
      {
        PublishedOneMore(s, withdrawStale, i);
        PublishOne(i, withdrawStale, namedSensors);
        i := i + 1;
      }
      discoverySent := true;
    }

    /** One metric's entity, or its withdrawal. */
    method PublishOne(i: nat, withdrawStale: bool, namedSensors: bool)
      requires Valid() && hasClient && i < |site.defs| && namedSensors == HasNamedSensors(site.defs)
      modifies network
      ensures Valid() && State() == PublishedOne(old(State()), withdrawStale, i)
    {
      hide Wanted, Topic, EntityOf, HasNamedSensors, IsEssential;
      var wanted := WantedHere(i, namedSensors);
      if wanted {
        Publish(Topic(site, i), Some(EntityOf(site, config.prefix, i)));
      } else if withdrawStale {
        Publish(Topic(site, i), None);
      }
    }

    method WantedHere(i: nat, namedSensors: bool) returns (wanted: bool)
      requires i < |site.defs| && namedSensors == HasNamedSensors(site.defs)
      ensures wanted == Wanted(site, config.discoveryAll, i)
    {
      var id := site.defs[i].id;
      wanted := id in site.selected && (config.discoveryAll || IsEssential(id, namedSensors));
    }

    /** The broker accepted the client. */
    method OnConnected()
      requires Valid() && hasClient
      modifies this`connected, this`discoverySent, network
      ensures Valid() && State() == AfterConnected(old(State()))
    {
      hide StatusTopic, Published;
      connected := true;
      Publish(StatusTopic(config.prefix), Some(Online));
      if config.discovery {
        PublishDiscovery(!discoverySent);
      }
    }

    /** The connection broke; the broker publishes the will. */
    method OnConnectionLost()
      requires Valid() && hasClient
      modifies this`connected, network
      ensures Valid() && State() == AfterLost(old(State()))
    {
      if connected {
        Publish(StatusTopic(config.prefix), Some(Offline));
      }
      connected := false;
    }

    method Disconnect()
      requires Valid()
      modifies this`hasClient, this`connected, this`discoverySent, network
      ensures Valid() && State() == Disconnected(old(State()))
    {
      if !hasClient {
        return;
      }
      if connected {
        Publish(StatusTopic(config.prefix), Some(Offline));
      }
      hasClient := false;
      connected := false;
      discoverySent := false;
    }

    /** Makes a client for the configured broker, if that works. */
    method ConnectNow(created: bool)
      requires Valid() && !hasClient
      modifies this`hasClient, this`address, network
      ensures Valid() && State() == Opened(old(State()), created)
    {
      address := AddressOf(config);
      if address !in network.brokers {
        network.brokers := network.brokers[address := map[]];
      }
      hasClient := created;
    }

    /** The registry was rebuilt, or the transmitted metrics were edited. */
    method Change(defs: seq<MetricDef>, selected: set<string>)
      requires Valid()
      modifies this`site
      ensures Valid() && State() == AfterChange(old(State()), defs, selected)
    {
      site := site.(defs := defs, selected := selected);
    }

    /** Takes over new settings; created says whether a client can be made. */
    method Apply(c: Config, created: bool)
      requires Valid()
      modifies this, network
      ensures Valid() && State() == AfterApply(old(State()), c, created)
    {
      hide StatusTopic, Published;
      var reconnect := ConnectionDiffers(config, c) || !hasClient;
      var rediscover := !reconnect && connected && c.discovery &&
                        (c.discovery != config.discovery || c.discoveryAll != config.discoveryAll);
      config := c;
      if !c.enabled {
        Disconnect();
        return;
      }
      if c.host == "" {
        Disconnect();
        return;
      }
      if reconnect {
        Disconnect();
        ConnectNow(created);
      } else if rediscover {
        PublishDiscovery(true);
      }
    }
  }

  /** What the loop does for one metric. */
  function PublishedOne(s: Client, withdraw: bool, i: nat): Client
    requires i < |s.site.defs|
  {
    var x := s.site;
    if Wanted(x, s.config.discoveryAll, i) then Keeping(s, Here(s)[Topic(x, i) := EntityOf(x, s.config.prefix, i)])
    else if withdraw then Keeping(s, Here(s) - {Topic(x, i)})
    else s
  }

  lemma {:induction false} PublishedNone(s: Client, withdraw: bool)
    requires s.address in s.brokers
    ensures s == Keeping(s, Published(s.site, s.config, withdraw, Here(s), 0))
  {
  }

  lemma {:induction false} PublishedOneMore(s: Client, withdraw: bool, i: nat)
    requires i < |s.site.defs|
    ensures PublishedOne(Keeping(s, Published(s.site, s.config, withdraw, Here(s), i)), withdraw, i)
         == Keeping(s, Published(s.site, s.config, withdraw, Here(s), i + 1))
  {
    hide Wanted, Topic, EntityOf;
  }
}
