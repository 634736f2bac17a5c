/**
 A channel's configuration (c-ares/ares_init.c): how it is put together from its
 sources, saved as options, and duplicated.
 */
module ChannelConfig {
  import opened Common
  import opened Status
  import opened ServerList
  import AddressSort

  type Pattern = AddressSort.Pattern

  const UNSET := -1
  const DEFAULT_TIMEOUT := 5000
  const DEFAULT_TRIES := 4
  const EDNSPACKETSZ := 1280
  const NAMESERVER_PORT := 53
  const LOOPBACK: Octets := [127, 0, 0, 1]

  /** The bits of an option mask. */
  datatype Opt =
    | FLAGS | TIMEOUT | TRIES | NDOTS | UDP_PORT | TCP_PORT | SERVERS | DOMAINS | LOOKUPS
    | SOCK_STATE_CB | SORTLIST | SOCK_SNDBUF | SOCK_RCVBUF | TIMEOUTMS | ROTATE | EDNSPSZ

  type Port = p: nat | p < 0x1_0000

  datatype Options = Options(
    flags: int, timeout: int, tries: int, ndots: int, udpPort: Port, tcpPort: Port, stateCallback: int,
    sendBuffer: int, receiveBuffer: int, ednsSize: int,
    servers: seq<Octets>, domains: seq<string>, lookups: string, sortlist: seq<Pattern>)

  /** What the environment or the system configuration says; it fills in what is still unset, or fails. */
  datatype Source = Source(
    status: Status, timeout: int, tries: int, ndots: int, rotate: int,
    servers: Option<seq<ServerState>>, domains: Option<seq<string>>, lookups: Option<string>, sortlist: Option<seq<Pattern>>)

  /** ARES_FLAG_PRIMARY, bit 1. */
  predicate Primary(flags: int) { flags / 2 % 2 == 1 }

  predicate DefaultV4(s: ServerState) { s.family == INET && s.udpPort == 0 && s.tcpPort == 0 }

  function First(a: int, b: int): int { if a != UNSET then a else b }

  function FirstSome<T>(a: Option<T>, b: Option<T>): Option<T> { if a.Some? then a else b }

  /** The value given under a mask bit. */
  function Given(mask: set<Opt>, opt: Opt, v: int): int { if opt in mask then v else UNSET }

  function GivenTimeout(mask: set<Opt>, v: int): int
  {
    if TIMEOUTMS in mask then v else if TIMEOUT in mask then v * 1000 else UNSET
  }

  function GivenSome<T>(mask: set<Opt>, opt: Opt, v: T): Option<T> { if opt in mask then Some(v) else None }

  function V4Server(a: Octets): ServerState { ServerState(INET, a, 0, 0) }

  function V4Servers(addrs: seq<Octets>): (s: seq<ServerState>)
    ensures |s| == |addrs| && InRange(s)
  {
    seq(|addrs|, i requires 0 <= i < |addrs| => V4Server(addrs[i]))
  }

  /** The addresses of the IPv4 servers on the default port, in order. */
  function DefaultV4Addresses(servers: seq<ServerState>): seq<Octets>
  {
    if servers == [] then []
    else
      DefaultV4Addresses(servers[..|servers| - 1])
      + if DefaultV4(servers[|servers| - 1]) then [servers[|servers| - 1].addr] else []
  }

  /** If all servers are such, their addresses determine them. */
  lemma {:induction false} AllDefaultV4(servers: seq<ServerState>)
    requires forall s <- servers :: DefaultV4(s)
    ensures V4Servers(DefaultV4Addresses(servers)) == servers
  {
    if servers != [] {
      var before := servers[..|servers| - 1];
      AllDefaultV4(before);
      assert V4Servers(DefaultV4Addresses(servers)) == V4Servers(DefaultV4Addresses(before)) + [servers[|servers| - 1]];
    }
  }

  // ----- The four sources of a configuration

  /** The configurable fields of a channel; -1 and None stand for unset. */
  datatype Basics = Basics(flags: int, timeout: int, tries: int, ndots: int, rotate: int)

  datatype Sockets = Sockets(
    udpPort: int, tcpPort: int, ednsSize: int, sendBuffer: int, receiveBuffer: int, stateCallback: int)

  datatype Lists = Lists(
    servers: Option<seq<ServerState>>, domains: Option<seq<string>>, lookups: Option<string>, sortlist: Option<seq<Pattern>>)

  datatype Config = Config(basics: Basics, sockets: Sockets, lists: Lists)
  {
    /** The test that ares_save_options makes before it copies anything. */
    predicate Check()
    {
      && lists.lookups.Some? && lists.sortlist.Some? && lists.servers.Some? && lists.domains.Some?
      && basics.ndots > -1 && basics.timeout > -1 && basics.tries > -1
    }

    /** What initialisation establishes and every later change of the servers keeps. */
    predicate Ready()
    {
      && basics.flags != UNSET && 0 <= sockets.udpPort < 0x1_0000 && 0 <= sockets.tcpPort < 0x1_0000
      && (lists.servers.Some? ==> InRange(lists.servers.value))
    }
  }

  const NO_BASICS := Basics(UNSET, UNSET, UNSET, UNSET, UNSET)
  const NO_SOCKETS := Sockets(UNSET, UNSET, UNSET, UNSET, UNSET, 0)
  const BLANK := Config(NO_BASICS, NO_SOCKETS, Lists(None, None, None, None))

  function OptionBasics(o: Options, mask: set<Opt>): Basics
  {
    Basics(Given(mask, FLAGS, o.flags), GivenTimeout(mask, o.timeout), Given(mask, TRIES, o.tries),
           Given(mask, NDOTS, o.ndots), Given(mask, ROTATE, 1))
  }

  function OptionSockets(o: Options, mask: set<Opt>): Sockets
  {
    Sockets(Given(mask, UDP_PORT, Swap16(o.udpPort)), Given(mask, TCP_PORT, Swap16(o.tcpPort)),
            Given(mask, EDNSPSZ, o.ednsSize), Given(mask, SOCK_SNDBUF, o.sendBuffer),
            Given(mask, SOCK_RCVBUF, o.receiveBuffer), if SOCK_STATE_CB in mask then o.stateCallback else 0)
  }

  function OptionLists(o: Options, mask: set<Opt>): Lists
  {
    Lists(GivenSome(mask, SERVERS, V4Servers(o.servers)), GivenSome(mask, DOMAINS, o.domains),
          GivenSome(mask, LOOKUPS, o.lookups), GivenSome(mask, SORTLIST, o.sortlist))
  }

  function FromOptions(o: Options, mask: set<Opt>): Config
  {
    Config(OptionBasics(o, mask), OptionSockets(o, mask), OptionLists(o, mask))
  }

  function FromSource(s: Source): Config
  {
    Config(Basics(UNSET, s.timeout, s.tries, s.ndots, s.rotate), NO_SOCKETS, Lists(s.servers, s.domains, s.lookups, s.sortlist))
  }

  function Defaults(hostDomains: seq<string>): Config
  {
    Config(Basics(0, DEFAULT_TIMEOUT, DEFAULT_TRIES, 1, 0),
           Sockets(Swap16(NAMESERVER_PORT), Swap16(NAMESERVER_PORT), EDNSPACKETSZ, UNSET, UNSET, 0),
           Lists(Some([V4Server(LOOPBACK)]), Some(hostDomains), Some("fb"), Some([])))
  }

  /** Field by field, what is unset in a is taken from b. */
  function BasicsOver(a: Basics, b: Basics): Basics
  {
    Basics(First(a.flags, b.flags), First(a.timeout, b.timeout), First(a.tries, b.tries), First(a.ndots, b.ndots),
           First(a.rotate, b.rotate))
  }

  function SocketsOver(a: Sockets, b: Sockets): Sockets
  {
    Sockets(First(a.udpPort, b.udpPort), First(a.tcpPort, b.tcpPort), First(a.ednsSize, b.ednsSize),
            First(a.sendBuffer, b.sendBuffer), First(a.receiveBuffer, b.receiveBuffer),
            if a.stateCallback != 0 then a.stateCallback else b.stateCallback)
  }

  function ListsOver(a: Lists, b: Lists): Lists
  {
    Lists(FirstSome(a.servers, b.servers), FirstSome(a.domains, b.domains), FirstSome(a.lookups, b.lookups),
          FirstSome(a.sortlist, b.sortlist))
  }

  function Over(a: Config, b: Config): Config
  {
    Config(BasicsOver(a.basics, b.basics), SocketsOver(a.sockets, b.sockets), ListsOver(a.lists, b.lists))
  }

  class Channel {
    var config: Config
    var optmask: set<Opt>
    /** Socket callbacks and local bindings, which are not options. */
    var createCallback: int
    var configCallback: int
    var localDevice: string
    var localIp4: int
    var localIp6: Octets

    constructor ()
      ensures config == BLANK
    {
      config, optmask, createCallback, configCallback, localDevice, localIp4, localIp6 := BLANK, {}, 0, 0, "", 0, [];
    }

    method InitByOptions(o: Options, mask: set<Opt>)
      modifies this`config, this`optmask
      ensures config == Over(old(config), FromOptions(o, mask)) && optmask == mask
    {
      hide BasicsOver, SocketsOver, ListsOver, OptionBasics, OptionSockets, OptionLists;
      var basics := BasicsByOptions(config.basics, o, mask);
      var sockets := SocketsByOptions(config.sockets, o, mask);
      var lists := ListsByOptions(config.lists, o, mask);
      config := Config(basics, sockets, lists);
      optmask := mask;
    }

    /** The environment, or the system configuration. */
    method InitBySource(s: Source)
      modifies this`config
      ensures config == Over(old(config), FromSource(s))
    {
      var b, l := config.basics, config.lists;
      if b.timeout == UNSET { b := b.(timeout := s.timeout); }
      if b.tries == UNSET { b := b.(tries := s.tries); }
      if b.ndots == UNSET { b := b.(ndots := s.ndots); }
      if b.rotate == UNSET { b := b.(rotate := s.rotate); }
      assert b == BasicsOver(config.basics, FromSource(s).basics);
      hide BasicsOver;
      if l.servers.None? { l := l.(servers := s.servers); }
      if l.domains.None? { l := l.(domains := s.domains); }
      if l.lookups.None? { l := l.(lookups := s.lookups); }
      if l.sortlist.None? { l := l.(sortlist := s.sortlist); }
      config := Config(b, config.sockets, l);
    }

    /** Fails if the search list has to come from the host name and there is none. */
    method InitByDefaults(host: Option<seq<string>>) returns (status: Status)
      modifies this`config
      ensures status == if old(config).lists.domains.None? && host.None? then EBADNAME else SUCCESS
      ensures status == SUCCESS ==> config == Over(old(config), Defaults(HostDomains(host)))
    {
      hide BasicsOver, SocketsOver, ListsOver;
      if config.lists.domains.None? && host.None? {
        return EBADNAME;
      }
      var basics := BasicsByDefaults(config.basics);
      var sockets := SocketsByDefaults(config.sockets);
      var lists := ListsByDefaults(config.lists, HostDomains(host));
      config := Config(basics, sockets, lists);
      return SUCCESS;
    }

    /** ares_set_servers_ports: replaces the servers, whatever the flags. */
    method SetServersPorts(nodes: seq<Node>)
      modifies this`config
      ensures TableOf(nodes, config.lists.servers)
      ensures config == old(config).(lists := old(config).lists.(servers := config.lists.servers))
      ensures old(config).Ready() ==> config.Ready()
    {
      config := config.(lists := config.lists.(servers := None));
      if |nodes| > 0 {
        var table := StoreServers(nodes);
        config := config.(lists := config.lists.(servers := Some(table)));
      }
    }
  }

  /** The search list taken from the host name. */
  function HostDomains(host: Option<seq<string>>): seq<string> { if host.Some? then host.value else [] }

  method BasicsByDefaults(b: Basics) returns (c: Basics)
    ensures c == BasicsOver(b, Defaults([]).basics)
  {
    c := b;
    if c.flags == UNSET { c := c.(flags := 0); }
    if c.timeout == UNSET { c := c.(timeout := DEFAULT_TIMEOUT); }
    if c.tries == UNSET { c := c.(tries := DEFAULT_TRIES); }
    if c.ndots == UNSET { c := c.(ndots := 1); }
    if c.rotate == UNSET { c := c.(rotate := 0); }
  }

  method SocketsByDefaults(s: Sockets) returns (c: Sockets)
    ensures c == SocketsOver(s, Defaults([]).sockets)
  {
    hide Swap16;
    c := s;
    if c.udpPort == UNSET { c := c.(udpPort := Swap16(NAMESERVER_PORT)); }
    if c.tcpPort == UNSET { c := c.(tcpPort := Swap16(NAMESERVER_PORT)); }
    if c.ednsSize == UNSET { c := c.(ednsSize := EDNSPACKETSZ); }
  }

  method ListsByDefaults(l: Lists, hostDomains: seq<string>) returns (c: Lists)
    ensures c == ListsOver(l, Defaults(hostDomains).lists)
  {
    c := l;
    if c.servers.None? { c := c.(servers := Some([V4Server(LOOPBACK)])); }
    if c.domains.None? { c := c.(domains := Some(hostDomains)); }
    if c.sortlist.None? { c := c.(sortlist := Some([])); }
    if c.lookups.None? { c := c.(lookups := Some("fb")); }
  }

  method BasicsByOptions(b: Basics, o: Options, mask: set<Opt>) returns (c: Basics)
    ensures c == BasicsOver(b, OptionBasics(o, mask))
  {
    c := b;
    if FLAGS in mask && c.flags == UNSET { c := c.(flags := o.flags); }
    if TIMEOUTMS in mask && c.timeout == UNSET {
      c := c.(timeout := o.timeout);
    } else if TIMEOUT in mask && c.timeout == UNSET {
      c := c.(timeout := o.timeout * 1000);
    }
    if TRIES in mask && c.tries == UNSET { c := c.(tries := o.tries); }
    if NDOTS in mask && c.ndots == UNSET { c := c.(ndots := o.ndots); }
    if ROTATE in mask && c.rotate == UNSET { c := c.(rotate := 1); }
  }

  method SocketsByOptions(s: Sockets, o: Options, mask: set<Opt>) returns (c: Sockets)
    ensures c == SocketsOver(s, OptionSockets(o, mask))
  {
    hide Swap16;
    c := s;
    if UDP_PORT in mask && c.udpPort == UNSET { c := c.(udpPort := Swap16(o.udpPort)); }
    if TCP_PORT in mask && c.tcpPort == UNSET { c := c.(tcpPort := Swap16(o.tcpPort)); }
    if SOCK_STATE_CB in mask && c.stateCallback == 0 { c := c.(stateCallback := o.stateCallback); }
    if SOCK_SNDBUF in mask && c.sendBuffer == UNSET { c := c.(sendBuffer := o.sendBuffer); }
    if SOCK_RCVBUF in mask && c.receiveBuffer == UNSET { c := c.(receiveBuffer := o.receiveBuffer); }
    if EDNSPSZ in mask && c.ednsSize == UNSET { c := c.(ednsSize := o.ednsSize); }
  }

  method ListsByOptions(l: Lists, o: Options, mask: set<Opt>) returns (c: Lists)
    ensures c == ListsOver(l, OptionLists(o, mask))
  {
    hide V4Servers;
    c := l;
    if SERVERS in mask && c.servers.None? {
      var servers := CopyServers(o.servers);
      c := c.(servers := Some(servers));
    }
    if DOMAINS in mask && c.domains.None? { c := c.(domains := Some(o.domains)); }
    if LOOKUPS in mask && c.lookups.None? { c := c.(lookups := Some(o.lookups)); }
    if SORTLIST in mask && c.sortlist.None? { c := c.(sortlist := Some(o.sortlist)); }
  }

  /** IPv4 servers on the default port. */
  method CopyServers(addrs: seq<Octets>) returns (servers: seq<ServerState>)
    ensures servers == V4Servers(addrs)
  {
    servers := [];
    var i := 0;
    while i < |addrs|
      invariant 0 <= i <= |addrs| && servers == V4Servers(addrs[..i])
    {
      servers := servers + [V4Server(addrs[i])];
      i := i + 1;
    }
    assert addrs[..i] == addrs;
  }

  // ----- Initialising

  /** One server only, under ARES_FLAG_PRIMARY. */
  function Trimmed(c: Config): Config
    requires c.lists.servers.Some?
  {
    var servers := c.lists.servers.value;
    if Primary(c.basics.flags) && |servers| > 1 then c.(lists := c.lists.(servers := Some(servers[..1]))) else c
  }

  /** Options come before the environment, that before the system's configuration, and that before the defaults. */
  function Combined(o: Options, mask: set<Opt>, env: Source, conf: Source, hostDomains: seq<string>): (c: Config)
    ensures c.lists.servers.Some?
  {
    Over(Over(Over(FromOptions(o, mask), FromSource(env)), FromSource(conf)), Defaults(hostDomains))
  }

  predicate GoodSource(s: Source) { s.servers.Some? ==> InRange(s.servers.value) }

  lemma OverBlank(c: Config)
    ensures Over(BLANK, c) == c
  {
  }

  /** Whether initialising succeeds: a source may fail, and so may the host name where no search list is given. */
  function InitStatus(o: Options, mask: set<Opt>, env: Source, conf: Source, host: Option<seq<string>>): Status
  {
    if env.status != SUCCESS then env.status
    else if conf.status != SUCCESS then conf.status
    else if DOMAINS !in mask && env.domains.None? && conf.domains.None? && host.None? then EBADNAME
    else SUCCESS
  }

  /** The configuration of a new channel. */
  function Initial(o: Options, mask: set<Opt>, env: Source, conf: Source, host: Option<seq<string>>): Config
  {
    Trimmed(Combined(o, mask, env, conf, HostDomains(host)))
  }

  /** The value that a mask bit and the sources give a field, each before the next; -1 is no value. */
  function Chosen(option: bool, given: int, env: int, conf: int, otherwise: int): int
  {
    if option && given != -1 then given else if env != -1 then env else if conf != -1 then conf else otherwise
  }

  /** Where the plain fields come from. A timeout is in milliseconds. */
  ghost predicate BasicsComeFrom(b: Basics, o: Options, mask: set<Opt>, env: Source, conf: Source)
  {
    && b.flags == (if FLAGS in mask && o.flags != -1 then o.flags else 0)
    && b.timeout == Chosen(TIMEOUTMS in mask || TIMEOUT in mask, if TIMEOUTMS in mask then o.timeout else 1000 * o.timeout,
                           env.timeout, conf.timeout, 5000)
    && b.tries == Chosen(TRIES in mask, o.tries, env.tries, conf.tries, 4)
    && b.ndots == Chosen(NDOTS in mask, o.ndots, env.ndots, conf.ndots, 1)
    && b.rotate == Chosen(ROTATE in mask, 1, env.rotate, conf.rotate, 0)
  }

  /** Only options and defaults give these; ports are in network order. */
  ghost predicate SocketsComeFrom(s: Sockets, o: Options, mask: set<Opt>)
  {
    && s.udpPort == (if UDP_PORT in mask then o.udpPort % 256 * 256 + o.udpPort / 256 else 53 * 256)
    && s.tcpPort == (if TCP_PORT in mask then o.tcpPort % 256 * 256 + o.tcpPort / 256 else 53 * 256)
    && s.ednsSize == (if EDNSPSZ in mask && o.ednsSize != -1 then o.ednsSize else 1280)
    && s.sendBuffer == (if SOCK_SNDBUF in mask then o.sendBuffer else -1)
    && s.receiveBuffer == (if SOCK_RCVBUF in mask then o.receiveBuffer else -1)
    && s.stateCallback == (if SOCK_STATE_CB in mask then o.stateCallback else 0)
  }

  ghost predicate ListsComeFrom(l: Lists, primary: bool, o: Options, mask: set<Opt>, env: Source, conf: Source, hostDomains: seq<string>)
  {
    && l.domains == (if DOMAINS in mask then Some(o.domains) else if env.domains.Some? then env.domains
                     else if conf.domains.Some? then conf.domains else Some(hostDomains))
    && l.lookups == (if LOOKUPS in mask then Some(o.lookups) else if env.lookups.Some? then env.lookups
                     else if conf.lookups.Some? then conf.lookups else Some("fb"))
    && l.sortlist == (if SORTLIST in mask then Some(o.sortlist) else if env.sortlist.Some? then env.sortlist
                      else if conf.sortlist.Some? then conf.sortlist else Some([]))
    && l.servers.Some? && ServersComeFrom(l.servers.value, primary, o, mask, env, conf)
  }

  /** Where every field of a new channel comes from; bit 1 of the flags makes it a primary channel. */
  ghost predicate FieldsComeFrom(c: Config, o: Options, mask: set<Opt>, env: Source, conf: Source, host: Option<seq<string>>)
  {
    && BasicsComeFrom(c.basics, o, mask, env, conf) && SocketsComeFrom(c.sockets, o, mask)
    && ListsComeFrom(c.lists, c.basics.flags / 2 % 2 == 1, o, mask, env, conf, if host.Some? then host.value else [])
  }

  /** The servers, or the first of them on a primary channel: those of the options are IPv4 on the default port. */
  ghost predicate ServersComeFrom(servers: seq<ServerState>, primary: bool, o: Options, mask: set<Opt>, env: Source, conf: Source)
  {
    exists all ::
      && servers == (if primary && |all| > 1 then all[..1] else all)
      && if SERVERS in mask then |all| == |o.servers| && forall i | 0 <= i < |all| :: all[i] == ServerState(INET, o.servers[i], 0, 0)
         else if env.servers.Some? then all == env.servers.value
         else if conf.servers.Some? then all == conf.servers.value
         else all == [ServerState(INET, [127, 0, 0, 1], 0, 0)]
  }

  lemma InitialFields(o: Options, mask: set<Opt>, env: Source, conf: Source, host: Option<seq<string>>)
    ensures FieldsComeFrom(Initial(o, mask, env, conf, host), o, mask, env, conf, host)
  {
    hide BasicsOver, SocketsOver, ListsOver, OptionBasics, OptionSockets, OptionLists, Swap16;
    hide BasicsComeFrom, SocketsComeFrom, ListsComeFrom;
    InitialBasics(o, mask, env, conf);
    InitialSockets(o, mask);
    InitialLists(o, mask, env, conf, HostDomains(host));
    var c := Combined(o, mask, env, conf, HostDomains(host));
    ListsTrimmed(c.lists, Primary(c.basics.flags), o, mask, env, conf, HostDomains(host));
  }

  lemma InitialBasics(o: Options, mask: set<Opt>, env: Source, conf: Source)
    ensures BasicsComeFrom(BasicsOver(BasicsOver(BasicsOver(OptionBasics(o, mask), FromSource(env).basics), FromSource(conf).basics),
                                      Defaults([]).basics), o, mask, env, conf)
  {
    hide Swap16;
  }

  lemma InitialSockets(o: Options, mask: set<Opt>)
    ensures SocketsComeFrom(SocketsOver(SocketsOver(SocketsOver(OptionSockets(o, mask), NO_SOCKETS), NO_SOCKETS), Defaults([]).sockets),
                            o, mask)
  {
  }

  lemma InitialLists(o: Options, mask: set<Opt>, env: Source, conf: Source, hostDomains: seq<string>)
    ensures ListsComeFrom(ListsOver(ListsOver(ListsOver(OptionLists(o, mask), FromSource(env).lists), FromSource(conf).lists),
                                    Defaults(hostDomains).lists), false, o, mask, env, conf, hostDomains)
  {
    hide Swap16;
  }

  lemma ListsTrimmed(l: Lists, primary: bool, o: Options, mask: set<Opt>, env: Source, conf: Source, hostDomains: seq<string>)
    requires ListsComeFrom(l, false, o, mask, env, conf, hostDomains)
    ensures var all := l.servers.value;
            ListsComeFrom(if primary && |all| > 1 then l.(servers := Some(all[..1])) else l, primary, o, mask, env, conf, hostDomains)
  {
    hide ServersComeFrom;
    ServersTrimmed(l.servers.value, primary, o, mask, env, conf);
  }

  lemma ServersTrimmed(all: seq<ServerState>, primary: bool, o: Options, mask: set<Opt>, env: Source, conf: Source)
    requires ServersComeFrom(all, false, o, mask, env, conf)
    ensures ServersComeFrom(if primary && |all| > 1 then all[..1] else all, primary, o, mask, env, conf)
  {
  }

  /** ARES_FLAG_PRIMARY is the second lowest bit of the flags. */
  lemma PrimaryIsBitOne(rest: int, low: nat)
    requires low < 4
    ensures Primary(4 * rest + low) <==> low == 2 || low == 3
  {
  }

  /** A server is saved exactly if it is IPv4 on the default port, in its place among the others. */
  lemma {:induction false} SavedServer(before: seq<ServerState>, s: ServerState, after: seq<ServerState>)
    ensures DefaultV4Addresses(before + [s] + after)
            == DefaultV4Addresses(before)
               + (if s.family == INET && s.udpPort == 0 && s.tcpPort == 0 then [s.addr] else [])
               + DefaultV4Addresses(after)
    decreases |after|
  {
    var all := before + [s] + after;
    if after == [] {
      assert all[..|all| - 1] == before;
    } else {
      var n := |after| - 1;
      assert all[..|all| - 1] == before + [s] + after[..n];
      SavedServer(before, s, after[..n]);
    }
  }

  lemma InitialIsReady(o: Options, mask: set<Opt>, env: Source, conf: Source, host: Option<seq<string>>)
    requires GoodSource(env) && GoodSource(conf)
    ensures Initial(o, mask, env, conf, host).Ready()
  {
    hide Swap16;
    var c := Combined(o, mask, env, conf, HostDomains(host));
    assert c.basics.flags != UNSET;
    assert InRange(c.lists.servers.value);
    hide Over;
    assert c.Ready();
  }

  method InitOptions(o: Options, mask: set<Opt>, env: Source, conf: Source, host: Option<seq<string>>)
    returns (status: Status, channel: Channel?)
    requires GoodSource(env) && GoodSource(conf)
    // A source may fail, and so may the host name where no search list is given.
    ensures status == if env.status != SUCCESS then env.status
                      else if conf.status != SUCCESS then conf.status
                      else if DOMAINS !in mask && env.domains.None? && conf.domains.None? && host.None? then EBADNAME
                      else SUCCESS
    ensures channel != null <==> status == SUCCESS
    ensures channel != null ==> fresh(channel) && channel.optmask == mask && FieldsComeFrom(channel.config, o, mask, env, conf, host)
    ensures channel != null ==> channel.config == Initial(o, mask, env, conf, host) && channel.config.Ready()
  {
    hide BasicsOver, SocketsOver, OptionBasics, OptionSockets, Defaults, InRange, FieldsComeFrom;
    InitialIsReady(o, mask, env, conf, host);
    InitialFields(o, mask, env, conf, host);
    var c := new Channel();
    OverBlank(FromOptions(o, mask));
    c.InitByOptions(o, mask);
    status := env.status;
    if status == SUCCESS {
      c.InitBySource(env);
      status := conf.status;
      if status == SUCCESS {
        c.InitBySource(conf);
      }
    }
    var status2 := c.InitByDefaults(host);
    if status == SUCCESS {
      status := status2;
    }
    if status != SUCCESS {
      return status, null;
    }
    var servers := c.config.lists.servers.value;
    if Primary(c.config.basics.flags) && |servers| > 1 {
      c.config := c.config.(lists := c.config.lists.(servers := Some(servers[..1])));
    }
    return SUCCESS, c;
  }

  // ----- Saving and duplicating

  const SAVED_MASK := {FLAGS, TRIES, NDOTS, UDP_PORT, TCP_PORT, SOCK_STATE_CB, SERVERS, DOMAINS, LOOKUPS, SORTLIST, TIMEOUTMS}

  method SaveOptions(channel: Channel) returns (status: Status, o: Options, mask: set<Opt>)
    requires channel.config.Ready()
    ensures status == if channel.config.Check() then SUCCESS else ENODATA
    ensures status == SUCCESS ==>
              var c := channel.config;
              && o == Options(c.basics.flags, c.basics.timeout, c.basics.tries, c.basics.ndots,
                              Swap16(c.sockets.udpPort), Swap16(c.sockets.tcpPort), c.sockets.stateCallback, 0, 0, 0,
                              DefaultV4Addresses(c.lists.servers.value), c.lists.domains.value, c.lists.lookups.value,
                              c.lists.sortlist.value)
              && mask == SAVED_MASK + (channel.optmask * {ROTATE})
  {
    hide Swap16, InRange;
    o, mask := Options(0, 0, 0, 0, 0, 0, 0, 0, 0, 0, [], [], "", []), {};
    var c := channel.config;
    if !c.Check() {
      return ENODATA, o, mask;
    }
    mask := SAVED_MASK + (channel.optmask * {ROTATE});
    var servers := CopyDefaultV4(c.lists.servers.value);
    o := Options(c.basics.flags, c.basics.timeout, c.basics.tries, c.basics.ndots,
                 Swap16(c.sockets.udpPort), Swap16(c.sockets.tcpPort), c.sockets.stateCallback, 0, 0, 0,
                 servers, c.lists.domains.value, c.lists.lookups.value, c.lists.sortlist.value);
    return SUCCESS, o, mask;
  }

  method CopyDefaultV4(servers: seq<ServerState>) returns (addrs: seq<Octets>)
    ensures addrs == DefaultV4Addresses(servers)
  {
    addrs := [];
    var i := 0;
    while i < |servers|
      invariant 0 <= i <= |servers| && addrs == DefaultV4Addresses(servers[..i])
    {
      assert servers[..i + 1][..i] == servers[..i];
      if DefaultV4(servers[i]) {
        addrs := addrs + [servers[i].addr];
      }
      i := i + 1;
    }
    assert servers[..i] == servers;
  }

  /** The condition under which a copy keeps only the first server. */
  predicate LosesServers(c: Config)
    requires c.lists.servers.Some?
  {
    Primary(c.basics.flags) && |c.lists.servers.value| > 1 && forall s <- c.lists.servers.value :: DefaultV4(s)
  }

  /** The configuration a copy should have: the source's own, except for what is not saved. */
  function Copied(c: Config, mask: set<Opt>, env: Source, conf: Source): Config
    requires c.lists.servers.Some?
  {
    Config(c.basics.(rotate := if ROTATE in mask then 1 else First(First(env.rotate, conf.rotate), 0)),
           c.sockets.(ednsSize := EDNSPACKETSZ, sendBuffer := UNSET, receiveBuffer := UNSET),
           if LosesServers(c) then c.lists.(servers := Some(c.lists.servers.value[..1])) else c.lists)
  }

  lemma SavedBasics(o: Options, mask: set<Opt>, b: Basics, env: Source, conf: Source)
    requires b.flags != UNSET && b.timeout != UNSET && b.tries != UNSET && b.ndots != UNSET
    requires o.flags == b.flags && o.timeout == b.timeout && o.tries == b.tries && o.ndots == b.ndots
    requires SAVED_MASK <= mask
    ensures BasicsOver(BasicsOver(BasicsOver(OptionBasics(o, mask), FromSource(env).basics), FromSource(conf).basics), Defaults([]).basics)
            == b.(rotate := if ROTATE in mask then 1 else First(First(env.rotate, conf.rotate), 0))
  {
    assert FLAGS in SAVED_MASK && TRIES in SAVED_MASK && NDOTS in SAVED_MASK && TIMEOUTMS in SAVED_MASK;
  }

  lemma SavedSockets(o: Options, mask: set<Opt>, s: Sockets)
    requires 0 <= s.udpPort < 0x1_0000 && 0 <= s.tcpPort < 0x1_0000 && o.stateCallback == s.stateCallback
    requires o.udpPort == Swap16(s.udpPort) && o.tcpPort == Swap16(s.tcpPort)
    requires SAVED_MASK <= mask && EDNSPSZ !in mask && SOCK_SNDBUF !in mask && SOCK_RCVBUF !in mask
    ensures SocketsOver(SocketsOver(SocketsOver(OptionSockets(o, mask), NO_SOCKETS), NO_SOCKETS), Defaults([]).sockets)
            == s.(ednsSize := EDNSPACKETSZ, sendBuffer := UNSET, receiveBuffer := UNSET)
  {
    hide Swap16;
    SwapTwice(s.udpPort); SwapTwice(s.tcpPort);
    assert UDP_PORT in SAVED_MASK && TCP_PORT in SAVED_MASK && SOCK_STATE_CB in SAVED_MASK;
  }

  lemma SavedLists(o: Options, mask: set<Opt>, l: Lists, env: Source, conf: Source, hostDomains: seq<string>)
    requires l.servers.Some? && l.domains == Some(o.domains) && l.lookups == Some(o.lookups) && l.sortlist == Some(o.sortlist)
    requires SAVED_MASK <= mask
    ensures ListsOver(ListsOver(ListsOver(OptionLists(o, mask), FromSource(env).lists), FromSource(conf).lists), Defaults(hostDomains).lists)
            == l.(servers := Some(V4Servers(o.servers)))
  {
    hide V4Servers;
    assert SERVERS in SAVED_MASK && DOMAINS in SAVED_MASK && LOOKUPS in SAVED_MASK && SORTLIST in SAVED_MASK;
  }

  function FirstIfPrimary(flags: int, servers: seq<ServerState>): seq<ServerState>
  {
    if Primary(flags) && |servers| > 1 then servers[..1] else servers
  }

  /** What a channel initialised with saved options has: all but the special servers. */
  lemma SavedConfig(c: Config, m: set<Opt>, o: Options, env: Source, conf: Source, host: Option<seq<string>>)
    requires c.Ready() && c.Check() && SavedFrom(c, o)
    ensures var mask := SAVED_MASK + (m * {ROTATE});
            DOMAINS in mask && Initial(o, mask, env, conf, host)
            == Copied(c, m, env, conf).(lists := c.lists.(servers := Some(FirstIfPrimary(c.basics.flags, V4Servers(o.servers)))))
  {
    hide Swap16, V4Servers, BasicsOver, SocketsOver, ListsOver, OptionBasics, OptionSockets, OptionLists, Primary, LosesServers;
    var mask := SAVED_MASK + (m * {ROTATE});
    assert ROTATE in mask <==> ROTATE in m;
    SavedBasics(o, mask, c.basics, env, conf);
    SavedSockets(o, mask, c.sockets);
    SavedLists(o, mask, c.lists, env, conf, HostDomains(host));
  }

  /** The options that SaveOptions fills in. */
  predicate SavedFrom(c: Config, o: Options)
    requires c.Ready() && c.Check()
  {
    && o.flags == c.basics.flags && o.timeout == c.basics.timeout && o.tries == c.basics.tries && o.ndots == c.basics.ndots
    && o.udpPort == Swap16(c.sockets.udpPort) && o.tcpPort == Swap16(c.sockets.tcpPort)
    && o.stateCallback == c.sockets.stateCallback
    && o.servers == DefaultV4Addresses(c.lists.servers.value) && Some(o.domains) == c.lists.domains
    && Some(o.lookups) == c.lists.lookups && Some(o.sortlist) == c.lists.sortlist
  }

  method HasSpecialServer(servers: seq<ServerState>) returns (special: bool)
    ensures special <==> exists s <- servers :: !DefaultV4(s)
  {
    for i := 0 to |servers|
      invariant forall k | 0 <= k < i :: DefaultV4(servers[k])
    {
      if servers[i].family != INET || servers[i].udpPort != 0 || servers[i].tcpPort != 0 {
        assert servers[i] in servers;
        return true;
      }
    }
    return false;
  }

  /** Fetches the servers and stores them in a new table, which is the same one. */
  method CloneServers(servers: seq<ServerState>) returns (clone: seq<ServerState>)
    requires InRange(servers)
    ensures clone == servers
  {
    hide Fetched, InRange;
    var nodes := FetchServers(servers);
    clone := StoreServers(nodes);
    FetchedThenStored(servers, clone);
  }

  /** When a copy has the source's whole configuration: nothing is lost that saving leaves out. */
  predicate CopiesExactly(c: Config, mask: set<Opt>, env: Source, conf: Source)
    requires c.lists.servers.Some?
  {
    && c.basics.rotate == (if ROTATE in mask then 1 else First(First(env.rotate, conf.rotate), 0))
    && c.sockets.ednsSize == EDNSPACKETSZ && c.sockets.sendBuffer == UNSET && c.sockets.receiveBuffer == UNSET
    && !LosesServers(c)
  }

  lemma CopiedOrNot(c: Config, mask: set<Opt>, env: Source, conf: Source)
    requires c.lists.servers.Some?
    ensures Copied(c, mask, env, conf) == c <==> CopiesExactly(c, mask, env, conf)
    ensures Copied(c, mask, env, conf).lists == c.lists <==> !LosesServers(c)
  {
    hide Primary, DefaultV4;
  }

  /** Duplicates a channel; servers that are not all IPv4 on the default port are cloned separately. */
  method Dup(src: Channel, env: Source, conf: Source, host: Option<seq<string>>) returns (status: Status, dest: Channel?)
    requires src.config.Ready() && GoodSource(env) && GoodSource(conf)
    ensures dest != null <==> status == SUCCESS
    ensures status == if !src.config.Check() then ENODATA else if env.status != SUCCESS then env.status else conf.status
    ensures dest != null ==>
              && fresh(dest) && dest.config == Copied(src.config, src.optmask, env, conf)
              && dest.optmask == SAVED_MASK + (src.optmask * {ROTATE})
              && dest.createCallback == src.createCallback && dest.configCallback == src.configCallback
              && dest.localDevice == src.localDevice && dest.localIp4 == src.localIp4 && dest.localIp6 == src.localIp6
    ensures dest != null ==>
              && (dest.config == src.config <==> CopiesExactly(src.config, src.optmask, env, conf))
              && (dest.config.lists == src.config.lists <==> !LosesServers(src.config))
  {
    hide Initial, InitStatus, FieldsComeFrom, CopiesExactly, Swap16, InRange, V4Servers, DefaultV4, DefaultV4Addresses, Primary;
    ghost var c := src.config;
    var o, mask;
    status, o, mask := SaveOptions(src);
    if status != SUCCESS {
      return status, null;
    }
    CopiedOrNot(c, src.optmask, env, conf);
    SavedConfig(c, src.optmask, o, env, conf, host);
    SavedStatus(o, mask, env, conf, host);
    status, dest := InitOptions(o, mask, env, conf, host);
    if status != SUCCESS {
      return status, null;
    }
    dest.createCallback, dest.configCallback := src.createCallback, src.configCallback;
    dest.localDevice, dest.localIp4, dest.localIp6 := src.localDevice, src.localIp4, src.localIp6;
    var servers := src.config.lists.servers.value;
    var special := HasSpecialServer(servers);
    if special {
      var clone := CloneServers(servers);
      dest.config := dest.config.(lists := dest.config.lists.(servers := Some(clone)));
    } else {
      AllDefaultV4(servers);
    }
  }

  lemma SavedStatus(o: Options, mask: set<Opt>, env: Source, conf: Source, host: Option<seq<string>>)
    requires DOMAINS in mask
    ensures InitStatus(o, mask, env, conf, host) == if env.status != SUCCESS then env.status else conf.status
  {
  }

  // ----- When copies differ

  /** Options under which a new channel has only what saving keeps. */
  predicate SavesAll(o: Options, mask: set<Opt>)
  {
    && (EDNSPSZ in mask ==> o.ednsSize == UNSET || o.ednsSize == EDNSPACKETSZ)
    && (SOCK_SNDBUF in mask ==> o.sendBuffer == UNSET)
    && (SOCK_RCVBUF in mask ==> o.receiveBuffer == UNSET)
  }

  lemma NewChannelCopies(o: Options, mask: set<Opt>, env: Source, conf: Source, host: Option<seq<string>>)
    ensures var c := Initial(o, mask, env, conf, host);
            && c.basics.rotate == (if ROTATE in mask then 1 else First(First(env.rotate, conf.rotate), 0))
            && !LosesServers(c)
            && (CopiesExactly(c, mask, env, conf) <==> SavesAll(o, mask))
  {
    hide Swap16, V4Servers, DefaultV4;
  }

  /**
   A new channel duplicated in the same environment: rotation and servers are always
   kept, and the copy is the same in everything if and only if the options ask for
   no other EDNS size and no socket buffer size.
   */
  method InitThenDup(o: Options, mask: set<Opt>, env: Source, conf: Source, host: Option<seq<string>>)
    returns (status: Status, channel: Channel?, copy: Channel?)
    requires GoodSource(env) && GoodSource(conf)
    ensures channel != null <==> InitStatus(o, mask, env, conf, host) == SUCCESS
    ensures channel != null ==> (copy != null <==> channel.config.Check())
    ensures copy != null ==> channel != null && copy != channel
    ensures copy != null ==> copy.config.basics == channel.config.basics && copy.config.lists == channel.config.lists
    ensures copy != null ==> (copy.config == channel.config <==> SavesAll(o, mask))
  {
    hide Initial, CopiesExactly, LosesServers, SavesAll, InRange, FieldsComeFrom;
    copy := null;
    status, channel := InitOptions(o, mask, env, conf, host);
    if status == SUCCESS {
      NewChannelCopies(o, mask, env, conf, host);
      status, copy := Dup(channel, env, conf, host);
    }
  }

  /** Copying a copy changes nothing more, if the environment still says the same. */
  method DupTwice(src: Channel, env: Source, conf: Source, host: Option<seq<string>>)
    returns (status: Status, first: Channel?, second: Channel?)
    requires src.config.Ready() && GoodSource(env) && GoodSource(conf)
    ensures first != null <==> second != null
    ensures second != null ==> second != first && second.config == first.config && second.optmask == first.optmask
  {
    hide Copied, CopiesExactly, LosesServers, InRange;
    second := null;
    status, first := Dup(src, env, conf, host);
    if status == SUCCESS {
      CopyOfCopy(src.config, src.optmask, env, conf);
      status, second := Dup(first, env, conf, host);
    }
  }

  lemma CopyOfCopy(c: Config, mask: set<Opt>, env: Source, conf: Source)
    requires c.Ready() && c.Check()
    ensures var d := Copied(c, mask, env, conf);
            d.Ready() && d.Check() && Copied(d, SAVED_MASK + (mask * {ROTATE}), env, conf) == d
    ensures SAVED_MASK + ((SAVED_MASK + (mask * {ROTATE})) * {ROTATE}) == SAVED_MASK + (mask * {ROTATE})
  {
    hide Primary;
    var d := Copied(c, mask, env, conf);
    assert ROTATE in SAVED_MASK + (mask * {ROTATE}) <==> ROTATE in mask;
    assert !LosesServers(d);
  }

  const NO_OPTIONS := Options(0, 0, 0, 0, 0, 0, 0, 0, 0, 0, [], [], "", [])
  const SILENT := Source(SUCCESS, UNSET, UNSET, UNSET, UNSET, None, None, None, None)

  /** A channel told of another EDNS size, or of socket buffer sizes, has a copy that does not know them. */
  lemma SizesAreLost()
    ensures var o := NO_OPTIONS.(ednsSize := 4096, sendBuffer := 1, receiveBuffer := 2);
            var mask := {EDNSPSZ, SOCK_SNDBUF, SOCK_RCVBUF};
            var c := Initial(o, mask, SILENT, SILENT, Some([]));
            var d := Copied(c, mask, SILENT, SILENT);
            && InitStatus(o, mask, SILENT, SILENT, Some([])) == SUCCESS && c.Check()
            && c.sockets.ednsSize == 4096 && d.sockets.ednsSize == EDNSPACKETSZ
            && c.sockets.sendBuffer == 1 && d.sockets.sendBuffer == UNSET
            && c.sockets.receiveBuffer == 2 && d.sockets.receiveBuffer == UNSET
  {
    hide Swap16, V4Servers;
  }

  /** Rotation that came from the environment is lost when the environment no longer asks for it. */
  lemma RotationIsLost()
    ensures var env := SILENT.(rotate := 1);
            var c := Initial(NO_OPTIONS, {}, env, SILENT, Some([]));
            && InitStatus(NO_OPTIONS, {}, env, SILENT, Some([])) == SUCCESS && c.Check()
            && c.basics.rotate == 1
            && Copied(c, {}, SILENT, SILENT).basics.rotate == 0
            && Copied(c, {}, env, SILENT).basics.rotate == 1
  {
    hide Swap16, V4Servers;
  }

  lemma PlainServers(a: Octets, b: Octets, servers: seq<ServerState>)
    requires Stored([Node(INET, a, 0, 0), Node(INET, b, 0, 0)], servers)
    ensures servers == [V4Server(a), V4Server(b)] && servers[..1] == [V4Server(a)]
  {
    var s, t := servers[0], servers[1];
    assert servers == [s, t] && s in servers && t in servers;
    assert Fetched(s) == Node(INET, a, 0, 0) && Fetched(t) == Node(INET, b, 0, 0);
    SwapTwice(s.udpPort); SwapTwice(s.tcpPort); SwapTwice(t.udpPort); SwapTwice(t.tcpPort);
  }

  /** A primary channel that is given two plain servers later has a copy with the first one only. */
  method ServersAreLost(a: Octets, b: Octets) returns (channel: Channel?, copy: Channel?)
    ensures channel != null && copy != null && channel.config.lists.servers == Some([V4Server(a), V4Server(b)])
    ensures copy.config.lists.servers == Some([V4Server(a)])
  {
    hide V4Servers, CopiesExactly, Stored, InRange, Swap16, BasicsOver, SocketsOver, FieldsComeFrom;
    var o := NO_OPTIONS.(flags := 2);
    var status;
    PrimaryChannel();
    status, channel := InitOptions(o, {FLAGS}, SILENT, SILENT, Some([]));
    channel.SetServersPorts([Node(INET, a, 0, 0), Node(INET, b, 0, 0)]);
    PlainServers(a, b, channel.config.lists.servers.value);
    status, copy := Dup(channel, SILENT, SILENT, Some([]));
  }

  lemma PrimaryChannel()
    ensures var c := Initial(NO_OPTIONS.(flags := 2), {FLAGS}, SILENT, SILENT, Some([]));
            c.basics.flags == 2 && c.Check() && Primary(2)
    ensures InitStatus(NO_OPTIONS.(flags := 2), {FLAGS}, SILENT, SILENT, Some([])) == SUCCESS
  {
    hide Swap16, V4Servers;
  }
}
