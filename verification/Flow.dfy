/** Flow decisions, the loop guard, and what handling a flow does. */
module Flow {
  import opened Bytes
  import Rules

  datatype QuicPolicy = DropQuic | AllowQuic

  function IndexFor(iface: Interface, ip: IpAddr): Option<nat> {
    match ip
    case V4(_) => iface.v4
    case V6(_) => iface.v6
  }

  datatype ProxyConfig = ProxyConfig(id: nat, sendDomain: bool)

  datatype Engine = Engine(
    rules: seq<Rules.Rule>, configs: seq<ProxyConfig>, localhostViaProxy: bool,
    quicPort: nat, quicPolicy: QuicPolicy, pid: nat, iface: Interface)

  datatype Facts = Facts(dest: SocketAddr, isUdp: bool, pid: Option<nat>, process: string, domain: Option<string>)

  datatype Decision = ConnectDirect | RelayVia(config: nat) | DropFlow

  predicate IsLoopback(ip: IpAddr) {
    match ip
    case V4(o) => o[0] == 127
    case V6(o) => o[15] == 1 && forall i :: 0 <= i < 15 ==> o[i] == 0
  }

  /** Multicast (224.0.0.0/4, ff00::/8) or the IPv4 broadcast address. */
  predicate IsGroup(ip: IpAddr) {
    match ip
    case V4(o) => 224 <= o[0] <= 239 || o == [255, 255, 255, 255]
    case V6(o) => o[0] == 255
  }

  function Decide(e: Engine, f: Facts): Decision {
    if f.pid == Some(e.pid) then
      if !IsLoopback(f.dest.ip) && IndexFor(e.iface, f.dest.ip).None? then DropFlow else ConnectDirect
    else if IsLoopback(f.dest.ip) && !e.localhostViaProxy then ConnectDirect
    else if IsGroup(f.dest.ip) then DropFlow
    else if IsQuic(e, f) then DropFlow
    else
      var m := Rules.Outcome(e.rules, Rules.Connection(f.process, f.dest, f.isUdp, f.domain));
      match m.action
      case Direct => ConnectDirect
      case Block => DropFlow
      case Proxy => RelayVia(m.proxyId)
  }

  predicate IsQuic(e: Engine, f: Facts) { f.isUdp && f.dest.port == e.quicPort && e.quicPolicy.DropQuic? }

  /** The decision on a flow if the rules, the process and the cached name were these. */
  function DecideUnder(e: Engine, f: Facts, rules: seq<Rules.Rule>, process: string, domain: Option<string>): Decision {
    Decide(e.(rules := rules), f.(process := process, domain := domain))
  }

  function AnyOf(action: Rules.RuleAction): Rules.Rule {
    Rules.Rule(Rules.Everything, Rules.Everything, Rules.Everything, Rules.Everything, None, Rules.Both, action, 0)
  }

  lemma AnyOfApplies(action: Rules.RuleAction, c: Rules.Connection)
    ensures Rules.Outcome([AnyOf(action)], c) == Rules.RuleMatch(action, 0)
    ensures Rules.Outcome([], c) == Rules.RuleMatch(Rules.Direct, 0)
  {
    var r := AnyOf(action);
    Rules.SelectOne(r, true);
    Rules.SelectOne(r, false);
    assert [] + [r] == [r];
    assert Rules.First([r], c) == Some(r);
  }

  /** Exactly what is dropped under every rule set, process and name: our own flows that could not be pinned,
      and foreign group or QUIC traffic that is not exempt loopback. */
  lemma DroppedWhateverTheRules(e: Engine, f: Facts)
    ensures (forall rules, process, domain :: DecideUnder(e, f, rules, process, domain) == DropFlow) <==>
            if f.pid == Some(e.pid) then !IsLoopback(f.dest.ip) && IndexFor(e.iface, f.dest.ip).None?
            else !(IsLoopback(f.dest.ip) && !e.localhostViaProxy) && (IsGroup(f.dest.ip) || IsQuic(e, f))
  {
    hide Rules.Outcome;
    AnyOfApplies(Rules.Direct, Rules.Connection("", f.dest, f.isUdp, None));
    assert DecideUnder(e, f, [], "", None) != DropFlow || f.pid == Some(e.pid) || IsGroup(f.dest.ip) || IsQuic(e, f);
  }

  /** And what is dropped under none: our own flows that leave pinned or to loopback, and exempt loopback. */
  lemma PassedWhateverTheRules(e: Engine, f: Facts)
    ensures (forall rules, process, domain :: DecideUnder(e, f, rules, process, domain) != DropFlow) <==>
            if f.pid == Some(e.pid) then IsLoopback(f.dest.ip) || IndexFor(e.iface, f.dest.ip).Some?
            else IsLoopback(f.dest.ip) && !e.localhostViaProxy
  {
    hide Rules.Outcome;
    AnyOfApplies(Rules.Block, Rules.Connection("", f.dest, f.isUdp, None));
    assert DecideUnder(e, f, [AnyOf(Rules.Block)], "", None) == DropFlow || f.pid == Some(e.pid)
           || (IsLoopback(f.dest.ip) && !e.localhostViaProxy);
  }

  /** The config with that id, else the first one. */
  function FindConfig(configs: seq<ProxyConfig>, id: nat): Option<ProxyConfig> {
    match WithId(configs, id)
    case Some(c) => Some(c)
    case None => if configs == [] then None else Some(configs[0])
  }

  function WithId(configs: seq<ProxyConfig>, id: nat): (c: Option<ProxyConfig>)
    ensures c.Some? ==> c.value in configs && c.value.id == id
    ensures c.None? ==> forall d :: d in configs ==> d.id != id
  {
    if configs == [] then None else if configs[0].id == id then Some(configs[0]) else WithId(configs[1..], id)
  }

  /** Configs get ids 1, 2, … in order; with none registered the default one is used. */
  method BuildConfigs(registered: seq<ProxyConfig>, fallback: ProxyConfig) returns (configs: seq<ProxyConfig>)
    ensures Built(configs)
    ensures registered != [] ==> |configs| == |registered|
    ensures registered != [] ==> forall i :: 0 <= i < |configs| ==> configs[i].sendDomain == registered[i].sendDomain
  {
    configs := registered;
    if configs == [] {
      configs := [fallback];
    }
    var given := configs;
    for i := 0 to |configs|
      invariant |configs| == |given|
      invariant forall j :: 0 <= j < i ==> configs[j] == given[j].(id := j + 1)
      invariant forall j :: i <= j < |configs| ==> configs[j] == given[j]
    {
      configs := configs[i := configs[i].(id := i + 1)];
    }
  }

  predicate Built(configs: seq<ProxyConfig>) {
    configs != [] && forall i :: 0 <= i < |configs| ==> configs[i].id == i + 1
  }

  /** In a built engine every proxy decision has a config: the one it names, or else the first. */
  lemma BuiltConfigFound(configs: seq<ProxyConfig>, id: nat)
    requires Built(configs)
    ensures FindConfig(configs, id) == Some(configs[if 1 <= id <= |configs| then id - 1 else 0])
  {
    if 1 <= id <= |configs| {
      assert configs[id - 1] in configs;
    }
    var found := WithId(configs, id);
    if found.Some? {
      var k :| 0 <= k < |configs| && configs[k] == found.value;
    }
  }

  // ---- The loop guard ----

  /** An outbound socket the engine opens; `pinned` when it is really bound to the physical interface. */
  datatype Dial = Dial(dest: SocketAddr, isUdp: bool, pinned: bool)

  /** Whether handling a flow may open socket `d`. Direct relays pin when an interface is known,
      though a pin may fail unless `pinsSucceed`. A proxied TCP flow opens unpinned sockets to
      whatever the proxy host is or resolves through: any address at all. */
  predicate MayDial(e: Engine, f: Facts, d: Dial, pinsSucceed: bool) {
    match Decide(e, f)
    case DropFlow => false
    case RelayVia(id) =>
      if f.isUdp then DirectDial(e, f, d, pinsSucceed) else FindConfig(e.configs, id).Some? && !d.pinned
    case ConnectDirect => DirectDial(e, f, d, pinsSucceed)
  }

  predicate DirectDial(e: Engine, f: Facts, d: Dial, pinsSucceed: bool) {
    && d.dest == f.dest && d.isUdp == f.isUdp
    && (if IndexFor(e.iface, f.dest.ip).None? then !d.pinned else pinsSucceed ==> d.pinned)
  }

  /** The socket's packets come back through the tunnel: pinned sockets and loopback stay off it. */
  predicate Reenters(d: Dial) { !d.pinned && !IsLoopback(d.dest.ip) }

  /** A flow as it arrives in the tunnel; `own` when this process opened it. */
  datatype Arrival = Arrival(facts: Facts, own: bool)

  predicate Attributed(e: Engine, a: Arrival) { a.own <==> a.facts.pid == Some(e.pid) }

  ghost predicate Causes(e: Engine, a: Arrival, b: Arrival, pinsSucceed: bool) {
    exists d :: MayDial(e, a.facts, d, pinsSucceed) && Reenters(d)
      && b.own && b.facts.dest == d.dest && b.facts.isUdp == d.isUdp
  }

  /** Each flow of the chain was opened while handling the one before and re-entered the tunnel. */
  ghost predicate Chain(e: Engine, chain: seq<Arrival>, attributed: bool, pinsSucceed: bool) {
    && (attributed ==> forall i :: 0 <= i < |chain| ==> Attributed(e, chain[i]))
    && forall i {:trigger chain[i]} :: 0 < i < |chain| ==> Causes(e, chain[i - 1], chain[i], pinsSucceed)
  }

  /** Our own flows are never proxied, and are dialled only pinned or to loopback. */
  lemma OwnFlowsLeave(e: Engine, f: Facts)
    requires f.pid == Some(e.pid)
    ensures !Decide(e, f).RelayVia?
    ensures forall d :: MayDial(e, f, d, true) ==> d.pinned || IsLoopback(d.dest.ip)
  {
  }

  /** With sockets attributed and pins successful, for every rule set, proxy host and interface state,
      handling a flow makes at most one hop back into the tunnel, and handling our own makes none. */
  lemma LoopFreedom(e: Engine, chain: seq<Arrival>)
    requires Chain(e, chain, true, true)
    ensures |chain| <= 2 && (chain != [] && chain[0].own ==> |chain| == 1)
    ensures |chain| == 2 ==> !Decide(e, chain[1].facts).RelayVia?
  {
    hide Decide, MayDial, Causes;
    if |chain| >= 2 {
      HopIsToOwn(e, chain, 1);
      OwnFlowsLeave(e, chain[1].facts);
    }
    if |chain| > 2 {
      HopIsToOwn(e, chain, 2);
    }
  }

  lemma HopIsToOwn(e: Engine, chain: seq<Arrival>, i: nat)
    requires Chain(e, chain, true, true) && 0 < i < |chain|
    ensures !chain[i - 1].own && chain[i].own && chain[i].facts.pid == Some(e.pid)
  {
    hide Decide, MayDial;
    assert Causes(e, chain[i - 1], chain[i], true);
    OwnCausesNothing(e, chain[i - 1], chain[i]);
  }

  lemma OwnCausesNothing(e: Engine, a: Arrival, b: Arrival)
    requires Attributed(e, a)
    ensures a.own ==> !Causes(e, a, b, true)
  {
    hide Decide, MayDial;
    if a.own {
      OwnFlowsLeave(e, a.facts);
    }
  }

  // ---- Both hypotheses are needed ----

  const FAR := SocketAddr(V4([203, 0, 113, 9]), 8080)

  /** Everything is sent to a proxy that is not on this machine. */
  const REMOTE_PROXY := Engine(
    [AnyOf(Rules.Proxy)], [ProxyConfig(1, true)], false, 443, DropQuic, 7, Interface(Some(2), Some(2)))

  lemma ProxyAllProxies(e: Engine, f: Facts)
    requires e == REMOTE_PROXY && f.dest == FAR && !f.isUdp && f.pid != Some(e.pid)
    ensures Decide(e, f) == RelayVia(0)
  {
    hide Rules.Outcome;
    AnyOfApplies(Rules.Proxy, Rules.Connection(f.process, f.dest, f.isUdp, f.domain));
  }

  /** If our own sockets are not recognised, there are chains of every length. */
  lemma UnattributedChains(n: nat) returns (chain: seq<Arrival>)
    ensures |chain| == n && Chain(REMOTE_PROXY, chain, false, true)
  {
    hide Decide;
    var f := Facts(FAR, false, None, "", None);
    chain := seq(n, i => Arrival(f, true));
    ProxyAllProxies(REMOTE_PROXY, f);
    var d := Dial(FAR, false, false);
    assert MayDial(REMOTE_PROXY, f, d, true) && Reenters(d);
  }

  /** If pinning fails, so there are even when every flow is attributed correctly. */
  lemma UnpinnedChains(n: nat) returns (chain: seq<Arrival>)
    ensures |chain| == n && Chain(REMOTE_PROXY, chain, true, false)
  {
    var f := Facts(FAR, false, Some(7), "", None);
    chain := seq(n, i => Arrival(f, true));
    var d := Dial(FAR, false, false);
    assert MayDial(REMOTE_PROXY, f, d, false) && Reenters(d);
  }

  // ---- The domain lookup ----

  /** The cached name, looked up only when some rule needs it. */
  function DomainFor(e: Engine, lookup: IpAddr -> Option<string>, ip: IpAddr): Option<string> {
    if Rules.NeedsDomain(e.rules) then lookup(ip) else None
  }

  /** Skipping the lookup never changes a decision. */
  lemma GatedLookupDecidesTheSame(e: Engine, f: Facts, lookup: IpAddr -> Option<string>)
    ensures Decide(e, f.(domain := DomainFor(e, lookup, f.dest.ip))) == Decide(e, f.(domain := lookup(f.dest.ip)))
  {
    hide Rules.Outcome, IsGroup, IsLoopback;
    if !Rules.NeedsDomain(e.rules) {
      Rules.OutcomeIgnoresDomain(e.rules, Rules.Connection(f.process, f.dest, f.isUdp, lookup(f.dest.ip)), None);
    }
  }

  function TargetFor(cfg: ProxyConfig, domain: Option<string>, dest: SocketAddr): Target<string> {
    if cfg.sendDomain && domain.Some? then ToDomain(domain.value, dest.port) else ToIp(dest)
  }

  /** The proxy is given a known name exactly when its config asks for names and some rule filters on
      domains; a rule set without domain filters always hands out the bare address. */
  lemma TargetIsNamedExactly(e: Engine, cfg: ProxyConfig, lookup: IpAddr -> Option<string>, dest: SocketAddr)
    requires lookup(dest.ip).Some?
    ensures TargetFor(cfg, DomainFor(e, lookup, dest.ip), dest) == ToDomain(lookup(dest.ip).value, dest.port)
       <==> cfg.sendDomain && Rules.NeedsDomain(e.rules)
  {
  }

  /** With the plainest proxy-everything rule set a known name is not passed on. */
  lemma KnownNameNotPassedOn()
    ensures TargetFor(ProxyConfig(1, true), DomainFor(REMOTE_PROXY, ip => Some("example.com"), FAR.ip), FAR) == ToIp(FAR)
  {
    assert !Rules.NeedsDomain(REMOTE_PROXY.rules);
  }

  // ---- Handling and counting ----

  datatype Effect = Closed | Relayed(dial: Dial) | Proxied(config: ProxyConfig, target: Target<string>)

  /** A host talked to while connecting to the proxy: the proxy itself, or a name server on the way. */
  datatype Contact = Contact(addr: SocketAddr, isUdp: bool)

  /** The sockets for those are never pinned. */
  function Unpinned(contacts: seq<Contact>): seq<Dial> {
    seq(|contacts|, i requires 0 <= i < |contacts| => Dial(contacts[i].addr, contacts[i].isUdp, false))
  }

  /** One more when `c` holds. */
  function Tick(c: bool): nat { if c then 1 else 0 }

  class Netstack {
    const engine: Engine
    var tcpFlows: nat
    var udpFlows: nat
    var blocked: nat
    var quicDropped: nat
    var groupDropped: nat
    var proxyFallbacks: nat
    /** Flows accepted whose handler has not decided yet, and flows let through. */
    ghost var pending: nat
    ghost var passed: nat

    /** Every accepted flow is pending, let through, or counted under exactly one kind of drop. */
    ghost predicate Valid()
      reads this
    {
      && tcpFlows + udpFlows == pending + passed + blocked + quicDropped + groupDropped
      && proxyFallbacks <= blocked
    }

    constructor (engine: Engine)
      ensures Valid() && this.engine == engine && pending == passed == 0 && tcpFlows == udpFlows == proxyFallbacks == 0
    {
      this.engine := engine;
      tcpFlows, udpFlows, blocked, quicDropped, groupDropped, proxyFallbacks := 0, 0, 0, 0, 0, 0;
      pending, passed := 0, 0;
    }

    method Accept(isUdp: bool)
      requires Valid()
      modifies this
      ensures Valid() && pending == old(pending) + 1
      ensures tcpFlows == old(tcpFlows) + Tick(!isUdp) && udpFlows == old(udpFlows) + Tick(isUdp)
      ensures unchanged(`passed, `blocked, `quicDropped, `groupDropped, `proxyFallbacks)
    {
      if isUdp {
        udpFlows := udpFlows + 1;
      } else {
        tcpFlows := tcpFlows + 1;
      }
      pending := pending + 1;
    }

    /** A TCP flow is connected to its destination only on a direct decision: one selected for a proxy
        reaches the proxy or is closed. `contacts` is everything that connecting to the proxy talks to; the
        sockets opened are ones the loop guard reckons with, whether or not the handshake succeeds. */
    method HandleTcp(f: Facts, pinOk: bool, contacts: seq<Contact>, proxyUp: bool)
      returns (effect: Effect, sockets: seq<Dial>)
      requires Valid() && pending > 0 && !f.isUdp
      modifies this
      ensures Valid() && pending == old(pending) - 1
      ensures forall i :: 0 <= i < |sockets| ==> MayDial(engine, f, sockets[i], pinOk)
      ensures effect.Relayed? <==> Decide(engine, f).ConnectDirect?
      ensures effect.Relayed? ==> sockets == [effect.dial] && effect.dial.dest == f.dest
      ensures effect.Proxied? <==> proxyUp && Decide(engine, f).RelayVia?
                                   && FindConfig(engine.configs, Decide(engine, f).config).Some?
      ensures effect.Proxied? ==>
                && FindConfig(engine.configs, Decide(engine, f).config) == Some(effect.config)
                && effect.target == TargetFor(effect.config, f.domain, f.dest)
      ensures Decide(engine, f).RelayVia? ==>
                sockets == if FindConfig(engine.configs, Decide(engine, f).config).Some? then Unpinned(contacts) else []
      ensures Decide(engine, f).DropFlow? ==> sockets == []
      ensures blocked == old(blocked) + Tick(effect == Closed)
      ensures proxyFallbacks == old(proxyFallbacks) + Tick(effect == Closed && Decide(engine, f).RelayVia?)
      ensures unchanged(`tcpFlows, `udpFlows, `quicDropped, `groupDropped)
    {
      hide Decide;
      pending := pending - 1;
      sockets := [];
      match Decide(engine, f)
      case DropFlow =>
        blocked := blocked + 1;
        effect := Closed;
      case ConnectDirect =>
        passed := passed + 1;
        effect := Relayed(Dial(f.dest, f.isUdp, IndexFor(engine.iface, f.dest.ip).Some? && pinOk));
        sockets := [effect.dial];
      case RelayVia(id) =>
        var cfg := FindConfig(engine.configs, id);
        if cfg.None? {
          proxyFallbacks := proxyFallbacks + 1;
          blocked := blocked + 1;
          return Closed, [];
        }
        var target := TargetFor(cfg.value, f.domain, f.dest);
        sockets := Unpinned(contacts);
        if proxyUp {
          passed := passed + 1;
          effect := Proxied(cfg.value, target);
        } else {
          proxyFallbacks := proxyFallbacks + 1;
          blocked := blocked + 1;
          effect := Closed;
        }
    }

    /** A UDP flow is dropped, under one counter, or relayed directly even when a rule said proxy. */
    method HandleUdp(f: Facts, pinOk: bool) returns (effect: Effect)
      requires Valid() && pending > 0 && f.isUdp
      modifies this
      ensures Valid() && pending == old(pending) - 1
      ensures effect == Closed <==> Decide(engine, f).DropFlow?
      ensures effect != Closed ==>
                effect.Relayed? && MayDial(engine, f, effect.dial, pinOk) && effect.dial.dest == f.dest
      ensures quicDropped == old(quicDropped) + Tick(effect == Closed && f.dest.port == engine.quicPort)
      ensures groupDropped
           == old(groupDropped) + Tick(effect == Closed && f.dest.port != engine.quicPort && IsGroup(f.dest.ip))
      ensures blocked
           == old(blocked) + Tick(effect == Closed && f.dest.port != engine.quicPort && !IsGroup(f.dest.ip))
      ensures unchanged(`tcpFlows, `udpFlows, `proxyFallbacks)
    {
      pending := pending - 1;
      if Decide(engine, f).DropFlow? {
        if f.dest.port == engine.quicPort {
          quicDropped := quicDropped + 1;
        } else if IsGroup(f.dest.ip) {
          groupDropped := groupDropped + 1;
        } else {
          blocked := blocked + 1;
        }
        return Closed;
      }
      passed := passed + 1;
      return Relayed(Dial(f.dest, f.isUdp, IndexFor(engine.iface, f.dest.ip).Some? && pinOk));
    }
  }

  /** With its proxy down, a flow that a rule sends there is closed and counted, not relayed. */
  method ProxyDownClosesFlow() returns (effect: Effect, blocked: nat, fallbacks: nat)
    ensures effect == Closed && blocked == 1 && fallbacks == 1
  {
    hide Decide;
    var f := Facts(FAR, false, None, "app", None);
    ProxyAllProxies(REMOTE_PROXY, f);
    var netstack := new Netstack(REMOTE_PROXY);
    netstack.Accept(false);
    var sockets;
    effect, sockets := netstack.HandleTcp(f, true, [Contact(FAR, false)], false);
    blocked, fallbacks := netstack.blocked, netstack.proxyFallbacks;
  }
}
