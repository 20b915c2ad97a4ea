/** buildIndex and its lookups (internal/analyze/analyze.go:103-242): what the
    index answers is what a scan of the snapshot would. */
module HostIndex {
  import opened PortConflicts
  import opened Text
  import opened Wrappers

  datatype Listener = Listener(address: string, port: int, process: string)

  datatype FirewallRule = FirewallRule(backend: string, chain: string, action: string, source: string,
                                       ports: seq<int>, dnatTo: string)

  datatype Policy = Policy(backend: string, table: string, chain: string, policy: string)

  datatype Snapshot = Snapshot(listeners: seq<Listener>, endpoints: seq<Endpoint>,
                               upstreams: seq<Named>, services: seq<Named>, rules: seq<FirewallRule>,
                               policies: seq<Policy>)

  /** An upstream: its service and name. A service: its name and active state. */
  datatype Named = Named(owner: string, text: string)

  predicate IsAcceptAction(action: string) { ToUpper(action) in {"ACCEPT", "ALLOW", "LIMIT"} }

  predicate IsInputChain(r: FirewallRule) {
    if r.backend == "firewalld" then true
    else
      var c := ToLower(r.chain);
      c == "input" || Contains(c, "user-input") || Contains(c, "ufw")
  }

  predicate IsDnat(r: FirewallRule) { r.action == "DNAT" && r.dnatTo != "" }

  predicate Allows(r: FirewallRule) { IsAcceptAction(r.action) && IsInputChain(r) }

  /** No rule is both, so the early continue for DNAT rules skips no allowed port. */
  lemma DnatAllowsNothing(r: FirewallRule)
    requires IsDnat(r)
    ensures !Allows(r)
  {
    assert ToUpper("DNAT") == "DNAT" by {
      assert "DNAT" == ['D'] + (['N'] + (['A'] + (['T'] + "")));
      assert "DNAT"[1..] == "NAT" && "NAT"[1..] == "AT" && "AT"[1..] == "T" && "T"[1..] == "";
      assert ToUpper("T") == "T" && ToUpper("AT") == "AT" && ToUpper("NAT") == "NAT";
    }
  }

  ghost predicate Holds(s: string, part: string) { exists pre, post :: s == pre + part + post }

  lemma ContainsIff(s: string, part: string)
    ensures Contains(s, part) <==> Holds(s, part)
  {
    if i :| 0 <= i <= |s| && part <= s[i..] {
      assert s == s[..i] + part + s[i..][|part|..];
    }
    if pre, post :| s == pre + part + post {
      assert s[|pre|..] == part + post;
    }
  }

  /** Which rules let traffic in: those that accept, in firewalld or in a chain that is INPUT or
      one of ufw's, however their case. */
  lemma AllowsIff(r: FirewallRule)
    ensures Allows(r) <==>
      && (ToUpper(r.action) == "ACCEPT" || ToUpper(r.action) == "ALLOW" || ToUpper(r.action) == "LIMIT")
      && (r.backend == "firewalld" || ToLower(r.chain) == "input" || Holds(ToLower(r.chain), "user-input")
          || Holds(ToLower(r.chain), "ufw"))
  {
    ContainsIff(ToLower(r.chain), "user-input");
    ContainsIff(ToLower(r.chain), "ufw");
  }

  // ---- direct scans of the snapshot ----

  predicate Listening(s: Snapshot, port: int) { exists l <- s.listeners :: l.port == port }

  predicate Forwarded(s: Snapshot, port: int) { exists r <- s.rules :: IsDnat(r) && port in r.ports }

  const ANYWHERE := {"", "Anywhere", "0.0.0.0/0", "::/0", "anywhere"}

  predicate OpenToAll(s: Snapshot, port: int) {
    exists r <- s.rules :: Allows(r) && port in r.ports && r.source in ANYWHERE
  }

  predicate Allowed(s: Snapshot, port: int) { exists r <- s.rules :: Allows(r) && port in r.ports }

  predicate Used(s: Snapshot, service: string, name: string) {
    exists e <- s.endpoints :: e.service == service && name in e.upstreams
  }

  predicate Defined(s: Snapshot, service: string, name: string) { Named(service, name) in s.upstreams }

  /** What the last entry of that name says. */
  predicate Active(services: seq<Named>, name: string) {
    if services == [] then false
    else
      var last := services[|services| - 1];
      if last.owner == name then last.text == "active" else Active(services[..|services| - 1], name)
  }

  /** The last INPUT policy of the filter table wins. */
  function InputPolicy(ps: seq<Policy>): string {
    if ps == [] then "unknown"
    else
      var p := ps[|ps| - 1];
      if p.backend == "iptables" && p.table == "filter" && p.chain == "INPUT" then p.policy
      else InputPolicy(ps[..|ps| - 1])
  }

  function Declared(es: seq<Endpoint>): nat {
    if es == [] then 0 else Declared(es[..|es| - 1]) + if es[|es| - 1].protocol != "udp" then 1 else 0
  }

  /** Whether the socket table shows the machine that the configuration describes. */
  predicate Comparable(s: Snapshot) {
    && s.listeners != []
    && (Declared(s.endpoints) < 3 || Corroborated(s, s.endpoints))
  }

  predicate Corroborated(s: Snapshot, es: seq<Endpoint>) {
    exists e <- es :: e.protocol != "udp" && Listening(s, e.port)
  }

  lemma CorroboratedNext(s: Snapshot, es: seq<Endpoint>, i: nat)
    requires i < |es|
    ensures Corroborated(s, es[..i + 1]) <==>
      Corroborated(s, es[..i]) || (es[i].protocol != "udp" && Listening(s, es[i].port))
    ensures Declared(es[..i + 1]) == Declared(es[..i]) + if es[i].protocol != "udp" then 1 else 0
  {
    assert es[..i + 1] == es[..i] + [es[i]] && es[..i + 1][..i] == es[..i];
  }

  ghost predicate LastNamed(services: seq<Named>, name: string, i: int) {
    0 <= i < |services| && services[i].owner == name && forall j :: i < j < |services| ==> services[j].owner != name
  }

  /** The last entry of a name decides whether it is active. */
  lemma {:induction false} ActiveIsLast(services: seq<Named>, name: string)
    ensures Active(services, name) <==> exists i :: LastNamed(services, name, i) && services[i].text == "active"
  {
    if services != [] {
      var n := |services| - 1;
      ActiveIsLast(services[..n], name);
      if services[n].owner != name {
        if i :| LastNamed(services[..n], name, i) && services[..n][i].text == "active" {
          assert forall j :: 0 <= j < n ==> services[j] == services[..n][j];
          assert LastNamed(services, name, i);
        }
        if i :| LastNamed(services, name, i) && services[i].text == "active" {
          assert LastNamed(services[..n], name, i);
        }
      } else {
        assert LastNamed(services, name, n);
      }
    }
  }

  predicate IsInputPolicy(p: Policy) { p.backend == "iptables" && p.table == "filter" && p.chain == "INPUT" }

  ghost predicate LastPolicy(ps: seq<Policy>, i: int) {
    0 <= i < |ps| && IsInputPolicy(ps[i]) && forall j :: i < j < |ps| ==> !IsInputPolicy(ps[j])
  }

  /** So does the last policy of INPUT, and without one nothing is known. */
  lemma {:induction false} PolicyIsLast(ps: seq<Policy>)
    ensures (forall i :: 0 <= i < |ps| ==> !IsInputPolicy(ps[i])) ==> InputPolicy(ps) == "unknown"
    ensures forall i :: LastPolicy(ps, i) ==> InputPolicy(ps) == ps[i].policy
  {
    if ps != [] {
      var n := |ps| - 1;
      PolicyIsLast(ps[..n]);
      forall i | LastPolicy(ps, i) ensures InputPolicy(ps) == ps[i].policy {
        if i < n {
          assert !IsInputPolicy(ps[n]) && LastPolicy(ps[..n], i);
        }
      }
    }
  }

  function TcpPlaces(es: seq<Endpoint>): set<int> { set i | 0 <= i < |es| && es[i].protocol != "udp" }

  lemma {:induction false} DeclaredCounts(es: seq<Endpoint>)
    ensures Declared(es) == |TcpPlaces(es)|
  {
    if es != [] {
      var n := |es| - 1;
      DeclaredCounts(es[..n]);
      assert TcpPlaces(es) == TcpPlaces(es[..n]) + if es[n].protocol != "udp" then {n} else {};
    }
  }

  /** Declarations and sockets cannot be compared exactly if there are no sockets, or three
      endpoints or more of which none is heard. */
  lemma ComparableIff(s: Snapshot)
    ensures !Comparable(s) <==>
      |s.listeners| == 0 || (|TcpPlaces(s.endpoints)| > 2 &&
        forall i, k :: 0 <= i < |s.endpoints| && 0 <= k < |s.listeners| && s.endpoints[i].protocol != "udp" ==>
          s.endpoints[i].port != s.listeners[k].port)
  {
    DeclaredCounts(s.endpoints);
    if Corroborated(s, s.endpoints) {
      var e :| e in s.endpoints && e.protocol != "udp" && Listening(s, e.port);
      var l :| l in s.listeners && l.port == e.port;
    }
  }

  // ---- the lists of the index ----

  function ListenersOn(ls: seq<Listener>, port: int): seq<Listener> {
    if ls == [] then []
    else ListenersOn(ls[..|ls| - 1], port) + if ls[|ls| - 1].port == port then [ls[|ls| - 1]] else []
  }

  function EndpointsOn(es: seq<Endpoint>, port: int): seq<Endpoint> {
    if es == [] then []
    else EndpointsOn(es[..|es| - 1], port) + if es[|es| - 1].port == port then [es[|es| - 1]] else []
  }

  class Index {
    var listenersByPort: map<int, seq<Listener>>
    var endpointsByPort: map<int, seq<Endpoint>>
    var upstreamUsed: set<string>
    var upstreamNames: set<string>
    var serviceActive: map<string, bool>
    var inputPolicy: string
    var allowedFrom: map<int, seq<string>>
    var dockerDNAT: set<int>
    var listenersComparable: bool

    ghost predicate ListenersDone(ls: seq<Listener>)
      reads this`listenersByPort
    {
      forall port :: At(listenersByPort, port) == ListenersOn(ls, port)
    }

    ghost predicate EndpointsDone(es: seq<Endpoint>)
      reads this`endpointsByPort, this`upstreamUsed
    {
      && (forall port :: At(endpointsByPort, port) == EndpointsOn(es, port))
      && forall key :: key in upstreamUsed <==> UsedKey(es, key)
    }

    ghost predicate RulesDone(rules: seq<FirewallRule>)
      reads this`allowedFrom, this`dockerDNAT
    {
      && (forall port, src :: src in At(allowedFrom, port) <==> SourceOf(rules, port, src))
      && forall port :: port in dockerDNAT <==> DnatOf(rules, port)
    }

    ghost predicate NamesDone(upstreams: seq<Named>)
      reads this`upstreamNames
    {
      forall key :: key in upstreamNames <==>
        exists i :: 0 <= i < |upstreams| && key == upstreams[i].owner + "|" + upstreams[i].text
    }

    ghost predicate ServicesDone(services: seq<Named>)
      reads this`serviceActive
    {
      forall name :: (name in serviceActive && serviceActive[name]) <==> Active(services, name)
    }

    ghost predicate ConfigDone(s: Snapshot)
      reads this`listenersByPort, this`endpointsByPort, this`upstreamUsed, this`upstreamNames, this`serviceActive
    {
      ListenersDone(s.listeners) && EndpointsDone(s.endpoints) && NamesDone(s.upstreams) && ServicesDone(s.services)
    }

    ghost predicate FirewallDone(s: Snapshot)
      reads this`inputPolicy, this`allowedFrom, this`dockerDNAT
    {
      RulesDone(s.rules) && inputPolicy == InputPolicy(s.policies)
    }

    ghost predicate Indexes(s: Snapshot)
      reads this
    {
      ConfigDone(s) && FirewallDone(s) && listenersComparable == Comparable(s)
    }

    method AddListeners(ls: seq<Listener>)
      requires listenersByPort == map[]
      modifies this`listenersByPort
      ensures ListenersDone(ls)
    {
      var i := 0;
      while i < |ls|
        invariant 0 <= i <= |ls| && ListenersDone(ls[..i])
      {
        var l := ls[i];
        assert ls[..i + 1][..i] == ls[..i];
        listenersByPort := listenersByPort[l.port := At(listenersByPort, l.port) + [l]];
        i := i + 1;
      }
      assert ls[..|ls|] == ls;
    }

    method AddUpstreams(e: Endpoint)
      modifies this`upstreamUsed
      ensures forall key :: key in upstreamUsed <==> key in old(upstreamUsed) || UsesKey(e, key)
    {
      var n := 0;
      while n < |e.upstreams|
        invariant 0 <= n <= |e.upstreams|
        invariant forall key :: key in upstreamUsed <==>
          key in old(upstreamUsed) || exists x <- e.upstreams[..n] :: key == e.service + "|" + x
      {
        assert e.upstreams[..n + 1] == e.upstreams[..n] + [e.upstreams[n]];
        upstreamUsed := upstreamUsed + {e.service + "|" + e.upstreams[n]};
        n := n + 1;
      }
      assert e.upstreams[..n] == e.upstreams;
    }

    method AddNames(upstreams: seq<Named>)
      requires upstreamNames == {}
      modifies this`upstreamNames
      ensures NamesDone(upstreams)
    {
      var i := 0;
      while i < |upstreams|
        invariant 0 <= i <= |upstreams| && NamesDone(upstreams[..i])
      {
        var u := upstreams[i];
        ghost var next := upstreams[..i + 1];
        assert next == upstreams[..i] + [u] && next[i] == u;
        upstreamNames := upstreamNames + {u.owner + "|" + u.text};
        i := i + 1;
      }
      assert upstreams[..|upstreams|] == upstreams;
    }

    method AddServices(services: seq<Named>)
      requires serviceActive == map[]
      modifies this`serviceActive
      ensures ServicesDone(services)
    {
      var i := 0;
      while i < |services|
        invariant 0 <= i <= |services| && ServicesDone(services[..i])
      {
        assert services[..i + 1][..i] == services[..i];
        serviceActive := serviceActive[services[i].owner := services[i].text == "active"];
        i := i + 1;
      }
      assert services[..|services|] == services;
    }

    method AddEndpoints(es: seq<Endpoint>)
      requires endpointsByPort == map[] && upstreamUsed == {}
      modifies this`endpointsByPort, this`upstreamUsed
      ensures EndpointsDone(es)
    {
      var i := 0;
      while i < |es|
        invariant 0 <= i <= |es| && EndpointsDone(es[..i])
      {
        var e := es[i];
        ghost var before := endpointsByPort;
        endpointsByPort := endpointsByPort[e.port := At(endpointsByPort, e.port) + [e]];
        EndpointsNext(before, endpointsByPort, es, i);
        UsedNext(es, i);
        AddUpstreams(e);
        i := i + 1;
      }
      assert es[..|es|] == es;
    }

    /** The loop over the ports of a rule that allows src. */
    method AllowPorts(ports: seq<int>, src: string)
      modifies this`allowedFrom
      ensures forall port, x :: x in At(allowedFrom, port) <==>
        x in old(At(allowedFrom, port)) || (x == src && port in ports)
    {
      var n := 0;
      while n < |ports|
        invariant 0 <= n <= |ports|
        invariant forall port, x :: x in At(allowedFrom, port) <==>
          x in old(At(allowedFrom, port)) || (x == src && port in ports[..n])
      {
        assert ports[..n + 1] == ports[..n] + [ports[n]];
        allowedFrom := allowedFrom[ports[n] := At(allowedFrom, ports[n]) + [src]];
        n := n + 1;
      }
      assert ports[..n] == ports;
    }

    method AddRule(ghost rules: seq<FirewallRule>, r: FirewallRule)
      requires RulesDone(rules)
      modifies this`allowedFrom, this`dockerDNAT
      ensures RulesDone(rules + [r])
    {
      RuleNext(rules, r);
      if IsDnat(r) {
        DnatAllowsNothing(r);
        dockerDNAT := dockerDNAT + set p <- r.ports :: p;
      } else if Allows(r) {
        AllowPorts(r.ports, if r.source == "" then "Anywhere" else r.source);
      }
    }

    method AddRules(rules: seq<FirewallRule>)
      requires allowedFrom == map[] && dockerDNAT == {}
      modifies this`allowedFrom, this`dockerDNAT
      ensures RulesDone(rules)
    {
      var i := 0;
      while i < |rules|
        invariant 0 <= i <= |rules| && RulesDone(rules[..i])
      {
        var r := rules[i];
        AddRule(rules[..i], r);
        assert rules[..i + 1] == rules[..i] + [r];
        i := i + 1;
      }
      assert rules[..|rules|] == rules;
    }

    method Policies(ps: seq<Policy>)
      requires inputPolicy == "unknown"
      modifies this`inputPolicy
      ensures inputPolicy == InputPolicy(ps)
    {
      var i := 0;
      while i < |ps|
        invariant 0 <= i <= |ps| && inputPolicy == InputPolicy(ps[..i])
      {
        var p := ps[i];
        assert ps[..i + 1][..i] == ps[..i];
        if p.backend == "iptables" && p.table == "filter" && p.chain == "INPUT" {
          inputPolicy := p.policy;
        }
        i := i + 1;
      }
      assert ps[..|ps|] == ps;
    }

    method AreComparable(s: Snapshot) returns (b: bool)
      requires ListenersDone(s.listeners)
      ensures b <==> Declared(s.endpoints) < 3 || Corroborated(s, s.endpoints)
    {
      var declared, corroborated, i := 0, 0, 0;
      var es := s.endpoints;
      while i < |es|
        invariant 0 <= i <= |es| && declared == Declared(es[..i]) && 0 <= corroborated
        invariant corroborated > 0 <==> Corroborated(s, es[..i])
      {
        var e := es[i];
        CorroboratedNext(s, es, i);
        if e.protocol != "udp" {
          declared := declared + 1;
          var heard := HasListener(s, e.port);
          if heard {
            corroborated := corroborated + 1;
          }
        }
        i := i + 1;
      }
      assert es[..|es|] == es;
      b := declared < 3 || corroborated > 0;
    }

    method AddConfigured(s: Snapshot)
      requires listenersByPort == map[] && endpointsByPort == map[] && upstreamUsed == upstreamNames == {} &&
        serviceActive == map[]
      modifies this`listenersByPort, this`endpointsByPort, this`upstreamUsed, this`upstreamNames, this`serviceActive
      ensures ConfigDone(s)
    {
      AddListeners(s.listeners);
      AddEndpoints(s.endpoints);
      AddNames(s.upstreams);
      AddServices(s.services);
    }

    method AddFirewall(s: Snapshot)
      requires inputPolicy == "unknown" && allowedFrom == map[] && dockerDNAT == {}
      modifies this`inputPolicy, this`allowedFrom, this`dockerDNAT
      ensures FirewallDone(s)
    {
      Policies(s.policies);
      AddRules(s.rules);
    }

    constructor (s: Snapshot)
      ensures Indexes(s)
    {
      listenersByPort, endpointsByPort, upstreamUsed := map[], map[], {};
      upstreamNames, serviceActive := {}, map[];
      inputPolicy, allowedFrom, dockerDNAT := "unknown", map[], {};
      listenersComparable := false;
      new;
      AddConfigured(s);
      AddFirewall(s);
      Compare(s);
    }

    method Compare(s: Snapshot)
      requires ListenersDone(s.listeners) && !listenersComparable
      modifies this`listenersComparable
      ensures listenersComparable == Comparable(s)
    {
      if |s.listeners| > 0 {
        listenersComparable := AreComparable(s);
      }
    }

    method HasListener(ghost s: Snapshot, port: int) returns (b: bool)
      requires ListenersDone(s.listeners)
      ensures b <==> Listening(s, port)
    {
      ListenersScan(s.listeners, port);
      assert At(listenersByPort, port) == ListenersOn(s.listeners, port);
      b := |At(listenersByPort, port)| > 0;
    }

    method AllowedFromAnywhere(ghost s: Snapshot, port: int) returns (b: bool)
      requires RulesDone(s.rules)
      ensures b <==> OpenToAll(s, port)
    {
      var sources := At(allowedFrom, port);
      assert forall src :: src in sources <==> SourceOf(s.rules, port, src);
      var i := 0;
      while i < |sources|
        invariant 0 <= i <= |sources|
        invariant forall j :: 0 <= j < i ==> sources[j] !in ANYWHERE
      {
        if sources[i] in ANYWHERE {
          assert sources[i] in sources;
          return true;
        }
        i := i + 1;
      }
      b := false;
      if OpenToAll(s, port) {
        var r :| r in s.rules && Allows(r) && port in r.ports && r.source in ANYWHERE;
        var k :| 0 <= k < |s.rules| && s.rules[k] == r;
        assert SourceOf(s.rules, port, if r.source == "" then "Anywhere" else r.source);
      }
    }

    /** len(idx.allowedFrom[port]) > 0. */
    method AnyRuleFor(ghost s: Snapshot, port: int) returns (b: bool)
      requires RulesDone(s.rules)
      ensures b <==> Allowed(s, port)
    {
      var sources := At(allowedFrom, port);
      b := |sources| > 0;
      assert b ==> SourceOf(s.rules, port, sources[0]);
      if r :| r in s.rules && Allows(r) && port in r.ports {
        var k :| 0 <= k < |s.rules| && s.rules[k] == r;
        assert SourceOf(s.rules, port, if r.source == "" then "Anywhere" else r.source);
      }
    }

    /** No pool in use is missed; and one is taken to be in use wrongly only if a service has a
        bar in its name, which no service of the scanner has. */
    method UpstreamUsed(ghost s: Snapshot, service: string, name: string) returns (b: bool)
      requires EndpointsDone(s.endpoints)
      ensures Used(s, service, name) ==> b
      ensures b <==> exists e, n :: e in s.endpoints && n in e.upstreams && e.service + "|" + n == service + "|" + name
      ensures '|' !in service && (forall e <- s.endpoints :: '|' !in e.service) ==> (b <==> Used(s, service, name))
    {
      var key := service + "|" + name;
      b := key in upstreamUsed;
      if i :| 0 <= i < |s.endpoints| && UsesKey(s.endpoints[i], key) {
        var e := s.endpoints[i];
        var n :| n in e.upstreams && key == e.service + "|" + n;
        assert e in s.endpoints;
        SameField(service, name, e.service, n);
      }
      if e, n :| e in s.endpoints && n in e.upstreams && e.service + "|" + n == key {
        assert UsesKey(e, key);
      }
    }

    method UpstreamDefined(ghost s: Snapshot, service: string, name: string) returns (b: bool)
      requires NamesDone(s.upstreams)
      ensures Defined(s, service, name) ==> b
      ensures b <==> exists u :: u in s.upstreams && u.owner + "|" + u.text == service + "|" + name
      ensures '|' !in service && (forall u <- s.upstreams :: '|' !in u.owner) ==> (b <==> Defined(s, service, name))
    {
      var key := service + "|" + name;
      b := key in upstreamNames;
      if i :| 0 <= i < |s.upstreams| && key == s.upstreams[i].owner + "|" + s.upstreams[i].text {
        var u := s.upstreams[i];
        SameField(service, name, u.owner, u.text);
        assert u in s.upstreams;
      }
      if u :| u in s.upstreams && u.owner + "|" + u.text == key {
        var i :| 0 <= i < |s.upstreams| && s.upstreams[i] == u;
      }
    }

    /** The first listener of the port that the address would reach. */
    method ListenerFor(ghost s: Snapshot, address: string, port: int) returns (found: Option<Listener>)
      requires ListenersDone(s.listeners)
      ensures found.Some? ==> exists i :: FirstAt(s.listeners, i, address, port) && s.listeners[i] == found.value
      ensures found.None? ==> forall l <- s.listeners :: !Receives(l, address, port)
    {
      ListenersScan(s.listeners, port);
      var list := At(listenersByPort, port);
      var i := 0;
      while i < |list|
        invariant 0 <= i <= |list|
        invariant forall j :: 0 <= j < i ==> !Receives(list[j], address, port)
      {
        var l := list[i];
        assert l in ListenersOn(s.listeners, port);
        if l.address == address || IsPublic(l) || address == "0.0.0.0" {
          FirstOnPort(s.listeners, address, port, i);
          return Some(l);
        }
        i := i + 1;
      }
      found := None;
      forall l | l in s.listeners ensures !Receives(l, address, port) {
        assert l.port == port ==> l in list;
      }
    }

    method UndeclaredListeners(s: Snapshot) returns (out: seq<Listener>)
      requires EndpointsDone(s.endpoints)
      ensures out == Undeclared(s, s.listeners)
    {
      out := [];
      var i := 0;
      while i < |s.listeners|
        invariant 0 <= i <= |s.listeners| && out == Undeclared(s, s.listeners[..i])
      {
        var l := s.listeners[i];
        assert s.listeners[..i + 1][..i] == s.listeners[..i];
        EndpointsScan(s.endpoints, l.port);
        assert At(endpointsByPort, l.port) == EndpointsOn(s.endpoints, l.port);
        if !(exists e <- At(endpointsByPort, l.port) :: EndpointOwns(e, l)) && l.process != "docker-proxy" {
          out := out + [l];
        }
        i := i + 1;
      }
      assert s.listeners[..|s.listeners|] == s.listeners;
    }
  }

  predicate IsPublic(l: Listener) { l.address in {"0.0.0.0", "*", "::", "[::]"} }

  predicate Receives(l: Listener, address: string, port: int) {
    l.port == port && (l.address == address || IsPublic(l) || address == "0.0.0.0")
  }

  /** The programs of a service; none for a service that any program may run. */
  function Programs(service: string): seq<string> {
    if service == "nginx" then ["nginx"]
    else if service == "haproxy" then ["haproxy"]
    else if service == "caddy" then ["caddy"]
    else if service == "docker" then ["docker-proxy", "dockerd", "containerd"]
    else if service == "podman" then ["conmon", "podman", "rootlessport", "pasta", "slirp4netns"]
    else if service == "lxd" then ["lxd", "forkproxy"]
    else []
  }

  predicate EndpointOwns(e: Endpoint, l: Listener) {
    l.process == "" || Programs(e.service) == [] || exists p <- Programs(e.service) :: p <= l.process
  }

  ghost predicate Begins(s: string, head: string) { exists rest :: s == head + rest }

  /** Which program serves an endpoint of which service. */
  ghost predicate RunBy(service: string, process: string) {
    || (service == "nginx" && Begins(process, "nginx"))
    || (service == "haproxy" && Begins(process, "haproxy"))
    || (service == "caddy" && Begins(process, "caddy"))
    || (service == "docker" &&
        (Begins(process, "docker-proxy") || Begins(process, "dockerd") || Begins(process, "containerd")))
    || (service == "podman" &&
        (Begins(process, "conmon") || Begins(process, "podman") || Begins(process, "rootlessport")
         || Begins(process, "pasta") || Begins(process, "slirp4netns")))
    || (service == "lxd" && (Begins(process, "lxd") || Begins(process, "forkproxy")))
  }

  lemma BeginsIff(s: string, head: string)
    ensures Begins(s, head) <==> head <= s
  {
    if head <= s {
      assert s == head + s[|head|..];
    }
  }

  /** A socket is an endpoint's if its program is not known, may be any, or is one of its service. */
  lemma OwnsIff(e: Endpoint, l: Listener)
    ensures EndpointOwns(e, l) <==>
      || l.process == "" || RunBy(e.service, l.process)
      || e.service !in {"nginx", "haproxy", "caddy", "docker", "podman", "lxd"}
  {
    var ps := Programs(e.service);
    forall p | p in ps ensures Begins(l.process, p) <==> p <= l.process {
      BeginsIff(l.process, p);
    }
    assert |ps| > 0 ==> ps[0] in ps;
    assert |ps| > 1 ==> ps[1] in ps;
    assert |ps| > 2 ==> ps[2] in ps;
    assert |ps| > 3 ==> ps[3] in ps;
    assert |ps| > 4 ==> ps[4] in ps;
  }

  predicate Declares(s: Snapshot, l: Listener) { exists e <- s.endpoints :: e.port == l.port && EndpointOwns(e, l) }

  /** The listeners that no endpoint of the snapshot declares, in their order. */
  function Undeclared(s: Snapshot, ls: seq<Listener>): seq<Listener> {
    if ls == [] then []
    else
      var l := ls[|ls| - 1];
      Undeclared(s, ls[..|ls| - 1]) + if !Declares(s, l) && l.process != "docker-proxy" then [l] else []
  }

  predicate UsesKey(e: Endpoint, key: string) { exists n <- e.upstreams :: key == e.service + "|" + n }

  lemma SameField(a: string, x: string, b: string, y: string)
    requires a + "|" + x == b + "|" + y
    ensures '|' !in a && '|' !in b ==> a == b && x == y
  {
    if '|' !in a && '|' !in b {
      FirstFieldOf(a, x, '|');
      FirstFieldOf(b, y, '|');
    }
  }

  ghost predicate UsedKey(es: seq<Endpoint>, key: string) { exists i :: 0 <= i < |es| && UsesKey(es[i], key) }

  ghost predicate SourceOf(rules: seq<FirewallRule>, port: int, src: string) {
    exists i :: 0 <= i < |rules| && Grants(rules[i], port, src)
  }

  predicate Grants(r: FirewallRule, port: int, src: string) {
    Allows(r) && port in r.ports && src == if r.source == "" then "Anywhere" else r.source
  }

  lemma EndpointsNext(m: map<int, seq<Endpoint>>, next: map<int, seq<Endpoint>>, es: seq<Endpoint>, i: nat)
    requires i < |es| && forall port :: At(m, port) == EndpointsOn(es[..i], port)
    requires next == m[es[i].port := At(m, es[i].port) + [es[i]]]
    ensures forall port :: At(next, port) == EndpointsOn(es[..i + 1], port)
  {
    assert es[..i + 1][..i] == es[..i];
    forall port ensures At(next, port) == EndpointsOn(es[..i + 1], port) {
      assert At(m, port) == EndpointsOn(es[..i], port);
    }
  }

  lemma UsedNext(es: seq<Endpoint>, i: nat)
    requires i < |es|
    ensures forall key :: UsedKey(es[..i + 1], key) <==> UsedKey(es[..i], key) || UsesKey(es[i], key)
  {
    var next, before := es[..i + 1], es[..i];
    forall key ensures UsedKey(next, key) <==> UsedKey(before, key) || UsesKey(es[i], key) {
      assert next[i] == es[i];
      if j :| 0 <= j < |before| && UsesKey(before[j], key) {
        assert next[j] == before[j];
      }
    }
  }

  ghost predicate DnatOf(rules: seq<FirewallRule>, port: int) {
    exists i :: 0 <= i < |rules| && DnatTo(rules[i], port)
  }

  predicate DnatTo(r: FirewallRule, port: int) { IsDnat(r) && port in r.ports }

  lemma RuleNext(rules: seq<FirewallRule>, r: FirewallRule)
    ensures forall port :: DnatOf(rules + [r], port) <==> DnatOf(rules, port) || DnatTo(r, port)
    ensures forall port, src :: SourceOf(rules + [r], port, src) <==> SourceOf(rules, port, src) || Grants(r, port, src)
  {
    var next := rules + [r];
    assert next[|rules|] == r;
    forall port ensures DnatOf(next, port) <==> DnatOf(rules, port) || DnatTo(r, port) {
      if i :| 0 <= i < |rules| && DnatTo(rules[i], port) {
        assert next[i] == rules[i];
      }
    }
    forall port, src ensures SourceOf(next, port, src) <==> SourceOf(rules, port, src) || Grants(r, port, src) {
      if i :| 0 <= i < |rules| && Grants(rules[i], port, src) {
        assert next[i] == rules[i];
      }
    }
  }

  lemma {:induction false} ListenersScan(ls: seq<Listener>, port: int)
    ensures forall l :: l in ListenersOn(ls, port) <==> l in ls && l.port == port
    ensures ListenersOn(ls, port) != [] <==> exists l <- ls :: l.port == port
  {
    if ls != [] {
      ListenersScan(ls[..|ls| - 1], port);
      assert ls == ls[..|ls| - 1] + [ls[|ls| - 1]];
    }
  }

  /** The first listener of the list that the address would reach. */
  ghost predicate FirstAt(ls: seq<Listener>, i: int, address: string, port: int) {
    0 <= i < |ls| && Receives(ls[i], address, port) && forall j :: 0 <= j < i ==> !Receives(ls[j], address, port)
  }

  lemma {:induction false} FirstOnPort(ls: seq<Listener>, address: string, port: int, k: nat)
    requires FirstAt(ListenersOn(ls, port), k, address, port)
    ensures exists i :: FirstAt(ls, i, address, port) && ls[i] == ListenersOn(ls, port)[k]
    decreases |ls|
  {
    var n := |ls| - 1;
    var rest := ls[..n];
    var list := ListenersOn(rest, port);
    if k < |list| {
      assert forall j :: 0 <= j < |list| ==> list[j] == ListenersOn(ls, port)[j];
      FirstOnPort(rest, address, port, k);
      var i :| FirstAt(rest, i, address, port) && rest[i] == list[k];
      assert FirstAt(ls, i, address, port);
    } else {
      ListenersScan(rest, port);
      forall j | 0 <= j < n ensures !Receives(ls[j], address, port) {
        assert rest[j] in rest;
        if rest[j] in list {
          var m :| 0 <= m < |list| && list[m] == rest[j];
          assert ListenersOn(ls, port)[m] == list[m];
        }
      }
      assert FirstAt(ls, n, address, port);
    }
  }

  lemma {:induction false} EndpointsScan(es: seq<Endpoint>, port: int)
    ensures forall e :: e in EndpointsOn(es, port) <==> e in es && e.port == port
  {
    if es != [] {
      EndpointsScan(es[..|es| - 1], port);
      assert es == es[..|es| - 1] + [es[|es| - 1]];
    }
  }
}
