/** rulePortConflicts (internal/analyze/analyze.go:244-331). */
module PortConflicts {
  import opened Findings
  import opened MapOrder
  import opened Text
  import opened Walks
  import opened Wrappers

  /** container and containerPort are the Extra fields "container" and
      "container_port", the latter as strconv.Atoi reads it. */
  datatype Endpoint = Endpoint(id: string, service: string, address: string, port: int, protocol: string,
                               upstreams: seq<string>, container: string, containerPort: Option<int>)

  const NGINX := "nginx"
  const CADDY := "caddy"
  const DOCKER := "docker"

  predicate Public(e: Endpoint) { e.address in {"", "*", "0.0.0.0", "::", "[::]", "::0"} }

  predicate AddressesOverlap(a: Endpoint, b: Endpoint) {
    if Public(a) || Public(b) then true else a.address == b.address
  }

  predicate SameSocketTwoLayers(a: Endpoint, b: Endpoint) {
    if a.service == DOCKER && b.service == DOCKER then
      a.container != "" && a.container == b.container
    else if b.service == DOCKER then
      b.containerPort == Some(a.port)
    else if a.service != DOCKER then
      false
    else
      a.containerPort == Some(b.port)
  }

  predicate Clash(x: Endpoint, y: Endpoint) {
    if !AddressesOverlap(x, y) then false
    else if x.service == y.service && (x.service == NGINX || x.service == CADDY) then false
    else !SameSocketTwoLayers(x, y)
  }

  function ConflictFinding(port: int, x: Endpoint, y: Endpoint): Finding {
    Finding("port-conflict", "port-conflict:" + (IntText(port) + ":" + (x.id + ":" + y.id)), High, x.service,
            x.address + ":" + IntText(port))
  }

  /** The inner loop: x against the later endpoints of its port. */
  function Against(port: int, x: Endpoint, ys: seq<Endpoint>): seq<Finding> {
    if ys == [] then []
    else
      Against(port, x, ys[..|ys| - 1])
      + (if Clash(x, ys[|ys| - 1]) then [ConflictFinding(port, x, ys[|ys| - 1])] else [])
  }

  /** The outer loop, up to the n-th endpoint. */
  function Pairs(port: int, list: seq<Endpoint>, n: nat): seq<Finding>
    requires n <= |list|
  {
    if n == 0 then [] else Pairs(port, list, n - 1) + Against(port, list[n - 1], list[n..])
  }

  /** byPort[port]. */
  function OnPort(es: seq<Endpoint>, port: int): seq<Endpoint> {
    if es == [] then []
    else
      var e := es[|es| - 1];
      OnPort(es[..|es| - 1], port) + (if e.protocol != "udp" && e.port == port then [e] else [])
  }

  function Ports(es: seq<Endpoint>): set<int> {
    if es == [] then {}
    else
      var e := es[|es| - 1];
      Ports(es[..|es| - 1]) + (if e.protocol != "udp" then {e.port} else {})
  }

  function ConflictGroups(es: seq<Endpoint>): map<int, seq<Finding>> {
    map port | port in Ports(es) :: Pairs(port, OnPort(es, port), |OnPort(es, port)|)
  }

  // ---- what a conflict is ----

  /** e takes connections to addr. */
  predicate Binds(e: Endpoint, addr: string) {
    || e.address == "" || e.address == "*" || e.address == "0.0.0.0"
    || e.address == "::" || e.address == "[::]" || e.address == "::0"
    || e.address == addr
  }

  /** Both are blocks of the one nginx or the one Caddy, which tells them apart by name. */
  predicate OneServer(x: Endpoint, y: Endpoint) {
    (x.service == "nginx" && y.service == "nginx") || (x.service == "caddy" && y.service == "caddy")
  }

  predicate OneContainer(x: Endpoint, y: Endpoint) {
    x.service == "docker" && y.service == "docker" && x.container == y.container && x.container != ""
  }

  /** x is a port that its container takes from y, which listens inside. */
  predicate Forwards(x: Endpoint, y: Endpoint) {
    x.service == "docker" && y.service != "docker" && x.containerPort == Some(y.port)
  }

  /** Two endpoints that cannot both have their port: some address is bound by both, and they
      are not one server, one container, or one socket seen from two sides. */
  ghost predicate Fight(x: Endpoint, y: Endpoint) {
    && x.protocol != "udp" && y.protocol != "udp" && x.port == y.port
    && (exists addr :: Binds(x, addr) && Binds(y, addr))
    && !OneServer(x, y) && !OneContainer(x, y) && !Forwards(x, y) && !Forwards(y, x)
  }

  /** Overlapping is binding an address in common. */
  lemma OverlapIff(x: Endpoint, y: Endpoint)
    ensures AddressesOverlap(x, y) <==> exists addr :: Binds(x, addr) && Binds(y, addr)
  {
    if Public(x) {
      assert Binds(x, y.address) && Binds(y, y.address);
    } else if AddressesOverlap(x, y) {
      assert Binds(x, x.address) && Binds(y, x.address);
    }
  }

  /** The conditions of the loops find exactly the pairs that fight. */
  lemma ClashIffFight(x: Endpoint, y: Endpoint)
    requires x.protocol != "udp" && y.protocol != "udp" && x.port == y.port
    ensures Clash(x, y) <==> Fight(x, y)
  {
    OverlapIff(x, y);
  }

  lemma FightSymmetric(x: Endpoint, y: Endpoint)
    ensures Fight(x, y) <==> Fight(y, x)
  {}

  // ---- the loops ----

  function At<T>(m: map<int, seq<T>>, k: int): seq<T> { if k in m then m[k] else [] }

  ghost predicate IsByPort(byPort: map<int, seq<Endpoint>>, es: seq<Endpoint>) {
    byPort.Keys == Ports(es) && forall port :: At(byPort, port) == OnPort(es, port)
  }

  function Put(byPort: map<int, seq<Endpoint>>, e: Endpoint): map<int, seq<Endpoint>> {
    if e.protocol != "udp" then byPort[e.port := At(byPort, e.port) + [e]] else byPort
  }

  lemma LastOnPort(es: seq<Endpoint>, e: Endpoint, port: int)
    ensures OnPort(es + [e], port) == OnPort(es, port) + if e.protocol != "udp" && e.port == port then [e] else []
    ensures Ports(es + [e]) == Ports(es) + if e.protocol != "udp" then {e.port} else {}
  {
    assert (es + [e])[..|es|] == es;
  }

  lemma ByPortNext(byPort: map<int, seq<Endpoint>>, es: seq<Endpoint>, e: Endpoint)
    requires IsByPort(byPort, es)
    ensures IsByPort(Put(byPort, e), es + [e])
  {
    forall port ensures At(Put(byPort, e), port) == OnPort(es + [e], port) {
      LastOnPort(es, e, port);
      assert At(byPort, port) == OnPort(es, port);
    }
    LastOnPort(es, e, e.port);
  }

  method ByPort(es: seq<Endpoint>) returns (byPort: map<int, seq<Endpoint>>)
    ensures byPort == map port | port in Ports(es) :: OnPort(es, port)
  {
    byPort := map[];
    var i := 0;
    while i < |es|
      invariant 0 <= i <= |es| && IsByPort(byPort, es[..i])
    {
      var e := es[i];
      ByPortNext(byPort, es[..i], e);
      assert es[..i + 1] == es[..i] + [e];
      if e.protocol != "udp" {
        byPort := byPort[e.port := At(byPort, e.port) + [e]];
      }
      i := i + 1;
    }
    assert es[..|es|] == es;
    assert forall port <- byPort :: byPort[port] == At(byPort, port);
  }

  method ConflictsOn(c: Collector, port: int, list: seq<Endpoint>)
    modifies c
    ensures c.findings == old(c.findings) + Collect(Pairs(port, list, |list|), old(c.seen))
    ensures c.seen == old(c.seen) + Ids(Pairs(port, list, |list|))
  {
    var a := 0;
    while a < |list|
      invariant 0 <= a <= |list|
      invariant c.findings == old(c.findings) + Collect(Pairs(port, list, a), old(c.seen))
      invariant c.seen == old(c.seen) + Ids(Pairs(port, list, a))
    {
      ConflictsOf(c, port, list[a], list[a + 1..]);
      AddedInTurn(old(c.findings), old(c.seen), Pairs(port, list, a), Against(port, list[a], list[a + 1..]));
      a := a + 1;
    }
  }

  method ConflictsOf(c: Collector, port: int, x: Endpoint, ys: seq<Endpoint>)
    modifies c
    ensures c.findings == old(c.findings) + Collect(Against(port, x, ys), old(c.seen))
    ensures c.seen == old(c.seen) + Ids(Against(port, x, ys))
  {
    var b := 0;
    while b < |ys|
      invariant 0 <= b <= |ys|
      invariant c.findings == old(c.findings) + Collect(Against(port, x, ys[..b]), old(c.seen))
      invariant c.seen == old(c.seen) + Ids(Against(port, x, ys[..b]))
    {
      assert ys[..b + 1][..b] == ys[..b];
      if Clash(x, ys[b]) {
        var f := ConflictFinding(port, x, ys[b]);
        c.Add(f);
        AddedInTurn(old(c.findings), old(c.seen), Against(port, x, ys[..b]), [f]);
      } else {
        assert Against(port, x, ys[..b + 1]) == Against(port, x, ys[..b]) + [] == Against(port, x, ys[..b]);
      }
      b := b + 1;
    }
    assert ys[..|ys|] == ys;
  }

  /** The body of the loop over the ports. */
  method OnePort(c: Collector, port: int, list: seq<Endpoint>)
    modifies c
    ensures Added(c.findings, c.seen, old(c.findings), old(c.seen), Pairs(port, list, |list|))
  {
    if |list| >= 2 {
      ConflictsOn(c, port, list);
    }
  }

  /** The order o in which the Go map was walked is not known beforehand. */
  method RulePortConflicts(c: Collector, es: seq<Endpoint>) returns (ghost o: seq<int>)
    modifies c
    ensures Walk(o, ConflictGroups(es).Keys)
    ensures c.findings == old(c.findings) + Collect(Flat(ConflictGroups(es), o), old(c.seen))
    ensures c.seen == old(c.seen) + Ids(Flat(ConflictGroups(es), o))
  {
    var byPort := ByPort(es);
    ghost var g := ConflictGroups(es);
    var rest := byPort.Keys;
    o := [];
    assert Walk(o, g.Keys - rest);
    while rest != {}
      invariant rest <= g.Keys && Walk(o, g.Keys - rest)
      invariant Added(c.findings, c.seen, old(c.findings), old(c.seen), Flat(g, o))
      decreases |rest|
    {
      var port :| port in rest;
      ghost var found, seen := c.findings, c.seen;
      OnePort(c, port, byPort[port]);
      AddedNext(c.findings, c.seen, found, seen, old(c.findings), old(c.seen), Flat(g, o), g[port]);
      FlatNext(g, o, port);
      WalkNext(o, g.Keys, rest, port);
      o, rest := o + [port], rest - {port};
    }
    assert g.Keys - {} == g.Keys;
  }

  // ---- ports do not share IDs or sort keys ----

  lemma {:induction false} AgainstForms(port: int, x: Endpoint, ys: seq<Endpoint>, f: Finding)
    ensures f in Against(port, x, ys) <==>
      exists b :: 0 <= b < |ys| && Clash(x, ys[b]) && f == ConflictFinding(port, x, ys[b])
  {
    if ys != [] {
      AgainstForms(port, x, ys[..|ys| - 1], f);
      if b :| 0 <= b < |ys| && Clash(x, ys[b]) && f == ConflictFinding(port, x, ys[b]) {
        assert b < |ys| - 1 ==> ys[..|ys| - 1][b] == ys[b];
      }
    }
  }

  ghost predicate PairOf(port: int, list: seq<Endpoint>, a: int, b: int, f: Finding) {
    0 <= a < b < |list| && Clash(list[a], list[b]) && f == ConflictFinding(port, list[a], list[b])
  }

  lemma {:induction false} PairsForms(port: int, list: seq<Endpoint>, n: nat, f: Finding)
    requires n <= |list|
    ensures f in Pairs(port, list, n) <==> PairBefore(port, list, n, f)
  {
    if n > 0 {
      PairsForms(port, list, n - 1, f);
      PairsStep(port, list, n - 1, f);
    }
  }

  lemma PairsStep(port: int, list: seq<Endpoint>, n: nat, f: Finding)
    requires n < |list| && (f in Pairs(port, list, n) <==> PairBefore(port, list, n, f))
    ensures f in Pairs(port, list, n + 1) <==> PairBefore(port, list, n + 1, f)
  {
    PairsWith(port, list, n, f);
  }

  ghost predicate PairBefore(port: int, list: seq<Endpoint>, n: int, f: Finding) {
    exists a, b :: a < n && PairOf(port, list, a, b, f)
  }

  /** The pairs whose first is list[a]. */
  lemma PairsWith(port: int, list: seq<Endpoint>, a: nat, f: Finding)
    requires a < |list|
    ensures f in Against(port, list[a], list[a + 1..]) <==> exists b :: PairOf(port, list, a, b, f)
  {
    var x, ys := list[a], list[a + 1..];
    AgainstForms(port, x, ys, f);
    if b :| 0 <= b < |ys| && Clash(x, ys[b]) && f == ConflictFinding(port, x, ys[b]) {
      assert PairOf(port, list, a, a + 1 + b, f);
    }
    if b :| PairOf(port, list, a, b, f) {
      assert ys[b - a - 1] == list[b];
    }
  }

  lemma ConflictNames(p: int, q: int, x: Endpoint, y: Endpoint, u: Endpoint, v: Endpoint)
    requires p != q
    ensures IdOf(ConflictFinding(p, x, y)) != IdOf(ConflictFinding(q, u, v))
    ensures !SameKey(ConflictFinding(p, x, y), ConflictFinding(q, u, v))
  {
    assert IntText(p) != IntText(q) by {
      if IntText(p) == IntText(q) {
        IntTextInjective(p, q);
      }
    }
    FirstFieldsDiffer("port-conflict:", IntText(p), IntText(q), x.id + ":" + y.id, u.id + ":" + v.id, ':');
    LastFieldsDiffer(x.address, u.address, IntText(p), IntText(q), ':');
  }

  lemma ConflictsApart(es: seq<Endpoint>)
    ensures Apart(ConflictGroups(es))
  {
    var g := ConflictGroups(es);
    forall p, q | p in g && q in g && p != q ensures NoSharedId(g[p], g[q]) && NoSharedKey(g[p], g[q]) {
      var m, n := OnPort(es, p), OnPort(es, q);
      forall i, j | 0 <= i < |g[p]| && 0 <= j < |g[q]|
        ensures IdOf(g[p][i]) != IdOf(g[q][j]) && !SameKey(g[p][i], g[q][j])
      {
        PairsForms(p, m, |m|, g[p][i]);
        PairsForms(q, n, |n|, g[q][j]);
        var a, b :| a < |m| && PairOf(p, m, a, b, g[p][i]);
        var c, d :| c < |n| && PairOf(q, n, c, d, g[q][j]);
        ConflictNames(p, q, m[a], m[b], n[c], n[d]);
      }
    }
  }

  // ---- what is reported ----

  /** The endpoints at two places of the list of a port stand in the same order in the snapshot. */
  lemma {:induction false} OnPortPlaces(es: seq<Endpoint>, port: int, a: nat, b: nat)
    requires a < b < |OnPort(es, port)|
    ensures exists i, j :: 0 <= i < j < |es| && es[i] == OnPort(es, port)[a] && es[j] == OnPort(es, port)[b]
  {
    var rest := es[..|es| - 1];
    var list := OnPort(rest, port);
    if b < |list| {
      OnPortPlaces(rest, port, a, b);
      var i, j :| 0 <= i < j < |rest| && rest[i] == list[a] && rest[j] == list[b];
      assert es[i] == rest[i] && es[j] == rest[j];
    } else {
      OnPortPlace(rest, port, a);
      var i :| 0 <= i < |rest| && rest[i] == list[a];
      assert es[i] == rest[i] && es[|es| - 1] == OnPort(es, port)[b];
    }
  }

  lemma {:induction false} OnPortPlace(es: seq<Endpoint>, port: int, a: nat)
    requires a < |OnPort(es, port)|
    ensures exists i :: 0 <= i < |es| && es[i] == OnPort(es, port)[a]
    ensures OnPort(es, port)[a].protocol != "udp" && OnPort(es, port)[a].port == port
  {
    var rest := es[..|es| - 1];
    if a < |OnPort(rest, port)| {
      OnPortPlace(rest, port, a);
      var i :| 0 <= i < |rest| && rest[i] == OnPort(rest, port)[a];
      assert es[i] == rest[i];
    } else {
      assert es[|es| - 1] == OnPort(es, port)[a];
    }
  }

  lemma {:induction false} PlacesOnPort(es: seq<Endpoint>, i: nat, j: nat)
    requires i < j < |es| && es[i].protocol != "udp" && es[j].protocol != "udp" && es[i].port == es[j].port
    ensures exists a, b ::
      0 <= a < b < |OnPort(es, es[i].port)| && OnPort(es, es[i].port)[a] == es[i] && OnPort(es, es[i].port)[b] == es[j]
  {
    var port, rest := es[i].port, es[..|es| - 1];
    var list := OnPort(es, port);
    if j < |rest| {
      PlacesOnPort(rest, i, j);
      var a, b :| 0 <= a < b < |OnPort(rest, port)| && OnPort(rest, port)[a] == es[i] && OnPort(rest, port)[b] == es[j];
      assert list[a] == es[i] && list[b] == es[j];
    } else {
      PlaceOnPort(rest, i);
      var a :| 0 <= a < |OnPort(rest, port)| && OnPort(rest, port)[a] == es[i];
      assert list[a] == es[i] && list[|list| - 1] == es[j] && a < |list| - 1;
    }
  }

  lemma {:induction false} PlaceOnPort(es: seq<Endpoint>, i: nat)
    requires i < |es| && es[i].protocol != "udp"
    ensures exists a :: 0 <= a < |OnPort(es, es[i].port)| && OnPort(es, es[i].port)[a] == es[i]
    ensures es[i].port in Ports(es)
  {
    var port, rest := es[i].port, es[..|es| - 1];
    if i < |rest| {
      PlaceOnPort(rest, i);
      var a :| 0 <= a < |OnPort(rest, port)| && OnPort(rest, port)[a] == es[i];
      assert OnPort(es, port)[a] == es[i];
    } else {
      assert OnPort(es, port)[|OnPort(es, port)| - 1] == es[i];
    }
  }

  ghost predicate FightAt(es: seq<Endpoint>, i: int, j: int, f: Finding) {
    0 <= i < j < |es| && Fight(es[i], es[j]) && f == ConflictFinding(es[i].port, es[i], es[j])
  }

  lemma PairsAreFights(es: seq<Endpoint>, port: int, a: int, b: int, f: Finding)
    requires PairOf(port, OnPort(es, port), a, b, f)
    ensures exists i, j :: FightAt(es, i, j, f)
  {
    var list := OnPort(es, port);
    OnPortPlaces(es, port, a, b);
    OnPortPlace(es, port, a);
    OnPortPlace(es, port, b);
    var i, j :| 0 <= i < j < |es| && es[i] == list[a] && es[j] == list[b];
    ClashIffFight(es[i], es[j]);
    assert FightAt(es, i, j, f);
  }

  lemma FightsArePairs(es: seq<Endpoint>, i: int, j: int, f: Finding)
    requires FightAt(es, i, j, f)
    ensures es[i].port in Ports(es) && exists a, b :: PairOf(es[i].port, OnPort(es, es[i].port), a, b, f)
  {
    PlacesOnPort(es, i, j);
    PlaceOnPort(es, i);
    var list := OnPort(es, es[i].port);
    var a, b :| 0 <= a < b < |list| && list[a] == es[i] && list[b] == es[j];
    ClashIffFight(es[i], es[j]);
    assert PairOf(es[i].port, list, a, b, f);
  }

  /** A finding is raised exactly for each pair that fights, by whatever walk. */
  lemma ReportedIffFight(es: seq<Endpoint>, o: seq<int>, f: Finding)
    requires Walk(o, ConflictGroups(es).Keys)
    ensures f in Flat(ConflictGroups(es), o) <==> exists i, j :: FightAt(es, i, j, f)
  {
    var g := ConflictGroups(es);
    FlatHas(g, o, f);
    if k :| 0 <= k < |o| && f in g[o[k]] {
      var port, list := o[k], OnPort(es, o[k]);
      PairsForms(port, list, |list|, f);
      var a, b :| a < |list| && PairOf(port, list, a, b, f);
      PairsAreFights(es, port, a, b, f);
    }
    if i, j :| FightAt(es, i, j, f) {
      FightsArePairs(es, i, j, f);
      var port := es[i].port;
      PairsForms(port, OnPort(es, port), |OnPort(es, port)|, f);
      assert port in g.Keys && port in o;
    }
  }

  lemma {:induction false} PlacesIn(es: seq<Endpoint>, x: Endpoint)
    ensures multiset(es)[x] >= 1 <==> exists i :: 0 <= i < |es| && es[i] == x
    ensures multiset(es)[x] >= 2 <==> exists i, j :: 0 <= i < j < |es| && es[i] == x && es[j] == x
  {
    if es != [] {
      var n := |es| - 1;
      var rest := es[..n];
      PlacesIn(rest, x);
      assert es == rest + [es[n]];
      if i, j :| 0 <= i < j < |es| && es[i] == x && es[j] == x {
        assert rest[i] == es[i] && (j < n ==> rest[j] == es[j]);
      }
      if i :| 0 <= i < |rest| && rest[i] == x {
        assert es[i] == x;
        if j :| i < j < |rest| && rest[j] == x {
          assert es[j] == x;
        }
      }
    }
  }

  /** Both of a pair are somewhere in any rearrangement, one before the other. */
  lemma PairMoves(es: seq<Endpoint>, fs: seq<Endpoint>, i: nat, j: nat)
    requires multiset(es) == multiset(fs) && i < j < |es|
    ensures exists a, b ::
      0 <= a < b < |fs| && ((fs[a] == es[i] && fs[b] == es[j]) || (fs[a] == es[j] && fs[b] == es[i]))
  {
    var x, y := es[i], es[j];
    PlacesIn(es, x);
    PlacesIn(es, y);
    PlacesIn(fs, x);
    PlacesIn(fs, y);
    if x != y {
      var a :| 0 <= a < |fs| && fs[a] == x;
      var b :| 0 <= b < |fs| && fs[b] == y;
      if a > b {
        assert fs[b] == es[j] && fs[a] == es[i];
      }
    }
  }

  /** However the endpoints are listed, the same pairs are reported, as (x, y) or as (y, x). */
  lemma ListOrderHidesNothing(es: seq<Endpoint>, fs: seq<Endpoint>, o: seq<int>, p: seq<int>, i: nat, j: nat)
    requires multiset(es) == multiset(fs) && i < j < |es| && Fight(es[i], es[j])
    requires Walk(o, ConflictGroups(es).Keys) && Walk(p, ConflictGroups(fs).Keys)
    ensures var x, y := es[i], es[j];
      && ConflictFinding(x.port, x, y) in Flat(ConflictGroups(es), o)
      && (ConflictFinding(x.port, x, y) in Flat(ConflictGroups(fs), p) ||
        ConflictFinding(x.port, y, x) in Flat(ConflictGroups(fs), p))
  {
    var x, y := es[i], es[j];
    assert FightAt(es, i, j, ConflictFinding(x.port, x, y));
    ReportedIffFight(es, o, ConflictFinding(x.port, x, y));
    PairMoves(es, fs, i, j);
    var a, b :| 0 <= a < b < |fs| && ((fs[a] == x && fs[b] == y) || (fs[a] == y && fs[b] == x));
    FightSymmetric(x, y);
    var f := ConflictFinding(x.port, fs[a], fs[b]);
    assert FightAt(fs, a, b, f);
    ReportedIffFight(fs, p, f);
  }
}
