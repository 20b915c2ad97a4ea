/** ruleStaleFirewallRules (internal/analyze/analyze.go:560-620). */
module StaleRules {
  import opened Findings
  import opened HostIndex
  import opened MapOrder
  import opened Text
  import opened Wrappers

  /** The rule opens a port that nothing uses. */
  predicate Idle(s: Snapshot, r: FirewallRule, port: int) {
    Allows(r) && r.backend != "ufw6" && port in r.ports && !Listening(s, port) && !Forwarded(s, port)
  }

  /** Rule k speaks for the port: the first ufw rule if there is one, else the first rule. */
  ghost predicate Speaks(s: Snapshot, rules: seq<FirewallRule>, port: int, k: int) {
    && 0 <= k < |rules| && Idle(s, rules[k], port)
    && if rules[k].backend == "ufw" then
         forall j :: 0 <= j < k && Idle(s, rules[j], port) ==> rules[j].backend != "ufw"
       else
         && (forall j :: 0 <= j < k ==> !Idle(s, rules[j], port))
         && (forall j :: 0 <= j < |rules| && Idle(s, rules[j], port) ==> rules[j].backend != "ufw")
  }

  ghost predicate Stale(s: Snapshot, port: int) { exists r <- s.rules :: Idle(s, r, port) }

  /** The map best, after some of the rules. */
  function Best(s: Snapshot, rules: seq<FirewallRule>, port: int): Option<FirewallRule> {
    if rules == [] then None
    else
      var r, existing := rules[|rules| - 1], Best(s, rules[..|rules| - 1], port);
      if Idle(s, r, port) then Better(existing, r) else existing
  }

  function Better(existing: Option<FirewallRule>, r: FirewallRule): Option<FirewallRule> {
    if existing.None? || (r.backend == "ufw" && existing.value.backend != "ufw") then Some(r) else existing
  }

  /** What the loop keeps is the rule that speaks for the port. */
  lemma {:induction false} BestSpeaks(s: Snapshot, rules: seq<FirewallRule>, port: int)
    ensures Best(s, rules, port).None? <==> forall r <- rules :: !Idle(s, r, port)
    ensures Best(s, rules, port).Some? ==>
      exists k :: Speaks(s, rules, port, k) && rules[k] == Best(s, rules, port).value
  {
    if rules != [] {
      var n := |rules| - 1;
      var rest, r := rules[..n], rules[n];
      BestSpeaks(s, rest, port);
      assert rules == rest + [r];
      if Best(s, rest, port).Some? {
        var k :| Speaks(s, rest, port, k) && rest[k] == Best(s, rest, port).value;
        assert rules[k] == rest[k];
        assert forall j :: 0 <= j < n ==> rules[j] == rest[j];
        if Best(s, rules, port) == Best(s, rest, port) {
          assert Speaks(s, rules, port, k);
        } else {
          assert Speaks(s, rules, port, n);
        }
      } else if Idle(s, r, port) {
        forall j | 0 <= j < n ensures !Idle(s, rules[j], port) {
          assert rules[j] in rest;
        }
        assert Speaks(s, rules, port, n);
      }
    }
  }

  ghost predicate IsBest(best: map<int, FirewallRule>, s: Snapshot, rules: seq<FirewallRule>) {
    forall port :: Found(best, port) == Best(s, rules, port)
  }

  function Found(best: map<int, FirewallRule>, port: int): Option<FirewallRule> {
    if port in best then Some(best[port]) else None
  }

  /** The inner loop: one accepted rule and the ports it opens. */
  method AddPorts(idx: Index, s: Snapshot, best: map<int, FirewallRule>, r: FirewallRule)
    returns (next: map<int, FirewallRule>)
    requires idx.Indexes(s) && Allows(r) && r.backend != "ufw6"
    ensures forall port :: Found(next, port) == if Idle(s, r, port) then Better(Found(best, port), r)
      else Found(best, port)
  {
    next := best;
    var n := 0;
    while n < |r.ports|
      invariant 0 <= n <= |r.ports| && PortsDone(s, best, next, r, n)
    {
      var port := r.ports[n];
      ghost var before := next;
      var heard := idx.HasListener(s, port);
      if !heard && port !in idx.dockerDNAT {
        if port !in next || (r.backend == "ufw" && next[port].backend != "ufw") {
          next := next[port := r];
        }
      }
      PortsNext(s, best, before, next, r, n);
      n := n + 1;
    }
    assert r.ports[..n] == r.ports;
  }

  /** The first n ports of the rule. */
  ghost predicate PortsDone(s: Snapshot, best: map<int, FirewallRule>, next: map<int, FirewallRule>, r: FirewallRule,
                            n: nat)
    requires n <= |r.ports|
  {
    forall port :: Found(next, port) == OnceOpened(s, best, r, port, port in r.ports[..n])
  }

  function OnceOpened(s: Snapshot, best: map<int, FirewallRule>, r: FirewallRule, port: int, seen: bool)
    : Option<FirewallRule>
  {
    if seen && Idle(s, r, port) then Better(Found(best, port), r) else Found(best, port)
  }

  lemma PortsNext(s: Snapshot, best: map<int, FirewallRule>, next: map<int, FirewallRule>, more: map<int, FirewallRule>,
                  r: FirewallRule, n: nat)
    requires n < |r.ports| && PortsDone(s, best, next, r, n)
    requires var port := r.ports[n];
      forall q :: Found(more, q) == if q == port && Idle(s, r, q) then Better(Found(next, q), r) else Found(next, q)
    ensures PortsDone(s, best, more, r, n + 1)
  {
    assert r.ports[..n + 1] == r.ports[..n] + [r.ports[n]];
    forall q ensures Found(more, q) == OnceOpened(s, best, r, q, q in r.ports[..n + 1]) {
      assert Found(next, q) == OnceOpened(s, best, r, q, q in r.ports[..n]);
    }
  }

  method Candidates(idx: Index, s: Snapshot) returns (best: map<int, FirewallRule>)
    requires idx.Indexes(s)
    ensures IsBest(best, s, s.rules)
  {
    best := map[];
    var i := 0;
    while i < |s.rules|
      invariant 0 <= i <= |s.rules| && IsBest(best, s, s.rules[..i])
    {
      var r := s.rules[i];
      ghost var before := best;
      if Allows(r) && r.backend != "ufw6" {
        best := AddPorts(idx, s, best, r);
      }
      BestNext(before, best, s, i);
      i := i + 1;
    }
    assert s.rules[..|s.rules|] == s.rules;
  }

  lemma BestNext(best: map<int, FirewallRule>, next: map<int, FirewallRule>, s: Snapshot, i: nat)
    requires i < |s.rules| && IsBest(best, s, s.rules[..i])
    requires forall port :: Found(next, port) == OnceOpened(s, best, s.rules[i], port, true)
    ensures IsBest(next, s, s.rules[..i + 1])
  {
    assert s.rules[..i + 1][..i] == s.rules[..i];
    forall port ensures Found(next, port) == Best(s, s.rules[..i + 1], port) {
      assert Found(best, port) == Best(s, s.rules[..i], port);
    }
  }

  predicate Ascending(ports: seq<int>) { forall i, j :: 0 <= i < j < |ports| ==> ports[i] < ports[j] }

  /** sort.Ints over the keys of a map, walked in any order. */
  method SortedKeys(keys: set<int>) returns (ports: seq<int>)
    ensures Ascending(ports) && forall p :: p in ports <==> p in keys
  {
    ports := [];
    var rest := keys;
    while rest != {}
      invariant rest <= keys && Ascending(ports)
      invariant forall p :: p in ports <==> p in keys && p !in rest
      decreases |rest|
    {
      EmptyOrNot(rest);
      var p :| p in rest;
      var i := 0;
      while i < |ports| && ports[i] < p
        invariant 0 <= i <= |ports| && forall j :: 0 <= j < i ==> ports[j] < p
      {
        i := i + 1;
      }
      assert i < |ports| ==> ports[i] in ports;
      ghost var before := ports;
      ports := ports[..i] + [p] + ports[i..];
      forall q ensures q in ports <==> q in before || q == p {
        assert before == before[..i] + before[i..];
      }
      rest := rest - {p};
    }
  }

  lemma EmptyOrNot(ports: set<int>)
    ensures ports == {} || exists p :: p in ports
  {
    if forall p :: p !in ports {
      assert ports == {};
    }
  }

  function StaleFinding(r: FirewallRule, port: int): Finding {
    Finding("stale-firewall-rule", "stale-firewall-rule:" + IntText(port), Low, "iptables",
            r.backend + " " + IntText(port) + "/tcp")
  }

  /** One finding for each stale port, in the order of the ports, naming the rule that speaks for it. */
  ghost predicate StaleReport(s: Snapshot, fs: seq<Finding>, ports: seq<int>) {
    && Ascending(ports) && |fs| == |ports|
    && (forall port :: port in ports <==> Comparable(s) && Stale(s, port))
    && forall i :: 0 <= i < |ports| ==> Reported(s, fs[i], ports[i])
  }

  ghost predicate Reported(s: Snapshot, f: Finding, port: int) {
    exists k :: Speaks(s, s.rules, port, k) && f == StaleFinding(s.rules[k], port)
  }

  method RuleStaleFirewallRules(c: Collector, s: Snapshot, idx: Index)
    returns (ghost fs: seq<Finding>, ghost ports: seq<int>)
    requires idx.Indexes(s)
    modifies c
    ensures StaleReport(s, fs, ports)
    ensures Added(c.findings, c.seen, old(c.findings), old(c.seen), fs)
  {
    fs, ports := [], [];
    if !idx.listenersComparable {
      return;
    }
    var best := Candidates(idx, s);
    var sorted := SortedKeys(best.Keys);
    ports := sorted;
    forall port ensures port in ports <==> Stale(s, port) {
      BestSpeaks(s, s.rules, port);
      assert Found(best, port) == Best(s, s.rules, port);
    }
    assert forall i :: 0 <= i < |sorted| ==> sorted[i] in sorted;
    fs := AddStale(c, best, sorted);
    forall i | 0 <= i < |ports| ensures Reported(s, fs[i], ports[i]) {
      BestReported(best, s, ports[i]);
    }
  }

  function StaleFindings(best: map<int, FirewallRule>, ports: seq<int>): seq<Finding>
    requires forall i :: 0 <= i < |ports| ==> ports[i] in best
  {
    seq(|ports|, i requires 0 <= i < |ports| => StaleFinding(best[ports[i]], ports[i]))
  }

  /** The last loop of the rule. */
  method AddStale(c: Collector, best: map<int, FirewallRule>, ports: seq<int>) returns (ghost fs: seq<Finding>)
    requires forall i :: 0 <= i < |ports| ==> ports[i] in best
    modifies c
    ensures fs == StaleFindings(best, ports)
    ensures Added(c.findings, c.seen, old(c.findings), old(c.seen), fs)
  {
    ghost var found, seen := c.findings, c.seen;
    fs := StaleFindings(best, ports);
    var i := 0;
    while i < |ports|
      invariant 0 <= i <= |ports|
      invariant Added(c.findings, c.seen, found, seen, fs[..i])
    {
      AddStaleAt(c, best, ports, i, found, seen, fs);
      i := i + 1;
    }
    assert fs[..i] == fs;
  }

  method AddStaleAt(c: Collector, best: map<int, FirewallRule>, ports: seq<int>, i: nat, ghost found: seq<Finding>,
                    ghost seen: set<string>, ghost fs: seq<Finding>)
    requires (forall i :: 0 <= i < |ports| ==> ports[i] in best) && fs == StaleFindings(best, ports) && i < |ports|
    requires Added(c.findings, c.seen, found, seen, fs[..i])
    modifies c
    ensures Added(c.findings, c.seen, found, seen, fs[..i + 1])
  {
    StaleNext(best, ports, fs, i);
    AddOne(c, StaleFinding(best[ports[i]], ports[i]), found, seen, fs[..i]);
  }

  lemma StaleNext(best: map<int, FirewallRule>, ports: seq<int>, fs: seq<Finding>, i: nat)
    requires (forall i :: 0 <= i < |ports| ==> ports[i] in best) && fs == StaleFindings(best, ports) && i < |ports|
    ensures fs[..i + 1] == fs[..i] + [StaleFinding(best[ports[i]], ports[i])]
  {}

  lemma BestReported(best: map<int, FirewallRule>, s: Snapshot, port: int)
    requires IsBest(best, s, s.rules) && port in best
    ensures Reported(s, StaleFinding(best[port], port), port)
  {
    BestSpeaks(s, s.rules, port);
    assert Found(best, port) == Best(s, s.rules, port);
  }

  /** The report is fixed by the snapshot. */
  lemma OneStaleReport(s: Snapshot, fs: seq<Finding>, ports: seq<int>, gs: seq<Finding>, qs: seq<int>)
    requires StaleReport(s, fs, ports) && StaleReport(s, gs, qs)
    ensures ports == qs && fs == gs
  {
    forall p ensures p in ports <==> p in qs {}
    SameAscending(ports, qs);
    forall i | 0 <= i < |ports| ensures fs[i] == gs[i] {
      assert Reported(s, fs[i], ports[i]) && Reported(s, gs[i], ports[i]);
      var a :| Speaks(s, s.rules, ports[i], a) && fs[i] == StaleFinding(s.rules[a], ports[i]);
      var b :| Speaks(s, s.rules, ports[i], b) && gs[i] == StaleFinding(s.rules[b], ports[i]);
    }
  }

  lemma {:induction false} SameAscending(a: seq<int>, b: seq<int>)
    requires Ascending(a) && Ascending(b) && forall p :: p in a <==> p in b
    ensures a == b
  {
    assert a != [] ==> a[0] in a;
    assert b != [] ==> b[0] in b;
    if a != [] {
      assert a[0] == b[0];
      assert a == [a[0]] + a[1..] && b == [b[0]] + b[1..];
      assert a[0] !in a[1..] && b[0] !in b[1..];
      forall p ensures p in a[1..] <==> p in b[1..] {
        assert p in a <==> p == a[0] || p in a[1..];
        assert p in b <==> p == b[0] || p in b[1..];
      }
      SameAscending(a[1..], b[1..]);
    }
  }
}
