/** Run (internal/analyze/analyze.go:55-86): the rules in order, then the sort. */
module Report {
  import opened Findings
  import opened K8sHygiene
  import opened MapOrder
  import opened PortConflicts
  import opened Walks

  /** The findings of a run whose three map walks took the orders p, n and l;
      middle and rest are the findings of the rules that walk lists. */
  function Raised(es: seq<Endpoint>, noLimits: map<string, set<string>>, latest: map<string, set<string>>,
                  middle: seq<Finding>, rest: seq<Finding>, p: seq<int>, n: seq<string>, l: seq<string>): seq<Finding>
    requires forall k <- p :: k in ConflictGroups(es)
    requires (forall k <- n :: k in noLimits) && (forall k <- l :: k in latest)
  {
    Flat(ConflictGroups(es), p) + middle + Flat(FindingGroups(noLimits, NoLimits), n)
    + Flat(FindingGroups(latest, Latest), l) + rest
  }

  /** The report is one list, whatever order Go walks its maps in. */
  lemma OneReport(es: seq<Endpoint>, noLimits: map<string, set<string>>, latest: map<string, set<string>>,
                  middle: seq<Finding>, rest: seq<Finding>,
                  p: seq<int>, n: seq<string>, l: seq<string>, p': seq<int>, n': seq<string>, l': seq<string>)
    requires Walk(p, ConflictGroups(es).Keys) && Walk(p', ConflictGroups(es).Keys)
    requires Walk(n, noLimits.Keys) && Walk(n', noLimits.Keys) && Walk(l, latest.Keys) && Walk(l', latest.Keys)
    ensures StableSort(Collect(Raised(es, noLimits, latest, middle, rest, p, n, l), {}))
         == StableSort(Collect(Raised(es, noLimits, latest, middle, rest, p', n', l'), {}))
  {
    var c, a, b := ConflictGroups(es), FindingGroups(noLimits, NoLimits), FindingGroups(latest, Latest);
    ConflictsApart(es);
    WorkloadsApart(noLimits, NoLimits);
    WorkloadsApart(latest, Latest);
    assert a.Keys == noLimits.Keys && b.Keys == latest.Keys;
    WalksAlike(c, p, p');
    WalksAlike(a, n, n');
    WalksAlike(b, l, l');
    AlikeConcat(Flat(c, p), Flat(c, p'), middle, middle);
    AlikeConcat(Flat(c, p) + middle, Flat(c, p') + middle, Flat(a, n), Flat(a, n'));
    AlikeConcat(Flat(c, p) + middle + Flat(a, n), Flat(c, p') + middle + Flat(a, n'), Flat(b, l), Flat(b, l'));
    AlikeConcat(Flat(c, p) + middle + Flat(a, n) + Flat(b, l), Flat(c, p') + middle + Flat(a, n') +
      Flat(b, l'), rest, rest);
    AlikeSorted(Raised(es, noLimits, latest, middle, rest, p, n, l),
      Raised(es, noLimits, latest, middle, rest, p', n', l'));
  }

  // ---- what is in the report ----

  const CONFLICT := "port-conflict:"

  ghost predicate FightWithId(es: seq<Endpoint>, i: int, j: int, id: string) {
    0 <= i < j < |es| && Fight(es[i], es[j]) && IdOf(ConflictFinding(es[i].port, es[i], es[j])) == id
  }

  lemma ConflictsHaveId(es: seq<Endpoint>, p: seq<int>, id: string)
    requires Walk(p, ConflictGroups(es).Keys)
    ensures HasId(Flat(ConflictGroups(es), p), id) <==> exists i, j :: FightWithId(es, i, j, id)
  {
    var fs := Flat(ConflictGroups(es), p);
    if k :| 0 <= k < |fs| && IdOf(fs[k]) == id {
      ReportedIffFight(es, p, fs[k]);
      var i, j :| FightAt(es, i, j, fs[k]);
      assert FightWithId(es, i, j, id);
    }
    if i, j :| FightWithId(es, i, j, id) {
      var f := ConflictFinding(es[i].port, es[i], es[j]);
      assert FightAt(es, i, j, f);
      ReportedIffFight(es, p, f);
      var k :| 0 <= k < |fs| && fs[k] == f;
    }
  }

  lemma HygieneHasNoConflict(m: map<string, set<string>>, rule: Rule, n: seq<string>, id: string)
    requires Walk(n, m.Keys) && CONFLICT <= id
    ensures !HasId(Flat(FindingGroups(m, rule), n), id)
  {
    var g := FindingGroups(m, rule);
    var fs := Flat(g, n);
    forall k | 0 <= k < |fs| ensures IdOf(fs[k]) != id {
      FlatHas(g, n, fs[k]);
      var q :| 0 <= q < |n| && fs[k] in g[n[q]];
      assert fs[k] == HygieneFinding(rule, n[q]);
      assert IdOf(fs[k])[0] == 'k' && id[0] == CONFLICT[0] == 'p';
    }
  }

  /** The report has a conflict of this ID exactly if some pair with that ID fights. */
  lemma ConflictReportedIff(es: seq<Endpoint>, noLimits: map<string, set<string>>, latest: map<string, set<string>>,
                            middle: seq<Finding>, rest: seq<Finding>, p: seq<int>, n: seq<string>, l: seq<string>,
                            id: string)
    requires Walk(p, ConflictGroups(es).Keys) && Walk(n, noLimits.Keys) && Walk(l, latest.Keys)
    requires CONFLICT <= id && !HasId(middle, id) && !HasId(rest, id)
    ensures HasId(StableSort(Collect(Raised(es, noLimits, latest, middle, rest, p, n, l), {})), id) <==>
      exists i, j :: FightWithId(es, i, j, id)
  {
    var c := Flat(ConflictGroups(es), p);
    var a, b := Flat(FindingGroups(noLimits, NoLimits), n), Flat(FindingGroups(latest, Latest), l);
    SortHasId(Collect(c + middle + a + b + rest, {}), id);
    CollectHasId(c + middle + a + b + rest, {}, id);
    HasIdConcat(c + middle + a + b, rest, id);
    HasIdConcat(c + middle + a, b, id);
    HasIdConcat(c + middle, a, id);
    HasIdConcat(c, middle, id);
    HygieneHasNoConflict(noLimits, NoLimits, n, id);
    HygieneHasNoConflict(latest, Latest, l, id);
    ConflictsHaveId(es, p, id);
  }

  /** Endpoints whose ids hold a colon: two pairs that fight share an ID, so the collector
      keeps only the first of them. */
  lemma PairsShareId(x: Endpoint, y: Endpoint, u: Endpoint, v: Endpoint, port: int, seen: set<string>)
    requires x.id == "a:b" && y.id == "c" && u.id == "a" && v.id == "b:c"
    requires IdOf(ConflictFinding(port, x, y)) !in seen
    ensures var f, g := ConflictFinding(port, x, y), ConflictFinding(port, u, v);
      IdOf(f) == IdOf(g) && |Collect([f, g], seen)| == 1
  {
    var f, g := ConflictFinding(port, x, y), ConflictFinding(port, u, v);
    assert x.id + ":" + y.id == "a:b:c" == u.id + ":" + v.id;
    assert f.id == g.id != "";
    assert [f, g][1..] == [g] && [g][1..] == [];
    assert Collect([g], seen + {IdOf(f)}) == [];
    assert Collect([f, g], seen) == [Named(f)] + Collect([g], seen + {IdOf(f)});
  }

  method AddAll(c: Collector, fs: seq<Finding>)
    modifies c
    ensures Added(c.findings, c.seen, old(c.findings), old(c.seen), fs)
  {
    var i := 0;
    while i < |fs|
      invariant 0 <= i <= |fs|
      invariant Added(c.findings, c.seen, old(c.findings), old(c.seen), fs[..i])
    {
      AddOne(c, fs[i], old(c.findings), old(c.seen), fs[..i]);
      assert fs[..i + 1] == fs[..i] + [fs[i]];
      i := i + 1;
    }
    assert fs[..|fs|] == fs;
  }

  method Gather(es: seq<Endpoint>, noLimits: map<string, set<string>>, latest: map<string, set<string>>,
                middle: seq<Finding>, rest: seq<Finding>)
    returns (c: Collector, ghost p: seq<int>, ghost n: seq<string>, ghost l: seq<string>)
    ensures fresh(c)
    ensures Walk(p, ConflictGroups(es).Keys) && Walk(n, noLimits.Keys) && Walk(l, latest.Keys)
    ensures c.findings == Collect(Raised(es, noLimits, latest, middle, rest, p, n, l), {})
  {
    c := new Collector();
    p := RulePortConflicts(c, es);
    ghost var fs := Flat(ConflictGroups(es), p);
    assert Added(c.findings, c.seen, [], {}, fs);
    ghost var found, seen := c.findings, c.seen;
    AddAll(c, middle);
    AddedNext(c.findings, c.seen, found, seen, [], {}, fs, middle);
    fs := fs + middle;
    found, seen := c.findings, c.seen;
    n := AddGroups(c, noLimits, NoLimits);
    AddedNext(c.findings, c.seen, found, seen, [], {}, fs, Flat(FindingGroups(noLimits, NoLimits), n));
    fs := fs + Flat(FindingGroups(noLimits, NoLimits), n);
    found, seen := c.findings, c.seen;
    l := AddGroups(c, latest, Latest);
    AddedNext(c.findings, c.seen, found, seen, [], {}, fs, Flat(FindingGroups(latest, Latest), l));
    fs := fs + Flat(FindingGroups(latest, Latest), l);
    found, seen := c.findings, c.seen;
    AddAll(c, rest);
    AddedNext(c.findings, c.seen, found, seen, [], {}, fs, rest);
  }

  /** The result is the one list that every order of the walks gives. */
  method Run(es: seq<Endpoint>, pods: seq<Pod>, middle: seq<Finding>, rest: seq<Finding>)
    returns (r: seq<Finding>, noLimits: map<string, set<string>>, latest: map<string, set<string>>)
    ensures Groups(noLimits, pods, NoLimits) && Groups(latest, pods, Latest)
    ensures forall p, n, l :: Walk(p, ConflictGroups(es).Keys) && Walk(n, noLimits.Keys) && Walk(l, latest.Keys)
                ==> StableSortOf(r, Collect(Raised(es, noLimits, latest, middle, rest, p, n, l), {}))
  {
    noLimits := Group(pods, NoLimits);
    latest := Group(pods, Latest);
    var c;
    ghost var p0, n0, l0;
    c, p0, n0, l0 := Gather(es, noLimits, latest, middle, rest);
    c.Sort();
    r := c.findings;
    forall p, n, l | Walk(p, ConflictGroups(es).Keys) && Walk(n, noLimits.Keys) && Walk(l, latest.Keys)
      ensures StableSortOf(r, Collect(Raised(es, noLimits, latest, middle, rest, p, n, l), {}))
    {
      OneReport(es, noLimits, latest, middle, rest, p0, n0, l0, p, n, l);
      StableSortWorks(Collect(Raised(es, noLimits, latest, middle, rest, p, n, l), {}));
    }
  }
}
