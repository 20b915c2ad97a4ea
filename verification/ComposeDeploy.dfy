/** The deploy of a compose stack and its undo log
    (internal/api/handlers_compose_deploy.go:114-147, 207-256;
    internal/api/compose_configs.go:32-97). */
module ComposeDeploy {
  import opened Disks
  import opened Walks
  import opened Wrappers

  datatype Config = Config(path: string, content: string, mode: nat, uid: Option<int>, gid: Option<int>)

  datatype Request = Request(project: string, file: string, files: map<string, string>, env: Option<string>,
                             configs: seq<Config>, replace: string)

  /** What other packages decide: names and paths by regular expressions, path.Base and
      path.Dir, and whether a compose file has services it would have to build. */
  datatype Rules = Rules(name: string -> bool, path: string -> bool, base: string -> string, dir: string -> string,
                         builds: string -> bool)

  const ENV := ".env"
  const OVERRIDE_FILE := "compose.nkt.yml"
  const CONFIGS_DIR := ".nkt-configs"
  const MAX_BYTES := 4 * 1024 * 1024
  const CONFIG_MAX_BYTES := 256 * 1024

  /** path.Base and path.Dir of ".env". */
  ghost predicate Sound(r: Rules) { r.base(ENV) == ENV && r.dir(ENV) == "." }

  // ---- what a request must be ----

  ghost function Total(files: map<string, string>): nat {
    if files == map[] then 0
    else
      var k :| k in files;
      |files[k]| + Total(files - {k})
  }

  /** The sum does not depend on the order of the walk. */
  lemma {:induction false} TotalLess(files: map<string, string>, k: string)
    requires k in files
    ensures Total(files) == |files[k]| + Total(files - {k})
    decreases |files|
  {
    var j :| j in files && Total(files) == |files[j]| + Total(files - {j});
    if j != k {
      TotalLess(files - {j}, k);
      TotalLess(files - {k}, j);
      assert files - {j} - {k} == files - {k} - {j};
    }
  }

  predicate FileOk(r: Rules, rel: string) {
    r.path(rel) && r.base(rel) != ENV && r.base(rel) != OVERRIDE_FILE && r.dir(rel) != CONFIGS_DIR
  }

  predicate IdOk(id: Option<int>) { id.Some? ==> 0 <= id.value <= 65535 }

  predicate ConfigOk(r: Rules, c: Config) {
    && r.path(c.path) && r.dir(c.path) == CONFIGS_DIR && |c.content| <= CONFIG_MAX_BYTES
    && 0 < c.mode <= 0x1FF && IdOk(c.uid) && IdOk(c.gid)
  }

  ghost predicate ConfigsOk(r: Rules, cs: seq<Config>) {
    && |cs| <= 50
    && (forall i :: 0 <= i < |cs| ==> ConfigOk(r, cs[i]))
    && (forall i, j :: 0 <= i < j < |cs| ==> cs[i].path != cs[j].path)
  }

  ghost predicate RequestOk(r: Rules, q: Request) {
    && r.name(q.project) && q.file in q.files && !r.builds(q.files[q.file])
    && (forall rel <- q.files :: FileOk(r, rel))
    && Total(q.files) <= MAX_BYTES && |q.files| <= 200
    && ConfigsOk(r, q.configs)
    && (q.replace != "" ==> r.name(q.replace) && q.replace != q.project)
  }

  /** validateConfigs. */
  method ValidateConfigs(r: Rules, cs: seq<Config>) returns (ok: bool)
    ensures ok <==> ConfigsOk(r, cs)
  {
    if |cs| > 50 {
      return false;
    }
    var seen: set<string> := {};
    var i := 0;
    while i < |cs|
      invariant 0 <= i <= |cs| && seen == set j | 0 <= j < i :: cs[j].path
      invariant forall j :: 0 <= j < i ==> ConfigOk(r, cs[j])
      invariant forall j, k :: 0 <= j < k < i ==> cs[j].path != cs[k].path
    {
      var c := cs[i];
      if !r.path(c.path) || r.dir(c.path) != CONFIGS_DIR || c.path in seen {
        return false;
      }
      seen := seen + {c.path};
      if |c.content| > CONFIG_MAX_BYTES || c.mode == 0 || c.mode > 0x1FF || !IdOk(c.uid) || !IdOk(c.gid) {
        return false;
      }
      i := i + 1;
    }
    ok := true;
  }

  /** The first loop over the files, in the order of the walk of the map. */
  method ValidateFiles(r: Rules, files: map<string, string>) returns (ok: bool, total: nat)
    ensures ok <==> forall rel <- files :: r.path(rel) && r.base(rel) != ENV && r.base(rel) != OVERRIDE_FILE
    ensures ok ==> total == Total(files)
  {
    total := 0;
    var rest := files;
    while rest != map[]
      invariant rest.Keys <= files.Keys && forall k <- rest :: rest[k] == files[k]
      invariant total + Total(rest) == Total(files)
      invariant forall k <- files :: k !in rest ==> r.path(k) && r.base(k) != ENV && r.base(k) != OVERRIDE_FILE
      decreases |rest|
    {
      var rel :| rel in rest;
      if !r.path(rel) || r.base(rel) == ENV || r.base(rel) == OVERRIDE_FILE {
        return false, total;
      }
      TotalLess(rest, rel);
      total := total + |files[rel]|;
      rest := rest - {rel};
    }
    ok := true;
  }

  /** composeDeployRequest.validate. */
  method Validate(r: Rules, q: Request) returns (ok: bool)
    ensures ok <==> RequestOk(r, q)
  {
    if !r.name(q.project) || q.file !in q.files || !r.path(q.file) {
      return false;
    }
    var total;
    ok, total := ValidateFiles(r, q.files);
    if !ok || total > MAX_BYTES || |q.files| > 200 || r.builds(q.files[q.file]) {
      return false;
    }
    ok := ValidateConfigs(r, q.configs);
    if !ok || exists rel <- q.files :: r.dir(rel) == CONFIGS_DIR {
      return false;
    }
    ok := q.replace == "" || (r.name(q.replace) && q.replace != q.project);
  }

  // ---- what a deploy writes ----

  /** A write, and how it ended: a failed write, or a failed chown after it, may leave anything. */
  datatype Outcome = Wrote | Failed(left: Option<string>)

  datatype Write = Write(path: string, data: string, outcome: Outcome)

  /** What is written, in order: the files in the order of the walk, .env, the configs. */
  function Rels(q: Request, walk: seq<string>): seq<string> {
    walk + (if q.env.Some? then [ENV] else []) + ConfigPaths(q.configs)
  }

  function ConfigPaths(cs: seq<Config>): seq<string> { seq(|cs|, i requires 0 <= i < |cs| => cs[i].path) }

  function Paths(dir: string, rels: seq<string>): seq<string> {
    seq(|rels|, i requires 0 <= i < |rels| => dir + "/" + rels[i])
  }

  ghost predicate Distinct(ps: seq<string>) { forall i, j :: 0 <= i < j < |ps| ==> ps[i] != ps[j] }

  lemma DistinctConcat(a: seq<string>, b: seq<string>)
    requires Distinct(a) && Distinct(b) && forall x <- a :: x !in b
    ensures Distinct(a + b)
  {
    var c := a + b;
    forall i, j | 0 <= i < j < |c| ensures c[i] != c[j] {
      if i < |a| <= j {
        assert c[i] in a && c[j] == b[j - |a|];
      }
    }
  }

  /** What validate is for: no path is written twice. */
  lemma ValidWritesDistinct(r: Rules, q: Request, dir: string, walk: seq<string>)
    requires Sound(r) && RequestOk(r, q) && Walk(walk, q.files.Keys)
    ensures Distinct(Paths(dir, Rels(q, walk)))
  {
    var cs := ConfigPaths(q.configs);
    forall c | c in cs ensures r.dir(c) == CONFIGS_DIR {
      var i :| 0 <= i < |cs| && cs[i] == c;
      assert ConfigOk(r, q.configs[i]);
    }
    assert forall x <- walk :: FileOk(r, x);
    var env := if q.env.Some? then [ENV] else [];
    DistinctConcat(walk, env);
    DistinctConcat(walk + env, cs);
    var rels, ps := Rels(q, walk), Paths(dir, Rels(q, walk));
    forall i, j | 0 <= i < j < |ps| ensures ps[i] != ps[j] {
      assert ps[i][|dir| + 1..] == rels[i] && ps[j][|dir| + 1..] == rels[j];
    }
  }

  // ---- the undo log ----

  datatype State = State(disk: Disk, before: map<string, Option<string>>)

  function DoWrite(s: State, hidden: set<string>, w: Write): State {
    State(Left(s.disk, w.path, if w.outcome.Wrote? then Some(w.data) else w.outcome.left),
          s.before[w.path := Read(s.disk, hidden, w.path)])
  }

  function DoAll(s: State, hidden: set<string>, ws: seq<Write>): State {
    if ws == [] then s else DoWrite(DoAll(s, hidden, ws[..|ws| - 1]), hidden, ws[|ws| - 1])
  }

  /** restore, in the order of the walk; the undo writes of the paths in stuck fail. */
  function Restore(d: Disk, before: map<string, Option<string>>, stuck: set<string>, walk: seq<string>): Disk
    requires forall p <- walk :: p in before
  {
    if walk == [] then d
    else
      var n := |walk| - 1;
      var e := Restore(d, before, stuck, walk[..n]);
      if walk[n] in stuck then e else Left(e, walk[n], before[walk[n]])
  }

  lemma {:induction false} RestoreLook(d: Disk, before: map<string, Option<string>>, stuck: set<string>,
                                       walk: seq<string>, p: string)
    requires forall x <- walk :: x in before
    ensures Look(Restore(d, before, stuck, walk), p) == if p in walk && p !in stuck then before[p] else Look(d, p)
  {
    if walk != [] {
      var n := |walk| - 1;
      RestoreLook(d, before, stuck, walk[..n], p);
      assert walk == walk[..n] + [walk[n]];
    }
  }

  ghost predicate DistinctWrites(ws: seq<Write>) { forall i, j :: 0 <= i < j < |ws| ==> ws[i].path != ws[j].path }

  function PathsOf(ws: seq<Write>): set<string> { set i | 0 <= i < |ws| :: ws[i].path }

  /** The log holds what was there first, and only written paths changed. */
  lemma {:induction false} LogIsOriginal(d: Disk, hidden: set<string>, ws: seq<Write>)
    requires DistinctWrites(ws)
    ensures var s := DoAll(State(d, map[]), hidden, ws);
      && s.before.Keys == PathsOf(ws)
      && (forall p <- s.before :: s.before[p] == Read(d, hidden, p))
      && (forall p :: p !in PathsOf(ws) ==> Look(s.disk, p) == Look(d, p))
  {
    if ws != [] {
      var n := |ws| - 1;
      LogIsOriginal(d, hidden, ws[..n]);
      var p := ws[n].path;
      assert PathsOf(ws) == PathsOf(ws[..n]) + {p} by {
        forall i | 0 <= i < n ensures ws[i].path in PathsOf(ws[..n]) {
          assert ws[..n][i] == ws[i];
        }
      }
      assert p !in PathsOf(ws[..n]);
    }
  }

  /** When a write, a chown or the check of the stack fails, the undo brings back every
      written path, except where the undo itself fails or the old file could not be read. */
  lemma UndoRestores(d: Disk, hidden: set<string>, ws: seq<Write>, stuck: set<string>, walk: seq<string>, p: string)
    requires DistinctWrites(ws) && Walk(walk, PathsOf(ws)) && p !in stuck
    ensures var s := DoAll(State(d, map[]), hidden, ws);
      && (forall x <- walk :: x in s.before)
      && (Look(Restore(s.disk, s.before, stuck, walk), p) == Look(d, p) <==>
        !(p in PathsOf(ws) && p in d && p in hidden))
  {
    LogIsOriginal(d, hidden, ws);
    var s := DoAll(State(d, map[]), hidden, ws);
    RestoreLook(s.disk, s.before, stuck, walk, p);
  }

  /** A path written twice would lose its original. */
  lemma RepeatedPathLost()
    ensures var d := map["a" := "old"];
      var ws := [Write("a", "1", Wrote), Write("a", "2", Failed(None))];
      var s := DoAll(State(d, map[]), {}, ws);
      "a" in s.before && Look(Restore(s.disk, s.before, {}, ["a"]), "a") == Some("1") != Look(d, "a")
  {
    var d := map["a" := "old"];
    var one, two := Write("a", "1", Wrote), Write("a", "2", Failed(None));
    var ws := [one, two];
    assert ws[..1] == [one] && [one][..0] == [];
    var s1 := DoWrite(State(d, map[]), {}, one);
    assert DoAll(State(d, map[]), {}, [one]) == s1;
    var s := DoWrite(s1, {}, two);
    assert DoAll(State(d, map[]), {}, ws) == s;
    assert "a" in s.before && s.before["a"] == Some("1");
    assert ["a"][..0] == [];
    assert Restore(s.disk, s.before, {}, []) == s.disk;
    assert |"1"| != |"old"|;
  }

  // ---- the deploy ----

  class Stack {
    var disk: Disk
    var before: map<string, Option<string>>

    ghost function Now(): State
      reads this
    {
      State(disk, before)
    }

    /** write: the log first, then the file. */
    method Put(hidden: set<string>, w: Write) returns (ok: bool)
      modifies this
      ensures Now() == DoWrite(old(Now()), hidden, w) && ok == w.outcome.Wrote?
    {
      before := before[w.path := Read(disk, hidden, w.path)];
      disk := Left(disk, w.path, if w.outcome.Wrote? then Some(w.data) else w.outcome.left);
      ok := w.outcome.Wrote?;
    }

    /** restore: the log, walked in any order. */
    method Undo(stuck: set<string>) returns (ghost walk: seq<string>)
      modifies this`disk
      ensures Walk(walk, before.Keys) && (forall x <- walk :: x in before)
      ensures disk == Restore(old(disk), before, stuck, walk)
    {
      walk := [];
      var rest := before.Keys;
      while rest != {}
        invariant rest <= before.Keys && Walk(walk, before.Keys - rest)
        invariant forall x <- walk :: x in before
        invariant disk == Restore(old(disk), before, stuck, walk)
        decreases |rest|
      {
        var p :| p in rest;
        if p !in stuck {
          disk := Left(disk, p, before[p]);
        }
        WalkNext(walk, before.Keys, rest, p);
        walk, rest := walk + [p], rest - {p};
      }
      assert before.Keys - {} == before.Keys;
    }

    /** The writes of handleComposeDeploy up to the first that fails, then config -q; on
        any failure every path is as before, but for those whose undo fails. */
    method Deploy(hidden: set<string>, ws: seq<Write>, accepted: bool, stuck: set<string>) returns (ok: bool)
      requires DistinctWrites(ws) && before == map[]
      modifies this
      ensures ok <==> accepted && forall i :: 0 <= i < |ws| ==> ws[i].outcome.Wrote?
      ensures ok ==> disk == DoAll(State(old(disk), map[]), hidden, ws).disk
      ensures !ok ==> forall p :: p !in stuck && !(p in hidden) ==> Look(disk, p) == Look(old(disk), p)
      ensures forall p :: p !in PathsOf(ws) ==> Look(disk, p) == Look(old(disk), p)
    {
      var i := 0;
      ok := true;
      while i < |ws| && ok
        invariant 0 <= i <= |ws| && Now() == DoAll(State(old(disk), map[]), hidden, ws[..i])
        invariant ok <==> forall j :: 0 <= j < i ==> ws[j].outcome.Wrote?
      {
        assert ws[..i + 1][..i] == ws[..i];
        ok := Put(hidden, ws[i]);
        i := i + 1;
      }
      if ok && accepted {
        assert ws[..i] == ws;
        LogIsOriginal(old(disk), hidden, ws);
        return;
      }
      ok := false;
      ghost var done := ws[..i];
      ghost var written := Now();
      LogIsOriginal(old(disk), hidden, done);
      ghost var walk := Undo(stuck);
      forall p ensures p !in stuck && p !in hidden ==> Look(disk, p) == Look(old(disk), p) {
        RestoreLook(written.disk, before, stuck, walk, p);
      }
      forall p | p !in PathsOf(ws) ensures Look(disk, p) == Look(old(disk), p) {
        RestoreLook(written.disk, before, stuck, walk, p);
      }
    }
  }

  /** The content of each file, in the order it is written. */
  function Contents(q: Request, walk: seq<string>, render: string -> string): seq<string>
    requires forall x <- walk :: x in q.files
  {
    seq(|walk|, i requires 0 <= i < |walk| => q.files[walk[i]])
    + (if q.env.Some? then [q.env.value] else [])
    + seq(|q.configs|, i requires 0 <= i < |q.configs| => render(q.configs[i].content))
  }

  function Writes(q: Request, dir: string, walk: seq<string>, render: string -> string,
                  outcomes: seq<Outcome>): seq<Write>
    requires (forall x <- walk :: x in q.files) && |outcomes| == |Rels(q, walk)|
  {
    seq(|outcomes|, i requires 0 <= i < |outcomes| =>
      Write(Paths(dir, Rels(q, walk))[i], Contents(q, walk, render)[i], outcomes[i]))
  }

  /** Every file of the request is on the disk as sent, .env too, and each config as rendered. */
  ghost predicate Stored(q: Request, dir: string, render: string -> string, d: Disk) {
    && (forall rel <- q.files :: Look(d, dir + "/" + rel) == Some(q.files[rel]))
    && (q.env.Some? ==> Look(d, dir + "/" + ENV) == Some(q.env.value))
    && forall i :: 0 <= i < |q.configs| ==>
      Look(d, dir + "/" + q.configs[i].path) == Some(render(q.configs[i].content))
  }

  lemma WrittenIsStored(q: Request, dir: string, walk: seq<string>, render: string -> string, d: Disk)
    requires Walk(walk, q.files.Keys)
    requires forall i :: 0 <= i < |Rels(q, walk)| ==>
      Look(d, Paths(dir, Rels(q, walk))[i]) == Some(Contents(q, walk, render)[i])
    ensures Stored(q, dir, render, d)
  {
    var rels, paths, contents := Rels(q, walk), Paths(dir, Rels(q, walk)), Contents(q, walk, render);
    forall rel | rel in q.files ensures Look(d, dir + "/" + rel) == Some(q.files[rel]) {
      var i :| 0 <= i < |walk| && walk[i] == rel;
      assert paths[i] == dir + "/" + rel && contents[i] == q.files[rel];
    }
    if q.env.Some? {
      assert paths[|walk|] == dir + "/" + ENV && contents[|walk|] == q.env.value;
    }
    var n := |walk| + if q.env.Some? then 1 else 0;
    forall i | 0 <= i < |q.configs|
      ensures Look(d, dir + "/" + q.configs[i].path) == Some(render(q.configs[i].content))
    {
      assert paths[n + i] == dir + "/" + q.configs[i].path && contents[n + i] == render(q.configs[i].content);
    }
  }

  /** NoEngine: no docker or podman to run compose. Unstarted: an error after config -q. */
  datatype Answer = Refused | NoEngine | Undone | Unstarted | Deployed

  /** After config -q: whether the credentials are written, if a pull needs any, and whether
      the job starts. */
  datatype Later = Later(credentials: bool, start: bool)

  /** handleComposeDeploy: a refused request changes nothing; if a write or config -q fails
      every file of the host is as it was, but for those whose undo fails and those that could
      not be read; else all is written, and stays written when a later failure makes the
      answer an error. */
  method HandleComposeDeploy(s: Stack, r: Rules, q: Request, dir: string, walk: seq<string>, render: string -> string,
                             engine: bool, hidden: set<string>, outcomes: seq<Outcome>, accepted: bool,
                             stuck: set<string>, later: Later) returns (answer: Answer)
    requires Sound(r) && Walk(walk, q.files.Keys) && |outcomes| == |Rels(q, walk)|
    modifies s
    ensures answer.Refused? <==> !RequestOk(r, q)
    ensures answer.NoEngine? <==> RequestOk(r, q) && !engine
    ensures answer.Refused? || answer.NoEngine? ==> s.disk == old(s.disk)
    ensures answer.Undone? ==> forall p :: p !in stuck && p !in hidden ==> Look(s.disk, p) == Look(old(s.disk), p)
    ensures forall p :: p !in Paths(dir, Rels(q, walk)) ==> Look(s.disk, p) == Look(old(s.disk), p)
    ensures answer.Unstarted? || answer.Deployed? <==>
      RequestOk(r, q) && engine && accepted && forall i :: 0 <= i < |outcomes| ==> outcomes[i].Wrote?
    ensures answer.Unstarted? ==> !(later.credentials && later.start)
    ensures answer.Deployed? ==> later.credentials && later.start
    ensures answer.Unstarted? || answer.Deployed? ==> Stored(q, dir, render, s.disk)
  {
    var valid := Validate(r, q);
    if !valid {
      return Refused;
    }
    if !engine {
      return NoEngine;
    }
    s.before := map[];
    var ws := Writes(q, dir, walk, render, outcomes);
    WritesAre(r, q, dir, walk, render, outcomes);
    var ok := s.Deploy(hidden, ws, accepted, stuck);
    if ok {
      AllStored(r, q, dir, walk, render, outcomes, State(old(s.disk), map[]), hidden);
      if !later.credentials || !later.start {
        return Unstarted;
      }
      return Deployed;
    }
    return Undone;
  }

  lemma WritesAre(r: Rules, q: Request, dir: string, walk: seq<string>, render: string -> string,
                  outcomes: seq<Outcome>)
    requires Sound(r) && RequestOk(r, q) && Walk(walk, q.files.Keys) && |outcomes| == |Rels(q, walk)|
    ensures var ws, paths := Writes(q, dir, walk, render, outcomes), Paths(dir, Rels(q, walk));
      && DistinctWrites(ws) && |ws| == |outcomes| && (forall p <- PathsOf(ws) :: p in paths)
      && forall i :: 0 <= i < |ws| ==>
        ws[i].path == paths[i] && ws[i].outcome == outcomes[i] && ws[i].data == Contents(q, walk, render)[i]
  {
    var ws, paths := Writes(q, dir, walk, render, outcomes), Paths(dir, Rels(q, walk));
    ValidWritesDistinct(r, q, dir, walk);
    forall p | p in PathsOf(ws) ensures p in paths {
      var i :| 0 <= i < |ws| && ws[i].path == p;
    }
  }

  lemma AllStored(r: Rules, q: Request, dir: string, walk: seq<string>, render: string -> string,
                  outcomes: seq<Outcome>, s: State, hidden: set<string>)
    requires Sound(r) && RequestOk(r, q) && Walk(walk, q.files.Keys) && |outcomes| == |Rels(q, walk)|
    requires forall i :: 0 <= i < |outcomes| ==> outcomes[i].Wrote?
    ensures Stored(q, dir, render, DoAll(s, hidden, Writes(q, dir, walk, render, outcomes)).disk)
  {
    var ws := Writes(q, dir, walk, render, outcomes);
    WritesAre(r, q, dir, walk, render, outcomes);
    forall i | 0 <= i < |Rels(q, walk)|
      ensures Look(DoAll(s, hidden, ws).disk, Paths(dir, Rels(q, walk))[i]) == Some(Contents(q, walk, render)[i])
    {
      WrittenLast(s, hidden, ws, i);
    }
    WrittenIsStored(q, dir, walk, render, DoAll(s, hidden, ws).disk);
  }

  /** What was written stays written. */
  lemma {:induction false} WrittenLast(s: State, hidden: set<string>, ws: seq<Write>, i: nat)
    requires DistinctWrites(ws) && i < |ws| && ws[i].outcome.Wrote?
    ensures Look(DoAll(s, hidden, ws).disk, ws[i].path) == Some(ws[i].data)
  {
    var n := |ws| - 1;
    if i < n {
      WrittenLast(s, hidden, ws[..n], i);
    }
  }
}
