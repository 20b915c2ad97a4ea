/** The dry run's copy of a stack and its cleanup
    (internal/api/handlers_compose_check.go:331-386), on a tree of files. */
module ComposeCheck {

  /** A path is its parts, from the root down. */
  type Path = seq<string>

  datatype Node = File(content: string) | Dir

  type Tree = map<Path, Node>

  predicate IsDir(t: Tree, p: Path) { p in t && t[p].Dir? }

  function Parent(p: Path): Path
    requires p != []
  {
    p[..|p| - 1]
  }

  /** Every node hangs in a directory. */
  ghost predicate WellFormed(t: Tree) {
    IsDir(t, []) && forall p {:trigger Parent(p)} :: p in t && p != [] ==> IsDir(t, Parent(p))
  }

  predicate HasChild(t: Tree, p: Path) { exists q <- t :: q != [] && Parent(q) == p }

  // ---- the collector's operations ----

  /** os.MkdirAll, interrupted after k levels; a file in the way stops it. */
  function MakeDirs(t: Tree, p: Path, k: nat): Tree
    requires k <= |p|
  {
    if k == 0 then t
    else
      MakeDir(MakeDirs(t, p, k - 1), p[..k])
  }

  /** One more level. */
  function MakeDir(u: Tree, d: Path): Tree
    requires d != []
  {
    if d in u || !IsDir(u, Parent(d)) then u else u[d := Dir]
  }

  /** One write: the file, and how far it came. A write that succeeds has made all
      levels and the file; one that fails may have stopped anywhere. */
  datatype Write = Write(rel: Path, content: string, levels: nat, wrote: bool)

  function WriteFile(t: Tree, p: Path, w: Write): Tree
    requires p != []
  {
    var u := MakeDirs(t, p, if w.levels < |p| then w.levels else |p| - 1);
    if w.wrote && IsDir(u, Parent(p)) && !IsDir(u, p) then u[p := File(w.content)] else u
  }

  /** os.Remove: a file, or an empty directory. */
  function DeleteFile(t: Tree, p: Path): Tree {
    if HasChild(t, p) then t else t - {p}
  }

  // ---- the copy and the cleanup ----

  /** composeCheckCopy, stopped after any write. */
  function Copy(t: Tree, work: Path, ws: seq<Write>): Tree
    requires forall w <- ws :: w.rel != []
  {
    if ws == [] then t
    else
      var n := |ws| - 1;
      WriteFile(Copy(t, work, ws[..n]), work + ws[n].rel, ws[n])
  }

  ghost function DeleteAll(t: Tree, ps: seq<Path>): Tree
    decreases |ps|
  {
    if ps == [] then t else DeleteAll(DeleteFile(t, ps[0]), ps[1..])
  }

  function Targets(work: Path, ws: seq<Write>): seq<Path> { seq(|ws|, i requires 0 <= i < |ws| => work + ws[i].rel) }

  /** The directories between work and the files. */
  ghost predicate IsBetween(work: Path, ws: seq<Write>, d: Path) {
    exists i, k :: 0 <= i < |ws| && 0 < k < |ws[i].rel| && d == work + ws[i].rel[..k]
  }

  /** All of them, deepest first, in any order among equals. */
  ghost predicate DeepestFirst(work: Path, ws: seq<Write>, dirs: seq<Path>) {
    && (forall d :: d in dirs <==> IsBetween(work, ws, d))
    && (forall i, j :: 0 <= i < j < |dirs| ==> |dirs[i]| >= |dirs[j]|)
  }

  /** composeCheckCleanup; dir is composeCheckDir. */
  ghost function Cleanup(t: Tree, dir: Path, work: Path, ws: seq<Write>, dirs: seq<Path>): Tree {
    DeleteFile(DeleteFile(DeleteAll(DeleteAll(t, Targets(work, ws)), dirs), work), dir)
  }

  // ---- what the copy makes ----

  ghost predicate Below(work: Path, p: Path) { |work| < |p| && p[..|work|] == work }

  /** Nodes that are there before stay as they are; a new one is part of the path. */
  lemma {:induction false} MakeDirsAdds(t: Tree, p: Path, k: nat)
    requires WellFormed(t) && k <= |p|
    ensures WellFormed(MakeDirs(t, p, k))
    ensures forall q <- t :: q in MakeDirs(t, p, k) && MakeDirs(t, p, k)[q] == t[q]
    ensures forall q <- MakeDirs(t, p, k) :: q in t || (q <= p && 0 < |q| <= k && MakeDirs(t, p, k)[q].Dir?)
    decreases k
  {
    if k > 0 {
      MakeDirsAdds(t, p, k - 1);
    }
  }

  /** What the copy may add: the directories down to work and between work and the
      files, and the files. */
  ghost predicate Added(u: Tree, dir: Path, work: Path, ws: seq<Write>, q: Path)
    requires q in u
  {
    || (q <= dir && u[q].Dir?) || q == work || IsBetween(work, ws, q)
    || (q in Targets(work, ws) && u[q].File?)
  }

  ghost predicate Copied(t: Tree, u: Tree, dir: Path, work: Path, ws: seq<Write>) {
    && WellFormed(u)
    && (forall q <- t :: q in u && u[q] == t[q])
    && (forall q <- u :: q in t || Added(u, dir, work, ws, q))
  }

  lemma WriteAdds(u: Tree, p: Path, w: Write)
    requires WellFormed(u) && p != []
    ensures var v := WriteFile(u, p, w);
      && WellFormed(v)
      && (forall q <- u :: q in v && (v[q] == u[q] || (q == p && u[q].File? && v[q].File?)))
      && (forall q <- v :: q in u || (q == p && v[q].File?) || (q <= p && 0 < |q| < |p| && v[q].Dir?))
  {
    var k := if w.levels < |p| then w.levels else |p| - 1;
    MakeDirsAdds(u, p, k);
  }

  ghost predicate Fresh(t: Tree, work: Path) { forall q <- t :: !(work <= q) }

  ghost predicate Relative(ws: seq<Write>) { forall w <- ws :: w.rel != [] }

  /** Where a directory made by one write can be. */
  lemma PrefixOfTarget(dir: Path, work: Path, ws: seq<Write>, n: nat, i: nat)
    requires work != [] && work == dir + [work[|work| - 1]] && n < |ws| && 0 < i < |work + ws[n].rel|
    ensures var q := (work + ws[n].rel)[..i]; q <= dir || q == work || IsBetween(work, ws, q)
  {
    var q := (work + ws[n].rel)[..i];
    if i > |work| {
      assert q == work + ws[n].rel[..i - |work|];
    } else if i == |work| {
      assert q == work;
    }
  }

  lemma BetweenMore(work: Path, ws: seq<Write>, n: nat, q: Path)
    requires n <= |ws| && (IsBetween(work, ws[..n], q) || q in Targets(work, ws[..n]))
    ensures IsBetween(work, ws[..n], q) ==> IsBetween(work, ws, q)
    ensures q in Targets(work, ws[..n]) ==> q in Targets(work, ws)
  {
    if IsBetween(work, ws[..n], q) {
      var i, k :| 0 <= i < n && 0 < k < |ws[..n][i].rel| && q == work + ws[..n][i].rel[..k];
      assert ws[..n][i] == ws[i];
    }
    if q in Targets(work, ws[..n]) {
      var i :| 0 <= i < n && Targets(work, ws[..n])[i] == q;
      assert Targets(work, ws)[i] == q;
    }
  }

  lemma {:induction false} CopyAdds(t: Tree, dir: Path, work: Path, ws: seq<Write>)
    requires WellFormed(t) && work != [] && work == dir + [work[|work| - 1]] && Fresh(t, work) && Relative(ws)
    ensures Copied(t, Copy(t, work, ws), dir, work, ws)
    decreases |ws|
  {
    if ws != [] {
      var n := |ws| - 1;
      var u, v, p := Copy(t, work, ws[..n]), Copy(t, work, ws), work + ws[n].rel;
      CopyAdds(t, dir, work, ws[..n]);
      WriteAdds(u, p, ws[n]);
      assert work <= p && p !in t;
      forall q | q in v && q !in t ensures Added(v, dir, work, ws, q) {
        if q in u {
          assert Added(u, dir, work, ws[..n], q);
          if IsBetween(work, ws[..n], q) || q in Targets(work, ws[..n]) {
            BetweenMore(work, ws, n, q);
          }
        } else if q == p {
          assert Targets(work, ws)[n] == p;
        } else {
          PrefixOfTarget(dir, work, ws, n, |q|);
        }
      }
    }
  }

  // ---- what the cleanup takes away ----

  lemma {:induction false} DeleteSome(t: Tree, ps: seq<Path>)
    requires WellFormed(t) && forall i :: 0 <= i < |ps| ==> ps[i] != []
    ensures var v := DeleteAll(t, ps);
      && WellFormed(v)
      && (forall q <- v :: q in t && v[q] == t[q])
      && (forall q <- t :: q !in ps ==> q in v)
      && (forall p <- ps :: p in v ==> t[p].Dir?)
    decreases |ps|
  {
    if ps != [] {
      var first, rest := ps[0], ps[1..];
      assert ps == [first] + rest;
      var u := DeleteFile(t, first);
      assert u == t || u == t - {first};
      DeleteSome(u, rest);
    }
  }

  /** Taken deepest first, every directory is empty when its turn comes. */
  lemma {:induction false} DirsGo(t: Tree, work: Path, dirs: seq<Path>)
    requires WellFormed(t)
    requires forall q <- t :: Below(work, q) ==> q in dirs
    requires forall d <- dirs :: Below(work, d)
    requires forall i, j :: 0 <= i < j < |dirs| ==> |dirs[i]| >= |dirs[j]|
    ensures forall q <- DeleteAll(t, dirs) :: !Below(work, q)
    decreases |dirs|
  {
    if dirs != [] {
      var d := dirs[0];
      assert d in dirs;
      forall q | q in t && Below(work, q) ensures |q| <= |d| {
        var i :| 0 <= i < |dirs| && dirs[i] == q;
      }
      forall q | q in t && q != [] ensures Parent(q) != d {
        assert Parent(q) == d ==> Below(work, q);
      }
      var u := DeleteFile(t, d);
      forall q | q in u && Below(work, q) ensures q in dirs[1..] {
        var i :| 0 <= i < |dirs| && dirs[i] == q;
        assert q == dirs[1..][i - 1];
      }
      DirsGo(u, work, dirs[1..]);
    }
  }

  /** What is left under work once the files are gone is a directory between. */
  lemma OnlyDirsLeft(t: Tree, u: Tree, dir: Path, work: Path, ws: seq<Write>, q: Path)
    requires Fresh(t, work) && Relative(ws) && Copied(t, u, dir, work, ws) && |work| == |dir| + 1
    requires q in DeleteAll(u, Targets(work, ws)) && Below(work, q)
    ensures IsBetween(work, ws, q)
  {
    DeleteSome(u, Targets(work, ws));
    assert work <= q && q !in t && |q| > |dir| && q != work;
    assert Added(u, dir, work, ws, q);
  }

  /** After the files and the directories, the tree is as before but for the way to work. */
  lemma AllBelowGone(t: Tree, u: Tree, dir: Path, work: Path, ws: seq<Write>, dirs: seq<Path>)
    requires Fresh(t, work) && Relative(ws) && Copied(t, u, dir, work, ws) && |work| == |dir| + 1
    requires DeepestFirst(work, ws, dirs)
    ensures var v := DeleteAll(DeleteAll(u, Targets(work, ws)), dirs);
      && WellFormed(v)
      && (forall q <- t :: q in v && v[q] == t[q])
      && (forall q <- v :: q in u && v[q] == u[q] && (q in t || q <= dir || q == work))
      && (forall q <- u :: q <= dir ==> q in v)
  {
    var f := DeleteAll(u, Targets(work, ws));
    DeleteSome(u, Targets(work, ws));
    forall d | d in dirs ensures Below(work, d) {}
    forall q | q in f && Below(work, q) ensures q in dirs {
      OnlyDirsLeft(t, u, dir, work, ws, q);
    }
    DirsGo(f, work, dirs);
    DeleteSome(f, dirs);
    var v := DeleteAll(f, dirs);
    forall q | q in t || q <= dir ensures q !in Targets(work, ws) && q !in dirs {
      assert Below(work, q) ==> work <= q;
    }
    forall q | q in v ensures q in t || q <= dir || q == work {
      if q !in t {
        assert Added(u, dir, work, ws, q);
      }
    }
  }

  /** Whatever a copy did before it stopped, the cleanup leaves the tree as it was, but for the
      directories above composeCheckDir that the copy made; and composeCheckDir itself is
      gone if it was there with nothing in it. */
  lemma CleanupRestores(t: Tree, dir: Path, work: Path, ws: seq<Write>, dirs: seq<Path>)
    requires WellFormed(t) && dir != []
    requires work != [] && work == dir + [work[|work| - 1]] && Fresh(t, work) && Relative(ws)
    requires DeepestFirst(work, ws, dirs)
    ensures Cleanup(Copy(t, work, ws), dir, work, ws, dirs) == DeleteFile(t, dir) + MadeAbove(t, dir, ws)
  {
    var u := Copy(t, work, ws);
    CopyAdds(t, dir, work, ws);
    AllBelowGone(t, u, dir, work, ws, dirs);
    WayBack(t, u, DeleteAll(DeleteAll(u, Targets(work, ws)), dirs), dir, work, ws);
  }

  /** Once all below work is gone. */
  lemma WayBack(t: Tree, u: Tree, v: Tree, dir: Path, work: Path, ws: seq<Write>)
    requires WellFormed(t) && dir != []
    requires work != [] && work == dir + [work[|work| - 1]] && Fresh(t, work) && Relative(ws)
    requires u == Copy(t, work, ws)
    requires forall q <- t :: q in v && v[q] == t[q]
    requires forall q <- v :: q in u && v[q] == u[q] && (q in t || q <= dir || q == work)
    requires forall q <- u :: q <= dir ==> q in v
    ensures DeleteFile(DeleteFile(v, work), dir) == DeleteFile(t, dir) + MadeAbove(t, dir, ws)
  {
    AllMadeThere(t, u, dir, work, ws);
    AllThereMade(t, u, dir, work, ws);
    LastTwo(t, v, dir, work, MadeAbove(t, dir, ws));
  }

  lemma AllMadeThere(t: Tree, u: Tree, dir: Path, work: Path, ws: seq<Write>)
    requires WellFormed(t) && dir != []
    requires work != [] && work == dir + [work[|work| - 1]] && Fresh(t, work) && Relative(ws)
    requires u == Copy(t, work, ws)
    ensures var extra := MadeAbove(t, dir, ws);
      forall q <- extra :: |q| < |dir| && q !in t && q <= dir && q in u && u[q] == extra[q]
  {
    var extra := MadeAbove(t, dir, ws);
    forall q | q in extra ensures |q| < |dir| && q !in t && q <= dir && q in u && u[q] == extra[q] {
      MadeIsThere(t, dir, work, ws, q);
      MadeIs(t, dir, ws, |dir| - 1, q);
    }
  }

  lemma AllThereMade(t: Tree, u: Tree, dir: Path, work: Path, ws: seq<Write>)
    requires WellFormed(t) && dir != []
    requires work != [] && work == dir + [work[|work| - 1]] && Fresh(t, work) && Relative(ws)
    requires u == Copy(t, work, ws)
    ensures forall q <- u :: q !in t && q <= dir ==> q in MadeAbove(t, dir, ws) || q == dir
  {
    forall q | q in u && q !in t && q <= dir ensures q in MadeAbove(t, dir, ws) || q == dir {
      ThereIsMade(t, dir, work, ws, q);
    }
  }

  lemma MadeIsThere(t: Tree, dir: Path, work: Path, ws: seq<Write>, q: Path)
    requires WellFormed(t) && dir != []
    requires work != [] && work == dir + [work[|work| - 1]] && Fresh(t, work) && Relative(ws)
    requires q in MadeAbove(t, dir, ws)
    ensures var u := Copy(t, work, ws); q in u && u[q] == Dir && q <= dir && |q| < |dir| && q !in t
  {
    var u := Copy(t, work, ws);
    MadeIs(t, dir, ws, |dir| - 1, q);
    AboveMade(t, dir, work, ws, |q|);
    CopyAdds(t, dir, work, ws);
  }

  lemma ThereIsMade(t: Tree, dir: Path, work: Path, ws: seq<Write>, q: Path)
    requires WellFormed(t) && dir != []
    requires work != [] && work == dir + [work[|work| - 1]] && Fresh(t, work) && Relative(ws)
    requires q in Copy(t, work, ws) && q !in t && q <= dir
    ensures q in MadeAbove(t, dir, ws) || q == dir
  {
    MadeIs(t, dir, ws, |dir| - 1, q);
    if q != dir {
      assert q != [] && q == dir[..|q|];
      AboveMade(t, dir, work, ws, |q|);
    }
  }

  /** A dry run leaves the tree as it was exactly if each directory missing above
      composeCheckDir had a file in its way or was not got to. */
  lemma CleanupRestoresIff(t: Tree, dir: Path, work: Path, ws: seq<Write>, dirs: seq<Path>)
    requires WellFormed(t) && dir != []
    requires work != [] && work == dir + [work[|work| - 1]] && Fresh(t, work) && Relative(ws)
    requires DeepestFirst(work, ws, dirs)
    ensures Cleanup(Copy(t, work, ws), dir, work, ws, dirs) == DeleteFile(t, dir) <==>
      forall j :: 0 < j < |dir| ==> !Made(t, dir, ws, j)
    ensures IsDir(t, Parent(dir)) ==>
      Cleanup(Copy(t, work, ws), dir, work, ws, dirs) == DeleteFile(t, dir)
  {
    CleanupRestores(t, dir, work, ws, dirs);
    NothingMadeIff(t, dir, ws);
  }

  lemma NothingMadeIff(t: Tree, dir: Path, ws: seq<Write>)
    requires WellFormed(t) && dir != []
    ensures DeleteFile(t, dir) + MadeAbove(t, dir, ws) == DeleteFile(t, dir) <==>
      forall j :: 0 < j < |dir| ==> !Made(t, dir, ws, j)
    ensures IsDir(t, Parent(dir)) ==> forall j :: 0 < j < |dir| ==> !Made(t, dir, ws, j)
  {
    var extra := MadeAbove(t, dir, ws);
    if j :| 0 < j < |dir| && Made(t, dir, ws, j) {
      MadeIs(t, dir, ws, |dir| - 1, dir[..j]);
      assert dir[..j] in DeleteFile(t, dir) + extra && dir[..j] !in DeleteFile(t, dir);
    } else {
      forall q ensures q !in extra {
        MadeIs(t, dir, ws, |dir| - 1, q);
      }
      assert extra == map[];
    }
    if IsDir(t, Parent(dir)) {
      UpToDir(t, dir);
    }
  }

  /** Without /srv/compose a dry run leaves it behind. */
  lemma FirstDryRunLeaves(dir: Path, name: string, content: string)
    requires |dir| == 2
    ensures var t, work := map[[] := Dir], dir + [name];
      var ws := [Write(["f"], content, 3, true)];
      Cleanup(Copy(t, work, ws), dir, work, ws, []) == map[[] := Dir, dir[..1] := Dir] != DeleteFile(t, dir)
  {
    var t, work, ws := map[[] := Dir], dir + [name], [Write(["f"], content, 3, true)];
    CleanupRestores(t, dir, work, ws, []);
    OneAbove(t, dir, ws);
  }

  lemma OneAbove(t: Tree, dir: Path, ws: seq<Write>)
    requires t == map[[] := Dir] && |dir| == 2 && |ws| == 1 && ws[0].levels >= 1
    ensures DeleteFile(t, dir) == t && MadeAbove(t, dir, ws) == map[dir[..1] := Dir] && dir[..1] !in t
  {
    assert Reached(ws, 1) && Open(t, dir, 0) && Made(t, dir, ws, 1);
    assert MadeUpTo(t, dir, ws, 0) == map[];
  }

  // ---- the directories above ----

  /** No file stands where one of the first j parts of p has to be a directory. */
  predicate Open(t: Tree, p: Path, j: nat)
    requires j <= |p|
  {
    j == 0 || (Open(t, p, j - 1) && !(p[..j - 1] in t && t[p[..j - 1]].File?))
  }

  /** Some write comes to make the j-th directory. */
  ghost predicate Reached(ws: seq<Write>, j: nat) { exists i :: 0 <= i < |ws| && ws[i].levels >= j }

  /** The copy makes the j-th directory above composeCheckDir. */
  ghost predicate Made(t: Tree, dir: Path, ws: seq<Write>, j: nat)
    requires j <= |dir|
  {
    dir[..j] !in t && Open(t, dir, j) && Reached(ws, j)
  }

  ghost function MadeUpTo(t: Tree, dir: Path, ws: seq<Write>, j: nat): Tree
    requires j <= |dir|
  {
    if j == 0 then map[]
    else
      var above := MadeUpTo(t, dir, ws, j - 1);
      if Made(t, dir, ws, j) then above[dir[..j] := Dir] else above
  }

  /** All the directories above composeCheckDir that the copy makes. */
  ghost function MadeAbove(t: Tree, dir: Path, ws: seq<Write>): Tree
    requires dir != []
  {
    MadeUpTo(t, dir, ws, |dir| - 1)
  }

  lemma {:induction false} MadeIs(t: Tree, dir: Path, ws: seq<Write>, j: nat, q: Path)
    requires j <= |dir|
    ensures q in MadeUpTo(t, dir, ws, j) <==> 0 < |q| <= j && q == dir[..|q|] && Made(t, dir, ws, |q|)
    ensures q in MadeUpTo(t, dir, ws, j) ==> MadeUpTo(t, dir, ws, j)[q] == Dir
  {
    if j > 0 {
      MadeIs(t, dir, ws, j - 1, q);
    }
  }

  /** In a well formed tree what is there has directories above it. */
  lemma {:induction false} UnderDirs(t: Tree, p: Path, j: nat)
    requires WellFormed(t) && j <= |p| && p[..j] in t
    ensures Open(t, p, j)
  {
    if j > 0 {
      assert Parent(p[..j]) == p[..j - 1];
      UnderDirs(t, p, j - 1);
    }
  }

  /** os.MkdirAll gets as far as there is no file in the way. */
  lemma {:induction false} MakeDirsExact(t: Tree, p: Path, j: nat)
    requires WellFormed(t) && 0 < j <= |p|
    ensures p[..j] in MakeDirs(t, p, j) <==> p[..j] in t || Open(t, p, j)
  {
    var u, parent := MakeDirs(t, p, j - 1), p[..j - 1];
    MakeDirsAdds(t, p, j - 1);
    if parent in t {
      UnderDirs(t, p, j - 1);
    } else {
      MakeDirsExact(t, p, j - 1);
    }
    LastLevel(t, u, p, j);
  }

  lemma LastLevel(t: Tree, u: Tree, p: Path, j: nat)
    requires 0 < j <= |p| && (p[..j] in u <==> p[..j] in t)
    requires var parent := p[..j - 1];
      && (parent in t ==> parent in u && u[parent] == t[parent] && Open(t, p, j - 1))
      && (parent in u && parent !in t ==> u[parent].Dir?)
      && (parent !in t ==> (parent in u <==> Open(t, p, j - 1)))
    ensures p[..j] in MakeDir(u, p[..j]) <==> p[..j] in t || Open(t, p, j)
  {
    assert Parent(p[..j]) == p[..j - 1];
  }

  lemma {:induction false} LongerLater(t: Tree, p: Path, k: nat, q: Path)
    requires |q| <= k <= |p|
    ensures q in MakeDirs(t, p, k) <==> q in MakeDirs(t, p, |q|)
  {
    if |q| < k {
      LongerLater(t, p, k - 1, q);
    }
  }

  lemma {:induction false} SameOpen(t: Tree, u: Tree, dir: Path, work: Path, ws: seq<Write>, p: Path, j: nat)
    requires Copied(t, u, dir, work, ws) && |work| == |dir| + 1
    requires dir <= p && j <= |dir|
    ensures Open(u, p, j) <==> Open(t, dir, j)
  {
    if j > 0 {
      SameOpen(t, u, dir, work, ws, p, j - 1);
      var q := dir[..j - 1];
      assert p[..j - 1] == q;
      if q in u && q !in t {
        assert Added(u, dir, work, ws, q);
      }
    }
  }

  /** Which of the directories above are there after the copy. */
  lemma {:induction false} AboveMade(t: Tree, dir: Path, work: Path, ws: seq<Write>, j: nat)
    requires WellFormed(t) && work != [] && work == dir + [work[|work| - 1]] && Fresh(t, work) && Relative(ws)
    requires 0 < j < |dir|
    ensures dir[..j] in Copy(t, work, ws) <==> dir[..j] in t || Made(t, dir, ws, j)
    decreases |ws|
  {
    if ws != [] {
      var n := |ws| - 1;
      var rest, w := ws[..n], ws[n];
      AboveMade(t, dir, work, rest, j);
      CopyAdds(t, dir, work, rest);
      var u, p := Copy(t, work, rest), work + w.rel;
      assert dir <= p && p[..j] == dir[..j];
      SameOpen(t, u, dir, work, rest, p, j);
      MadeByWrite(u, p, w, j);
    }
  }

  lemma MadeByWrite(u: Tree, p: Path, w: Write, j: nat)
    requires WellFormed(u) && 0 < j < |p|
    ensures p[..j] in WriteFile(u, p, w) <==> p[..j] in u || (Open(u, p, j) && w.levels >= j)
  {
    var k := if w.levels < |p| then w.levels else |p| - 1;
    MakeDirsAdds(u, p, k);
    if j <= k {
      LongerLater(u, p, k, p[..j]);
      MakeDirsExact(u, p, j);
    }
  }

  /** The last two deletions; extra are nodes above dir. */
  lemma LastTwo(t: Tree, v: Tree, dir: Path, work: Path, extra: Tree)
    requires WellFormed(t) && dir != [] && work != [] && work == dir + [work[|work| - 1]] && Fresh(t, work)
    requires forall q <- extra :: |q| < |dir| && q !in t && q in v && v[q] == extra[q]
    requires forall q <- t :: q in v && v[q] == t[q]
    requires forall q <- v :: q in t || q in extra || q == dir || q == work
    ensures DeleteFile(DeleteFile(v, work), dir) == DeleteFile(t, dir) + extra
  {
    forall q | q in v && q != [] ensures Parent(q) != work {
      assert Parent(q) == work ==> work <= q;
    }
    assert DeleteFile(v, work) == v - {work};
    assert work !in t && work !in extra && work != dir;
    DirLast(t, v - {work}, dir, extra);
  }

  lemma DirLast(t: Tree, w: Tree, dir: Path, extra: Tree)
    requires WellFormed(t) && dir != []
    requires forall q <- extra :: |q| < |dir| && q !in t && q in w && w[q] == extra[q]
    requires forall q <- t :: q in w && w[q] == t[q]
    requires forall q <- w :: q in t || q in extra || q == dir
    ensures DeleteFile(w, dir) == DeleteFile(t, dir) + extra
  {
    var left := DeleteFile(t, dir) + extra;
    assert HasChild(t, dir) ==> dir in t;
    forall q ensures q in DeleteFile(w, dir) <==> q in left {}
    forall q | q in left ensures DeleteFile(w, dir)[q] == left[q] {}
  }

  /** The directories above composeCheckDir were there. */
  lemma UpToDir(t: Tree, dir: Path)
    requires WellFormed(t) && dir != [] && IsDir(t, Parent(dir))
    ensures forall q :: q <= dir && q != dir ==> q in t
  {
    forall q | q <= dir && q != dir ensures q in t {
      PrefixIn(t, Parent(dir), |q|);
      assert Parent(dir)[..|q|] == q;
    }
  }

  lemma {:induction false} PrefixIn(t: Tree, p: Path, k: nat)
    requires WellFormed(t) && p in t && k <= |p|
    ensures p[..k] in t
    decreases |p|
  {
    if k < |p| {
      PrefixIn(t, Parent(p), k);
      assert Parent(p)[..k] == p[..k];
    } else {
      assert p[..k] == p;
    }
  }

  // ---- what the copy holds ----

  /** A new node is a file that some write made, or a directory on the way to one. */
  ghost predicate MadeFor(work: Path, ws: seq<Write>, q: Path, node: Node) {
    exists i :: 0 <= i < |ws| &&
      if node.File? then q == work + ws[i].rel && ws[i].wrote else q <= work + ws[i].rel && q != work + ws[i].rel
  }

  lemma MadeForMore(work: Path, ws: seq<Write>, n: nat, q: Path, node: Node)
    requires n <= |ws| && MadeFor(work, ws[..n], q, node)
    ensures MadeFor(work, ws, q, node)
  {
    var i :| 0 <= i < n &&
      if node.File? then q == work + ws[..n][i].rel && ws[..n][i].wrote
      else q <= work + ws[..n][i].rel && q != work + ws[..n][i].rel;
    assert ws[..n][i] == ws[i];
  }

  lemma {:induction false} CopyMakes(t: Tree, work: Path, ws: seq<Write>)
    requires WellFormed(t) && Fresh(t, work) && Relative(ws)
    ensures var u := Copy(t, work, ws);
      && WellFormed(u) && (forall q <- t :: q in u && u[q] == t[q])
      && forall q <- u :: q in t || MadeFor(work, ws, q, u[q])
    decreases |ws|
  {
    if ws != [] {
      var n := |ws| - 1;
      var u, v, p := Copy(t, work, ws[..n]), Copy(t, work, ws), work + ws[n].rel;
      CopyMakes(t, work, ws[..n]);
      WriteAdds(u, p, ws[n]);
      assert work <= p && p !in t;
      forall q | q in v && q !in t ensures MadeFor(work, ws, q, v[q]) {
        if q in u && v[q] == u[q] {
          MadeForMore(work, ws, n, q, u[q]);
        } else if q == p {
          WritesIfWrote(u, p, ws[n]);
        }
      }
    }
  }

  lemma WritesIfWrote(u: Tree, p: Path, w: Write)
    requires WellFormed(u) && p != [] && p in WriteFile(u, p, w)
    ensures (p in u && WriteFile(u, p, w)[p] == u[p]) || w.wrote
  {
    MakeDirsAdds(u, p, if w.levels < |p| then w.levels else |p| - 1);
  }

  /** The targets of two writes do not lie in one another. */
  ghost predicate Aside(ws: seq<Write>, i: nat, j: nat)
    requires i < |ws| && j < |ws|
  {
    !(ws[i].rel <= ws[j].rel) && !(ws[j].rel <= ws[i].rel)
  }

  lemma PrefixBelow(work: Path, a: Path, b: Path)
    ensures work + a <= work + b <==> a <= b
  {
    assert (work + a)[|work|..] == a && (work + b)[|work|..] == b;
    if work + a <= work + b {
      assert (work + b)[..|work + a|][|work|..] == b[..|a|];
    }
  }

  /** What earlier writes made neither lies on the way of a target aside of theirs, as a file,
      nor takes its place. */
  lemma MadeAside(work: Path, ws: seq<Write>, i: nat, q: Path, node: Node)
    requires i < |ws| && forall k :: 0 <= k < i ==> Aside(ws, i, k)
    requires MadeFor(work, ws[..i], q, node)
    ensures node.File? ==> !(q <= work + ws[i].rel)
    ensures !(work + ws[i].rel <= q)
  {
    var k :| 0 <= k < i && ws[..i][k] == ws[k] &&
      if node.File? then q == work + ws[k].rel && ws[k].wrote else q <= work + ws[k].rel && q != work + ws[k].rel;
    assert Aside(ws, i, k);
    PrefixBelow(work, ws[i].rel, ws[k].rel);
    PrefixBelow(work, ws[k].rel, ws[i].rel);
  }

  /** Nothing is in the way of a write whose target is aside of the others. */
  lemma {:induction false} WayIsOpen(t: Tree, work: Path, ws: seq<Write>, i: nat, j: nat)
    requires WellFormed(t) && Fresh(t, work) && Relative(ws) && Open(t, work, |work|)
    requires i < |ws| && forall k :: 0 <= k < i ==> Aside(ws, i, k)
    requires j <= |work + ws[i].rel|
    ensures Open(Copy(t, work, ws[..i]), work + ws[i].rel, j)
  {
    if j > 0 {
      WayIsOpen(t, work, ws, i, j - 1);
      var u, p := Copy(t, work, ws[..i]), work + ws[i].rel;
      var q := p[..j - 1];
      CopyMakes(t, work, ws[..i]);
      if q in t {
        assert !(work <= q);
        assert q == work[..j - 1];
        OpenBelow(t, work, |work|, j);
      } else if q in u {
        MadeAside(work, ws, i, q, u[q]);
      }
    }
  }

  lemma {:induction false} OpenBelow(t: Tree, p: Path, k: nat, j: nat)
    requires j <= k <= |p| && Open(t, p, k)
    ensures Open(t, p, j)
  {
    if j < k {
      OpenBelow(t, p, k - 1, j);
    }
  }

  /** A write with no file in its way and no directory in its place. */
  lemma WriteArrives(u: Tree, p: Path, w: Write)
    requires WellFormed(u) && |p| > 1 && Open(u, p, |p|) && !IsDir(u, p) && w.wrote && w.levels >= |p| - 1
    ensures var v := WriteFile(u, p, w); p in v && v[p] == File(w.content)
  {
    var k := |p| - 1;
    MakeDirsExact(u, p, k);
    MakeDirsAdds(u, p, k);
    assert Parent(p) == p[..k];
    OpenBelow(u, p, |p|, k);
    assert p in MakeDirs(u, p, k) ==> p in u;
  }

  lemma NoDirInPlace(t: Tree, work: Path, ws: seq<Write>, i: nat)
    requires WellFormed(t) && Fresh(t, work) && Relative(ws)
    requires i < |ws| && forall k :: 0 <= k < i ==> Aside(ws, i, k)
    ensures work + ws[i].rel !in Copy(t, work, ws[..i])
  {
    var u, p := Copy(t, work, ws[..i]), work + ws[i].rel;
    CopyMakes(t, work, ws[..i]);
    assert work <= p && p !in t;
    if p in u {
      MadeAside(work, ws, i, p, u[p]);
    }
  }

  /** What the copy holds: with no file in the way of the work directory, a file is there, with
      its content, exactly if its own write succeeded, whatever became of the others. */
  lemma {:induction false} CopyHolds(t: Tree, work: Path, ws: seq<Write>, n: nat, i: nat)
    requires WellFormed(t) && work != [] && Fresh(t, work) && Relative(ws) && Open(t, work, |work|)
    requires i < n <= |ws| && forall k :: 0 <= k < |ws| && k != i ==> Aside(ws, i, k)
    requires ws[i].wrote ==> ws[i].levels >= |work + ws[i].rel| - 1
    ensures var u, p := Copy(t, work, ws[..n]), work + ws[i].rel;
      (p in u <==> ws[i].wrote) && (p in u ==> u[p] == File(ws[i].content))
  {
    var u, p := Copy(t, work, ws[..n - 1]), work + ws[i].rel;
    assert ws[..n][..n - 1] == ws[..n - 1] && ws[..n][n - 1] == ws[n - 1];
    CopyMakes(t, work, ws[..n - 1]);
    if i == n - 1 {
      NoDirInPlace(t, work, ws, i);
      if ws[i].wrote {
        WayIsOpen(t, work, ws, i, |p|);
        WriteArrives(u, p, ws[i]);
      } else if p in WriteFile(u, p, ws[i]) {
        WritesIfWrote(u, p, ws[i]);
      }
    } else {
      CopyHolds(t, work, ws, n - 1, i);
      assert Aside(ws, i, n - 1);
      WriteAside(u, work, ws[n - 1], p, ws[i].rel);
    }
  }

  /** A write aside of a path does not touch it. */
  lemma WriteAside(u: Tree, work: Path, w: Write, p: Path, rel: Path)
    requires WellFormed(u) && w.rel != [] && p == work + rel && !(rel <= w.rel)
    ensures var v := WriteFile(u, work + w.rel, w); (p in v <==> p in u) && (p in v ==> v[p] == u[p])
  {
    var q := work + w.rel;
    WriteAdds(u, q, w);
    PrefixBelow(work, rel, w.rel);
  }

  /** No target lies in another, and no file is in the way of the new work directory. */
  ghost predicate Apart(t: Tree, work: Path, ws: seq<Write>) {
    Open(t, work, |work|) && forall i, k :: 0 <= i < |ws| && 0 <= k < |ws| && i != k ==> Aside(ws, i, k)
  }

  /** Each file is in u with its content exactly if its write succeeded. */
  ghost predicate Holds(u: Tree, work: Path, ws: seq<Write>) {
    forall i :: 0 <= i < |ws| ==>
      && (work + ws[i].rel in u <==> ws[i].wrote)
      && (ws[i].wrote ==> u[work + ws[i].rel] == File(ws[i].content))
  }

  /** A write that succeeds has made all levels. */
  ghost predicate Thorough(work: Path, ws: seq<Write>) {
    forall i :: 0 <= i < |ws| && ws[i].wrote ==> ws[i].levels >= |work + ws[i].rel| - 1
  }

  ghost predicate CanHold(t: Tree, work: Path, ws: seq<Write>) {
    WellFormed(t) && work != [] && Fresh(t, work) && Apart(t, work, ws) && Thorough(work, ws)
  }

  lemma CopyHoldsAll(t: Tree, work: Path, ws: seq<Write>)
    requires Relative(ws) && CanHold(t, work, ws)
    ensures Holds(Copy(t, work, ws), work, ws)
  {
    assert ws[..|ws|] == ws;
    forall i | 0 <= i < |ws| ensures var u, p := Copy(t, work, ws), work + ws[i].rel;
      (p in u <==> ws[i].wrote) && (p in u ==> u[p] == File(ws[i].content))
    {
      CopyHolds(t, work, ws, |ws|, i);
    }
  }

  // ---- on the disk ----

  class FileTree {
    var nodes: Tree

    method Write(p: Path, w: Write)
      requires p != []
      modifies this
      ensures nodes == WriteFile(old(nodes), p, w)
    {
      var made, upto := 0, if w.levels < |p| then w.levels else |p| - 1;
      while made < upto
        invariant 0 <= made <= upto && nodes == MakeDirs(old(nodes), p, made)
      {
        made := made + 1;
        var d := p[..made];
        if d !in nodes && IsDir(nodes, d[..made - 1]) {
          nodes := nodes[d := Dir];
        }
      }
      if w.wrote && IsDir(nodes, Parent(p)) && !IsDir(nodes, p) {
        nodes := nodes[p := File(w.content)];
      }
    }

    method Delete(p: Path)
      modifies this
      ensures nodes == DeleteFile(old(nodes), p)
    {
      if !HasChild(nodes, p) {
        nodes := nodes - {p};
      }
    }

    /** composeCheckCopy: the writes up to and including the last one it tried. */
    method CopyStack(work: Path, ws: seq<Write>)
      requires Relative(ws)
      modifies this
      ensures nodes == Copy(old(nodes), work, ws)
      ensures CanHold(old(nodes), work, ws) ==> Holds(nodes, work, ws)
    {
      var i := 0;
      while i < |ws|
        invariant 0 <= i <= |ws| && nodes == Copy(old(nodes), work, ws[..i])
      {
        assert ws[i] in ws;
        assert ws[..i + 1][..i] == ws[..i];
        Write(work + ws[i].rel, ws[i]);
        i := i + 1;
      }
      assert ws[..|ws|] == ws;
      if CanHold(old(nodes), work, ws) {
        CopyHoldsAll(old(nodes), work, ws);
      }
    }

    method DeleteEach(ps: seq<Path>)
      modifies this
      ensures nodes == DeleteAll(old(nodes), ps)
    {
      var i := 0;
      while i < |ps|
        invariant 0 <= i <= |ps| && DeleteAll(nodes, ps[i..]) == DeleteAll(old(nodes), ps)
      {
        Delete(ps[i]);
        assert ps[i..][1..] == ps[i + 1..];
        i := i + 1;
      }
    }

    /** composeCheckCleanup. */
    method CleanUp(dir: Path, work: Path, ws: seq<Write>) returns (ghost dirs: seq<Path>)
      modifies this
      ensures DeepestFirst(work, ws, dirs)
      ensures nodes == Cleanup(old(nodes), dir, work, ws, dirs)
    {
      DeleteEach(Targets(work, ws));
      var between := Between(work, ws);
      var list := SortDeepest(between);
      dirs := list;
      DeleteEach(list);
      Delete(work);
      Delete(dir);
    }

    /** A dry run leaves no trace but for directories above composeCheckDir that were missing,
        however far its copy came; seen is the tree on which the check runs. */
    method DryRun(dir: Path, work: Path, ws: seq<Write>) returns (ghost seen: Tree)
      requires WellFormed(nodes) && dir != []
      requires work != [] && work == dir + [work[|work| - 1]] && Fresh(nodes, work) && Relative(ws)
      modifies this
      ensures Apart(old(nodes), work, ws) && Thorough(work, ws) ==> Holds(seen, work, ws)
      ensures nodes == DeleteFile(old(nodes), dir) + MadeAbove(old(nodes), dir, ws)
      ensures IsDir(old(nodes), Parent(dir)) ==> nodes == DeleteFile(old(nodes), dir)
    {
      CopyStack(work, ws);
      seen := nodes;
      ghost var dirs := CleanUp(dir, work, ws);
      CleanupRestores(old(nodes), dir, work, ws, dirs);
      CleanupRestoresIff(old(nodes), dir, work, ws, dirs);
    }
  }

  /** The map dirs of composeCheckCleanup: path.Dir of each file, up to work. */
  method Between(work: Path, ws: seq<Write>) returns (dirs: set<Path>)
    ensures forall d :: d in dirs <==> IsBetween(work, ws, d)
  {
    dirs := {};
    var i := 0;
    while i < |ws|
      invariant 0 <= i <= |ws| && forall d :: d in dirs <==> IsBetween(work, ws[..i], d)
    {
      var rel := ws[i].rel;
      var k := |rel|;
      ghost var before := dirs;
      while k > 1
        invariant 0 <= k <= |rel| && (k == 0 ==> rel == [])
        invariant forall d :: d in dirs <==> d in before || OnTheWay(work, rel, k, d)
      {
        k := k - 1;
        dirs := dirs + {work + rel[..k]};
      }
      i := i + 1;
    }
    assert ws[..|ws|] == ws;
  }

  ghost predicate OnTheWay(work: Path, rel: Path, k: nat, d: Path) {
    exists j :: k <= j < |rel| && d == work + rel[..j]
  }

  method SortDeepest(dirs: set<Path>) returns (list: seq<Path>)
    ensures forall d :: d in list <==> d in dirs
    ensures forall i, j :: 0 <= i < j < |list| ==> |list[i]| >= |list[j]|
  {
    list := [];
    var rest := dirs;
    while rest != {}
      invariant rest <= dirs
      invariant forall d :: d in list <==> d in dirs && d !in rest
      invariant forall i, j :: 0 <= i < j < |list| ==> |list[i]| >= |list[j]|
      decreases |rest|
    {
      var d :| d in rest;
      var i := 0;
      while i < |list| && |list[i]| >= |d|
        invariant 0 <= i <= |list| && forall j :: 0 <= j < i ==> |list[j]| >= |d|
      {
        i := i + 1;
      }
      ghost var before := list;
      list := list[..i] + [d] + list[i..];
      forall q ensures q in list <==> q in before || q == d {
        assert before == before[..i] + before[i..];
      }
      rest := rest - {d};
    }
  }
}
