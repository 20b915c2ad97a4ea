/** Uploads with history and their rollback
    (internal/api/handlers_files_upload.go:155-198, 306-367). A file is its
    content; a hash, being injective, is the content hashed. */
module Uploads {
  import opened Disks
  import opened Sequences
  import opened Text
  import opened Wrappers

  /** file_upload_items: version 0 means no history; after is the uploaded content. */
  datatype Item = Item(path: string, existed: bool, version: nat, after: string)

  /** sensitive tells the paths whose versions VersionFile refuses to give. */
  datatype State = State(disk: Disk, versions: map<nat, string>, items: seq<Item>, used: nat, open: bool,
                         sensitive: string -> bool)

  const MAX_EDIT_BYTES := 2 * 1024 * 1024

  /** How a write by an external command ended: a failed one may leave anything. */
  datatype Outcome = Wrote | Failed(left: Option<string>)

  /** One file of an upload. readable: Open succeeds, if there is a file. isProtected: a protect
      pattern matches it. snapshot: the version RecordFileSnapshot gives, 0 when it fails.
      logged: AddUploadItem succeeds. */
  datatype Call = Call(path: string, body: string, force: bool, readable: bool, isProtected: bool, snapshot: nat,
                       outcome: Outcome, logged: bool)

  /** A file that cannot be opened is taken for a new one. */
  predicate Seen(s: State, c: Call) { c.path in s.disk && c.readable }

  predicate Refused(s: State, c: Call) {
    !s.open || (Seen(s, c) && !c.force && c.isProtected)
  }

  /** Small files always go into the history, large ones while the budget lasts. */
  predicate Affordable(s: State, c: Call, limit: nat) {
    Seen(s, c) && (|s.disk[c.path]| <= MAX_EDIT_BYTES || s.used + |s.disk[c.path]| <= limit)
  }

  function Version(s: State, c: Call, limit: nat): nat { if Affordable(s, c, limit) then c.snapshot else 0 }

  /** uploadWithHistory. */
  function Put(s: State, c: Call, limit: nat): State {
    if Refused(s, c) then s
    else
      var version := Version(s, c, limit);
      var versions := if version > 0 then s.versions[version := s.disk[c.path]] else s.versions;
      var large := Affordable(s, c, limit) && |s.disk[c.path]| > MAX_EDIT_BYTES;
      var used := if large then s.used + |s.disk[c.path]| else s.used;
      match c.outcome
      case Failed(left) => s.(disk := Left(s.disk, c.path, left), versions := versions, used := used)
      case Wrote =>
        var item := Item(c.path, Seen(s, c), version, c.body);
        s.(disk := s.disk[c.path := c.body], versions := versions, used := used,
           items := if c.logged then s.items + [item] else s.items)
  }

  function PutAll(s: State, cs: seq<Call>, limit: nat): State {
    if cs == [] then s else Put(PutAll(s, cs[..|cs| - 1], limit), cs[|cs| - 1], limit)
  }

  /** The end of an upload, and all pruning of the history until its rollback: the versions
      go, and items that had them have none. */
  function Finish(s: State, pruned: set<nat>): State {
    s.(versions := s.versions - pruned, items := AgedAll(s.items, pruned), open := false)
  }

  function Aged(it: Item, pruned: set<nat>): Item { if it.version in pruned then it.(version := 0) else it }

  function AgedAll(items: seq<Item>, pruned: set<nat>): (r: seq<Item>)
    ensures |r| == |items|
  {
    seq(|items|, i requires 0 <= i < |items| => Aged(items[i], pruned))
  }

  /** Whether the rollback can hash a file that is there, and how its command ends, if it
      runs one. */
  datatype Attempt = Attempt(hashed: bool, command: Outcome)

  const DONE := Attempt(true, Wrote)

  /** One item of UploadRollbackRunner.Run: a file that cannot be hashed is taken for gone, and
      nothing happens without a version that VersionFile gives. */
  function Undo(s: State, it: Item, attempt: Attempt): State {
    var cur, outcome := if attempt.hashed then Look(s.disk, it.path) else None, attempt.command;
    if !it.existed then
      if cur.None? || cur.value != it.after then s
      else s.(disk := Left(s.disk, it.path, if outcome.Wrote? then None else outcome.left))
    else if it.version == 0 then s
    else if cur.Some? && cur.value != it.after then s
    else if it.version !in s.versions || s.sensitive(it.path) then s
    else s.(disk := Left(s.disk, it.path, if outcome.Failed? then outcome.left else Some(s.versions[it.version])))
  }

  /** The rollback takes the items in the order it is given them. */
  function UndoAll(s: State, items: seq<Item>, attempts: seq<Attempt>): State
    requires |attempts| == |items|
    decreases |items|
  {
    if items == [] then s
    else UndoAll(Undo(s, items[0], attempts[0]), items[1..], attempts[1..])
  }

  function AllDone(n: nat): seq<Attempt> { seq(n, _ => DONE) }

  /** A snapshot never replaces another content: the store gives a new version or one
      with the same content. */
  predicate HonestStore(s: State, c: Call, limit: nat) {
    var v := Version(s, c, limit);
    v > 0 ==> v !in s.versions || s.versions[v] == s.disk[c.path]
  }

  ghost predicate Honest(s: State, cs: seq<Call>, limit: nat) {
    forall i :: 0 <= i < |cs| ==> HonestStore(PutAll(s, cs[..i], limit), cs[i], limit)
  }

  ghost predicate DistinctPaths(items: seq<Item>) {
    forall i, j :: 0 <= i < j < |items| ==> items[i].path != items[j].path
  }

  // ---- what an upload writes ----

  /** An upload goes through unless it is finished or the file, being readable, is protected and
      not forced; it then holds what was sent, and no other file changes. */
  lemma UploadWrites(s: State, c: Call, limit: nat, path: string)
    requires c.outcome.Wrote?
    ensures var d := Put(s, c, limit).disk;
      && (s.open && (c.force || !c.isProtected || !c.readable || c.path !in s.disk) ==> Look(d, c.path) == Some(c.body))
      && (!s.open || (c.path in s.disk && c.readable && c.isProtected && !c.force) ==> d == s.disk)
      && (path != c.path ==> Look(d, path) == Look(s.disk, path))
  {}

  /** The history keeps what a file held before a write: up to 2 MiB always, more while it fits
      the budget, which it then takes; and the item tells by which version. */
  lemma HistoryKept(s: State, c: Call, limit: nat)
    requires s.open && c.path in s.disk && c.readable && (c.force || !c.isProtected)
    ensures var t, old_, large := Put(s, c, limit), s.disk[c.path], |s.disk[c.path]| > 2 * 1024 * 1024;
      var kept := !large || s.used + |old_| <= limit;
      && (kept && c.snapshot > 0 ==> c.snapshot in t.versions && t.versions[c.snapshot] == old_)
      && t.used == s.used + (if large && kept then |old_| else 0)
      && (c.outcome.Wrote? && c.logged ==>
        t.items == s.items + [Item(c.path, true, if kept then c.snapshot else 0, c.body)])
  {}

  /** A new file has no version, and takes nothing of the budget. */
  lemma NewHasNoVersion(s: State, c: Call, limit: nat)
    requires s.open && !(c.path in s.disk && c.readable)
    ensures var t := Put(s, c, limit);
      && t.versions == s.versions && t.used == s.used
      && (c.outcome.Wrote? && c.logged ==> t.items == s.items + [Item(c.path, false, 0, c.body)])
  {}

  /** No upload takes more than the budget. */
  lemma {:induction false} BudgetHolds(s: State, cs: seq<Call>, limit: nat)
    requires s.used <= limit
    ensures s.used <= PutAll(s, cs, limit).used <= limit
  {
    if cs != [] {
      BudgetHolds(s, cs[..|cs| - 1], limit);
    }
  }

  /** Once an upload is finished nothing is uploaded to it. */
  lemma {:induction false} FinishedTakesNothing(s: State, pruned: set<nat>, cs: seq<Call>, limit: nat)
    ensures PutAll(Finish(s, pruned), cs, limit) == Finish(s, pruned)
  {
    if cs != [] {
      FinishedTakesNothing(s, pruned, cs[..|cs| - 1], limit);
    }
  }

  /** No item names a pruned version, and nothing else about the items changes. */
  lemma PrunedItems(s: State, pruned: set<nat>, i: nat)
    requires i < |s.items|
    ensures var t := Finish(s, pruned); var it := t.items[i];
      && |t.items| == |s.items| && t.disk == s.disk && (it.version in t.versions ==> it.version !in pruned)
      && it.path == s.items[i].path && it.existed == s.items[i].existed && it.after == s.items[i].after
      && it.version == if s.items[i].version in pruned then 0 else s.items[i].version
  {}

  /** A protected file that no call forces stays as it is, whatever else is uploaded. */
  lemma {:induction false} ProtectedStays(s: State, cs: seq<Call>, limit: nat, path: string)
    requires path in s.disk
    requires forall i :: 0 <= i < |cs| && cs[i].path == path ==> cs[i].readable && cs[i].isProtected && !cs[i].force
    ensures Look(PutAll(s, cs, limit).disk, path) == Some(s.disk[path])
  {
    if cs != [] {
      ProtectedStays(s, cs[..|cs| - 1], limit, path);
    }
  }

  // ---- no file that changed since is touched ----

  lemma {:induction false} ChangedFileStays(s: State, items: seq<Item>, attempts: seq<Attempt>, path: string)
    requires |attempts| == |items| && path in s.disk
    requires forall i :: 0 <= i < |items| && items[i].path == path ==> items[i].after != s.disk[path]
    requires forall i :: 0 <= i < |items| && items[i].path == path && items[i].existed && items[i].version > 0 ==>
      attempts[i].hashed
    ensures Look(UndoAll(s, items, attempts).disk, path) == Some(s.disk[path])
    decreases |items|
  {
    if items != [] {
      ChangedFileStays(Undo(s, items[0], attempts[0]), items[1..], attempts[1..], path);
    }
  }

  /** Nor is any file the upload did not write. */
  lemma {:induction false} OtherFileStays(s: State, items: seq<Item>, attempts: seq<Attempt>, path: string)
    requires |attempts| == |items| && forall i :: 0 <= i < |items| ==> items[i].path != path
    ensures Look(UndoAll(s, items, attempts).disk, path) == Look(s.disk, path)
    decreases |items|
  {
    if items != [] {
      OtherFileStays(Undo(s, items[0], attempts[0]), items[1..], attempts[1..], path);
    }
  }

  /** But a changed file that the rollback cannot hash is overwritten, if it was there
      before the upload. */
  lemma UnhashedOverwritten(s: State, it: Item)
    requires it.path in s.disk && it.existed && it.version > 0 && it.version in s.versions && !s.sensitive(it.path)
    ensures Undo(s, it, Attempt(false, Wrote)).disk == s.disk[it.path := s.versions[it.version]]
  {}

  /** What becomes of a path depends only on its own items, in their order. */
  lemma {:induction false} OnlyOwnItems(s: State, t: State, items: seq<Item>, path: string)
    requires Look(s.disk, path) == Look(t.disk, path) && SameHistory(s, t)
    ensures Look(Undone(s, items).disk, path) == Look(Undone(t, ItemsAt(items, path)).disk, path)
    decreases |items|
  {
    if items != [] {
      var first, rest := items[0], items[1..];
      var own := ItemsAt(rest, path);
      assert items == [first] + rest;
      UndoFirst(s, first, rest);
      if first.path == path {
        UndoFirst(t, first, own);
        UndoneAlike(s, t, first);
        OnlyOwnItems(Undo(s, first, DONE), Undo(t, first, DONE), rest, path);
      } else {
        OnlyOwnItems(Undo(s, first, DONE), t, rest, path);
      }
    }
  }

  ghost predicate SameHistory(s: State, t: State) { s.versions == t.versions && s.sensitive == t.sensitive }

  function Undone(s: State, items: seq<Item>): State { UndoAll(s, items, AllDone(|items|)) }

  lemma UndoneAlike(s: State, t: State, it: Item)
    requires Look(s.disk, it.path) == Look(t.disk, it.path) && SameHistory(s, t)
    ensures var u, v := Undo(s, it, DONE), Undo(t, it, DONE);
      Look(u.disk, it.path) == Look(v.disk, it.path) && SameHistory(u, v)
  {}

  function ItemsAt(items: seq<Item>, path: string): seq<Item> {
    if items == [] then []
    else if items[0].path == path then [items[0]] + ItemsAt(items[1..], path)
    else ItemsAt(items[1..], path)
  }

  lemma {:induction false} UndoKeepsVersions(s: State, items: seq<Item>, attempts: seq<Attempt>)
    requires |attempts| == |items|
    ensures SameHistory(UndoAll(s, items, attempts), s)
    decreases |items|
  {
    if items != [] {
      UndoKeepsVersions(Undo(s, items[0], attempts[0]), items[1..], attempts[1..]);
    }
  }

  lemma UndoElsewhere(s: State, it: Item, attempt: Attempt, other: Item, next: Attempt)
    requires it.path != other.path
    ensures Look(Undo(Undo(s, it, attempt), other, next).disk, other.path) ==
      Look(Undo(s, other, next).disk, other.path)
  {
    assert Look(Undo(s, it, attempt).disk, other.path) == Look(s.disk, other.path);
  }

  /** With distinct paths each item is undone on its own, whatever the order. */
  lemma {:induction false} UndoneAlone(s: State, items: seq<Item>, attempts: seq<Attempt>, i: nat)
    requires |attempts| == |items| && DistinctPaths(items) && i < |items|
    ensures Look(UndoAll(s, items, attempts).disk, items[i].path) ==
      Look(Undo(s, items[i], attempts[i]).disk, items[i].path)
    decreases |items|
  {
    var first, rest, next := items[0], items[1..], attempts[1..];
    var t := Undo(s, first, attempts[0]);
    if i == 0 {
      OtherFileStays(t, rest, next, first.path);
    } else {
      UndoneAlone(t, rest, next, i - 1);
      assert rest[i - 1] == items[i] && next[i - 1] == attempts[i];
      UndoElsewhere(s, first, attempts[0], items[i], attempts[i]);
    }
  }

  /** Undoing an item that was undone already changes nothing at its path. */
  lemma UndoneTwice(s: State, t: State, it: Item)
    requires SameHistory(t, s) && Look(t.disk, it.path) == Look(Undo(s, it, DONE).disk, it.path)
    ensures Look(Undo(t, it, DONE).disk, it.path) == Look(t.disk, it.path)
  {}

  lemma SecondRollbackIdleAt(s: State, t: State, items: seq<Item>, again: seq<Item>, path: string)
    requires DistinctPaths(items) && DistinctPaths(again) && (forall it :: it in items <==> it in again)
    requires t == UndoAll(s, items, AllDone(|items|))
    ensures Look(UndoAll(t, again, AllDone(|again|)).disk, path) == Look(t.disk, path)
  {
    UndoKeepsVersions(s, items, AllDone(|items|));
    if j :| 0 <= j < |again| && again[j].path == path {
      var it := again[j];
      assert it in items;
      var i :| 0 <= i < |items| && items[i] == it;
      UndoneAlone(s, items, AllDone(|items|), i);
      UndoneAlone(t, again, AllDone(|again|), j);
      UndoneTwice(s, t, it);
    } else {
      OtherFileStays(t, again, AllDone(|again|), path);
    }
  }

  /** A second rollback changes nothing. */
  lemma SecondRollbackIdle(s: State, items: seq<Item>, again: seq<Item>)
    requires DistinctPaths(items) && DistinctPaths(again) && multiset(items) == multiset(again)
    ensures var t := UndoAll(s, items, AllDone(|items|)); UndoAll(t, again, AllDone(|again|)).disk == t.disk
  {
    var t := UndoAll(s, items, AllDone(|items|));
    SameMembers(items, again);
    forall path ensures Look(UndoAll(t, again, AllDone(|again|)).disk, path) == Look(t.disk, path) {
      SecondRollbackIdleAt(s, t, items, again, path);
    }
    SameLooks(UndoAll(t, again, AllDone(|again|)).disk, t.disk);
  }

  // ---- what an upload leaves behind ----

  function ItemOf(s: State, c: Call, limit: nat): Option<Item> {
    if !Refused(s, c) && c.outcome.Wrote? && c.logged then
      Some(Item(c.path, Seen(s, c), Version(s, c, limit), c.body))
    else None
  }

  ghost predicate DistinctCalls(cs: seq<Call>) {
    forall i, j :: 0 <= i < j < |cs| ==> cs[i].path != cs[j].path
  }

  lemma PutOther(s: State, c: Call, limit: nat, path: string)
    requires c.path != path
    ensures Look(Put(s, c, limit).disk, path) == Look(s.disk, path)
  {}

  lemma {:induction false} PutElsewhere(s: State, cs: seq<Call>, limit: nat, path: string)
    requires forall i :: 0 <= i < |cs| ==> cs[i].path != path
    ensures Look(PutAll(s, cs, limit).disk, path) == Look(s.disk, path)
    decreases |cs|
  {
    if cs != [] {
      var n := |cs| - 1;
      PutElsewhere(s, cs[..n], limit, path);
      PutOther(PutAll(s, cs[..n], limit), cs[n], limit, path);
    }
  }

  /** The file of call i is as it was when call i comes, and as call i left it at the end. */
  lemma PutOnce(s: State, cs: seq<Call>, limit: nat, i: nat)
    requires DistinctCalls(cs) && i < |cs|
    ensures Look(PutAll(s, cs[..i], limit).disk, cs[i].path) == Look(s.disk, cs[i].path)
    ensures Look(PutAll(s, cs, limit).disk, cs[i].path) == Look(PutAll(s, cs[..i + 1], limit).disk, cs[i].path)
  {
    PutElsewhere(s, cs[..i], limit, cs[i].path);
    PutLater(s, cs, limit, i + 1, cs[i].path);
  }

  lemma {:induction false} PutLater(s: State, cs: seq<Call>, limit: nat, i: nat, path: string)
    requires i <= |cs| && forall j :: i <= j < |cs| ==> cs[j].path != path
    ensures Look(PutAll(s, cs, limit).disk, path) == Look(PutAll(s, cs[..i], limit).disk, path)
    decreases |cs|
  {
    if i == |cs| {
      assert cs[..i] == cs;
    } else {
      var n := |cs| - 1;
      PutLater(s, cs[..n], limit, i, path);
      assert cs[..n][..i] == cs[..i];
      PutOther(PutAll(s, cs[..n], limit), cs[n], limit, path);
    }
  }

  ghost predicate FromCall(s: State, cs: seq<Call>, limit: nat, it: Item, i: int) {
    0 <= i < |cs| && ItemOf(PutAll(s, cs[..i], limit), cs[i], limit) == Some(it)
  }

  lemma FromCallPrefix(s: State, cs: seq<Call>, limit: nat, n: nat, it: Item, i: nat)
    requires i < n <= |cs|
    ensures FromCall(s, cs[..n], limit, it, i) <==> FromCall(s, cs, limit, it, i)
  {
    assert cs[..n][..i] == cs[..i];
  }

  lemma ItemsNext(s: State, cs: seq<Call>, limit: nat)
    requires cs != []
    ensures var n := |cs| - 1; var before := PutAll(s, cs[..n], limit);
      PutAll(s, cs, limit).items
        == before.items + (match ItemOf(before, cs[n], limit) case None => [] case Some(it) => [it])
  {}

  /** The items are those of the calls that wrote and were logged. */
  lemma {:induction false} ItemsFromCalls(s: State, cs: seq<Call>, limit: nat)
    requires s.items == []
    ensures forall it <- PutAll(s, cs, limit).items :: exists i :: FromCall(s, cs, limit, it, i)
    decreases |cs|
  {
    if cs != [] {
      var n := |cs| - 1;
      ItemsFromCalls(s, cs[..n], limit);
      ItemsNext(s, cs, limit);
      forall it | it in PutAll(s, cs, limit).items ensures exists i :: FromCall(s, cs, limit, it, i) {
        if it in PutAll(s, cs[..n], limit).items {
          var i :| FromCall(s, cs[..n], limit, it, i);
          FromCallPrefix(s, cs, limit, n, it, i);
        } else {
          assert FromCall(s, cs, limit, it, n);
        }
      }
    }
  }

  lemma {:induction false} CallsHaveItems(s: State, cs: seq<Call>, limit: nat, it: Item, i: nat)
    requires FromCall(s, cs, limit, it, i)
    ensures it in PutAll(s, cs, limit).items
    decreases |cs|
  {
    var n := |cs| - 1;
    ItemsNext(s, cs, limit);
    if i < n {
      FromCallPrefix(s, cs, limit, n, it, i);
      CallsHaveItems(s, cs[..n], limit, it, i);
    }
  }

  lemma {:induction false} ItemsDistinct(s: State, cs: seq<Call>, limit: nat)
    requires s.items == [] && DistinctCalls(cs)
    ensures DistinctPaths(PutAll(s, cs, limit).items)
    decreases |cs|
  {
    if cs != [] {
      var n := |cs| - 1;
      var before := PutAll(s, cs[..n], limit);
      ItemsDistinct(s, cs[..n], limit);
      ItemsFromCalls(s, cs[..n], limit);
      ItemsNext(s, cs, limit);
      forall k | 0 <= k < |before.items| ensures before.items[k].path != cs[n].path {
        assert before.items[k] in before.items;
        var i :| FromCall(s, cs[..n], limit, before.items[k], i);
      }
    }
  }

  /** Each with its own path. */
  lemma ItemsOfCalls(s: State, cs: seq<Call>, limit: nat)
    requires s.items == [] && DistinctCalls(cs)
    ensures var items := PutAll(s, cs, limit).items;
      && DistinctPaths(items)
      && (forall it <- items :: exists i :: FromCall(s, cs, limit, it, i))
      && (forall it, i :: FromCall(s, cs, limit, it, i) ==> it in items)
  {
    ItemsDistinct(s, cs, limit);
    ItemsFromCalls(s, cs, limit);
    forall it, i | FromCall(s, cs, limit, it, i) ensures it in PutAll(s, cs, limit).items {
      CallsHaveItems(s, cs, limit, it, i);
    }
  }

  lemma HonestPrefix(s: State, cs: seq<Call>, limit: nat)
    requires Honest(s, cs, limit) && cs != []
    ensures Honest(s, cs[..|cs| - 1], limit)
  {
    forall i | 0 <= i < |cs| - 1 ensures cs[..|cs| - 1][..i] == cs[..i] {}
  }

  /** A version keeps its content. */
  lemma {:induction false} VersionStays(s: State, cs: seq<Call>, limit: nat, i: nat, v: nat)
    requires Honest(s, cs, limit) && i <= |cs| && v in PutAll(s, cs[..i], limit).versions
    ensures v in PutAll(s, cs, limit).versions &&
      PutAll(s, cs, limit).versions[v] == PutAll(s, cs[..i], limit).versions[v]
    decreases |cs|
  {
    var n := |cs| - 1;
    if i <= n {
      HonestPrefix(s, cs, limit);
      assert cs[..n][..i] == cs[..i];
      VersionStays(s, cs[..n], limit, i, v);
      assert HonestStore(PutAll(s, cs[..n], limit), cs[n], limit);
      PutKeepsVersion(PutAll(s, cs[..n], limit), cs[n], limit, v);
    } else {
      assert cs[..i] == cs;
    }
  }

  lemma PutKeepsVersion(s: State, c: Call, limit: nat, v: nat)
    requires HonestStore(s, c, limit) && v in s.versions
    ensures v in Put(s, c, limit).versions && Put(s, c, limit).versions[v] == s.versions[v]
  {}

  /** The upload of one file can be taken back: it did not happen, or it was logged with the
      history it needs, which lasted and is given out, or it changed nothing. */
  predicate Recoverable(s: State, c: Call, limit: nat, pruned: set<nat>) {
    || Refused(s, c)
    || match c.outcome
       case Failed(left) => left == Look(s.disk, c.path)
       case Wrote =>
         if c.logged && !Seen(s, c) then c.path !in s.disk
         else (c.logged && HistoryLasts(s, c, limit, pruned)) || Look(s.disk, c.path) == Some(c.body)
  }

  predicate HistoryLasts(s: State, c: Call, limit: nat, pruned: set<nat>) {
    var v := Version(s, c, limit);
    v > 0 && v !in pruned && !s.sensitive(c.path)
  }

  /** The item of a call, as it is when the upload has been finished. */
  function Finished(s: State, c: Call, limit: nat, pruned: set<nat>): Option<Item> {
    match ItemOf(s, c, limit)
    case None => None
    case Some(it) => Some(Aged(it, pruned))
  }

  ghost predicate OfCall(s: State, cs: seq<Call>, limit: nat, pruned: set<nat>, it: Item, i: int) {
    0 <= i < |cs| && Finished(PutAll(s, cs[..i], limit), cs[i], limit, pruned) == Some(it)
  }

  lemma FinishedItems(s: State, cs: seq<Call>, limit: nat, pruned: set<nat>)
    requires s.items == [] && DistinctCalls(cs)
    ensures var items := Finish(PutAll(s, cs, limit), pruned).items;
      && DistinctPaths(items)
      && (forall it <- items :: exists i :: OfCall(s, cs, limit, pruned, it, i))
      && (forall it, i :: OfCall(s, cs, limit, pruned, it, i) ==> it in items)
  {
    ItemsOfCalls(s, cs, limit);
    var items := PutAll(s, cs, limit).items;
    var aged := AgedAll(items, pruned);
    forall it | it in aged ensures exists i :: OfCall(s, cs, limit, pruned, it, i) {
      var k :| 0 <= k < |aged| && aged[k] == it;
      assert items[k] in items;
      var i :| FromCall(s, cs, limit, items[k], i);
      assert OfCall(s, cs, limit, pruned, it, i);
    }
    forall it, i | OfCall(s, cs, limit, pruned, it, i) ensures it in aged {
      var first := ItemOf(PutAll(s, cs[..i], limit), cs[i], limit).value;
      assert FromCall(s, cs, limit, first, i);
      var k :| 0 <= k < |items| && items[k] == first;
      assert aged[k] == it;
    }
  }

  /** The versions there are, but for the pruned ones. */
  ghost predicate Lasted(versions: map<nat, string>, now: map<nat, string>, pruned: set<nat>) {
    forall v <- versions :: if v in pruned then v !in now else v in now && now[v] == versions[v]
  }

  lemma ItemUndone(before: State, c: Call, limit: nat, pruned: set<nat>, next: State, after: State)
    requires ItemOf(before, c, limit).Some? && next == Put(before, c, limit)
    requires Look(after.disk, c.path) == Look(next.disk, c.path)
    requires Lasted(next.versions, after.versions, pruned) && after.sensitive == before.sensitive
    ensures var it := Finished(before, c, limit, pruned).value;
      Look(Undo(after, it, DONE).disk, c.path) == Look(before.disk, c.path) <==> Recoverable(before, c, limit, pruned)
  {
    assert Look(next.disk, c.path) == Some(c.body);
  }

  /** A file that was there and could not be opened is deleted by the rollback. */
  lemma HiddenIsDeleted(before: State, c: Call, limit: nat)
    requires !Refused(before, c) && c.outcome.Wrote? && c.logged && c.path in before.disk && !c.readable
    ensures var it := ItemOf(before, c, limit).value; c.path !in Undo(Put(before, c, limit), it, DONE).disk
  {}

  /** isSensitiveFile: private keys, by their base name. */
  predicate IsSensitive(path: string) {
    var b := LastField(path, '/');
    || IsHostKey(b) || b in {"id_rsa", "id_dsa", "id_ecdsa", "id_ed25519"}
    || (|b| >= 4 && b[|b| - 4..] in {".key", ".pem"} && '\n' !in b)
  }

  predicate IsHostKey(b: string) {
    && |b| > 13 && "ssh_host_" <= b && b[|b| - 4..] == "_key"
    && forall i :: 9 <= i < |b| - 4 ==> 'a' <= b[i] <= 'z' || IsDigit(b[i])
  }

  predicate SmallOrDigit(c: char) { 'a' <= c <= 'z' || '0' <= c <= '9' }

  /** b is a word of small letters and digits between head and tail. */
  ghost predicate Between(head: string, b: string, tail: string) {
    exists x :: b == head + x + tail && x != "" && forall c <- x :: SmallOrDigit(c)
  }

  /** Host keys of sshd. */
  lemma HostKeyIff(b: string, head: string, tail: string)
    requires head == "ssh_host_" && tail == "_key"
    ensures IsHostKey(b) <==> Between(head, b, tail)
  {
    if IsHostKey(b) {
      var x := b[9..|b| - 4];
      assert b == head + x + tail;
      assert forall i :: 0 <= i < |x| ==> x[i] == b[9 + i] && SmallOrDigit(x[i]);
    }
    if x :| b == head + x + tail && x != "" && forall c <- x :: SmallOrDigit(c) {
      forall i | 9 <= i < |b| - 4 ensures SmallOrDigit(b[i]) {
        assert b[i] == x[i - 9] && x[i - 9] in x;
      }
      assert b[|b| - 4..] == tail;
    }
  }

  /** Every name that ends in .pem or .key, and the names that ssh-keygen gives. */
  lemma KeysAreSensitive(dir: string, name: string)
    requires '/' !in name && '\n' !in name
    ensures IsSensitive(dir + "/" + (name + ".pem")) && IsSensitive(dir + "/" + (name + ".key"))
    ensures name in {"id_rsa", "id_dsa", "id_ecdsa", "id_ed25519"} || Between("ssh_host_", name, "_key") ==>
      IsSensitive(dir + "/" + name)
  {
    LastFieldOf(dir, name + ".pem", '/');
    LastFieldOf(dir, name + ".key", '/');
    LastFieldOf(dir, name, '/');
    HostKeyIff(name, "ssh_host_", "_key");
  }

  /** What was written over a private key stays: its history is kept, but not given out. */
  lemma SensitiveStays(before: State, c: Call, limit: nat, pruned: set<nat>)
    requires ItemOf(before, c, limit).Some? && Seen(before, c) && before.sensitive(c.path)
    ensures var it := Finished(before, c, limit, pruned).value;
      Look(Undo(Finish(Put(before, c, limit), pruned), it, DONE).disk, c.path) == Some(c.body)
  {}

  /** So does what was written over a file whose version the end of the upload prunes. */
  lemma PrunedStays(before: State, c: Call, limit: nat, pruned: set<nat>)
    requires ItemOf(before, c, limit).Some? && Seen(before, c) && Version(before, c, limit) in pruned
    ensures var it := Finished(before, c, limit, pruned).value;
      Look(Undo(Finish(Put(before, c, limit), pruned), it, DONE).disk, c.path) == Some(c.body)
  {}

  lemma SameMembers(items: seq<Item>, order: seq<Item>)
    requires multiset(items) == multiset(order)
    ensures forall it :: it in items <==> it in order
  {
    forall it ensures it in items <==> it in order {
      assert it in items <==> it in multiset(items);
      assert it in order <==> it in multiset(order);
    }
  }

  /** One logged file, among the others. */
  lemma LoggedUndone(before: State, c: Call, limit: nat, pruned: set<nat>, next: State, after: State, order: seq<Item>)
    requires ItemOf(before, c, limit).Some? && next == Put(before, c, limit)
    requires Look(after.disk, c.path) == Look(next.disk, c.path)
    requires Lasted(next.versions, after.versions, pruned) && after.sensitive == before.sensitive
    requires DistinctPaths(order) && Finished(before, c, limit, pruned).value in order
    ensures Look(Undone(after, order).disk, c.path) == Look(before.disk, c.path) <==>
      Recoverable(before, c, limit, pruned)
  {
    var it := Finished(before, c, limit, pruned).value;
    var k :| 0 <= k < |order| && order[k] == it;
    UndoneAlone(after, order, AllDone(|order|), k);
    ItemUndone(before, c, limit, pruned, next, after);
  }

  lemma UnloggedStays(before: State, c: Call, limit: nat, pruned: set<nat>, next: State, after: State, order: seq<Item>)
    requires ItemOf(before, c, limit).None? && next == Put(before, c, limit)
    requires Look(after.disk, c.path) == Look(next.disk, c.path)
    requires forall k :: 0 <= k < |order| ==> order[k].path != c.path
    ensures Look(Undone(after, order).disk, c.path) == Look(before.disk, c.path) <==>
      Recoverable(before, c, limit, pruned)
  {
    OtherFileStays(after, order, AllDone(|order|), c.path);
  }

  lemma {:induction false} SensitiveIsFixed(s: State, cs: seq<Call>, limit: nat)
    ensures PutAll(s, cs, limit).sensitive == s.sensitive
  {
    if cs != [] {
      SensitiveIsFixed(s, cs[..|cs| - 1], limit);
    }
  }

  lemma VersionsLast(s: State, cs: seq<Call>, limit: nat, pruned: set<nat>, i: nat)
    requires Honest(s, cs, limit) && i <= |cs|
    ensures Lasted(PutAll(s, cs[..i], limit).versions, Finish(PutAll(s, cs, limit), pruned).versions, pruned)
  {
    forall v | v in PutAll(s, cs[..i], limit).versions
      ensures v in PutAll(s, cs, limit).versions &&
        PutAll(s, cs, limit).versions[v] == PutAll(s, cs[..i], limit).versions[v]
    {
      VersionStays(s, cs, limit, i, v);
    }
  }

  lemma CallUndone(s: State, cs: seq<Call>, limit: nat, pruned: set<nat>, order: seq<Item>, i: nat)
    requires s.items == [] && DistinctCalls(cs) && Honest(s, cs, limit) && i < |cs|
    requires multiset(order) == multiset(Finish(PutAll(s, cs, limit), pruned).items) && DistinctPaths(order)
    ensures Look(Undone(Finish(PutAll(s, cs, limit), pruned), order).disk, cs[i].path) == Look(s.disk, cs[i].path) <==>
      Recoverable(PutAll(s, cs[..i], limit), cs[i], limit, pruned)
  {
    var before, next, c := PutAll(s, cs[..i], limit), PutAll(s, cs[..i + 1], limit), cs[i];
    var after := Finish(PutAll(s, cs, limit), pruned);
    assert next == Put(before, c, limit) by {
      assert cs[..i + 1][..i] == cs[..i];
    }
    PutOnce(s, cs, limit, i);
    SensitiveIsFixed(s, cs, limit);
    SensitiveIsFixed(s, cs[..i], limit);
    if ItemOf(before, c, limit).Some? {
      LoggedInOrder(s, cs, limit, pruned, order, i);
      VersionsLast(s, cs, limit, pruned, i + 1);
      LoggedUndone(before, c, limit, pruned, next, after, order);
    } else {
      NotInOrder(s, cs, limit, pruned, order, i);
      UnloggedStays(before, c, limit, pruned, next, after, order);
    }
  }

  lemma LoggedInOrder(s: State, cs: seq<Call>, limit: nat, pruned: set<nat>, order: seq<Item>, i: nat)
    requires s.items == [] && DistinctCalls(cs) && i < |cs|
    requires multiset(order) == multiset(Finish(PutAll(s, cs, limit), pruned).items)
    requires ItemOf(PutAll(s, cs[..i], limit), cs[i], limit).Some?
    ensures Finished(PutAll(s, cs[..i], limit), cs[i], limit, pruned).value in order
  {
    FinishedItems(s, cs, limit, pruned);
    SameMembers(Finish(PutAll(s, cs, limit), pruned).items, order);
    assert OfCall(s, cs, limit, pruned, Finished(PutAll(s, cs[..i], limit), cs[i], limit, pruned).value, i);
  }

  lemma NotInOrder(s: State, cs: seq<Call>, limit: nat, pruned: set<nat>, order: seq<Item>, i: nat)
    requires s.items == [] && DistinctCalls(cs) && i < |cs|
    requires multiset(order) == multiset(Finish(PutAll(s, cs, limit), pruned).items)
    requires ItemOf(PutAll(s, cs[..i], limit), cs[i], limit).None?
    ensures forall k :: 0 <= k < |order| ==> order[k].path != cs[i].path
  {
    FinishedItems(s, cs, limit, pruned);
    SameMembers(Finish(PutAll(s, cs, limit), pruned).items, order);
    forall k | 0 <= k < |order| ensures order[k].path != cs[i].path {
      assert order[k] in order;
      var j :| OfCall(s, cs, limit, pruned, order[k], j);
    }
  }

  /** Uploading files with distinct targets, finishing, and then rolling back, in any order of
      the items, restores the disk exactly when every one of the files can be taken back. */
  lemma RollbackRestoresIff(s: State, cs: seq<Call>, limit: nat, pruned: set<nat>, order: seq<Item>)
    requires s.items == [] && DistinctCalls(cs) && Honest(s, cs, limit)
    requires multiset(order) == multiset(Finish(PutAll(s, cs, limit), pruned).items)
    ensures Undone(Finish(PutAll(s, cs, limit), pruned), order).disk == s.disk <==>
      forall i :: 0 <= i < |cs| ==> Recoverable(PutAll(s, cs[..i], limit), cs[i], limit, pruned)
  {
    var end := Undone(Finish(PutAll(s, cs, limit), pruned), order).disk;
    FinishedItems(s, cs, limit, pruned);
    Rearranged(Finish(PutAll(s, cs, limit), pruned).items, order);
    forall i | 0 <= i < |cs|
      ensures Look(end, cs[i].path) == Look(s.disk, cs[i].path) <==>
        Recoverable(PutAll(s, cs[..i], limit), cs[i], limit, pruned)
    {
      CallUndone(s, cs, limit, pruned, order, i);
    }
    if forall i :: 0 <= i < |cs| ==> Recoverable(PutAll(s, cs[..i], limit), cs[i], limit, pruned) {
      forall path ensures Look(end, path) == Look(s.disk, path) {
        if i :| 0 <= i < |cs| && cs[i].path == path {
          assert Recoverable(PutAll(s, cs[..i], limit), cs[i], limit, pruned);
        } else {
          NoCallNoChange(s, cs, limit, pruned, order, path);
        }
      }
      SameLooks(end, s.disk);
    }
  }

  lemma NoCallNoChange(s: State, cs: seq<Call>, limit: nat, pruned: set<nat>, order: seq<Item>, path: string)
    requires s.items == [] && DistinctCalls(cs)
    requires multiset(order) == multiset(Finish(PutAll(s, cs, limit), pruned).items)
    requires forall i :: 0 <= i < |cs| ==> cs[i].path != path
    ensures Look(Undone(Finish(PutAll(s, cs, limit), pruned), order).disk, path) == Look(s.disk, path)
  {
    var after := Finish(PutAll(s, cs, limit), pruned);
    PutElsewhere(s, cs, limit, path);
    FinishedItems(s, cs, limit, pruned);
    SameMembers(after.items, order);
    forall k | 0 <= k < |order| ensures order[k].path != path {
      assert order[k] in after.items;
      var j :| OfCall(s, cs, limit, pruned, order[k], j);
    }
    OtherFileStays(after, order, AllDone(|order|), path);
  }

  /** A rearrangement of items with distinct paths has distinct paths. */
  lemma Rearranged(items: seq<Item>, order: seq<Item>)
    requires DistinctPaths(items) && multiset(items) == multiset(order)
    ensures DistinctPaths(order)
  {
    forall i, j | 0 <= i < j < |order| ensures order[i].path != order[j].path {
      var x, y := order[i], order[j];
      assert order == order[..j] + [y] + order[j + 1..];
      assert x in order[..j];
      assert x in multiset(items) && y in multiset(items);
      var a :| 0 <= a < |items| && items[a] == x;
      var b :| 0 <= b < |items| && items[b] == y;
      if x == y {
        assert multiset(order)[x] >= 2;
        Once(items, a);
      }
    }
  }

  lemma Once(items: seq<Item>, a: nat)
    requires DistinctPaths(items) && a < |items|
    ensures multiset(items)[items[a]] == 1
  {
    assert items == items[..a] + [items[a]] + items[a + 1..];
    assert items[a] !in items[..a] && items[a] !in items[a + 1..];
  }

  // ---- one path uploaded more than once ----

  function Reversed(items: seq<Item>): seq<Item> {
    if items == [] then [] else [items[|items| - 1]] + Reversed(items[..|items| - 1])
  }

  /** The upload of one file leaves nothing that its own undo would miss. */
  predicate Clean(s: State, c: Call, limit: nat, pruned: set<nat>) {
    || Refused(s, c)
    || (if c.outcome.Failed? then c.outcome.left == Look(s.disk, c.path)
        else c.logged && (c.path !in s.disk || HistoryLasts(s, c, limit, pruned)))
  }

  /** Every item has its version, and it lasts. */
  ghost predicate VersionsKnown(s: State, pruned: set<nat>) {
    forall it <- s.items :: it.version > 0 ==> it.version in s.versions && it.version !in pruned
  }

  lemma PutKnows(s: State, c: Call, limit: nat, pruned: set<nat>)
    requires VersionsKnown(s, pruned) && Clean(s, c, limit, pruned)
    ensures VersionsKnown(Put(s, c, limit), pruned)
  {
    forall it | it in Put(s, c, limit).items
      ensures it.version > 0 ==> it.version in Put(s, c, limit).versions && it.version !in pruned
    {
      assert it in s.items || Some(it) == ItemOf(s, c, limit);
    }
  }

  lemma {:induction false} KnownAfter(s: State, cs: seq<Call>, limit: nat, pruned: set<nat>)
    requires s.items == [] && forall i :: 0 <= i < |cs| ==> Clean(PutAll(s, cs[..i], limit), cs[i], limit, pruned)
    ensures VersionsKnown(PutAll(s, cs, limit), pruned)
    decreases |cs|
  {
    if cs != [] {
      var n := |cs| - 1;
      assert forall j :: 0 <= j <= n ==> cs[..n][..j] == cs[..j];
      KnownAfter(s, cs[..n], limit, pruned);
      PutKnows(PutAll(s, cs[..n], limit), cs[n], limit, pruned);
    }
  }

  /** A rollback reads only the disk and the versions its items name. */
  ghost predicate Agree(s: State, t: State, items: seq<Item>) {
    && s.disk == t.disk && s.sensitive == t.sensitive
    && forall it <- items :: it.version > 0 ==>
      it.version in s.versions && it.version in t.versions && s.versions[it.version] == t.versions[it.version]
  }

  lemma {:induction false} SameUndo(s: State, t: State, items: seq<Item>)
    requires Agree(s, t, items)
    ensures Undone(s, items).disk == Undone(t, items).disk
    decreases |items|
  {
    if items != [] {
      var first, rest := items[0], items[1..];
      assert items == [first] + rest && first in items;
      UndoFirst(s, first, rest);
      UndoFirst(t, first, rest);
      UndoneLike(s, t, first);
      SameUndo(Undo(s, first, DONE), Undo(t, first, DONE), rest);
    }
  }

  lemma UndoneLike(s: State, t: State, it: Item)
    requires Agree(s, t, [it])
    ensures var u, v := Undo(s, it, DONE), Undo(t, it, DONE);
      u.disk == v.disk && SameHistory(u, s) && SameHistory(v, t)
  {
    assert it in [it];
  }

  lemma {:induction false} ReversedMembers(items: seq<Item>)
    ensures forall it <- Reversed(items) :: it in items
  {
    if items != [] {
      ReversedMembers(items[..|items| - 1]);
    }
  }

  lemma LastUndone(before: State, c: Call, limit: nat, pruned: set<nat>)
    requires Clean(before, c, limit, pruned) && ItemOf(before, c, limit).Some?
    ensures var after := Put(before, c, limit); var it := ItemOf(before, c, limit).value;
      Undo(after, it, DONE).disk == before.disk && after.items == before.items + [it]
  {}

  lemma NothingDone(before: State, c: Call, limit: nat, pruned: set<nat>)
    requires Clean(before, c, limit, pruned) && ItemOf(before, c, limit).None?
    ensures var after := Put(before, c, limit); after.disk == before.disk && after.items == before.items
  {}

  lemma OldVersions(before: State, c: Call, limit: nat, pruned: set<nat>)
    requires VersionsKnown(before, pruned) && HonestStore(before, c, limit)
    ensures var after := Put(before, c, limit);
      && after.sensitive == before.sensitive
      && forall it <- before.items :: it.version > 0 ==>
        it.version in after.versions && after.versions[it.version] == before.versions[it.version]
  {}

  lemma LastThenRest(before: State, c: Call, limit: nat, pruned: set<nat>)
    requires Clean(before, c, limit, pruned) && VersionsKnown(before, pruned) && HonestStore(before, c, limit)
    ensures var after := Put(before, c, limit);
      Undone(after, Reversed(after.items)).disk == Undone(before, Reversed(before.items)).disk
  {
    var after, order := Put(before, c, limit), Reversed(before.items);
    ReversedMembers(before.items);
    OldVersions(before, c, limit, pruned);
    match ItemOf(before, c, limit)
    case None =>
      NothingDone(before, c, limit, pruned);
      SameUndo(before, after, order);
    case Some(it) =>
      LastUndone(before, c, limit, pruned);
      var undone := Undo(after, it, DONE);
      assert SameHistory(undone, after);
      assert after.items[..|before.items|] == before.items;
      SameUndo(before, undone, order);
      UndoFirst(after, it, order);
  }

  lemma UndoFirst(s: State, it: Item, order: seq<Item>)
    ensures Undone(s, [it] + order) == Undone(Undo(s, it, DONE), order)
  {
    assert ([it] + order)[1..] == order && AllDone(|order| + 1)[1..] == AllDone(|order|);
  }

  lemma {:induction false} ReversePuts(s: State, cs: seq<Call>, limit: nat, pruned: set<nat>)
    requires s.items == [] && Honest(s, cs, limit)
    requires forall i :: 0 <= i < |cs| ==> Clean(PutAll(s, cs[..i], limit), cs[i], limit, pruned)
    ensures var after := PutAll(s, cs, limit); Undone(after, Reversed(after.items)).disk == s.disk
    decreases |cs|
  {
    if cs != [] {
      var n := |cs| - 1;
      assert forall j :: 0 <= j <= n ==> cs[..n][..j] == cs[..j];
      ReversePuts(s, cs[..n], limit, pruned);
      KnownAfter(s, cs[..n], limit, pruned);
      assert HonestStore(PutAll(s, cs[..n], limit), cs[n], limit);
      LastThenRest(PutAll(s, cs[..n], limit), cs[n], limit, pruned);
    }
  }

  /** Pruning other versions changes nothing for the items. */
  lemma FinishAgrees(s: State, pruned: set<nat>)
    requires VersionsKnown(s, pruned)
    ensures Finish(s, pruned).items == s.items
    ensures forall it <- s.items :: it.version > 0 ==>
      it.version in Finish(s, pruned).versions && Finish(s, pruned).versions[it.version] == s.versions[it.version]
  {
    forall i | 0 <= i < |s.items| ensures Aged(s.items[i], pruned) == s.items[i] {
      assert s.items[i] in s.items;
    }
  }

  /** Taken back last first, an upload is undone even when it wrote a path several times. */
  lemma ReverseRollbackRestores(s: State, cs: seq<Call>, limit: nat, pruned: set<nat>)
    requires s.items == [] && Honest(s, cs, limit)
    requires forall i :: 0 <= i < |cs| ==> Clean(PutAll(s, cs[..i], limit), cs[i], limit, pruned)
    ensures var after := Finish(PutAll(s, cs, limit), pruned); Undone(after, Reversed(after.items)).disk == s.disk
  {
    var after := PutAll(s, cs, limit);
    ReversePuts(s, cs, limit, pruned);
    KnownAfter(s, cs, limit, pruned);
    FinishAgrees(after, pruned);
    ReversedMembers(after.items);
    SameUndo(after, Finish(after, pruned), Reversed(after.items));
  }

  /** Taken back in the order they were written, two uploads of one path bring back the file
      exactly if it was there, and they wrote the same or the first wrote what it held. */
  lemma TwiceChronologicalIff(before: State, c1: Call, c2: Call, limit: nat, pruned: set<nat>)
    requires c1.path == c2.path && c1.outcome.Wrote? && c2.outcome.Wrote?
    requires !Refused(before, c1) && Clean(before, c1, limit, pruned) && HonestStore(before, c1, limit)
    requires var s := Put(before, c1, limit);
      !Refused(s, c2) && Clean(s, c2, limit, pruned) && HonestStore(s, c2, limit)
    ensures var s := Put(before, c1, limit);
      var i1, i2 := Finished(before, c1, limit, pruned).value, Finished(s, c2, limit, pruned).value;
      var after := Finish(Put(s, c2, limit), pruned);
      Look(Undo(Undo(after, i1, DONE), i2, DONE).disk, c1.path) == Look(before.disk, c1.path) <==>
        c1.path in before.disk && (c1.body == c2.body || before.disk[c1.path] == c1.body)
  {
    var s := Put(before, c1, limit);
    var after := Finish(Put(s, c2, limit), pruned);
    var i1, i2 := Finished(before, c1, limit, pruned).value, Finished(s, c2, limit, pruned).value;
    assert i2.existed && i2.version > 0 && after.versions[i2.version] == c1.body;
    assert i1.existed ==> i1.version in after.versions && after.versions[i1.version] == before.disk[c1.path];
  }

  /** Taken back in the order they were written, a new file uploaded twice stays. */
  lemma ChronologicalRollbackFails(s: State, c1: Call, c2: Call)
    requires s.disk == map[] && s.items == [] && s.open && c1.path == c2.path && c1.body != c2.body
    requires c1.outcome.Wrote? && c1.logged && c2.outcome.Wrote? && c2.logged && c2.readable && !c2.isProtected
    requires 0 < c2.snapshot && |c1.body| <= MAX_EDIT_BYTES && !s.sensitive(c1.path)
    ensures var after := Put(Put(s, c1, 0), c2, 0);
      |after.items| == 2 && Undone(after, after.items).disk == map[c1.path := c1.body] != s.disk
  {
    var one := Put(s, c1, 0);
    var after := Put(one, c2, 0);
    var i1, i2 := Item(c1.path, false, 0, c1.body), Item(c2.path, true, c2.snapshot, c2.body);
    assert after.items == [i1] + ([i2] + []);
    UndoFirst(after, i1, [i2]);
    UndoFirst(after, i2, []);
    assert Undo(after, i1, DONE) == after;
    assert c1.path in map[c1.path := c1.body];
  }

  // ---- the server's fields ----

  class Server {
    var disk: Disk
    var versions: map<nat, string>
    var items: seq<Item>
    var used: nat
    var open: bool
    const sensitive: string -> bool

    ghost function Now(): State
      reads this
    {
      State(disk, versions, items, used, open, sensitive)
    }

    /** uploadBudget.take. */
    method Take(size: nat, limit: nat) returns (ok: bool)
      modifies this`used
      ensures ok <==> old(used) + size <= limit
      ensures used == if ok then old(used) + size else old(used)
    {
      if used + size > limit {
        return false;
      }
      used := used + size;
      ok := true;
    }

    method UploadWithHistory(c: Call, limit: nat)
      modifies this
      ensures Now() == Put(old(Now()), c, limit)
    {
      if !open {
        return;
      }
      var existed, version := false, 0;
      if c.path in disk && c.readable {
        existed := true;
        if !c.force && c.isProtected {
          return;
        }
        var size := |disk[c.path]|;
        var keep := size <= MAX_EDIT_BYTES;
        if !keep {
          keep := Take(size, limit);
        }
        if keep {
          version := c.snapshot;
          if version > 0 {
            versions := versions[version := disk[c.path]];
          }
        }
      }
      match c.outcome
      case Failed(left) =>
        disk := Left(disk, c.path, left);
      case Wrote =>
        disk := disk[c.path := c.body];
        if c.logged {
          items := items + [Item(c.path, existed, version, c.body)];
        }
    }

    /** handleFilesUploadFinish, and the versions that PruneFileHistory picks, one after the other. */
    method FinishUpload(ids: seq<nat>)
      modifies this
      ensures Now() == Finish(old(Now()), Elements(ids))
    {
      open := false;
      var i := 0;
      while i < |ids|
        invariant 0 <= i <= |ids| && disk == old(disk) && used == old(used) && !open
        invariant versions == old(versions) - Elements(ids[..i])
        invariant items == AgedAll(old(items), Elements(ids[..i]))
      {
        assert Elements(ids[..i + 1]) == Elements(ids[..i]) + {ids[i]};
        versions := versions - {ids[i]};
        items := AgedAll(items, {ids[i]});
        i := i + 1;
      }
      assert ids[..|ids|] == ids;
    }

    method UndoOne(it: Item, attempt: Attempt)
      modifies this`disk
      ensures Now() == Undo(old(Now()), it, attempt)
    {
      var present, outcome := attempt.hashed && it.path in disk, attempt.command;
      if !it.existed {
        if !present || disk[it.path] != it.after {
          return;
        }
        disk := Left(disk, it.path, if outcome.Wrote? then None else outcome.left);
      } else if it.version != 0 {
        if present && disk[it.path] != it.after {
          return;
        }
        if it.version !in versions || sensitive(it.path) {
          return;
        }
        disk := Left(disk, it.path, if outcome.Failed? then outcome.left else Some(versions[it.version]));
      }
    }

    /** UploadRollbackRunner.Run over the items the store lists. */
    method Rollback(list: seq<Item>, attempts: seq<Attempt>)
      requires |attempts| == |list|
      modifies this`disk
      ensures Now() == UndoAll(old(Now()), list, attempts)
    {
      var i := 0;
      while i < |list|
        invariant 0 <= i <= |list|
        invariant UndoAll(Now(), list[i..], attempts[i..]) == UndoAll(old(Now()), list, attempts)
      {
        UndoOne(list[i], attempts[i]);
        assert list[i..][1..] == list[i + 1..] && attempts[i..][1..] == attempts[i + 1..];
        i := i + 1;
      }
    }
  }
}
