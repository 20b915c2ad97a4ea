/** Applying a fail2ban template, with rollback
    (internal/api/handlers_fail2ban.go:929-1107; ConfigManager.Write,
    internal/control/configs.go:659-780, 1020-1026). */
module Fail2banApply {
  import opened Disks
  import opened Text
  import opened Wrappers

  /** f2bFileChange. */
  datatype Change = Change(path: string, before: string, after: string, exists_: bool)

  predicate Changed(c: Change) { c.before != c.after }

  /** normaliseNewlines: what ConfigManager.Write puts on the disk. */
  function Normalised(s: string): string {
    var t := ReplaceAll(s, "\r\n", "\n");
    if t != "" && t[|t| - 1] != '\n' then t + "\n" else t
  }

  /** Nothing to normalise: no "\r\n", and a line break at the end. */
  predicate NormalText(s: string) { !Contains(s, "\r\n") && (s == "" || s[|s| - 1] == '\n') }

  /** Exactly such texts are written as they are. */
  lemma NormalisedIff(s: string)
    ensures Normalised(s) == s <==> NormalText(s)
  {
    var t := ReplaceAll(s, "\r\n", "\n");
    if Contains(s, "\r\n") {
      ReplacedDiffers(s);
      var i :| 0 <= i < |t| && i < |s| && t[i] != s[i];
      assert Normalised(s)[i] != s[i];
    } else {
      NothingReplaced(s);
    }
  }

  lemma NothingReplaced(s: string)
    requires !Contains(s, "\r\n")
    ensures ReplaceAll(s, "\r\n", "\n") == s
  {
    ReplaceAllSkips(s, "\r\n", "\n", |s|);
  }

  lemma {:induction false} ReplacedDiffers(s: string)
    requires Contains(s, "\r\n")
    ensures var t := ReplaceAll(s, "\r\n", "\n"); exists i :: 0 <= i < |t| && i < |s| && t[i] != s[i]
  {
    var t := ReplaceAll(s, "\r\n", "\n");
    if "\r\n" <= s {
      assert t[0] == '\n' && s[0] == '\r';
    } else {
      var rest := s[1..];
      ReplacedDiffers(rest);
      var u := ReplaceAll(rest, "\r\n", "\n");
      var i :| 0 <= i < |u| && i < |rest| && u[i] != rest[i];
      assert t[i + 1] == u[i] && s[i + 1] == rest[i];
    }
  }

  /** Every line with a carriage return and a line break. */
  function Crlf(ls: seq<string>): string { if ls == [] then "" else ls[0] + "\r\n" + Crlf(ls[1..]) }

  /** Lines that end in "\r\n", with or without one after the last, become lines that end in "\n". */
  lemma CrlfNormalised(ls: seq<string>, last: string)
    requires (forall i :: 0 <= i < |ls| ==> '\r' !in ls[i]) && '\r' !in last && '\n' !in last
    ensures Normalised(Crlf(ls) + last) == Terminated(if last == "" then ls else ls + [last])
  {
    CrlfReplaced(ls, last, "\r\n", "\n");
    LastEnded(ls, last, Terminated(ls) + last);
  }

  lemma LastEnded(ls: seq<string>, last: string, t: string)
    requires '\n' !in last && t == Terminated(ls) + last
    ensures (if t != "" && t[|t| - 1] != '\n' then t + "\n" else t) ==
      Terminated(if last == "" then ls else ls + [last])
  {
    if last == "" {
      TerminatedEnds(ls);
      assert t == Terminated(ls);
    } else {
      TerminatedNext(ls, last);
      assert t[|t| - 1] == last[|last| - 1];
      assert t + "\n" == Terminated(ls) + (last + "\n");
    }
  }

  lemma {:induction false} CrlfReplaced(ls: seq<string>, last: string, crlf: string, lf: string)
    requires (forall i :: 0 <= i < |ls| ==> '\r' !in ls[i]) && '\r' !in last && crlf == "\r\n" && lf == "\n"
    ensures ReplaceAll(Crlf(ls) + last, crlf, lf) == Terminated(ls) + last
  {
    if ls == [] {
      assert Crlf(ls) + last == last && Terminated(ls) + last == last;
      NoneReplaced(last, crlf, lf);
    } else {
      var rest := Crlf(ls[1..]) + last;
      CrlfReplaced(ls[1..], last, crlf, lf);
      assert Crlf(ls) + last == ls[0] + crlf + rest;
      FirstReplaced(ls[0], crlf, lf, rest);
      assert ls[0] + lf + (Terminated(ls[1..]) + last) == Terminated(ls) + last;
    }
  }

  lemma NoneReplaced(line: string, pat: string, sub: string)
    requires pat != "" && pat[0] !in line
    ensures ReplaceAll(line, pat, sub) == line
  {
    forall i | 0 <= i < |line| ensures !(pat <= line[i..]) {
      assert line[i..][0] == line[i];
    }
    ReplaceAllSkips(line, pat, sub, |line|);
  }

  lemma FirstReplaced(line: string, pat: string, sub: string, rest: string)
    requires pat != "" && pat[0] !in line
    ensures ReplaceAll(line + pat + rest, pat, sub) == line + sub + ReplaceAll(rest, pat, sub)
  {
    var s := line + pat + rest;
    forall i | 0 <= i < |line| ensures !(pat <= s[i..]) {
      assert s[i..][0] == line[i];
    }
    ReplaceAllSkips(s, pat, sub, |line|);
    assert s[..|line|] == line && s[|line|..] == pat + rest && (pat + rest)[|pat|..] == rest;
  }

  lemma {:induction false} TerminatedEnds(ls: seq<string>)
    ensures ls != [] ==> Terminated(ls) != "" && Terminated(ls)[|Terminated(ls)| - 1] == '\n'
  {
    if |ls| > 1 {
      TerminatedEnds(ls[1..]);
    }
  }

  /** maxEditableBytes: Write refuses a larger text. */
  const MAX_BYTES := 2 * 1024 * 1024

  /** How a Write ends. Kept: an error, and the file is as before (refused, not written, or
      rejected and put back). Removed: rejected, and deleted because no old text could be read.
      Abandoned: written and an error, since its version was not recorded, or it was rejected
      and could not be put back or deleted. */
  datatype Outcome = Written | Kept | Removed | Abandoned

  function Ends(c: Change, outcome: Outcome): Outcome { if |c.after| > MAX_BYTES then Kept else outcome }

  function Wrote(d: Disk, c: Change, outcome: Outcome): Disk {
    match outcome
    case Written => d[c.path := Normalised(c.after)]
    case Kept => d
    case Removed => d - {c.path}
    case Abandoned => d[c.path := Normalised(c.after)]
  }

  // ---- which files ----

  const HUB_FILE := "jail.d/zz-nkt-hub.local"

  function FilterFile(name: string): string { "filter.d/nkt-" + name + ".conf" }

  function JailFile(name: string): string { "jail.d/nkt-" + name + ".local" }

  /** A file that cannot be read is taken for new. */
  function Captured(d: Disk, hidden: set<string>, path: string, after: string): Change {
    match Read(d, hidden, path)
    case Some(text) => Change(path, text, after, true)
    case None => Change(path, "", after, false)
  }

  /** The files of a template, the protection of the hub first. hub is the content of its
      ignore file, filter the trimmed filter. */
  function Plan(d: Disk, hidden: set<string>, root: string, hub: Option<string>, name: string, filter: string,
                jail: string, jailText: string): seq<Change>
  {
    (if hub.Some? then [Captured(d, hidden, root + "/" + HUB_FILE, hub.value)] else [])
    + (if filter != "" then [Captured(d, hidden, root + "/" + FilterFile(name), filter + "\n")] else [])
    + [Captured(d, hidden, root + "/" + JailFile(jail), jailText)]
  }

  /** Which text goes to which file. */
  ghost predicate Planned(root: string, hub: Option<string>, name: string, filter: string, jail: string,
                          jailText: string, path: string, text: string) {
    || (hub.Some? && path == root + "/" + "jail.d/zz-nkt-hub.local" && text == hub.value)
    || (filter != "" && path == root + "/" + ("filter.d/nkt-" + name + ".conf") && text == filter + "\n")
    || (path == root + "/" + ("jail.d/nkt-" + jail + ".local") && text == jailText)
  }

  /** Exactly these are planned, the protection of the hub before the jail. */
  lemma PlanIs(d: Disk, hidden: set<string>, root: string, hub: Option<string>, name: string, filter: string,
               jail: string, jailText: string, path: string, text: string)
    ensures var cs := Plan(d, hidden, root, hub, name, filter, jail, jailText);
      && (Planned(root, hub, name, filter, jail, jailText, path, text) <==>
           exists i :: 0 <= i < |cs| && cs[i].path == path && cs[i].after == text)
      && (hub.Some? ==> cs[0].path == root + "/" + "jail.d/zz-nkt-hub.local")
      && cs[|cs| - 1].path == root + "/" + ("jail.d/nkt-" + jail + ".local")
  {
    var cs := Plan(d, hidden, root, hub, name, filter, jail, jailText);
    var h, f := if hub.Some? then 1 else 0, if filter != "" then 1 else 0;
    assert |cs| == h + f + 1;
    assert hub.Some? ==> cs[0].path == root + "/" + HUB_FILE && cs[0].after == hub.value;
    assert filter != "" ==> cs[h].path == root + "/" + FilterFile(name) && cs[h].after == filter + "\n";
    assert cs[h + f].path == root + "/" + JailFile(jail) && cs[h + f].after == jailText;
  }

  ghost predicate Faithful(d: Disk, hidden: set<string>, cs: seq<Change>) {
    && (forall i :: 0 <= i < |cs| ==> cs[i] == Captured(d, hidden, cs[i].path, cs[i].after))
    && (forall i, j :: 0 <= i < j < |cs| ==> cs[i].path != cs[j].path)
  }

  lemma FilesDiffer(root: string, name: string, jail: string)
    ensures root + "/" + HUB_FILE != root + "/" + FilterFile(name)
    ensures root + "/" + HUB_FILE != root + "/" + JailFile(jail)
    ensures root + "/" + FilterFile(name) != root + "/" + JailFile(jail)
  {
    var a, b, c := HUB_FILE, FilterFile(name), JailFile(jail);
    assert a[0] == 'j' && b[0] == 'f' && c[0] == 'j' && a[7] == 'z' && c[7] == 'n';
    var n := |root| + 1;
    assert (root + "/" + a)[n..] == a && (root + "/" + b)[n..] == b && (root + "/" + c)[n..] == c;
  }

  /** The plan records what is there, and its files are distinct. */
  lemma PlanIsFaithful(d: Disk, hidden: set<string>, root: string, hub: Option<string>, name: string, filter: string,
                       jail: string, jailText: string)
    ensures Faithful(d, hidden, Plan(d, hidden, root, hub, name, filter, jail, jailText))
  {
    FilesDiffer(root, name, jail);
  }

  // ---- the writes and the rollback ----

  /** The forward loop over cs, every write done. */
  function Forward(d: Disk, cs: seq<Change>): Disk {
    if cs == [] then d
    else
      var c := cs[|cs| - 1];
      var e := Forward(d, cs[..|cs| - 1]);
      if Changed(c) then Wrote(e, c, Written) else e
  }

  /** rollback over cs, its own writes done, but for an old text that Write refuses. */
  function Back(d: Disk, cs: seq<Change>): Disk {
    if cs == [] then d
    else
      var c := cs[|cs| - 1];
      var e := Back(d, cs[..|cs| - 1]);
      if !Changed(c) then e
      else if !c.exists_ then e - {c.path}
      else if |c.before| > MAX_BYTES then e
      else e[c.path := Normalised(c.before)]
  }

  lemma {:induction false} ForwardElsewhere(d: Disk, cs: seq<Change>, p: string)
    requires forall i :: 0 <= i < |cs| && Changed(cs[i]) ==> cs[i].path != p
    ensures Look(Forward(d, cs), p) == Look(d, p)
  {
    if cs != [] {
      ForwardElsewhere(d, cs[..|cs| - 1], p);
    }
  }

  lemma {:induction false} BackElsewhere(d: Disk, cs: seq<Change>, p: string)
    requires forall i :: 0 <= i < |cs| && Changed(cs[i]) ==> cs[i].path != p
    ensures Look(Back(d, cs), p) == Look(d, p)
  {
    if cs != [] {
      BackElsewhere(d, cs[..|cs| - 1], p);
    }
  }

  /** Once all is written, each changed file holds its new text, normalised. */
  lemma {:induction false} ForwardHolds(d: Disk, cs: seq<Change>, i: nat)
    requires i < |cs| && Changed(cs[i]) && DistinctFiles(cs)
    ensures Look(Forward(d, cs), cs[i].path) == Some(Normalised(cs[i].after))
  {
    var n := |cs| - 1;
    if i < n {
      ForwardHolds(d, cs[..n], i);
    }
  }

  ghost predicate DistinctFiles(cs: seq<Change>) { forall i, j :: 0 <= i < j < |cs| ==> cs[i].path != cs[j].path }

  lemma {:induction false} BackAt(d: Disk, cs: seq<Change>, k: nat)
    requires k < |cs| && Changed(cs[k]) && DistinctFiles(cs)
    ensures Look(Back(d, cs), cs[k].path) ==
      if !cs[k].exists_ then None
      else if |cs[k].before| > MAX_BYTES then Look(d, cs[k].path)
      else Some(Normalised(cs[k].before))
    decreases |cs|
  {
    var n := |cs| - 1;
    if k < n {
      BackAt(d, cs[..n], k);
    } else {
      BackElsewhere(d, cs[..n], cs[k].path);
    }
  }

  lemma {:induction false} ForwardAt(d: Disk, cs: seq<Change>, k: nat)
    requires k < |cs| && Changed(cs[k]) && DistinctFiles(cs)
    ensures Look(Forward(d, cs), cs[k].path) == Some(Normalised(cs[k].after))
    decreases |cs|
  {
    if k < |cs| - 1 {
      ForwardAt(d, cs[..|cs| - 1], k);
    }
  }

  /** An old file survives the rollback: it could be read, and its content survives being
      written back, or is what was written anyway if it is too large for that. */
  predicate Survives(d: Disk, hidden: set<string>, c: Change) {
    Changed(c) && c.path in d ==>
      && c.path !in hidden
      && d[c.path] == Normalised(if |d[c.path]| > MAX_BYTES then c.after else d[c.path])
  }

  ghost predicate AllSurvive(d: Disk, hidden: set<string>, cs: seq<Change>) {
    forall k :: 0 <= k < |cs| ==> Survives(d, hidden, cs[k])
  }

  lemma BackOneIff(d: Disk, hidden: set<string>, cs: seq<Change>, k: nat)
    requires Faithful(d, hidden, cs) && k < |cs|
    ensures Look(Back(Forward(d, cs), cs), cs[k].path) == Look(d, cs[k].path) <==> Survives(d, hidden, cs[k])
  {
    if Changed(cs[k]) {
      BackAt(Forward(d, cs), cs, k);
      ForwardAt(d, cs, k);
    } else {
      BackElsewhere(Forward(d, cs), cs, cs[k].path);
      ForwardElsewhere(d, cs, cs[k].path);
    }
  }

  /** When jails are lost after the reload, all files come back exactly when every old
      file survives. */
  lemma LostJailsRestoreIff(d: Disk, hidden: set<string>, cs: seq<Change>)
    requires Faithful(d, hidden, cs)
    ensures Back(Forward(d, cs), cs) == d <==> AllSurvive(d, hidden, cs)
  {
    var back := Back(Forward(d, cs), cs);
    forall k | 0 <= k < |cs|
      ensures Look(back, cs[k].path) == Look(d, cs[k].path) <==> Survives(d, hidden, cs[k])
    {
      BackOneIff(d, hidden, cs, k);
    }
    if AllSurvive(d, hidden, cs) {
      forall p ensures Look(back, p) == Look(d, p) {
        if forall k :: 0 <= k < |cs| ==> cs[k].path != p {
          ForwardElsewhere(d, cs, p);
          BackElsewhere(Forward(d, cs), cs, p);
        }
      }
      SameLooks(back, d);
    }
  }

  /** A file that was there and could not be read is deleted. */
  lemma HiddenIsDeleted(d: Disk, hidden: set<string>, cs: seq<Change>, k: nat)
    requires Faithful(d, hidden, cs) && k < |cs| && Changed(cs[k]) && cs[k].path in d && cs[k].path in hidden
    ensures cs[k].path !in Back(Forward(d, cs), cs)
  {
    BackAt(Forward(d, cs), cs, k);
  }

  /** An old file too large to be written back keeps the new text. */
  lemma LargeStaysChanged(d: Disk, hidden: set<string>, cs: seq<Change>, k: nat)
    requires Faithful(d, hidden, cs) && k < |cs| && Changed(cs[k])
    requires cs[k].path in d && cs[k].path !in hidden && |d[cs[k].path]| > MAX_BYTES
    ensures Look(Back(Forward(d, cs), cs), cs[k].path) == Some(Normalised(cs[k].after))
  {
    BackAt(Forward(d, cs), cs, k);
    ForwardAt(d, cs, k);
  }

  /** What another file holds does not matter to the rollback. */
  lemma {:induction false} BackPast(d: Disk, cs: seq<Change>, p: string, content: Option<string>)
    requires forall i :: 0 <= i < |cs| ==> cs[i].path != p
    ensures Back(Left(d, p, content), cs) == Left(Back(d, cs), p, content)
  {
    if cs != [] {
      var c, e := cs[|cs| - 1], Back(d, cs[..|cs| - 1]);
      BackPast(d, cs[..|cs| - 1], p, content);
      LeftTwo(e, p, content, c.path, None);
      LeftTwo(e, p, content, c.path, Some(Normalised(c.before)));
    }
  }

  lemma LeftTwo(d: Disk, p: string, x: Option<string>, q: string, y: Option<string>)
    requires p != q
    ensures Left(Left(d, p, x), q, y) == Left(Left(d, q, y), p, x)
  {}

  /** What a failed write leaves of its own file. */
  function Leaves(d: Disk, c: Change, outcome: Outcome): Option<string> {
    match outcome
    case Kept => Look(d, c.path)
    case Removed => None
    case Written => Some(Normalised(c.after))
    case Abandoned => Some(Normalised(c.after))
  }

  /** When the write of file i fails, the files before it are rolled back, file i is not:
      all is as before exactly when the old files before it survive, and the write left of
      file i what it was. */
  lemma FailedWriteRestoresIff(d: Disk, hidden: set<string>, cs: seq<Change>, i: nat, outcome: Outcome)
    requires Faithful(d, hidden, cs) && i < |cs| && Changed(cs[i]) && !outcome.Written?
    ensures Back(Wrote(Forward(d, cs[..i]), cs[i], outcome), cs[..i]) == d <==>
      AllSurvive(d, hidden, cs[..i]) && FailedWriteKeeps(d, cs[i], outcome)
  {
    var done, c := cs[..i], cs[i];
    LostJailsRestoreIff(d, hidden, done);
    var f := Forward(d, done);
    var back := Back(f, done);
    ForwardElsewhere(d, done, c.path);
    BackElsewhere(f, done, c.path);
    if !outcome.Kept? {
      BackPast(f, done, c.path, Leaves(d, c, outcome));
      OneFileMore(d, back, c.path, Leaves(d, c, outcome));
    }
  }

  /** A failed write harms nothing: the file is as before, or was not there and was deleted, or
      held the new text already. */
  predicate FailedWriteKeeps(d: Disk, c: Change, outcome: Outcome) {
    && (outcome.Removed? ==> c.path !in d)
    && (outcome.Abandoned? ==> Look(d, c.path) == Some(Normalised(c.after)))
  }

  lemma OneFileMore(d: Disk, back: Disk, p: string, content: Option<string>)
    requires Look(back, p) == Look(d, p)
    ensures Left(back, p, content) == d <==> back == d && Look(d, p) == content
  {
    if Left(back, p, content) == d {
      assert Look(Left(back, p, content), p) == content;
      SameLooksBut(back, d, p, content);
    }
    if back == d && Look(d, p) == content {
      forall q ensures Look(Left(back, p, content), q) == Look(d, q) {}
      SameLooks(Left(back, p, content), d);
    }
  }

  lemma SameLooksBut(back: Disk, d: Disk, p: string, content: Option<string>)
    requires Look(back, p) == Look(d, p) && Left(back, p, content) == d
    ensures back == d
  {
    forall q ensures Look(back, q) == Look(d, q) {
      assert q != p ==> Look(Left(back, p, content), q) == Look(back, q);
    }
    SameLooks(back, d);
  }

  /** A file that was there, could not be read, and whose new text was rejected is gone. */
  lemma RejectedIsDeleted(d: Disk, hidden: set<string>, cs: seq<Change>, i: nat)
    requires Faithful(d, hidden, cs) && i < |cs| && cs[i].path in d && cs[i].path in hidden
    ensures cs[i].path !in Back(Wrote(Forward(d, cs[..i]), cs[i], Removed), cs[..i])
  {
    BackElsewhere(Wrote(Forward(d, cs[..i]), cs[i], Removed), cs[..i], cs[i].path);
  }

  // ---- reloads ----

  datatype Request = Request(path: string, reload: bool)

  /** The last changed file, or -1. */
  function LastChanged(cs: seq<Change>): (last: int)
    ensures -1 <= last < |cs|
  {
    if cs == [] then -1
    else if Changed(cs[|cs| - 1]) then |cs| - 1
    else LastChanged(cs[..|cs| - 1])
  }

  /** The writes that the forward loop asks for, up to file n. */
  function Requests(cs: seq<Change>, running: bool, n: nat): seq<Request>
    requires n <= |cs|
  {
    if n == 0 then []
    else Requests(cs, running, n - 1) + Asked(cs, running, n - 1)
  }

  function Asked(cs: seq<Change>, running: bool, i: nat): seq<Request>
    requires i < |cs|
  {
    if Changed(cs[i]) then [Request(cs[i].path, i == LastChanged(cs) && running)] else []
  }

  lemma {:induction false} LastChangedIs(cs: seq<Change>)
    ensures LastChanged(cs) >= 0 ==> Changed(cs[LastChanged(cs)])
    ensures forall i :: LastChanged(cs) < i < |cs| ==> !Changed(cs[i])
  {
    if cs != [] {
      LastChangedIs(cs[..|cs| - 1]);
    }
  }

  lemma {:induction false} NothingAfterLast(cs: seq<Change>, running: bool, n: nat)
    requires n <= |cs| && LastChanged(cs) < n
    ensures Requests(cs, running, n) == Requests(cs, running, LastChanged(cs) + 1)
    decreases n
  {
    LastChangedIs(cs);
    if n > LastChanged(cs) + 1 {
      assert Asked(cs, running, n - 1) == [];
      NothingAfterLast(cs, running, n - 1);
    }
  }

  lemma {:induction false} NoReloadBefore(cs: seq<Change>, running: bool, n: nat, k: nat)
    requires n <= |cs| && n <= LastChanged(cs) && k < |Requests(cs, running, n)|
    ensures !Requests(cs, running, n)[k].reload
  {
    if k < |Requests(cs, running, n - 1)| {
      NoReloadBefore(cs, running, n - 1, k);
    }
  }

  /** fail2ban is reloaded once, with the last write, when all files are in place. */
  lemma ReloadIsLast(cs: seq<Change>, running: bool, k: nat)
    requires k < |Requests(cs, running, |cs|)|
    ensures Requests(cs, running, |cs|)[k].reload <==> running && k == |Requests(cs, running, |cs|)| - 1
  {
    LastChangedIs(cs);
    NothingAfterLast(cs, running, |cs|);
    var n := LastChanged(cs);
    if n >= 0 && k < |Requests(cs, running, n)| {
      NoReloadBefore(cs, running, n, k);
    }
  }

  /** One more round of the forward loop. */
  lemma StepDone(d: Disk, cs: seq<Change>, i: nat, past: seq<Request>, running: bool)
    requires i < |cs|
    ensures Forward(d, cs[..i + 1]) ==
      if Changed(cs[i]) then Wrote(Forward(d, cs[..i]), cs[i], Written) else Forward(d, cs[..i])
    ensures past + Requests(cs, running, i + 1)
         == past + Requests(cs, running, i) + Asked(cs, running, i)
  {
    assert cs[..i + 1][..i] == cs[..i];
  }

  ghost predicate Restorable(d: Disk, hidden: set<string>, cs: seq<Change>, outcomes: seq<Outcome>)
    requires |outcomes| == |cs|
  {
    AllSurvive(d, hidden, cs) && forall i :: 0 <= i < |cs| ==> FailedWriteKeeps(d, cs[i], Ends(cs[i], outcomes[i]))
  }

  // ---- the handler ----

  class Host {
    var disk: Disk
    var requests: seq<Request>

    method Write(c: Change, outcome: Outcome, reload: bool) returns (ok: bool)
      modifies this
      ensures ok <==> |c.after| <= 2 * 1024 * 1024 && outcome.Written?
      ensures |c.after| > 2 * 1024 * 1024 ==> disk == old(disk)
      ensures disk == Wrote(old(disk), c, Ends(c, outcome))
      ensures requests == old(requests) + [Request(c.path, reload)]
    {
      requests := requests + [Request(c.path, reload)];
      if |c.after| > MAX_BYTES {
        return false;
      }
      match outcome
      case Kept =>
        ok := false;
      case Removed =>
        disk := disk - {c.path};
        ok := false;
      case Written =>
        disk := disk[c.path := Normalised(c.after)];
        ok := true;
      case Abandoned =>
        disk := disk[c.path := Normalised(c.after)];
        ok := false;
    }

    method Rollback(cs: seq<Change>)
      modifies this`disk
      ensures disk == Back(old(disk), cs)
    {
      var k := 0;
      while k < |cs|
        invariant 0 <= k <= |cs| && disk == Back(old(disk), cs[..k])
      {
        var prev := cs[k];
        assert cs[..k + 1][..k] == cs[..k];
        if Changed(prev) {
          if !prev.exists_ {
            disk := disk - {prev.path};
          } else if |prev.before| <= MAX_BYTES {
            disk := disk[prev.path := Normalised(prev.before)];
          }
        }
        k := k + 1;
      }
      assert cs[..|cs|] == cs;
    }

    /** After the write of file i failed. */
    method Recover(ghost d: Disk, ghost hidden: set<string>, cs: seq<Change>, i: nat, ghost outcome: Outcome)
      requires Faithful(d, hidden, cs) && i < |cs| && Changed(cs[i]) && !outcome.Written?
      requires disk == Wrote(Forward(d, cs[..i]), cs[i], outcome)
      modifies this`disk
      ensures disk == d <==> AllSurvive(d, hidden, cs[..i]) && FailedWriteKeeps(d, cs[i], outcome)
    {
      FailedWriteRestoresIff(d, hidden, cs, i, outcome);
      Rollback(cs[..i]);
    }

    /** After the reload lost jails. */
    method RecoverAll(ghost d: Disk, ghost hidden: set<string>, cs: seq<Change>)
      requires Faithful(d, hidden, cs) && disk == Forward(d, cs)
      modifies this`disk
      ensures disk == d <==> AllSurvive(d, hidden, cs)
    {
      LostJailsRestoreIff(d, hidden, cs);
      Rollback(cs);
    }

    /** The loop over the changes: it stops at the first write that fails. */
    method WriteAll(cs: seq<Change>, running: bool, outcomes: seq<Outcome>) returns (n: nat)
      requires |outcomes| == |cs|
      modifies this
      ensures n <= |cs| && forall j :: 0 <= j < n && Changed(cs[j]) ==> Ends(cs[j], outcomes[j]).Written?
      ensures n == |cs| ==>
        disk == Forward(old(disk), cs) && requests == old(requests) + Requests(cs, running, |cs|)
      ensures n < |cs| ==>
        && Changed(cs[n]) && !Ends(cs[n], outcomes[n]).Written?
        && disk == Wrote(Forward(old(disk), cs[..n]), cs[n], Ends(cs[n], outcomes[n]))
    {
      ghost var d, asked := disk, requests;
      n := 0;
      while n < |cs|
        invariant 0 <= n <= |cs| && disk == Forward(d, cs[..n])
        invariant requests == asked + Requests(cs, running, n)
        invariant forall j :: 0 <= j < n && Changed(cs[j]) ==> Ends(cs[j], outcomes[j]).Written?
      {
        var ok := WriteNext(d, asked, cs, running, n, outcomes[n]);
        if !ok {
          return;
        }
        n := n + 1;
      }
      assert cs[..n] == cs;
    }

    /** One round of it. */
    method WriteNext(ghost d: Disk, ghost asked: seq<Request>, cs: seq<Change>, running: bool, n: nat, outcome: Outcome)
      returns (ok: bool)
      requires n < |cs| && disk == Forward(d, cs[..n]) && requests == asked + Requests(cs, running, n)
      modifies this
      ensures ok <==> !Changed(cs[n]) || Ends(cs[n], outcome).Written?
      ensures ok ==> disk == Forward(d, cs[..n + 1]) && requests == asked + Requests(cs, running, n + 1)
      ensures !ok ==> disk == Wrote(Forward(d, cs[..n]), cs[n], Ends(cs[n], outcome))
    {
      StepDone(d, cs, n, asked, running);
      ok := true;
      if Changed(cs[n]) {
        ok := Write(cs[n], outcome, n == LastChanged(cs) && running);
      }
    }

    /** The part of handleF2BTemplateApply that writes; lost tells whether jails are
        missing after the reload. */
    method Apply(ghost hidden: set<string>, cs: seq<Change>, running: bool, outcomes: seq<Outcome>, lost: bool)
      returns (ok: bool)
      requires Faithful(disk, hidden, cs) && |outcomes| == |cs|
      modifies this
      ensures ok <==>
        !(running && lost) && forall i :: 0 <= i < |cs| && cs[i].before != cs[i].after ==>
          |cs[i].after| <= 2 * 1024 * 1024 && outcomes[i].Written?
      ensures ok ==> disk == Forward(old(disk), cs) && requests == old(requests) + Requests(cs, running, |cs|)
      ensures ok ==> forall i :: 0 <= i < |cs| && Changed(cs[i]) ==>
        Look(disk, cs[i].path) == Some(Normalised(cs[i].after))
      ensures !ok && Restorable(old(disk), hidden, cs, outcomes) ==> disk == old(disk)
    {
      var n := WriteAll(cs, running, outcomes);
      if n < |cs| {
        Recover(old(disk), hidden, cs, n, Ends(cs[n], outcomes[n]));
        return false;
      }
      if running && lost {
        RecoverAll(old(disk), hidden, cs);
        return false;
      }
      forall i | 0 <= i < |cs| && Changed(cs[i]) ensures Look(disk, cs[i].path) == Some(Normalised(cs[i].after)) {
        ForwardHolds(old(disk), cs, i);
      }
      ok := true;
    }
  }
}
