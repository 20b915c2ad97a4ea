/** The registry of running deletions (internal/api/deletions.go). Its critical
    sections are steps of DeletionRuns. */
module Deletions {
  import DeletionRuns
  import opened Sequences
  import opened Text

  // ---- what is deleted ----

  datatype DeleteItem = DeleteItem(kind: string, name: string, snapshot: string, k8sKind: string, namespace: string)

  function Key(it: DeleteItem): string {
    if it.kind == "lxd-snapshot" then it.kind + ":" + (it.name + "/" + it.snapshot)
    else if it.kind == "k8s" then it.kind + ":" + (it.k8sKind + ":" + (it.namespace + "/" + it.name))
    else it.kind + ":" + it.name
  }

  predicate Valid(it: DeleteItem) {
    && Trim(it.name) != ""
    && if it.kind == "lxd-snapshot" then it.snapshot != ""
       else if it.kind == "k8s" then it.k8sKind != ""
       else it.kind in {"docker", "podman", "lxd", "vm", "image"}
  }

  predicate SameObject(a: DeleteItem, b: DeleteItem) {
    && a.kind == b.kind && a.name == b.name
    && (a.kind == "lxd-snapshot" ==> a.snapshot == b.snapshot)
    && (a.kind == "k8s" ==> a.k8sKind == b.k8sKind && a.namespace == b.namespace)
  }

  /** Names as LXD and Kubernetes allow them. */
  predicate Plain(it: DeleteItem) {
    && (it.kind == "lxd-snapshot" ==> '/' !in it.name)
    && (it.kind == "k8s" ==> ':' !in it.k8sKind && '/' !in it.namespace)
  }

  /** The first text ends inside the second one, at a separator. */
  predicate RunsInto(x: string, y: string, u: string, v: string, sep: char) {
    |x| < |u| && x + [sep] <= u && y == u[|x| + 1..] + [sep] + v
  }

  lemma JoinedIff(x: string, y: string, u: string, v: string, sep: char)
    ensures x + [sep] + y == u + [sep] + v <==>
      (x == u && y == v) || RunsInto(x, y, u, v, sep) || RunsInto(u, v, x, y, sep)
  {
    var s, t := x + [sep] + y, u + [sep] + v;
    assert s[..|x|] == x && s[|x| + 1..] == y && t[..|u|] == u && t[|u| + 1..] == v;
    if |x| < |u| {
      ShorterIff(x, y, u, v, sep);
    } else if |u| < |x| {
      ShorterIff(u, v, x, y, sep);
    }
  }

  lemma ShorterIff(x: string, y: string, u: string, v: string, sep: char)
    requires |x| < |u|
    ensures x + [sep] + y == u + [sep] + v <==> RunsInto(x, y, u, v, sep)
  {
    var s, t := x + [sep] + y, u + [sep] + v;
    if s == t {
      assert (x + [sep]) == s[..|x| + 1] == t[..|x| + 1] == u[..|x| + 1];
      assert y == s[|x| + 1..] == t[|x| + 1..] == u[|x| + 1..] + [sep] + v;
    }
    if RunsInto(x, y, u, v, sep) {
      assert u == x + [sep] + u[|x| + 1..];
    }
  }

  /** When two items have one key, names with separators in them included. */
  predicate KeysMeet(a: DeleteItem, b: DeleteItem) {
    && a.kind == b.kind
    && if a.kind == "lxd-snapshot" then
         || (a.name == b.name && a.snapshot == b.snapshot)
         || RunsInto(a.name, a.snapshot, b.name, b.snapshot, '/')
         || RunsInto(b.name, b.snapshot, a.name, a.snapshot, '/')
       else if a.kind == "k8s" then
         var x, y := a.namespace + "/" + a.name, b.namespace + "/" + b.name;
         || (a.k8sKind == b.k8sKind && a.namespace == b.namespace && a.name == b.name)
         || (a.k8sKind == b.k8sKind && RunsInto(a.namespace, a.name, b.namespace, b.name, '/'))
         || (a.k8sKind == b.k8sKind && RunsInto(b.namespace, b.name, a.namespace, a.name, '/'))
         || RunsInto(a.k8sKind, x, b.k8sKind, y, ':') || RunsInto(b.k8sKind, y, a.k8sKind, x, ':')
       else a.name == b.name
  }

  lemma KeysMeetIff(a: DeleteItem, b: DeleteItem)
    requires Valid(a) && Valid(b)
    ensures Key(a) == Key(b) <==> KeysMeet(a, b)
  {
    FirstFieldOf(a.kind, KeyRest(a), ':');
    FirstFieldOf(b.kind, KeyRest(b), ':');
    if a.kind == b.kind == "lxd-snapshot" {
      JoinedIff(a.name, a.snapshot, b.name, b.snapshot, '/');
    } else if a.kind == b.kind == "k8s" {
      var x, y := a.namespace + "/" + a.name, b.namespace + "/" + b.name;
      JoinedIff(a.k8sKind, x, b.k8sKind, y, ':');
      JoinedIff(a.namespace, a.name, b.namespace, b.name, '/');
      assert KeyRest(a) == a.k8sKind + ":" + x && KeyRest(b) == b.k8sKind + ":" + y;
    }
  }

  /** With a slash in it a name can run into another one. */
  lemma KeysCollide(a: DeleteItem, b: DeleteItem)
    requires a == DeleteItem("lxd-snapshot", "a/b", "c", "", "") && b == DeleteItem("lxd-snapshot", "a", "b/c", "", "")
    ensures Key(a) == Key(b) && !SameObject(a, b)
  {
    assert "a/b" + "/" + "c" == "a" + "/" + "b/c";
    assert |a.name| != |b.name|;
  }

  /** Items of one object have one key; items of different objects have different keys, if
      their names do not hold the separators. */
  lemma KeyIsIdentity(a: DeleteItem, b: DeleteItem)
    requires Valid(a) && Valid(b)
    ensures SameObject(a, b) ==> Key(a) == Key(b)
    ensures Plain(a) && Plain(b) ==> (Key(a) == Key(b) <==> SameObject(a, b))
  {
    KeysMeetIff(a, b);
    NoRun(a.name, a.snapshot, b.name, b.snapshot, '/');
    NoRun(b.name, b.snapshot, a.name, a.snapshot, '/');
    NoRun(a.namespace, a.name, b.namespace, b.name, '/');
    NoRun(b.namespace, b.name, a.namespace, a.name, '/');
    NoRun(a.k8sKind, a.namespace + "/" + a.name, b.k8sKind, b.namespace + "/" + b.name, ':');
    NoRun(b.k8sKind, b.namespace + "/" + b.name, a.k8sKind, a.namespace + "/" + a.name, ':');
  }

  lemma NoRun(x: string, y: string, u: string, v: string, sep: char)
    ensures sep !in u ==> !RunsInto(x, y, u, v, sep)
  {
    if RunsInto(x, y, u, v, sep) {
      assert u[|x|] == sep;
    }
  }

  function KeyRest(it: DeleteItem): (r: string)
    requires Valid(it)
    ensures Key(it) == it.kind + ":" + r && ':' !in it.kind
  {
    if it.kind == "lxd-snapshot" then it.name + "/" + it.snapshot
    else if it.kind == "k8s" then it.k8sKind + ":" + (it.namespace + "/" + it.name)
    else it.name
  }

  // ---- the registry ----

  datatype Answer<T> =
    | BadItem(at: nat)
    | Nothing
    | Already(running: nat)
    | StartFailed
    | Started(job: nat, todo: seq<T>)

  function KeysOf<T>(items: seq<T>, key: T -> string): set<string> {
    if items == [] then {} else KeysOf(items[..|items| - 1], key) + {key(items[|items| - 1])}
  }

  predicate DistinctKeys<T>(items: seq<T>, key: T -> string) {
    forall i, j :: 0 <= i < j < |items| ==> key(items[i]) != key(items[j])
  }

  /** The items nothing deletes yet, the first of each key. */
  function Todo<T>(items: seq<T>, key: T -> string, active: map<string, nat>): seq<T> {
    if items == [] then []
    else
      var rest, it := items[..|items| - 1], items[|items| - 1];
      Todo(rest, key, active) + if key(it) in KeysOf(rest, key) || key(it) in active then [] else [it]
  }

  /** The job of the last item that is being deleted already, or 0. */
  function Running<T>(items: seq<T>, key: T -> string, active: map<string, nat>): nat {
    if items == [] then 0
    else
      var rest, it := items[..|items| - 1], items[|items| - 1];
      if key(it) !in KeysOf(rest, key) && key(it) in active then active[key(it)] else Running(rest, key, active)
  }

  lemma {:induction false} KeyAt<T>(items: seq<T>, i: nat, key: T -> string)
    requires i < |items|
    ensures key(items[i]) in KeysOf(items, key)
  {
    if i < |items| - 1 {
      KeyAt(items[..|items| - 1], i, key);
    }
  }

  /** What a new job gets: each requested key that is not active, once. */
  lemma {:induction false} TodoIsFresh<T>(items: seq<T>, key: T -> string, active: map<string, nat>)
    ensures var todo := Todo(items, key, active);
      KeysOf(todo, key) == KeysOf(items, key) - active.Keys && DistinctKeys(todo, key)
  {
    if items != [] {
      var rest, it := items[..|items| - 1], items[|items| - 1];
      var todo := Todo(rest, key, active);
      TodoIsFresh(rest, key, active);
      if key(it) !in KeysOf(rest, key) && key(it) !in active {
        forall i | 0 <= i < |todo| ensures key(todo[i]) != key(it) {
          KeyAt(todo, i, key);
        }
      } else {
        assert Todo(items, key, active) == todo;
      }
    }
  }

  /** If a key is active, the answer names the job of an active key. */
  lemma {:induction false} RunningIsActive<T>(items: seq<T>, key: T -> string, active: map<string, nat>)
    requires forall k <- active :: active[k] > 0
    ensures var job := Running(items, key, active);
      if job == 0 then KeysOf(items, key) !! active.Keys
      else exists k <- active :: k in KeysOf(items, key) && active[k] == job
  {
    if items != [] {
      RunningIsActive(items[..|items| - 1], key, active);
    }
  }

  lemma NothingAsked<T>(items: seq<T>, key: T -> string, active: map<string, nat>)
    requires Todo(items, key, active) == [] && Running(items, key, active) == 0 && forall k <- active :: active[k] > 0
    ensures items == []
  {
    if items != [] {
      KeyAt(items, 0, key);
    }
    TodoIsFresh(items, key, active);
    RunningIsActive(items, key, active);
  }

  lemma SomethingFresh<T>(items: seq<T>, key: T -> string, active: map<string, nat>)
    requires Todo(items, key, active) != []
    ensures !(KeysOf(items, key) <= active.Keys)
  {
    var todo := Todo(items, key, active);
    TodoIsFresh(items, key, active);
    KeyAt(todo, 0, key);
    assert key(todo[0]) in KeysOf(items, key) - active.Keys;
  }

  lemma {:induction false} MapElements<T>(items: seq<T>, key: T -> string)
    ensures Elements(Map(items, key)) == KeysOf(items, key)
  {
    var ks := Map(items, key);
    if items != [] {
      var n := |items| - 1;
      MapElements(items[..n], key);
      assert ks == Map(items[..n], key) + [ks[n]];
    }
  }

  /** What a request is answered, by what was registered before it. */
  predicate Answers<T(==)>(items: seq<T>, key: T -> string, valid: T -> bool, active: map<string, nat>,
                           start: nat, failed: bool, answer: Answer<T>)
  {
    && (!answer.BadItem? ==> forall i :: 0 <= i < |items| ==> valid(items[i]))
    && match answer
       case BadItem(n) => n < |items| && !valid(items[n]) && forall i :: 0 <= i < n ==> valid(items[i])
       case Nothing => items == []
       case Already(job) =>
         KeysOf(items, key) <= active.Keys && exists k <- active :: k in KeysOf(items, key) && active[k] == job
       case StartFailed => failed && !(KeysOf(items, key) <= active.Keys)
       case Started(job, todo) =>
         job == start && todo == Todo(items, key, active) && !(KeysOf(items, key) <= active.Keys)
  }

  class Registry {
    var active: map<string, nat>

    constructor ()
      ensures active == map[]
    {
      active := map[];
    }

    /** deletions.done: what the step of its job does to the registry, whoever has the entry. */
    method Done(ghost s: DeletionRuns.State, ghost step: DeletionRuns.Step, key: string)
      requires active == s.active && (step.Delete? || step.Clear?) && DeletionRuns.Enabled(s, step)
      requires key == s.jobs[step.job].keys[s.jobs[step.job].phase.at]
      modifies this
      ensures active == DeletionRuns.Next(false, s, step).active
    {
      active := active - {key};
    }

    /** The loop of handleDelete: how many items come before the first invalid one,
        which of them to delete, and the job that deletes one of them already. */
    method Sift<T>(items: seq<T>, key: T -> string, valid: T -> bool) returns (n: nat, todo: seq<T>, running: nat)
      ensures n <= |items| && (forall i :: 0 <= i < n ==> valid(items[i])) && (n < |items| ==> !valid(items[n]))
      ensures todo == Todo(items[..n], key, active) && running == Running(items[..n], key, active)
    {
      var seen: set<string>;
      todo, seen, running, n := [], {}, 0, 0;
      while n < |items|
        invariant 0 <= n <= |items| && forall i :: 0 <= i < n ==> valid(items[i])
        invariant seen == KeysOf(items[..n], key)
        invariant todo == Todo(items[..n], key, active) && running == Running(items[..n], key, active)
      {
        var it := items[n];
        if !valid(it) {
          return;
        }
        assert items[..n + 1][..n] == items[..n];
        if key(it) !in seen {
          if key(it) in active {
            running := active[key(it)];
          } else {
            todo := todo + [it];
          }
        }
        seen, n := seen + {key(it)}, n + 1;
      }
    }

    /** The critical section of handleDelete; start is the job that jobs.Start
        would give, unless it failed. */
    method Request<T(==)>(items: seq<T>, key: T -> string, valid: T -> bool, start: nat, failed: bool)
      returns (answer: Answer<T>)
      requires forall k <- active :: active[k] > 0
      modifies this
      ensures Answers(items, key, valid, old(active), start, failed, answer)
      ensures answer.Started? ==>
        active == DeletionRuns.Registered(old(active), KeysOf(items, key) - old(active).Keys, start)
      ensures !answer.Started? ==> active == old(active)
    {
      var n, todo, running := Sift(items, key, valid);
      if n < |items| {
        return BadItem(n);
      }
      assert items[..n] == items;
      TodoIsFresh(items, key, active);
      RunningIsActive(items, key, active);
      if todo == [] {
        if running == 0 {
          NothingAsked(items, key, active);
          return Nothing;
        }
        return Already(running);
      }
      SomethingFresh(items, key, active);
      if failed {
        return StartFailed;
      }
      AddEach(todo, key, start);
      return Started(start, todo);
    }

    method AddEach<T>(todo: seq<T>, key: T -> string, job: nat)
      modifies this
      ensures active == DeletionRuns.Registered(old(active), KeysOf(todo, key), job)
    {
      var i := 0;
      while i < |todo|
        invariant 0 <= i <= |todo| && active == DeletionRuns.Registered(old(active), KeysOf(todo[..i], key), job)
      {
        assert todo[..i + 1][..i] == todo[..i];
        active := active[key(todo[i]) := job];
        i := i + 1;
      }
      assert todo[..|todo|] == todo;
    }

    /** handleDelete: a job that was started is the request step of the machine, for each
        requested key that nothing deletes; any other answer changes nothing. */
    method HandleDelete(ghost s: DeletionRuns.State, items: seq<DeleteItem>, start: nat, failed: bool)
      returns (answer: Answer<DeleteItem>)
      requires active == s.active && start > 0 && start !in s.jobs
      requires forall k <- active :: active[k] > 0
      modifies this
      ensures Answers(items, Key, Valid, old(active), start, failed, answer)
      ensures answer.Started? ==> var step := DeletionRuns.Request(start, Map(answer.todo, Key));
        DeletionRuns.Enabled(s, step) && active == DeletionRuns.Next(false, s, step).active
      ensures !answer.Started? ==> active == old(active)
    {
      answer := Request(items, Key, Valid, start, failed);
      if answer.Started? {
        RequestIsStep(s, items, start, answer.todo);
      }
    }
  }

  lemma RequestIsStep(s: DeletionRuns.State, items: seq<DeleteItem>, start: nat, todo: seq<DeleteItem>)
    requires start > 0 && start !in s.jobs && todo == Todo(items, Key, s.active)
    requires !(KeysOf(items, Key) <= s.active.Keys)
    ensures var step := DeletionRuns.Request(start, Map(todo, Key));
      && DeletionRuns.Enabled(s, step)
      && DeletionRuns.Next(false, s, step).active
         == DeletionRuns.Registered(s.active, KeysOf(items, Key) - s.active.Keys, start)
  {
    TodoIsFresh(items, Key, s.active);
    MapElements(todo, Key);
    RequestOfKeys(s, Map(todo, Key), start, KeysOf(items, Key) - s.active.Keys);
  }

  lemma RequestOfKeys(s: DeletionRuns.State, ks: seq<string>, start: nat, asked: set<string>)
    requires start > 0 && start !in s.jobs && DeletionRuns.Distinct(ks)
    requires Elements(ks) == asked && asked !! s.active.Keys && asked != {}
    ensures var step := DeletionRuns.Request(start, ks);
      && DeletionRuns.Enabled(s, step)
      && DeletionRuns.Next(false, s, step).active == DeletionRuns.Registered(s.active, asked, start)
  {
    assert forall k <- ks :: k in Elements(ks);
  }
}
