/** The finding engine (internal/analyze/analyze.go, k8s.go): the collector that
    drops repeated IDs, the stable sort, and why the order in which Go walks a
    map cannot be seen in the result. */
module Findings {
  import opened ByteOrder

  datatype Severity = Critical | High | Medium | Low | Info

  function Rank(s: Severity): nat {
    match s case Critical => 0 case High => 1 case Medium => 2 case Low => 3 case Info => 4
  }

  datatype Finding = Finding(rule: string, id: string, severity: Severity, service: string, object_: string)

  /** An empty ID becomes rule:object. */
  function IdOf(f: Finding): string {
    if f.id == "" then f.rule + ":" + f.object_ else f.id
  }

  function Named(f: Finding): Finding { f.(id := IdOf(f)) }

  /** collector.add for each of the findings, after those seen. */
  function Collect(fs: seq<Finding>, seen: set<string>): seq<Finding>
    decreases |fs|
  {
    if fs == [] then []
    else if IdOf(fs[0]) in seen then Collect(fs[1..], seen)
    else [Named(fs[0])] + Collect(fs[1..], seen + {IdOf(fs[0])})
  }

  /** f is the first of its ID, and that ID was not seen before. */
  ghost predicate FirstOfId(fs: seq<Finding>, seen: set<string>, i: int) {
    0 <= i < |fs| && IdOf(fs[i]) !in seen && forall j :: 0 <= j < i ==> IdOf(fs[j]) != IdOf(fs[i])
  }

  /** The collector keeps exactly the first finding of each ID. */
  lemma {:induction false} CollectKeepsFirsts(fs: seq<Finding>, seen: set<string>, f: Finding)
    ensures f in Collect(fs, seen) <==> exists i :: FirstOfId(fs, seen, i) && f == Named(fs[i])
    decreases |fs|
  {
    if fs != [] {
      var rest := fs[1..];
      var next := if IdOf(fs[0]) in seen then seen else seen + {IdOf(fs[0])};
      CollectKeepsFirsts(rest, next, f);
      if i :| FirstOfId(rest, next, i) && f == Named(rest[i]) {
        assert FirstOfId(fs, seen, i + 1) && fs[i + 1] == rest[i];
      }
      if i :| FirstOfId(fs, seen, i) && f == Named(fs[i]) {
        if i > 0 {
          assert IdOf(fs[0]) != IdOf(fs[i]);
          assert rest[i - 1] == fs[i] && FirstOfId(rest, next, i - 1);
        } else {
          assert f in [Named(fs[0])];
        }
      }
      if IdOf(fs[0]) !in seen && f == Named(fs[0]) {
        assert FirstOfId(fs, seen, 0);
      }
    }
  }

  lemma {:induction false} CollectedIdsDiffer(fs: seq<Finding>, seen: set<string>, a: nat, b: nat)
    requires a < b < |Collect(fs, seen)|
    ensures Collect(fs, seen)[a].id != Collect(fs, seen)[b].id
    decreases |fs|
  {
    var id := IdOf(fs[0]);
    if id in seen {
      CollectedIdsDiffer(fs[1..], seen, a, b);
    } else {
      var rest := Collect(fs[1..], seen + {id});
      if a > 0 {
        CollectedIdsDiffer(fs[1..], seen + {id}, a - 1, b - 1);
      } else {
        assert rest[b - 1] in rest;
        CollectKeepsFirsts(fs[1..], seen + {id}, rest[b - 1]);
      }
    }
  }

  function Ids(fs: seq<Finding>): set<string> { set i | 0 <= i < |fs| :: IdOf(fs[i]) }

  /** A finding with this ID is among them. */
  ghost predicate HasId(fs: seq<Finding>, id: string) { exists i :: 0 <= i < |fs| && IdOf(fs[i]) == id }

  lemma HasIdConcat(a: seq<Finding>, b: seq<Finding>, id: string)
    ensures HasId(a + b, id) <==> HasId(a, id) || HasId(b, id)
  {
    var ab := a + b;
    if i :| 0 <= i < |a| && IdOf(a[i]) == id {
      assert IdOf(ab[i]) == id;
    }
    if i :| 0 <= i < |b| && IdOf(b[i]) == id {
      assert IdOf(ab[|a| + i]) == id;
    }
    if i :| 0 <= i < |ab| && IdOf(ab[i]) == id {
      assert if i < |a| then IdOf(a[i]) == id else IdOf(b[i - |a|]) == id;
    }
  }

  lemma HasIdFirst(f: Finding, fs: seq<Finding>, id: string)
    ensures HasId([f] + fs, id) <==> IdOf(f) == id || HasId(fs, id)
  {
    HasIdConcat([f], fs, id);
    assert HasId([f], id) <==> IdOf([f][0]) == id;
  }

  /** Collecting loses no ID. */
  lemma {:induction false} CollectHasId(fs: seq<Finding>, seen: set<string>, id: string)
    ensures HasId(Collect(fs, seen), id) <==> id !in seen && HasId(fs, id)
    decreases |fs|
  {
    if fs != [] {
      var f, rest := fs[0], fs[1..];
      assert fs == [f] + rest;
      HasIdFirst(f, rest, id);
      if IdOf(f) in seen {
        CollectHasId(rest, seen, id);
      } else {
        CollectHasId(rest, seen + {IdOf(f)}, id);
        HasIdFirst(Named(f), Collect(rest, seen + {IdOf(f)}), id);
      }
    }
  }

  // ---- the order of the report ----

  predicate SameKey(a: Finding, b: Finding) {
    Rank(a.severity) == Rank(b.severity) && a.service == b.service && a.object_ == b.object_
  }

  /** Less of SortFindings. */
  predicate Less(a: Finding, b: Finding) {
    if Rank(a.severity) != Rank(b.severity) then Rank(a.severity) < Rank(b.severity)
    else if a.service != b.service then Before(a.service, b.service)
    else Before(a.object_, b.object_)
  }

  lemma LessOrder(a: Finding, b: Finding)
    ensures Less(a, b) || Less(b, a) || SameKey(a, b)
    ensures !(Less(a, b) && Less(b, a)) && (SameKey(a, b) ==> !Less(a, b))
  {
    BeforeTotal(a.service, b.service);
    BeforeTotal(a.object_, b.object_);
  }

  lemma LessTransitive(a: Finding, b: Finding, c: Finding)
    requires Less(a, b) && Less(b, c)
    ensures Less(a, c)
  {
    if a.service != b.service && b.service != c.service && Before(a.service, b.service) &&
      Before(b.service, c.service) {
      BeforeTransitive(a.service, b.service, c.service);
    }
    if Before(a.object_, b.object_) && Before(b.object_, c.object_) {
      BeforeTransitive(a.object_, b.object_, c.object_);
    }
    BeforeTotal(a.service, b.service);
  }

  // ---- stable sorting ----

  ghost predicate Sorted(fs: seq<Finding>) {
    forall i, j :: 0 <= i < j < |fs| ==> !Less(fs[j], fs[i])
  }

  /** The findings that share the sort key of k, in their order. */
  function Keyed(fs: seq<Finding>, k: Finding): seq<Finding> {
    if fs == [] then []
    else (if SameKey(fs[0], k) then [fs[0]] else []) + Keyed(fs[1..], k)
  }

  /** sort.SliceStable: sorted, and equals keep their order. */
  ghost predicate StableSortOf(r: seq<Finding>, fs: seq<Finding>) {
    Sorted(r) && forall k :: Keyed(r, k) == Keyed(fs, k)
  }

  /** Critical findings first, then high, medium, low, and those for information. */
  ghost predicate WorstFirst(fs: seq<Finding>) {
    forall i, j :: 0 <= i < j < |fs| ==>
      && (fs[j].severity.Critical? ==> fs[i].severity.Critical?)
      && (fs[j].severity.High? ==> fs[i].severity in {Critical, High})
      && (fs[j].severity.Medium? ==> fs[i].severity in {Critical, High, Medium})
      && (fs[j].severity.Low? ==> !fs[i].severity.Info?)
  }

  lemma SortedWorstFirst(fs: seq<Finding>)
    requires Sorted(fs)
    ensures WorstFirst(fs)
  {
    forall i, j | 0 <= i < j < |fs| ensures Rank(fs[i].severity) <= Rank(fs[j].severity) {
      assert !Less(fs[j], fs[i]);
    }
  }

  function Place(r: seq<Finding>, f: Finding): seq<Finding> {
    if r == [] then [f]
    else if Less(f, r[0]) then [f] + r
    else [r[0]] + Place(r[1..], f)
  }

  function StableSort(fs: seq<Finding>): seq<Finding> {
    if fs == [] then [] else Place(StableSort(fs[..|fs| - 1]), fs[|fs| - 1])
  }

  lemma {:induction false} KeyedConcat(a: seq<Finding>, b: seq<Finding>, k: Finding)
    ensures Keyed(a + b, k) == Keyed(a, k) + Keyed(b, k)
  {
    if a == [] {
      assert a + b == b;
    } else {
      assert (a + b)[1..] == a[1..] + b;
      KeyedConcat(a[1..], b, k);
    }
  }

  lemma {:induction false} PlaceMembers(r: seq<Finding>, f: Finding)
    ensures forall x <- Place(r, f) :: x == f || x in r
  {
    if r != [] && !Less(f, r[0]) {
      PlaceMembers(r[1..], f);
    }
  }

  lemma {:induction false} SortHasId(fs: seq<Finding>, id: string)
    ensures HasId(StableSort(fs), id) <==> HasId(fs, id)
  {
    if fs != [] {
      var rest, f := fs[..|fs| - 1], fs[|fs| - 1];
      SortHasId(rest, id);
      PlaceHasId(StableSort(rest), f, id);
      HasIdConcat(rest, [f], id);
      assert fs == rest + [f] && [f] == [f] + [];
      HasIdFirst(f, [], id);
    }
  }

  lemma {:induction false} PlaceHasId(r: seq<Finding>, f: Finding, id: string)
    ensures HasId(Place(r, f), id) <==> HasId(r, id) || IdOf(f) == id
  {
    if r == [] {
      assert [f] == [f] + [];
      HasIdFirst(f, [], id);
    } else if Less(f, r[0]) {
      HasIdFirst(f, r, id);
    } else {
      PlaceHasId(r[1..], f, id);
      assert r == [r[0]] + r[1..];
      HasIdFirst(r[0], r[1..], id);
      HasIdFirst(r[0], Place(r[1..], f), id);
    }
  }

  lemma {:induction false} PlaceSorted(r: seq<Finding>, f: Finding)
    requires Sorted(r)
    ensures Sorted(Place(r, f))
  {
    if r == [] {
    } else if Less(f, r[0]) {
      var s := [f] + r;
      forall i, j | 0 <= i < j < |s| ensures !Less(s[j], s[i]) {
        LessOrder(f, s[j]);
        if i == 0 && j > 1 && Less(s[j], f) {
          LessTransitive(s[j], f, r[0]);
        }
      }
    } else {
      var t := Place(r[1..], f);
      PlaceSorted(r[1..], f);
      PlaceMembers(r[1..], f);
      var s := [r[0]] + t;
      forall i, j | 0 <= i < j < |s| ensures !Less(s[j], s[i]) {
        assert s[j] == t[j - 1] && t[j - 1] in t;
        if i > 0 {
          assert s[i] == t[i - 1];
        }
      }
    }
  }

  lemma {:induction false} PlaceKeyed(r: seq<Finding>, f: Finding, k: Finding)
    requires Sorted(r)
    ensures Keyed(Place(r, f), k) == Keyed(r, k) + Keyed([f], k)
  {
    if r == [] {
    } else if Less(f, r[0]) {
      KeyedConcat([f], r, k);
      if SameKey(f, k) {
        KeyAbove(r, f, k);
      }
      assert Keyed(r, k) + [] == Keyed(r, k) == [] + Keyed(r, k);
    } else {
      PlaceKeyed(r[1..], f, k);
      assert ([r[0]] + Place(r[1..], f))[1..] == Place(r[1..], f);
    }
  }

  /** Nothing in a sorted list that begins above f has the key of f. */
  lemma {:induction false} KeyAbove(r: seq<Finding>, f: Finding, k: Finding)
    requires Sorted(r) && SameKey(f, k) && forall i :: 0 <= i < |r| && i == 0 ==> Less(f, r[i])
    ensures Keyed(r, k) == []
  {
    if r != [] {
      LessOrder(f, r[0]);
      LessOrder(r[0], f);
      if |r| > 1 {
        var tail := r[1..];
        LessOrder(tail[0], r[0]);
        if Less(r[0], tail[0]) {
          LessTransitive(f, r[0], tail[0]);
        }
        KeyAbove(tail, f, k);
      }
    }
  }

  lemma {:induction false} StableSortWorks(fs: seq<Finding>)
    ensures StableSortOf(StableSort(fs), fs)
  {
    if fs != [] {
      var rest, f := fs[..|fs| - 1], fs[|fs| - 1];
      StableSortWorks(rest);
      PlaceSorted(StableSort(rest), f);
      forall k ensures Keyed(StableSort(fs), k) == Keyed(fs, k) {
        PlaceKeyed(StableSort(rest), f, k);
        KeyedConcat(rest, [f], k);
        assert fs == rest + [f];
      }
    }
  }

  lemma {:induction false} KeyedHas(fs: seq<Finding>, k: Finding)
    ensures Keyed(fs, k) != [] <==> exists i :: 0 <= i < |fs| && SameKey(fs[i], k)
  {
    if fs != [] {
      KeyedHas(fs[1..], k);
      if i :| 0 <= i < |fs| && SameKey(fs[i], k) {
        if i > 0 {
          assert fs[1..][i - 1] == fs[i];
        }
      }
      if j :| 0 <= j < |fs| - 1 && SameKey(fs[1..][j], k) {
        assert fs[j + 1] == fs[1..][j];
      }
    }
  }

  /** The first of a sorted list comes no later than anything with its key. */
  lemma FirstNotAfter(a: seq<Finding>, b: seq<Finding>)
    requires Sorted(b) && a != [] && b != [] && forall k :: Keyed(a, k) == Keyed(b, k)
    ensures !Less(a[0], b[0])
  {
    KeyedHas(a, a[0]);
    KeyedHas(b, a[0]);
    LessOrder(a[0], a[0]);
    assert SameKey(a[0], a[0]);
    var j :| 0 <= j < |b| && SameKey(b[j], a[0]);
    LessOrder(b[j], b[0]);
    LessOrder(b[0], b[0]);
    assert j == 0 || !Less(b[j], b[0]);
  }

  /** A stable sort has only one result. */
  lemma {:induction false} StableSortUnique(a: seq<Finding>, b: seq<Finding>)
    requires Sorted(a) && Sorted(b) && forall k :: Keyed(a, k) == Keyed(b, k)
    ensures a == b
  {
    if a == [] || b == [] {
      if a != [] {
        KeyedHas(a, a[0]);
      } else if b != [] {
        KeyedHas(b, b[0]);
      }
    } else {
      FirstNotAfter(a, b);
      FirstNotAfter(b, a);
      LessOrder(a[0], b[0]);
      assert Keyed(a, a[0])[0] == a[0] && Keyed(b, a[0])[0] == b[0];
      forall k ensures Keyed(a[1..], k) == Keyed(b[1..], k) {
        assert Keyed(a, k) == Keyed(b, k);
        var head := if SameKey(a[0], k) then [a[0]] else [];
        assert Keyed(a[1..], k) == Keyed(a, k)[|head|..] && Keyed(b[1..], k) == Keyed(b, k)[|head|..];
      }
      StableSortUnique(a[1..], b[1..]);
      assert a == [a[0]] + a[1..] && b == [b[0]] + b[1..];
    }
  }

  /** analyze.collector; Sort is SortFindings. */
  class Collector {
    var findings: seq<Finding>
    var seen: set<string>

    constructor ()
      ensures findings == [] && seen == {}
    {
      findings, seen := [], {};
    }

    method Add(f: Finding)
      modifies this
      ensures findings == old(findings) + Collect([f], old(seen))
      ensures seen == old(seen) + Ids([f])
    {
      var named := Named(f);
      assert Ids([f]) == {IdOf([f][0])};
      if named.id in seen {
        return;
      }
      seen := seen + {named.id};
      findings := findings + [named];
    }

    method Sort()
      modifies this`findings
      ensures StableSortOf(findings, old(findings)) && findings == StableSort(old(findings))
      ensures WorstFirst(findings)
    {
      StableSortWorks(findings);
      SortedWorstFirst(StableSort(findings));
      findings := StableSort(findings);
    }
  }
}
