/** Two rules walk a Go map, whose order is random (internal/analyze/analyze.go:252,
    k8s.go:291 and 303). When the findings of different keys share neither an ID
    nor a sort key, the collector and the stable sort erase that order. */
module MapOrder {
  import opened Findings
  import opened Walks

  /** The findings in the order of the walk. */
  function Flat<K>(g: map<K, seq<Finding>>, o: seq<K>): seq<Finding>
    requires forall k <- o :: k in g
  {
    if o == [] then [] else g[o[0]] + Flat(g, o[1..])
  }

  ghost predicate NoSharedId(a: seq<Finding>, b: seq<Finding>) { Ids(a) !! Ids(b) }

  ghost predicate NoSharedKey(a: seq<Finding>, b: seq<Finding>) {
    forall i, j :: 0 <= i < |a| && 0 <= j < |b| ==> !SameKey(a[i], b[j])
  }

  ghost predicate Apart<K(!new)>(g: map<K, seq<Finding>>) {
    forall k, l :: k in g && l in g && k != l ==> NoSharedId(g[k], g[l]) && NoSharedKey(g[k], g[l])
  }

  /** Indistinguishable inside any report. */
  ghost predicate Alike(a: seq<Finding>, b: seq<Finding>) {
    Ids(a) == Ids(b) && forall seen, k :: Keyed(Collect(a, seen), k) == Keyed(Collect(b, seen), k)
  }

  // ---- the collector ----

  lemma IdsConcat(a: seq<Finding>, b: seq<Finding>)
    ensures Ids(a + b) == Ids(a) + Ids(b)
  {
    forall i | 0 <= i < |b| ensures IdOf(b[i]) in Ids(a + b) {
      assert (a + b)[|a| + i] == b[i];
    }
    forall i | 0 <= i < |a| ensures IdOf(a[i]) in Ids(a + b) {
      assert (a + b)[i] == a[i];
    }
  }

  lemma {:induction false} CollectConcat(a: seq<Finding>, b: seq<Finding>, seen: set<string>)
    ensures Collect(a + b, seen) == Collect(a, seen) + Collect(b, seen + Ids(a))
    decreases |a|
  {
    if a == [] {
      assert a + b == b && seen + Ids(a) == seen;
    } else {
      var id, rest := IdOf(a[0]), a[1..];
      assert (a + b)[1..] == rest + b && (a + b)[0] == a[0];
      if id in seen {
        CollectConcat(rest, b, seen);
        assert seen + Ids(rest) == seen + Ids(a);
      } else {
        CollectConcat(rest, b, seen + {id});
        assert seen + {id} + Ids(rest) == seen + Ids(a);
        assert [Named(a[0])] + (Collect(rest, seen + {id}) + Collect(b, seen + Ids(a))) ==
          [Named(a[0])] + Collect(rest, seen + {id}) + Collect(b, seen + Ids(a));
      }
    }
  }

  /** Adding fs and then gs is adding fs + gs. */
  lemma AddedInTurn(found: seq<Finding>, seen: set<string>, fs: seq<Finding>, gs: seq<Finding>)
    ensures found + Collect(fs, seen) + Collect(gs, seen + Ids(fs)) == found + Collect(fs + gs, seen)
    ensures seen + Ids(fs) + Ids(gs) == seen + Ids(fs + gs)
  {
    CollectConcat(fs, gs, seen);
    IdsConcat(fs, gs);
    var a, b := Collect(fs, seen), Collect(gs, seen + Ids(fs));
    assert found + a + b == found + (a + b);
  }

  /** The state of a collector to which fs were added. */
  ghost predicate Added(found: seq<Finding>, seen: set<string>, found0: seq<Finding>, seen0: set<string>,
                        fs: seq<Finding>)
  {
    found == found0 + Collect(fs, seen0) && seen == seen0 + Ids(fs)
  }

  lemma AddedNext(found: seq<Finding>, seen: set<string>, found1: seq<Finding>, seen1: set<string>,
                  found0: seq<Finding>, seen0: set<string>, fs: seq<Finding>, gs: seq<Finding>)
    requires Added(found1, seen1, found0, seen0, fs) && Added(found, seen, found1, seen1, gs)
    ensures Added(found, seen, found0, seen0, fs + gs)
  {
    AddedInTurn(found0, seen0, fs, gs);
  }

  /** One finding more for a collector to which fs were added. */
  method AddOne(c: Collector, f: Finding, ghost found0: seq<Finding>, ghost seen0: set<string>, ghost fs: seq<Finding>)
    requires Added(c.findings, c.seen, found0, seen0, fs)
    modifies c
    ensures Added(c.findings, c.seen, found0, seen0, fs + [f])
  {
    ghost var found, seen := c.findings, c.seen;
    c.Add(f);
    AddedNext(c.findings, c.seen, found, seen, found0, seen0, fs, [f]);
  }

  lemma {:induction false} CollectSeen(a: seq<Finding>, s: set<string>, t: set<string>)
    requires s * Ids(a) == t * Ids(a)
    ensures Collect(a, s) == Collect(a, t)
    decreases |a|
  {
    if a != [] {
      var id := IdOf(a[0]);
      assert id in s * Ids(a) <==> id in s;
      assert id in t * Ids(a) <==> id in t;
      forall x | x in Ids(a[1..]) ensures (x in s <==> x in t) {
        assert x in s * Ids(a) <==> x in t * Ids(a);
      }
      assert s * Ids(a[1..]) == t * Ids(a[1..]);
      assert (s + {id}) * Ids(a[1..]) == (t + {id}) * Ids(a[1..]);
      CollectSeen(a[1..], s, t);
      CollectSeen(a[1..], s + {id}, t + {id});
    }
  }

  /** Collecting keeps the sort keys that were there. */
  lemma {:induction false} CollectKeys(a: seq<Finding>, seen: set<string>, i: nat)
    requires i < |Collect(a, seen)|
    ensures exists j :: 0 <= j < |a| && SameKey(Collect(a, seen)[i], a[j])
    decreases |a|
  {
    var next := if IdOf(a[0]) in seen then seen else seen + {IdOf(a[0])};
    var head := |Collect(a, seen)| - |Collect(a[1..], next)|;
    if i < head {
      assert SameKey(Collect(a, seen)[i], a[0]);
    } else {
      CollectKeys(a[1..], next, i - head);
      var j :| 0 <= j < |a[1..]| && SameKey(Collect(a[1..], next)[i - head], a[1..][j]);
      assert a[1..][j] == a[j + 1];
    }
  }

  // ---- one walk ----

  lemma {:induction false} FlatIds<K>(g: map<K, seq<Finding>>, o: seq<K>, id: string)
    requires forall k <- o :: k in g
    ensures id in Ids(Flat(g, o)) <==> exists i :: 0 <= i < |o| && id in Ids(g[o[i]])
  {
    if o != [] {
      FlatIds(g, o[1..], id);
      IdsConcat(g[o[0]], Flat(g, o[1..]));
      forall i | 0 <= i < |o| - 1 ensures o[1..][i] == o[i + 1] {}
      if i :| 0 <= i < |o| && id in Ids(g[o[i]]) {
        assert i > 0 ==> o[1..][i - 1] == o[i];
      }
    }
  }

  lemma {:induction false} FlatHas<K>(g: map<K, seq<Finding>>, o: seq<K>, f: Finding)
    requires forall k <- o :: k in g
    ensures f in Flat(g, o) <==> exists i :: 0 <= i < |o| && f in g[o[i]]
  {
    if o != [] {
      FlatHas(g, o[1..], f);
      forall i | 0 <= i < |o| - 1 ensures o[1..][i] == o[i + 1] {}
      if i :| 0 <= i < |o| && f in g[o[i]] {
        assert i > 0 ==> o[1..][i - 1] == o[i];
      }
    }
  }

  lemma {:induction false} FlatNext<K>(g: map<K, seq<Finding>>, o: seq<K>, k: K)
    requires (forall x <- o :: x in g) && k in g
    ensures Flat(g, o + [k]) == Flat(g, o) + g[k]
  {
    if o == [] {
      assert Flat(g, [k][1..]) == [];
    } else {
      assert (o + [k])[1..] == o[1..] + [k];
      FlatNext(g, o[1..], k);
    }
  }

  /** Each group collected on its own. */
  function Collected<K>(g: map<K, seq<Finding>>, seen: set<string>): map<K, seq<Finding>> {
    map k | k in g :: Collect(g[k], seen)
  }

  lemma {:induction false} CollectFlat<K(!new)>(g: map<K, seq<Finding>>, o: seq<K>, seen: set<string>)
    requires Apart(g) && (forall k <- o :: k in g) && forall i, j :: 0 <= i < j < |o| ==> o[i] != o[j]
    ensures Collect(Flat(g, o), seen) == Flat(Collected(g, seen), o)
  {
    if o != [] {
      var first, rest := g[o[0]], Flat(g, o[1..]);
      CollectConcat(first, rest, seen);
      forall id | id in Ids(rest) ensures id !in Ids(first) {
        FlatIds(g, o[1..], id);
        var i :| 0 <= i < |o[1..]| && id in Ids(g[o[1..][i]]);
        assert o[1..][i] == o[i + 1];
        assert NoSharedId(g[o[0]], g[o[i + 1]]);
      }
      assert (seen + Ids(first)) * Ids(rest) == seen * Ids(rest);
      CollectSeen(rest, seen + Ids(first), seen);
      CollectFlat(g, o[1..], seen);
    }
  }

  lemma {:induction false} KeyedFlatNone<K>(g: map<K, seq<Finding>>, o: seq<K>, key: Finding)
    requires forall k <- o :: k in g
    requires forall i :: 0 <= i < |o| ==> Keyed(g[o[i]], key) == []
    ensures Keyed(Flat(g, o), key) == []
  {
    if o != [] {
      forall i | 0 <= i < |o[1..]| ensures Keyed(g[o[1..][i]], key) == [] {
        assert o[1..][i] == o[i + 1];
      }
      KeyedFlatNone(g, o[1..], key);
      KeyedConcat(g[o[0]], Flat(g, o[1..]), key);
    }
  }

  /** One group holds every finding of a sort key. */
  lemma {:induction false} KeyedFlatOne<K>(g: map<K, seq<Finding>>, o: seq<K>, key: Finding, at: nat)
    requires (forall k <- o :: k in g) && at < |o|
    requires forall i :: 0 <= i < |o| && i != at ==> Keyed(g[o[i]], key) == []
    ensures Keyed(Flat(g, o), key) == Keyed(g[o[at]], key)
  {
    KeyedConcat(g[o[0]], Flat(g, o[1..]), key);
    forall i | 0 <= i < |o[1..]| ensures o[1..][i] == o[i + 1] {}
    if at == 0 {
      KeyedFlatNone(g, o[1..], key);
    } else {
      KeyedFlatOne(g, o[1..], key, at - 1);
    }
  }

  lemma OnlyGroup<K(!new)>(g: map<K, seq<Finding>>, seen: set<string>, key: Finding, k: K, l: K)
    requires Apart(g) && k in g && l in g && k != l && Keyed(Collected(g, seen)[k], key) != []
    ensures Keyed(Collected(g, seen)[l], key) == []
  {
    var a, b := Collect(g[k], seen), Collect(g[l], seen);
    KeyedHas(a, key);
    KeyedHas(b, key);
    assert NoSharedKey(g[k], g[l]);
    if Keyed(b, key) != [] {
      var i :| 0 <= i < |a| && SameKey(a[i], key);
      var j :| 0 <= j < |b| && SameKey(b[j], key);
      CollectKeys(g[k], seen, i);
      CollectKeys(g[l], seen, j);
    }
  }

  lemma SameKeyedFlat<K(!new)>(g: map<K, seq<Finding>>, o: seq<K>, p: seq<K>, seen: set<string>, key: Finding)
    requires Apart(g) && Walk(o, g.Keys) && Walk(p, g.Keys)
    ensures Keyed(Flat(Collected(g, seen), o), key) == Keyed(Flat(Collected(g, seen), p), key)
  {
    var h := Collected(g, seen);
    if i :| 0 <= i < |o| && Keyed(h[o[i]], key) != [] {
      var k := o[i];
      assert k in p;
      var j :| 0 <= j < |p| && p[j] == k;
      forall x | 0 <= x < |o| && x != i ensures Keyed(h[o[x]], key) == [] {
        OnlyGroup(g, seen, key, k, o[x]);
      }
      forall x | 0 <= x < |p| && x != j ensures Keyed(h[p[x]], key) == [] {
        OnlyGroup(g, seen, key, k, p[x]);
      }
      KeyedFlatOne(h, o, key, i);
      KeyedFlatOne(h, p, key, j);
    } else {
      KeyedFlatNone(h, o, key);
      forall x | 0 <= x < |p| ensures Keyed(h[p[x]], key) == [] {
        assert p[x] in o;
      }
      KeyedFlatNone(h, p, key);
    }
  }

  /** Two walks over the same groups cannot be told apart. */
  lemma WalksAlike<K(!new)>(g: map<K, seq<Finding>>, o: seq<K>, p: seq<K>)
    requires Apart(g) && Walk(o, g.Keys) && Walk(p, g.Keys)
    ensures Alike(Flat(g, o), Flat(g, p))
  {
    forall id ensures (id in Ids(Flat(g, o)) <==> id in Ids(Flat(g, p))) {
      FlatIds(g, o, id);
      FlatIds(g, p, id);
      assert forall i :: 0 <= i < |o| ==> o[i] in p;
      assert forall i :: 0 <= i < |p| ==> p[i] in o;
    }
    forall seen, key ensures Keyed(Collect(Flat(g, o), seen), key) == Keyed(Collect(Flat(g, p), seen), key) {
      CollectFlat(g, o, seen);
      CollectFlat(g, p, seen);
      SameKeyedFlat(g, o, p, seen, key);
    }
  }

  // ---- the whole report ----

  lemma AlikeConcat(a: seq<Finding>, b: seq<Finding>, c: seq<Finding>, d: seq<Finding>)
    requires Alike(a, b) && Alike(c, d)
    ensures Alike(a + c, b + d)
  {
    IdsConcat(a, c);
    IdsConcat(b, d);
    forall seen, key ensures Keyed(Collect(a + c, seen), key) == Keyed(Collect(b + d, seen), key) {
      CollectConcat(a, c, seen);
      CollectConcat(b, d, seen);
      KeyedConcat(Collect(a, seen), Collect(c, seen + Ids(a)), key);
      KeyedConcat(Collect(b, seen), Collect(d, seen + Ids(b)), key);
      assert Keyed(Collect(a, seen), key) == Keyed(Collect(b, seen), key);
      assert Keyed(Collect(c, seen + Ids(a)), key) == Keyed(Collect(d, seen + Ids(b)), key);
    }
  }

  lemma AlikeSorted(a: seq<Finding>, b: seq<Finding>)
    requires Alike(a, b)
    ensures StableSort(Collect(a, {})) == StableSort(Collect(b, {}))
  {
    StableSortWorks(Collect(a, {}));
    StableSortWorks(Collect(b, {}));
    forall k ensures Keyed(StableSort(Collect(a, {})), k) == Keyed(StableSort(Collect(b, {})), k) {
      assert Keyed(Collect(a, {}), k) == Keyed(Collect(b, {}), k);
    }
    StableSortUnique(StableSort(Collect(a, {})), StableSort(Collect(b, {})));
  }
}
