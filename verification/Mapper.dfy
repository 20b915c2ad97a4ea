/** Mapper of internal/ai/anonymize.go: its fields, and the methods that change
    them, proved against the functions on values. */
module MapperClass {
  import opened Anonymizer
  import opened Dictionary
  import opened Hiding
  import opened Outgoing
  import opened Revealing
  import opened Text
  import opened Walks

  /** Learn: names of at least three characters, in the order given. */
  function LearnAll(d: Dict, kind: string, names: seq<string>): Dict
    decreases |names|
  {
    if names == [] then d
    else if |Trim(names[0])| < 3 then LearnAll(d, kind, names[1..])
    else LearnAll(Register(d, kind, names[0]).0, kind, names[1..])
  }

  /** The names that are not too short to be hidden. */
  function Learnable(names: seq<string>): set<string> { set n | n in names && |Trim(n)| > 2 :: n }

  /** Each of them has an alias of its kind afterwards, unless it had one; nothing else was added. */
  lemma {:induction false} LearnsAll(d: Dict, kind: string, names: seq<string>)
    ensures var e := LearnAll(d, kind, names);
      && e.to.Keys == d.to.Keys + Learnable(names)
      && forall n <- e.to :: if n in d.to then e.to[n] == d.to[n] else OfKind(e.to[n], kind)
    decreases |names|
  {
    if names != [] {
      var n, rest := names[0], names[1..];
      assert names == [n] + rest;
      var d1 := if |Trim(n)| < 3 then d else Register(d, kind, n).0;
      LearnsAll(d1, kind, rest);
      assert Learnable(names) == Learnable(rest) + if |Trim(n)| > 2 then {n} else {};
      if n in d1.to && n !in d.to {
        assert d1.to[n] == AliasName(kind, Count(d, kind) + 1);
      }
    }
  }

  lemma SameLearnable(a: seq<string>, b: seq<string>)
    requires multiset(a) == multiset(b)
    ensures Learnable(a) == Learnable(b)
  {
    forall n ensures n in a <==> n in b {
      assert n in a <==> n in multiset(a);
      assert n in b <==> n in multiset(b);
    }
  }

  function InsertByLength(r: seq<string>, name: string): seq<string> {
    if r == [] || |r[0]| < |name| then [name] + r else [r[0]] + InsertByLength(r[1..], name)
  }

  lemma {:induction false} InsertMembers(r: seq<string>, name: string)
    ensures multiset(InsertByLength(r, name)) == multiset(r) + multiset{name}
  {
    if r != [] && |r[0]| >= |name| {
      InsertMembers(r[1..], name);
      assert r == [r[0]] + r[1..];
    }
  }

  /** Nothing inserted is longer than what bounds the list and the name. */
  lemma {:induction false} InsertBound(r: seq<string>, name: string, n: nat)
    requires |name| <= n && forall i :: 0 <= i < |r| ==> |r[i]| <= n
    ensures forall i :: 0 <= i < |InsertByLength(r, name)| ==> |InsertByLength(r, name)[i]| <= n
  {
    if r != [] && |r[0]| >= |name| {
      InsertBound(r[1..], name, n);
    }
  }

  lemma {:induction false} InsertSorted(r: seq<string>, name: string)
    requires LongestFirst(r)
    ensures LongestFirst(InsertByLength(r, name))
  {
    if r != [] && |r[0]| >= |name| {
      InsertSorted(r[1..], name);
      InsertBound(r[1..], name, |r[0]|);
    }
  }

  /** sort.Slice by falling length. */
  method SortLongestFirst(names: seq<string>) returns (r: seq<string>)
    ensures multiset(r) == multiset(names) && LongestFirst(r)
  {
    r := [];
    for i := 0 to |names|
      invariant multiset(r) == multiset(names[..i]) && LongestFirst(r)
    {
      InsertSorted(r, names[i]);
      InsertMembers(r, names[i]);
      assert names[..i + 1] == names[..i] + [names[i]];
      r := InsertByLength(r, names[i]);
    }
    assert names[..|names|] == names;
  }

  /** The keys of a map, longest first; nothing fixes the order among equals. */
  method KeysLongestFirst(m: map<string, string>) returns (keys: seq<string>)
    ensures Walk(keys, m.Keys) && LongestFirst(keys)
  {
    var rest, found := m.Keys, [];
    while rest != {}
      invariant Walk(found, m.Keys - rest) && rest <= m.Keys
    {
      var k :| k in rest;
      found := found + [k];
      rest := rest - {k};
    }
    keys := SortLongestFirst(found);
    PermutedLists(found, keys, m.Keys);
  }

  lemma PermutedLists(a: seq<string>, b: seq<string>, s: set<string>)
    requires Walk(a, s) && multiset(a) == multiset(b)
    ensures Walk(b, s)
  {
    forall k ensures k in b <==> k in s {
      assert k in b <==> k in multiset(b);
      assert k in a <==> k in multiset(a);
    }
    forall i, j | 0 <= i < j < |b| ensures b[i] != b[j] {
      OnceEach(a, b[i]);
      assert b == b[..i] + [b[i]] + b[i + 1..j] + [b[j]] + b[j + 1..];
      assert multiset(b) == multiset(b[..i]) + multiset{b[i]} + multiset(b[i + 1..j]) + multiset{b[j]} +
        multiset(b[j + 1..]);
    }
  }

  lemma {:induction false} OnceEach(a: seq<string>, k: string)
    requires forall i, j :: 0 <= i < j < |a| ==> a[i] != a[j]
    ensures multiset(a)[k] <= 1
  {
    if a != [] {
      OnceEach(a[1..], k);
      assert a == [a[0]] + a[1..];
      if a[0] == k {
        assert k !in a[1..];
      }
    }
  }

  lemma Regroup(a: string, b: string, c: string, d: string)
    ensures a + (b + c + d) == (a + b + c) + d
  {
  }

  class Mapper {
    const enabled: bool
    var keep: set<string>
    var to: map<string, string>
    var back: map<string, string>
    var counts: map<string, nat>

    function State(): Dict reads this { Dict(to, back, counts) }

    ghost predicate Valid() reads this { ValidDict(State()) }

    constructor (enabled: bool)
      ensures Valid() && State() == Empty && this.enabled == enabled && keep == {}
    {
      this.enabled := enabled;
      keep, to, back, counts := {}, map[], map[], map[];
    }

    method Keep(values: seq<string>)
      modifies this`keep
      ensures keep == old(keep) + set v | v in values
    {
      for i := 0 to |values|
        invariant keep == old(keep) + set v | v in values[..i]
      {
        assert values[..i + 1] == values[..i] + [values[i]];
        keep := keep + {values[i]};
      }
      assert values[..|values|] == values;
    }

    /** The alias of a value, given out on first use. */
    method Alias(kind: string, orig: string) returns (a: string)
      requires Valid() && orig != ""
      modifies this`to, this`back, this`counts
      ensures Valid() && (State(), a) == Register(old(State()), kind, orig)
      ensures Extends(old(State()), State())
    {
      ghost var d := State();
      RegisterKeepsDict(d, kind, orig);
      if orig in to {
        return to[orig];
      }
      var n := (if kind in counts then counts[kind] else 0) + 1;
      counts := counts[kind := n];
      a := kind + "-" + Dec(n);
      to := to[orig := a];
      back := back[a := orig];
      assert (State(), a) == Register(d, kind, orig);
    }

    method Learn(kind: string, names: seq<string>) returns (ghost order: seq<string>)
      requires Valid()
      modifies this`to, this`back, this`counts
      ensures Valid() && Extends(old(State()), State())
      ensures multiset(order) == multiset(names) && LongestFirst(order)
      ensures State() == if enabled then LearnAll(old(State()), kind, order) else old(State())
      ensures to.Keys == old(to).Keys + if enabled then Learnable(names) else {}
    {
      var sorted := SortLongestFirst(names);
      order := sorted;
      if !enabled {
        return;
      }
      LearnsAll(State(), kind, sorted);
      SameLearnable(names, sorted);
      for i := 0 to |sorted|
        invariant Valid() && Extends(old(State()), State())
        invariant LearnAll(old(State()), kind, sorted) == LearnAll(State(), kind, sorted[i..])
      {
        assert sorted[i..][1..] == sorted[i + 1..];
        if |Trim(sorted[i])| >= 3 {
          var _ := Alias(kind, sorted[i]);
        }
      }
    }

    /** ReplaceAllStringFunc with the function that calls alias. */
    method ReplaceMatches(m: Matches, kind: string, spare: string -> bool) returns (out: string)
      requires Valid() && AllHit(m)
      modifies this`to, this`back, this`counts
      ensures Valid() && Extends(old(State()), State())
      ensures (State(), out) == HideMatches(old(State()), m, kind, spare)
    {
      out := "";
      ghost var goal := HideMatches(State(), m, kind, spare);
      assert Rest(m, 0) == m && "" + goal.1 == goal.1;
      for i := 0 to |m.parts|
        invariant Valid() && Extends(old(State()), State())
        invariant var (d, rest) := HideMatches(State(), Rest(m, i), kind, spare); goal == (d, out + rest)
      {
        var p := m.parts[i];
        ghost var d := State();
        var w := p.hit;
        if !spare(p.hit) {
          w := Alias(kind, p.hit);
        }
        Regroup(out, p.gap, w, HideMatches(State(), Rest(m, i + 1), kind, spare).1);
        out := out + p.gap + w;
      }
      out := out + m.tail;
    }

    method Hide(text: string, redact: string -> string, f: Finder) returns (hidden: string, ghost order: seq<string>)
      requires Valid()
      requires forall t :: AllHit(f.emails(t)) && AllHit(f.addresses(t)) && AllHit(f.domains(t))
      modifies this`to, this`back, this`counts
      ensures Valid() && Extends(old(State()), State())
      ensures Walk(order, old(to).Keys) && LongestFirst(order) && forall k <- order :: k in old(to) && |k| > 0
      ensures (hidden, State()) ==
        if text == "" then ("", old(State()))
        else if !enabled then (redact(text), old(State()))
        else var (d, t) := HideText(old(State()), redact(text), order, f, old(keep)); (t, d)
      ensures text != "" && enabled ==>
        FoundOut(old(State()), HideKnown(redact(text), order, old(to)), f, old(keep), State(), hidden)
    {
      var keys := KeysLongestFirst(to);
      order := keys;
      if text == "" {
        return text, order;
      }
      hidden := redact(text);
      if !enabled {
        return;
      }
      hidden := ReplaceKnown(hidden, keys);
      HideFoundOut(State(), hidden, f, keep);
      hidden := ReplaceFound(hidden, f);
    }

    method ReplaceKnown(text: string, keys: seq<string>) returns (hidden: string)
      requires forall k <- keys :: k in to && |k| > 0
      ensures hidden == HideKnown(text, keys, to)
    {
      hidden := text;
      for i := 0 to |keys|
        invariant HideKnown(text, keys, to) == HideKnown(hidden, keys[i..], to)
      {
        assert keys[i] in keys && keys[i..][0] == keys[i] && keys[i..][1..] == keys[i + 1..];
        hidden := ReplaceAll(hidden, keys[i], to[keys[i]]);
      }
    }

    method ReplaceFound(text: string, f: Finder) returns (hidden: string)
      requires Valid()
      requires forall t :: AllHit(f.emails(t)) && AllHit(f.addresses(t)) && AllHit(f.domains(t))
      modifies this`to, this`back, this`counts
      ensures Valid() && Extends(old(State()), State())
      ensures (State(), hidden) == HideFound(old(State()), text, f, old(keep))
    {
      hidden := text;
      var found := f.emails(hidden);
      assert AllHit(found);
      hidden := ReplaceMatches(found, "email", s => SpareNothing(s));
      found := f.addresses(hidden);
      assert AllHit(found);
      var k := keep;
      hidden := ReplaceMatches(found, "ip", s => SpareAddress(s, k));
      found := f.domains(hidden);
      assert AllHit(found);
      hidden := ReplaceMatches(found, "domain", s => SpareDomain(s));
    }

    method Reveal(text: string) returns (out: string, ghost order: seq<string>)
      requires Valid()
      ensures Walk(order, back.Keys) && LongestFirst(order) && forall k <- order :: k in back && |k| > 0
      ensures out == if enabled then RevealText(text, order, back) else text
    {
      var keys := KeysLongestFirst(back);
      order := keys;
      forall k | k in keys ensures k in back && |k| > 0 {
        assert Numbered(k, counts);
      }
      out := text;
      if !enabled || text == "" {
        NothingToReveal(keys, back);
        return;
      }
      for i := 0 to |keys|
        invariant RevealText(text, keys, back) == RevealText(out, keys[i..], back)
      {
        assert keys[i..][1..] == keys[i + 1..];
        out := ReplaceAll(out, keys[i], back[keys[i]]);
      }
    }
  }

  lemma {:induction false} NothingToReveal(keys: seq<string>, back: map<string, string>)
    requires forall k <- keys :: k in back && |k| > 0
    ensures RevealText("", keys, back) == ""
    decreases |keys|
  {
    if keys != [] {
      NothingToReveal(keys[1..], back);
    }
  }
}
