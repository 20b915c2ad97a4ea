/** The dictionary of one request (internal/ai/anonymize.go): real values and
    the aliases that stand for them. */
module Dictionary {
  import opened Text

  datatype Dict = Dict(to: map<string, string>, back: map<string, string>, counts: map<string, nat>)

  const Empty := Dict(map[], map[], map[])

  function Count(d: Dict, kind: string): nat {
    if kind in d.counts then d.counts[kind] else 0
  }

  function AliasName(kind: string, n: nat): string { kind + "-" + Dec(n) }

  /** alias(kind, original): the known alias, or the next number of the kind. */
  function Register(d: Dict, kind: string, orig: string): (Dict, string) {
    if orig in d.to then (d, d.to[orig])
    else
      var n := Count(d, kind) + 1;
      var a := AliasName(kind, n);
      (Dict(d.to[orig := a], d.back[a := orig], d.counts[kind := n]), a)
  }

  ghost predicate Numbered(a: string, counts: map<string, nat>) {
    exists kind, n :: kind in counts && 1 <= n <= counts[kind] && a == AliasName(kind, n)
  }

  /** The two maps are inverse to one another and no number was given twice. */
  ghost predicate ValidDict(d: Dict) {
    && (forall r <- d.to :: r != "" && d.to[r] in d.back && d.back[d.to[r]] == r)
    && (forall a <- d.back :: d.back[a] in d.to && d.to[d.back[a]] == a)
    && (forall a <- d.back :: Numbered(a, d.counts))
  }

  predicate Extends(d: Dict, e: Dict) {
    && (forall r <- d.to :: r in e.to && e.to[r] == d.to[r])
    && (forall a <- d.back :: a in e.back && e.back[a] == d.back[a])
  }

  lemma AliasNameInjective(k: string, n: nat, l: string, m: nat)
    requires AliasName(k, n) == AliasName(l, m)
    ensures k == l && n == m
  {
    var s, x, y := AliasName(k, n), Dec(n), Dec(m);
    assert s[|k|] == '-' && s[|k| + 1..] == x;
    assert s[|l|] == '-' && s[|l| + 1..] == y;
    assert forall i :: |k| < i < |s| ==> s[i] == x[i - |k| - 1] && IsDigit(s[i]);
    assert forall i :: |l| < i < |s| ==> s[i] == y[i - |l| - 1] && IsDigit(s[i]);
    assert |k| == |l|;
    assert s[..|k|] == k && s[..|l|] == l;
    DecInjective(n, m);
  }

  /** A new alias is not in use yet; nothing already agreed changes. */
  lemma RegisterKeepsDict(d: Dict, kind: string, orig: string)
    requires ValidDict(d) && orig != ""
    ensures var (e, a) := Register(d, kind, orig);
      ValidDict(e) && Extends(d, e) && orig in e.to && e.to[orig] == a && a in e.back && e.back[a] == orig
    ensures orig !in d.to ==> Register(d, kind, orig).1 !in d.back
  {
    var (e, a) := Register(d, kind, orig);
    if orig !in d.to {
      var n := Count(d, kind) + 1;
      if a in d.back {
        var k, m :| k in d.counts && 1 <= m <= d.counts[k] && a == AliasName(k, m);
        AliasNameInjective(kind, n, k, m);
      }
      forall b <- e.back ensures Numbered(b, e.counts) {
        if b == a {
          assert kind in e.counts && 1 <= n <= e.counts[kind] && b == AliasName(kind, n);
        } else {
          var k, m :| k in d.counts && 1 <= m <= d.counts[k] && b == AliasName(k, m);
          assert k in e.counts && 1 <= m <= e.counts[k] && b == AliasName(k, m);
        }
      }
    }
  }
}
