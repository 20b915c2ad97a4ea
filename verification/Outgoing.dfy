/** What leaves for the model when Mapper.Hide (internal/ai/anonymize.go:111-151) is done:
    which matches are replaced, by what, and what is left of the known values. */
module Outgoing {
  import opened Aliases
  import opened Anonymizer
  import opened Dictionary
  import opened Hiding
  import opened Matching
  import opened Text
  import opened WholeWords

  /** The text with the word ws[i] in the place of match i. */
  function Put(m: Matches, ws: seq<string>): string
    requires |ws| == |m.parts|
    decreases |m.parts|
  {
    if m.parts == [] then m.tail else m.parts[0].gap + ws[0] + Put(Rest(m, 1), ws[1..])
  }

  /** A regular expression that cannot match the empty text. */
  predicate AllHit(m: Matches) { forall p <- m.parts :: p.hit != "" }

  function Hits(m: Matches): set<string> { set p | p in m.parts :: p.hit }

  /** a is the alias of the value, and the value what a is read as. */
  predicate StandsFor(a: string, orig: string, d: Dict) {
    orig in d.to && d.to[orig] == a && a in d.back && d.back[a] == orig
  }

  ghost predicate OfKind(a: string, kind: string) { exists n: nat :: a == AliasName(kind, n) }

  ghost predicate Word(d: Dict, hit: string, kind: string, stay: set<string>, e: Dict, w: string) {
    if hit in stay then w == hit else StandsFor(w, hit, e) && (hit in d.to || OfKind(w, kind))
  }

  /** The matches in stay are as they were; in the place of each other one is its alias, of
      this kind if it is new; nothing else was registered. */
  ghost predicate Replaced(d: Dict, m: Matches, kind: string, stay: set<string>, e: Dict, out: string) {
    && Extends(d, e) && e.to.Keys == d.to.Keys + (Hits(m) - stay)
    && exists ws :: AreWords(d, m, kind, stay, e, ws) && out == Put(m, ws)
  }

  ghost predicate AreWords(d: Dict, m: Matches, kind: string, stay: set<string>, e: Dict, ws: seq<string>) {
    |ws| == |m.parts| && forall i :: 0 <= i < |ws| ==> Word(d, m.parts[i].hit, kind, stay, e, ws[i])
  }

  /** The addresses that give nothing away, or were given to Keep. */
  ghost function PlainAddresses(m: Matches, keep: set<string>): set<string> {
    set h | h in Hits(m) && ((exists rest :: h == "127." + rest) || h == "0.0.0.0" || h in keep)
  }

  const FILE_ENDS := [".service", ".conf", ".yml", ".yaml", ".json", ".sock", ".pem", ".key", ".log"]

  ghost predicate EndsIn(s: string, ending: string) { exists p :: s == p + ending }

  /** The names of files and units. */
  ghost function FileNames(m: Matches): set<string> {
    set h | h in Hits(m) && exists i :: 0 <= i < 9 && EndsIn(h, FILE_ENDS[i])
  }

  /** The three expressions, each on what the one before left. */
  ghost predicate FoundOut(d: Dict, text: string, f: Finder, keep: set<string>, e: Dict, out: string) {
    exists d1, t1, d2, t2 ::
      && Replaced(d, f.emails(text), "email", {}, d1, t1)
      && Replaced(d1, f.addresses(t1), "ip", PlainAddresses(f.addresses(t1), keep), d2, t2)
      && Replaced(d2, f.domains(t2), "domain", FileNames(f.domains(t2)), e, out)
  }

  // ---- the expressions ----

  lemma {:induction false} MatchesOut(d: Dict, m: Matches, kind: string, spare: string -> bool, stay: set<string>)
    returns (ws: seq<string>)
    requires ValidDict(d) && AllHit(m) && forall h <- Hits(m) :: spare(h) <==> h in stay
    ensures var (e, out) := HideMatches(d, m, kind, spare);
      && ValidDict(e) && Extends(d, e) && e.to.Keys == d.to.Keys + (Hits(m) - stay)
      && AreWords(d, m, kind, stay, e, ws) && out == Put(m, ws)
    decreases |m.parts|
  {
    if m.parts == [] {
      ws := [];
    } else {
      var hit, rest := m.parts[0].hit, Rest(m, 1);
      assert m.parts[0] in m.parts && hit in Hits(m);
      HitsNext(m);
      var (d1, w) := if spare(hit) then (d, hit) else Register(d, kind, hit);
      if !spare(hit) {
        RegisterKeepsDict(d, kind, hit);
      }
      var more := MatchesOut(d1, rest, kind, spare, stay);
      var (e, out) := HideMatches(d1, rest, kind, spare);
      HeadMatch(d, m, kind, spare, d1, w);
      FirstWord(d, m, kind, stay, d1, w, e, more);
      FirstKeys(d, m, kind, stay, d1, e);
      ws := [w] + more;
    }
  }

  lemma HeadMatch(d: Dict, m: Matches, kind: string, spare: string -> bool, d1: Dict, w: string)
    requires m.parts != []
    requires (d1, w) == if spare(m.parts[0].hit) then (d, m.parts[0].hit) else Register(d, kind, m.parts[0].hit)
    ensures var (e, out) := HideMatches(d1, Rest(m, 1), kind, spare);
      HideMatches(d, m, kind, spare) == (e, m.parts[0].gap + w + out)
  {}

  lemma FirstKeys(d: Dict, m: Matches, kind: string, stay: set<string>, d1: Dict, e: Dict)
    requires m.parts != [] && e.to.Keys == d1.to.Keys + (Hits(Rest(m, 1)) - stay)
    requires d1 == if m.parts[0].hit in stay then d else Register(d, kind, m.parts[0].hit).0
    ensures e.to.Keys == d.to.Keys + (Hits(m) - stay)
  {
    HitsNext(m);
  }

  lemma HitsNext(m: Matches)
    requires m.parts != []
    ensures Hits(m) == {m.parts[0].hit} + Hits(Rest(m, 1))
    ensures AllHit(m) ==> AllHit(Rest(m, 1))
  {
    assert m.parts == [m.parts[0]] + m.parts[1..];
  }

  lemma FirstWord(d: Dict, m: Matches, kind: string, stay: set<string>, d1: Dict, w: string, e: Dict,
                  more: seq<string>)
    requires m.parts != [] && AreWords(d1, Rest(m, 1), kind, stay, e, more)
    requires (d1, w) == if m.parts[0].hit in stay then (d, m.parts[0].hit) else Register(d, kind, m.parts[0].hit)
    requires m.parts[0].hit in stay || StandsFor(w, m.parts[0].hit, d1)
    requires Extends(d, d1) && Extends(d1, e)
    ensures AreWords(d, m, kind, stay, e, [w] + more)
    ensures Put(m, [w] + more) == m.parts[0].gap + w + Put(Rest(m, 1), more)
  {
    var hit, ws := m.parts[0].hit, [w] + more;
    assert ws[1..] == more;
    if hit !in stay && hit !in d.to {
      assert w == AliasName(kind, Count(d, kind) + 1);
    }
    forall i | 0 <= i < |ws| ensures Word(d, m.parts[i].hit, kind, stay, e, ws[i]) {
      if i > 0 {
        assert Word(d1, Rest(m, 1).parts[i - 1].hit, kind, stay, e, more[i - 1]);
      }
    }
  }

  lemma SparedAddress(h: string, keep: set<string>)
    ensures SpareAddress(h, keep) <==> (exists rest :: h == "127." + rest) || h == "0.0.0.0" || h in keep
  {
    if "127." <= h {
      assert h == "127." + h[4..];
    }
  }

  lemma SuffixEnds(s: string, ending: string)
    ensures HasSuffix(s, ending) <==> EndsIn(s, ending)
  {
    if HasSuffix(s, ending) {
      assert s == s[..|s| - |ending|] + ending;
    }
  }

  lemma SparedDomain(h: string)
    ensures SpareDomain(h) <==> exists i :: 0 <= i < 9 && EndsIn(h, FILE_ENDS[i])
  {
    forall i | 0 <= i < 9 ensures HasSuffix(h, FILE_ENDS[i]) <==> EndsIn(h, FILE_ENDS[i]) {
      SuffixEnds(h, FILE_ENDS[i]);
    }
    assert FILE_ENDS[0] == ".service" && FILE_ENDS[1] == ".conf" && FILE_ENDS[2] == ".yml" && FILE_ENDS[3] == ".yaml"
      && FILE_ENDS[4] == ".json" && FILE_ENDS[5] == ".sock" && FILE_ENDS[6] == ".pem" && FILE_ENDS[7] == ".key"
      && FILE_ENDS[8] == ".log";
  }

  /** Every e-mail is replaced; every address but loopback, 0.0.0.0 and those to be kept; every
      domain but the names of files and units; nothing else is. */
  lemma HideFoundOut(d: Dict, text: string, f: Finder, keep: set<string>)
    requires ValidDict(d) && forall t :: AllHit(f.emails(t)) && AllHit(f.addresses(t)) && AllHit(f.domains(t))
    ensures FoundOut(d, text, f, keep, HideFound(d, text, f, keep).0, HideFound(d, text, f, keep).1)
  {
    var (d1, t1) := HideMatches(d, f.emails(text), "email", s => SpareNothing(s));
    assert AllHit(f.emails(text));
    var ws := MatchesOut(d, f.emails(text), "email", s => SpareNothing(s), {});
    assert Replaced(d, f.emails(text), "email", {}, d1, t1);
    var m := f.addresses(t1);
    assert AllHit(m);
    var (d2, t2) := HideMatches(d1, m, "ip", s => SpareAddress(s, keep));
    forall h <- Hits(m) ensures SpareAddress(h, keep) <==> h in PlainAddresses(m, keep) {
      SparedAddress(h, keep);
    }
    ws := MatchesOut(d1, m, "ip", s => SpareAddress(s, keep), PlainAddresses(m, keep));
    assert Replaced(d1, m, "ip", PlainAddresses(m, keep), d2, t2);
    var n := f.domains(t2);
    assert AllHit(n);
    forall h <- Hits(n) ensures SpareDomain(h) <==> h in FileNames(n) {
      SparedDomain(h);
    }
    ws := MatchesOut(d2, n, "domain", s => SpareDomain(s), FileNames(n));
  }

  // ---- the known values ----

  /** Nowhere is the name spelled by literals. */
  predicate Unspelled(ps: Pieces, name: string) {
    ps == [] || (!LitsAt(ps, name) && Unspelled(ps[1..], name))
  }

  lemma {:induction false} ScanSpells(ps: Pieces, name: string, a: string)
    requires |name| > 0
    ensures Unspelled(NamePieces(ps, name, a), name)
    decreases |ps|
  {
    if ps != [] {
      var out := NamePieces(ps, name, a);
      if LitsAt(ps, name) {
        ScanSpells(ps[|name|..], name, a);
        assert Lits(name)[0] == Lit(name[0]);
        assert out[1..] == NamePieces(ps[|name|..], name, a);
      } else {
        ScanSpells(ps[1..], name, a);
        assert out[1..] == NamePieces(ps[1..], name, a);
        if LitsAt(out, name) {
          SpelledBefore(ps, name, a, name, c => true);
        }
      }
    }
  }

  lemma {:induction false} UnspelledLater(ps: Pieces, name: string, n: nat)
    requires Unspelled(ps, name) && n <= |ps|
    ensures Unspelled(ps[n..], name)
  {
    if n == 0 {
      assert ps[0..] == ps;
    } else {
      UnspelledLater(ps[1..], name, n - 1);
      assert ps[1..][n - 1..] == ps[n..];
    }
  }

  lemma {:induction false} StaysUnspelled(ps: Pieces, name: string, a: string, other: string)
    requires |name| > 0 && |other| > 0 && Unspelled(ps, other)
    ensures Unspelled(NamePieces(ps, name, a), other)
    decreases |ps|
  {
    if ps != [] {
      var out := NamePieces(ps, name, a);
      if LitsAt(ps, name) {
        UnspelledLater(ps, other, |name|);
        StaysUnspelled(ps[|name|..], name, a, other);
        assert Lits(other)[0] == Lit(other[0]);
        assert out[1..] == NamePieces(ps[|name|..], name, a);
      } else {
        StaysUnspelled(ps[1..], name, a, other);
        assert out[1..] == NamePieces(ps[1..], name, a);
        if LitsAt(out, other) {
          SpelledBefore(ps, name, a, other, c => true);
        }
      }
    }
  }

  /** A scan that meets the name only as literals replaces exactly those. */
  lemma {:induction false} CleanScan(ps: Pieces, name: string, a: string, full: map<string, string>)
    requires |name| > 0 && Known(ps, full) && NameClean(ps, name, full)
    ensures ReplaceAll(Render(ps), name, a) == Render(NamePieces(ps, name, a))
    decreases |ps|
  {
    if ps != [] {
      if LitsAt(ps, name) {
        var rest := ps[|name|..];
        LitsRender(ps, name, full);
        CleanScan(rest, name, a, full);
        assert Render(ps)[|name|..] == Render(rest);
      } else {
        var w := Written(ps[0]);
        CleanScan(ps[1..], name, a, full);
        ReplaceAllSkips(Render(ps), name, a, |w|);
        assert Render(ps)[..|w|] == w && Render(ps)[|w|..] == Render(ps[1..]);
      }
    }
  }

  /** An unspelled word is nowhere in a text whose aliases stand alone. */
  lemma {:induction false} UnspelledIsGone(ps: Pieces, free: bool, name: string, word: char -> bool)
    requires Framed(ps, free, word) && IsWord(name, word) && OutsideAll(name, ps) && Unspelled(ps, name)
    ensures !Contains(Render(ps), name)
    decreases |ps|
  {
    var r := Render(ps);
    if ps != [] {
      UnspelledIsGone(ps[1..], Break(ps[0], word), name, word);
    }
    forall i | 0 <= i <= |r| ensures !(name <= r[i..]) {
      if ps != [] {
        NotBefore(ps, free, name, word, i);
      }
    }
  }

  lemma NotBefore(ps: Pieces, free: bool, name: string, word: char -> bool, i: nat)
    requires Framed(ps, free, word) && IsWord(name, word) && OutsideAll(name, ps) && ps != [] && i <= |Render(ps)|
    requires !LitsAt(ps, name) && !Contains(Render(ps[1..]), name)
    ensures !(name <= Render(ps)[i..])
  {
    var w := |Written(ps[0])|;
    if i >= w {
      assert Render(ps)[i..] == Render(ps[1..])[i - w..];
    } else if name <= Render(ps)[i..] {
      MetAsLiterals(ps, free, name, i, word);
    }
  }

  /** Where known values are whole words, no known value is left anywhere once they are replaced,
      and the text reads as pieces whose aliases stand alone. */
  lemma {:induction false} KnownGone(ps: Pieces, keys: seq<string>, to: map<string, string>,
                                     full: map<string, string>, word: char -> bool, name: string)
    requires Known(ps, full) && (forall c :: IsDigit(c) ==> word(c)) && Framed(ps, true, word)
    requires forall k <- keys :: k in to && |k| > 0 && to[k] in full
    requires forall k <- keys :: IsWord(k, word) && Whole(ps, true, k, word) && OutsideAll(k, ps)
    requires forall k <- keys, l <- keys :: Outside(k, to[l])
    requires IsWord(name, word) && OutsideAll(name, ps) && forall l <- keys :: Outside(name, to[l])
    requires name in keys || Unspelled(ps, name)
    ensures !Contains(HideKnown(Render(ps), keys, to), name)
    decreases |keys|
  {
    if keys == [] {
      UnspelledIsGone(ps, true, name, word);
    } else {
      var first, a := keys[0], to[keys[0]];
      var next := NamePieces(ps, first, a);
      assert first in keys && Outside(first, a);
      WordClean(ps, true, first, full, word);
      CleanScan(ps, first, a, full);
      WordKeeps(ps, true, first, a, first, word);
      TokensOutside(ps, first, a, name, full);
      forall k | k in keys[1..] ensures k in keys && Whole(next, true, k, word) && OutsideAll(k, next) {
        assert k in keys;
        WordKeeps(ps, true, first, a, k, word);
        TokensOutside(ps, first, a, k, full);
      }
      if name == first {
        ScanSpells(ps, first, a);
      } else if name !in keys[1..] {
        StaysUnspelled(ps, first, a, name);
      }
      KnownGone(next, keys[1..], to, full, word, name);
    }
  }

  /** If the known values are whole words of the text and no part of an alias, none of them is
      left in it after the pass over them, in whatever order they are taken. */
  lemma NoneKnownLeaves(x: string, keys: seq<string>, to: map<string, string>, word: char -> bool)
    requires forall c :: IsDigit(c) ==> word(c)
    requires forall k <- keys :: k in to && |k| > 0 && IsWord(k, word) && WholeIn(x, k, word)
    requires forall k <- keys, l <- keys :: Outside(k, to[l])
    ensures forall k <- keys :: !Contains(HideKnown(x, keys, to), k)
  {
    var full := map a | a in to.Values :: a;
    LitsMean(x, full);
    LitsFramed(x, true, word);
    forall k <- keys ensures Whole(Lits(x), true, k, word) && OutsideAll(k, Lits(x)) {
      PlainWhole(x, true, k, word);
      PlainOutside(x, k);
    }
    forall k <- keys ensures !Contains(HideKnown(x, keys, to), k) {
      KnownGone(Lits(x), keys, to, full, word, k);
    }
  }
}
