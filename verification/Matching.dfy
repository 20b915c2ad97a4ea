/** Matches of a regular expression (internal/ai/anonymize.go:132-149) that are whole
    words cut through no alias and leave the aliases standing alone. */
module Matching {
  import opened Aliases
  import opened Dictionary
  import opened Hiding
  import opened Text
  import opened WholeWords

  function TextOf(m: Matches): string
    decreases |m.parts|
  {
    if m.parts == [] then m.tail else m.parts[0].gap + m.parts[0].hit + TextOf(Rest(m, 1))
  }

  predicate EndsWord(s: string, word: char -> bool) { s == "" || !word(s[0]) }

  /** Before and after every match there is an end of the text or no character of a word;
      free tells whether a match may come first. */
  predicate WholeHits(m: Matches, free: bool, word: char -> bool)
    decreases |m.parts|
  {
    m.parts == [] ||
    var p := m.parts[0];
    && p.hit != ""
    && (if p.gap == "" then free else !word(p.gap[|p.gap| - 1]))
    && EndsWord(TextOf(Rest(m, 1)), word)
    && WholeHits(Rest(m, 1), false, word)
  }

  /** No match holds an alias as long as the one it is given. */
  predicate HitsFit(d: Dict, m: Matches, kind: string, spare: string -> bool)
    decreases |m.parts|
  {
    m.parts == [] ||
    var hit := m.parts[0].hit;
    if spare(hit) then HitsFit(d, Rest(m, 1), kind, spare)
    else
      var (e, a) := Register(d, kind, hit);
      (forall b <- d.back :: |b| >= |a| ==> !Contains(hit, b)) && HitsFit(e, Rest(m, 1), kind, spare)
  }

  // ---- from spans of the text to pieces ----

  /** Tokens are made of characters of words. */
  ghost predicate TokWords(ps: Pieces, word: char -> bool) {
    forall i :: 0 <= i < |ps| && ps[i].Tok? ==> IsWord(ps[i].alias, word)
  }

  /** The pieces that make up the first n characters. */
  function Cover(ps: Pieces, n: nat): (k: nat)
    ensures k <= |ps|
    decreases |ps|
  {
    if n == 0 || ps == [] then 0
    else
      var w := |Written(ps[0])|;
      if w >= n then 1 else 1 + Cover(ps[1..], n - w)
  }

  /** A cut that has not a character of a word on both sides goes through no token. */
  lemma {:induction false} CoverExact(ps: Pieces, n: nat, word: char -> bool)
    requires TokWords(ps, word) && n <= |Render(ps)|
    requires var r := Render(ps); n == 0 || n == |r| || !word(r[n - 1]) || !word(r[n])
    ensures var k := Cover(ps, n); Render(ps[..k]) == Render(ps)[..n] && Render(ps[k..]) == Render(ps)[n..]
    decreases |ps|
  {
    if n == 0 {
      assert ps[0..] == ps;
    } else {
      var w := |Written(ps[0])|;
      if w == n {
        SplitLater(Written(ps[0]), Render(ps[1..]), n);
      } else {
        CoverExact(ps[1..], n - w, word);
        PiecesLater(ps, Cover(ps[1..], n - w));
        SplitLater(Written(ps[0]), Render(ps[1..]), n);
      }
    }
  }

  lemma SplitLater(a: string, b: string, n: nat)
    requires |a| <= n <= |a + b|
    ensures (a + b)[..n] == a + b[..n - |a|] && (a + b)[n..] == b[n - |a|..]
  {}

  lemma PiecesLater(ps: Pieces, k: nat)
    requires ps != [] && k < |ps|
    ensures Render(ps[..1 + k]) == Written(ps[0]) + Render(ps[1..][..k]) && ps[1 + k..] == ps[1..][k..]
  {
    assert ps[..1 + k][1..] == ps[1..][..k];
  }

  /** The pieces cut as the matches cut the text. */
  function CutsFor(m: Matches, ps: Pieces): (seq<Cut>, Pieces)
    decreases |m.parts|
  {
    if m.parts == [] then ([], ps)
    else
      var g := Cover(ps, |m.parts[0].gap|);
      var h := Cover(ps[g..], |m.parts[0].hit|);
      var (cuts, tail) := CutsFor(Rest(m, 1), ps[g..][h..]);
      ([Cut(ps[..g], ps[g..][..h])] + cuts, tail)
  }

  lemma {:induction false} CutsExact(m: Matches, ps: Pieces, free: bool, word: char -> bool)
    requires TokWords(ps, word) && TextOf(m) == Render(ps) && WholeHits(m, free, word)
    ensures var (cuts, tail) := CutsFor(m, ps);
      Joined(cuts, tail) == ps && MatchesOf(cuts, tail) == m
    decreases |m.parts|
  {
    if m.parts != [] {
      var p := m.parts[0];
      var g := Cover(ps, |p.gap|);
      var q := ps[g..];
      var h := Cover(q, |p.hit|);
      FirstCut(m, ps, free, word);
      ThreeParts(ps, g, h);
      CutsExact(Rest(m, 1), q[h..], false, word);
      OneCutMore(m, ps, ps[..g], q[..h], q[h..], CutsFor(Rest(m, 1), q[h..]).0, CutsFor(Rest(m, 1), q[h..]).1);
    }
  }

  lemma ThreeParts(ps: Pieces, g: nat, h: nat)
    requires g <= |ps| && h <= |ps[g..]|
    ensures ps == ps[..g] + (ps[g..][..h] + ps[g..][h..])
  {}

  lemma OneCutMore(m: Matches, ps: Pieces, gap: Pieces, seg: Pieces, rest: Pieces, cuts: seq<Cut>, tail: Pieces)
    requires m.parts != [] && ps == gap + (seg + rest)
    requires Render(gap) == m.parts[0].gap && Render(seg) == m.parts[0].hit
    requires Joined(cuts, tail) == rest && MatchesOf(cuts, tail) == Rest(m, 1)
    ensures Joined([Cut(gap, seg)] + cuts, tail) == ps && MatchesOf([Cut(gap, seg)] + cuts, tail) == m
  {
    var all := [Cut(gap, seg)] + cuts;
    assert all[1..] == cuts && gap + (seg + rest) == gap + seg + rest;
    assert m.parts == [m.parts[0]] + Rest(m, 1).parts;
  }

  lemma FirstCut(m: Matches, ps: Pieces, free: bool, word: char -> bool)
    requires TokWords(ps, word) && TextOf(m) == Render(ps) && WholeHits(m, free, word) && m.parts != []
    ensures var p, g := m.parts[0], Cover(ps, |m.parts[0].gap|);
      var h := Cover(ps[g..], |p.hit|);
      && Render(ps[..g]) == p.gap && Render(ps[g..][..h]) == p.hit && Render(ps[g..][h..]) == TextOf(Rest(m, 1))
      && TokWords(ps[g..], word) && TokWords(ps[g..][h..], word)
  {
    var p := m.parts[0];
    var g, r := Cover(ps, |p.gap|), Render(ps);
    var after := p.hit + TextOf(Rest(m, 1));
    assert r == p.gap + after;
    CoverExact(ps, |p.gap|, word);
    assert r[..|p.gap|] == p.gap && r[|p.gap|..] == after;
    assert TokWords(ps[g..], word);
    assert after[..|p.hit|] == p.hit && after[|p.hit|..] == TextOf(Rest(m, 1));
    CoverExact(ps[g..], |p.hit|, word);
  }

  // ---- clean cuts ----

  lemma {:induction false} RenderJoined(cuts: seq<Cut>, tail: Pieces)
    ensures Render(Joined(cuts, tail)) == TextOf(MatchesOf(cuts, tail))
    decreases |cuts|
  {
    if cuts != [] {
      var rest := Joined(cuts[1..], tail);
      RenderJoined(cuts[1..], tail);
      RenderConcat(cuts[0].gap + cuts[0].seg, rest);
      RenderConcat(cuts[0].gap, cuts[0].seg);
      var m, n := MatchesOf(cuts, tail), MatchesOf(cuts[1..], tail);
      assert m.parts[1..] == n.parts && Rest(m, 1) == n;
    }
  }

  lemma {:induction false} TokenWritten(ps: Pieces, i: nat)
    requires i < |ps|
    ensures Contains(Render(ps), Written(ps[i]))
  {
    var w := Written(ps[i]);
    RenderConcat(ps[..i], ps[i..]);
    assert ps == ps[..i] + ps[i..];
    var n := |Render(ps[..i])|;
    assert Render(ps)[n..] == Render(ps[i..]);
    assert w <= Render(ps)[n..];
  }

  lemma SegmentUnder(seg: Pieces, d: Dict, n: nat, full: map<string, string>)
    requires Known(seg, full) && full.Keys <= d.back.Keys
    requires forall b <- d.back :: |b| >= n ==> !Contains(Render(seg), b)
    ensures Under(seg, n)
  {
    forall i | 0 <= i < |seg| && seg[i].Tok? ensures |seg[i].alias| < n {
      TokenWritten(seg, i);
    }
  }

  /** After a whole word no digit comes, also not in the meaning. */
  lemma BreakFirst(ps: Pieces, full: map<string, string>, word: char -> bool)
    requires TokWords(ps, word) && Known(ps, full) && EndsWord(Render(ps), word) && forall c :: IsDigit(c) ==> word(c)
    ensures EndsHere(ps, word) && !DigitFirst(Meaning(ps, full))
  {
    if ps != [] {
      assert Written(ps[0]) <= Render(ps);
      assert Render(ps)[0] == Written(ps[0])[0];
    }
  }

  lemma {:induction false} CutsWhole(d: Dict, cuts: seq<Cut>, tail: Pieces, kind: string, spare: string -> bool,
                                     full: map<string, string>, free: bool, word: char -> bool)
    requires Known(Joined(cuts, tail), full) && TokWords(Joined(cuts, tail), word) && full.Keys <= d.back.Keys
    requires WholeHits(MatchesOf(cuts, tail), free, word) && HitsFit(d, MatchesOf(cuts, tail), kind, spare)
    requires forall c :: IsDigit(c) ==> word(c)
    ensures CutsClean(d, cuts, tail, kind, spare, full)
    decreases |cuts|
  {
    if cuts != [] {
      var gap, seg, rest := cuts[0].gap, cuts[0].seg, Joined(cuts[1..], tail);
      var m, n := MatchesOf(cuts, tail), MatchesOf(cuts[1..], tail);
      assert m.parts[1..] == n.parts && Rest(m, 1) == n;
      PartsOf(gap + seg, rest, full, word);
      PartsOf(gap, seg, full, word);
      RenderJoined(cuts[1..], tail);
      BreakFirst(rest, full, word);
      if spare(Render(seg)) {
        CutsWhole(d, cuts[1..], tail, kind, spare, full, false, word);
      } else {
        var (e, a) := Register(d, kind, Render(seg));
        SegmentUnder(seg, d, |a|, full);
        CutsWhole(e, cuts[1..], tail, kind, spare, full, false, word);
      }
    }
  }

  lemma PartsOf(a: Pieces, b: Pieces, full: map<string, string>, word: char -> bool)
    requires Known(a + b, full) && TokWords(a + b, word)
    ensures Known(a, full) && TokWords(a, word) && Known(b, full) && TokWords(b, word)
  {
    assert forall i :: 0 <= i < |a| ==> a[i] == (a + b)[i];
    assert forall i :: 0 <= i < |b| ==> b[i] == (a + b)[|a| + i];
  }

  // ---- the tokens still stand alone ----

  function FreeAfter(a: Pieces, free: bool, word: char -> bool): bool {
    if a == [] then free else Break(a[|a| - 1], word)
  }

  lemma {:induction false} FramedDrop(a: Pieces, b: Pieces, free: bool, word: char -> bool)
    requires Framed(a + b, free, word)
    ensures Framed(b, FreeAfter(a, free, word), word)
  {
    if a == [] {
      assert a + b == b;
    } else {
      assert (a + b)[1..] == a[1..] + b;
      FramedDrop(a[1..], b, Break(a[0], word), word);
    }
  }

  /** A tail may be exchanged; it must not begin with a word if a token comes before it. */
  lemma {:induction false} FramedSwap(a: Pieces, b: Pieces, c: Pieces, free: bool, word: char -> bool)
    requires Framed(a + b, free, word) && Framed(c, FreeAfter(a, free, word), word)
    requires a != [] && a[|a| - 1].Tok? && EndsHere(b, word) ==> EndsHere(c, word)
    ensures Framed(a + c, free, word)
  {
    if a == [] {
      assert a + c == c;
    } else {
      assert (a + b)[1..] == a[1..] + b && (a + c)[1..] == a[1..] + c;
      FramedSwap(a[1..], b, c, Break(a[0], word), word);
    }
  }

  lemma {:induction false} LastWritten(ps: Pieces, word: char -> bool)
    requires TokWords(ps, word) && ps != []
    ensures Render(ps) != "" && (FreeAfter(ps, false, word) <==> !word(Render(ps)[|Render(ps)| - 1]))
  {
    if |ps| == 1 {
      assert ps[..1] == ps;
    } else {
      LastWritten(ps[1..], word);
    }
  }

  lemma {:induction false} MatchesFramed(d: Dict, cuts: seq<Cut>, tail: Pieces, kind: string, spare: string -> bool,
                                         may: bool, free: bool, word: char -> bool)
    requires TokWords(Joined(cuts, tail), word) && Framed(Joined(cuts, tail), free, word)
    requires WholeHits(MatchesOf(cuts, tail), may, word) && (may ==> free)
    ensures Framed(MatchPieces(d, cuts, tail, kind, spare), free, word)
    ensures !may && EndsHere(Joined(cuts, tail), word) ==> EndsHere(MatchPieces(d, cuts, tail, kind, spare), word)
    decreases |cuts|
  {
    if cuts != [] {
      var gap, seg, rest := cuts[0].gap, cuts[0].seg, Joined(cuts[1..], tail);
      var m, n := MatchesOf(cuts, tail), MatchesOf(cuts[1..], tail);
      assert m.parts[1..] == n.parts && Rest(m, 1) == n;
      var kept := spare(Render(seg));
      var e := if kept then d else Register(d, kind, Render(seg)).0;
      var next := MatchPieces(e, cuts[1..], tail, kind, spare);
      OneFramed(gap, seg, rest, may, free, word, n, cuts[1..], tail);
      if kept {
        MatchesFramed(e, cuts[1..], tail, kind, spare, false, FreeAfter(gap + seg, free, word), word);
        FramedSwap(gap + seg, rest, next, free, word);
        Kept(gap, seg, rest, next, may, word);
      } else {
        var a := Register(d, kind, Render(seg)).1;
        MatchesFramed(e, cuts[1..], tail, kind, spare, false, false, word);
        Turned(gap, seg, rest, a, next, may, free, word);
      }
    }
  }

  lemma Kept(gap: Pieces, seg: Pieces, rest: Pieces, next: Pieces, may: bool, word: char -> bool)
    requires !may ==> gap != []
    ensures gap + seg + next == gap + (seg + next)
    ensures !may && EndsHere(gap + seg + rest, word) ==> EndsHere(gap + (seg + next), word)
  {}

  lemma Turned(gap: Pieces, seg: Pieces, rest: Pieces, a: string, next: Pieces, may: bool, free: bool,
               word: char -> bool)
    requires (!may ==> gap != []) && FreeAfter(gap, free, word) && !(gap != [] && gap[|gap| - 1].Tok?)
    requires Framed(gap + seg + rest, free, word) && Framed(next, false, word) && EndsHere(next, word)
    ensures Framed(gap + ([Tok(a)] + next), free, word)
    ensures !may && EndsHere(gap + seg + rest, word) ==> EndsHere(gap + ([Tok(a)] + next), word)
  {
    assert ([Tok(a)] + next)[1..] == next;
    assert gap + seg + rest == gap + (seg + rest);
    FramedSwap(gap, seg + rest, [Tok(a)] + next, free, word);
  }

  lemma OneFramed(gap: Pieces, seg: Pieces, rest: Pieces, may: bool, free: bool, word: char -> bool, n: Matches,
                  cuts: seq<Cut>, tail: Pieces)
    requires rest == Joined(cuts, tail) && n == MatchesOf(cuts, tail)
    requires TokWords(gap + seg + rest, word) && Framed(gap + seg + rest, free, word) && (may ==> free)
    requires if Render(gap) == "" then may else !word(Render(gap)[|Render(gap)| - 1])
    requires Render(seg) != "" && EndsWord(TextOf(n), word)
    ensures TokWords(rest, word) && EndsHere(rest, word)
    ensures Framed(rest, FreeAfter(gap + seg, free, word), word) && Framed(rest, false, word)
    ensures FreeAfter(gap, free, word) && !(gap != [] && gap[|gap| - 1].Tok?)
    ensures !may ==> gap != []
  {
    RenderJoined(cuts, tail);
    TokParts(gap + seg, rest, word);
    TokParts(gap, seg, word);
    FramedDrop(gap + seg, rest, free, word);
    if gap != [] {
      LastWritten(gap, word);
    }
  }

  lemma TokParts(a: Pieces, b: Pieces, word: char -> bool)
    requires TokWords(a + b, word)
    ensures TokWords(a, word) && TokWords(b, word)
  {
    assert forall i :: 0 <= i < |a| ==> a[i] == (a + b)[i];
    assert forall i :: 0 <= i < |b| ==> b[i] == (a + b)[|a| + i];
  }
}
