/** Mapper.Hide (internal/ai/anonymize.go) on values: known values by
    ReplaceAll, then e-mails, addresses and domains by their match spans. */
module Hiding {
  import opened Aliases
  import opened Dictionary
  import opened Revealing
  import opened Text

  // ---- the text that leaves ----

  /** The known values in the order sort gave, each replaced by its alias. */
  function HideKnown(text: string, keys: seq<string>, to: map<string, string>): string
    requires forall k <- keys :: k in to && |k| > 0
    decreases |keys|
  {
    if keys == [] then text
    else HideKnown(ReplaceAll(text, keys[0], to[keys[0]]), keys[1..], to)
  }

  /** A stretch of text without a match, then one match. */
  datatype Part = Part(gap: string, hit: string)

  /** What a regular expression finds: the text cut at its matches. */
  datatype Matches = Matches(parts: seq<Part>, tail: string)

  /** What is left from match i on. */
  function Rest(m: Matches, i: nat): Matches
    requires i <= |m.parts|
  {
    Matches(m.parts[i..], m.tail)
  }

  /** ReplaceAllStringFunc with alias(kind, match); matches in spare stay. */
  function HideMatches(d: Dict, m: Matches, kind: string, spare: string -> bool): (Dict, string)
    decreases |m.parts|
  {
    if m.parts == [] then (d, m.tail)
    else
      var hit := m.parts[0].hit;
      var (e, w) := if spare(hit) then (d, hit) else Register(d, kind, hit);
      var (f, rest) := HideMatches(e, Matches(m.parts[1..], m.tail), kind, spare);
      (f, m.parts[0].gap + w + rest)
  }

  // ---- the same on pieces ----

  function Lits(s: string): (ps: Pieces)
    ensures |ps| == |s|
  {
    if s == "" then [] else [Lit(s[0])] + Lits(s[1..])
  }

  predicate LitsAt(ps: Pieces, name: string) { Lits(name) <= ps }

  function NamePieces(ps: Pieces, name: string, a: string): Pieces
    requires |name| > 0
    decreases |ps|
  {
    if ps == [] then []
    else if LitsAt(ps, name) then [Tok(a)] + NamePieces(ps[|name|..], name, a)
    else [ps[0]] + NamePieces(ps[1..], name, a)
  }

  /** Scanning for the name never meets it in or across an alias already put
      in, nor right before a digit. */
  ghost predicate NameClean(ps: Pieces, name: string, full: map<string, string>)
    requires |name| > 0 && Known(ps, full)
    decreases |ps|
  {
    if ps == [] then true
    else if LitsAt(ps, name) then
      !DigitFirst(Meaning(ps[|name|..], full)) && NameClean(ps[|name|..], name, full)
    else
      && (forall k :: 0 <= k < |Written(ps[0])| ==> !(name <= Render(ps)[k..]))
      && NameClean(ps[1..], name, full)
  }

  function KnownPieces(ps: Pieces, keys: seq<string>, to: map<string, string>): Pieces
    requires forall k <- keys :: k in to && |k| > 0
    decreases |keys|
  {
    if keys == [] then ps else KnownPieces(NamePieces(ps, keys[0], to[keys[0]]), keys[1..], to)
  }

  ghost predicate KnownClean(ps: Pieces, keys: seq<string>, to: map<string, string>, full: map<string, string>)
    requires forall k <- keys :: k in to && |k| > 0
    decreases |keys|
  {
    keys == [] ||
    (Known(ps, full) && NameClean(ps, keys[0], full) &&
      KnownClean(NamePieces(ps, keys[0], to[keys[0]]), keys[1..], to, full))
  }

  /** A gap and a match that do not cut through an alias. */
  datatype Cut = Cut(gap: Pieces, seg: Pieces)

  function Joined(cuts: seq<Cut>, tail: Pieces): Pieces
    decreases |cuts|
  {
    if cuts == [] then tail else cuts[0].gap + cuts[0].seg + Joined(cuts[1..], tail)
  }

  /** The cuts, as the regular expression sees them. */
  function MatchesOf(cuts: seq<Cut>, tail: Pieces): (m: Matches)
    ensures |m.parts| == |cuts|
    decreases |cuts|
  {
    if cuts == [] then Matches([], Render(tail))
    else
      var m := MatchesOf(cuts[1..], tail);
      Matches([Part(Render(cuts[0].gap), Render(cuts[0].seg))] + m.parts, m.tail)
  }

  /** No match is followed by a digit, and none holds an alias as long as its own. */
  ghost predicate CutsClean(d: Dict, cuts: seq<Cut>, tail: Pieces, kind: string, spare: string -> bool,
                            full: map<string, string>)
    decreases |cuts|
  {
    cuts == [] ||
    var seg, rest := cuts[0].seg, Joined(cuts[1..], tail);
    if spare(Render(seg)) then CutsClean(d, cuts[1..], tail, kind, spare, full)
    else
      var (e, a) := Register(d, kind, Render(seg));
      && Render(seg) != "" && Under(seg, |a|)
      && Known(rest, full) && !DigitFirst(Meaning(rest, full))
      && CutsClean(e, cuts[1..], tail, kind, spare, full)
  }

  /** The book after alias(kind, seg). */
  function AddTo(d: Dict, book: Book, kind: string, seg: Pieces): Book {
    var a := Register(d, kind, Render(seg)).1;
    if Render(seg) in d.to || !Known(seg, book.full) then book
    else Book(book.entries[a := seg], book.full[a := Meaning(seg, book.full)])
  }

  /** The book after all the matches. */
  function MatchBook(d: Dict, book: Book, cuts: seq<Cut>, kind: string, spare: string -> bool): Book
    decreases |cuts|
  {
    if cuts == [] then book
    else
      var seg := cuts[0].seg;
      if spare(Render(seg)) then MatchBook(d, book, cuts[1..], kind, spare)
      else MatchBook(Register(d, kind, Render(seg)).0, AddTo(d, book, kind, seg), cuts[1..], kind, spare)
  }

  /** The text after all the matches. */
  function MatchPieces(d: Dict, cuts: seq<Cut>, tail: Pieces, kind: string, spare: string -> bool): Pieces
    decreases |cuts|
  {
    if cuts == [] then tail
    else
      var gap, seg := cuts[0].gap, cuts[0].seg;
      var (e, swap) := if spare(Render(seg)) then (d, seg)
                       else (Register(d, kind, Render(seg)).0, [Tok(Register(d, kind, Render(seg)).1)]);
      gap + (swap + MatchPieces(e, cuts[1..], tail, kind, spare))
  }

  // ---- known values ----

  /** A value that does not itself hold an alias means itself. */
  lemma PlainEntry(a: string, name: string, book: Book, kinds: set<string>)
    requires a in book.entries && a in book.full && EntryOk(a, name, book, kinds)
    requires AliasFree(name, kinds)
    ensures book.full[a] == name
  {
    var e := book.entries[a];
    forall i | 0 <= i < |e| ensures e[i].Lit? {
      if e[i].Tok? {
        TokenShows(e, i, kinds);
      }
    }
    NoTokensIsText(e, book.full);
  }

  lemma TokenShows(e: Pieces, i: nat, kinds: set<string>)
    requires i < |e| && e[i].Tok? && IsAlias(e[i].alias, kinds)
    ensures !AliasFree(Render(e), kinds)
  {
    var k :| k in kinds && AliasWord(e[i].alias, k);
    var d := StemOf(e[i].alias, k);
    RenderConcat(e[..i], e[i..]);
    assert e == e[..i] + e[i..];
    TokenFirst(e[i..], k, d);
    ReadsBehind(Render(e[..i]), Render(e[i..]), k, d);
  }

  lemma TokenFirst(ps: Pieces, k: string, d: char)
    requires ps != [] && ps[0].Tok? && Stem(k, d) <= ps[0].alias
    ensures Stem(k, d) <= Render(ps)
  {}

  lemma ReadsBehind(a: string, b: string, k: string, d: char)
    requires Stem(k, d) <= b
    ensures ReadsAt(a + b, |a|, k, d)
  {
    assert (a + b)[|a|..] == b;
  }

  lemma {:induction false} LitsMean(s: string, full: map<string, string>)
    ensures Known(Lits(s), full) && Render(Lits(s)) == s && Meaning(Lits(s), full) == s
  {
    if s != "" {
      LitsMean(s[1..], full);
    }
  }

  lemma LitsRender(ps: Pieces, name: string, full: map<string, string>)
    requires LitsAt(ps, name) && Known(ps, full)
    ensures Render(ps) == name + Render(ps[|name|..])
    ensures Meaning(ps, full) == name + Meaning(ps[|name|..], full)
  {
    var rest := ps[|name|..];
    assert ps == Lits(name) + rest;
    LitsMean(name, full);
    RenderConcat(Lits(name), rest);
    MeaningConcat(Lits(name), rest, full);
  }

  lemma {:induction false} LegibleDrop(ps: Pieces, n: nat, full: map<string, string>, kinds: set<string>)
    requires Legible(ps, full, kinds) && n <= |ps|
    ensures Legible(ps[n..], full, kinds)
    decreases n
  {
    if n == 0 {
      assert ps[n..] == ps;
    } else {
      LegibleTail(ps, full, kinds);
      LegibleDrop(ps[1..], n - 1, full, kinds);
      assert ps[1..][n - 1..] == ps[n..];
    }
  }

  /** A token, or any piece with its own meaning, put in front of a legible text. */
  lemma LegibleCons(p: Piece, out: Pieces, m: string, full: map<string, string>, kinds: set<string>)
    requires Legible(out, full, kinds)
    requires p.Tok? ==> p.alias in full && full[p.alias] == m && IsAlias(p.alias, kinds)
    requires p.Tok? ==> !DigitFirst(Meaning(out, full))
    requires p.Lit? ==> m == [p.c]
    requires AliasFree(m + Meaning(out, full), kinds)
    ensures Legible([p] + out, full, kinds)
    ensures Meaning([p] + out, full) == m + Meaning(out, full)
    ensures Render([p] + out) == Written(p) + Render(out)
  {
    var all := [p] + out;
    assert all[1..] == out;
    assert forall i :: 0 < i < |all| ==> all[i] == out[i - 1];
  }

  lemma NameHit(ps: Pieces, name: string, a: string, out: Pieces, book: Book, kinds: set<string>)
    requires |name| > 0 && Legible(ps, book.full, kinds) && LitsAt(ps, name)
    requires a in book.entries && a in book.full && EntryOk(a, name, book, kinds)
    requires Known(ps[|name|..], book.full) && !DigitFirst(Meaning(ps[|name|..], book.full))
    requires Legible(out, book.full, kinds) && Meaning(out, book.full) == Meaning(ps[|name|..], book.full)
    ensures Legible([Tok(a)] + out, book.full, kinds)
    ensures Meaning([Tok(a)] + out, book.full) == Meaning(ps, book.full)
    ensures Render([Tok(a)] + out) == a + Render(out)
    ensures ReplaceAll(Render(ps), name, a) == a + ReplaceAll(Render(ps[|name|..]), name, a)
  {
    var rest := ps[|name|..];
    LitsRender(ps, name, book.full);
    AliasFreeHalves(name, Meaning(rest, book.full), kinds);
    PlainEntry(a, name, book, kinds);
    LegibleCons(Tok(a), out, name, book.full, kinds);
    assert Render(ps)[|name|..] == Render(rest);
  }

  lemma NameMiss(ps: Pieces, name: string, a: string, out: Pieces, full: map<string, string>, kinds: set<string>)
    requires |name| > 0 && Legible(ps, full, kinds) && ps != []
    requires forall k :: 0 <= k < |Written(ps[0])| ==> !(name <= Render(ps)[k..])
    requires Legible(out, full, kinds) && Meaning(out, full) == Meaning(ps[1..], full)
    ensures Legible([ps[0]] + out, full, kinds)
    ensures Meaning([ps[0]] + out, full) == Meaning(ps, full)
    ensures Render([ps[0]] + out) == Written(ps[0]) + Render(out)
    ensures ReplaceAll(Render(ps), name, a) == Written(ps[0]) + ReplaceAll(Render(ps[1..]), name, a)
  {
    var p, w := ps[0], Written(ps[0]);
    LegibleCons(p, out, if p.Lit? then [p.c] else full[p.alias], full, kinds);
    ReplaceAllSkips(Render(ps), name, a, |w|);
    assert Render(ps)[..|w|] == w && Render(ps)[|w|..] == Render(ps[1..]);
  }

  /** Replacing one known value writes exactly the tokens and keeps the meaning. */
  lemma {:induction false} NamePass(ps: Pieces, name: string, a: string, back: map<string, string>, book: Book,
                                    kinds: set<string>)
    requires Coherent(back, book, kinds) && a in back && back[a] == name && |name| > 0
    requires Legible(ps, book.full, kinds) && NameClean(ps, name, book.full)
    ensures ReplaceAll(Render(ps), name, a) == Render(NamePieces(ps, name, a))
    ensures Legible(NamePieces(ps, name, a), book.full, kinds)
    ensures Meaning(NamePieces(ps, name, a), book.full) == Meaning(ps, book.full)
    decreases |ps|
  {
    if ps != [] {
      assert EntryOk(a, name, book, kinds);
      var hit := LitsAt(ps, name);
      var rest := if hit then ps[|name|..] else ps[1..];
      var out := NamePieces(rest, name, a);
      if hit {
        LegibleDrop(ps, |name|, book.full, kinds);
        NamePass(rest, name, a, back, book, kinds);
        NameHit(ps, name, a, out, book, kinds);
      } else {
        LegibleTail(ps, book.full, kinds);
        NamePass(rest, name, a, back, book, kinds);
        NameMiss(ps, name, a, out, book.full, kinds);
      }
    }
  }

  lemma {:induction false} KnownPass(ps: Pieces, keys: seq<string>, d: Dict, book: Book, kinds: set<string>)
    requires ValidDict(d) && Coherent(d.back, book, kinds) && Legible(ps, book.full, kinds)
    requires forall k <- keys :: k in d.to && |k| > 0
    requires KnownClean(ps, keys, d.to, book.full)
    ensures HideKnown(Render(ps), keys, d.to) == Render(KnownPieces(ps, keys, d.to))
    ensures Legible(KnownPieces(ps, keys, d.to), book.full, kinds)
    ensures Meaning(KnownPieces(ps, keys, d.to), book.full) == Meaning(ps, book.full)
    decreases |keys|
  {
    if keys != [] {
      var a := d.to[keys[0]];
      NamePass(ps, keys[0], a, d.back, book, kinds);
      KnownPass(NamePieces(ps, keys[0], a), keys[1..], d, book, kinds);
    }
  }

  // ---- one reading of a text ----

  /** A text has at most one legible reading. */
  lemma {:induction false} OneReading(x: Pieces, y: Pieces, full: map<string, string>, kinds: set<string>)
    requires GoodKinds(kinds) && Legible(x, full, kinds) && Legible(y, full, kinds)
    requires Render(x) == Render(y)
    ensures x == y
    decreases |x|
  {
    if x == [] || y == [] {
    } else {
      OneHead(x, y, full, kinds);
      LegibleTail(x, full, kinds);
      LegibleTail(y, full, kinds);
      SameTail(x, y);
      OneReading(x[1..], y[1..], full, kinds);
      assert x == [x[0]] + x[1..] && y == [y[0]] + y[1..];
    }
  }

  lemma OneHead(x: Pieces, y: Pieces, full: map<string, string>, kinds: set<string>)
    requires GoodKinds(kinds) && Legible(x, full, kinds) && Legible(y, full, kinds)
    requires Render(x) == Render(y) && x != [] && y != []
    ensures x[0] == y[0]
  {
    SameHead(x, y, full, kinds);
    SameHead(y, x, full, kinds);
  }

  lemma SameTail(x: Pieces, y: Pieces)
    requires x != [] && y != [] && x[0] == y[0] && Render(x) == Render(y)
    ensures Render(x[1..]) == Render(y[1..])
  {
    var n := |Written(x[0])|;
    assert Render(x)[n..] == Render(x[1..]) && Render(y)[n..] == Render(y[1..]);
  }

  lemma SameHead(x: Pieces, y: Pieces, full: map<string, string>, kinds: set<string>)
    requires GoodKinds(kinds) && Legible(x, full, kinds) && Legible(y, full, kinds)
    requires Render(x) == Render(y) && x != [] && y != []
    ensures x[0].Tok? ==> y[0].Tok? && x[0].alias <= y[0].alias
    ensures x[0].Lit? && y[0].Lit? ==> x[0] == y[0]
  {
    var r := Render(y);
    if x[0].Tok? {
      TokenIsRead(y, x[0].alias, full, kinds);
    } else {
      assert r[0] == x[0].c;
    }
  }

  lemma TokenIsRead(y: Pieces, a: string, full: map<string, string>, kinds: set<string>)
    requires GoodKinds(kinds) && IsAlias(a, kinds) && Legible(y, full, kinds) && y != [] && a <= Render(y)
    ensures y[0].Tok? && a <= y[0].alias
  {
    if y[0].Lit? {
      LiteralStartsNoAlias(y, a, full, kinds);
    } else {
      var k :| k in kinds && AliasWord(y[0].alias, k);
      assert Render(y)[0..] == Render(y);
      TokenStartsAlias(y, a, 0, full, kinds);
    }
  }

  // ---- a part of a legible text ----

  lemma {:induction false} SpacedPart(a: Pieces, b: Pieces, full: map<string, string>)
    requires Known(a + b, full) && Spaced(a + b, full)
    ensures Known(a, full) && Known(b, full) && Spaced(a, full) && Spaced(b, full)
    decreases |a|
  {
    assert forall i :: 0 <= i < |a| ==> a[i] == (a + b)[i];
    assert forall i :: 0 <= i < |b| ==> b[i] == (a + b)[|a| + i];
    if a == [] {
      assert a + b == b;
    } else {
      assert (a + b)[1..] == a[1..] + b;
      SpacedPart(a[1..], b, full);
      MeaningConcat(a[1..], b, full);
    }
  }

  lemma LegibleHalves(a: Pieces, b: Pieces, full: map<string, string>, kinds: set<string>)
    requires Legible(a + b, full, kinds)
    ensures Legible(a, full, kinds) && Legible(b, full, kinds)
    ensures Meaning(a + b, full) == Meaning(a, full) + Meaning(b, full)
  {
    SpacedPart(a, b, full);
    MeaningConcat(a, b, full);
    assert forall i :: 0 <= i < |a| ==> a[i] == (a + b)[i];
    assert forall i :: 0 <= i < |b| ==> b[i] == (a + b)[|a| + i];
    AliasFreeHalves(Meaning(a, full), Meaning(b, full), kinds);
  }

  /** A tail may be exchanged for one of the same meaning. */
  lemma {:induction false} SpacedSwap(a: Pieces, b: Pieces, c: Pieces, full: map<string, string>)
    requires Known(a + b, full) && Spaced(a + b, full)
    requires Known(c, full) && Spaced(c, full) && Known(b, full) && Meaning(b, full) == Meaning(c, full)
    ensures Known(a + c, full) && Spaced(a + c, full) && Meaning(a + c, full) == Meaning(a + b, full)
    decreases |a|
  {
    if a == [] {
      assert a + b == b && a + c == c;
    } else {
      SpacedFirst(a, b, full);
      SpacedSwap(a[1..], b, c, full);
      SpacedCons(a, c, full);
    }
  }

  lemma SpacedFirst(a: Pieces, b: Pieces, full: map<string, string>)
    requires a != [] && Known(a + b, full) && Spaced(a + b, full)
    ensures Known(a[1..] + b, full) && Spaced(a[1..] + b, full)
    ensures a[0].Tok? ==> a[0].alias in full && !DigitFirst(Meaning(a[1..] + b, full))
    ensures Meaning(a + b, full)
      == (if a[0].Lit? then [a[0].c] else full[a[0].alias]) + Meaning(a[1..] + b, full)
  {
    assert (a + b)[1..] == a[1..] + b && (a + b)[0] == a[0];
  }

  lemma SpacedCons(a: Pieces, c: Pieces, full: map<string, string>)
    requires a != [] && Known(a[1..] + c, full) && Spaced(a[1..] + c, full)
    requires a[0].Tok? ==> a[0].alias in full && !DigitFirst(Meaning(a[1..] + c, full))
    ensures Known(a + c, full) && Spaced(a + c, full)
    ensures Meaning(a + c, full)
      == (if a[0].Lit? then [a[0].c] else full[a[0].alias]) + Meaning(a[1..] + c, full)
  {
    var rest := a[1..] + c;
    assert (a + c)[1..] == rest && (a + c)[0] == a[0];
    assert forall i :: 0 < i < |a + c| ==> (a + c)[i] == rest[i - 1];
  }

  // ---- a growing dictionary ----

  predicate Grows(full: map<string, string>, more: map<string, string>) {
    forall a <- full :: a in more && more[a] == full[a]
  }

  lemma {:induction false} LegibleGrows(ps: Pieces, full: map<string, string>, more: map<string, string>,
                                        kinds: set<string>)
    requires Grows(full, more) && Known(ps, full)
    ensures Known(ps, more) && Meaning(ps, more) == Meaning(ps, full)
    ensures Spaced(ps, full) == Spaced(ps, more)
    ensures Legible(ps, full, kinds) ==> Legible(ps, more, kinds)
  {
    if ps != [] {
      LegibleGrows(ps[1..], full, more, kinds);
    }
  }

  predicate BookGrows(book: Book, more: Book) {
    && Grows(book.full, more.full)
    && forall a <- book.entries :: a in more.entries && more.entries[a] == book.entries[a]
  }

  /** A matched stretch of a legible text becomes an entry of the dictionary. */
  lemma AddEntry(d: Dict, book: Book, kind: string, seg: Pieces, kinds: set<string>)
    requires ValidDict(d) && Coherent(d.back, book, kinds) && kind in kinds && Legible(seg, book.full, kinds)
    requires Render(seg) != "" && Under(seg, |Register(d, kind, Render(seg)).1|)
    ensures var a, more := Register(d, kind, Render(seg)).1, AddTo(d, book, kind, seg);
      Coherent(Register(d, kind, Render(seg)).0.back, more, kinds) && BookGrows(book, more)
      && a in more.full && more.full[a] == Meaning(seg, book.full) && IsAlias(a, kinds)
  {
    var s := Render(seg);
    var a := Register(d, kind, s).1;
    RegisterKeepsDict(d, kind, s);
    if s in d.to {
      KnownEntry(book, a, seg, kinds);
    } else {
      FreshEntry(d, book, kind, seg, kinds);
    }
  }

  lemma KnownEntry(book: Book, a: string, seg: Pieces, kinds: set<string>)
    requires a in book.entries && a in book.full && EntryOk(a, Render(seg), book, kinds)
    requires GoodKinds(kinds) && Legible(seg, book.full, kinds)
    ensures book.full[a] == Meaning(seg, book.full) && IsAlias(a, kinds)
  {
    OneReading(seg, book.entries[a], book.full, kinds);
  }

  lemma FreshEntry(d: Dict, book: Book, kind: string, seg: Pieces, kinds: set<string>)
    requires Coherent(d.back, book, kinds) && kind in kinds && Legible(seg, book.full, kinds)
    requires Render(seg) !in d.to && Register(d, kind, Render(seg)).1 !in d.back
    requires Under(seg, |Register(d, kind, Render(seg)).1|)
    ensures var a, more := Register(d, kind, Render(seg)).1, AddTo(d, book, kind, seg);
      IsAlias(a, kinds) && BookGrows(book, more) && Coherent(d.back[a := Render(seg)], more, kinds)
      && a in more.full && more.full[a] == Meaning(seg, book.full)
  {
    var a, more := Register(d, kind, Render(seg)).1, AddTo(d, book, kind, seg);
    assert AliasWord(a, kind);
    NewEntryOk(book, a, seg, more, kinds);
    NewEntryCoherent(d.back, book, a, seg, more, kinds);
  }

  lemma EntryGrows(a: string, orig: string, book: Book, more: Book, kinds: set<string>)
    requires a in book.entries && a in book.full && EntryOk(a, orig, book, kinds) && BookGrows(book, more)
    ensures a in more.entries && a in more.full && EntryOk(a, orig, more, kinds)
  {
    LegibleGrows(book.entries[a], book.full, more.full, kinds);
  }

  lemma EntriesGrow(back: map<string, string>, book: Book, more: Book, kinds: set<string>)
    requires Coherent(back, book, kinds) && BookGrows(book, more)
    ensures forall b <- back :: b in more.entries && b in more.full && EntryOk(b, back[b], more, kinds)
  {
    forall b <- back ensures b in more.entries && b in more.full && EntryOk(b, back[b], more, kinds) {
      EntryGrows(b, back[b], book, more, kinds);
    }
  }

  lemma NewEntryOk(book: Book, a: string, seg: Pieces, more: Book, kinds: set<string>)
    requires a !in book.full && a !in book.entries && IsAlias(a, kinds) && Legible(seg, book.full, kinds) &&
      Under(seg, |a|)
    requires more == Book(book.entries[a := seg], book.full[a := Meaning(seg, book.full)])
    ensures BookGrows(book, more) && EntryOk(a, Render(seg), more, kinds)
  {
    LegibleGrows(seg, book.full, more.full, kinds);
  }

  lemma SameKeys<V, W>(m: map<string, V>, n: map<string, W>, k: string, v: V, w: W)
    requires m.Keys == n.Keys
    ensures m[k := v].Keys == n[k := w].Keys
  {
    assert m[k := v].Keys == m.Keys + {k};
    assert n[k := w].Keys == n.Keys + {k};
  }

  lemma NewEntryCoherent(back: map<string, string>, book: Book, a: string, seg: Pieces, more: Book, kinds: set<string>)
    requires Coherent(back, book, kinds) && a !in back && IsAlias(a, kinds)
    requires Legible(seg, book.full, kinds) && Under(seg, |a|)
    requires more == Book(book.entries[a := seg], book.full[a := Meaning(seg, book.full)])
    ensures Coherent(back[a := Render(seg)], more, kinds)
  {
    var back' := back[a := Render(seg)];
    assert back'.Keys == more.entries.Keys == more.full.Keys by {
      SameKeys(back, book.entries, a, Render(seg), seg);
      SameKeys(back, book.full, a, Render(seg), Meaning(seg, book.full));
    }
    NewEntryOk(book, a, seg, more, kinds);
    EntriesGrow(back, book, more, kinds);
  }

  lemma {:induction false} CutsCleanGrows(d: Dict, cuts: seq<Cut>, tail: Pieces, kind: string, spare: string -> bool,
                                          full: map<string, string>, more: map<string, string>)
    requires Grows(full, more) && CutsClean(d, cuts, tail, kind, spare, full)
    ensures CutsClean(d, cuts, tail, kind, spare, more)
    decreases |cuts|
  {
    if cuts != [] {
      var s, rest := Render(cuts[0].seg), Joined(cuts[1..], tail);
      if spare(s) {
        CutsCleanGrows(d, cuts[1..], tail, kind, spare, full, more);
      } else {
        LegibleGrows(rest, full, more, {});
        CutsCleanGrows(Register(d, kind, s).0, cuts[1..], tail, kind, spare, full, more);
      }
    }
  }

  /** A token in place of seg, and a rewritten rest behind it, keep the text legible. */
  lemma Reseat(seg: Pieces, rest: Pieces, swap: Pieces, out: Pieces, full: map<string, string>,
               more: map<string, string>, kinds: set<string>)
    requires Grows(full, more) && Legible(seg + rest, full, kinds) && Known(rest, full) && Known(seg, full)
    requires Legible(out, more, kinds) && Meaning(out, more) == Meaning(rest, full)
    requires swap == seg ||
      (|swap| == 1 && swap[0].Tok? && swap[0].alias in more && more[swap[0].alias] == Meaning(seg, full)
      && IsAlias(swap[0].alias, kinds) && !DigitFirst(Meaning(rest, full)))
    ensures Legible(swap + out, more, kinds) && Meaning(swap + out, more) == Meaning(seg + rest, full)
  {
    LegibleHalves(seg, rest, full, kinds);
    LegibleGrows(seg + rest, full, more, kinds);
    LegibleGrows(seg, full, more, kinds);
    LegibleGrows(rest, full, more, kinds);
    if swap == seg {
      SwapTail(seg, rest, out, more, kinds);
    } else {
      LegibleCons(swap[0], out, Meaning(seg, full), more, kinds);
      assert [swap[0]] == swap;
    }
  }

  lemma SwapTail(a: Pieces, b: Pieces, c: Pieces, full: map<string, string>, kinds: set<string>)
    requires Legible(a + b, full, kinds) && Legible(b, full, kinds) && Legible(c, full, kinds)
    requires Meaning(b, full) == Meaning(c, full)
    ensures Legible(a + c, full, kinds) && Meaning(a + c, full) == Meaning(a + b, full)
  {
    SpacedSwap(a, b, c, full);
    assert forall i :: 0 <= i < |a| ==> (a + c)[i] == (a + b)[i];
  }

  lemma RenderOne(p: Piece)
    ensures Render([p]) == Written(p)
  {
    assert [p][1..] == [];
    assert Written(p) + "" == Written(p);
  }

  /** What a match turns into, and the dictionary and the book after it. */
  function Turn(d: Dict, book: Book, seg: Pieces, kind: string, spare: string -> bool): (Pieces, Dict, Book) {
    if spare(Render(seg)) then (seg, d, book)
    else ([Tok(Register(d, kind, Render(seg)).1)], Register(d, kind, Render(seg)).0, AddTo(d, book, kind, seg))
  }

  /** It stays as it is, or becomes a token with its meaning. */
  lemma TurnMeans(d: Dict, book: Book, seg: Pieces, kind: string, spare: string -> bool, kinds: set<string>,
                  swap: Pieces, d1: Dict, book1: Book)
    requires ValidDict(d) && Coherent(d.back, book, kinds) && kind in kinds && Legible(seg, book.full, kinds)
    requires (swap, d1, book1) == Turn(d, book, seg, kind, spare)
    requires !spare(Render(seg)) ==> Render(seg) != "" && Under(seg, |Register(d, kind, Render(seg)).1|)
    ensures (d1, Render(swap)) == if spare(Render(seg)) then (d, Render(seg)) else Register(d, kind, Render(seg))
    ensures ValidDict(d1) && Extends(d, d1) && Coherent(d1.back, book1, kinds) && BookGrows(book, book1)
    ensures if spare(Render(seg)) then swap == seg else
      |swap| == 1 && swap[0].Tok? && swap[0].alias in book1.full && book1.full[swap[0].alias] == Meaning(seg, book.full)
      && IsAlias(swap[0].alias, kinds)
  {
    if !spare(Render(seg)) {
      AddEntry(d, book, kind, seg, kinds);
      RegisterKeepsDict(d, kind, Render(seg));
      RenderOne(swap[0]);
    }
  }

  /** The rewritten parts, put together again. */
  lemma Rejoin(gap: Pieces, seg: Pieces, rest: Pieces, swap: Pieces, next: Pieces, full: map<string, string>,
               more: map<string, string>, kinds: set<string>)
    requires Grows(full, more) && Legible(gap + seg + rest, full, kinds) && Known(rest, full) && Known(seg, full)
    requires Legible(next, more, kinds) && Meaning(next, more) == Meaning(rest, full)
    requires swap == seg ||
      (|swap| == 1 && swap[0].Tok? && swap[0].alias in more && more[swap[0].alias] == Meaning(seg, full)
      && IsAlias(swap[0].alias, kinds) && !DigitFirst(Meaning(rest, full)))
    ensures Legible(gap + (swap + next), more, kinds)
    ensures Meaning(gap + (swap + next), more) == Meaning(gap + seg + rest, full)
    ensures Render(gap + (swap + next)) == Render(gap) + Render(swap) + Render(next)
  {
    assert gap + seg + rest == gap + (seg + rest);
    LegibleHalves(gap, seg + rest, full, kinds);
    Reseat(seg, rest, swap, next, full, more, kinds);
    LegibleGrows(gap + (seg + rest), full, more, kinds);
    LegibleGrows(seg + rest, full, more, kinds);
    SwapTail(gap, seg + rest, swap + next, more, kinds);
    RenderThree(gap, swap, next);
  }

  lemma RenderThree(a: Pieces, b: Pieces, c: Pieces)
    ensures Render(a + (b + c)) == Render(a) + Render(b) + Render(c)
  {
    RenderConcat(a, b + c);
    RenderConcat(b, c);
  }

  lemma PartsLegible(gap: Pieces, seg: Pieces, rest: Pieces, full: map<string, string>, kinds: set<string>)
    requires Legible(gap + seg + rest, full, kinds)
    ensures Legible(seg, full, kinds) && Legible(rest, full, kinds)
  {
    LegibleHalves(gap + seg, rest, full, kinds);
    LegibleHalves(gap, seg, full, kinds);
  }

  /** One regular expression: the matches become tokens, the meaning stays. */
  lemma {:induction false} MatchPass(d: Dict, book: Book, cuts: seq<Cut>, tail: Pieces, kind: string,
                                     spare: string -> bool, kinds: set<string>)
    requires ValidDict(d) && Coherent(d.back, book, kinds) && kind in kinds
    requires Legible(Joined(cuts, tail), book.full, kinds)
    requires CutsClean(d, cuts, tail, kind, spare, book.full)
    ensures Render(MatchPieces(d, cuts, tail, kind, spare)) == HideMatches(d, MatchesOf(cuts, tail), kind, spare).1
    ensures var e, more := HideMatches(d, MatchesOf(cuts, tail), kind, spare).0, MatchBook(d, book, cuts, kind, spare);
      ValidDict(e) && Extends(d, e) && Coherent(e.back, more, kinds) && BookGrows(book, more)
    ensures var out, more := MatchPieces(d, cuts, tail, kind, spare), MatchBook(d, book, cuts, kind, spare);
      Legible(out, more.full, kinds) && Meaning(out, more.full) == Meaning(Joined(cuts, tail), book.full)
    decreases |cuts|
  {
    if cuts != [] {
      var gap, seg, rest := cuts[0].gap, cuts[0].seg, Joined(cuts[1..], tail);
      PartsLegible(gap, seg, rest, book.full, kinds);
      var (swap, d1, book1) := Turn(d, book, seg, kind, spare);
      TurnMeans(d, book, seg, kind, spare, kinds, swap, d1, book1);
      CutsCleanGrows(d1, cuts[1..], tail, kind, spare, book.full, book1.full);
      LegibleGrows(rest, book.full, book1.full, kinds);
      MatchPass(d1, book1, cuts[1..], tail, kind, spare, kinds);
      var next, more := MatchPieces(d1, cuts[1..], tail, kind, spare), MatchBook(d1, book1, cuts[1..], kind, spare);
      HeadOut(d, cuts, tail, kind, spare, d1, Render(swap));
      Rejoin(gap, seg, rest, swap, next, book.full, more.full, kinds);
    }
  }

  lemma HeadOut(d: Dict, cuts: seq<Cut>, tail: Pieces, kind: string, spare: string -> bool, d1: Dict, w: string)
    requires cuts != []
    requires var seg := Render(cuts[0].seg); (d1, w) == if spare(seg) then (d, seg) else Register(d, kind, seg)
    ensures var (e, t) := HideMatches(d1, MatchesOf(cuts[1..], tail), kind, spare);
      HideMatches(d, MatchesOf(cuts, tail), kind, spare) == (e, Render(cuts[0].gap) + w + t)
  {
    var m, n := MatchesOf(cuts, tail), MatchesOf(cuts[1..], tail);
    assert m.parts[1..] == n.parts;
    assert Matches(m.parts[1..], m.tail) == n;
  }
}
