/** The round trip of internal/ai/anonymize.go under conditions on strings alone, which
    can be checked before each call: known values and matches are whole words. */
module WholeRequest {
  import opened Aliases
  import opened Anonymizer
  import opened Dictionary
  import opened Hiding
  import opened Matching
  import opened Revealing
  import opened Text
  import opened Walks
  import opened WholeWords

  /** The kinds that nkt gives aliases of. */
  const KINDS := {"host", "email", "ip", "domain"}

  /** Aliases of these kinds are words. */
  ghost predicate WordKinds(kinds: set<string>, word: char -> bool) {
    && (forall k, i :: k in kinds && 0 <= i < |k| ==> word(k[i]))
    && word('-') && forall c :: IsDigit(c) ==> word(c)
  }

  /** What a request does with its mapper. */
  datatype Act = Learns(kind: string, name: string) | Sends(text: string, known: seq<string>)

  /** m are whole words of t, and none takes an alias as short as one in it. */
  predicate FoundWhole(d: Dict, m: Matches, t: string, kind: string, spare: string -> bool, word: char -> bool) {
    TextOf(m) == t && WholeHits(m, true, word) && HitsFit(d, m, kind, spare)
  }

  /** Known values are whole words of the text and no part of an alias, and what each
      expression finds, in the text as it is by then, are whole words. */
  ghost predicate SendWhole(d: Dict, text: string, known: seq<string>, f: Finder, keep: set<string>,
                            kinds: set<string>, word: char -> bool)
  {
    && AliasFree(text, kinds)
    && (forall k <- known :: k in d.to && |k| > 0 && IsWord(k, word) && WholeIn(text, k, word))
    && (forall k <- known, l <- known :: Outside(k, d.to[l]))
    && var t := HideKnown(text, known, d.to);
    && FoundWhole(d, f.emails(t), t, "email", s => SpareNothing(s), word)
    && var (d1, t1) := HideMatches(d, f.emails(t), "email", s => SpareNothing(s));
    && FoundWhole(d1, f.addresses(t1), t1, "ip", s => SpareAddress(s, keep), word)
    && var (d2, t2) := HideMatches(d1, f.addresses(t1), "ip", s => SpareAddress(s, keep));
    && FoundWhole(d2, f.domains(t2), t2, "domain", s => SpareDomain(s), word)
  }

  ghost predicate ActWhole(d: Dict, act: Act, f: Finder, keep: set<string>, kinds: set<string>, word: char -> bool) {
    match act
    case Learns(kind, name) => kind in kinds && name != "" && AliasFree(name, kinds)
    case Sends(text, known) => SendWhole(d, text, known, f, keep, kinds, word)
  }

  predicate CanHide(d: Dict, known: seq<string>) { forall k | k in known :: k in d.to && |k| > 0 }

  /** The dictionary after an act, and the text it sent. */
  function Acted(d: Dict, act: Act, f: Finder, keep: set<string>): (Dict, string) {
    match act
    case Learns(kind, name) => (Register(d, kind, name).0, "")
    case Sends(text, known) => if CanHide(d, known) then HideText(d, text, known, f, keep) else (d, "")
  }

  ghost predicate AllWhole(d: Dict, acts: seq<Act>, f: Finder, keep: set<string>, kinds: set<string>,
                           word: char -> bool)
    decreases |acts|
  {
    acts == [] ||
    (ActWhole(d, acts[0], f, keep, kinds, word) &&
      AllWhole(Acted(d, acts[0], f, keep).0, acts[1..], f, keep, kinds, word))
  }

  /** The texts, as given and as sent, and the dictionary in the end. */
  function ActedAll(d: Dict, acts: seq<Act>, f: Finder, keep: set<string>): (seq<(string, string)>, Dict)
    decreases |acts|
  {
    if acts == [] then ([], d)
    else
      var (e, sent) := Acted(d, acts[0], f, keep);
      var (rest, last) := ActedAll(e, acts[1..], f, keep);
      ((if acts[0].Sends? then [(acts[0].text, sent)] else []) + rest, last)
  }

  // ---- the cuttings that fit ----

  function CuttingOf(m: Matches, ps: Pieces): Cutting {
    var (cuts, tail) := CutsFor(m, ps);
    Cutting(cuts, tail)
  }

  /** The matches of the three expressions, as cuts of the pieces. */
  function CutAll(st: Stage, known: seq<string>, f: Finder, keep: set<string>): Cuttings
    requires forall k <- known :: k in st.d.to && |k| > 0
  {
    var s0 := AfterKnown(st, known);
    var e := CuttingOf(f.emails(Render(s0.ps)), s0.ps);
    var s1 := AfterEmails(st, known, f, Cuttings(e, e, e));
    var a := CuttingOf(f.addresses(Render(s1.ps)), s1.ps);
    var s2 := AfterAddresses(st, known, f, keep, Cuttings(e, a, a));
    Cuttings(e, a, CuttingOf(f.domains(Render(s2.ps)), s2.ps))
  }

  function StepFor(d: Dict, book: Book, act: Act, f: Finder, keep: set<string>): Step {
    match act
    case Learns(kind, name) => Learn(kind, name)
    case Sends(text, known) =>
      var none := Cutting([], []);
      Send(text, known, if CanHide(d, known) then CutAll(Stage(d, book, Lits(text)), known, f, keep)
                        else Cuttings(none, none, none))
  }

  function StepsFor(d: Dict, book: Book, acts: seq<Act>, f: Finder, keep: set<string>): seq<Step>
    decreases |acts|
  {
    if acts == [] then []
    else
      var step := StepFor(d, book, acts[0], f, keep);
      var st := StepStage(d, book, step, f, keep);
      [step] + StepsFor(st.d, st.book, acts[1..], f, keep)
  }

  // ---- they are clean ----

  lemma TokensAreWords(ps: Pieces, kinds: set<string>, word: char -> bool)
    requires Aliased(ps, kinds) && WordKinds(kinds, word)
    ensures TokWords(ps, word)
  {
    forall i | 0 <= i < |ps| && ps[i].Tok? ensures IsWord(ps[i].alias, word) {
      var k :| k in kinds && AliasWord(ps[i].alias, k);
    }
  }

  /** One expression: whole words are clean cuts, and leave the aliases standing alone. */
  lemma FindWhole(st: Stage, find: string -> Matches, kind: string, spare: string -> bool, kinds: set<string>,
                  word: char -> bool)
    requires Sound(st, kinds) && kind in kinds && WordKinds(kinds, word) && Framed(st.ps, true, word)
    requires FoundWhole(st.d, find(Render(st.ps)), Render(st.ps), kind, spare, word)
    ensures var c := CuttingOf(find(Render(st.ps)), st.ps);
      FindsClean(st, find, c, kind, spare) && Framed(AfterFind(st, find, c, kind, spare).ps, true, word)
  {
    TokensAreWords(st.ps, kinds, word);
    CutsAreWhole(st.d, st.ps, find(Render(st.ps)), kind, spare, st.book.full, word);
  }

  lemma CutsAreWhole(d: Dict, ps: Pieces, m: Matches, kind: string, spare: string -> bool, full: map<string, string>,
                     word: char -> bool)
    requires Known(ps, full) && TokWords(ps, word) && Framed(ps, true, word) && full.Keys <= d.back.Keys
    requires FoundWhole(d, m, Render(ps), kind, spare, word) && forall c :: IsDigit(c) ==> word(c)
    ensures var c := CuttingOf(m, ps);
      && Joined(c.cuts, c.tail) == ps && MatchesOf(c.cuts, c.tail) == m
      && CutsClean(d, c.cuts, c.tail, kind, spare, full)
      && Framed(MatchPieces(d, c.cuts, c.tail, kind, spare), true, word)
  {
    var c := CuttingOf(m, ps);
    CutsExact(m, ps, true, word);
    CutsWhole(d, c.cuts, c.tail, kind, spare, full, true, word);
    MatchesFramed(d, c.cuts, c.tail, kind, spare, true, true, word);
  }

  lemma KnownWhole(d: Dict, book: Book, text: string, known: seq<string>, f: Finder, keep: set<string>,
                   kinds: set<string>, word: char -> bool)
    requires ValidDict(d) && Coherent(d.back, book, kinds) && WordKinds(kinds, word)
    requires SendWhole(d, text, known, f, keep, kinds, word)
    ensures var st := Stage(d, book, Lits(text));
      && KnownClean(st.ps, known, d.to, book.full) && Sound(st, kinds) && Sound(AfterKnown(st, known), kinds)
      && Framed(AfterKnown(st, known).ps, true, word)
      && Render(AfterKnown(st, known).ps) == HideKnown(text, known, d.to)
  {
    LitsLegible(text, book.full, kinds);
    forall k <- known ensures d.to[k] in book.full {
      assert d.to[k] in d.back;
    }
    WholeWordsClean(text, known, d.to, book.full, word);
    KnownPass(Lits(text), known, d, book, kinds);
  }

  /** Then Hide loses nothing. */
  lemma SendIsClean(d: Dict, book: Book, text: string, known: seq<string>, f: Finder, keep: set<string>,
                    kinds: set<string>, word: char -> bool)
    requires ValidDict(d) && Coherent(d.back, book, kinds) && WordKinds(kinds, word)
    requires {"email", "ip", "domain"} <= kinds && SendWhole(d, text, known, f, keep, kinds, word)
    ensures var st := Stage(d, book, Lits(text)); HideClean(st, known, f, keep, CutAll(st, known, f, keep))
  {
    var st := Stage(d, book, Lits(text));
    var c := CutAll(st, known, f, keep);
    KnownWhole(d, book, text, known, f, keep, kinds, word);
    var s0, s1, s2 := AfterKnown(st, known), AfterEmails(st, known, f, c), AfterAddresses(st, known, f, keep, c);
    FindWhole(s0, f.emails, "email", s => SpareNothing(s), kinds, word);
    FindPass(s0, f.emails, c.e, "email", s => SpareNothing(s), kinds);
    FindWhole(s1, f.addresses, "ip", s => SpareAddress(s, keep), kinds, word);
    FindPass(s1, f.addresses, c.a, "ip", s => SpareAddress(s, keep), kinds);
    FindWhole(s2, f.domains, "domain", s => SpareDomain(s), kinds, word);
  }

  lemma ActIsClean(d: Dict, book: Book, act: Act, f: Finder, keep: set<string>, kinds: set<string>, word: char -> bool)
    requires ValidDict(d) && Coherent(d.back, book, kinds) && WordKinds(kinds, word)
    requires {"email", "ip", "domain"} <= kinds && ActWhole(d, act, f, keep, kinds, word)
    ensures var step := StepFor(d, book, act, f, keep); var st := StepStage(d, book, step, f, keep);
      && StepClean(d, book, step, f, keep, kinds)
      && st.d == Acted(d, act, f, keep).0 && (act.Sends? ==> Render(st.ps) == Acted(d, act, f, keep).1)
  {
    match act
    case Learns(_, _) =>
    case Sends(text, known) =>
      SendSends(d, book, text, known, f, keep, kinds, word);
      StepOfSend(d, book, text, known, f, keep, kinds);
  }

  lemma StepOfSend(d: Dict, book: Book, text: string, known: seq<string>, f: Finder, keep: set<string>,
                   kinds: set<string>)
    requires CanHide(d, known) && AliasFree(text, kinds)
    requires var st := Stage(d, book, Lits(text)); HideClean(st, known, f, keep, CutAll(st, known, f, keep))
    ensures var st := Stage(d, book, Lits(text));
      && StepClean(d, book, StepFor(d, book, Sends(text, known), f, keep), f, keep, kinds)
      && StepStage(d, book, StepFor(d, book, Sends(text, known), f, keep), f, keep)
         == AfterHide(st, known, f, keep, CutAll(st, known, f, keep))
  {}

  lemma SendSends(d: Dict, book: Book, text: string, known: seq<string>, f: Finder, keep: set<string>,
                  kinds: set<string>, word: char -> bool)
    requires ValidDict(d) && Coherent(d.back, book, kinds) && WordKinds(kinds, word)
    requires {"email", "ip", "domain"} <= kinds && SendWhole(d, text, known, f, keep, kinds, word)
    ensures CanHide(d, known) && AliasFree(text, kinds)
    ensures var st := Stage(d, book, Lits(text)); var c := CutAll(st, known, f, keep);
      && HideClean(st, known, f, keep, c)
      && (AfterHide(st, known, f, keep, c).d, Render(AfterHide(st, known, f, keep, c).ps)) ==
        HideText(d, text, known, f, keep)
  {
    var st := Stage(d, book, Lits(text));
    SendIsClean(d, book, text, known, f, keep, kinds, word);
    LitsLegible(text, book.full, kinds);
    HideKeepsMeaning(st, known, f, keep, CutAll(st, known, f, keep), kinds);
  }

  lemma {:induction false} ActsAreClean(d: Dict, book: Book, acts: seq<Act>, f: Finder, keep: set<string>,
                                        kinds: set<string>, word: char -> bool)
    requires ValidDict(d) && Coherent(d.back, book, kinds) && WordKinds(kinds, word)
    requires {"email", "ip", "domain"} <= kinds && AllWhole(d, acts, f, keep, kinds, word)
    ensures var steps := StepsFor(d, book, acts, f, keep);
      && AllClean(d, book, steps, f, keep, kinds)
      && Sent(d, book, steps, f, keep) == ActedAll(d, acts, f, keep)
    decreases |acts|
  {
    if acts != [] {
      var step := StepFor(d, book, acts[0], f, keep);
      var st := StepStage(d, book, step, f, keep);
      ActIsClean(d, book, acts[0], f, keep, kinds, word);
      StepKeeps(d, book, step, f, keep, kinds);
      ActsAreClean(st.d, st.book, acts[1..], f, keep, kinds, word);
      var steps := StepsFor(d, book, acts, f, keep);
      assert steps[0] == step && steps[1..] == StepsFor(st.d, st.book, acts[1..], f, keep);
    }
  }

  /** Whatever a request learned and hid, in any number of calls: if known values and matches
      were whole words, every text it sent is given back in full by Reveal at the end, for every
      order in which sort may put the aliases. */
  lemma WholeWordsComeBack(acts: seq<Act>, f: Finder, keep: set<string>, keys: seq<string>, word: char -> bool)
    requires WordKinds(KINDS, word) && AllWhole(Empty, acts, f, keep, KINDS, word)
    requires Walk(keys, ActedAll(Empty, acts, f, keep).1.back.Keys) && LongestFirst(keys)
    ensures var (texts, last) := ActedAll(Empty, acts, f, keep);
      && (forall k <- keys :: k in last.back && |k| > 0)
      && forall i :: 0 <= i < |texts| ==> RevealText(texts[i].1, keys, last.back) == texts[i].0
  {
    var book := Book(map[], map[]);
    KindsAreGood();
    ActsAreClean(Empty, book, acts, f, keep, KINDS, word);
    RoundTrip(StepsFor(Empty, book, acts, f, keep), f, keep, keys, KINDS);
  }

  /** An alias of nkt tells its kind. */
  lemma KindsAreGood()
    ensures GoodKinds(KINDS)
  {
    forall a, b, j | a in KINDS && b in KINDS && 0 < j < |a| ensures a[j..] != b {
      var s := a[j..];
      assert s[|s| - 1] == a[|a| - 1];
    }
  }
}
