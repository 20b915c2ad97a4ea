/** The round trip Reveal(Hide(text)) of internal/ai/anonymize.go, over all the calls of a
    request, with conditions under which it holds. */
module Anonymizer {
  import opened Aliases
  import opened Dictionary
  import opened Hiding
  import opened Revealing
  import opened Walks

  /** The three regular expressions, as what they find in any text. */
  datatype Finder = Finder(emails: string -> Matches, addresses: string -> Matches, domains: string -> Matches)

  predicate SpareNothing(s: string) { false }

  /** Loopback and documentation addresses, and those to be kept. */
  predicate SpareAddress(s: string, keep: set<string>) {
    "127." <= s || s == "0.0.0.0" || s in keep
  }

  predicate HasSuffix(s: string, suffix: string) {
    |s| >= |suffix| && s[|s| - |suffix|..] == suffix
  }

  /** File and unit names look like domains but are not. */
  predicate SpareDomain(s: string) {
    || HasSuffix(s, ".service") || HasSuffix(s, ".conf") || HasSuffix(s, ".yml")
    || HasSuffix(s, ".yaml") || HasSuffix(s, ".json") || HasSuffix(s, ".sock")
    || HasSuffix(s, ".pem") || HasSuffix(s, ".key") || HasSuffix(s, ".log")
  }

  /** Hide on values, for one order of the known values. */
  function HideText(d: Dict, text: string, keys: seq<string>, f: Finder, keep: set<string>): (Dict, string)
    requires forall k <- keys :: k in d.to && |k| > 0
  {
    HideFound(d, HideKnown(text, keys, d.to), f, keep)
  }

  /** What the three expressions find. */
  function HideFound(d: Dict, text: string, f: Finder, keep: set<string>): (Dict, string) {
    var (d1, t1) := HideMatches(d, f.emails(text), "email", s => SpareNothing(s));
    var (d2, t2) := HideMatches(d1, f.addresses(t1), "ip", s => SpareAddress(s, keep));
    HideMatches(d2, f.domains(t2), "domain", s => SpareDomain(s))
  }

  // ---- when nothing is lost ----

  /** How the matches of one expression cut the text. */
  datatype Cutting = Cutting(cuts: seq<Cut>, tail: Pieces)

  /** The expression's matches lie as c says, between the pieces. */
  ghost predicate FindsClean(st: Stage, find: string -> Matches, c: Cutting, kind: string, spare: string -> bool) {
    && Joined(c.cuts, c.tail) == st.ps
    && MatchesOf(c.cuts, c.tail) == find(Render(st.ps))
    && CutsClean(st.d, c.cuts, c.tail, kind, spare, st.book.full)
  }

  /** The cuttings of the three expressions, e-mails first. */
  datatype Cuttings = Cuttings(e: Cutting, a: Cutting, m: Cutting)

  /** Reading, dictionary and book as they go through Hide. */
  datatype Stage = Stage(d: Dict, book: Book, ps: Pieces)

  function AfterKnown(st: Stage, keys: seq<string>): Stage
    requires forall k <- keys :: k in st.d.to && |k| > 0
  {
    st.(ps := KnownPieces(st.ps, keys, st.d.to))
  }

  function AfterFind(st: Stage, find: string -> Matches, c: Cutting, kind: string, spare: string -> bool): Stage {
    Stage(HideMatches(st.d, find(Render(st.ps)), kind, spare).0,
          MatchBook(st.d, st.book, c.cuts, kind, spare),
          MatchPieces(st.d, c.cuts, c.tail, kind, spare))
  }

  function AfterEmails(st: Stage, keys: seq<string>, f: Finder, c: Cuttings): Stage
    requires forall k <- keys :: k in st.d.to && |k| > 0
  {
    AfterFind(AfterKnown(st, keys), f.emails, c.e, "email", s => SpareNothing(s))
  }

  function AfterAddresses(st: Stage, keys: seq<string>, f: Finder, keep: set<string>, c: Cuttings): Stage
    requires forall k <- keys :: k in st.d.to && |k| > 0
  {
    AfterFind(AfterEmails(st, keys, f, c), f.addresses, c.a, "ip", s => SpareAddress(s, keep))
  }

  function AfterHide(st: Stage, keys: seq<string>, f: Finder, keep: set<string>, c: Cuttings): Stage
    requires forall k <- keys :: k in st.d.to && |k| > 0
  {
    AfterFind(AfterAddresses(st, keys, f, keep, c), f.domains, c.m, "domain", s => SpareDomain(s))
  }

  /** No known value and no match cuts through an alias or stands before a
      digit, and no value takes an alias as short as one inside it. */
  ghost predicate HideClean(st: Stage, keys: seq<string>, f: Finder, keep: set<string>, c: Cuttings)
    requires forall k <- keys :: k in st.d.to && |k| > 0
  {
    && KnownClean(st.ps, keys, st.d.to, st.book.full)
    && FindsClean(AfterKnown(st, keys), f.emails, c.e, "email", s => SpareNothing(s))
    && FindsClean(AfterEmails(st, keys, f, c), f.addresses, c.a, "ip", s => SpareAddress(s, keep))
    && FindsClean(AfterAddresses(st, keys, f, keep, c), f.domains, c.m, "domain", s => SpareDomain(s))
  }

  /** Dictionary and book agree and the text can be read with them. */
  ghost predicate Sound(st: Stage, kinds: set<string>) {
    ValidDict(st.d) && Coherent(st.d.back, st.book, kinds) && Legible(st.ps, st.book.full, kinds)
  }

  /** st leads to next: nothing known is forgotten, the meaning stays. */
  ghost predicate Follows(st: Stage, next: Stage, kinds: set<string>) {
    && Sound(st, kinds) && Sound(next, kinds)
    && Extends(st.d, next.d) && BookGrows(st.book, next.book)
    && Meaning(next.ps, next.book.full) == Meaning(st.ps, st.book.full)
  }

  /** One expression of Hide. */
  lemma FindPass(st: Stage, find: string -> Matches, c: Cutting, kind: string, spare: string -> bool,
                 kinds: set<string>)
    requires Sound(st, kinds) && kind in kinds && FindsClean(st, find, c, kind, spare)
    ensures Follows(st, AfterFind(st, find, c, kind, spare), kinds)
    ensures HideMatches(st.d, find(Render(st.ps)), kind, spare) ==
      (AfterFind(st, find, c, kind, spare).d, Render(AfterFind(st, find, c, kind, spare).ps))
  {
    MatchPass(st.d, st.book, c.cuts, c.tail, kind, spare, kinds);
  }

  /** Hide changes what is written, not what is meant: the text it sends reads,
      in the dictionary it leaves, as the text it was given. */
  lemma HideKeepsMeaning(st: Stage, keys: seq<string>, f: Finder, keep: set<string>, c: Cuttings, kinds: set<string>)
    requires Sound(st, kinds) && {"email", "ip", "domain"} <= kinds
    requires forall k <- keys :: k in st.d.to && |k| > 0
    requires HideClean(st, keys, f, keep, c)
    ensures var next := AfterHide(st, keys, f, keep, c);
      Follows(st, next, kinds) && HideText(st.d, Render(st.ps), keys, f, keep) == (next.d, Render(next.ps))
  {
    KnownPass(st.ps, keys, st.d, st.book, kinds);
    FindPass(AfterKnown(st, keys), f.emails, c.e, "email", s => SpareNothing(s), kinds);
    FindPass(AfterEmails(st, keys, f, c), f.addresses, c.a, "ip", s => SpareAddress(s, keep), kinds);
    FindPass(AfterAddresses(st, keys, f, keep, c), f.domains, c.m, "domain", s => SpareDomain(s), kinds);
  }

  // ---- whole conversations ----

  /** What a request does with its mapper before the answer comes. */
  datatype Step = Learn(kind: string, name: string) | Send(text: string, keys: seq<string>, c: Cuttings)

  ghost predicate StepClean(d: Dict, book: Book, step: Step, f: Finder, keep: set<string>, kinds: set<string>) {
    match step
    case Learn(kind, name) => kind in kinds && name != "" && AliasFree(name, kinds)
    case Send(text, keys, c) =>
      && AliasFree(text, kinds)
      && (forall k <- keys :: k in d.to && |k| > 0)
      && HideClean(Stage(d, book, Lits(text)), keys, f, keep, c)
  }

  function StepStage(d: Dict, book: Book, step: Step, f: Finder, keep: set<string>): Stage {
    match step
    case Learn(kind, name) => Stage(Register(d, kind, name).0, AddTo(d, book, kind, Lits(name)), [])
    case Send(text, keys, c) =>
      if forall k | k in keys :: k in d.to && |k| > 0 then AfterHide(Stage(d, book, Lits(text)), keys, f, keep, c)
      else Stage(d, book, [])
  }

  /** The texts sent, as given and as written, and the dictionary in the end. */
  function Sent(d: Dict, book: Book, steps: seq<Step>, f: Finder, keep: set<string>): (seq<(string, string)>, Dict)
    decreases |steps|
  {
    if steps == [] then ([], d)
    else
      var st := StepStage(d, book, steps[0], f, keep);
      var (rest, last) := Sent(st.d, st.book, steps[1..], f, keep);
      ((if steps[0].Send? then [(steps[0].text, Render(st.ps))] else []) + rest, last)
  }

  ghost predicate AllClean(d: Dict, book: Book, steps: seq<Step>, f: Finder, keep: set<string>, kinds: set<string>)
    decreases |steps|
  {
    steps == [] ||
    (StepClean(d, book, steps[0], f, keep, kinds) &&
     var st := StepStage(d, book, steps[0], f, keep);
     AllClean(st.d, st.book, steps[1..], f, keep, kinds))
  }

  /** hidden can be read, and reads as text. */
  ghost predicate Readable(text: string, hidden: string, book: Book, kinds: set<string>) {
    exists ps :: Legible(ps, book.full, kinds) && Render(ps) == hidden && Meaning(ps, book.full) == text
  }

  lemma StepKeeps(d: Dict, book: Book, step: Step, f: Finder, keep: set<string>, kinds: set<string>)
    requires ValidDict(d) && Coherent(d.back, book, kinds) && {"email", "ip", "domain"} <= kinds
    requires StepClean(d, book, step, f, keep, kinds)
    ensures var st := StepStage(d, book, step, f, keep);
      Sound(st, kinds) && Extends(d, st.d) && BookGrows(book, st.book)
      && (step.Send? ==> Readable(step.text, Render(st.ps), st.book, kinds))
  {
    match step
    case Learn(kind, name) =>
      LitsLegible(name, book.full, kinds);
      AddEntry(d, book, kind, Lits(name), kinds);
      RegisterKeepsDict(d, kind, name);
      NothingLegible(StepStage(d, book, step, f, keep).book.full, kinds);
    case Send(text, keys, c) =>
      LitsLegible(text, book.full, kinds);
      HideKeepsMeaning(Stage(d, book, Lits(text)), keys, f, keep, c, kinds);
  }

  lemma NothingLegible(full: map<string, string>, kinds: set<string>)
    ensures Legible([], full, kinds)
  {
  }

  lemma LitsLegible(s: string, full: map<string, string>, kinds: set<string>)
    requires AliasFree(s, kinds)
    ensures Legible(Lits(s), full, kinds) && Render(Lits(s)) == s && Meaning(Lits(s), full) == s && Under(Lits(s), 0)
  {
    LitsMean(s, full);
    LitsAreLits(s);
    LitsSpaced(Lits(s), full);
  }

  lemma {:induction false} LitsAreLits(s: string)
    ensures forall i :: 0 <= i < |Lits(s)| ==> Lits(s)[i].Lit?
  {
    if s != "" {
      LitsAreLits(s[1..]);
    }
  }

  lemma {:induction false} LitsSpaced(ps: Pieces, full: map<string, string>)
    requires forall i :: 0 <= i < |ps| ==> ps[i].Lit?
    ensures Known(ps, full) && Spaced(ps, full)
  {
    if ps != [] {
      LitsSpaced(ps[1..], full);
    }
  }

  ghost predicate AllReadable(texts: seq<(string, string)>, book: Book, kinds: set<string>) {
    forall i :: 0 <= i < |texts| ==> Readable(texts[i].0, texts[i].1, book, kinds)
  }

  lemma ReadableLater(text: string, hidden: string, book: Book, more: Book, kinds: set<string>)
    requires Readable(text, hidden, book, kinds) && BookGrows(book, more)
    ensures Readable(text, hidden, more, kinds)
  {
    var ps :| Legible(ps, book.full, kinds) && Render(ps) == hidden && Meaning(ps, book.full) == text;
    LegibleGrows(ps, book.full, more.full, kinds);
  }

  lemma {:induction false} StepsKeep(d: Dict, book: Book, steps: seq<Step>, f: Finder, keep: set<string>,
                                     kinds: set<string>) returns (more: Book)
    requires ValidDict(d) && Coherent(d.back, book, kinds) && {"email", "ip", "domain"} <= kinds
    requires AllClean(d, book, steps, f, keep, kinds)
    ensures BookGrows(book, more)
    ensures var last := Sent(d, book, steps, f, keep).1; ValidDict(last) && Coherent(last.back, more, kinds)
    ensures AllReadable(Sent(d, book, steps, f, keep).0, more, kinds)
    decreases |steps|
  {
    if steps == [] {
      more := book;
    } else {
      var st := StepStage(d, book, steps[0], f, keep);
      StepKeeps(d, book, steps[0], f, keep, kinds);
      more := StepsKeep(st.d, st.book, steps[1..], f, keep, kinds);
      if steps[0].Send? {
        ReadableLater(steps[0].text, Render(st.ps), st.book, more, kinds);
      }
      FirstSent(d, book, steps, f, keep, st, more, kinds);
    }
  }

  lemma FirstSent(d: Dict, book: Book, steps: seq<Step>, f: Finder, keep: set<string>, st: Stage, more: Book,
                  kinds: set<string>)
    requires steps != [] && st == StepStage(d, book, steps[0], f, keep)
    requires AllReadable(Sent(st.d, st.book, steps[1..], f, keep).0, more, kinds)
    requires steps[0].Send? ==> Readable(steps[0].text, Render(st.ps), more, kinds)
    ensures AllReadable(Sent(d, book, steps, f, keep).0, more, kinds)
    ensures Sent(d, book, steps, f, keep).1 == Sent(st.d, st.book, steps[1..], f, keep).1
  {
    var rest := Sent(st.d, st.book, steps[1..], f, keep).0;
    var head := if steps[0].Send? then [(steps[0].text, Render(st.ps))] else [];
    SentFirst(d, book, steps, f, keep, st);
    ReadableConcat(head, rest, more, kinds);
  }

  lemma SentFirst(d: Dict, book: Book, steps: seq<Step>, f: Finder, keep: set<string>, st: Stage)
    requires steps != [] && st == StepStage(d, book, steps[0], f, keep)
    ensures var (rest, last) := Sent(st.d, st.book, steps[1..], f, keep);
      Sent(d, book, steps, f, keep)
        == ((if steps[0].Send? then [(steps[0].text, Render(st.ps))] else []) + rest, last)
  {}

  lemma ReadableConcat(a: seq<(string, string)>, b: seq<(string, string)>, book: Book, kinds: set<string>)
    requires AllReadable(a, book, kinds) && AllReadable(b, book, kinds)
    ensures AllReadable(a + b, book, kinds)
  {}

  /** Whatever a request learned and hid, in any number of calls: every text it
      sent is given back in full by Reveal at the end, for every order in which
      sort may put the aliases. */
  lemma RoundTrip(steps: seq<Step>, f: Finder, keep: set<string>, keys: seq<string>, kinds: set<string>)
    requires GoodKinds(kinds) && {"email", "ip", "domain"} <= kinds
    requires AllClean(Empty, Book(map[], map[]), steps, f, keep, kinds)
    requires var last := Sent(Empty, Book(map[], map[]), steps, f, keep).1;
      Walk(keys, last.back.Keys) && LongestFirst(keys)
    ensures var (texts, last) := Sent(Empty, Book(map[], map[]), steps, f, keep);
      && (forall k <- keys :: k in last.back && |k| > 0)
      && forall i :: 0 <= i < |texts| ==> RevealText(texts[i].1, keys, last.back) == texts[i].0
  {
    var (texts, last) := Sent(Empty, Book(map[], map[]), steps, f, keep);
    var more := StepsKeep(Empty, Book(map[], map[]), steps, f, keep, kinds);
    forall i | 0 <= i < |texts| ensures RevealText(texts[i].1, keys, last.back) == texts[i].0 {
      var ps :| Legible(ps, more.full, kinds) && Render(ps) == texts[i].1 && Meaning(ps, more.full) == texts[i].0;
      RevealIsMeaning(ps, keys, last.back, more, kinds);
    }
  }
}
