/** Mapper.Reveal (internal/ai/anonymize.go): one ReplaceAll per alias, longest
    alias first, gives every legible text its meaning. */
module Revealing {
  import opened Aliases
  import opened Text
  import opened Walks

  /** Go's sort.Slice by falling length: the order among equals is not fixed. */
  ghost predicate LongestFirst(keys: seq<string>) {
    forall i, j :: 0 <= i < j < |keys| ==> |keys[i]| >= |keys[j]|
  }

  function RevealText(text: string, keys: seq<string>, back: map<string, string>): string
    requires forall k <- keys :: k in back && |k| > 0
    decreases |keys|
  {
    if keys == [] then text
    else RevealText(ReplaceAll(text, keys[0], back[keys[0]]), keys[1..], back)
  }

  /** What the dictionary stands for: entries[a] is the text that was replaced
      by a (it may hold older aliases), full[a] is what a finally means. */
  datatype Book = Book(entries: map<string, Pieces>, full: map<string, string>)

  ghost predicate Coherent(back: map<string, string>, book: Book, kinds: set<string>) {
    && GoodKinds(kinds)
    && back.Keys == book.entries.Keys == book.full.Keys
    && forall a <- back :: EntryOk(a, back[a], book, kinds)
  }

  /** An entry is legible, means what full says, and holds only shorter aliases. */
  ghost predicate EntryOk(a: string, orig: string, book: Book, kinds: set<string>)
    requires a in book.entries && a in book.full
  {
    var e := book.entries[a];
    && IsAlias(a, kinds)
    && Legible(e, book.full, kinds)
    && Render(e) == orig
    && Meaning(e, book.full) == book.full[a]
    && Under(e, |a|)
  }

  /** The text with every token a opened up into e. */
  function Unfold(ps: Pieces, a: string, e: Pieces): Pieces {
    if ps == [] then []
    else (if ps[0] == Tok(a) then e else [ps[0]]) + Unfold(ps[1..], a, e)
  }

  lemma {:induction false} UnfoldTokens(ps: Pieces, a: string, e: Pieces)
    ensures forall p <- Unfold(ps, a, e) :: p in e || (p in ps && p != Tok(a))
  {
    if ps != [] {
      UnfoldTokens(ps[1..], a, e);
    }
  }

  lemma {:induction false} UnfoldKeepsMeaning(ps: Pieces, a: string, e: Pieces, full: map<string, string>)
    requires Known(ps, full) && Known(e, full) && a in full && Meaning(e, full) == full[a]
    requires Spaced(ps, full) && Spaced(e, full)
    ensures Known(Unfold(ps, a, e), full)
    ensures Meaning(Unfold(ps, a, e), full) == Meaning(ps, full)
    ensures Spaced(Unfold(ps, a, e), full)
  {
    if ps != [] {
      var rest := Unfold(ps[1..], a, e);
      UnfoldKeepsMeaning(ps[1..], a, e, full);
      if ps[0] == Tok(a) {
        MeaningConcat(e, rest, full);
        SpacedConcat(e, rest, full);
      } else {
        InFront(ps[0], rest, full);
      }
    }
  }

  lemma InFront(p: Piece, ps: Pieces, full: map<string, string>)
    requires Known(ps, full) && (p.Tok? ==> p.alias in full)
    ensures Known([p] + ps, full)
    ensures Meaning([p] + ps, full) == (if p.Lit? then [p.c] else full[p.alias]) + Meaning(ps, full)
    ensures Spaced([p] + ps, full) <==> (p.Tok? ==> !DigitFirst(Meaning(ps, full))) && Spaced(ps, full)
  {
    var all := [p] + ps;
    assert all[1..] == ps && forall i :: 0 < i < |all| ==> all[i] == ps[i - 1];
  }

  /** One ReplaceAll of an alias opens exactly its tokens. */
  lemma {:induction false} RevealStep(ps: Pieces, a: string, e: Pieces, full: map<string, string>, kinds: set<string>)
    requires GoodKinds(kinds) && IsAlias(a, kinds) && Legible(ps, full, kinds)
    requires Under(ps, |a| + 1)
    ensures ReplaceAll(Render(ps), a, Render(e)) == Render(Unfold(ps, a, e))
    decreases |ps|
  {
    if ps != [] {
      var s, w, tail := Render(ps), Written(ps[0]), Render(ps[1..]);
      LegibleTail(ps, full, kinds);
      RevealStep(ps[1..], a, e, full, kinds);
      assert s[|w|..] == tail;
      if ps[0] == Tok(a) {
        assert a <= s;
        RenderConcat(e, Unfold(ps[1..], a, e));
      } else {
        forall k | 0 <= k < |w| ensures !(a <= s[k..]) {
          if ps[0].Lit? {
            assert s[0..] == s;
            LiteralStartsNoAlias(ps, a, full, kinds);
          } else if a <= s[k..] {
            TokenStartsAlias(ps, a, k, full, kinds);
          }
        }
        ReplaceAllSkips(s, a, Render(e), |w|);
        assert s[..|w|] == w;
        assert ([ps[0]] + Unfold(ps[1..], a, e))[1..] == Unfold(ps[1..], a, e);
      }
    }
  }

  lemma {:induction false} NoTokensIsText(ps: Pieces, full: map<string, string>)
    requires forall i :: 0 <= i < |ps| ==> ps[i].Lit?
    ensures Known(ps, full) && Render(ps) == Meaning(ps, full)
  {
    if ps != [] {
      NoTokensIsText(ps[1..], full);
    }
  }

  /** Every token of ps still has its turn in keys[i..]. */
  ghost predicate Waiting(ps: Pieces, keys: seq<string>, i: nat) {
    forall p :: p in ps && p.Tok? ==> exists j :: i <= j < |keys| && keys[j] == p.alias
  }

  /** Opening keys[i] leaves only tokens that come later: entries hold shorter
      aliases, and shorter aliases come later. */
  lemma UnfoldWaiting(ps: Pieces, keys: seq<string>, i: nat, e: Pieces)
    requires LongestFirst(keys) && i < |keys| && Waiting(ps, keys, i) && Under(e, |keys[i]|)
    requires forall p <- e :: p.Tok? ==> p.alias in keys
    ensures Waiting(Unfold(ps, keys[i], e), keys, i + 1)
  {
    UnfoldTokens(ps, keys[i], e);
    forall p | p in Unfold(ps, keys[i], e) && p.Tok?
      ensures exists j :: i + 1 <= j < |keys| && keys[j] == p.alias
    {
      if p in e {
        var j :| 0 <= j < |keys| && keys[j] == p.alias;
        assert j > i;
      } else {
        var j :| i <= j < |keys| && keys[j] == p.alias;
        assert j != i;
      }
    }
  }

  lemma WaitingUnder(ps: Pieces, keys: seq<string>, i: nat)
    requires LongestFirst(keys) && i <= |keys| && Waiting(ps, keys, i)
    ensures i < |keys| ==> Under(ps, |keys[i]| + 1)
    ensures i == |keys| ==> forall j :: 0 <= j < |ps| ==> ps[j].Lit?
  {
    forall j | 0 <= j < |ps| && ps[j].Tok?
      ensures i < |keys| && |ps[j].alias| <= |keys[i]|
    {
      assert ps[j] in ps;
    }
  }

  lemma LegibleUnfold(ps: Pieces, a: string, orig: string, book: Book, kinds: set<string>)
    requires GoodKinds(kinds) && a in book.entries && a in book.full && EntryOk(a, orig, book, kinds)
    requires Legible(ps, book.full, kinds) && Under(ps, |a| + 1)
    ensures var next := Unfold(ps, a, book.entries[a]);
      Legible(next, book.full, kinds) && Meaning(next, book.full) == Meaning(ps, book.full)
      && Render(next) == ReplaceAll(Render(ps), a, orig)
  {
    var e := book.entries[a];
    RevealStep(ps, a, e, book.full, kinds);
    UnfoldKeepsMeaning(ps, a, e, book.full);
    UnfoldTokens(ps, a, e);
    var next := Unfold(ps, a, e);
    forall i | 0 <= i < |next| && next[i].Tok? ensures IsAlias(next[i].alias, kinds) {
      assert next[i] in next;
    }
  }

  /** One key of the pass. */
  lemma NextKey(ps: Pieces, keys: seq<string>, i: nat, back: map<string, string>, book: Book, kinds: set<string>)
    requires Coherent(back, book, kinds) && Walk(keys, back.Keys) && LongestFirst(keys) && i < |keys|
    requires Legible(ps, book.full, kinds) && Waiting(ps, keys, i)
    ensures keys[i] in back && keys[i] in book.entries && |keys[i]| > 0
    ensures var next := Unfold(ps, keys[i], book.entries[keys[i]]);
      && Legible(next, book.full, kinds) && Waiting(next, keys, i + 1)
      && Meaning(next, book.full) == Meaning(ps, book.full)
      && Render(next) == ReplaceAll(Render(ps), keys[i], back[keys[i]])
  {
    var a := keys[i];
    assert a in keys;
    assert EntryOk(a, back[a], book, kinds);
    WaitingUnder(ps, keys, i);
    LegibleUnfold(ps, a, back[a], book, kinds);
    UnfoldWaiting(ps, keys, i, book.entries[a]);
  }

  /** From any point of the pass on, the rest of the pass gives the meaning. */
  lemma {:induction false} RevealFrom(ps: Pieces, keys: seq<string>, i: nat, back: map<string, string>, book: Book,
                                      kinds: set<string>)
    requires Coherent(back, book, kinds) && Walk(keys, back.Keys) && LongestFirst(keys) && i <= |keys|
    requires forall k <- keys :: k in back && |k| > 0
    requires Legible(ps, book.full, kinds) && Waiting(ps, keys, i)
    ensures RevealText(Render(ps), keys[i..], back) == Meaning(ps, book.full)
    decreases |keys| - i
  {
    if i == |keys| {
      WaitingUnder(ps, keys, i);
      NoTokensIsText(ps, book.full);
    } else {
      NextKey(ps, keys, i, back, book, kinds);
      assert keys[i..][0] == keys[i] && keys[i..][1..] == keys[i + 1..];
      RevealFrom(Unfold(ps, keys[i], book.entries[keys[i]]), keys, i + 1, back, book, kinds);
    }
  }

  /** Reveal gives every legible text (what Hide sent, and whatever the model
      answers with those aliases) its meaning, in every order sort may choose. */
  lemma RevealIsMeaning(ps: Pieces, keys: seq<string>, back: map<string, string>, book: Book, kinds: set<string>)
    requires Coherent(back, book, kinds) && Walk(keys, back.Keys) && LongestFirst(keys)
    requires Legible(ps, book.full, kinds)
    ensures forall k <- keys :: k in back && |k| > 0
    ensures RevealText(Render(ps), keys, back) == Meaning(ps, book.full)
  {
    assert keys[0..] == keys;
    forall p | p in ps && p.Tok? ensures p.alias in keys {
      var i :| 0 <= i < |ps| && ps[i] == p;
    }
    RevealFrom(ps, keys, 0, back, book, kinds);
  }
}
