/** A condition on the text alone under which Mapper.Hide
    (internal/ai/anonymize.go) never damages an alias: the known values stand
    in it as whole words and none of them is part of an alias. */
module WholeWords {
  import opened Aliases
  import opened Hiding
  import opened Text

  /** Not a character of a word: a value may end before it or begin after it. */
  predicate Break(p: Piece, word: char -> bool) { p.Lit? && !word(p.c) }

  predicate EndsHere(ps: Pieces, word: char -> bool) { ps == [] || Break(ps[0], word) }

  /** Aliases stand alone; free says that a word may begin where ps begins. */
  predicate Framed(ps: Pieces, free: bool, word: char -> bool) {
    ps == [] ||
    ((ps[0].Tok? ==> free && EndsHere(ps[1..], word)) && Framed(ps[1..], Break(ps[0], word), word))
  }

  /** Wherever the name is spelled out, it is a whole word. */
  predicate Whole(ps: Pieces, free: bool, name: string, word: char -> bool) {
    ps == [] ||
    ((LitsAt(ps, name) ==> free && EndsHere(ps[|name|..], word)) && Whole(ps[1..], Break(ps[0], word), name, word))
  }

  predicate IsWord(name: string, word: char -> bool) {
    name != "" && forall i :: 0 <= i < |name| ==> word(name[i])
  }

  predicate Outside(name: string, a: string) {
    forall k :: 0 <= k < |a| ==> !(name <= a[k..])
  }

  ghost predicate OutsideAll(name: string, ps: Pieces) {
    forall i :: 0 <= i < |ps| && ps[i].Tok? ==> Outside(name, ps[i].alias)
  }

  /** A word that begins among the literals is spelled by literals. */
  lemma {:induction false} WordIsSpelled(ps: Pieces, free: bool, name: string, word: char -> bool)
    requires Framed(ps, free, word) && !free && IsWord(name, word) && name <= Render(ps)
    ensures LitsAt(ps, name)
  {
    if ps[0].Lit? {
      assert name[0] == ps[0].c;
      assert Render(ps)[1..] == Render(ps[1..]);
      if name[1..] != "" {
        assert forall i :: 0 <= i < |name| - 1 ==> name[1..][i] == name[i + 1];
        WordIsSpelled(ps[1..], false, name[1..], word);
      }
      assert Lits(name) == [ps[0]] + Lits(name[1..]);
      assert ps == [ps[0]] + ps[1..];
    }
  }

  /** A word that is no part of an alias does not begin in one. */
  lemma NotInToken(w: string, tail: Pieces, name: string, k: nat, word: char -> bool)
    requires IsWord(name, word) && Outside(name, w) && EndsHere(tail, word) && k < |w|
    ensures !(name <= (w + Render(tail))[k..])
  {
    var rest := Render(tail);
    assert (w + rest)[k..] == w[k..] + rest;
    var j := |w| - k;
    if |name| > j && tail != [] {
      assert (w[k..] + rest)[j] == rest[0] == tail[0].c;
    }
  }

  /** Where a name is met, it is met as literals. */
  lemma MetAsLiterals(ps: Pieces, free: bool, name: string, k: nat, word: char -> bool)
    requires Framed(ps, free, word) && IsWord(name, word) && ps != [] && OutsideAll(name, ps)
    requires k < |Written(ps[0])| && name <= Render(ps)[k..]
    ensures LitsAt(ps, name)
  {
    if ps[0].Tok? {
      NotInToken(ps[0].alias, ps[1..], name, k, word);
    } else {
      var first, tail := Render(ps)[0..], Render(ps[1..]);
      assert first == [ps[0].c] + tail;
      assert name[0] == first[0] && name[1..] <= first[1..] && first[1..] == tail;
      if |name| > 1 {
        assert forall i :: 0 <= i < |name| - 1 ==> name[1..][i] == name[i + 1];
        WordIsSpelled(ps[1..], false, name[1..], word);
      } else {
        assert name[1..] == "";
      }
      LitsAtNext(ps, name);
    }
  }

  lemma LitsAtNext(ps: Pieces, name: string)
    requires ps != [] && name != "" && ps[0] == Lit(name[0]) && LitsAt(ps[1..], name[1..])
    ensures LitsAt(ps, name)
  {
    assert ps == [ps[0]] + ps[1..];
  }

  lemma {:induction false} DropWord(ps: Pieces, free: bool, name: string, other: string, word: char -> bool)
    requires LitsAt(ps, name) && IsWord(name, word)
    requires Framed(ps, free, word) && Whole(ps, free, other, word)
    ensures Framed(ps[|name|..], false, word) && Whole(ps[|name|..], false, other, word)
    decreases |name|
  {
    assert ps[0] == Lits(name)[0] == Lit(name[0]);
    assert word(name[0]);
    if |name| == 1 {
      assert ps[1..] == ps[|name|..];
    } else {
      assert ps[1..][..|name| - 1] == ps[..|name|][1..];
      assert Lits(name)[1..] == Lits(name[1..]);
      assert LitsAt(ps[1..], name[1..]);
      assert forall i :: 0 <= i < |name| - 1 ==> name[1..][i] == name[i + 1];
      DropWord(ps[1..], false, name[1..], other, word);
      assert ps[1..][|name| - 1..] == ps[|name|..];
    }
  }

  /** Scanning a framed text for a whole word meets nothing it should not. */
  lemma {:induction false} WordClean(ps: Pieces, free: bool, name: string, full: map<string, string>,
                                     word: char -> bool)
    requires Known(ps, full) && IsWord(name, word) && (forall c :: IsDigit(c) ==> word(c))
    requires Framed(ps, free, word) && Whole(ps, free, name, word) && OutsideAll(name, ps)
    ensures NameClean(ps, name, full)
    decreases |ps|
  {
    if ps != [] {
      if LitsAt(ps, name) {
        DropWord(ps, free, name, name, word);
        WordClean(ps[|name|..], false, name, full, word);
      } else {
        forall k | 0 <= k < |Written(ps[0])| ensures !(name <= Render(ps)[k..]) {
          if name <= Render(ps)[k..] {
            MetAsLiterals(ps, free, name, k, word);
          }
        }
        WordClean(ps[1..], Break(ps[0], word), name, full, word);
      }
    }
  }

  /** Literals left by a scan were there before it. */
  lemma {:induction false} SpelledBefore(ps: Pieces, name: string, a: string, other: string, word: char -> bool)
    requires |name| > 0 && LitsAt(NamePieces(ps, name, a), other)
    ensures LitsAt(ps, other)
    ensures EndsHere(ps[|other|..], word) ==> IsWord(name, word) ==> EndsHere(NamePieces(ps, name, a)[|other|..], word)
    decreases |other|
  {
    var out := NamePieces(ps, name, a);
    if other == "" {
      assert Lits(other) == [] && ps[0..] == ps && out[0..] == out;
    } else {
      assert out[0] == Lits(other)[0] == Lit(other[0]);
      assert out[1..][..|other| - 1] == out[..|other|][1..];
      assert Lits(other)[1..] == Lits(other[1..]);
      SpelledBefore(ps[1..], name, a, other[1..], word);
      assert ps == [ps[0]] + ps[1..];
      assert ps[1..][|other| - 1..] == ps[|other|..];
      assert out[1..][|other| - 1..] == out[|other|..];
    }
  }

  /** The scan for one name keeps the text framed and the other names whole. */
  lemma {:induction false} WordKeeps(ps: Pieces, free: bool, name: string, a: string, other: string, word: char -> bool)
    requires IsWord(name, word) && IsWord(other, word)
    requires Framed(ps, free, word) && Whole(ps, free, name, word) && Whole(ps, free, other, word)
    ensures Framed(NamePieces(ps, name, a), free, word)
    ensures Whole(NamePieces(ps, name, a), free, other, word)
    decreases |ps|
  {
    var out := NamePieces(ps, name, a);
    if ps == [] {
    } else if LitsAt(ps, name) {
      var rest := ps[|name|..];
      DropWord(ps, free, name, other, word);
      DropWord(ps, free, name, name, word);
      WordKeeps(rest, false, name, a, other, word);
      assert out[1..] == NamePieces(rest, name, a);
      assert Lits(other)[0] == Lit(other[0]);
    } else {
      WordKeeps(ps[1..], Break(ps[0], word), name, a, other, word);
      assert out[1..] == NamePieces(ps[1..], name, a);
      if LitsAt(out, other) {
        SpelledBefore(ps, name, a, other, word);
      }
    }
  }

  lemma {:induction false} TokensOutside(ps: Pieces, name: string, a: string, other: string, full: map<string, string>)
    requires |name| > 0 && OutsideAll(other, ps) && Outside(other, a) && Known(ps, full) && a in full
    ensures OutsideAll(other, NamePieces(ps, name, a)) && Known(NamePieces(ps, name, a), full)
    decreases |ps|
  {
    if ps != [] {
      TokensOutside(if LitsAt(ps, name) then ps[|name|..] else ps[1..], name, a, other, full);
    }
  }

  lemma {:induction false} KnownCleanFrom(ps: Pieces, keys: seq<string>, to: map<string, string>,
                                          full: map<string, string>, word: char -> bool)
    requires Known(ps, full) && (forall c :: IsDigit(c) ==> word(c)) && Framed(ps, true, word)
    requires forall k <- keys :: k in to && |k| > 0 && to[k] in full
    requires forall k <- keys :: IsWord(k, word) && Whole(ps, true, k, word) && OutsideAll(k, ps)
    requires forall k <- keys, l <- keys :: Outside(k, to[l])
    ensures KnownClean(ps, keys, to, full) && Framed(KnownPieces(ps, keys, to), true, word)
    decreases |keys|
  {
    if keys != [] {
      var name, a := keys[0], to[keys[0]];
      var next := NamePieces(ps, name, a);
      assert name in keys && Outside(name, a);
      WordClean(ps, true, name, full, word);
      WordKeeps(ps, true, name, a, name, word);
      TokensOutside(ps, name, a, name, full);
      forall k | k in keys[1..]
        ensures k in keys && Whole(next, true, k, word) && OutsideAll(k, next)
      {
        assert k in keys;
        WordKeeps(ps, true, name, a, k, word);
        TokensOutside(ps, name, a, k, full);
      }
      KnownCleanFrom(next, keys[1..], to, full, word);
    }
  }

  /** In x the name is always a whole word. */
  predicate WholeIn(x: string, name: string, word: char -> bool) {
    forall i :: 0 <= i <= |x| && name <= x[i..] ==>
      (i == 0 || !word(x[i - 1])) && (i + |name| == |x| || !word(x[i + |name|]))
  }

  lemma {:induction false} LitsOf(x: string, i: nat)
    requires i <= |x|
    ensures Lits(x)[i..] == Lits(x[i..])
    ensures i < |x| ==> Lits(x)[i] == Lit(x[i])
  {
    if i > 0 {
      LitsOf(x[1..], i - 1);
      assert x[1..][i - 1..] == x[i..];
      assert Lits(x)[1..] == Lits(x[1..]);
      assert Lits(x)[1..][i - 1..] == Lits(x)[i..];
    } else {
      assert x[0..] == x && Lits(x)[0..] == Lits(x);
    }
  }

  lemma LitsPrefix(name: string, x: string)
    requires Lits(name) <= Lits(x)
    ensures name <= x
  {
    forall i | 0 <= i < |name| ensures name[i] == x[i] {
      LitsOf(name, i);
      LitsOf(x, i);
      assert Lits(name)[i] == Lits(x)[i];
    }
  }

  /** The same from some place of a text on; free tells whether a word may begin there. */
  predicate WholeFrom(x: string, free: bool, name: string, word: char -> bool) {
    forall i :: 0 <= i <= |x| && name <= x[i..] ==>
      (if i == 0 then free else !word(x[i - 1])) && (i + |name| == |x| || !word(x[i + |name|]))
  }

  lemma WholeNext(x: string, free: bool, name: string, word: char -> bool)
    requires x != "" && WholeFrom(x, free, name, word)
    ensures WholeFrom(x[1..], !word(x[0]), name, word)
  {
    var y := x[1..];
    forall i | 0 <= i <= |y| && name <= y[i..]
      ensures (if i == 0 then !word(x[0]) else !word(y[i - 1])) && (i + |name| == |y| || !word(y[i + |name|]))
    {
      assert y[i..] == x[i + 1..];
    }
  }

  lemma WholeFirst(x: string, free: bool, name: string, word: char -> bool)
    requires WholeFrom(x, free, name, word) && LitsAt(Lits(x), name)
    ensures free && EndsHere(Lits(x)[|name|..], word)
  {
    LitsPrefix(name, x);
    assert x[0..] == x;
    LitsOf(x, |name|);
  }

  lemma {:induction false} PlainWhole(x: string, free: bool, name: string, word: char -> bool)
    requires WholeFrom(x, free, name, word)
    ensures Whole(Lits(x), free, name, word)
  {
    if x != "" {
      WholeNext(x, free, name, word);
      PlainWhole(x[1..], !word(x[0]), name, word);
      if LitsAt(Lits(x), name) {
        WholeFirst(x, free, name, word);
      }
    }
  }

  lemma PlainOutside(x: string, name: string)
    ensures OutsideAll(name, Lits(x))
  {
    forall i | 0 <= i < |Lits(x)| ensures Lits(x)[i].Lit? {
      LitsOf(x, i);
    }
  }

  lemma {:induction false} LitsFramed(x: string, free: bool, word: char -> bool)
    ensures Framed(Lits(x), free, word)
  {
    if x != "" {
      LitsFramed(x[1..], !word(x[0]), word);
    }
  }

  /** A text in which the known values are whole words, and no known value is
      part of an alias: putting the aliases in damages none of them, in every
      order of the values. */
  lemma WholeWordsClean(x: string, keys: seq<string>, to: map<string, string>, full: map<string, string>,
                        word: char -> bool)
    requires forall c :: IsDigit(c) ==> word(c)
    requires forall k <- keys :: k in to && |k| > 0 && to[k] in full && IsWord(k, word) && WholeIn(x, k, word)
    requires forall k <- keys, l <- keys :: Outside(k, to[l])
    ensures KnownClean(Lits(x), keys, to, full) && Framed(KnownPieces(Lits(x), keys, to), true, word)
  {
    LitsMean(x, full);
    forall k <- keys ensures Whole(Lits(x), true, k, word) && Framed(Lits(x), true, word) && OutsideAll(k, Lits(x)) {
      PlainWhole(x, true, k, word);
      PlainOutside(x, k);
      LitsFramed(x, true, word);
    }
    LitsFramed(x, true, word);
    if keys != [] {
      assert keys[0] in keys;
      KnownCleanFrom(Lits(x), keys, to, full, word);
    }
  }
}
