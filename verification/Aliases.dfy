/** The meaning of an anonymised text (internal/ai/anonymize.go): a text is
    literal characters and alias tokens, and its meaning is what the operator
    should read once every token has been resolved. */
module Aliases {
  import opened Text

  /** One literal character, or one whole alias. */
  datatype Piece = Lit(c: char) | Tok(alias: string)

  type Pieces = seq<Piece>

  /** How a piece is written in the text that leaves for the model. */
  function Written(p: Piece): string {
    match p case Lit(c) => [c] case Tok(a) => a
  }

  function Render(ps: Pieces): string {
    if ps == [] then "" else Written(ps[0]) + Render(ps[1..])
  }

  /** Every alias used in ps has a meaning. */
  predicate Known(ps: Pieces, full: map<string, string>) {
    forall i :: 0 <= i < |ps| && ps[i].Tok? ==> ps[i].alias in full
  }

  function Meaning(ps: Pieces, full: map<string, string>): string
    requires Known(ps, full)
  {
    if ps == [] then ""
    else (if ps[0].Lit? then [ps[0].c] else full[ps[0].alias]) + Meaning(ps[1..], full)
  }

  // ---- the shape of an alias: kind, a dash, a decimal number ----

  /** Kinds from which an alias can be read back: no digits, no dash, and none
      ends with another one. "host", "ip", "email" and "domain" are such. */
  predicate GoodKinds(kinds: set<string>) {
    && (forall k <- kinds :: |k| > 0 && forall i :: 0 <= i < |k| ==> k[i] != '-' && !IsDigit(k[i]))
    && (forall a <- kinds, b <- kinds, j :: 0 < j < |a| ==> a[j..] != b)
  }

  predicate AliasWord(a: string, kind: string) {
    && |a| > |kind| + 1 && kind <= a && a[|kind|] == '-'
    && forall i :: |kind| < i < |a| ==> IsDigit(a[i])
  }

  ghost predicate IsAlias(a: string, kinds: set<string>) {
    exists k :: k in kinds && AliasWord(a, k)
  }

  /** kind, dash and one digit: the shortest text that reads as an alias. */
  function Stem(kind: string, d: char): string { kind + ['-', d] }

  /** At i, s reads as the beginning of an alias. */
  predicate ReadsAt(s: string, i: nat, kind: string, d: char) {
    i <= |s| && Stem(kind, d) <= s[i..]
  }

  ghost predicate Aliased(ps: Pieces, kinds: set<string>) {
    forall i :: 0 <= i < |ps| && ps[i].Tok? ==> IsAlias(ps[i].alias, kinds)
  }

  /** Every token of ps is shorter than n characters. */
  predicate Under(ps: Pieces, n: nat) {
    forall i :: 0 <= i < |ps| && ps[i].Tok? ==> |ps[i].alias| < n
  }

  /** Nothing in s reads as an alias of one of the kinds. */
  ghost predicate AliasFree(s: string, kinds: set<string>) {
    forall k, d, i: nat :: k in kinds && IsDigit(d) ==> !ReadsAt(s, i, k, d)
  }

  predicate DigitFirst(s: string) { |s| > 0 && IsDigit(s[0]) }

  /** No alias is followed, in the meaning of the text, by a digit. */
  predicate Spaced(ps: Pieces, full: map<string, string>)
    requires Known(ps, full)
  {
    ps == [] || ((ps[0].Tok? ==> !DigitFirst(Meaning(ps[1..], full))) && Spaced(ps[1..], full))
  }

  /** A text whose aliases can be told from its letters. */
  ghost predicate Legible(ps: Pieces, full: map<string, string>, kinds: set<string>) {
    && Known(ps, full)
    && Aliased(ps, kinds)
    && Spaced(ps, full)
    && AliasFree(Meaning(ps, full), kinds)
  }

  // ---- concatenation ----

  lemma {:induction false} RenderConcat(a: Pieces, b: Pieces)
    ensures Render(a + b) == Render(a) + Render(b)
  {
    if a == [] {
      assert a + b == b;
    } else {
      assert (a + b)[1..] == a[1..] + b;
      RenderConcat(a[1..], b);
    }
  }

  lemma {:induction false} MeaningConcat(a: Pieces, b: Pieces, full: map<string, string>)
    requires Known(a, full) && Known(b, full)
    ensures Known(a + b, full) && Meaning(a + b, full) == Meaning(a, full) + Meaning(b, full)
  {
    if a == [] {
      assert a + b == b;
    } else {
      assert (a + b)[1..] == a[1..] + b;
      MeaningConcat(a[1..], b, full);
    }
  }

  lemma {:induction false} SpacedConcat(a: Pieces, b: Pieces, full: map<string, string>)
    requires Known(a, full) && Known(b, full)
    requires Spaced(a, full) && Spaced(b, full) && !DigitFirst(Meaning(b, full))
    ensures Known(a + b, full) && Spaced(a + b, full)
  {
    if a == [] {
      assert a + b == b;
    } else {
      assert (a + b)[1..] == a[1..] + b;
      MeaningConcat(a[1..], b, full);
      SpacedConcat(a[1..], b, full);
    }
  }

  /** Both halves of an alias-free text are alias-free. */
  lemma AliasFreeHalves(s: string, t: string, kinds: set<string>)
    requires AliasFree(s + t, kinds)
    ensures AliasFree(s, kinds) && AliasFree(t, kinds)
  {
    forall k, d, i: nat | k in kinds && IsDigit(d)
      ensures !ReadsAt(s, i, k, d) && !ReadsAt(t, i, k, d)
    {
      assert !ReadsAt(s + t, i, k, d) && !ReadsAt(s + t, |s| + i, k, d);
      assert i <= |s| ==> (s + t)[i..] == s[i..] + t;
      assert i <= |t| ==> (s + t)[|s| + i..] == t[i..];
    }
  }

  lemma LegibleTail(ps: Pieces, full: map<string, string>, kinds: set<string>)
    requires Legible(ps, full, kinds) && ps != []
    ensures Legible(ps[1..], full, kinds)
  {
    var head := if ps[0].Lit? then [ps[0].c] else full[ps[0].alias];
    AliasFreeHalves(head, Meaning(ps[1..], full), kinds);
  }

  // ---- reading an alias ----

  /** Two words that start alike with a kind, a dash and a digit have the same kind. */
  lemma SameKind(s: string, kind: string, j: nat, t: string, other: string, kinds: set<string>)
    requires GoodKinds(kinds) && kind in kinds && other in kinds
    requires j <= |kind| && |s| >= |kind| - j + 1 && |t| >= |other| + 1
    requires s[..|kind| - j + 1] == kind[j..] + "-"
    requires t[..|other| + 1] == other + "-"
    requires j < |kind|
    requires s <= t || t <= s
    ensures j == 0 && kind == other
  {
    var m := |kind| - j;
    assert s[m] == '-' && t[|other|] == '-';
    assert forall i :: 0 <= i < |other| ==> t[i] == other[i] != '-';
    assert forall i :: 0 <= i < m ==> s[i] == kind[j + i] != '-';
    assert s[..m] == kind[j..] && t[..|other|] == other;
  }

  /** The rest of a stem that starts among literals stays among literals. */
  lemma {:induction false} StemIsLiteral(ps: Pieces, kind: string, d: char, j: nat, full: map<string, string>,
                                         kinds: set<string>)
    requires GoodKinds(kinds) && kind in kinds && IsDigit(d)
    requires Known(ps, full) && Aliased(ps, kinds)
    requires 0 < j <= |kind| + 2 && Stem(kind, d)[j..] <= Render(ps)
    ensures Stem(kind, d)[j..] <= Meaning(ps, full)
    decreases |ps|
  {
    var s := Stem(kind, d)[j..];
    if s != [] {
      assert ps != [];
      if ps[0].Lit? {
        assert s[0] == ps[0].c;
        assert s[1..] == Stem(kind, d)[j + 1..];
        assert Render(ps)[1..] == Render(ps[1..]);
        StemIsLiteral(ps[1..], kind, d, j + 1, full, kinds);
        assert s == [s[0]] + s[1..];
      } else {
        StemInToken(ps, kind, d, j, kinds);
      }
    }
  }

  /** No token begins inside a kind. */
  lemma StemInToken(ps: Pieces, kind: string, d: char, j: nat, kinds: set<string>)
    requires GoodKinds(kinds) && kind in kinds && IsDigit(d) && Aliased(ps, kinds)
    requires 0 < j < |kind| + 2 && Stem(kind, d)[j..] <= Render(ps) && ps != []
    ensures ps[0].Lit?
  {
    if ps[0].Tok? {
      var other :| other in kinds && AliasWord(ps[0].alias, other);
      StemInWord(Render(ps), kind, d, j, ps[0].alias, other, kinds);
    }
  }

  lemma StemInWord(r: string, kind: string, d: char, j: nat, b: string, other: string, kinds: set<string>)
    requires GoodKinds(kinds) && kind in kinds && other in kinds && IsDigit(d)
    requires 0 < j < |kind| + 2 && AliasWord(b, other) && b <= r
    ensures !(Stem(kind, d)[j..] <= r)
  {
    var s := Stem(kind, d)[j..];
    if s <= r {
      assert s[0] == r[0] == b[0] == other[0];
      assert j < |kind|;
      assert s[..|kind| - j + 1] == kind[j..] + "-" && b[..|other| + 1] == other + "-";
      SameKind(s, kind, j, b, other, kinds);
    }
  }

  lemma PrefixesAgree(a: string, b: string, s: string)
    requires a <= s && b <= s
    ensures a <= b || b <= a
  {
  }

  lemma StemOf(a: string, kind: string) returns (d: char)
    requires AliasWord(a, kind)
    ensures IsDigit(d) && Stem(kind, d) <= a
  {
    d := a[|kind| + 1];
    assert a[..|kind| + 2] == Stem(kind, d);
  }

  lemma StemFromLiteral(ps: Pieces, kind: string, d: char, full: map<string, string>, kinds: set<string>)
    requires GoodKinds(kinds) && kind in kinds && IsDigit(d)
    requires Known(ps, full) && Aliased(ps, kinds)
    requires ps != [] && ps[0].Lit? && Stem(kind, d) <= Render(ps)
    ensures ReadsAt(Meaning(ps, full), 0, kind, d)
  {
    var s := Stem(kind, d);
    assert s[0] == ps[0].c;
    assert Render(ps)[1..] == Render(ps[1..]);
    StemIsLiteral(ps[1..], kind, d, 1, full, kinds);
    assert s == [s[0]] + s[1..];
  }

  /** A literal never starts an alias. */
  lemma LiteralStartsNoAlias(ps: Pieces, a: string, full: map<string, string>, kinds: set<string>)
    requires GoodKinds(kinds) && IsAlias(a, kinds)
    requires Legible(ps, full, kinds) && ps != [] && ps[0].Lit?
    ensures !(a <= Render(ps))
  {
    var kind :| kind in kinds && AliasWord(a, kind);
    var d := StemOf(a, kind);
    if Stem(kind, d) <= Render(ps) {
      StemFromLiteral(ps, kind, d, full, kinds);
    }
  }

  /** An alias found inside the writing of a token starts that token. */
  lemma TokenHoldsAlias(b: string, rest: string, a: string, k: nat, kinds: set<string>)
    requires GoodKinds(kinds) && IsAlias(a, kinds) && IsAlias(b, kinds) && k < |b|
    requires a <= b[k..] + rest
    ensures k == 0
  {
    var ka :| ka in kinds && AliasWord(a, ka);
    var kb :| kb in kinds && AliasWord(b, kb);
    assert a[0] == ka[0] == b[k];
    assert k < |kb|;
    PrefixesAgree(a, b[k..], b[k..] + rest);
    assert b[k..][..|kb| - k + 1] == kb[k..] + "-";
    assert a[..|ka| + 1] == ka + "-";
    SameKind(b[k..], kb, k, a, ka, kinds);
  }

  /** A longer alias than the token would need a digit right after the token. */
  lemma LongerNeedsDigit(b: string, rest: string, a: string, kinds: set<string>)
    requires GoodKinds(kinds) && IsAlias(a, kinds) && IsAlias(b, kinds)
    requires a <= b + rest && !DigitFirst(rest)
    ensures a <= b
  {
    var ka :| ka in kinds && AliasWord(a, ka);
    var kb :| kb in kinds && AliasWord(b, kb);
    PrefixesAgree(a, b, b + rest);
    assert a[..|ka| + 1] == ka + "-" && b[..|kb| + 1] == kb + "-";
    SameKind(b, kb, 0, a, ka, kinds);
    if b <= a {
      var more := a[|b|..];
      assert (b + rest)[|b|..] == rest && more <= rest;
      assert forall c <- more :: IsDigit(c);
      assert more == [];
    }
  }

  /** An alias read anywhere inside a token is a beginning of that token. */
  lemma TokenStartsAlias(ps: Pieces, a: string, k: nat, full: map<string, string>, kinds: set<string>)
    requires GoodKinds(kinds) && IsAlias(a, kinds)
    requires Legible(ps, full, kinds) && ps != [] && ps[0].Tok? && k < |ps[0].alias|
    requires a <= Render(ps)[k..]
    ensures k == 0 && a <= ps[0].alias
  {
    var b, rest := ps[0].alias, Render(ps[1..]);
    assert Render(ps)[k..] == b[k..] + rest;
    TokenHoldsAlias(b, rest, a, k, kinds);
    assert b[0..] == b;
    LongerNeedsDigit(b, rest, a, kinds);
  }
}
