/** Where the round trip of internal/ai/anonymize.go ends: one dictionary that a request can
    have for each condition of Anonymizer.RoundTrip and WholeRequest.WholeWordsComeBack. */
module AnonymizerLimits {
  import opened Aliases
  import opened Anonymizer
  import opened Dictionary
  import opened Hiding
  import opened Revealing
  import opened Text
  import opened Walks

  /** One match, at the start, and too little text after it for another. */
  lemma ReplaceHead(s: string, pat: string, sub: string, rest: string)
    requires |pat| > |rest| && s == pat + rest
    ensures ReplaceAll(s, pat, sub) == sub + rest
  {
    assert s[|pat|..] == rest;
  }

  lemma ReplaceNone(s: string, pat: string, sub: string)
    requires |pat| > 0 && forall i :: 0 < i < |s| ==> s[i] != pat[0]
    requires s == "" || s[0] != pat[0] || !(pat <= s)
    ensures ReplaceAll(s, pat, sub) == s
  {
    forall i | 0 <= i < |s| ensures !(pat <= s[i..]) {
      assert s[i..][0] == s[i] && s[0..] == s;
    }
    ReplaceAllSkips(s, pat, sub, |s|);
    assert s[|s|..] == "" && s[..|s|] == s;
  }

  /** The text itself holds "host-1": Reveal takes it for the alias. */
  lemma AliasInText()
    ensures var d := Dict(map["alpha" := "host-1"], map["host-1" := "alpha"], map["host" := 1]);
      && d == Register(Empty, "host", "alpha").0
      && RevealText(HideKnown("host-1", ["alpha"], d.to), ["host-1"], d.back) == "alpha"
  {
    assert Dec(1) == "1";
    assert AliasName("host", 1) == "host-1";
    ReplaceNone("host-1", "alpha", "host-1");
    ReplaceHead("host-1", "host-1", "alpha", "");
    assert "alpha" + "" == "alpha";
  }

  // ---- a value before a digit ----

  /** The dictionary after learning these names, one after the other. */
  function Learnt(kind: string, names: seq<string>): Dict {
    if names == [] then Empty else Register(Learnt(kind, names[..|names| - 1]), kind, names[|names| - 1]).0
  }

  ghost predicate Plain(names: seq<string>, kinds: set<string>) {
    && (forall i :: 0 <= i < |names| ==> names[i] != "" && AliasFree(names[i], kinds))
    && (forall i, j :: 0 <= i < j < |names| ==> names[i] != names[j])
  }

  function PlainBook(back: map<string, string>): Book { Book(map a | a in back :: Lits(back[a]), back) }

  lemma {:induction false} LearntValid(kind: string, names: seq<string>)
    requires forall i :: 0 <= i < |names| ==> names[i] != ""
    ensures ValidDict(Learnt(kind, names))
  {
    if names != [] {
      var n := |names| - 1;
      LearntValid(kind, names[..n]);
      RegisterKeepsDict(Learnt(kind, names[..n]), kind, names[n]);
    }
  }

  /** They get the numbers from 1 on. */
  ghost predicate Numbering(kind: string, names: seq<string>, to: map<string, string>) {
    && (forall k :: k in to <==> k in names)
    && forall i :: 0 <= i < |names| ==> names[i] in to && to[names[i]] == AliasName(kind, i + 1)
  }

  lemma NumberingNext(kind: string, names: seq<string>, to: map<string, string>, name: string)
    requires Numbering(kind, names, to) && name !in names
    ensures Numbering(kind, names + [name], to[name := AliasName(kind, |names| + 1)])
  {}

  lemma {:induction false} LearntAre(kind: string, names: seq<string>)
    requires forall i, j :: 0 <= i < j < |names| ==> names[i] != names[j]
    ensures Numbering(kind, names, Learnt(kind, names).to) && Count(Learnt(kind, names), kind) == |names|
  {
    if names != [] {
      var n := |names| - 1;
      LearntAre(kind, names[..n]);
      var d, name := Learnt(kind, names[..n]), names[n];
      assert names == names[..n] + [name];
      assert name !in names[..n];
      NumberingNext(kind, names[..n], d.to, name);
      NewName(kind, d, name);
    }
  }

  lemma NewName(kind: string, d: Dict, name: string)
    requires name !in d.to
    ensures var e := Register(d, kind, name).0;
      e.to == d.to[name := AliasName(kind, Count(d, kind) + 1)] && Count(e, kind) == Count(d, kind) + 1
  {}

  ghost predicate NumberOf(kind: string, names: seq<string>, a: string, name: string, i: int) {
    0 <= i < |names| && names[i] == name && a == AliasName(kind, i + 1)
  }

  lemma BackNumbers(kind: string, names: seq<string>, d: Dict, a: string) returns (i: nat)
    requires ValidDict(d) && Numbering(kind, names, d.to) && a in d.back
    ensures NumberOf(kind, names, a, d.back[a], i)
  {
    BackIsName(d, a);
    i :| 0 <= i < |names| && names[i] == d.back[a];
  }

  /** Values without aliases: each alias means its value. */
  lemma PlainCoherent(kind: string, names: seq<string>, back: map<string, string>, kinds: set<string>)
    requires GoodKinds(kinds) && kind in kinds && Plain(names, kinds)
    requires forall a <- back :: exists i :: NumberOf(kind, names, a, back[a], i)
    ensures Coherent(back, PlainBook(back), kinds)
  {
    var book := PlainBook(back);
    forall a <- back ensures EntryOk(a, back[a], book, kinds) {
      OneEntryOk(kind, names, back, book, a, kinds);
    }
  }

  lemma OneEntryOk(kind: string, names: seq<string>, back: map<string, string>, book: Book, a: string,
                   kinds: set<string>)
    requires kind in kinds && Plain(names, kinds) && a in back && exists i :: NumberOf(kind, names, a, back[a], i)
    requires a in book.entries && a in book.full && book.entries[a] == Lits(back[a]) && book.full[a] == back[a]
    ensures EntryOk(a, back[a], book, kinds)
  {
    var i :| NumberOf(kind, names, a, back[a], i);
    PlainEntryOk(a, names[i], book, kinds, kind, i + 1);
  }

  lemma BackIsName(d: Dict, a: string)
    requires ValidDict(d) && a in d.back
    ensures d.back[a] in d.to && d.to[d.back[a]] == a
  {}

  lemma ToIsBack(d: Dict, name: string)
    requires ValidDict(d) && name in d.to
    ensures d.to[name] in d.back && d.back[d.to[name]] == name && name != ""
  {}

  lemma PlainEntryOk(a: string, name: string, book: Book, kinds: set<string>, kind: string, n: nat)
    requires a in book.entries && a in book.full && book.entries[a] == Lits(name) && book.full[a] == name
    requires AliasFree(name, kinds) && kind in kinds && a == AliasName(kind, n)
    ensures EntryOk(a, name, book, kinds)
  {
    LitsLegible(name, book.full, kinds);
    NumberedAlias(kind, n, kinds);
  }

  lemma NumberedAlias(kind: string, n: nat, kinds: set<string>)
    requires kind in kinds
    ensures IsAlias(AliasName(kind, n), kinds)
  {
    assert AliasWord(AliasName(kind, n), kind);
  }

  /** Of the known values only one stands in the text, and none in what comes of it. */
  lemma {:induction false} OnlyOne(text: string, known: seq<string>, to: map<string, string>, v: string, out: string)
    requires (forall k <- known :: k in to && |k| > 0) && v in known
    requires ReplaceAll(text, v, to[v]) == out
    requires forall k <- known :: (k != v ==> !Contains(text, k)) && !Contains(out, k)
    ensures HideKnown(text, known, to) == out
  {
    if known[0] == v {
      NoneOf(out, known[1..], to);
    } else {
      NotContained(text, known[0], to[known[0]]);
      assert known == [known[0]] + known[1..];
      OnlyOne(text, known[1..], to, v, out);
    }
  }

  lemma {:induction false} NoneOf(text: string, known: seq<string>, to: map<string, string>)
    requires forall k <- known :: k in to && |k| > 0 && !Contains(text, k)
    ensures HideKnown(text, known, to) == text
  {
    if known != [] {
      NotContained(text, known[0], to[known[0]]);
      NoneOf(text, known[1..], to);
    }
  }

  lemma NotContained(text: string, k: string, sub: string)
    requires |k| > 0 && !Contains(text, k)
    ensures ReplaceAll(text, k, sub) == text
  {
    ReplaceAllSkips(text, k, sub, |text|);
    assert text[..|text|] == text && text[|text|..] == "";
  }

  /** With eleven hosts known, the first one before a digit 1 is sent as the alias of the
      eleventh, and comes back as that host, in every order. */
  lemma DigitAfterValue(host: string, names: seq<string>, text: string, hidden: string, known: seq<string>,
                        keys: seq<string>)
    requires host == "host" && text == "web1" && hidden == "host-11"
    requires Plain(names, {host}) && |names| >= 11 && names[0] == "web" && names[10] != text
    requires forall i :: 0 <= i < |names| ==> (i > 0 ==> !Contains(text, names[i])) && !Contains(hidden, names[i])
    requires var d := Learnt(host, names); Walk(known, d.to.Keys) && Walk(keys, d.back.Keys) && LongestFirst(keys)
    ensures var d := Learnt(host, names);
      && (forall k <- known :: k in d.to && |k| > 0) && HideKnown(text, known, d.to) == hidden
      && (forall k <- keys :: k in d.back && |k| > 0) && RevealText(hidden, keys, d.back) == names[10] != text
  {
    HostIsGood(host);
    HostNumbers(host, hidden);
    WebOne(text, names[0], AliasName(host, 1), hidden);
    FirstReadsAs(host, names, Learnt(host, names), 10, text, hidden, known, keys, {host});
  }

  lemma FirstReadsAs(kind: string, names: seq<string>, d: Dict, n: nat, text: string, a: string, known: seq<string>,
                     keys: seq<string>, kinds: set<string>)
    requires GoodKinds(kinds) && kind in kinds && Plain(names, kinds) && n < |names| && d == Learnt(kind, names)
    requires a == AliasName(kind, n + 1) && ReplaceAll(text, names[0], AliasName(kind, 1)) == a
    requires forall i :: 0 <= i < |names| ==> (i > 0 ==> !Contains(text, names[i])) && !Contains(a, names[i])
    requires Walk(known, d.to.Keys) && Walk(keys, d.back.Keys) && LongestFirst(keys)
    ensures (forall k <- known :: k in d.to && |k| > 0) && HideKnown(text, known, d.to) == a
    ensures (forall k <- keys :: k in d.back && |k| > 0) && RevealText(a, keys, d.back) == names[n]
  {
    LearntValid(kind, names);
    LearntAre(kind, names);
    SentAs(kind, names, d, text, a, known);
    MeansValue(kind, names, d, n, keys, kinds);
  }

  lemma SentAs(kind: string, names: seq<string>, d: Dict, text: string, a: string, known: seq<string>)
    requires names != [] && ValidDict(d) && Numbering(kind, names, d.to) && Walk(known, d.to.Keys)
    requires |names[0]| > 0 && ReplaceAll(text, names[0], AliasName(kind, 1)) == a
    requires forall i :: 0 <= i < |names| ==> (i > 0 ==> !Contains(text, names[i])) && !Contains(a, names[i])
    ensures (forall k <- known :: k in d.to && |k| > 0) && HideKnown(text, known, d.to) == a
  {
    forall k | k in known
      ensures k in d.to && |k| > 0 && (k != names[0] ==> !Contains(text, k)) && !Contains(a, k)
    {
      ToIsBack(d, k);
      var i :| 0 <= i < |names| && names[i] == k;
    }
    OnlyOne(text, known, d.to, names[0], a);
  }

  lemma HostIsGood(host: string)
    requires host == "host"
    ensures GoodKinds({host})
  {}

  lemma MeansValue(kind: string, names: seq<string>, d: Dict, i: nat, keys: seq<string>, kinds: set<string>)
    requires GoodKinds(kinds) && kind in kinds && Plain(names, kinds)
    requires ValidDict(d) && Numbering(kind, names, d.to) && i < |names|
    requires Walk(keys, d.back.Keys) && LongestFirst(keys)
    ensures (forall k <- keys :: k in d.back && |k| > 0)
    ensures RevealText(AliasName(kind, i + 1), keys, d.back) == names[i]
  {
    var a, book := AliasName(kind, i + 1), PlainBook(d.back);
    ToIsBack(d, names[i]);
    forall b | b in d.back ensures exists j :: NumberOf(kind, names, b, d.back[b], j) {
      var j := BackNumbers(kind, names, d, b);
    }
    PlainCoherent(kind, names, d.back, kinds);
    NumberedAlias(kind, i + 1, kinds);
    OneToken(a, names[i], book.full, kinds);
    RevealIsMeaning([Tok(a)], keys, d.back, book, kinds);
  }

  lemma OneToken(a: string, name: string, full: map<string, string>, kinds: set<string>)
    requires a in full && full[a] == name && IsAlias(a, kinds) && AliasFree(name, kinds)
    ensures Legible([Tok(a)], full, kinds) && Render([Tok(a)]) == a && Meaning([Tok(a)], full) == name
  {
    var ps := [Tok(a)];
    assert ps[1..] == [] && a + "" == a && name + "" == name;
  }

  lemma HostNumbers(host: string, hidden: string)
    requires host == "host" && hidden == "host-11"
    ensures AliasName(host, 1) == "host-1" && AliasName(host, 11) == hidden
  {
    assert Dec(1) == "1" && Dec(11) == Dec(1) + "1" == "11";
  }

  lemma WebOne(text: string, v: string, a: string, out: string)
    requires text == "web1" && v == "web" && a == "host-1" && out == "host-11"
    ensures ReplaceAll(text, v, a) == out
  {
    assert text == v + "1" && out == a + "1";
    ReplaceHead(text, v, a, "1");
  }

  // ---- a value inside an alias ----

  /** A known value inside an alias: the answer depends on the order sort
      happens to give two aliases of one length. */
  lemma ValueInAlias(text: string, value: string, a: string, b: string)
    requires text == "alpha" && value == "host" && a == "host-1" && b == "host-2"
    ensures var d := Register(Register(Empty, "host", text).0, "host", value).0;
      && d.to == map[text := a, value := b] && d.back == map[a := text, b := value]
      && HideKnown(text, [text, value], d.to) == b + "-1"
      && RevealText(b + "-1", [a, b], d.back) == a
      && RevealText(b + "-1", [b, a], d.back) == text
  {
    TwoHosts(text, value, a, b);
    assert a == value + "-1" && a != b && |text| != |value|;
    ReplaceHead(text, text, a, "");
    ReplaceHead(a, value, b, "-1");
    HideTwo(text, text, value, map[text := a, value := b]);
    assert a + "" == a && text + "" == text;
    assert (b + "-1")[5] != a[5];
    ReplaceNone(b + "-1", a, text);
    ReplaceHead(b + "-1", b, value, "-1");
    ReplaceHead(a, a, text, "");
    RevealTwo(b + "-1", a, b, map[a := text, b := value]);
    RevealTwo(b + "-1", b, a, map[a := text, b := value]);
  }

  lemma TwoHosts(x: string, y: string, a: string, b: string)
    requires x != y && a == "host-1" && b == "host-2"
    ensures var d := Register(Register(Empty, "host", x).0, "host", y).0;
      d.to == map[x := a, y := b] && d.back == map[a := x, b := y]
  {
    assert Dec(1) == "1" && Dec(2) == "2";
    assert AliasName("host", 1) == "host" + "-" + "1" == a && AliasName("host", 2) == "host" + "-" + "2" == b;
  }

  lemma HideTwo(t: string, x: string, y: string, to: map<string, string>)
    requires x in to && y in to && |x| > 0 && |y| > 0
    ensures HideKnown(t, [x, y], to) == ReplaceAll(ReplaceAll(t, x, to[x]), y, to[y])
  {
    assert [x, y][0] == x && [x, y][1..] == [y] && [y][0] == y && [y][1..] == [];
    var u := ReplaceAll(t, x, to[x]);
    assert HideKnown(t, [x, y], to) == HideKnown(u, [y], to);
    assert HideKnown(u, [y], to) == HideKnown(ReplaceAll(u, y, to[y]), [], to);
  }

  // ---- matches around aliases ----

  predicate Among(s: string, lo: nat, hi: nat, ok: char -> bool) {
    lo <= |s| <= hi && forall i :: 0 <= i < |s| ==> ok(s[i])
  }

  predicate WordChar(c: char) { 'a' <= c <= 'z' || 'A' <= c <= 'Z' || IsDigit(c) || c == '_' }

  predicate LocalChar(c: char) { WordChar(c) || c in ".+-" }

  predicate LabelChar(c: char) { WordChar(c) || c == '-' }

  predicate LowerChar(c: char) { 'a' <= c <= 'z' || IsDigit(c) }

  predicate LowerLetter(c: char) { 'a' <= c <= 'z' }

  /** A text that emailRe matches as a whole: [\w.+-]+@[\w-]+(?:\.[\w-]+)+. */
  ghost predicate IsEmail(s: string) {
    exists local, host, last ::
      && Among(local, 1, |s|, LocalChar) && Among(host, 1, |s|, LabelChar) && Among(last, 1, |s|, LabelChar)
      && s == local + "@" + host + "." + last
  }

  /** And domainRe; one label before the last is enough here, with no dash in it. */
  ghost predicate IsDomain(s: string) {
    exists below, last :: Among(below, 1, 63, LowerChar) && Among(last, 2, 24, LowerLetter) && s == below + "." + last
  }

  /** An e-mail address below a known domain: its own alias is shorter than the one inside it,
      so Reveal is past domain-1 when it meets it. */
  lemma LongAliasInMatch(value: string, text: string, a: string, b: string, hit: string)
    requires value == "corp.example" && text == "ops@mail.corp.example"
    requires a == "domain-1" && b == "email-1" && hit == "ops@mail.domain-1"
    ensures var d := Register(Empty, "domain", value).0;
      var (e, t) := HideMatches(d, Matches([Part("", hit)], ""), "email", s => false);
      && d == Dict(map[value := a], map[a := value], map["domain" := 1])
      && HideKnown(text, [value], d.to) == hit && IsEmail(hit)
      && t == b && e.back == map[a := value, b := hit]
      && RevealText(t, [a, b], e.back) == hit != text
  {
    OneDomain(value, a);
    var d := Dict(map[value := a], map[a := value], map["domain" := 1]);
    assert text == "ops@mail." + value + "" && hit == "ops@mail." + a + "";
    HiddenBelow("ops@mail.", value, a, text);
    EmailBelow(hit, b);
    assert |hit| != |value| && |hit| != |text|;
    assert b[0] != a[0] && forall i :: 0 <= i < |b| ==> b[i] != 'd';
    PastLonger(value, a, b, hit);
    MatchAtStart(d, hit, "", "email", b);
    assert b + "" == b;
  }

  lemma OneDomain(value: string, a: string)
    requires a == "domain-1"
    ensures Register(Empty, "domain", value).0 == Dict(map[value := a], map[a := value], map["domain" := 1])
  {
    assert Dec(1) == "1";
    assert AliasName("domain", 1) == "domain" + "-" + "1" == a;
  }

  /** Reveal has been at the longer alias when it opens the shorter one. */
  lemma PastLonger(value: string, a: string, b: string, hit: string)
    requires |a| > 0 && |b| > 0 && a != b && forall i :: 0 <= i < |b| ==> b[i] != a[0]
    ensures RevealText(b, [a, b], map[a := value, b := hit]) == hit
  {
    ReplaceNone(b, a, value);
    ReplaceHead(b, b, hit, "");
    assert hit + "" == hit;
    RevealTwo(b, a, b, map[a := value, b := hit]);
  }

  lemma EmailBelow(hit: string, b: string)
    requires b == "email-1" && hit == "ops@mail.domain-1"
    ensures IsEmail(hit) && AliasName("email", 1) == b
  {
    assert hit == "ops" + "@" + "mail" + "." + "domain-1";
    assert Among("ops", 1, |hit|, LocalChar) && Among("mail", 1, |hit|, LabelChar) &&
      Among("domain-1", 1, |hit|, LabelChar);
    assert Dec(1) == "1";
    assert AliasName("email", 1) == "email" + "-" + "1" == b;
  }

  /** One match, in the middle. */
  lemma ReplaceOnce(s: string, pre: string, pat: string, rest: string, sub: string)
    requires |pat| > |rest| && s == pre + pat + rest && forall i :: 0 <= i < |pre| ==> pre[i] != pat[0]
    ensures ReplaceAll(s, pat, sub) == pre + sub + rest
  {
    forall i | 0 <= i < |pre| ensures !(pat <= s[i..]) {
      assert s[i..][0] == pre[i];
    }
    ReplaceAllSkips(s, pat, sub, |pre|);
    assert s[..|pre|] == pre && s[|pre|..] == pat + rest;
    ReplaceHead(pat + rest, pat, sub, rest);
  }

  /** A domain below a known one: domainRe finds the letters of the alias with the label
      before it, and the new alias stands before what is left of the old one. Whether the
      text comes back depends on the order of two aliases of one length. */
  lemma MatchCutsAlias(value: string, text: string, a: string, b: string, hit: string)
    requires value == "example.com" && text == "app.example.com"
    requires a == "domain-1" && b == "domain-2" && hit == "app.domain"
    ensures var d := Register(Empty, "domain", value).0;
      var (e, t) := HideMatches(d, Matches([Part("", hit)], "-1"), "domain", s => false);
      && d == Dict(map[value := a], map[a := value], map["domain" := 1])
      && HideKnown(text, [value], d.to) == hit + "-1" && IsDomain(hit)
      && t == b + "-1" && e.back == d.back[b := hit]
      && RevealText(t, [a, b], e.back) == hit + "-1"
      && RevealText(t, [b, a], e.back) == text
  {
    OneDomain(value, a);
    var d := Dict(map[value := a], map[a := value], map["domain" := 1]);
    assert text == "app." + value + "" && hit + "-1" == "app." + a + "";
    HiddenBelow("app.", value, a, text);
    AppDomain(hit, b);
    assert |hit| != |value|;
    MatchAtStart(d, hit, "-1", "domain", b);
    assert (b + "-1")[7] != a[7];
    RevealedBelow("app.", value, a, b, hit, "-1");
  }

  lemma AppDomain(hit: string, b: string)
    requires b == "domain-2" && hit == "app.domain"
    ensures IsDomain(hit) && AliasName("domain", 2) == b
  {
    assert Among("app", 1, 63, LowerChar) && Among("domain", 2, 24, LowerLetter) && hit == "app" + "." + "domain";
    assert Dec(2) == "2";
    assert AliasName("domain", 2) == "domain" + "-" + "2" == b;
  }

  lemma RevealTwo(t: string, x: string, y: string, back: map<string, string>)
    requires x in back && y in back && |x| > 0 && |y| > 0
    ensures RevealText(t, [x, y], back) == ReplaceAll(ReplaceAll(t, x, back[x]), y, back[y])
  {
    assert [x, y][0] == x && [x, y][1..] == [y] && [y][0] == y && [y][1..] == [];
    var u := ReplaceAll(t, x, back[x]);
    assert RevealText(t, [x, y], back) == RevealText(u, [y], back);
    assert RevealText(u, [y], back) == RevealText(ReplaceAll(u, y, back[y]), [], back);
  }

  lemma HiddenBelow(pre: string, value: string, a: string, text: string)
    requires text == pre + value + "" && |value| > 0 && forall i :: 0 <= i < |pre| ==> pre[i] != value[0]
    ensures HideKnown(text, [value], map[value := a]) == pre + a
  {
    ReplaceOnce(text, pre, value, "", a);
    assert [value][1..] == [] && pre + a + "" == pre + a;
  }

  lemma MatchAtStart(d: Dict, hit: string, tail: string, kind: string, b: string)
    requires hit !in d.to && AliasName(kind, Count(d, kind) + 1) == b
    ensures var (e, t) := HideMatches(d, Matches([Part("", hit)], tail), kind, s => false);
      t == b + tail && e.back == d.back[b := hit]
  {
    assert "" + b + tail == b + tail;
  }

  lemma RevealedBelow(pre: string, value: string, a: string, b: string, hit: string, tail: string)
    requires hit + tail == pre + a + "" && |b| > |tail| && |a| > 0 && a != b && |value| > 0
    requires forall i :: 0 <= i < |pre| ==> pre[i] != a[0]
    requires (forall i :: 0 < i < |b + tail| ==> (b + tail)[i] != a[0]) && !(a <= b + tail)
    ensures var back := map[a := value, b := hit];
      && RevealText(b + tail, [a, b], back) == hit + tail
      && RevealText(b + tail, [b, a], back) == pre + value
  {
    ReplaceNone(b + tail, a, value);
    ReplaceHead(b + tail, b, hit, tail);
    ReplaceOnce(hit + tail, pre, a, "", value);
    assert pre + value + "" == pre + value;
    RevealTwo(b + tail, a, b, map[a := value, b := hit]);
    RevealTwo(b + tail, b, a, map[a := value, b := hit]);
  }
}
