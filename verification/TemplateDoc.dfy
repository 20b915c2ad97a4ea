/** fail2ban templates as one text (internal/api/handlers_fail2ban.go:740-775). */
module TemplateDoc {
  import opened Sequences
  import opened Text

  datatype Template = Template(name: string, description: string, jail: string, filter: string)

  /** The lines that tell the sections of a document apart. */
  datatype Marks = Marks(description: string, jail: string, filter: string)

  const MARKS := Marks("## description:", "## jail", "## filter")

  /** All that the proofs need of them. */
  predicate MarksOk(k: Marks) {
    && k.description != "" && k.jail != "" && k.filter != "" && k.jail != k.filter
    && !(k.description <= k.jail) && !(k.description <= k.filter)
    && '\n' !in k.description && '\n' !in k.jail && '\n' !in k.filter
  }

  /** strings.TrimRight(s, "\n"). */
  function TrimNewlines(s: string): (r: string)
    ensures r <= s && (r == "" || r[|r| - 1] != '\n')
  {
    if s != "" && s[|s| - 1] == '\n' then TrimNewlines(s[..|s| - 1]) else s
  }

  /** F2BTemplateDoc. */
  function Doc(k: Marks, t: Template): string {
    Five(k.description + " " + Trim(t.description), k.jail, TrimNewlines(t.jail), k.filter, TrimNewlines(t.filter))
  }

  /** The document, as an earlier version of nkt may have written it. */
  lemma DocText(t: Template)
    ensures Doc(MARKS, t) == "## description: " + Trim(t.description) + "\n## jail\n" + TrimNewlines(t.jail)
      + "\n## filter\n" + TrimNewlines(t.filter) + "\n"
  {
    var d, j, f := Trim(t.description), TrimNewlines(t.jail), TrimNewlines(t.filter);
    assert "## description: " == MARKS.description + " ";
    assert "\n## jail\n" == "\n" + MARKS.jail + "\n";
    assert "\n## filter\n" == "\n" + MARKS.filter + "\n";
    FiveText(MARKS.description + " " + d, MARKS.jail, j, MARKS.filter, f);
    Grouped(MARKS.description + " ", d, MARKS.jail, j, MARKS.filter, f);
  }

  lemma FiveText(head: string, a: string, jail: string, b: string, filter: string)
    ensures Five(head, a, jail, b, filter)
      == head + "\n" + a + "\n" + jail + "\n" + b + "\n" + filter + "\n"
  {}

  lemma Grouped(m: string, d: string, a: string, jail: string, b: string, filter: string)
    ensures (m + d) + "\n" + a + "\n" + jail + "\n" + b + "\n" + filter + "\n"
      == m + d + ("\n" + a + "\n") + jail + ("\n" + b + "\n") + filter + "\n"
  {}

  function Five(head: string, a: string, jail: string, b: string, filter: string): string {
    head + "\n" + (a + "\n" + (jail + "\n" + (b + "\n" + (filter + "\n" + ""))))
  }

  // ---- lines ----

  lemma {:induction false} JoinEmptyLast(ls: seq<string>)
    requires ls != []
    ensures Join(ls + [""]) == Join(ls) + "\n"
  {
    if |ls| == 1 {
      assert (ls + [""])[1..] == [""];
      assert Join([""]) == "" && ls[0] + "\n" + "" == ls[0] + "\n";
    } else {
      assert (ls + [""])[1..] == ls[1..] + [""];
      JoinEmptyLast(ls[1..]);
      assert ls[0] + "\n" + (Join(ls[1..]) + "\n") == ls[0] + "\n" + Join(ls[1..]) + "\n";
    }
  }

  // ---- parsing ----

  datatype Section = Head | Jail | Filter

  datatype Parse = Parse(section: Section, description: string, jail: seq<string>, filter: seq<string>)

  /** A line, as the switch of the loop tells it. */
  datatype Token = Description(text: string) | Mark(section: Section) | Plain(line: string)

  function TokenOf(k: Marks, line: string): Token {
    if k.description <= line then Description(Trim(line[|k.description|..]))
    else if line == k.jail then Mark(Jail)
    else if line == k.filter then Mark(Filter)
    else Plain(line)
  }

  function Reader(k: Marks): string -> Token { line => TokenOf(k, line) }

  function Tokens(k: Marks, ls: seq<string>): (ts: seq<Token>)
    ensures |ts| == |ls|
  {
    Map(ls, Reader(k))
  }

  function Step(p: Parse, t: Token): Parse {
    match t
    case Description(text) => p.(description := text)
    case Mark(section) => p.(section := section)
    case Plain(line) =>
      match p.section
      case Head => p
      case Jail => p.(jail := p.jail + [line])
      case Filter => p.(filter := p.filter + [line])
  }

  function Scan(p: Parse, ts: seq<Token>): Parse {
    if ts == [] then p else Step(Scan(p, ts[..|ts| - 1]), ts[|ts| - 1])
  }

  function Built(name: string, p: Parse): Template {
    var f := Trim(Join(p.filter));
    Template(name, p.description, Trim(Join(p.jail)) + "\n", if f != "" then f + "\n" else "")
  }

  const START := Parse(Head, "", [], [])

  function Parsed(k: Marks, name: string, doc: string): Template { Built(name, Scan(START, Tokens(k, Lines(doc)))) }

  lemma ScanNext(p: Parse, ts: seq<Token>, i: nat)
    requires i < |ts|
    ensures Scan(p, ts[..i + 1]) == Step(Scan(p, ts[..i]), ts[i])
  {
    assert ts[..i + 1][..i] == ts[..i];
  }

  /** The body of the loop. */
  method ParseLine(k: Marks, p: Parse, line: string) returns (q: Parse)
    ensures q == Step(p, TokenOf(k, line))
  {
    q := p;
    if k.description <= line {
      q := p.(description := Trim(line[|k.description|..]));
    } else if line == k.jail {
      q := p.(section := Jail);
    } else if line == k.filter {
      q := p.(section := Filter);
    } else if p.section == Jail {
      q := p.(jail := p.jail + [line]);
    } else if p.section == Filter {
      q := p.(filter := p.filter + [line]);
    }
  }

  /** parseTemplateDoc. */
  method ParseTemplateDoc(name: string, doc: string) returns (t: Template)
    ensures t == Parsed(MARKS, name, doc)
  {
    var ls := Lines(doc);
    ghost var ts := Tokens(MARKS, ls);
    var p := START;
    var i := 0;
    while i < |ls|
      invariant 0 <= i <= |ls| && p == Scan(START, ts[..i])
    {
      ScanNext(START, ts, i);
      p := ParseLine(MARKS, p, ls[i]);
      i := i + 1;
    }
    assert ts[..|ls|] == ts;
    var f := Trim(Join(p.filter));
    t := Template(name, p.description, Trim(Join(p.jail)) + "\n", "");
    if f != "" {
      t := t.(filter := f + "\n");
    }
  }

  lemma {:induction false} ScanConcat(p: Parse, a: seq<Token>, b: seq<Token>)
    ensures Scan(p, a + b) == Scan(Scan(p, a), b)
  {
    if b == [] {
      assert a + b == a;
    } else {
      assert (a + b)[..|a + b| - 1] == a + b[..|b| - 1];
      ScanConcat(p, a, b[..|b| - 1]);
    }
  }

  // ---- a normal template ----

  predicate NoMarkers(k: Marks, s: string) { forall i :: 0 <= i < |Lines(s)| ==> TokenOf(k, Lines(s)[i]).Plain? }

  /** One trimmed line of description; bodies trimmed but for one newline at the end, or no
      filter at all; and no line that reads as a marker. */
  predicate Normal(k: Marks, t: Template) {
    && Trim(t.description) == t.description && '\n' !in t.description
    && t.jail == Trim(t.jail) + "\n" && NoMarkers(k, Trim(t.jail))
    && (t.filter == "" || (t.filter == Trim(t.filter) + "\n" && Trim(t.filter) != "")) && NoMarkers(k, Trim(t.filter))
  }

  // ---- trimming ----

  lemma {:induction false} TrimRightFirst(s: string)
    ensures TrimRight(s) != "" ==> s != "" && TrimRight(s)[0] == s[0]
  {
    if s != "" && IsSpace(s[|s| - 1]) {
      TrimRightFirst(s[..|s| - 1]);
    }
  }

  lemma TrimLeftFixed(s: string)
    requires s == "" || !IsSpace(s[0])
    ensures TrimLeft(s) == s && TrimLeft(s + "\n") == if s == "" then "" else s + "\n"
  {
    if s == "" {
      assert s + "\n" == "\n" && "\n"[1..] == "";
    }
  }

  /** What is trimmed stays, also with a newline after it. */
  lemma TrimTwice(s: string)
    ensures Trim(Trim(s)) == Trim(s) && Trim(Trim(s) + "\n") == Trim(s) && TrimNewlines(Trim(s) + "\n") == Trim(s)
  {
    var t := Trim(s);
    TrimLeftSuffix(s);
    TrimRightPrefix(TrimLeft(s));
    TrimRightFirst(TrimLeft(s));
    TrimLeftFixed(t);
  }

  // ---- the round trip ----

  lemma LinesNext(line: string, rest: string)
    requires '\n' !in line
    ensures Lines(line + "\n" + rest) == [line] + Lines(rest)
  {
    LinesConcat(line, rest);
  }

  /** The lines of the filter read, and the empty one after the last line break. */
  function InFilter(k: Marks, p: Parse, filter: string): Parse {
    Scan(p.(section := Filter), Tokens(k, Lines(filter) + [""]))
  }

  /** A document read back, section by section: its tokens from the filter mark on. */
  lemma ScanTail(k: Marks, p: Parse, filter: string)
    requires MarksOk(k)
    ensures Scan(p, Tokens(k, Lines(k.filter + "\n" + (filter + "\n" + "")))) == InFilter(k, p, filter)
  {
    var last := filter + "\n" + "";
    LinesConcat(filter, "");
    LinesNext(k.filter, last);
    assert TokenOf(k, k.filter) == Mark(Filter);
    ScanFirst(p, k.filter, Lines(last), Reader(k));
  }

  lemma ScanFirst(p: Parse, line: string, rest: seq<string>, token: string -> Token)
    ensures Scan(p, Map([line] + rest, token)) == Scan(Step(p, token(line)), Map(rest, token))
  {
    var one := [token(line)];
    assert Map([line] + rest, token) == one + Map(rest, token);
    ScanConcat(p, one, Map(rest, token));
    assert one[..0] == [];
    assert Scan(p, one) == Step(p, one[0]);
  }

  lemma ScanMiddle(k: Marks, p: Parse, jail: string, rest: string)
    requires MarksOk(k)
    ensures Scan(p, Tokens(k, Lines(k.jail + "\n" + (jail + "\n" + rest)))) ==
      Scan(Scan(p.(section := Jail), Tokens(k, Lines(jail))), Tokens(k, Lines(rest)))
  {
    var body := jail + "\n" + rest;
    LinesNext(k.jail, body);
    ScanFirst(p, k.jail, Lines(body), Reader(k));
    LinesConcat(jail, rest);
    ScanSplit(p.(section := Jail), Lines(jail), Lines(rest), Reader(k));
  }

  lemma ScanSplit(p: Parse, a: seq<string>, b: seq<string>, token: string -> Token)
    ensures Scan(p, Map(a + b, token)) == Scan(Scan(p, Map(a, token)), Map(b, token))
  {
    assert Map(a + b, token) == Map(a, token) + Map(b, token);
    ScanConcat(p, Map(a, token), Map(b, token));
  }

  lemma ScanFive(k: Marks, head: string, d: string, jail: string, filter: string)
    requires MarksOk(k)
    requires '\n' !in head && TokenOf(k, head) == Description(d)
    ensures Scan(START, Tokens(k, Lines(Five(head, k.jail, jail, k.filter, filter))))
         == InFilter(k, Scan(Parse(Jail, d, [], []), Tokens(k, Lines(jail))), filter)
  {
    var tail := k.filter + "\n" + (filter + "\n" + "");
    var rest := k.jail + "\n" + (jail + "\n" + tail);
    LinesNext(head, rest);
    ScanFirst(START, head, Lines(rest), Reader(k));
    ScanMiddle(k, Parse(Head, d, [], []), jail, tail);
    ScanTail(k, Scan(Parse(Jail, d, [], []), Tokens(k, Lines(jail))), filter);
  }

  lemma ScanDoc(k: Marks, t: Template)
    requires MarksOk(k)
    requires '\n' !in Trim(t.description)
    ensures Scan(START, Tokens(k, Lines(Doc(k, t))))
         == InFilter(k, Scan(Parse(Jail, Trim(t.description), [], []), Tokens(k, Lines(TrimNewlines(t.jail)))),
                     TrimNewlines(t.filter))
  {
    var d := Trim(t.description);
    TrimTwice(t.description);
    ScanFive(k, k.description + " " + d, d, TrimNewlines(t.jail), TrimNewlines(t.filter));
  }

  function Plains(ls: seq<string>): seq<Token> { seq(|ls|, i requires 0 <= i < |ls| => Plain(ls[i])) }

  /** Lines without markers all go to the section they are in. */
  lemma {:induction false} ScanBody(p: Parse, ls: seq<string>)
    requires !p.section.Head?
    ensures Scan(p, Plains(ls)) == if p.section.Jail? then p.(jail := p.jail + ls) else p.(filter := p.filter + ls)
  {
    if ls == [] {
      assert p.jail + ls == p.jail && p.filter + ls == p.filter;
    } else {
      var n := |ls| - 1;
      ScanBody(p, ls[..n]);
      assert Plains(ls)[..n] == Plains(ls[..n]);
      assert p.jail + ls[..n] + [ls[n]] == p.jail + ls && p.filter + ls[..n] + [ls[n]] == p.filter + ls;
    }
  }

  lemma PlainTokens(k: Marks, ls: seq<string>)
    requires forall i :: 0 <= i < |ls| ==> TokenOf(k, ls[i]).Plain?
    ensures Tokens(k, ls) == Plains(ls)
  {}

  lemma NormalJail(k: Marks, d: string, j: string)
    requires NoMarkers(k, j)
    ensures Scan(Parse(Jail, d, [], []), Tokens(k, Lines(j))) == Parse(Jail, d, Lines(j), [])
  {
    PlainTokens(k, Lines(j));
    ScanBody(Parse(Jail, d, [], []), Lines(j));
    assert [] + Lines(j) == Lines(j);
  }

  lemma NormalFilter(k: Marks, d: string, jail: seq<string>, f: string)
    requires MarksOk(k)
    requires NoMarkers(k, f)
    ensures Scan(Parse(Filter, d, jail, []), Tokens(k, Lines(f) + [""])) == Parse(Filter, d, jail, Lines(f) + [""])
    ensures Join(Lines(f) + [""]) == f + "\n"
  {
    PlainFilter(k, d, jail, Lines(f) + [""]);
    JoinLines(f);
    JoinEmptyLast(Lines(f));
  }

  lemma PlainFilter(k: Marks, d: string, jail: seq<string>, ls: seq<string>)
    requires forall i :: 0 <= i < |ls| ==> TokenOf(k, ls[i]).Plain?
    ensures Scan(Parse(Filter, d, jail, []), Tokens(k, ls)) == Parse(Filter, d, jail, ls)
  {
    PlainTokens(k, ls);
    ScanBody(Parse(Filter, d, jail, []), ls);
    assert [] + ls == ls;
  }

  /** A normal template survives being printed and read. */
  lemma NormalRoundTrip(k: Marks, t: Template)
    requires MarksOk(k)
    requires Normal(k, t)
    ensures Parsed(k, t.name, Doc(k, t)) == t
  {
    var j, f := Trim(t.jail), Trim(t.filter);
    TrimTwice(t.jail);
    TrimTwice(t.filter);
    ScanDoc(k, t);
    NormalJail(k, t.description, j);
    NormalFilter(k, t.description, Lines(j), f);
    JoinLines(j);
  }

  // ---- and no other template does ----

  /** The characters of a text that are no line breaks. */
  function Chars(s: string): nat {
    if s == "" then 0 else Chars(s[..|s| - 1]) + if s[|s| - 1] == '\n' then 0 else 1
  }

  function Weight(ls: seq<string>): nat {
    if ls == [] then 0 else Weight(ls[..|ls| - 1]) + |ls[|ls| - 1]|
  }

  lemma {:induction false} CharsConcat(a: string, b: string)
    ensures Chars(a + b) == Chars(a) + Chars(b)
  {
    if b == "" {
      assert a + b == a;
    } else {
      assert (a + b)[..|a + b| - 1] == a + b[..|b| - 1];
      CharsConcat(a, b[..|b| - 1]);
    }
  }

  lemma {:induction false} CharsBound(s: string)
    ensures Chars(s) <= |s| && ('\n' !in s ==> Chars(s) == |s|)
  {
    if s != "" {
      CharsBound(s[..|s| - 1]);
    }
  }

  lemma {:induction false} CharsTrimRight(s: string)
    ensures Chars(TrimRight(s)) <= Chars(s)
  {
    if s != "" && IsSpace(s[|s| - 1]) {
      CharsTrimRight(s[..|s| - 1]);
    }
  }

  lemma CharsTrim(s: string)
    ensures Chars(Trim(s)) <= Chars(s)
  {
    var r := TrimLeft(s);
    TrimLeftSuffix(s);
    CharsTrimRight(r);
    CharsConcat(s[..|s| - |r|], r);
    assert s == s[..|s| - |r|] + r;
  }

  lemma {:induction false} WeightConcat(a: seq<string>, b: seq<string>)
    ensures Weight(a + b) == Weight(a) + Weight(b)
  {
    if b == [] {
      assert a + b == a;
    } else {
      assert (a + b)[..|a + b| - 1] == a + b[..|b| - 1];
      WeightConcat(a, b[..|b| - 1]);
    }
  }

  lemma {:induction false} CharsJoin(ls: seq<string>)
    ensures Chars(Join(ls)) <= Weight(ls)
    ensures (forall i :: 0 <= i < |ls| ==> '\n' !in ls[i]) ==> Chars(Join(ls)) == Weight(ls)
  {
    if ls != [] {
      WeightConcat([ls[0]], ls[1..]);
      assert ls == [ls[0]] + ls[1..] && [ls[0]][..0] == [] && Weight([ls[0]]) == Weight([]) + |ls[0]|;
      CharsBound(ls[0]);
      if |ls| > 1 {
        CharsJoin(ls[1..]);
        CharsConcat(ls[0] + "\n", Join(ls[1..]));
        CharsConcat(ls[0], "\n");
        assert "\n"[..0] == "" && Chars("\n") == 0;
      }
    }
  }

  lemma WeightOfLines(s: string)
    ensures Weight(Lines(s)) == Chars(s)
  {
    CharsJoin(Lines(s));
    JoinLines(s);
  }

  function Held(p: Parse): nat { Weight(p.jail) + Weight(p.filter) }

  ghost predicate AllPlain(k: Marks, ls: seq<string>) { forall i :: 0 <= i < |ls| ==> TokenOf(k, ls[i]).Plain? }

  /** What a scan keeps weighs no more than what it read, and less if it met a marker. */
  lemma {:induction false} ScanWeight(k: Marks, p: Parse, ls: seq<string>)
    requires MarksOk(k)
    ensures Held(Scan(p, Tokens(k, ls))) + (if AllPlain(k, ls) then 0 else 1) <= Held(p) + Weight(ls)
  {
    if ls != [] {
      var n := |ls| - 1;
      ScanWeight(k, p, ls[..n]);
      LastLine(k, p, ls, n);
      HeldStep(k, Scan(p, Tokens(k, ls[..n])), ls[n]);
    }
  }

  lemma LastLine(k: Marks, p: Parse, ls: seq<string>, n: nat)
    requires n + 1 == |ls|
    ensures Scan(p, Tokens(k, ls)) == Step(Scan(p, Tokens(k, ls[..n])), TokenOf(k, ls[n]))
    ensures AllPlain(k, ls) <==> AllPlain(k, ls[..n]) && TokenOf(k, ls[n]).Plain?
  {
    assert Tokens(k, ls)[..n] == Tokens(k, ls[..n]);
  }

  lemma HeldStep(k: Marks, q: Parse, line: string)
    requires MarksOk(k)
    ensures Held(Step(q, TokenOf(k, line))) + (if TokenOf(k, line).Plain? then 0 else 1) <= Held(q) + |line|
  {
    if TokenOf(k, line).Plain? {
      var one := [line];
      assert (q.jail + one)[..|q.jail|] == q.jail && (q.filter + one)[..|q.filter|] == q.filter;
    }
  }

  predicate OneLine(d: string) { Trim(d) == d && '\n' !in d }

  lemma TrimKeepsOut(s: string)
    requires '\n' !in s
    ensures OneLine(Trim(s))
  {
    TrimTwice(s);
    TrimLeftSuffix(s);
    TrimRightPrefix(TrimLeft(s));
    assert forall c <- TrimLeft(s) :: c in s;
    assert forall c <- Trim(s) :: c in TrimLeft(s);
  }

  /** The description of a scan is the one it began with or one it met. */
  lemma {:induction false} DescriptionMet(p: Parse, ts: seq<Token>, ok: string -> bool)
    requires ok(p.description) && forall i :: 0 <= i < |ts| && ts[i].Description? ==> ok(ts[i].text)
    ensures ok(Scan(p, ts).description)
  {
    if ts != [] {
      DescriptionMet(p, ts[..|ts| - 1], ok);
    }
  }

  lemma TokenOneLine(k: Marks, line: string)
    requires '\n' !in line
    ensures TokenOf(k, line).Description? ==> OneLine(TokenOf(k, line).text)
  {
    if k.description <= line {
      TrimKeepsOut(line[|k.description|..]);
    }
  }

  /** A description that was read is one trimmed line. */
  lemma DescriptionOneLine(k: Marks, ls: seq<string>)
    requires forall i :: 0 <= i < |ls| ==> '\n' !in ls[i]
    ensures OneLine(Scan(START, Tokens(k, ls)).description)
  {
    var ts, ok := Tokens(k, ls), d => OneLine(d);
    forall i | 0 <= i < |ts| && ts[i].Description? ensures ok(ts[i].text) {
      TokenOneLine(k, ls[i]);
    }
    DescriptionMet(START, ts, ok);
  }

  lemma ReadDescription(k: Marks, t: Template)
    requires Parsed(k, t.name, Doc(k, t)) == t
    ensures OneLine(t.description)
  {
    DescriptionOneLine(k, Lines(Doc(k, t)));
  }

  lemma JailRead(jail: string, body: string)
    requires jail == Trim(body) + "\n"
    ensures jail == Trim(jail) + "\n" && TrimNewlines(jail) == Trim(jail) == Trim(body)
  {
    TrimTwice(body);
  }

  lemma FilterRead(filter: string, body: string)
    requires filter == if Trim(body) != "" then Trim(body) + "\n" else ""
    ensures filter == "" || (filter == Trim(filter) + "\n" && Trim(filter) != "")
    ensures TrimNewlines(filter) == Trim(filter) == Trim(body)
  {
    TrimTwice(body);
    assert Trim("") == "";
  }

  lemma ReadBodies(t: Template, p: Parse)
    requires t == Built(t.name, p)
    ensures t.jail == Trim(t.jail) + "\n" && TrimNewlines(t.jail) == Trim(t.jail) == Trim(Join(p.jail))
    ensures t.filter == "" || (t.filter == Trim(t.filter) + "\n" && Trim(t.filter) != "")
    ensures TrimNewlines(t.filter) == Trim(t.filter) == Trim(Join(p.filter))
  {
    JailRead(t.jail, Join(p.jail));
    FilterRead(t.filter, Join(p.filter));
  }

  lemma KeptChars(ls: seq<string>)
    ensures Chars(Trim(Join(ls))) <= Weight(ls)
  {
    CharsTrim(Join(ls));
    CharsJoin(ls);
  }

  /** If the sections hold all characters of the bodies, no line of them was a marker. */
  lemma NoRoomForMarkers(k: Marks, p0: Parse, j: string, f: string, p: Parse)
    requires MarksOk(k)
    requires p0.jail == p0.filter == []
    requires p == Scan(Scan(p0, Tokens(k, Lines(j))).(section := Filter), Tokens(k, Lines(f) + [""]))
    requires j == Trim(Join(p.jail)) && f == Trim(Join(p.filter))
    ensures NoMarkers(k, j) && NoMarkers(k, f)
  {
    KeptChars(p.jail);
    KeptChars(p.filter);
    ScanWeight(k, p0, Lines(j));
    ScanWeight(k, Scan(p0, Tokens(k, Lines(j))).(section := Filter), Lines(f) + [""]);
    WeightConcat(Lines(f), [""]);
    assert [""][..0] == [] && Weight([""]) == 0;
    WeightOfLines(j);
    WeightOfLines(f);
    assert AllPlain(k, Lines(j)) && AllPlain(k, Lines(f) + [""]);
    forall i | 0 <= i < |Lines(f)| ensures TokenOf(k, Lines(f)[i]).Plain? {
      assert (Lines(f) + [""])[i] == Lines(f)[i];
    }
  }

  lemma ReadHasNoMarkers(k: Marks, t: Template, p: Parse)
    requires MarksOk(k)
    requires OneLine(t.description) && p == Scan(START, Tokens(k, Lines(Doc(k, t))))
    requires TrimNewlines(t.jail) == Trim(t.jail) == Trim(Join(p.jail))
    requires TrimNewlines(t.filter) == Trim(t.filter) == Trim(Join(p.filter))
    ensures NoMarkers(k, Trim(t.jail)) && NoMarkers(k, Trim(t.filter))
  {
    ScanDoc(k, t);
    NoRoomForMarkers(k, Parse(Jail, Trim(t.description), [], []), Trim(t.jail), Trim(t.filter), p);
  }

  lemma ReadIsNormal(k: Marks, t: Template)
    requires MarksOk(k)
    requires Parsed(k, t.name, Doc(k, t)) == t
    ensures Normal(k, t)
  {
    var p := Scan(START, Tokens(k, Lines(Doc(k, t))));
    ReadDescription(k, t);
    assert t == Built(t.name, p);
    NormalFromRead(k, t, p);
  }

  lemma NormalFromRead(k: Marks, t: Template, p: Parse)
    requires MarksOk(k)
    requires OneLine(t.description) && p == Scan(START, Tokens(k, Lines(Doc(k, t)))) && t == Built(t.name, p)
    ensures Normal(k, t)
  {
    ReadBodies(t, p);
    ReadHasNoMarkers(k, t, p);
  }

  lemma ReadIffNormal(k: Marks, t: Template)
    requires MarksOk(k)
    ensures Parsed(k, t.name, Doc(k, t)) == t <==> Normal(k, t)
  {
    if Normal(k, t) {
      NormalRoundTrip(k, t);
    } else if Parsed(k, t.name, Doc(k, t)) == t {
      ReadIsNormal(k, t);
    }
  }

  /** parseTemplateDoc gives back what F2BTemplateDoc was given exactly for normal templates. */
  lemma RoundTripIff(t: Template)
    ensures Parsed(MARKS, t.name, Doc(MARKS, t)) == t <==> Normal(MARKS, t)
  {
    ReadIffNormal(MARKS, t);
  }
}
