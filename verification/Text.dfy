/** Strings as the Go code uses them: decimal numbers, byte order, lines,
    leftmost replacement. A char stands for one byte. */
module Text {

  predicate IsDigit(c: char) { '0' <= c <= '9' }

  /** What "%d" prints for a natural number. */
  function Dec(n: nat): (s: string)
    ensures |s| > 0 && forall i :: 0 <= i < |s| ==> IsDigit(s[i])
  {
    if n < 10 then [('0' as int + n) as char] else Dec(n / 10) + [('0' as int + n % 10) as char]
  }

  lemma {:induction false} DecInjective(a: nat, b: nat)
    requires Dec(a) == Dec(b)
    ensures a == b
    decreases a
  {
    var x, y := Dec(a), Dec(b);
    assert x[|x| - 1] as int == '0' as int + a % 10;
    assert y[|y| - 1] as int == '0' as int + b % 10;
    if a >= 10 && b >= 10 {
      assert x[..|x| - 1] == Dec(a / 10) && y[..|y| - 1] == Dec(b / 10);
      DecInjective(a / 10, b / 10);
    }
  }

  /** strings.ReplaceAll for a non-empty pattern: leftmost, non-overlapping. */
  function ReplaceAll(s: string, pat: string, sub: string): string
    requires |pat| > 0
  {
    if |s| < |pat| then s
    else if pat <= s then sub + ReplaceAll(s[|pat|..], pat, sub)
    else [s[0]] + ReplaceAll(s[1..], pat, sub)
  }

  /** A stretch in which no match begins is copied unchanged. */
  lemma {:induction false} ReplaceAllSkips(s: string, pat: string, sub: string, k: nat)
    requires |pat| > 0 && k <= |s|
    requires forall i :: 0 <= i < k ==> !(pat <= s[i..])
    ensures ReplaceAll(s, pat, sub) == s[..k] + ReplaceAll(s[k..], pat, sub)
    decreases k
  {
    if k == 0 {
      assert s[k..] == s;
    } else if |s| < |pat| {
      assert s == s[..k] + s[k..];
    } else {
      var rest := s[1..];
      assert s[0..] == s;
      forall i | 0 <= i < k - 1 ensures !(pat <= rest[i..]) {
        assert rest[i..] == s[i + 1..];
      }
      ReplaceAllSkips(rest, pat, sub, k - 1);
      assert rest[k - 1..] == s[k..] && s[..k] == [s[0]] + rest[..k - 1];
    }
  }

  /** unicode.IsSpace, on ASCII. */
  predicate IsSpace(c: char) { c in {' ', '\t', '\n', '\r', '\U{000B}', '\U{000C}'} }

  function TrimLeft(s: string): string {
    if s != "" && IsSpace(s[0]) then TrimLeft(s[1..]) else s
  }

  lemma {:induction false} TrimLeftSuffix(s: string)
    ensures |TrimLeft(s)| <= |s| && s[|s| - |TrimLeft(s)|..] == TrimLeft(s)
    ensures TrimLeft(s) != "" ==> !IsSpace(TrimLeft(s)[0])
  {
    if s != "" && IsSpace(s[0]) {
      TrimLeftSuffix(s[1..]);
    }
  }

  function TrimRight(s: string): string {
    if s != "" && IsSpace(s[|s| - 1]) then TrimRight(s[..|s| - 1]) else s
  }

  lemma {:induction false} TrimRightPrefix(s: string)
    ensures TrimRight(s) <= s
    ensures TrimRight(s) != "" ==> !IsSpace(TrimRight(s)[|TrimRight(s)| - 1])
  {
    if s != "" && IsSpace(s[|s| - 1]) {
      TrimRightPrefix(s[..|s| - 1]);
    }
  }

  /** strings.TrimSpace. */
  function Trim(s: string): string { TrimRight(TrimLeft(s)) }

  /** What "%d" prints for an int. */
  function IntText(n: int): (s: string)
    ensures ':' !in s
  {
    if n < 0 then "-" + Dec(-n) else Dec(n)
  }

  lemma IntTextInjective(a: int, b: int)
    requires IntText(a) == IntText(b)
    ensures a == b
  {
    assert IntText(a)[0] == '-' <==> a < 0;
    assert IntText(b)[0] == '-' <==> b < 0;
    if a < 0 {
      assert Dec(-a) == IntText(a)[1..] == IntText(b)[1..] == Dec(-b);
      DecInjective(-a, -b);
    } else {
      DecInjective(a, b);
    }
  }

  /** What stands before the first separator, or all of it: the first result
      of strings.Cut. */
  function FirstField(s: string, sep: char): (r: string)
    ensures r <= s && sep !in r && (r != s ==> s[|r|] == sep)
  {
    if s == "" || s[0] == sep then "" else [s[0]] + FirstField(s[1..], sep)
  }

  /** What stands after the last separator, or all of it. */
  function LastField(s: string, sep: char): (r: string)
    ensures |r| <= |s| && r == s[|s| - |r|..] && sep !in r && (r != s ==> s[|s| - |r| - 1] == sep)
  {
    if s == "" || s[|s| - 1] == sep then "" else LastField(s[..|s| - 1], sep) + [s[|s| - 1]]
  }

  lemma {:induction false} FirstFieldOf(a: string, u: string, sep: char)
    requires sep !in a
    ensures FirstField(a + [sep] + u, sep) == a && (a + [sep] + u)[|a| + 1..] == u
  {
    if a != "" {
      assert (a + [sep] + u)[1..] == a[1..] + [sep] + u;
      FirstFieldOf(a[1..], u, sep);
    }
  }

  lemma {:induction false} LastFieldOf(u: string, a: string, sep: char)
    requires sep !in a
    ensures LastField(u + [sep] + a, sep) == a && (u + [sep] + a)[..|u|] == u
  {
    var s := u + [sep] + a;
    if a != "" {
      assert s[..|s| - 1] == u + [sep] + a[..|a| - 1];
      LastFieldOf(u, a[..|a| - 1], sep);
    }
  }

  /** Different first fields, after a common head, make different texts. */
  lemma FirstFieldsDiffer(head: string, a: string, b: string, u: string, v: string, sep: char)
    requires sep !in a && sep !in b && a != b
    ensures head + (a + [sep] + u) != head + (b + [sep] + v)
  {
    FirstFieldOf(a, u, sep);
    FirstFieldOf(b, v, sep);
    assert (head + (a + [sep] + u))[|head|..] == a + [sep] + u;
    assert (head + (b + [sep] + v))[|head|..] == b + [sep] + v;
  }

  lemma LastFieldsDiffer(u: string, v: string, a: string, b: string, sep: char)
    requires sep !in a && sep !in b && a != b
    ensures u + [sep] + a != v + [sep] + b
  {
    LastFieldOf(u, a, sep);
    LastFieldOf(v, b, sep);
  }

  function Upper(c: char): char { if 'a' <= c <= 'z' then (c as int - 32) as char else c }

  function Lower(c: char): char { if 'A' <= c <= 'Z' then (c as int + 32) as char else c }

  /** strings.ToUpper and ToLower, on ASCII. */
  function ToUpper(s: string): (r: string)
    ensures |r| == |s|
  {
    if s == "" then "" else [Upper(s[0])] + ToUpper(s[1..])
  }

  function ToLower(s: string): (r: string)
    ensures |r| == |s|
  {
    if s == "" then "" else [Lower(s[0])] + ToLower(s[1..])
  }

  /** strings.Contains. */
  predicate Contains(s: string, sub: string)
    ensures Contains(s, sub) <==> exists i :: 0 <= i <= |s| && sub <= s[i..]
  {
    assert s[0..] == s;
    if sub <= s then true
    else if s == "" then false
    else
      assert forall i :: 0 <= i < |s| ==> s[1..][i..] == s[i + 1..];
      assert Contains(s[1..], sub) ==> exists i :: 0 <= i < |s| && sub <= s[1..][i..] && sub <= s[i + 1..];
      assert forall i :: 0 < i <= |s| ==> s[1..][i - 1..] == s[i..];
      Contains(s[1..], sub)
  }

  /** strings.Split(s, "\n"). */
  function Lines(s: string): (ls: seq<string>)
    ensures |ls| > 0 && forall i :: 0 <= i < |ls| ==> '\n' !in ls[i]
    decreases |s|
  {
    var first := FirstField(s, '\n');
    if first == s then [s] else [first] + Lines(s[|first| + 1..])
  }

  /** strings.Join(ls, "\n"). */
  function Join(ls: seq<string>): string {
    if ls == [] then "" else if |ls| == 1 then ls[0] else ls[0] + "\n" + Join(ls[1..])
  }

  lemma {:induction false} LinesConcat(a: string, b: string)
    ensures Lines(a + "\n" + b) == Lines(a) + Lines(b)
    decreases |a|
  {
    var s, first := a + "\n" + b, FirstField(a, '\n');
    if first == a {
      FirstFieldOf(a, b, '\n');
      assert s[|a| + 1..] == b;
    } else {
      var rest := a[|first| + 1..];
      assert a == first + ['\n'] + rest;
      assert s == first + ['\n'] + (rest + "\n" + b);
      FirstFieldOf(first, rest + "\n" + b, '\n');
      LinesConcat(rest, b);
    }
  }

  lemma {:induction false} JoinLines(s: string)
    ensures Join(Lines(s)) == s
    decreases |s|
  {
    var first := FirstField(s, '\n');
    if first != s {
      var rest := s[|first| + 1..];
      JoinLines(rest);
      var ls := Lines(s);
      assert ls == [first] + Lines(rest) && ls[1..] == Lines(rest) && |ls| > 1;
      assert s == first + "\n" + rest;
    }
  }

  /** Every line with its line break. */
  function Terminated(ls: seq<string>): string {
    if ls == [] then "" else ls[0] + "\n" + Terminated(ls[1..])
  }

  lemma {:induction false} TerminatedNext(ls: seq<string>, line: string)
    ensures Terminated(ls + [line]) == Terminated(ls) + (line + "\n")
  {
    if ls == [] {
      assert [line][1..] == [];
      assert line + "\n" + "" == line + "\n";
    } else {
      assert (ls + [line])[1..] == ls[1..] + [line];
      TerminatedNext(ls[1..], line);
    }
  }

  lemma {:induction false} TerminatedLines(ls: seq<string>)
    requires forall i :: 0 <= i < |ls| ==> '\n' !in ls[i]
    ensures Lines(Terminated(ls)) == ls + [""]
  {
    if ls == [] {
    } else {
      TerminatedLines(ls[1..]);
      LinesConcat(ls[0], Terminated(ls[1..]));
    }
  }
}
