/** sort.Strings: the one ascending list of a set of strings. */
module ByteOrder {
  /** Go compares strings byte by byte. */
  predicate Before(a: string, b: string) {
    b != "" && (a == "" || a[0] < b[0] || (a[0] == b[0] && Before(a[1..], b[1..])))
  }

  lemma {:induction false} BeforeTotal(a: string, b: string)
    ensures a == b || Before(a, b) || Before(b, a)
    ensures !(Before(a, b) && Before(b, a)) && !Before(a, a)
  {
    if a != "" && b != "" {
      BeforeTotal(a[1..], b[1..]);
      assert a == [a[0]] + a[1..] && b == [b[0]] + b[1..];
    }
    if a != "" {
      BeforeTotal(a[1..], a[1..]);
    }
  }

  lemma {:induction false} BeforeTransitive(a: string, b: string, c: string)
    requires Before(a, b) && Before(b, c)
    ensures Before(a, c)
  {
    if a != "" && a[0] == b[0] == c[0] {
      BeforeTransitive(a[1..], b[1..], c[1..]);
    }
  }

  ghost predicate Ascending(ks: seq<string>) { forall i, j :: 0 <= i < j < |ks| ==> Before(ks[i], ks[j]) }

  ghost predicate Members(ks: seq<string>, keys: set<string>) { forall k :: k in ks <==> k in keys }

  /** Where k belongs in an ascending list. */
  method Place(ks: seq<string>, k: string) returns (r: seq<string>)
    requires Ascending(ks) && k !in ks
    ensures Ascending(r) && forall x :: x in r <==> x in ks || x == k
  {
    var i := 0;
    while i < |ks| && Before(ks[i], k)
      invariant 0 <= i <= |ks| && forall j :: 0 <= j < i ==> Before(ks[j], k)
    {
      i := i + 1;
    }
    PlaceKeeps(ks, k, i);
    r := ks[..i] + [k] + ks[i..];
  }

  lemma PlaceKeeps(ks: seq<string>, k: string, i: nat)
    requires Ascending(ks) && k !in ks && i <= |ks|
    requires (forall j :: 0 <= j < i ==> Before(ks[j], k)) && (i < |ks| ==> !Before(ks[i], k))
    ensures var r := ks[..i] + [k] + ks[i..]; Ascending(r) && forall x :: x in r <==> x in ks || x == k
  {
    var r := ks[..i] + [k] + ks[i..];
    if i < |ks| {
      BeforeTotal(ks[i], k);
      assert Before(k, ks[i]);
    }
    forall a | i <= a < |ks| ensures Before(k, ks[a]) {
      if a > i {
        BeforeTransitive(k, ks[i], ks[a]);
      }
    }
    assert forall a :: 0 <= a < |r| ==> r[a] == if a < i then ks[a] else if a == i then k else ks[a - 1];
    PlaceMembers(ks, k, i);
  }

  lemma PlaceMembers(ks: seq<string>, k: string, i: nat)
    requires i <= |ks|
    ensures forall x :: x in ks[..i] + [k] + ks[i..] <==> x in ks || x == k
  {
    assert ks == ks[..i] + ks[i..];
  }

  /** There is only one such list. */
  lemma {:induction false} OneAscending(a: seq<string>, b: seq<string>, keys: set<string>)
    requires Ascending(a) && Ascending(b) && Members(a, keys) && Members(b, keys)
    ensures a == b
  {
    assert a != [] ==> a[0] in a && a[0] in b;
    assert b != [] ==> b[0] in b && b[0] in a;
    if a != [] {
      BeforeTotal(a[0], b[0]);
      assert a == [a[0]] + a[1..] && b == [b[0]] + b[1..];
      BeforeTotal(a[0], a[0]);
      assert a[0] !in a[1..] && b[0] !in b[1..];
      OneAscending(a[1..], b[1..], keys - {a[0]});
    }
  }

  method SortStrings(keys: set<string>) returns (ks: seq<string>)
    ensures Ascending(ks) && Members(ks, keys)
  {
    ks := [];
    var rest := keys;
    while rest != {}
      invariant rest <= keys && Ascending(ks) && forall k :: k in ks <==> k in keys && k !in rest
      decreases |rest|
    {
      var k :| k in rest;
      ks := Place(ks, k);
      rest := rest - {k};
    }
  }

  lemma {:induction false} CanSort(keys: set<string>) returns (ks: seq<string>)
    ensures Ascending(ks) && Members(ks, keys)
    decreases |keys|
  {
    if keys == {} {
      ks := [];
    } else {
      var k :| k in keys;
      var rest := CanSort(keys - {k});
      var i := Slot(rest, k);
      PlaceKeeps(rest, k, i);
      ks := rest[..i] + [k] + rest[i..];
    }
  }

  lemma {:induction false} Slot(ks: seq<string>, k: string) returns (i: nat)
    ensures i <= |ks| && (forall j :: 0 <= j < i ==> Before(ks[j], k)) && (i < |ks| ==> !Before(ks[i], k))
  {
    i := 0;
    while i < |ks| && Before(ks[i], k)
      invariant i <= |ks| && forall j :: 0 <= j < i ==> Before(ks[j], k)
    {
      i := i + 1;
    }
  }

  ghost predicate SortOf(ks: seq<string>, keys: set<string>) { Ascending(ks) && Members(ks, keys) }

  ghost function Sorted(keys: set<string>): (ks: seq<string>)
    ensures SortOf(ks, keys)
  {
    assert exists ks :: SortOf(ks, keys) by {
      var ks := CanSort(keys);
      assert SortOf(ks, keys);
    }
    var ks :| SortOf(ks, keys);
    ks
  }
}
