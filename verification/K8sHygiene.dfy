/** The grouping in ruleK8sHygiene (internal/analyze/k8s.go:210-314): containers
    without memory limits and images without a version, by workload. */
module K8sHygiene {
  import opened Findings
  import opened MapOrder
  import opened Text
  import opened Walks

  datatype Pod = Pod(namespace: string, name: string, owner: string, noLimits: seq<string>, images: seq<string>)

  function Workload(p: Pod): string {
    if '/' !in p.owner then p.name
    else
      var kind := FirstField(p.owner, '/');
      var name := p.owner[|kind| + 1..];
      if kind == "ReplicaSet" then Unhashed(name) else name
  }

  /** The name before its last dash, if there is one and it is not the first character. */
  function Unhashed(name: string): string {
    var hash := LastField(name, '-');
    if hash != name && |name| - |hash| - 1 > 0 then name[..|name| - |hash| - 1] else name
  }

  predicate SystemNs(ns: string) { "kube-" <= ns }

  predicate LatestTag(image: string) {
    if '@' in image then false
    else
      var last := LastField(image, '/');
      var tag := if ':' in last then LastField(last, ':') else "";
      tag == "" || tag == "latest"
  }

  /** The owner's name, of a ReplicaSet without the hash that a Deployment appends; without an
      owner the pod's own name. */
  lemma WorkloadForms(p: Pod, kind: string, name: string, rs: string)
    requires '/' !in kind && rs == "ReplicaSet"
    ensures '/' !in p.owner ==> Workload(p) == p.name
    ensures p.owner == kind + ['/'] + name ==> Workload(p) == if kind == rs then Unhashed(name) else name
  {
    FirstFieldOf(kind, name, '/');
  }

  lemma UnhashedForms(name: string, hash: string)
    requires '-' !in hash
    ensures '-' !in name ==> Unhashed(name) == name
    ensures name != "" ==> Unhashed(name + ['-'] + hash) == name
    ensures Unhashed(['-'] + hash) == ['-'] + hash
  {
    LastFieldOf(name, hash, '-');
    LastFieldOf("", hash, '-');
    assert "" + ['-'] + hash == ['-'] + hash;
    if '-' !in name {
      NoField(name, '-');
    }
  }

  lemma {:induction false} NoField(s: string, sep: char)
    requires sep !in s
    ensures LastField(s, sep) == s
  {
    if s != "" {
      NoField(s[..|s| - 1], sep);
      assert s == s[..|s| - 1] + [s[|s| - 1]];
    }
  }

  /** The last part of an image name; a port in the part before is no tag. */
  ghost predicate Names(image: string, last: string) {
    '/' !in last && (image == last || exists path :: image == path + ['/'] + last)
  }

  lemma LastPart(image: string, last: string)
    requires Names(image, last)
    ensures LastField(image, '/') == last
  {
    NoField(last, '/');
    if path :| image == path + ['/'] + last {
      LastFieldOf(path, last, '/');
    }
  }

  /** An image is without a version exactly if it names no digest and its last part has no tag, an
      empty one or "latest". */
  lemma LatestTagForms(image: string, name: string, tag: string)
    requires ':' !in tag
    ensures '@' in image ==> !LatestTag(image)
    ensures '@' !in image && Names(image, name) && ':' !in name ==> LatestTag(image)
    ensures '@' !in image && Names(image, name + [':'] + tag) ==> (LatestTag(image) <==> tag == "" || tag == "latest")
  {
    if Names(image, name) {
      LastPart(image, name);
    }
    if Names(image, name + [':'] + tag) {
      LastPart(image, name + [':'] + tag);
      LastFieldOf(name, tag, ':');
    }
  }

  function Key(p: Pod): string { p.namespace + "/" + Workload(p) }

  datatype Rule = NoLimits | Latest

  predicate Offends(p: Pod, rule: Rule, item: string) {
    && !SystemNs(p.namespace)
    && match rule
       case NoLimits => item in p.noLimits
       case Latest => item in p.images && LatestTag(item)
  }

  /** Whether a pod puts an item under a key. */
  type Hit = (Pod, string, string) -> bool

  function HitOf(rule: Rule): Hit { (p, key, item) => Key(p) == key && Offends(p, rule, item) }

  ghost predicate Offence(pods: seq<Pod>, hit: Hit, key: string, item: string) {
    exists i :: 0 <= i < |pods| && hit(pods[i], key, item)
  }

  ghost predicate InSystem(ns: string) { exists rest :: ns == "kube-" + rest }

  /** A pod of the workload, in no namespace that begins with "kube-", has the item: a container
      without a limit, or an image without a version. */
  ghost predicate HasOffence(p: Pod, rule: Rule, key: string, item: string) {
    && key == p.namespace + "/" + Workload(p) && !InSystem(p.namespace)
    && if rule.NoLimits? then item in p.noLimits else item in p.images && LatestTag(item)
  }

  lemma HitIsOffence(p: Pod, rule: Rule, key: string, item: string)
    ensures HitOf(rule)(p, key, item) <==> HasOffence(p, rule, key, item)
  {
    if SystemNs(p.namespace) {
      assert p.namespace == "kube-" + p.namespace[5..];
    }
  }

  lemma OffenceIs(pods: seq<Pod>, rule: Rule, key: string, item: string)
    ensures Offence(pods, HitOf(rule), key, item) <==>
      exists i :: 0 <= i < |pods| && HasOffence(pods[i], rule, key, item)
  {
    forall i | 0 <= i < |pods| ensures HitOf(rule)(pods[i], key, item) <==> HasOffence(pods[i], rule, key, item) {
      HitIsOffence(pods[i], rule, key, item);
    }
  }

  /** m maps each offending workload to its offending containers or images. */
  ghost predicate Groups(m: map<string, set<string>>, pods: seq<Pod>, rule: Rule) { GroupsBy(m, pods, HitOf(rule)) }

  ghost predicate GroupsBy(m: map<string, set<string>>, pods: seq<Pod>, hit: Hit) {
    && NoneEmpty(m)
    && forall key, item :: Has(m, key, item) <==> Offence(pods, hit, key, item)
  }

  predicate NoneEmpty(m: map<string, set<string>>) { forall key <- m :: m[key] != {} }

  predicate Has(m: map<string, set<string>>, key: string, item: string) { key in m && item in m[key] }

  function HygieneFinding(rule: Rule, key: string): Finding {
    match rule
    case NoLimits => Finding("k8s-no-limits", "k8s-no-limits:" + key, Low, "kubernetes", key)
    case Latest => Finding("k8s-image-latest", "k8s-image-latest:" + key, Low, "kubernetes", key)
  }

  function FindingGroups(m: map<string, set<string>>, rule: Rule): map<string, seq<Finding>> {
    map key | key in m :: [HygieneFinding(rule, key)]
  }

  lemma WorkloadsApart(m: map<string, set<string>>, rule: Rule)
    ensures Apart(FindingGroups(m, rule))
  {
    var g := FindingGroups(m, rule);
    forall k, l | k in g && l in g && k != l ensures NoSharedId(g[k], g[l]) && NoSharedKey(g[k], g[l]) {
      var a, b := HygieneFinding(rule, k), HygieneFinding(rule, l);
      var head := if rule == NoLimits then "k8s-no-limits:" else "k8s-image-latest:";
      assert a.id == head + k && b.id == head + l;
      assert (head + k)[|head|..] == k && (head + l)[|head|..] == l;
      assert g[k] == [a] && g[l] == [b];
    }
  }

  /** What is grouped is decided by the pods. */
  lemma GroupsUnique(m: map<string, set<string>>, n: map<string, set<string>>, pods: seq<Pod>, rule: Rule)
    requires Groups(m, pods, rule) && Groups(n, pods, rule)
    ensures m == n
  {
    forall key ensures (key in m <==> key in n) && (key in m ==> m[key] == n[key]) {
      if key in m {
        var item :| item in m[key];
        assert Has(m, key, item) && Has(n, key, item);
        forall x ensures x in m[key] <==> x in n[key] {
          assert Has(m, key, x) <==> Has(n, key, x);
        }
      }
      if key in n {
        var item :| item in n[key];
        assert Has(n, key, item) && Has(m, key, item);
      }
    }
  }

  function With(m: map<string, set<string>>, key: string, item: string): map<string, set<string>> {
    m[key := (if key in m then m[key] else {}) + {item}]
  }

  function Listed(p: Pod, rule: Rule): seq<string> { if rule == NoLimits then p.noLimits else p.images }

  predicate OffendsBefore(p: Pod, rule: Rule, n: nat, key: string, item: string)
    requires n <= |Listed(p, rule)|
  {
    key == Key(p) && item in Listed(p, rule)[..n] && (rule == NoLimits || LatestTag(item))
  }

  /** m grew from the groups m0 by the first n containers or images of p. */
  ghost predicate Grown(m: map<string, set<string>>, m0: map<string, set<string>>, p: Pod, rule: Rule, n: nat)
    requires n <= |Listed(p, rule)|
  {
    && NoneEmpty(m)
    && forall key, item :: Has(m, key, item) <==> Has(m0, key, item) || OffendsBefore(p, rule, n, key, item)
  }

  lemma WithHas(m: map<string, set<string>>, k: string, x: string)
    requires NoneEmpty(m)
    ensures NoneEmpty(With(m, k, x))
    ensures forall key, item :: Has(With(m, k, x), key, item) <==> Has(m, key, item) || (key == k && item == x)
  {}

  /** The inner loop over one pod's containers or images. */
  method AddItems(m: map<string, set<string>>, p: Pod, rule: Rule) returns (r: map<string, set<string>>)
    requires NoneEmpty(m)
    ensures Grown(r, m, p, rule, |Listed(p, rule)|)
  {
    var listed := Listed(p, rule);
    r := m;
    var n := 0;
    while n < |listed|
      invariant 0 <= n <= |listed| && Grown(r, m, p, rule, n)
    {
      var item := listed[n];
      assert listed[..n + 1] == listed[..n] + [item];
      ghost var before := r;
      if rule == NoLimits || LatestTag(item) {
        WithHas(r, Key(p), item);
        r := With(r, Key(p), item);
      }
      forall k, x ensures Has(r, k, x) <==> Has(m, k, x) || OffendsBefore(p, rule, n + 1, k, x) {
        assert Has(r, k, x) <==>
          Has(before, k, x) || (k == Key(p) && x == item && (rule == NoLimits || LatestTag(item)));
      }
      n := n + 1;
    }
  }

  lemma GroupsNext(m: map<string, set<string>>, m0: map<string, set<string>>, pods: seq<Pod>, hit: Hit, i: nat)
    requires i < |pods| && GroupsBy(m0, pods[..i], hit) && NoneEmpty(m)
    requires forall key, item :: Has(m, key, item) <==> Has(m0, key, item) || hit(pods[i], key, item)
    ensures GroupsBy(m, pods[..i + 1], hit)
  {
    forall key, item ensures Has(m, key, item) <==> Offence(pods[..i + 1], hit, key, item) {
      assert Has(m0, key, item) <==> Offence(pods[..i], hit, key, item);
    }
  }

  /** The part of the loop over the pods that fills one of its two maps. */
  method AddPod(m: map<string, set<string>>, p: Pod, rule: Rule) returns (r: map<string, set<string>>)
    requires NoneEmpty(m)
    ensures NoneEmpty(r) && forall key, item :: Has(r, key, item) <==> Has(m, key, item) || HitOf(rule)(p, key, item)
  {
    if SystemNs(p.namespace) {
      return m;
    }
    r := AddItems(m, p, rule);
  }

  method Group(pods: seq<Pod>, rule: Rule) returns (m: map<string, set<string>>)
    ensures Groups(m, pods, rule)
    ensures forall key, item ::
      Has(m, key, item) <==> exists i :: 0 <= i < |pods| && HasOffence(pods[i], rule, key, item)
  {
    ghost var hit := HitOf(rule);
    m := map[];
    var i := 0;
    while i < |pods|
      invariant 0 <= i <= |pods| && GroupsBy(m, pods[..i], hit)
    {
      ghost var m0 := m;
      m := AddPod(m, pods[i], rule);
      GroupsNext(m, m0, pods, hit, i);
      i := i + 1;
    }
    assert pods[..|pods|] == pods;
    forall key, item
      ensures Has(m, key, item) <==> exists i :: 0 <= i < |pods| && HasOffence(pods[i], rule, key, item)
    {
      OffenceIs(pods, rule, key, item);
    }
  }

  /** One of the two walks over a map of groups, in an order o nobody chose. */
  method AddGroups(c: Collector, m: map<string, set<string>>, rule: Rule) returns (ghost o: seq<string>)
    modifies c
    ensures Walk(o, FindingGroups(m, rule).Keys)
    ensures Added(c.findings, c.seen, old(c.findings), old(c.seen), Flat(FindingGroups(m, rule), o))
  {
    ghost var g := FindingGroups(m, rule);
    var rest := m.Keys;
    o := [];
    assert Walk(o, g.Keys - rest);
    while rest != {}
      invariant rest <= g.Keys && Walk(o, g.Keys - rest)
      invariant Added(c.findings, c.seen, old(c.findings), old(c.seen), Flat(g, o))
      decreases |rest|
    {
      var key :| key in rest;
      AddOne(c, HygieneFinding(rule, key), old(c.findings), old(c.seen), Flat(g, o));
      FlatNext(g, o, key);
      WalkNext(o, g.Keys, rest, key);
      o, rest := o + [key], rest - {key};
    }
    assert g.Keys - {} == g.Keys;
  }
}
