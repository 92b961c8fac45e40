/** What selecting buckets of nodes means, independent of any order. */
module Selection {
  import opened Common
  import opened Netmap
  import opened Filters
  import opened FilterLoops

  /** Nodes that go together, with the attribute value they share (empty without an attribute). */
  datatype Group = Group(attr: string, nodes: seq<Node>)

  /** The orders the nodes and groups are put in: by weight and hash, or by attribute value. */
  datatype Ordering = Ordering(nodes: seq<Node> -> seq<Node>, before: seq<Group> -> seq<Group>, after: seq<Group> -> seq<Group>)

  /** Any order is fine as long as nothing is lost or made up. */
  ghost predicate Permutes(o: Ordering) {
    && (forall s :: multiset(o.nodes(s)) == multiset(s))
    && (forall s :: multiset(o.before(s)) == multiset(s))
    && (forall s :: multiset(o.after(s)) == multiset(s))
  }

  // ---- Nodes that pass a filter, and their groups ----

  /** The filter of that name, as defined last, matches the node. */
  ghost predicate Passes(fs: seq<Filter>, name: string, b: Node) {
    name == MAIN_FILTER || (name in Definitions(fs) && Walk(Definitions(fs), Definitions(fs)[name], b, {}) == Some(true))
  }

  /** Whether a filter can be evaluated on all nodes. */
  ghost predicate Evaluable(fs: seq<Filter>, name: string, nodes: seq<Node>) {
    name == MAIN_FILTER || (name in Definitions(fs)
                            && forall i :: 0 <= i < |nodes| ==> Walk(Definitions(fs), Definitions(fs)[name], nodes[i], {}).Some?)
  }

  /** With different names every filter can be evaluated and means what it says. */
  lemma DistinctNamesPass(fs: seq<Filter>, name: string, nodes: seq<Node>)
    requires CheckFilters(fs) == None && DistinctNames(fs) && Find(fs, name) >= 0
    ensures Evaluable(fs, name, nodes)
    ensures forall b :: b in nodes && name != MAIN_FILTER ==>
              (Passes(fs, name, b) <==> Means(fs[..Find(fs, name)], fs[Find(fs, name)], b))
  {
    if nodes == [] {
      FindDefined(fs, name);
      DefinitionsKeys(fs);
    }
    forall i | 0 <= i < |nodes|
      ensures name in Definitions(fs)
      ensures Walk(Definitions(fs), Definitions(fs)[name], nodes[i], {}) == Some(Means(fs[..Find(fs, name)], fs[Find(fs, name)], nodes[i]))
    {
      DistinctNamesEnd(fs, name, nodes[i]);
    }
  }

  ghost function Passing(fs: seq<Filter>, name: string, nodes: seq<Node>): seq<Node> {
    if nodes == [] then []
    else
      var b := nodes[|nodes| - 1];
      Passing(fs, name, nodes[..|nodes| - 1]) + (if Passes(fs, name, b) then [b] else [])
  }

  lemma {:induction false} PassingPasses(fs: seq<Filter>, name: string, nodes: seq<Node>)
    ensures forall b :: b in Passing(fs, name, nodes) <==> b in nodes && Passes(fs, name, b)
  {
    if nodes != [] {
      var m := |nodes| - 1;
      PassingPasses(fs, name, nodes[..m]);
      assert nodes == nodes[..m] + [nodes[m]];
    }
  }

  /** Nodes of `p` with the value `v` of the attribute. */
  ghost function WithValue(p: seq<Node>, attr: string, v: string): seq<Node> {
    if p == [] then []
    else
      var b := p[|p| - 1];
      WithValue(p[..|p| - 1], attr, v) + (if Attribute(b, attr) == v then [b] else [])
  }

  lemma {:induction false} WithValueShares(p: seq<Node>, attr: string, v: string)
    ensures forall b :: b in WithValue(p, attr, v) <==> b in p && Attribute(b, attr) == v
  {
    if p != [] {
      var m := |p| - 1;
      WithValueShares(p[..m], attr, v);
      assert p == p[..m] + [p[m]];
    }
  }

  ghost function Values(p: seq<Node>, attr: string): set<string> {
    set i | 0 <= i < |p| :: Attribute(p[i], attr)
  }

  /** Values shared by at least `n` of the nodes. */
  ghost function Shared(p: seq<Node>, attr: string, n: nat): set<string> {
    set v | v in Values(p, attr) && |WithValue(p, attr, v)| >= n
  }

  /** How many groups of at least `n` nodes there are: one per attribute value, or one per node. */
  ghost function Available(p: seq<Node>, attr: string, n: nat): nat {
    if attr == "" then (if n <= 1 then |p| else 0) else |Shared(p, attr, n)|
  }

  /** The groups the selection starts from. */
  ghost predicate Grouped(p: seq<Node>, attr: string, groups: seq<Group>) {
    if attr == "" then
      |groups| == |p| && multiset(groups) == multiset(seq(|p|, i requires 0 <= i < |p| => Group("", [p[i]])))
    else
      && (forall i :: 0 <= i < |groups| ==>
            groups[i].attr in Values(p, attr) && multiset(groups[i].nodes) == multiset(WithValue(p, attr, groups[i].attr)))
      && (forall v :: v in Values(p, attr) ==> exists i :: 0 <= i < |groups| && groups[i].attr == v)
      && (forall i, j :: 0 <= i < j < |groups| ==> groups[i].attr != groups[j].attr)
  }

  /** Attribute values of the groups. */
  ghost function Attrs(groups: seq<Group>): set<string> {
    if groups == [] then {} else Attrs(groups[..|groups| - 1]) + {groups[|groups| - 1].attr}
  }

  lemma {:induction false} AttrsMember(groups: seq<Group>, v: string)
    ensures v in Attrs(groups) <==> exists i :: 0 <= i < |groups| && groups[i].attr == v
  {
    if groups != [] {
      var m := |groups| - 1;
      AttrsMember(groups[..m], v);
      if v in Attrs(groups[..m]) {
        var i :| 0 <= i < m && groups[..m][i].attr == v;
        assert groups[i].attr == v;
      }
      if exists i :: 0 <= i < |groups| && groups[i].attr == v {
        var i :| 0 <= i < |groups| && groups[i].attr == v;
        assert i < m ==> groups[..m][i].attr == v;
      }
    }
  }

  // ---- Counting the groups that are large enough ----

  function Large(groups: seq<Group>, n: nat): seq<Group> {
    if groups == [] then []
    else
      var g := groups[|groups| - 1];
      Large(groups[..|groups| - 1], n) + (if |g.nodes| >= n then [g] else [])
  }

  lemma {:induction false} LargeMembers(groups: seq<Group>, n: nat)
    ensures forall g :: g in Large(groups, n) <==> g in groups && |g.nodes| >= n
  {
    if groups != [] {
      var m := |groups| - 1;
      LargeMembers(groups[..m], n);
      assert groups == groups[..m] + [groups[m]];
    }
  }

  lemma {:induction false} LargeDistinct(groups: seq<Group>, n: nat)
    requires forall i, j :: 0 <= i < j < |groups| ==> groups[i].attr != groups[j].attr
    ensures forall i, j :: 0 <= i < j < |Large(groups, n)| ==> Large(groups, n)[i].attr != Large(groups, n)[j].attr
  {
    if groups != [] {
      var m := |groups| - 1;
      LargeDistinct(groups[..m], n);
      LargeMembers(groups[..m], n);
      forall i, j | 0 <= i < j < |Large(groups, n)|
        ensures Large(groups, n)[i].attr != Large(groups, n)[j].attr
      {
        var before := Large(groups[..m], n);
        if j == |before| {
          assert before[i] in groups[..m];
        }
      }
    }
  }

  /** Attribute values of groups with different values number as many as the groups. */
  lemma {:induction false} DistinctCount(groups: seq<Group>)
    requires forall i, j :: 0 <= i < j < |groups| ==> groups[i].attr != groups[j].attr
    ensures |set i | 0 <= i < |groups| :: groups[i].attr| == |groups|
  {
    var all := set i | 0 <= i < |groups| :: groups[i].attr;
    if groups != [] {
      var m := |groups| - 1;
      DistinctCount(groups[..m]);
      var before := set i | 0 <= i < m :: groups[..m][i].attr;
      assert all == before + {groups[m].attr};
      assert groups[m].attr !in before;
    }
  }

  /** The groups with at least `n` nodes number as many as the values shared by `n` nodes. */
  lemma LargeCount(p: seq<Node>, attr: string, groups: seq<Group>, n: nat)
    requires Grouped(p, attr, groups)
    ensures |Large(groups, n)| == Available(p, attr, n)
  {
    if attr == "" {
      SingletonsLarge(p, groups, n);
    } else {
      var large := Large(groups, n);
      LargeDistinct(groups, n);
      DistinctCount(large);
      var attrs := set i | 0 <= i < |large| :: large[i].attr;
      forall v ensures v in attrs <==> v in Shared(p, attr, n) {
        if v in attrs {
          var i :| 0 <= i < |large| && large[i].attr == v;
          LargeIsShared(p, attr, groups, n, large[i]);
        }
        if v in Shared(p, attr, n) {
          var i := SharedIsLarge(p, attr, groups, n, v);
        }
      }
      assert attrs == Shared(p, attr, n);
    }
  }

  lemma LargeIsShared(p: seq<Node>, attr: string, groups: seq<Group>, n: nat, g: Group)
    requires attr != "" && Grouped(p, attr, groups) && g in Large(groups, n)
    ensures g.attr in Shared(p, attr, n)
  {
    LargeMembers(groups, n);
    GroupSize(p, attr, groups, g);
  }

  lemma SharedIsLarge(p: seq<Node>, attr: string, groups: seq<Group>, n: nat, v: string) returns (k: nat)
    requires attr != "" && Grouped(p, attr, groups) && v in Shared(p, attr, n)
    ensures k < |Large(groups, n)| && Large(groups, n)[k].attr == v
  {
    var i :| 0 <= i < |groups| && groups[i].attr == v;
    GroupSize(p, attr, groups, groups[i]);
    LargeMembers(groups, n);
    assert groups[i] in Large(groups, n);
    k :| 0 <= k < |Large(groups, n)| && Large(groups, n)[k] == groups[i];
  }

  lemma GroupSize(p: seq<Node>, attr: string, groups: seq<Group>, g: Group)
    requires attr != "" && Grouped(p, attr, groups) && g in groups
    ensures g.attr in Values(p, attr) && |g.nodes| == |WithValue(p, attr, g.attr)|
  {
    assert |multiset(g.nodes)| == |g.nodes|;
    assert |multiset(WithValue(p, attr, g.attr))| == |WithValue(p, attr, g.attr)|;
  }

  lemma {:induction false} SingletonsLarge(p: seq<Node>, groups: seq<Group>, n: nat)
    requires Grouped(p, "", groups)
    ensures |Large(groups, n)| == Available(p, "", n)
    ensures forall i :: 0 <= i < |groups| ==> groups[i].attr == "" && |groups[i].nodes| == 1
  {
    forall i | 0 <= i < |groups| ensures groups[i].attr == "" && |groups[i].nodes| == 1 {
      assert groups[i] in multiset(groups);
    }
    AllLarge(groups, n);
  }

  lemma {:induction false} AllLarge(groups: seq<Group>, n: nat)
    requires forall i :: 0 <= i < |groups| ==> |groups[i].nodes| == 1
    ensures Large(groups, n) == if n <= 1 then groups else []
  {
    if groups != [] {
      var m := |groups| - 1;
      AllLarge(groups[..m], n);
      assert groups == groups[..m] + [groups[m]];
    }
  }

  // ---- Orders do not matter ----

  ghost predicate DistinctAttrs(groups: seq<Group>) {
    forall i, j :: 0 <= i < j < |groups| ==> groups[i].attr != groups[j].attr
  }

  lemma {:induction false} DistinctOnce(groups: seq<Group>, g: Group)
    requires DistinctAttrs(groups)
    ensures multiset(groups)[g] <= 1
  {
    if groups != [] {
      var m := |groups| - 1;
      DistinctOnce(groups[..m], g);
      assert groups == groups[..m] + [groups[m]];
      assert multiset(groups[..m])[g] > 0 ==> g in groups[..m];
    }
  }

  lemma TwiceCounted(groups: seq<Group>, i: nat, j: nat)
    requires i < j < |groups| && groups[i] == groups[j]
    ensures multiset(groups)[groups[i]] >= 2
  {
    assert groups == groups[..j] + [groups[j]] + groups[j + 1..];
    assert groups[i] == groups[..j][i];
    assert groups[i] in groups[..j];
  }

  lemma DistinctPermuted(a: seq<Group>, b: seq<Group>)
    requires DistinctAttrs(a) && multiset(a) == multiset(b)
    ensures DistinctAttrs(b)
  {
    forall i, j | 0 <= i < j < |b| ensures b[i].attr != b[j].attr {
      DistinctOnce(a, b[i]);
      if b[i] == b[j] {
        TwiceCounted(b, i, j);
      }
      assert b[i] in multiset(a) && b[j] in multiset(a);
      var k, l :| 0 <= k < |a| && 0 <= l < |a| && a[k] == b[i] && a[l] == b[j];
      assert k != l;
    }
  }

  lemma PermutedMembers(a: seq<Group>, b: seq<Group>)
    requires multiset(a) == multiset(b)
    ensures |a| == |b|
    ensures forall g :: g in a <==> g in b
  {
    assert |multiset(a)| == |a| && |multiset(b)| == |b|;
    forall g ensures g in a <==> g in b {
      assert g in a <==> g in multiset(a);
      assert g in b <==> g in multiset(b);
    }
  }

  lemma GroupedPermuted(p: seq<Node>, attr: string, a: seq<Group>, b: seq<Group>)
    requires Grouped(p, attr, a) && multiset(a) == multiset(b)
    ensures Grouped(p, attr, b)
  {
    PermutedMembers(a, b);
    if attr != "" {
      DistinctPermuted(a, b);
      forall i | 0 <= i < |b|
        ensures b[i].attr in Values(p, attr) && multiset(b[i].nodes) == multiset(WithValue(p, attr, b[i].attr))
      {
        assert b[i] in a;
      }
      forall v | v in Values(p, attr) ensures exists i :: 0 <= i < |b| && b[i].attr == v {
        var i :| 0 <= i < |a| && a[i].attr == v;
        assert a[i] in b;
      }
    }
  }

  // ---- Candidates ----

  /** A group cut down to `max` nodes. */
  function Cut(g: Group, max: nat): Group {
    if |g.nodes| >= max then Group(g.attr, g.nodes[..max]) else g
  }

  /** Groups that can be filled up to `max`, cut to it. */
  function FullBuckets(groups: seq<Group>, max: nat): seq<Group> {
    if groups == [] then []
    else
      var g := groups[|groups| - 1];
      FullBuckets(groups[..|groups| - 1], max) + (if |g.nodes| >= max then [Cut(g, max)] else [])
  }

  /** Groups with enough nodes that cannot be filled. */
  function FallbackBuckets(groups: seq<Group>, n: nat, max: nat): seq<Group> {
    if groups == [] then []
    else
      var g := groups[|groups| - 1];
      FallbackBuckets(groups[..|groups| - 1], n, max) + (if n <= |g.nodes| < max then [g] else [])
  }

  lemma {:induction false} CandidateCount(groups: seq<Group>, n: nat, max: nat)
    requires n <= max
    ensures |FullBuckets(groups, max)| == |Large(groups, max)|
    ensures |FullBuckets(groups, max)| + |FallbackBuckets(groups, n, max)| == |Large(groups, n)|
  {
    if groups != [] {
      CandidateCount(groups[..|groups| - 1], n, max);
    }
  }

  /** `c` is a large enough group of `groups`, cut to `max`. */
  ghost predicate CutFrom(c: Group, groups: seq<Group>, n: nat, max: nat) {
    exists i :: 0 <= i < |groups| && c == Cut(groups[i], max) && |groups[i].nodes| >= n
  }

  lemma {:induction false} FullOrigin(groups: seq<Group>, n: nat, max: nat, k: nat)
    requires n <= max && k < |FullBuckets(groups, max)|
    ensures CutFrom(FullBuckets(groups, max)[k], groups, n, max)
    ensures |FullBuckets(groups, max)[k].nodes| == max
  {
    var m := |groups| - 1;
    var before := FullBuckets(groups[..m], max);
    if k < |before| {
      FullOrigin(groups[..m], n, max, k);
      var i :| 0 <= i < m && before[k] == Cut(groups[..m][i], max) && |groups[..m][i].nodes| >= n;
      assert before[k] == Cut(groups[i], max) && |groups[i].nodes| >= n;
    } else {
      assert |groups[m].nodes| >= n;
    }
  }

  lemma {:induction false} FallbackOrigin(groups: seq<Group>, n: nat, max: nat, k: nat)
    requires k < |FallbackBuckets(groups, n, max)|
    ensures CutFrom(FallbackBuckets(groups, n, max)[k], groups, n, max)
    ensures |FallbackBuckets(groups, n, max)[k].nodes| < max
  {
    var m := |groups| - 1;
    var before := FallbackBuckets(groups[..m], n, max);
    if k < |before| {
      FallbackOrigin(groups[..m], n, max, k);
      var i :| 0 <= i < m && before[k] == Cut(groups[..m][i], max) && |groups[..m][i].nodes| >= n;
      assert before[k] == Cut(groups[i], max) && |groups[i].nodes| >= n;
    } else {
      assert |groups[m].nodes| >= n;
    }
  }

  /** Buckets to choose from: the full ones, and the others only when those are too few. */
  function Candidates(groups: seq<Group>, n: nat, max: nat, count: nat): seq<Group> {
    if |FullBuckets(groups, max)| < count then FullBuckets(groups, max) + FallbackBuckets(groups, n, max)
    else FullBuckets(groups, max)
  }

  lemma CandidateOrigin(groups: seq<Group>, n: nat, max: nat, count: nat, k: nat)
    requires n <= max && k < |Candidates(groups, n, max, count)|
    ensures CutFrom(Candidates(groups, n, max, count)[k], groups, n, max)
  {
    var full := |FullBuckets(groups, max)|;
    if k < full {
      FullOrigin(groups, n, max, k);
    } else {
      FallbackOrigin(groups, n, max, k - full);
    }
  }

  lemma {:induction false} FullDistinct(groups: seq<Group>, max: nat)
    requires DistinctAttrs(groups)
    ensures DistinctAttrs(FullBuckets(groups, max))
  {
    if groups != [] {
      var m := |groups| - 1;
      var before := FullBuckets(groups[..m], max);
      FullDistinct(groups[..m], max);
      forall k | 0 <= k < |before| ensures before[k].attr != groups[m].attr {
        FullOrigin(groups[..m], 0, max, k);
      }
    }
  }

  lemma {:induction false} FallbackDistinct(groups: seq<Group>, n: nat, max: nat)
    requires DistinctAttrs(groups)
    ensures DistinctAttrs(FallbackBuckets(groups, n, max))
  {
    if groups != [] {
      var m := |groups| - 1;
      var before := FallbackBuckets(groups[..m], n, max);
      FallbackDistinct(groups[..m], n, max);
      forall k | 0 <= k < |before| ensures before[k].attr != groups[m].attr {
        FallbackOrigin(groups[..m], n, max, k);
      }
    }
  }

  lemma CandidatesDistinct(groups: seq<Group>, n: nat, max: nat, count: nat)
    requires DistinctAttrs(groups) && n <= max
    ensures DistinctAttrs(Candidates(groups, n, max, count))
  {
    var full, fallback := FullBuckets(groups, max), FallbackBuckets(groups, n, max);
    FullDistinct(groups, max);
    FallbackDistinct(groups, n, max);
    forall k, l | 0 <= k < |full| && 0 <= l < |fallback| ensures full[k].attr != fallback[l].attr {
      FullOrigin(groups, n, max, k);
      FallbackOrigin(groups, n, max, l);
      var i :| 0 <= i < |groups| && full[k] == Cut(groups[i], max) && |groups[i].nodes| >= n;
      var j :| 0 <= j < |groups| && fallback[l] == Cut(groups[j], max) && |groups[j].nodes| >= n;
      assert i != j;
    }
  }

  // ---- What a selection by attribute returns ----

  /** A bucket of nodes that share the value `g.attr`: all of them, or `max` of them if there are more. */
  ghost predicate ValueBucket(p: seq<Node>, attr: string, n: nat, max: nat, g: Group) {
    && g.attr in Values(p, attr)
    && n <= |WithValue(p, attr, g.attr)|
    && multiset(g.nodes) <= multiset(WithValue(p, attr, g.attr))
    && |g.nodes| == if |WithValue(p, attr, g.attr)| >= max then max else |WithValue(p, attr, g.attr)|
  }

  /** Buckets of pairwise different values, all of them full if there are enough full groups. */
  ghost predicate SelectedByValue(p: seq<Node>, attr: string, n: nat, max: nat, count: nat, buckets: seq<Group>) {
    && |buckets| == count
    && DistinctAttrs(buckets)
    && (forall i :: 0 <= i < count ==> ValueBucket(p, attr, n, max, buckets[i]))
    && (|Shared(p, attr, max)| >= count ==> forall i :: 0 <= i < count ==> |buckets[i].nodes| == max)
  }

  lemma CutIsValueBucket(p: seq<Node>, attr: string, groups: seq<Group>, n: nat, max: nat, c: Group)
    requires attr != "" && Grouped(p, attr, groups) && CutFrom(c, groups, n, max)
    ensures ValueBucket(p, attr, n, max, c)
  {
    var i :| 0 <= i < |groups| && c == Cut(groups[i], max) && |groups[i].nodes| >= n;
    GroupSize(p, attr, groups, groups[i]);
    if |groups[i].nodes| >= max {
      CutNodes(groups[i].nodes, WithValue(p, attr, c.attr), max);
    }
  }

  lemma CutNodes(ns: seq<Node>, all: seq<Node>, max: nat)
    requires multiset(ns) == multiset(all) && |ns| >= max
    ensures multiset(ns[..max]) <= multiset(all)
  {
    assert ns == ns[..max] + ns[max..];
  }

  lemma CandidateIsBucket(p: seq<Node>, attr: string, groups: seq<Group>, n: nat, max: nat, count: nat, g: Group)
    requires attr != "" && Grouped(p, attr, groups) && n <= max && g in Candidates(groups, n, max, count)
    ensures ValueBucket(p, attr, n, max, g)
    ensures |Shared(p, attr, max)| >= count ==> |g.nodes| == max
  {
    var candidates := Candidates(groups, n, max, count);
    var k :| 0 <= k < |candidates| && candidates[k] == g;
    CandidateOrigin(groups, n, max, count, k);
    CutIsValueBucket(p, attr, groups, n, max, g);
    if |Shared(p, attr, max)| >= count {
      LargeCount(p, attr, groups, max);
      CandidateCount(groups, n, max);
      FullOrigin(groups, n, max, k);
    }
  }

  lemma CandidatesByValue(p: seq<Node>, attr: string, groups: seq<Group>, n: nat, max: nat, count: nat, ordered: seq<Group>)
    requires attr != "" && Grouped(p, attr, groups) && n <= max
    requires multiset(ordered) == multiset(Candidates(groups, n, max, count)) && |ordered| >= count
    ensures SelectedByValue(p, attr, n, max, count, ordered[..count])
  {
    var candidates := Candidates(groups, n, max, count);
    var buckets := ordered[..count];
    assert DistinctAttrs(buckets) by {
      CandidatesDistinct(groups, n, max, count);
      DistinctPermuted(candidates, ordered);
    }
    forall i | 0 <= i < count
      ensures ValueBucket(p, attr, n, max, buckets[i])
      ensures |Shared(p, attr, max)| >= count ==> |buckets[i].nodes| == max
    {
      PermutedMembers(candidates, ordered);
      assert ordered[i] in ordered;
      CandidateIsBucket(p, attr, groups, n, max, count, ordered[i]);
    }
  }

  // ---- Dealing single nodes into buckets ----

  function Flattened(groups: seq<Group>): seq<Node> {
    if groups == [] then [] else Flattened(groups[..|groups| - 1]) + groups[|groups| - 1].nodes
  }

  lemma {:induction false} FlattenedUpdate(groups: seq<Group>, i: nat, extra: seq<Node>)
    requires i < |groups|
    ensures multiset(Flattened(groups[i := Group(groups[i].attr, groups[i].nodes + extra)]))
            == multiset(Flattened(groups)) + multiset(extra)
  {
    var m := |groups| - 1;
    var updated := groups[i := Group(groups[i].attr, groups[i].nodes + extra)];
    if i == m {
      assert updated[..m] == groups[..m];
    } else {
      assert updated[..m] == groups[..m][i := Group(groups[i].attr, groups[i].nodes + extra)];
      FlattenedUpdate(groups[..m], i, extra);
    }
  }

  lemma {:induction false} FlattenedConcat(a: seq<Group>, b: seq<Group>)
    ensures Flattened(a + b) == Flattened(a) + Flattened(b)
  {
    if b == [] {
      assert a + b == a;
    } else {
      var m := |b| - 1;
      FlattenedConcat(a, b[..m]);
      ConcatLast(a, b);
      Associative(Flattened(a), Flattened(b[..m]), b[m].nodes);
    }
  }

  lemma ConcatLast(a: seq<Group>, b: seq<Group>)
    requires b != []
    ensures (a + b)[..|a + b| - 1] == a + b[..|b| - 1] && (a + b)[|a + b| - 1] == b[|b| - 1]
  {
  }

  lemma Associative(a: seq<Node>, b: seq<Node>, c: seq<Node>)
    ensures a + (b + c) == (a + b) + c
  {
  }

  lemma {:induction false} FlattenedSingletons(groups: seq<Group>)
    requires forall i :: 0 <= i < |groups| ==> |groups[i].nodes| == 1
    ensures |Flattened(groups)| == |groups|
  {
    if groups != [] {
      FlattenedSingletons(groups[..|groups| - 1]);
    }
  }

  lemma {:induction false} FlattenedPermuted(a: seq<Group>, b: seq<Group>)
    requires multiset(a) == multiset(b)
    ensures multiset(Flattened(a)) == multiset(Flattened(b))
  {
    PermutedMembers(a, b);
    if a != [] {
      var m := |a| - 1;
      assert a[m] in b;
      var k :| 0 <= k < |b| && b[k] == a[m];
      RemovedOne(a, b, k);
      FlattenedPermuted(a[..m], b[..k] + b[k + 1..]);
      FlattenedWithout(b, k);
    }
  }

  lemma RemovedOne(a: seq<Group>, b: seq<Group>, k: nat)
    requires multiset(a) == multiset(b) && a != [] && k < |b| && b[k] == a[|a| - 1]
    ensures multiset(a[..|a| - 1]) == multiset(b[..k] + b[k + 1..])
  {
    var m := |a| - 1;
    assert a == a[..m] + [a[m]];
    assert b == b[..k] + [b[k]] + b[k + 1..];
    calc {
      multiset(a[..m]);
      multiset(a) - multiset{a[m]};
      multiset(b) - multiset{b[k]};
      multiset(b[..k]) + multiset(b[k + 1..]);
      multiset(b[..k] + b[k + 1..]);
    }
  }

  lemma FlattenedWithout(b: seq<Group>, k: nat)
    requires k < |b|
    ensures multiset(Flattened(b)) == multiset(Flattened(b[..k] + b[k + 1..])) + multiset(b[k].nodes)
  {
    SplitAround(b, k);
    FlattenedMiddle(b[..k], b[k], b[k + 1..]);
  }

  lemma SplitAround(b: seq<Group>, k: nat)
    requires k < |b|
    ensures b == b[..k] + [b[k]] + b[k + 1..]
  {
  }

  lemma FlattenedMiddle(x: seq<Group>, g: Group, y: seq<Group>)
    ensures multiset(Flattened(x + [g] + y)) == multiset(Flattened(x + y)) + multiset(g.nodes)
  {
    FlattenedConcat(x + [g], y);
    FlattenedConcat(x, [g]);
    FlattenedConcat(x, y);
    FlattenedOne(g);
  }

  lemma FlattenedOne(g: Group)
    ensures Flattened([g]) == g.nodes
  {
    assert [g][..0] == [];
    assert Flattened([g]) == Flattened([]) + g.nodes;
  }

  lemma {:induction false} FlattenedBase(p: seq<Node>)
    ensures Flattened(seq(|p|, i requires 0 <= i < |p| => Group("", [p[i]]))) == p
  {
    if p != [] {
      var m := |p| - 1;
      var all := seq(|p|, i requires 0 <= i < |p| => Group("", [p[i]]));
      assert all[..m] == seq(m, i requires 0 <= i < m => Group("", [p[..m][i]]));
      FlattenedBase(p[..m]);
    }
  }

  /** Nodes dealt in `q` rounds. */
  ghost function Rounds(q: nat, count: nat): nat {
    if q == 0 then 0 else Rounds(q - 1, count) + count
  }

  lemma {:induction false} RoundsProduct(q: nat, count: nat)
    ensures Rounds(q, count) == q * count
  {
    if q > 0 {
      RoundsProduct(q - 1, count);
      assert q * count == (q - 1) * count + count;
    }
  }

  /** `t` nodes dealt round robin into the buckets: `q` full rounds and the first `r` of the next. */
  ghost predicate Dealt(buckets: seq<Group>, q: nat, r: nat, t: nat) {
    && r < |buckets| && t == Rounds(q, |buckets|) + r
    && forall j :: 0 <= j < |buckets| ==> |buckets[j].nodes| == q + (if j < r then 1 else 0)
  }

  /** Buckets without an attribute: disjoint parts of the passing nodes, as even as possible, and as many
      nodes as there are up to the backup factor. */
  ghost predicate SelectedFlat(p: seq<Node>, max: nat, count: nat, buckets: seq<Group>) {
    && |buckets| == count
    && (forall i, j :: 0 <= i < count && 0 <= j < count ==> |buckets[i].nodes| <= |buckets[j].nodes| + 1)
    && multiset(Flattened(buckets)) <= multiset(p)
    && |Flattened(buckets)| == if |p| <= count * max then |p| else count * max
  }

  lemma RoundIndex(q: nat, count: nat, r: nat)
    requires q >= 1 && r < count
    ensures (Rounds(q, count) + r - count) % count == r
  {
    if q > 1 {
      RoundsProduct(q - 1, count);
      DivisionUnique(Rounds(q, count) + r - count, count, q - 1, r);
    }
  }

  lemma DealOne(buckets: seq<Group>, q: nat, r: nat, t: nat, extra: seq<Node>)
    requires Dealt(buckets, q, r, t) && |extra| == 1
    ensures var next := buckets[r := Group(buckets[r].attr, buckets[r].nodes + extra)];
            Dealt(next, if r + 1 < |buckets| then q else q + 1, if r + 1 < |buckets| then r + 1 else 0, t + 1)
  {
  }

  lemma {:induction false} DealBound(q: nat, r: nat, count: nat, max: nat)
    requires r < count && q <= max && (q == max ==> r == 0)
    ensures Rounds(q, count) + r <= count * max
    ensures q == max ==> Rounds(q, count) + r == count * max
  {
    RoundsProduct(max, count);
    RoundsGrow(q, max, count);
  }

  lemma {:induction false} RoundsGrow(q: nat, max: nat, count: nat)
    requires q <= max
    ensures Rounds(q, count) <= Rounds(max, count)
    ensures q < max ==> Rounds(q, count) + count <= Rounds(max, count)
  {
    if q < max {
      RoundsGrow(q, max - 1, count);
    }
  }

  /** The first `t` candidates have been dealt. */
  ghost predicate Dealing(candidates: seq<Group>, count: nat, max: nat, buckets: seq<Group>, q: nat, r: nat, t: nat) {
    && |buckets| == count <= t <= |candidates|
    && (forall i :: 0 <= i < |candidates| ==> |candidates[i].nodes| == 1)
    && Dealt(buckets, q, r, t) && 1 <= q <= max && (q == max ==> r == 0)
    && multiset(Flattened(buckets)) == multiset(Flattened(candidates[..t]))
  }

  lemma DealNext(candidates: seq<Group>, count: nat, max: nat, buckets: seq<Group>, q: nat, r: nat, t: nat)
    requires Dealing(candidates, count, max, buckets, q, r, t) && t < |candidates|
    requires |buckets[(t - count) % count].nodes| < max
    ensures (t - count) % count == r
    ensures Dealing(candidates, count, max, buckets[r := Group(buckets[r].attr, buckets[r].nodes + candidates[t].nodes)],
                    if r + 1 < count then q else q + 1, if r + 1 < count then r + 1 else 0, t + 1)
  {
    RoundIndex(q, count, r);
    DealOne(buckets, q, r, t, candidates[t].nodes);
    FlattenedUpdate(buckets, r, candidates[t].nodes);
    FlattenedNext(candidates, t);
  }

  lemma FlattenedNext(candidates: seq<Group>, t: nat)
    requires t < |candidates|
    ensures multiset(Flattened(candidates[..t + 1])) == multiset(Flattened(candidates[..t])) + multiset(candidates[t].nodes)
  {
    assert candidates[..t + 1][..t] == candidates[..t];
  }

  /** Dealing ends with the candidates or when the buckets are full. */
  lemma DealEnd(candidates: seq<Group>, count: nat, max: nat, buckets: seq<Group>, q: nat, r: nat, t: nat)
    requires Dealing(candidates, count, max, buckets, q, r, t)
    requires t == |candidates| || |buckets[(t - count) % count].nodes| >= max
    ensures t == if |candidates| <= count * max then |candidates| else count * max
    ensures forall i, j :: 0 <= i < count && 0 <= j < count ==> |buckets[i].nodes| <= |buckets[j].nodes| + 1
  {
    RoundIndex(q, count, r);
    DealBound(q, r, count, max);
  }

  lemma DealStart(candidates: seq<Group>, count: nat, max: nat)
    requires 1 <= count <= |candidates| && max >= 1 && forall i :: 0 <= i < |candidates| ==> |candidates[i].nodes| == 1
    ensures Dealing(candidates, count, max, candidates[..count], 1, 0, count)
  {
    assert Rounds(1, count) == count;
  }

  /** Deals the candidates after the first `count` into these, stopping at the first full bucket. */
  method TopUp(candidates: seq<Group>, count: nat, max: nat) returns (buckets: seq<Group>, ghost t: nat)
    requires 1 <= count <= |candidates|
    requires max == 0 || forall i :: 0 <= i < |candidates| ==> |candidates[i].nodes| == 1
    ensures |buckets| == count
    ensures max == 0 ==> buckets == candidates[..count]
    ensures max > 0 ==>
              && t == (if |candidates| <= count * max then |candidates| else count * max)
              && t <= |candidates| && multiset(Flattened(buckets)) == multiset(Flattened(candidates[..t]))
              && (forall i, j :: 0 <= i < count && 0 <= j < count ==> |buckets[i].nodes| <= |buckets[j].nodes| + 1)
  {
    buckets, t := candidates[..count], count;
    var fallback := candidates[count..];
    if max == 0 {
      return;
    }
    ghost var q: nat, r: nat := 1, 0;
    DealStart(candidates, count, max);
    for i := 0 to |fallback|
      invariant t == count + i && Dealing(candidates, count, max, buckets, q, r, t)
    {
      var index := i % count;
      if |buckets[index].nodes| >= max {
        break;
      }
      DealNext(candidates, count, max, buckets, q, r, t);
      buckets := buckets[index := Group(buckets[index].attr, buckets[index].nodes + fallback[i].nodes)];
      q, r := if r + 1 < count then q else q + 1, if r + 1 < count then r + 1 else 0;
      t := t + 1;
    }
    DealEnd(candidates, count, max, buckets, q, r, t);
  }

  /** Without an attribute and for buckets of one node, every passing node is a candidate. */
  lemma SingletonCandidates(groups: seq<Group>, max: nat, count: nat)
    requires (forall i :: 0 <= i < |groups| ==> |groups[i].nodes| == 1) && max >= 1 && count >= 1
    ensures Candidates(groups, 1, max, count) == groups
  {
    SingletonBuckets(groups, max);
  }

  lemma {:induction false} SingletonBuckets(groups: seq<Group>, max: nat)
    requires (forall i :: 0 <= i < |groups| ==> |groups[i].nodes| == 1) && max >= 1
    ensures FullBuckets(groups, max) == if max == 1 then groups else []
    ensures FallbackBuckets(groups, 1, max) == if max == 1 then [] else groups
  {
    if groups != [] {
      var m := |groups| - 1;
      SingletonBuckets(groups[..m], max);
      SplitLast(groups);
      assert max == 1 ==> groups[m].nodes[..max] == groups[m].nodes;
    }
  }

  lemma SplitLast(groups: seq<Group>)
    requires groups != []
    ensures groups == groups[..|groups| - 1] + [groups[|groups| - 1]]
  {
  }

  lemma {:induction false} EmptyFlattened(groups: seq<Group>)
    requires forall i :: 0 <= i < |groups| ==> groups[i].nodes == []
    ensures Flattened(groups) == []
  {
    if groups != [] {
      EmptyFlattened(groups[..|groups| - 1]);
    }
  }

  /** Dealing all passing nodes, in any order, fills the buckets evenly. */
  lemma DealtIsSelected(p: seq<Node>, groups: seq<Group>, ordered: seq<Group>, max: nat, count: nat, buckets: seq<Group>, t: nat)
    requires Grouped(p, "", groups) && multiset(ordered) == multiset(groups)
    requires |buckets| == count && t <= |ordered|
    requires t == if |ordered| <= count * max then |ordered| else count * max
    requires multiset(Flattened(buckets)) == multiset(Flattened(ordered[..t]))
    requires forall i, j :: 0 <= i < count && 0 <= j < count ==> |buckets[i].nodes| <= |buckets[j].nodes| + 1
    ensures SelectedFlat(p, max, count, buckets)
  {
    OrderedSingletons(p, groups, ordered);
    OrderedPrefix(ordered, t);
    assert |Flattened(buckets)| == |multiset(Flattened(buckets))| == |multiset(Flattened(ordered[..t]))| == t;
  }

  lemma OrderedSingletons(p: seq<Node>, groups: seq<Group>, ordered: seq<Group>)
    requires Grouped(p, "", groups) && multiset(ordered) == multiset(groups)
    ensures |ordered| == |p| && forall i :: 0 <= i < |ordered| ==> |ordered[i].nodes| == 1
    ensures multiset(Flattened(ordered)) == multiset(p)
  {
    SingletonsLarge(p, groups, 1);
    PermutedMembers(groups, ordered);
    forall i | 0 <= i < |ordered| ensures |ordered[i].nodes| == 1 {
      assert ordered[i] in groups;
    }
    FlattenedBase(p);
    FlattenedPermuted(ordered, seq(|p|, i requires 0 <= i < |p| => Group("", [p[i]])));
  }

  lemma OrderedPrefix(ordered: seq<Group>, t: nat)
    requires t <= |ordered| && forall i :: 0 <= i < |ordered| ==> |ordered[i].nodes| == 1
    ensures |Flattened(ordered[..t])| == t
    ensures multiset(Flattened(ordered[..t])) <= multiset(Flattened(ordered))
  {
    assert ordered == ordered[..t] + ordered[t..];
    FlattenedConcat(ordered[..t], ordered[t..]);
    FlattenedSingletons(ordered[..t]);
  }

  // ---- Selectors ----

  datatype Outcome = Selected(buckets: seq<Group>) | NotEnoughNodes | DivideByZero

  /** Number of buckets and the least number of nodes in each. */
  function CalcNodesCount(s: Selector): (nat, nat) {
    if s.clause == Same then (1, s.count) else (s.count, 1)
  }

  /** A selector that asks for no bucket at all over ungrouped nodes, with backup factor one. */
  ghost predicate Degenerate(p: seq<Node>, s: Selector, cbf: nat) {
    s.attribute == "" && s.clause != Same && s.count == 0 && cbf == 1 && p != []
  }

  /** What a selector yields on the passing nodes `p`, whatever the orders: it succeeds exactly when enough
      groups are large enough, and what it returns then. */
  ghost predicate SelectionResult(p: seq<Node>, s: Selector, cbf: nat, r: Outcome) {
    var (count, n) := CalcNodesCount(s);
    match r
    case NotEnoughNodes => Available(p, s.attribute, n) < count
    case DivideByZero => Degenerate(p, s, cbf)
    case Selected(buckets) =>
      && Available(p, s.attribute, n) >= count
      && !Degenerate(p, s, cbf)
      && if s.attribute == "" then SelectedFlat(p, n * cbf, count, buckets)
         else SelectedByValue(p, s.attribute, n, n * cbf, count, buckets)
  }

  lemma {:induction false} LargeBound(groups: seq<Group>, n: nat)
    ensures |Large(groups, n)| <= |groups|
  {
    if groups != [] {
      LargeBound(groups[..|groups| - 1], n);
    }
  }

  lemma ProductAtLeast(n: nat, cbf: nat)
    requires cbf >= 1
    ensures n <= n * cbf
  {
  }

  /** Splits the groups into those that can be filled and those that are merely large enough. */
  method SplitGroups(groups: seq<Group>, n: nat, max: nat) returns (res: seq<Group>, fallback: seq<Group>)
    ensures res == FullBuckets(groups, max) && fallback == FallbackBuckets(groups, n, max)
  {
    res, fallback := [], [];
    for i := 0 to |groups|
      invariant res == FullBuckets(groups[..i], max) && fallback == FallbackBuckets(groups[..i], n, max)
    {
      assert groups[..i + 1][..i] == groups[..i];
      var ns := groups[i].nodes;
      if |ns| >= max {
        res := res + [Group(groups[i].attr, ns[..max])];
      } else if |ns| >= n {
        fallback := fallback + [groups[i]];
      }
    }
    assert groups[..|groups|] == groups;
  }

  /** Enough candidates exist exactly when enough groups are large enough. */
  lemma EnoughCandidates(p: seq<Node>, attr: string, groups: seq<Group>, n: nat, max: nat, count: nat)
    requires Grouped(p, attr, groups) && n <= max
    ensures |Candidates(groups, n, max, count)| >= count <==> Available(p, attr, n) >= count
  {
    LargeCount(p, attr, groups, n);
    CandidateCount(groups, n, max);
  }

  /** Buckets to choose from, if there are enough of them. */
  method Collect(ghost p: seq<Node>, ghost attr: string, groups: seq<Group>, n: nat, max: nat, count: nat) returns (enough: bool, res: seq<Group>)
    requires Grouped(p, attr, groups) && n <= max
    ensures enough <==> Available(p, attr, n) >= count
    ensures enough ==> res == Candidates(groups, n, max, count) && |res| >= count
  {
    EnoughCandidates(p, attr, groups, n, max, count);
    var fallback;
    res, fallback := SplitGroups(groups, n, max);
    if |res| < count {
      res := res + fallback;
    }
    enough := |res| >= count;
  }

  /** Selects buckets out of the groups of the passing nodes `p`. */
  method Choose(ghost p: seq<Node>, s: Selector, cbf: nat, base: seq<Group>, o: Ordering) returns (r: Outcome)
    requires Grouped(p, s.attribute, base) && Permutes(o) && cbf >= 1
    ensures SelectionResult(p, s, cbf, r)
  {
    var (count, n) := CalcNodesCount(s);
    if |base| < count {
      LargeCount(p, s.attribute, base, n);
      LargeBound(base, n);
      return NotEnoughNodes;
    }
    var groups := o.before(base);
    GroupedPermuted(p, s.attribute, base, groups);
    var max := n * cbf;
    ProductAtLeast(n, cbf);
    var enough, res := Collect(p, s.attribute, groups, n, max, count);
    if !enough {
      return NotEnoughNodes;
    }
    var ordered := o.after(res);
    r := Pick(p, s, cbf, max, groups, res, ordered);
  }

  /** Takes the buckets from the ordered candidates. */
  method Pick(ghost p: seq<Node>, s: Selector, ghost cbf: nat, max: nat, ghost groups: seq<Group>, ghost res: seq<Group>, ordered: seq<Group>)
    returns (r: Outcome)
    requires Grouped(p, s.attribute, groups) && cbf >= 1 && max == CalcNodesCount(s).1 * cbf >= CalcNodesCount(s).1
    requires Available(p, s.attribute, CalcNodesCount(s).1) >= CalcNodesCount(s).0 && |res| >= CalcNodesCount(s).0
    requires res == Candidates(groups, CalcNodesCount(s).1, max, CalcNodesCount(s).0) && multiset(ordered) == multiset(res)
    ensures SelectionResult(p, s, cbf, r)
  {
    var (count, n) := CalcNodesCount(s);
    SameLength(ordered, res);
    if s.attribute == "" {
      r := SelectFlat(p, count, n, max, groups, ordered);
      FlatIsResult(p, s, cbf, r);
    } else {
      CandidatesByValue(p, s.attribute, groups, n, max, count, ordered);
      r := Selected(ordered[..count]);
    }
  }

  /** The end of a selection without an attribute. */
  method SelectFlat(ghost p: seq<Node>, count: nat, n: nat, max: nat, ghost groups: seq<Group>, ordered: seq<Group>) returns (r: Outcome)
    requires Grouped(p, "", groups) && n <= max && (n == 0 ==> max == 0) && (count == 0 ==> n == 1)
    requires Available(p, "", n) >= count && |ordered| >= count
    requires multiset(ordered) == multiset(Candidates(groups, n, max, count))
    ensures r == DivideByZero || (r.Selected? && SelectedFlat(p, max, count, r.buckets))
    ensures r == DivideByZero <==> count == 0 && max == 1 && p != []
  {
    if count == 0 {
      NoBuckets(p, max, groups, ordered);
      return if |ordered| > 0 then DivideByZero else Selected([]);
    }
    var buckets;
    ghost var t;
    if n == 0 {
      buckets, t := TopUp(ordered, count, max);
      EmptySelection(p, groups, ordered, count);
    } else {
      FlatCandidates(p, count, n, max, groups, ordered);
      buckets, t := TopUp(ordered, count, max);
      DealtIsSelected(p, groups, ordered, max, count, buckets, t);
    }
    return Selected(buckets);
  }

  /** Every passing node is a candidate of a selection without an attribute. */
  lemma FlatCandidates(p: seq<Node>, count: nat, n: nat, max: nat, groups: seq<Group>, ordered: seq<Group>)
    requires Grouped(p, "", groups) && 1 <= n <= max && Available(p, "", n) >= count >= 1
    requires multiset(ordered) == multiset(Candidates(groups, n, max, count))
    ensures multiset(ordered) == multiset(groups)
    ensures forall i :: 0 <= i < |ordered| ==> |ordered[i].nodes| == 1
  {
    SingletonsLarge(p, groups, n);
    SingletonCandidates(groups, max, count);
    OrderedSingletons(p, groups, ordered);
  }

  /** Asking for no bucket: the groups are left over exactly when they are already full. */
  lemma NoBuckets(p: seq<Node>, max: nat, groups: seq<Group>, ordered: seq<Group>)
    requires max >= 1 && Grouped(p, "", groups)
    requires multiset(ordered) == multiset(Candidates(groups, 1, max, 0))
    ensures |ordered| > 0 <==> max == 1 && p != []
    ensures SelectedFlat(p, max, 0, [])
  {
    SingletonsLarge(p, groups, 1);
    FullSingletons(groups, max, ordered);
    NothingSelected(p, max);
  }

  lemma FullSingletons(groups: seq<Group>, max: nat, ordered: seq<Group>)
    requires max >= 1 && forall i :: 0 <= i < |groups| ==> |groups[i].nodes| == 1
    requires multiset(ordered) == multiset(FullBuckets(groups, max))
    ensures |ordered| > 0 <==> max == 1 && |groups| > 0
  {
    SingletonBuckets(groups, max);
    SameLength(ordered, FullBuckets(groups, max));
  }

  lemma SameLength(a: seq<Group>, b: seq<Group>)
    requires multiset(a) == multiset(b)
    ensures |a| == |b|
  {
    assert |multiset(a)| == |a| && |multiset(b)| == |b|;
  }

  lemma NothingSelected(p: seq<Node>, max: nat)
    ensures SelectedFlat(p, max, 0, [])
  {
    assert 0 * max == 0;
  }

  lemma FlatIsResult(p: seq<Node>, s: Selector, cbf: nat, r: Outcome)
    requires s.attribute == "" && cbf >= 1 && Available(p, "", CalcNodesCount(s).1) >= CalcNodesCount(s).0
    requires r == DivideByZero || (r.Selected? && SelectedFlat(p, CalcNodesCount(s).1 * cbf, CalcNodesCount(s).0, r.buckets))
    requires r == DivideByZero <==> CalcNodesCount(s).0 == 0 && CalcNodesCount(s).1 * cbf == 1 && p != []
    ensures SelectionResult(p, s, cbf, r)
  {
    assert CalcNodesCount(s).0 == 0 ==> CalcNodesCount(s).1 == 1;
  }

  /** Asking for buckets of no nodes selects none. */
  lemma EmptySelection(p: seq<Node>, groups: seq<Group>, ordered: seq<Group>, count: nat)
    requires count <= |ordered| && multiset(ordered) == multiset(Candidates(groups, 0, 0, count))
    ensures SelectedFlat(p, 0, count, ordered[..count])
  {
    var candidates := Candidates(groups, 0, 0, count);
    PermutedMembers(candidates, ordered);
    forall i | 0 <= i < count ensures ordered[i].nodes == [] {
      assert ordered[i] in candidates;
      var k :| 0 <= k < |candidates| && candidates[k] == ordered[i];
      CandidateOrigin(groups, 0, 0, count, k);
    }
    EmptyFlattened(ordered[..count]);
  }

  // ---- What every selection has ----

  lemma {:induction false} FlattenedHas(groups: seq<Group>, i: nat)
    requires i < |groups| && groups[i].nodes != []
    ensures Flattened(groups) != []
  {
    var m := |groups| - 1;
    if i < m {
      FlattenedHas(groups[..m], i);
    }
  }

  lemma {:induction false} FlattenedOrigin(groups: seq<Group>, b: Node) returns (i: nat)
    requires b in Flattened(groups)
    ensures i < |groups| && b in groups[i].nodes
  {
    var m := |groups| - 1;
    if b in groups[m].nodes {
      i := m;
    } else {
      i := FlattenedOrigin(groups[..m], b);
    }
  }

  lemma ProductZero(count: nat, max: nat)
    ensures count * max == 0 <==> count == 0 || max == 0
  {
  }

  lemma FlatNothingIff(p: seq<Node>, s: Selector, cbf: nat, buckets: seq<Group>)
    requires s.attribute == "" && cbf >= 1 && SelectionResult(p, s, cbf, Selected(buckets))
    ensures Flattened(buckets) == [] <==> s.count == 0
  {
    var (count, n) := CalcNodesCount(s);
    ProductZero(n, cbf);
    ProductZero(count, n * cbf);
  }

  lemma ValueNothingIff(p: seq<Node>, s: Selector, cbf: nat, buckets: seq<Group>)
    requires s.attribute != "" && cbf >= 1 && SelectionResult(p, s, cbf, Selected(buckets))
    ensures Flattened(buckets) == [] <==> s.count == 0
  {
    var (count, n) := CalcNodesCount(s);
    ProductAtLeast(n, cbf);
    ProductZero(n, cbf);
    if s.count == 0 {
      EmptyFlattened(buckets);
    } else {
      assert ValueBucket(p, s.attribute, n, n * cbf, buckets[0]);
      FlattenedHas(buckets, 0);
    }
  }

  /** A selection is empty if and only if the selector asks for no node. */
  lemma SelectedNothingIff(p: seq<Node>, s: Selector, cbf: nat, buckets: seq<Group>)
    requires cbf >= 1 && SelectionResult(p, s, cbf, Selected(buckets))
    ensures Flattened(buckets) == [] <==> s.count == 0
  {
    if s.attribute == "" {
      FlatNothingIff(p, s, cbf, buckets);
    } else {
      ValueNothingIff(p, s, cbf, buckets);
    }
  }

  /** A selection holds candidates only. */
  lemma SelectedFrom(p: seq<Node>, s: Selector, cbf: nat, buckets: seq<Group>, b: Node)
    requires SelectionResult(p, s, cbf, Selected(buckets)) && b in Flattened(buckets)
    ensures b in p
  {
    if s.attribute == "" {
      assert b in multiset(Flattened(buckets));
    } else {
      var i := FlattenedOrigin(buckets, b);
      assert b in multiset(buckets[i].nodes);
      assert b in multiset(WithValue(p, s.attribute, buckets[i].attr));
      WithValueShares(p, s.attribute, buckets[i].attr);
    }
  }

  /** Every selected node is in the network map and passes the filter of its selector. */
  lemma SelectedPass(fs: seq<Filter>, s: Selector, nodes: seq<Node>, cbf: nat, buckets: seq<Group>, b: Node)
    requires SelectionResult(Passing(fs, s.filter, nodes), s, cbf, Selected(buckets)) && b in Flattened(buckets)
    ensures b in nodes && Passes(fs, s.filter, b)
  {
    SelectedFrom(Passing(fs, s.filter, nodes), s, cbf, buckets, b);
    PassingPasses(fs, s.filter, nodes);
  }
}
