/** What a selector says, clause by clause: how many buckets, what their nodes share, and when there are enough nodes. */
module SelectionMeaning {
  import opened Common
  import opened Netmap
  import opened Selection

  /** How many of the nodes have that value of the attribute. */
  ghost function Sharing(p: seq<Node>, attr: string, v: string): nat {
    |set i | 0 <= i < |p| && Attribute(p[i], attr) == v|
  }

  lemma {:induction false} SharingIs(p: seq<Node>, attr: string, v: string)
    ensures |WithValue(p, attr, v)| == Sharing(p, attr, v)
  {
    if p != [] {
      var m := |p| - 1;
      SharingIs(p[..m], attr, v);
      var before := set i | 0 <= i < m && Attribute(p[..m][i], attr) == v;
      var all := set i | 0 <= i < |p| && Attribute(p[i], attr) == v;
      assert all == if Attribute(p[m], attr) == v then before + {m} else before;
    }
  }

  // ---- When a selection is possible ----

  /** Enough nodes: for SAME one value shared by that many nodes, otherwise that many values; without an
      attribute every node is a value of its own. */
  ghost predicate Possible(p: seq<Node>, s: Selector) {
    if s.attribute == "" then
      if s.clause == Same then s.count <= 1 && |p| >= 1 else |p| >= s.count
    else if s.clause == Same then
      exists i :: 0 <= i < |p| && Sharing(p, s.attribute, Attribute(p[i], s.attribute)) >= s.count
    else |set i | 0 <= i < |p| :: Attribute(p[i], s.attribute)| >= s.count
  }

  lemma SharedSomeIff(p: seq<Node>, attr: string, n: nat)
    ensures |Shared(p, attr, n)| >= 1 <==> exists i :: 0 <= i < |p| && Sharing(p, attr, Attribute(p[i], attr)) >= n
  {
    if |Shared(p, attr, n)| >= 1 {
      var v :| v in Shared(p, attr, n);
      var i :| 0 <= i < |p| && Attribute(p[i], attr) == v;
      SharingIs(p, attr, v);
    }
    if i :| 0 <= i < |p| && Sharing(p, attr, Attribute(p[i], attr)) >= n {
      SharingIs(p, attr, Attribute(p[i], attr));
      assert Attribute(p[i], attr) in Shared(p, attr, n);
    }
  }

  lemma SharedByOne(p: seq<Node>, attr: string)
    ensures Shared(p, attr, 1) == Values(p, attr)
  {
    forall v | v in Values(p, attr) ensures |WithValue(p, attr, v)| >= 1 {
      var i :| 0 <= i < |p| && Attribute(p[i], attr) == v;
      WithValueShares(p, attr, v);
      assert p[i] in WithValue(p, attr, v);
    }
  }

  lemma PossibleIff(p: seq<Node>, s: Selector)
    ensures Available(p, s.attribute, CalcNodesCount(s).1) >= CalcNodesCount(s).0 <==> Possible(p, s)
  {
    if s.attribute != "" {
      if s.clause == Same {
        SharedSomeIff(p, s.attribute, s.count);
      } else {
        SharedByOne(p, s.attribute);
      }
    }
  }

  // ---- What is selected ----

  /** All nodes of every bucket have its value. */
  ghost predicate Shares(buckets: seq<Group>, attr: string) {
    forall i, b :: 0 <= i < |buckets| && b in buckets[i].nodes ==> Attribute(b, attr) == buckets[i].attr
  }

  /** SAME: one bucket of at least `count` nodes that share a value. Otherwise: `count` buckets of at least
      one node each, of pairwise different values. Without an attribute: the nodes dealt evenly. In all
      cases at most as many times the number asked for as the backup factor says. */
  ghost predicate Buckets(p: seq<Node>, s: Selector, cbf: nat, buckets: seq<Group>) {
    && |buckets| == (if s.clause == Same then 1 else s.count)
    && multiset(Flattened(buckets)) <= multiset(p)
    && if s.attribute == "" then
         && |Flattened(buckets)| == (if |p| <= s.count * cbf then |p| else s.count * cbf)
         && forall i, j :: 0 <= i < |buckets| && 0 <= j < |buckets| ==> |buckets[i].nodes| <= |buckets[j].nodes| + 1
       else
         && Shares(buckets, s.attribute) && DistinctAttrs(buckets)
         && forall i :: 0 <= i < |buckets| ==>
              if s.clause == Same then s.count <= |buckets[i].nodes| <= s.count * cbf else 1 <= |buckets[i].nodes| <= cbf
  }

  /** The outcome of a selector on the nodes `p` that pass its filter. */
  ghost predicate Answers(p: seq<Node>, s: Selector, cbf: nat, r: Outcome) {
    match r
    case NotEnoughNodes => !Possible(p, s)
    case DivideByZero => s.attribute == "" && s.clause != Same && s.count == 0 && cbf == 1 && p != []
    case Selected(buckets) => Possible(p, s) && Buckets(p, s, cbf, buckets)
  }

  lemma BucketShares(p: seq<Node>, attr: string, n: nat, max: nat, g: Group, b: Node)
    requires ValueBucket(p, attr, n, max, g) && b in g.nodes
    ensures Attribute(b, attr) == g.attr
  {
    assert b in multiset(g.nodes);
    assert b in multiset(WithValue(p, attr, g.attr));
    WithValueShares(p, attr, g.attr);
  }

  /** Buckets of different values take nothing twice. */
  lemma {:induction false} BucketsWithin(p: seq<Node>, attr: string, n: nat, max: nat, buckets: seq<Group>, b: Node)
    requires DistinctAttrs(buckets) && forall i :: 0 <= i < |buckets| ==> ValueBucket(p, attr, n, max, buckets[i])
    ensures multiset(Flattened(buckets))[b] <= multiset(p)[b]
    ensures (forall i :: 0 <= i < |buckets| ==> buckets[i].attr != Attribute(b, attr)) ==> multiset(Flattened(buckets))[b] == 0
  {
    if buckets != [] {
      var m := |buckets| - 1;
      BucketsWithin(p, attr, n, max, buckets[..m], b);
      var g := buckets[m];
      if b in g.nodes {
        BucketShares(p, attr, n, max, g, b);
        assert forall i :: 0 <= i < m ==> buckets[..m][i].attr != g.attr;
        WithValueWithin(p, attr, g.attr, b);
        assert multiset(g.nodes)[b] <= multiset(WithValue(p, attr, g.attr))[b];
      } else {
        assert multiset(g.nodes)[b] == 0;
      }
    }
  }

  lemma {:induction false} WithValueWithin(p: seq<Node>, attr: string, v: string, b: Node)
    ensures multiset(WithValue(p, attr, v))[b] <= multiset(p)[b]
  {
    if p != [] {
      var m := |p| - 1;
      WithValueWithin(p[..m], attr, v, b);
      assert p == p[..m] + [p[m]];
    }
  }

  lemma FlatAnswers(p: seq<Node>, s: Selector, cbf: nat, buckets: seq<Group>)
    requires s.attribute == "" && SelectionResult(p, s, cbf, Selected(buckets))
    ensures Buckets(p, s, cbf, buckets)
  {
    if s.clause == Same {
      assert 1 * (s.count * cbf) == s.count * cbf;
    } else {
      assert s.count * (1 * cbf) == s.count * cbf;
    }
  }

  lemma ValueAnswers(p: seq<Node>, s: Selector, cbf: nat, buckets: seq<Group>)
    requires s.attribute != "" && cbf >= 1 && SelectionResult(p, s, cbf, Selected(buckets))
    ensures Buckets(p, s, cbf, buckets)
  {
    var (count, n) := CalcNodesCount(s);
    ProductAtLeast(n, cbf);
    forall b ensures multiset(Flattened(buckets))[b] <= multiset(p)[b] {
      BucketsWithin(p, s.attribute, n, n * cbf, buckets, b);
    }
    forall i, b | 0 <= i < |buckets| && b in buckets[i].nodes ensures Attribute(b, s.attribute) == buckets[i].attr {
      BucketShares(p, s.attribute, n, n * cbf, buckets[i], b);
    }
    forall i | 0 <= i < |buckets|
      ensures if s.clause == Same then s.count <= |buckets[i].nodes| <= s.count * cbf else 1 <= |buckets[i].nodes| <= cbf
    {
      BucketSize(p, s.attribute, n, cbf, buckets[i]);
    }
  }

  lemma BucketSize(p: seq<Node>, attr: string, n: nat, cbf: nat, g: Group)
    requires cbf >= 1 && ValueBucket(p, attr, n, n * cbf, g)
    ensures n <= |g.nodes| <= n * cbf
  {
    ProductAtLeast(n, cbf);
  }

  /** Every outcome of a selection answers what the selector asks for. */
  lemma ResultAnswers(p: seq<Node>, s: Selector, cbf: nat, r: Outcome)
    requires cbf >= 1 && SelectionResult(p, s, cbf, r)
    ensures Answers(p, s, cbf, r)
  {
    PossibleIff(p, s);
    if r.Selected? {
      if s.attribute == "" {
        FlatAnswers(p, s, cbf, r.buckets);
      } else {
        ValueAnswers(p, s, cbf, r.buckets);
      }
    }
  }
}
