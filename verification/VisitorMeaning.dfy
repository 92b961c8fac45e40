/** Merging nested expressions into filters of any arity keeps what they match. */
module VisitorMeaning {
  import opened Common
  import opened Netmap
  import opened Filters
  import opened PolicyLanguage

  /** A tree as the parser builds it: comparisons compare, connectives connect. */
  predicate WellFormed(t: Tree) {
    match t
    case Leaf(Reference(name)) => name != ""
    case Leaf(Comparison(_, op, _)) => op !in {Unspecified, AND, OR}
    case Inner(tree) => WellFormed(tree)
    case Binary(op, left, right) => Connective(op) && WellFormed(left) && WellFormed(right)
  }

  /** Plain meaning of an expression over the definitions `fs`. */
  ghost predicate TreeMeans(fs: seq<Filter>, t: Tree, b: Node) {
    match t
    case Leaf(Reference(name)) => Find(fs, name) >= 0 && Means(fs[..Find(fs, name)], fs[Find(fs, name)], b)
    case Leaf(Comparison(key, op, value)) => Compares(Filter("", key, op, value, []), b)
    case Inner(tree) => TreeMeans(fs, tree, b)
    case Binary(op, left, right) =>
      if op == AND then TreeMeans(fs, left, b) && TreeMeans(fs, right, b)
      else TreeMeans(fs, left, b) || TreeMeans(fs, right, b)
  }

  lemma {:induction false} VisitedShape(t: Tree)
    requires WellFormed(t)
    ensures Connective(Visit(t).op) ==> Visit(t).name == ""
  {
    match t
    case Leaf(_) =>
    case Inner(tree) => VisitedShape(tree);
    case Binary(op, left, right) =>
  }

  /** An AND or OR over a list and one more filter. */
  lemma AppendedMeaning(fs: seq<Filter>, op: Operation, inner: seq<Filter>, last: Filter, b: Node)
    requires Connective(op)
    ensures var whole := Means(fs, Filter("", "", op, "", inner + [last]), b);
            var part := Means(fs, Filter("", "", op, "", inner), b);
            whole == if op == AND then part && InnerMeans(fs, last, b) else part || InnerMeans(fs, last, b)
  {
    var all := inner + [last];
    assert forall i :: 0 <= i < |inner| ==> all[i] == inner[i];
    assert all[|inner|] == last;
    var f, g := Filter("", "", op, "", all), Filter("", "", op, "", inner);
    if op == AND {
      assert Means(fs, f, b) <==> forall i :: 0 <= i < |all| ==> InnerMeans(fs, all[i], b);
      assert Means(fs, g, b) <==> forall i :: 0 <= i < |inner| ==> InnerMeans(fs, inner[i], b);
    } else {
      assert Means(fs, f, b) <==> exists i :: 0 <= i < |all| && InnerMeans(fs, all[i], b);
      assert Means(fs, g, b) <==> exists i :: 0 <= i < |inner| && InnerMeans(fs, inner[i], b);
      if exists i :: 0 <= i < |inner| && InnerMeans(fs, inner[i], b) {
        var i :| 0 <= i < |inner| && InnerMeans(fs, inner[i], b);
        assert InnerMeans(fs, all[i], b);
      }
    }
  }

  lemma PairMeaning(fs: seq<Filter>, op: Operation, f1: Filter, f2: Filter, b: Node)
    requires Connective(op)
    ensures Means(fs, Filter("", "", op, "", [f1, f2]), b)
            == if op == AND then InnerMeans(fs, f1, b) && InnerMeans(fs, f2, b) else InnerMeans(fs, f1, b) || InnerMeans(fs, f2, b)
  {
    AppendedMeaning(fs, op, [], f1, b);
    AppendedMeaning(fs, op, [f1], f2, b);
    assert [f1] + [f2] == [f1, f2] && [] + [f1] == [f1];
  }

  /** Only the operation and the inner filters of a connective matter. */
  lemma ConnectiveMeaning(fs: seq<Filter>, f: Filter, g: Filter, b: Node)
    requires Connective(f.op) && f.op == g.op && f.filters == g.filters
    ensures Means(fs, f, b) == Means(fs, g, b)
  {
    if f.op == AND {
      assert Means(fs, f, b) <==> forall i :: 0 <= i < |f.filters| ==> InnerMeans(fs, f.filters[i], b);
      assert Means(fs, g, b) <==> forall i :: 0 <= i < |g.filters| ==> InnerMeans(fs, g.filters[i], b);
    } else {
      assert Means(fs, f, b) <==> exists i :: 0 <= i < |f.filters| && InnerMeans(fs, f.filters[i], b);
      assert Means(fs, g, b) <==> exists i :: 0 <= i < |g.filters| && InnerMeans(fs, g.filters[i], b);
    }
  }

  /** For every expression, parenthesised or not, the visited filter matches the nodes the expression means. */
  lemma {:induction false} VisitKeepsMeaning(fs: seq<Filter>, t: Tree, b: Node)
    requires WellFormed(t)
    ensures InnerMeans(fs, Visit(t), b) == TreeMeans(fs, t, b)
  {
    match t
    case Leaf(_) =>
    case Inner(tree) =>
      VisitKeepsMeaning(fs, tree, b);
    case Binary(op, left, right) =>
      VisitKeepsMeaning(fs, left, b);
      VisitKeepsMeaning(fs, right, b);
      VisitedShape(left);
      var f1, f2 := Visit(left), Visit(right);
      if f1.op == op {
        AppendedMeaning(fs, op, f1.filters, f2, b);
        ConnectiveMeaning(fs, f1, Filter("", "", op, "", f1.filters), b);
      } else {
        PairMeaning(fs, op, f1, f2, b);
      }
  }

  /** Nothing but a reference, perhaps in parentheses. */
  predicate Bare(t: Tree) {
    match t
    case Leaf(Reference(_)) => true
    case Inner(tree) => Bare(tree)
    case _ => false
  }

  lemma {:induction false} VisitedBare(t: Tree)
    requires WellFormed(t)
    ensures Visit(t).op == Unspecified <==> Bare(t)
    ensures Bare(t) ==> Visit(t).filters == []
    ensures !Bare(t) ==> Visit(t).name == ""
  {
    match t
    case Leaf(_) =>
    case Inner(tree) => VisitedBare(tree);
    case Binary(_, _, _) =>
  }

  /** A filter statement that is accepted means what its expression means. The one kind that does not, a
      bare reference, whose name overwrites what it refers to, matches no node and is never accepted. */
  lemma AcceptedStatementKeepsMeaning(fs: seq<Filter>, t: Tree, name: string, b: Node)
    requires WellFormed(t) && name != "" && name != MAIN_FILTER
    ensures var f := Visit(t).(name := name);
            && (Check(Names(fs), f, true) == None ==> Means(fs, f, b) == TreeMeans(fs, t, b))
            && (!Bare(t) ==> Means(fs, f, b) == TreeMeans(fs, t, b))
            && (Bare(t) ==> Check(Names(fs), f, true) == Some(InvalidOp) && !Means(fs, f, b))
  {
    VisitedBare(t);
    if Bare(t) {
      assert !Compares(Visit(t).(name := name), b);
    } else {
      VisitKeepsMeaning(fs, t, b);
      RenamedMeaning(fs, Visit(t), name, b);
    }
  }

  lemma RenamedMeaning(fs: seq<Filter>, f: Filter, name: string, b: Node)
    ensures Means(fs, f.(name := name), b) == Means(fs, f, b)
  {
    if Connective(f.op) {
      ConnectiveMeaning(fs, f, f.(name := name), b);
    }
  }
}
