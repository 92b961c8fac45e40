/** Whether the evaluation of filters ends: exactly when its walk meets no name that is being evaluated.
    With different names it always ends; when a name is defined again it need not. */
module FilterLoops {
  import opened Common
  import opened Netmap
  import opened Filters

  /** The evaluator with at most `calls` nested calls; `None` when they do not suffice. */
  function Evaluate(filters: map<string, Filter>, f: Filter, b: Node, calls: nat): Option<bool>
    decreases calls, 1, 0
  {
    if calls == 0 then None
    else if Connective(f.op) then EvaluateFrom(filters, f, b, 0, calls)
    else Some(Compares(f, b))
  }

  /** The loop of the evaluator from the i-th inner filter on. */
  function EvaluateFrom(filters: map<string, Filter>, f: Filter, b: Node, i: nat, calls: nat): Option<bool>
    requires calls > 0 && i <= |f.filters|
    decreases calls, 0, |f.filters| - i
  {
    if i == |f.filters| then Some(f.op == AND)
    else
      var inner := f.filters[i];
      var ok := if inner.name == "" then Evaluate(filters, inner, b, calls - 1)
                else if inner.name in filters then Evaluate(filters, filters[inner.name], b, calls - 1)
                else None;
      if ok == None then None
      else if ok.value == (f.op == OR) then ok
      else EvaluateFrom(filters, f, b, i + 1, calls)
  }

  lemma {:induction false} MoreCalls(filters: map<string, Filter>, f: Filter, b: Node, few: nat, many: nat)
    requires few <= many && Evaluate(filters, f, b, few).Some?
    ensures Evaluate(filters, f, b, many) == Evaluate(filters, f, b, few)
    decreases few, 1, 0
  {
    if Connective(f.op) {
      MoreCallsFrom(filters, f, b, 0, few, many);
    }
  }

  lemma {:induction false} MoreCallsFrom(filters: map<string, Filter>, f: Filter, b: Node, i: nat, few: nat, many: nat)
    requires 0 < few <= many && i <= |f.filters| && EvaluateFrom(filters, f, b, i, few).Some?
    ensures EvaluateFrom(filters, f, b, i, many) == EvaluateFrom(filters, f, b, i, few)
    decreases few, 0, |f.filters| - i
  {
    if i < |f.filters| {
      var inner := f.filters[i];
      var g := if inner.name == "" then inner else filters[inner.name];
      MoreCalls(filters, g, b, few - 1, many - 1);
      if Evaluate(filters, g, b, few - 1).value != (f.op == OR) {
        MoreCallsFrom(filters, f, b, i + 1, few, many);
      }
    }
  }

  // ---- A walk that answers is an evaluation that ends ----

  lemma {:induction false} WalkEnds(filters: map<string, Filter>, f: Filter, b: Node, seen: set<string>) returns (calls: nat)
    requires Walk(filters, f, b, seen).Some?
    ensures Evaluate(filters, f, b, calls) == Walk(filters, f, b, seen)
    decreases |filters.Keys - seen|, f, |f.filters| + 1
  {
    if Connective(f.op) {
      calls := WalkEndsFrom(filters, f, b, seen, 0);
    } else {
      calls := 1;
    }
  }

  lemma {:induction false} WalkEndsFrom(filters: map<string, Filter>, f: Filter, b: Node, seen: set<string>, i: nat) returns (calls: nat)
    requires i <= |f.filters| && WalkFrom(filters, f, b, seen, i).Some?
    ensures calls > 0 && EvaluateFrom(filters, f, b, i, calls) == WalkFrom(filters, f, b, seen, i)
    decreases |filters.Keys - seen|, f, |f.filters| - i
  {
    if i == |f.filters| {
      return 1;
    }
    var inner := f.filters[i];
    var g := if inner.name == "" then inner else filters[inner.name];
    var few: nat;
    if inner.name == "" {
      few := WalkEnds(filters, inner, b, seen);
    } else {
      SmallerRest(filters.Keys, seen, inner.name);
      few := WalkEnds(filters, g, b, seen + {inner.name});
    }
    calls := few + 1;
    if Evaluate(filters, g, b, few).value != (f.op == OR) {
      var rest := WalkEndsFrom(filters, f, b, seen, i + 1);
      calls := if calls > rest then calls else rest;
      MoreCalls(filters, g, b, few, calls - 1);
      MoreCallsFrom(filters, f, b, i + 1, rest, calls);
    }
  }

  // ---- An evaluation that ends is a walk that answers ----

  /** The least number of calls that suffices. */
  lemma LeastCalls(filters: map<string, Filter>, f: Filter, b: Node, calls: nat) returns (least: nat)
    requires Evaluate(filters, f, b, calls).Some?
    ensures 0 < least <= calls
    ensures Evaluate(filters, f, b, least) == Evaluate(filters, f, b, calls) && Evaluate(filters, f, b, least - 1) == None
  {
    least := calls;
    while Evaluate(filters, f, b, least - 1).Some?
      invariant 0 < least <= calls && Evaluate(filters, f, b, least).Some?
      decreases least
    {
      least := least - 1;
    }
    MoreCalls(filters, f, b, least, calls);
  }

  /** The names being evaluated have no answer yet: one call fewer than now is not enough for any of them. */
  ghost predicate Pending(filters: map<string, Filter>, b: Node, seen: set<string>, calls: nat) {
    forall name :: name in seen ==> name in filters && Evaluate(filters, filters[name], b, calls) == None
  }

  lemma PendingFewer(filters: map<string, Filter>, b: Node, seen: set<string>, many: nat, few: nat)
    requires Pending(filters, b, seen, many) && few <= many
    ensures Pending(filters, b, seen, few)
  {
    forall name | name in seen ensures Evaluate(filters, filters[name], b, few) == None {
      if Evaluate(filters, filters[name], b, few).Some? {
        MoreCalls(filters, filters[name], b, few, many);
      }
    }
  }

  lemma {:induction false} EndsWalk(filters: map<string, Filter>, f: Filter, b: Node, seen: set<string>, calls: nat)
    requires Evaluate(filters, f, b, calls).Some? && Pending(filters, b, seen, calls - 1)
    ensures Walk(filters, f, b, seen) == Evaluate(filters, f, b, calls)
    decreases calls, 1, 0
  {
    if Connective(f.op) {
      EndsWalkFrom(filters, f, b, seen, 0, calls);
    }
  }

  lemma {:induction false} EndsWalkFrom(filters: map<string, Filter>, f: Filter, b: Node, seen: set<string>, i: nat, calls: nat)
    requires calls > 0 && i <= |f.filters| && EvaluateFrom(filters, f, b, i, calls).Some? && Pending(filters, b, seen, calls - 1)
    ensures WalkFrom(filters, f, b, seen, i) == EvaluateFrom(filters, f, b, i, calls)
    decreases calls, 0, |f.filters| - i
  {
    if i < |f.filters| {
      var inner := f.filters[i];
      var g := if inner.name == "" then inner else filters[inner.name];
      if inner.name == "" {
        PendingFewer(filters, b, seen, calls - 1, calls - 2);
        EndsWalk(filters, inner, b, seen, calls - 1);
      } else {
        NamedWalk(filters, inner.name, b, seen, calls - 1);
      }
      if Evaluate(filters, g, b, calls - 1).value != (f.op == OR) {
        EndsWalkFrom(filters, f, b, seen, i + 1, calls);
      }
    }
  }

  /** A reference: its definition is walked with the name among those being evaluated. */
  lemma {:induction false} NamedWalk(filters: map<string, Filter>, name: string, b: Node, seen: set<string>, calls: nat)
    requires name in filters && Evaluate(filters, filters[name], b, calls).Some? && Pending(filters, b, seen, calls)
    ensures name !in seen && Walk(filters, filters[name], b, seen + {name}) == Evaluate(filters, filters[name], b, calls)
    decreases calls, 2, 0
  {
    var least := LeastCalls(filters, filters[name], b, calls);
    PendingFewer(filters, b, seen, calls, least - 1);
    EndsWalk(filters, filters[name], b, seen + {name}, least);
  }

  // ---- Exactly when evaluation ends ----

  /** The evaluation of a filter ends if and only if its walk meets no name that is being evaluated, and
      then both give the same answer. */
  lemma EndsIffWalks(filters: map<string, Filter>, f: Filter, b: Node)
    ensures (exists calls: nat :: Evaluate(filters, f, b, calls).Some?) <==> Walk(filters, f, b, {}).Some?
    ensures forall calls: nat :: Evaluate(filters, f, b, calls).Some? ==> Evaluate(filters, f, b, calls) == Walk(filters, f, b, {})
  {
    if Walk(filters, f, b, {}).Some? {
      var calls := WalkEnds(filters, f, b, {});
    }
    forall calls: nat | Evaluate(filters, f, b, calls).Some?
      ensures Evaluate(filters, f, b, calls) == Walk(filters, f, b, {})
    {
      EndsWalk(filters, f, b, {}, calls);
    }
  }

  // ---- Different names ----

  /** The definitions `fs`, with different names, are in force and refer only to earlier ones. */
  ghost predicate Compiled(fs: seq<Filter>, filters: map<string, Filter>) {
    && DistinctNames(fs)
    && (forall k :: 0 <= k < |fs| ==> fs[k].name in filters && filters[fs[k].name] == fs[k])
    && (forall k :: 0 <= k < |fs| ==> Legal(fs[..k], fs[k]))
  }

  lemma CompiledPrefix(fs: seq<Filter>, n: nat, filters: map<string, Filter>)
    requires Compiled(fs, filters) && n <= |fs|
    ensures Compiled(fs[..n], filters)
  {
    assert forall k :: 0 <= k < n ==> fs[..n][k] == fs[k] && fs[..n][..k] == fs[..k];
  }

  lemma {:induction false} AcceptedCompiles(fs: seq<Filter>)
    requires CheckFilters(fs) == None && DistinctNames(fs)
    ensures Compiled(fs, Definitions(fs))
  {
    if fs != [] {
      var m := |fs| - 1;
      AcceptedCompiles(fs[..m]);
      AcceptedIsLegal(fs[..m], fs[m], true);
      forall k | 0 <= k < |fs|
        ensures fs[k].name in Definitions(fs) && Definitions(fs)[fs[k].name] == fs[k] && Legal(fs[..k], fs[k])
      {
        if k < m {
          assert fs[..m][k] == fs[k] && fs[..m][..k] == fs[..k];
        }
      }
    }
  }

  /** On a compiled context every walk answers with the plain meaning. */
  lemma {:induction false} CompiledWalks(fs: seq<Filter>, filters: map<string, Filter>, f: Filter, b: Node, seen: set<string>)
    requires Compiled(fs, filters) && Legal(fs, f) && seen !! Names(fs)
    ensures Walk(filters, f, b, seen) == Some(Means(fs, f, b))
    decreases |fs|, f, 1, 0
  {
    if Connective(f.op) {
      CompiledWalksFrom(fs, filters, f, b, seen, 0);
    }
  }

  lemma {:induction false} CompiledWalksFrom(fs: seq<Filter>, filters: map<string, Filter>, f: Filter, b: Node, seen: set<string>, i: nat)
    requires Compiled(fs, filters) && Legal(fs, f) && Connective(f.op) && seen !! Names(fs) && i <= |f.filters|
    requires forall j :: 0 <= j < i ==> InnerMeans(fs, f.filters[j], b) == (f.op == AND)
    ensures WalkFrom(filters, f, b, seen, i) == Some(Means(fs, f, b))
    decreases |fs|, f, 0, |f.filters| - i
  {
    if i < |f.filters| {
      var inner := f.filters[i];
      if inner.name == "" {
        CompiledWalks(fs, filters, inner, b, seen);
      } else {
        CompiledReference(fs, filters, inner, b, seen);
      }
      if InnerMeans(fs, inner, b) != (f.op == OR) {
        CompiledWalksFrom(fs, filters, f, b, seen, i + 1);
      }
    }
  }

  lemma {:induction false} CompiledReference(fs: seq<Filter>, filters: map<string, Filter>, inner: Filter, b: Node, seen: set<string>)
    requires Compiled(fs, filters) && seen !! Names(fs) && Find(fs, inner.name) >= 0
    ensures inner.name !in seen && inner.name in filters
    ensures Walk(filters, filters[inner.name], b, seen + {inner.name})
            == Some(Means(fs[..Find(fs, inner.name)], fs[Find(fs, inner.name)], b))
    decreases |fs|, inner, 2, 0
  {
    var name, k := inner.name, Find(fs, inner.name);
    FindDefined(fs, name);
    CompiledPrefix(fs, k, filters);
    assert Names(fs[..k]) <= Names(fs) && name !in Names(fs[..k]) by {
      assert forall j :: 0 <= j < k ==> fs[..k][j] == fs[j] && fs[j].name in Names(fs);
    }
    CompiledWalks(fs[..k], filters, fs[k], b, seen + {name});
  }

  /** Filters that are accepted and have different names are evaluated to their plain meaning, in finitely
      many calls. */
  lemma DistinctNamesEnd(fs: seq<Filter>, name: string, b: Node)
    requires CheckFilters(fs) == None && DistinctNames(fs) && Find(fs, name) >= 0
    ensures name in Definitions(fs)
    ensures Walk(Definitions(fs), Definitions(fs)[name], b, {}) == Some(Means(fs[..Find(fs, name)], fs[Find(fs, name)], b))
    ensures exists calls: nat :: Evaluate(Definitions(fs), Definitions(fs)[name], b, calls) == Some(Means(fs[..Find(fs, name)], fs[Find(fs, name)], b))
  {
    var k := Find(fs, name);
    AcceptedCompiles(fs);
    CompiledPrefix(fs, k, Definitions(fs));
    CompiledWalks(fs[..k], Definitions(fs), fs[k], b, {});
    var calls := WalkEnds(Definitions(fs), fs[k], b, {});
  }

  // ---- Names defined again ----

  /** An accepted policy that is never evaluated: a name is defined, then defined again with a reference to itself. */
  lemma RedefinitionNeverEnds(name: string, key: string, value: string, b: Node, calls: nat)
    requires name != "" && name != MAIN_FILTER
    ensures var again := Filter(name, "", AND, "", [Filter(name, "", Unspecified, "", [])]);
            var fs := [Filter(name, key, EQ, value, []), again];
            CheckFilters(fs) == None && Definitions(fs)[name] == again && Evaluate(Definitions(fs), again, b, calls) == None
  {
    var again := Filter(name, "", AND, "", [Filter(name, "", Unspecified, "", [])]);
    var fs := [Filter(name, key, EQ, value, []), again];
    RedefinitionAccepted(name, key, value, again);
    var filters := Definitions(fs);
    assert WalkFrom(filters, again, b, {name}, 0) == None;
    assert Walk(filters, again, b, {name}) == None;
    var none: set<string> := {};
    assert none + {name} == {name};
    assert WalkFrom(filters, again, b, none, 0) == None;
    EndsIffWalks(filters, again, b);
  }

  lemma RedefinitionAccepted(name: string, key: string, value: string, again: Filter)
    requires name != "" && name != MAIN_FILTER && again == Filter(name, "", AND, "", [Filter(name, "", Unspecified, "", [])])
    ensures var fs := [Filter(name, key, EQ, value, []), again]; CheckFilters(fs) == None && Definitions(fs) == map[name := again]
  {
    var first := Filter(name, key, EQ, value, []);
    var fs := [first, again];
    assert fs[..1] == [first];
    assert [first][..0] == [];
    assert [first][0].name in Names([first]);
    assert Check(Names([first]), again.filters[0], false) == None;
    assert CheckAll(Names([first]), again.filters[1..]) == None;
    assert CheckAll(Names([first]), again.filters) == None;
    assert CheckFilters([first]) == None;
    assert Definitions([first]) == map[name := first];
  }

  /** Different names are not needed for evaluation to end: a name defined twice without a reference. */
  lemma RedefinitionMayEnd(name: string, key: string, value: string, b: Node)
    requires name != "" && name != MAIN_FILTER
    ensures var again := Filter(name, key, NE, value, []);
            var fs := [Filter(name, key, EQ, value, []), again];
            CheckFilters(fs) == None && !DistinctNames(fs) && Definitions(fs)[name] == again
            && Walk(Definitions(fs), again, b, {}) == Some(Attribute(b, key) != value)
  {
    var first := Filter(name, key, EQ, value, []);
    var fs := [first, Filter(name, key, NE, value, [])];
    assert fs[..1] == [first] && [first][..0] == [];
    assert CheckFilters([first]) == None;
    assert fs[0].name == fs[1].name;
  }
}
