/** The placement context: filters, selectors and the nodes of a container. */
module Placement {
  import opened Common
  import opened Netmap
  import opened Filters
  import opened Selection
  import opened SelectionMeaning

  class Context {
    const nodes: seq<Node>
    const ordering: Ordering
    var cbf: nat
    var processedFilters: map<string, Filter>
    var numCache: map<string, nat>
    var selections: map<string, seq<Group>>

    constructor (ns: seq<Node>, o: Ordering)
      ensures nodes == ns && ordering == o && processedFilters == map[] && numCache == map[] && selections == map[]
    {
      nodes, ordering, cbf, processedFilters, numCache, selections := ns, o, 0, map[], map[], map[];
    }

    /** The backup factor defaults to three. */
    method SetCBF(factor: nat)
      modifies this`cbf
      ensures cbf == (if factor == 0 then 3 else factor) && cbf >= 1
    {
      cbf := if factor == 0 then 3 else factor;
    }

    /** The loop over the inner filters of a connective. */
    method ProcessInner(fs: seq<Filter>) returns (err: Option<Error>)
      modifies this`processedFilters, this`numCache
      ensures err == CheckAll(processedFilters.Keys, fs)
      ensures err == None ==> numCache == old(numCache) + NumbersOf(fs)
      ensures processedFilters == old(processedFilters)
      decreases fs, 0
    {
      for i := 0 to |fs|
        invariant processedFilters == old(processedFilters)
        invariant numCache == old(numCache) + NumbersOf(fs[..i])
        invariant CheckAll(processedFilters.Keys, fs) == CheckAll(processedFilters.Keys, fs[i..])
      {
        assert fs[i..][1..] == fs[i + 1..];
        NumbersStep(old(numCache), fs, i);
        err := ProcessFilter(fs[i], false);
        if err.Some? {
          return;
        }
      }
      assert fs[..|fs|] == fs;
      err := None;
    }

    /** Checks a filter and, if it is fine, remembers its numbers and (at the top level) the filter. */
    method ProcessFilter(f: Filter, top: bool) returns (err: Option<Error>)
      modifies this`processedFilters, this`numCache
      ensures err == Check(old(processedFilters).Keys, f, top)
      ensures err == None ==> numCache == old(numCache) + Numbers(f, top)
      ensures processedFilters == if top && err == None then old(processedFilters)[f.name := f] else old(processedFilters)
      decreases f, 1
    {
      if f.name == MAIN_FILTER {
        return Some(ReservedName);
      }
      if top && f.name == "" {
        return Some(UnnamedTop);
      }
      if !top && f.name != "" && f.name !in processedFilters {
        return Some(NotFound);
      }
      if Connective(f.op) {
        err := ProcessInner(f.filters);
        if err.Some? {
          return;
        }
      } else if f.filters != [] {
        return Some(NonEmptyFilters);
      } else if !top && f.name != "" {
        return None;
      } else if f.op in {EQ, NE} {
      } else if Numeric(f.op) {
        var n := ParseUint(f.value, 64);
        if n == None {
          return Some(InvalidNumber);
        }
        numCache := numCache[f.value := n.value];
      } else {
        return Some(InvalidOp);
      }
      if top {
        processedFilters := processedFilters[f.name := f];
      }
      err := None;
    }

    /** Processes the filters of a policy in order. Success leaves the last definition of every name and
        every number its evaluation needs. */
    method ProcessFilters(fs: seq<Filter>) returns (err: Option<Error>)
      requires processedFilters == map[] && numCache == map[]
      modifies this`processedFilters, this`numCache
      ensures err == CheckFilters(fs)
      ensures err == None ==> processedFilters == Definitions(fs) && Usable(processedFilters, numCache)
    {
      for i := 0 to |fs|
        invariant processedFilters == Definitions(fs[..i])
        invariant CheckFilters(fs[..i]) == None
        invariant Usable(processedFilters, numCache)
      {
        NamesNext(fs, i);
        DefinitionsKeys(fs[..i]);
        CheckNext(fs, i);
        if CheckFilters(fs[..i + 1]) == None {
          UsableExtends(Names(fs[..i]), fs[i], processedFilters, numCache);
        }
        err := ProcessFilter(fs[i], true);
        if err.Some? {
          FirstErrorStays(fs, i + 1);
          return;
        }
      }
      assert fs[..|fs|] == fs;
      err := None;
    }

    /** One comparison, with the number taken from the cache. */
    method MatchKeyValue(f: Filter, b: Node) returns (ok: bool)
      requires Registered(b) && Parsed(numCache) && !Connective(f.op)
      requires Numeric(f.op) ==> f.value in numCache
      ensures ok == Compares(f, b)
    {
      if f.op == EQ {
        return Attribute(b, f.key) == f.value;
      }
      if f.op == NE {
        return Attribute(b, f.key) != f.value;
      }
      var attr: nat := 0;
      if f.key in {PRICE, CAPACITY} && Attribute(b, f.key) == "" {
        attr := 0;
      } else {
        var parsed := ParseUint(Attribute(b, f.key), 64);
        if parsed == None {
          return false;
        }
        attr := parsed.value;
      }
      if Numeric(f.op) {
        return Orders(f.op, attr, numCache[f.value]);
      }
      return false;
    }

    /** Evaluates a filter against a node with early exit, following references through the cache. It
        ends whenever the walk over the filter has an answer, which is then its own. */
    method Match(f: Filter, b: Node, ghost seen: set<string>) returns (ok: bool)
      requires Registered(b) && Usable(processedFilters, numCache) && Cached(numCache, f)
      requires Walk(processedFilters, f, b, seen).Some?
      ensures Walk(processedFilters, f, b, seen) == Some(ok)
      decreases |processedFilters.Keys - seen|, f
    {
      if !Connective(f.op) {
        ok := MatchKeyValue(f, b);
        return;
      }
      for i := 0 to |f.filters|
        invariant WalkFrom(processedFilters, f, b, seen, i) == Walk(processedFilters, f, b, seen)
      {
        var inner := f.filters[i];
        if inner.name != "" {
          SmallerRest(processedFilters.Keys, seen, inner.name);
          ok := Match(processedFilters[inner.name], b, seen + {inner.name});
        } else {
          ok := Match(inner, b, seen);
        }
        if ok == (f.op == OR) {
          return;
        }
      }
      ok := f.op == AND;
    }

    /** Everything the selection of nodes relies on. */
    ghost predicate Ready(fs: seq<Filter>)
      reads this
    {
      && processedFilters == Definitions(fs) && Usable(processedFilters, numCache)
      && Permutes(ordering) && cbf >= 1
      && forall i :: 0 <= i < |nodes| ==> Registered(nodes[i])
    }

    /** Groups of the nodes that pass the selector's filter. */
    method GetSelectionBase(s: Selector, ghost fs: seq<Filter>) returns (groups: seq<Group>)
      requires Ready(fs) && Evaluable(fs, s.filter, nodes)
      ensures Grouped(Passing(fs, s.filter, nodes), s.attribute, groups)
    {
      var passing := FilterNodes(s.filter, fs);
      if s.attribute == "" {
        groups := seq(|passing|, i requires 0 <= i < |passing| => Group("", ordering.nodes([passing[i]])));
        forall i | 0 <= i < |passing| ensures groups[i] == Group("", [passing[i]]) {
          SingletonOrder(ordering.nodes([passing[i]]), passing[i]);
        }
        assert groups == seq(|passing|, i requires 0 <= i < |passing| => Group("", [passing[i]]));
      } else {
        var nodeMap := GroupByValue(passing, s.attribute);
        groups := EnumerateGroups(passing, s.attribute, nodeMap);
      }
    }

    /** Nodes that pass a filter, in network map order. */
    method FilterNodes(name: string, ghost fs: seq<Filter>) returns (passing: seq<Node>)
      requires Ready(fs) && Evaluable(fs, name, nodes)
      ensures passing == Passing(fs, name, nodes)
    {
      passing := [];
      for i := 0 to |nodes|
        invariant passing == Passing(fs, name, nodes[..i])
      {
        assert nodes[..i + 1][..i] == nodes[..i];
        var ok := name == MAIN_FILTER;
        if !ok {
          ok := Match(processedFilters[name], nodes[i], {});
        }
        if ok {
          passing := passing + [nodes[i]];
        }
      }
      assert nodes[..|nodes|] == nodes;
    }

    /** Collects the nodes by attribute value. */
    method GroupByValue(passing: seq<Node>, attr: string) returns (nodeMap: map<string, seq<Node>>)
      ensures nodeMap.Keys == Values(passing, attr)
      ensures forall v :: v in nodeMap ==> nodeMap[v] == WithValue(passing, attr, v)
    {
      nodeMap := map[];
      for i := 0 to |passing|
        invariant nodeMap.Keys == Values(passing[..i], attr)
        invariant forall v :: v in nodeMap ==> nodeMap[v] == WithValue(passing[..i], attr, v)
      {
        var v := Attribute(passing[i], attr);
        ValuesStep(passing, attr, i);
        if v !in nodeMap {
          NoValue(passing[..i], attr, v);
        }
        assert passing[..i + 1][..i] == passing[..i];
        nodeMap := nodeMap[v := (if v in nodeMap then nodeMap[v] else []) + [passing[i]]];
      }
      assert passing[..|passing|] == passing;
    }

    /** Lists the groups in whatever order the map is iterated, each group put in order. */
    method EnumerateGroups(ghost p: seq<Node>, attr: string, nodeMap: map<string, seq<Node>>) returns (groups: seq<Group>)
      requires attr != "" && Permutes(ordering)
      requires nodeMap.Keys == Values(p, attr)
      requires forall v :: v in nodeMap ==> nodeMap[v] == WithValue(p, attr, v)
      ensures Grouped(p, attr, groups)
    {
      groups := [];
      var keys := nodeMap.Keys;
      while keys != {}
        invariant Listed(groups, nodeMap, keys)
        decreases keys
      {
        var k :| k in keys;
        ListedNext(groups, nodeMap, keys, k, ordering.nodes(nodeMap[k]));
        groups := groups + [Group(k, ordering.nodes(nodeMap[k]))];
        keys := keys - {k};
      }
      forall v | v in Values(p, attr) ensures exists i :: 0 <= i < |groups| && groups[i].attr == v {
        AttrsMember(groups, v);
      }
    }

    /** Selects the buckets of one selector. */
    method GetSelection(s: Selector, ghost fs: seq<Filter>) returns (r: Outcome)
      requires Ready(fs) && Evaluable(fs, s.filter, nodes)
      ensures SelectionResult(Passing(fs, s.filter, nodes), s, cbf, r)
      ensures Answers(Passing(fs, s.filter, nodes), s, cbf, r)
    {
      var base := GetSelectionBase(s, fs);
      r := Choose(Passing(fs, s.filter, nodes), s, cbf, base, ordering);
      ResultAnswers(Passing(fs, s.filter, nodes), s, cbf, r);
    }

    /** Processes selector `i` after the ones before it. */
    method ProcessSelector(selectors: seq<Selector>, i: nat, ghost fs: seq<Filter>) returns (r: SelectorsResult)
      requires i < |selectors| && Ready(fs) && Stored(fs, selectors[..i], nodes, cbf, selections)
      requires KnownFilter(fs, selectors[i]) ==> Evaluable(fs, selectors[i].filter, nodes)
      modifies this`selections
      ensures Processes(fs, selectors[i], nodes, cbf, r)
      ensures r == Processed ==> Stored(fs, selectors[..i + 1], nodes, cbf, selections)
    {
      var s := selectors[i];
      DefinitionsKeys(fs);
      if s.filter != MAIN_FILTER && s.filter !in processedFilters {
        return UnknownFilter;
      }
      var result := GetSelection(s, fs);
      if !result.Selected? {
        return if result == DivideByZero then DividedByZero else SelectionFailed;
      }
      StoredStep(fs, selectors, i, nodes, cbf, selections, result.buckets);
      selections := selections[s.name := result.buckets];
      return Processed;
    }

    /** Processes the selectors in order; a later selector replaces an earlier one of the same name. */
    method ProcessSelectors(selectors: seq<Selector>, ghost fs: seq<Filter>) returns (r: SelectorsResult)
      requires Ready(fs) && selections == map[] && EvaluableWhereReached(fs, selectors, nodes, cbf)
      modifies this`selections
      ensures r == Processed ==> Stored(fs, selectors, nodes, cbf, selections)
      ensures r == Processed <==> AllSatisfiable(fs, selectors, nodes, cbf)
      ensures r != Processed ==> exists i :: FailsFirst(fs, selectors, nodes, cbf, i, r)
    {
      for i := 0 to |selectors|
        invariant Stored(fs, selectors[..i], nodes, cbf, selections)
        invariant AllSatisfiable(fs, selectors[..i], nodes, cbf)
      {
        r := ProcessSelector(selectors, i, fs);
        if r != Processed {
          assert FailsFirst(fs, selectors, nodes, cbf, i, r);
          return;
        }
        SatisfiableNext(fs, selectors, i, nodes, cbf);
      }
      assert selectors[..|selectors|] == selectors;
      r := Processed;
    }
  }

  // ---- Selections by name ----

  datatype SelectorsResult = Processed | UnknownFilter | SelectionFailed | DividedByZero

  predicate KnownFilter(fs: seq<Filter>, s: Selector) {
    s.filter == MAIN_FILTER || s.filter in Names(fs)
  }

  /** Too few groups of matching nodes. */
  ghost predicate Lacking(fs: seq<Filter>, s: Selector, nodes: seq<Node>) {
    !Possible(Passing(fs, s.filter, nodes), s)
  }

  /** Enough nodes for the selector (and it does not ask for nothing in the one way that fails). */
  ghost predicate Satisfiable(fs: seq<Filter>, s: Selector, nodes: seq<Node>, cbf: nat) {
    !Lacking(fs, s, nodes) && !Degenerate(Passing(fs, s.filter, nodes), s, cbf)
  }

  /** What processing a single selector ends with. */
  ghost predicate Processes(fs: seq<Filter>, s: Selector, nodes: seq<Node>, cbf: nat, r: SelectorsResult) {
    match r
    case UnknownFilter => !KnownFilter(fs, s)
    case SelectionFailed => KnownFilter(fs, s) && Lacking(fs, s, nodes)
    case DividedByZero => KnownFilter(fs, s) && Degenerate(Passing(fs, s.filter, nodes), s, cbf)
    case Processed => KnownFilter(fs, s) && Satisfiable(fs, s, nodes, cbf)
  }

  /** Every selector uses a known filter and finds enough nodes. */
  ghost predicate AllSatisfiable(fs: seq<Filter>, selectors: seq<Selector>, nodes: seq<Node>, cbf: nat) {
    forall i :: 0 <= i < |selectors| ==> KnownFilter(fs, selectors[i]) && Satisfiable(fs, selectors[i], nodes, cbf)
  }

  lemma SatisfiableNext(fs: seq<Filter>, selectors: seq<Selector>, i: nat, nodes: seq<Node>, cbf: nat)
    requires i < |selectors| && AllSatisfiable(fs, selectors[..i], nodes, cbf)
    requires KnownFilter(fs, selectors[i]) && Satisfiable(fs, selectors[i], nodes, cbf)
    ensures AllSatisfiable(fs, selectors[..i + 1], nodes, cbf)
  {
    assert forall j :: 0 <= j < i ==> selectors[..i + 1][j] == selectors[..i][j];
  }

  /** The selector at `i` is the first that uses an unknown filter or lacks nodes, and the failure says which. */
  ghost predicate FailsFirst(fs: seq<Filter>, selectors: seq<Selector>, nodes: seq<Node>, cbf: nat, i: int, failure: SelectorsResult) {
    && 0 <= i < |selectors| && failure != Processed
    && AllSatisfiable(fs, selectors[..i], nodes, cbf) && Processes(fs, selectors[i], nodes, cbf, failure)
  }

  /** The evaluation of every filter that is needed ends: that of each selector up to the first one at fault. */
  ghost predicate EvaluableWhereReached(fs: seq<Filter>, selectors: seq<Selector>, nodes: seq<Node>, cbf: nat) {
    forall i :: 0 <= i < |selectors| && KnownFilter(fs, selectors[i]) && AllSatisfiable(fs, selectors[..i], nodes, cbf) ==>
      Evaluable(fs, selectors[i].filter, nodes)
  }

  function SelectorNames(selectors: seq<Selector>): seq<string> {
    seq(|selectors|, i requires 0 <= i < |selectors| => selectors[i].name)
  }

  /** Position of the last selector of a name, or -1. */
  function FindSelector(selectors: seq<Selector>, name: string): (k: int)
    ensures -1 <= k < |selectors|
    ensures k >= 0 ==> selectors[k].name == name
    ensures forall j :: k < j < |selectors| ==> selectors[j].name != name
  {
    var names := SelectorNames(selectors);
    assert forall j :: 0 <= j < |selectors| ==> names[j] == selectors[j].name;
    LastIndex(names, name)
  }

  lemma FindSelectorNext(selectors: seq<Selector>, i: nat, name: string)
    requires i < |selectors|
    ensures FindSelector(selectors[..i + 1], name) == if name == selectors[i].name then i else FindSelector(selectors[..i], name)
  {
    var k, l := FindSelector(selectors[..i], name), FindSelector(selectors[..i + 1], name);
    assert selectors[..i + 1][i] == selectors[i];
    assert forall j :: 0 <= j < i ==> selectors[..i + 1][j] == selectors[..i][j];
    assert name != selectors[i].name && k >= 0 ==> selectors[..i + 1][k].name == name;
    assert l >= 0 && l < i ==> selectors[..i][l].name == name;
  }

  /** Under each name stands a correct selection of the last selector of that name. */
  ghost predicate Stored(fs: seq<Filter>, selectors: seq<Selector>, nodes: seq<Node>, cbf: nat, selections: map<string, seq<Group>>) {
    && (forall name :: name in selections <==> FindSelector(selectors, name) >= 0)
    && (forall name :: name in selections ==>
          var s := selectors[FindSelector(selectors, name)];
          SelectionResult(Passing(fs, s.filter, nodes), s, cbf, Selected(selections[name])))
  }

  lemma StoredStep(fs: seq<Filter>, selectors: seq<Selector>, i: nat, nodes: seq<Node>, cbf: nat,
                   selections: map<string, seq<Group>>, buckets: seq<Group>)
    requires i < |selectors| && Stored(fs, selectors[..i], nodes, cbf, selections)
    requires SelectionResult(Passing(fs, selectors[i].filter, nodes), selectors[i], cbf, Selected(buckets))
    ensures Stored(fs, selectors[..i + 1], nodes, cbf, selections[selectors[i].name := buckets])
  {
    forall name ensures FindSelector(selectors[..i + 1], name) == if name == selectors[i].name then i else FindSelector(selectors[..i], name) {
      FindSelectorNext(selectors, i, name);
    }
  }

  /** One group for each key taken out of `keys` so far. */
  ghost predicate Listed(groups: seq<Group>, nodeMap: map<string, seq<Node>>, keys: set<string>) {
    && keys <= nodeMap.Keys && Attrs(groups) == nodeMap.Keys - keys
    && (forall i :: 0 <= i < |groups| ==>
          groups[i].attr in nodeMap.Keys - keys && multiset(groups[i].nodes) == multiset(nodeMap[groups[i].attr]))
    && DistinctAttrs(groups)
  }

  lemma ListedNext(groups: seq<Group>, nodeMap: map<string, seq<Node>>, keys: set<string>, k: string, ns: seq<Node>)
    requires Listed(groups, nodeMap, keys) && k in keys && multiset(ns) == multiset(nodeMap[k])
    ensures Listed(groups + [Group(k, ns)], nodeMap, keys - {k})
  {
    var next := groups + [Group(k, ns)];
    assert next[..|groups|] == groups;
    assert Attrs(next) == Attrs(groups) + {k};
  }

  lemma SingletonOrder(ordered: seq<Node>, b: Node)
    requires multiset(ordered) == multiset([b])
    ensures ordered == [b]
  {
    assert |multiset(ordered)| == |ordered| == 1;
    assert ordered[0] in multiset([b]);
  }

  lemma ValuesStep(p: seq<Node>, attr: string, i: nat)
    requires i < |p|
    ensures Values(p[..i + 1], attr) == Values(p[..i], attr) + {Attribute(p[i], attr)}
  {
    assert forall j :: 0 <= j < i ==> p[..i + 1][j] == p[..i][j];
    assert p[..i + 1][i] == p[i];
  }

  lemma NoValue(p: seq<Node>, attr: string, v: string)
    requires v !in Values(p, attr)
    ensures WithValue(p, attr, v) == []
  {
    WithValueShares(p, attr, v);
    assert forall b :: b in p ==> Attribute(b, attr) in Values(p, attr);
    assert WithValue(p, attr, v) != [] ==> WithValue(p, attr, v)[0] in WithValue(p, attr, v);
  }
}
