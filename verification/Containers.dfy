/** Nodes of a container: one line of nodes per replica descriptor. */
module Containers {
  import opened Common
  import opened Netmap
  import opened Filters
  import opened Selection
  import opened SelectionMeaning
  import opened Placement

  // ---- Validation of a policy ----

  datatype Validation = Valid | UnknownFilterName | UnknownSelectorName

  /** Every selector uses a defined filter and every replica a defined selector. */
  ghost predicate ValidPolicy(p: Policy) {
    && (forall i :: 0 <= i < |p.selectors| ==> KnownFilter(p.filters, p.selectors[i]))
    && (forall i :: 0 <= i < |p.replicas| && p.replicas[i].selector != "" ==> FindSelector(p.selectors, p.replicas[i].selector) >= 0)
  }

  /** The names are those of the selectors. */
  ghost predicate Defined(names: set<string>, selectors: seq<Selector>) {
    forall name :: name in names <==> FindSelector(selectors, name) >= 0
  }

  lemma DefinedNext(names: set<string>, selectors: seq<Selector>, i: nat)
    requires i < |selectors| && Defined(names, selectors[..i])
    ensures Defined(names + {selectors[i].name}, selectors[..i + 1])
  {
    forall name ensures name in names + {selectors[i].name} <==> FindSelector(selectors[..i + 1], name) >= 0 {
      FindSelectorNext(selectors, i, name);
    }
  }

  method SeenFilters(fs: seq<Filter>) returns (seen: set<string>)
    ensures seen == Names(fs)
  {
    seen := {};
    for i := 0 to |fs|
      invariant seen == Names(fs[..i])
    {
      seen := seen + {fs[i].name};
      NamesNext(fs, i);
    }
    assert fs[..|fs|] == fs;
  }

  method SeenSelectors(fs: seq<Filter>, selectors: seq<Selector>) returns (ok: bool, seen: set<string>)
    ensures ok <==> forall i :: 0 <= i < |selectors| ==> KnownFilter(fs, selectors[i])
    ensures ok ==> Defined(seen, selectors)
  {
    var seenFilters := SeenFilters(fs);
    seen := {};
    for i := 0 to |selectors|
      invariant Defined(seen, selectors[..i])
      invariant forall j :: 0 <= j < i ==> KnownFilter(fs, selectors[j])
    {
      if selectors[i].filter != MAIN_FILTER && selectors[i].filter !in seenFilters {
        assert !KnownFilter(fs, selectors[i]);
        return false, seen;
      }
      DefinedNext(seen, selectors, i);
      seen := seen + {selectors[i].name};
    }
    assert selectors[..|selectors|] == selectors;
    ok := true;
  }

  method ValidatePolicy(p: Policy) returns (r: Validation)
    ensures r == Valid <==> ValidPolicy(p)
    ensures r == UnknownFilterName <==> exists i :: 0 <= i < |p.selectors| && !KnownFilter(p.filters, p.selectors[i])
  {
    var ok, seen := SeenSelectors(p.filters, p.selectors);
    if !ok {
      return UnknownFilterName;
    }
    for i := 0 to |p.replicas|
      invariant forall j :: 0 <= j < i && p.replicas[j].selector != "" ==> FindSelector(p.selectors, p.replicas[j].selector) >= 0
    {
      if p.replicas[i].selector != "" && p.replicas[i].selector !in seen {
        return UnknownSelectorName;
      }
    }
    r := Valid;
  }

  // ---- Lines of nodes ----

  datatype Result =
    | Vectors(lines: seq<seq<Node>>)
    | FilterError(error: Error)
    | SelectorError(failure: SelectorsResult)
    | NotEnough            // for a replica of a policy without selectors
    | ZeroDivision         // a selector asks for no bucket, see Degenerate
    | SelectorNotFound
    | IndexOutOfRange      // a line beyond the replicas is written

  /** Joins the buckets of a selection. */
  method FlattenNodes(groups: seq<Group>) returns (r: seq<Node>)
    ensures r == Flattened(groups)
  {
    r := [];
    for i := 0 to |groups|
      invariant r == Flattened(groups[..i])
    {
      assert groups[..i + 1][..i] == groups[..i];
      r := r + groups[i].nodes;
    }
    assert groups[..|groups|] == groups;
  }

  predicate HasUnnamed(rs: seq<Replica>) {
    exists i :: 0 <= i < |rs| && rs[i].selector == ""
  }

  /** What the replica at `r` adds to the line at `i`: a named one adds its selection to its own line, an
      unnamed one adds the selection of the i-th selector to the i-th line. */
  ghost function Added(p: Policy, selections: map<string, seq<Group>>, r: nat, i: nat): seq<Node>
    requires r < |p.replicas|
  {
    var name := p.replicas[r].selector;
    if name != "" then (if r == i && name in selections then Flattened(selections[name]) else [])
    else if i < |p.selectors| && p.selectors[i].name in selections then Flattened(selections[p.selectors[i].name])
    else []
  }

  /** The line at `i` after the first `upto` replicas of a policy with selectors. */
  ghost function Line(p: Policy, selections: map<string, seq<Group>>, upto: nat, i: nat): seq<Node>
    requires upto <= |p.replicas|
  {
    if upto == 0 then [] else Line(p, selections, upto - 1, i) + Added(p, selections, upto - 1, i)
  }

  /** The selector a replica of a policy without selectors stands for. */
  function DefaultSelector(count: nat): Selector {
    Selector("", count, NoClause, "", MAIN_FILTER)
  }

  /** The loop over the selectors of an unnamed replica. */
  method AddSelections(selectors: seq<Selector>, selections: map<string, seq<Group>>, lines: seq<seq<Node>>)
    returns (r: seq<seq<Node>>, ok: bool)
    requires forall j :: 0 <= j < |selectors| ==> selectors[j].name in selections
    ensures ok <==> |selectors| <= |lines|
    ensures ok ==> |r| == |lines| && forall j :: 0 <= j < |lines| ==>
                     r[j] == lines[j] + (if j < |selectors| then Flattened(selections[selectors[j].name]) else [])
  {
    r := lines;
    for j := 0 to |selectors|
      invariant |r| == |lines| && j <= |lines|
      invariant forall k :: 0 <= k < |lines| ==>
                  r[k] == lines[k] + (if k < j then Flattened(selections[selectors[k].name]) else [])
    {
      if j >= |r| {
        return r, false;
      }
      var flat := FlattenNodes(selections[selectors[j].name]);
      r := r[j := r[j] + flat];
    }
    ok := true;
  }

  /** Result of a policy with selectors, given the stored selections. */
  ghost predicate LinesOf(p: Policy, selections: map<string, seq<Group>>, r: Result) {
    match r
    case Vectors(lines) =>
      && |lines| == |p.replicas| && (forall i :: 0 <= i < |lines| ==> lines[i] == Line(p, selections, |p.replicas|, i))
      && (forall i :: 0 <= i < |p.replicas| ==> Fits(p, selections, i))
    case IndexOutOfRange => exists i :: FirstMisfit(p, selections, i) && p.replicas[i].selector == ""
    case SelectorNotFound => exists i :: FirstMisfit(p, selections, i) && p.replicas[i].selector != ""
    case _ => false
  }

  /** The replica can be served: its selection exists, or all selections have a line to go to. */
  predicate Fits(p: Policy, selections: map<string, seq<Group>>, i: nat)
    requires i < |p.replicas|
  {
    if p.replicas[i].selector == "" then |p.selectors| <= |p.replicas| else p.replicas[i].selector in selections
  }

  ghost predicate FirstMisfit(p: Policy, selections: map<string, seq<Group>>, i: int) {
    0 <= i < |p.replicas| && !Fits(p, selections, i) && forall j :: 0 <= j < i ==> Fits(p, selections, j)
  }

  /** The loop over the replicas of a policy with selectors. */
  method LinesBySelector(p: Policy, selections: map<string, seq<Group>>) returns (r: Result)
    requires p.selectors != [] && forall j :: 0 <= j < |p.selectors| ==> p.selectors[j].name in selections
    ensures LinesOf(p, selections, r)
  {
    var result: seq<seq<Node>> := seq(|p.replicas|, i => []);
    for i := 0 to |p.replicas|
      invariant |result| == |p.replicas|
      invariant forall k :: 0 <= k < |result| ==> result[k] == Line(p, selections, i, k)
      invariant forall j :: 0 <= j < i ==> Fits(p, selections, j)
    {
      var name := p.replicas[i].selector;
      if name == "" {
        var lines, ok := AddSelections(p.selectors, selections, result);
        if !ok {
          assert FirstMisfit(p, selections, i);
          return IndexOutOfRange;
        }
        result := lines;
      } else {
        if name !in selections {
          assert FirstMisfit(p, selections, i);
          return SelectorNotFound;
        }
        var flat := FlattenNodes(selections[name]);
        result := result[i := result[i] + flat];
      }
    }
    r := Vectors(result);
  }

  // ---- The whole computation ----

  lemma {:induction false} MainPassesAll(fs: seq<Filter>, nodes: seq<Node>)
    ensures Passing(fs, "*", nodes) == nodes
  {
    if nodes != [] {
      MainPassesAll(fs, nodes[..|nodes| - 1]);
    }
  }

  /** The line of a replica of a policy without selectors: nodes of the network map, none twice, that many
      times the backup factor or all there are. */
  ghost predicate DefaultLine(count: nat, nodes: seq<Node>, cbf: nat, line: seq<Node>) {
    |line| == (if |nodes| <= count * cbf then |nodes| else count * cbf) && multiset(line) <= multiset(nodes)
  }

  /** The replica asks for no node at all in the one way that panics. */
  predicate AsksForNothing(r: Replica, nodes: seq<Node>, cbf: nat) {
    r.count == 0 && cbf == 1 && nodes != []
  }

  /** The replica of a policy without selectors can be served. */
  predicate Servable(r: Replica, nodes: seq<Node>, cbf: nat) {
    r.selector == "" && r.count <= |nodes| && !AsksForNothing(r, nodes, cbf)
  }

  ghost predicate FirstUnservable(rs: seq<Replica>, nodes: seq<Node>, cbf: nat, i: int) {
    0 <= i < |rs| && !Servable(rs[i], nodes, cbf) && forall j :: 0 <= j < i ==> Servable(rs[j], nodes, cbf)
  }

  /** What becomes of one replica of a policy without selectors. */
  ghost predicate Serves(r: Replica, nodes: seq<Node>, cbf: nat, result: Result) {
    match result
    case Vectors(lines) => |lines| == 1 && Servable(r, nodes, cbf) && DefaultLine(r.count, nodes, cbf, lines[0])
    case NotEnough => r.selector == "" && r.count > |nodes|
    case ZeroDivision => r.selector == "" && AsksForNothing(r, nodes, cbf)
    case SelectorNotFound => r.selector != ""
    case _ => false
  }

  method ServeReplica(c: Context, replica: Replica, ghost fs: seq<Filter>) returns (r: Result)
    requires c.Ready(fs)
    ensures Serves(replica, c.nodes, c.cbf, r)
  {
    if replica.selector != "" {
      return SelectorNotFound;
    }
    MainPassesAll(fs, c.nodes);
    var selection := c.GetSelection(DefaultSelector(replica.count), fs);
    if !selection.Selected? {
      return if selection == DivideByZero then ZeroDivision else NotEnough;
    }
    var flat := FlattenNodes(selection.buckets);
    return Vectors([flat]);
  }

  /** The loop over the replicas of a policy without selectors. */
  method LinesByDefault(c: Context, p: Policy, ghost fs: seq<Filter>) returns (r: Result)
    requires c.Ready(fs) && p.selectors == []
    ensures r.Vectors? ==>
              |r.lines| == |p.replicas| && forall i :: 0 <= i < |r.lines| ==>
                Servable(p.replicas[i], c.nodes, c.cbf) && DefaultLine(p.replicas[i].count, c.nodes, c.cbf, r.lines[i])
    ensures !r.Vectors? ==> exists i :: FirstUnservable(p.replicas, c.nodes, c.cbf, i) && Serves(p.replicas[i], c.nodes, c.cbf, r)
  {
    var result: seq<seq<Node>> := [];
    for i := 0 to |p.replicas|
      invariant |result| == i
      invariant forall k :: 0 <= k < i ==>
                  Servable(p.replicas[k], c.nodes, c.cbf) && DefaultLine(p.replicas[k].count, c.nodes, c.cbf, result[k])
    {
      r := ServeReplica(c, p.replicas[i], fs);
      if !r.Vectors? {
        assert FirstUnservable(p.replicas, c.nodes, c.cbf, i);
        return;
      }
      result := result + r.lines;
    }
    r := Vectors(result);
  }

  function BackupFactor(p: Policy): nat {
    if p.backupFactor == 0 then 3 else p.backupFactor
  }

  /** Applies a policy to the network map, whatever orders the nodes and groups are put in. */
  method ContainerNodes(nodes: seq<Node>, ordering: Ordering, p: Policy) returns (r: Result, ghost selections: map<string, seq<Group>>)
    requires Permutes(ordering) && forall i :: 0 <= i < |nodes| ==> Registered(nodes[i])
    requires CheckFilters(p.filters) == None ==> EvaluableWhereReached(p.filters, p.selectors, nodes, BackupFactor(p))
    ensures CheckFilters(p.filters) == if r.FilterError? then Some(r.error) else None
    ensures r.SelectorError? || (r.ZeroDivision? && p.selectors != [])
            <==> CheckFilters(p.filters) == None && !AllSatisfiable(p.filters, p.selectors, nodes, BackupFactor(p))
    ensures r.SelectorError? ==> exists i :: FailsFirst(p.filters, p.selectors, nodes, BackupFactor(p), i, r.failure)
    ensures r.ZeroDivision? && p.selectors != [] ==> exists i :: FailsFirst(p.filters, p.selectors, nodes, BackupFactor(p), i, DividedByZero)
    ensures p.selectors == [] && CheckFilters(p.filters) == None && !r.Vectors? ==>
              exists i :: FirstUnservable(p.replicas, nodes, BackupFactor(p), i) && Serves(p.replicas[i], nodes, BackupFactor(p), r)
    ensures r.SelectorError? && ValidPolicy(p) ==> r.failure == SelectionFailed
    ensures r.NotEnough? ==> p.selectors == []
    ensures r.SelectorNotFound? ==> !ValidPolicy(p)
    ensures r.IndexOutOfRange? ==> HasUnnamed(p.replicas) && |p.selectors| > |p.replicas|
    ensures r.Vectors? && p.selectors != [] ==>
              Stored(p.filters, p.selectors, nodes, BackupFactor(p), selections) && LinesOf(p, selections, r)
    ensures r.Vectors? && p.selectors == [] ==>
              |r.lines| == |p.replicas| && forall i :: 0 <= i < |r.lines| ==> DefaultLine(p.replicas[i].count, nodes, BackupFactor(p), r.lines[i])
  {
    selections := map[];
    var c := new Context(nodes, ordering);
    c.SetCBF(p.backupFactor);
    var err := c.ProcessFilters(p.filters);
    if err.Some? {
      return FilterError(err.value), selections;
    }
    var processed := c.ProcessSelectors(p.selectors, p.filters);
    if processed != Processed {
      assert !AllSatisfiable(p.filters, p.selectors, nodes, c.cbf);
      if processed == DividedByZero {
        return ZeroDivision, selections;
      }
      return SelectorError(processed), selections;
    }
    selections := c.selections;
    if p.selectors == [] {
      r := LinesByDefault(c, p, p.filters);
    } else {
      StoredNames(p.filters, p.selectors, nodes, c.cbf, selections);
      r := LinesBySelector(p, c.selections);
    }
  }

  lemma StoredNames(fs: seq<Filter>, selectors: seq<Selector>, nodes: seq<Node>, cbf: nat, selections: map<string, seq<Group>>)
    requires Stored(fs, selectors, nodes, cbf, selections)
    ensures forall j :: 0 <= j < |selectors| ==> selectors[j].name in selections
  {
    forall j | 0 <= j < |selectors| ensures selectors[j].name in selections {
      assert FindSelector(selectors, selectors[j].name) >= j;
    }
  }

  // ---- What the result means ----

  /** A sequence that many times over. */
  ghost function Repeat(s: seq<Node>, k: nat): seq<Node> {
    if k == 0 then [] else Repeat(s, k - 1) + s
  }

  /** The selection at the position of a line, which every unnamed replica adds to it. */
  ghost function AtPosition(p: Policy, selections: map<string, seq<Group>>, i: nat): seq<Node> {
    if i < |p.selectors| && p.selectors[i].name in selections then Flattened(selections[p.selectors[i].name]) else []
  }

  /** Number of unnamed replicas from one position up to another. */
  function UnnamedIn(rs: seq<Replica>, from: nat, to: nat): nat
    requires to <= |rs|
  {
    if to <= from then 0 else UnnamedIn(rs, from, to - 1) + (if rs[to - 1].selector == "" then 1 else 0)
  }

  lemma AddedIs(p: Policy, selections: map<string, seq<Group>>, r: nat, i: nat)
    requires r < |p.replicas|
    ensures p.replicas[r].selector == "" ==> Added(p, selections, r, i) == AtPosition(p, selections, i)
    ensures p.replicas[r].selector != "" && r != i ==> Added(p, selections, r, i) == []
  {
  }

  lemma RepeatNext(head: seq<Node>, extra: seq<Node>, k: nat)
    ensures head + Repeat(extra, k) + extra == head + Repeat(extra, k + 1)
    ensures head + Repeat(extra, 0) == head
  {
    Associative(head, Repeat(extra, k), extra);
  }

  lemma Extend(before: seq<Node>, added: seq<Node>, head: seq<Node>, extra: seq<Node>, k: nat, l: nat)
    requires before == head + Repeat(extra, k) && (if l == k then added == [] else l == k + 1 && added == extra)
    ensures before + added == head + Repeat(extra, l)
  {
    if l == k {
      assert before + [] == before;
    } else {
      RepeatNext(head, extra, k);
    }
  }

  lemma {:induction false} LineBefore(p: Policy, selections: map<string, seq<Group>>, upto: nat, i: nat)
    requires upto <= |p.replicas| && (upto <= i || p.replicas[i].selector == "")
    ensures Line(p, selections, upto, i) == Repeat(AtPosition(p, selections, i), UnnamedIn(p.replicas, 0, upto))
  {
    if upto > 0 {
      LineBefore(p, selections, upto - 1, i);
      AddedIs(p, selections, upto - 1, i);
    }
  }

  /** A named line up to and including its own turn. */
  ghost function Turn(p: Policy, selections: map<string, seq<Group>>, i: nat): seq<Node>
    requires i < |p.replicas| && p.replicas[i].selector in selections
  {
    Repeat(AtPosition(p, selections, i), UnnamedIn(p.replicas, 0, i)) + Flattened(selections[p.replicas[i].selector])
  }

  lemma {:induction false} LineAfter(p: Policy, selections: map<string, seq<Group>>, upto: nat, i: nat)
    requires i < upto <= |p.replicas| && p.replicas[i].selector != "" && p.replicas[i].selector in selections
    ensures Line(p, selections, upto, i)
            == Turn(p, selections, i) + Repeat(AtPosition(p, selections, i), UnnamedIn(p.replicas, i + 1, upto))
  {
    var head, extra := Turn(p, selections, i), AtPosition(p, selections, i);
    if upto == i + 1 {
      LineBefore(p, selections, i, i);
      RepeatNext(head, extra, 0);
    } else {
      LineAfter(p, selections, upto - 1, i);
      AddedIs(p, selections, upto - 1, i);
      Extend(Line(p, selections, upto - 1, i), Added(p, selections, upto - 1, i), head, extra,
             UnnamedIn(p.replicas, i + 1, upto - 1), UnnamedIn(p.replicas, i + 1, upto));
    }
  }

  /** Every line, exactly: the selection at its position once for every unnamed replica, and for a named
      replica its own selection, at its turn. */
  lemma LineIs(p: Policy, selections: map<string, seq<Group>>, i: nat)
    requires i < |p.replicas| && (p.replicas[i].selector != "" ==> p.replicas[i].selector in selections)
    ensures var extra := AtPosition(p, selections, i);
            Line(p, selections, |p.replicas|, i)
            == if p.replicas[i].selector == "" then Repeat(extra, UnnamedIn(p.replicas, 0, |p.replicas|))
               else Repeat(extra, UnnamedIn(p.replicas, 0, i)) + Flattened(selections[p.replicas[i].selector])
                    + Repeat(extra, UnnamedIn(p.replicas, i + 1, |p.replicas|))
  {
    if p.replicas[i].selector == "" {
      LineBefore(p, selections, |p.replicas|, i);
    } else {
      LineAfter(p, selections, |p.replicas|, i);
    }
  }

  /** An unnamed replica that is the only one gets the selection of the only selector. */
  lemma SingleLine(p: Policy, selections: map<string, seq<Group>>)
    requires |p.replicas| == 1 && p.replicas[0].selector == "" && |p.selectors| == 1 && p.selectors[0].name in selections
    ensures Line(p, selections, 1, 0) == Flattened(selections[p.selectors[0].name])
  {
    LineIs(p, selections, 0);
    assert UnnamedIn(p.replicas, 0, 1) == 1;
    assert Repeat(AtPosition(p, selections, 0), 1) == AtPosition(p, selections, 0);
  }

  /** The selector whose selection stands under a name: the last one of that name. */
  function LastSelector(p: Policy, name: string): Selector
    requires FindSelector(p.selectors, name) >= 0
  {
    p.selectors[FindSelector(p.selectors, name)]
  }

  /** The line of a named replica is its selection if and only if no unnamed replica is in the policy, or
      no selector stands at the same position, or the last selector of that name asks for no node. */
  lemma NamedLineExactIff(p: Policy, nodes: seq<Node>, cbf: nat, selections: map<string, seq<Group>>, i: nat)
    requires cbf >= 1 && Stored(p.filters, p.selectors, nodes, cbf, selections)
    requires i < |p.replicas| && FindSelector(p.selectors, p.replicas[i].selector) >= 0 && p.replicas[i].selector != ""
    ensures p.replicas[i].selector in selections
    ensures i < |p.selectors| ==> FindSelector(p.selectors, p.selectors[i].name) >= 0
    ensures Line(p, selections, |p.replicas|, i) == Flattened(selections[p.replicas[i].selector])
            <==> !HasUnnamed(p.replicas) || i >= |p.selectors| || LastSelector(p, p.selectors[i].name).count == 0
  {
    StoredNames(p.filters, p.selectors, nodes, cbf, selections);
    if i < |p.selectors| {
      var name := p.selectors[i].name;
      SelectedNothingIff(Passing(p.filters, LastSelector(p, name).filter, nodes), LastSelector(p, name), cbf, selections[name]);
    }
    LineExactIff(p, selections, i);
  }

  lemma {:induction false} UnnamedSomewhere(rs: seq<Replica>, from: nat, to: nat)
    requires to <= |rs|
    ensures UnnamedIn(rs, from, to) > 0 <==> exists j :: from <= j < to && rs[j].selector == ""
  {
    if to > from {
      UnnamedSomewhere(rs, from, to - 1);
    }
  }

  lemma {:induction false} RepeatLength(s: seq<Node>, k: nat)
    ensures if s == [] then Repeat(s, k) == [] else |Repeat(s, k)| >= k
  {
    if k > 0 {
      RepeatLength(s, k - 1);
    }
  }

  /** Copies around a sequence leave it as it is exactly when they are empty or there are none. */
  lemma AroundNothing(extra: seq<Node>, before: nat, own: seq<Node>, after: nat)
    ensures Repeat(extra, before) + own + Repeat(extra, after) == own <==> extra == [] || before + after == 0
  {
    var head, tail := Repeat(extra, before), Repeat(extra, after);
    RepeatLength(extra, before);
    RepeatLength(extra, after);
    assert |head + own + tail| == |head| + |own| + |tail|;
    if head == [] && tail == [] {
      assert head + own + tail == own;
    }
  }

  lemma UnnamedAround(rs: seq<Replica>, i: nat)
    requires i < |rs| && rs[i].selector != ""
    ensures UnnamedIn(rs, 0, i) + UnnamedIn(rs, i + 1, |rs|) > 0 <==> HasUnnamed(rs)
  {
    UnnamedSomewhere(rs, 0, i);
    UnnamedSomewhere(rs, i + 1, |rs|);
  }

  lemma LineExactIff(p: Policy, selections: map<string, seq<Group>>, i: nat)
    requires i < |p.replicas| && p.replicas[i].selector != "" && p.replicas[i].selector in selections
    ensures Line(p, selections, |p.replicas|, i) == Flattened(selections[p.replicas[i].selector])
            <==> !HasUnnamed(p.replicas) || AtPosition(p, selections, i) == []
  {
    LineIs(p, selections, i);
    UnnamedAround(p.replicas, i);
    AroundNothing(AtPosition(p, selections, i), UnnamedIn(p.replicas, 0, i), Flattened(selections[p.replicas[i].selector]),
                  UnnamedIn(p.replicas, i + 1, |p.replicas|));
  }

  /** Every node of every line is in the network map and passes the filter of a selector that stands behind
      the line: that of its replica, or, with an unnamed replica in the policy, the one at its position. */
  lemma LineNodesPass(p: Policy, nodes: seq<Node>, cbf: nat, selections: map<string, seq<Group>>, i: nat, b: Node)
    requires Stored(p.filters, p.selectors, nodes, cbf, selections) && i < |p.replicas|
    requires b in Line(p, selections, |p.replicas|, i)
    ensures b in nodes
    ensures Stands(p, p.replicas[i].selector, b) || (HasUnnamed(p.replicas) && i < |p.selectors| && Stands(p, p.selectors[i].name, b))
  {
    var r := LineOrigin(p, selections, |p.replicas|, i, b);
    var name := if p.replicas[r].selector != "" then p.replicas[r].selector else p.selectors[i].name;
    SelectedPass(p.filters, LastSelector(p, name), nodes, cbf, selections[name], b);
  }

  /** The node passes the filter of the last selector of that name. */
  ghost predicate Stands(p: Policy, name: string, b: Node) {
    FindSelector(p.selectors, name) >= 0 && Passes(p.filters, LastSelector(p, name).filter, b)
  }

  lemma {:induction false} LineOrigin(p: Policy, selections: map<string, seq<Group>>, upto: nat, i: nat, b: Node) returns (r: nat)
    requires upto <= |p.replicas| && b in Line(p, selections, upto, i)
    ensures r < upto && b in Added(p, selections, r, i)
  {
    if b in Added(p, selections, upto - 1, i) {
      r := upto - 1;
    } else {
      r := LineOrigin(p, selections, upto - 1, i, b);
    }
  }

  // ---- Policies whose lines go wrong ----

  /** A selector of one node, whatever node. */
  function OneNode(name: string): Selector {
    Selector(name, 1, NoClause, "", MAIN_FILTER)
  }

  lemma OneNodeSatisfiable(name: string, b: Node)
    ensures KnownFilter([], OneNode(name)) && Satisfiable([], OneNode(name), [b], 3) && Evaluable([], OneNode(name).filter, [b])
  {
    MainPassesAll([], [b]);
  }

  lemma OneNodeSelected(name: string, b: Node, buckets: seq<Group>)
    requires SelectionResult(Passing([], MAIN_FILTER, [b]), OneNode(name), 3, Selected(buckets))
    ensures Flattened(buckets) == [b]
  {
    MainPassesAll([], [b]);
    assert |Flattened(buckets)| == 1 && Flattened(buckets)[0] in multiset(Flattened(buckets));
  }

  lemma OneNodeStored(name: string, b: Node, selections: map<string, seq<Group>>)
    requires Stored([], [OneNode(name)], [b], 3, selections)
    ensures name in selections && Flattened(selections[name]) == [b]
  {
    var selectors := [OneNode(name)];
    assert selectors[0].name == name;
    assert FindSelector(selectors, name) == 0;
    OneNodeSelected(name, b, selections[name]);
  }

  /** One named and one unnamed replica over one selector. */
  function NamedAndUnnamed(name: string): Policy {
    Policy([Replica(1, name), Replica(1, "")], 3, [OneNode(name)], [])
  }

  lemma NamedAndUnnamedLines(name: string, b: Node, selections: map<string, seq<Group>>, lines: seq<seq<Node>>)
    requires name != "" && name in selections && Flattened(selections[name]) == [b]
    requires |lines| == 2 && forall i :: 0 <= i < 2 ==> lines[i] == Line(NamedAndUnnamed(name), selections, 2, i)
    ensures lines == [[b, b], []]
  {
    var p := NamedAndUnnamed(name);
    assert Added(p, selections, 0, 0) == [b] == Added(p, selections, 1, 0);
    assert Added(p, selections, 0, 1) == [] == Added(p, selections, 1, 1);
    assert Line(p, selections, 1, 0) == [b] && Line(p, selections, 1, 1) == [];
    assert lines[0] == [b, b] && lines[1] == [];
  }

  lemma NamedAndUnnamedValid(name: string, b: Node)
    ensures var p := NamedAndUnnamed(name);
            && ValidPolicy(p) && AllSatisfiable(p.filters, p.selectors, [b], 3)
            && EvaluableWhereReached(p.filters, p.selectors, [b], 3)
  {
    OneNodeSatisfiable(name, b);
    var selectors := NamedAndUnnamed(name).selectors;
    assert selectors[0].name == name;
    assert FindSelector(selectors, name) == 0;
  }

  /** A valid policy whose lines are wrong: the named replica gets its node twice, the unnamed one none. */
  method WrongLines(name: string, b: Node, ordering: Ordering) returns (r: Result)
    requires name != "" && Permutes(ordering) && Registered(b)
    ensures ValidPolicy(NamedAndUnnamed(name))
    ensures r == Vectors([[b, b], []])
  {
    NamedAndUnnamedValid(name, b);
    ghost var selections;
    r, selections := ContainerNodes([b], ordering, NamedAndUnnamed(name));
    assert r.Vectors?;
    OneNodeStored(name, b, selections);
    NamedAndUnnamedLines(name, b, selections, r.lines);
  }

  /** One unnamed replica over two selectors. */
  function MoreSelectors(s: string, t: string): Policy {
    Policy([Replica(1, "")], 3, [OneNode(s), OneNode(t)], [])
  }

  /** A valid policy whose lines are not found: the index runs beyond the only replica. */
  method IndexOverrun(s: string, t: string, b: Node, ordering: Ordering) returns (r: Result)
    requires Permutes(ordering) && Registered(b)
    ensures ValidPolicy(MoreSelectors(s, t))
    ensures r == IndexOutOfRange
  {
    var p := MoreSelectors(s, t);
    OneNodeSatisfiable(s, b);
    OneNodeSatisfiable(t, b);
    ghost var selections;
    r, selections := ContainerNodes([b], ordering, p);
    assert r.Vectors? ==> !Fits(p, selections, 0);
  }
}
