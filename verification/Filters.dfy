/** Compilation and evaluation of placement filters. */
module Filters {
  import opened Common
  import opened Netmap

  datatype Error = ReservedName | UnnamedTop | NotFound | NonEmptyFilters | InvalidNumber | InvalidOp

  // ---- What a filter means ----

  function FilterNames(fs: seq<Filter>): seq<string> {
    seq(|fs|, i requires 0 <= i < |fs| => fs[i].name)
  }

  /** Position of the last definition of `name`, or -1. */
  function Find(fs: seq<Filter>, name: string): (k: int)
    ensures -1 <= k < |fs|
    ensures k >= 0 ==> fs[k].name == name
    ensures forall j :: k < j < |fs| ==> fs[j].name != name
  {
    var names := FilterNames(fs);
    assert forall j :: 0 <= j < |fs| ==> names[j] == fs[j].name;
    LastIndex(names, name)
  }

  predicate Orders(op: Operation, a: nat, b: nat) {
    match op
    case GT => a > b
    case GE => a >= b
    case LT => a < b
    case LE => a <= b
    case _ => false
  }

  /** A single comparison of an attribute with the written value. */
  predicate Compares(f: Filter, b: Node) {
    match f.op
    case EQ => Attribute(b, f.key) == f.value
    case NE => Attribute(b, f.key) != f.value
    case _ =>
      var attr, bound := NumericAttribute(b, f.key), ParseUint(f.value, 64);
      attr.Some? && bound.Some? && Orders(f.op, attr.value, bound.value)
  }

  /** Plain meaning of a filter whose references name the definitions `fs`: AND is all, OR is some, a
      comparison compares with the number its value denotes, and a reference means what the
      definition before it means. */
  ghost predicate Means(fs: seq<Filter>, f: Filter, b: Node)
    decreases |fs|, f, 0
  {
    match f.op
    case AND => forall i :: 0 <= i < |f.filters| ==> InnerMeans(fs, f.filters[i], b)
    case OR => exists i :: 0 <= i < |f.filters| && InnerMeans(fs, f.filters[i], b)
    case _ => Compares(f, b)
  }

  ghost predicate InnerMeans(fs: seq<Filter>, g: Filter, b: Node)
    decreases |fs|, g, 1
  {
    if g.name == "" then Means(fs, g, b)
    else
      var k := Find(fs, g.name);
      k >= 0 && Means(fs[..k], fs[k], b)
  }

  // ---- What the evaluator answers ----

  /** The definitions in force after all filters: a later one replaces an earlier one of the same name. */
  function Definitions(fs: seq<Filter>): map<string, Filter> {
    if fs == [] then map[] else Definitions(fs[..|fs| - 1])[fs[|fs| - 1].name := fs[|fs| - 1]]
  }

  /** The walk of the evaluator over a filter, from left to right with early exit, following references
      through the definitions. `seen` are the names being evaluated; meeting one of them again, or a name
      without a definition, gives no answer. */
  function Walk(filters: map<string, Filter>, f: Filter, b: Node, seen: set<string>): Option<bool>
    decreases |filters.Keys - seen|, f, |f.filters| + 1
  {
    if Connective(f.op) then WalkFrom(filters, f, b, seen, 0) else Some(Compares(f, b))
  }

  /** The same from the i-th inner filter on. */
  function WalkFrom(filters: map<string, Filter>, f: Filter, b: Node, seen: set<string>, i: nat): Option<bool>
    requires i <= |f.filters|
    decreases |filters.Keys - seen|, f, |f.filters| - i
  {
    if i == |f.filters| then Some(f.op == AND)
    else
      var inner := f.filters[i];
      var ok := if inner.name == "" then Walk(filters, inner, b, seen)
                else if inner.name in seen || inner.name !in filters then None
                else (SmallerRest(filters.Keys, seen, inner.name); Walk(filters, filters[inner.name], b, seen + {inner.name}));
      if ok == None then None
      else if ok.value == (f.op == OR) then ok
      else WalkFrom(filters, f, b, seen, i + 1)
  }

  // ---- Which filters are accepted ----

  /** First error of a filter, with the names already defined. */
  function Check(names: set<string>, f: Filter, top: bool): Option<Error>
    decreases f, 1
  {
    if f.name == MAIN_FILTER then Some(ReservedName)
    else if top && f.name == "" then Some(UnnamedTop)
    else if !top && f.name != "" && f.name !in names then Some(NotFound)
    else if Connective(f.op) then CheckAll(names, f.filters)
    else if f.filters != [] then Some(NonEmptyFilters)
    else if !top && f.name != "" then None
    else if f.op in {EQ, NE} then None
    else if !Numeric(f.op) then Some(InvalidOp)
    else if ParseUint(f.value, 64) == None then Some(InvalidNumber)
    else None
  }

  function CheckAll(names: set<string>, fs: seq<Filter>): Option<Error>
    decreases fs, 0
  {
    if fs == [] then None
    else
      var first := Check(names, fs[0], false);
      if first.Some? then first else CheckAll(names, fs[1..])
  }

  /** A filter whose references are defined in `fs` and whose numeric comparisons have numbers. */
  ghost predicate Legal(fs: seq<Filter>, f: Filter)
    decreases f
  {
    if Connective(f.op) then
      forall i :: 0 <= i < |f.filters| ==>
        if f.filters[i].name == "" then Legal(fs, f.filters[i]) else Find(fs, f.filters[i].name) >= 0
    else f.op in {EQ, NE} || (Numeric(f.op) && ParseUint(f.value, 64).Some?)
  }

  function Names(fs: seq<Filter>): set<string> {
    set i | 0 <= i < |fs| :: fs[i].name
  }

  lemma FindDefined(fs: seq<Filter>, name: string)
    ensures name in Names(fs) <==> Find(fs, name) >= 0
  {
    if name in Names(fs) {
      var i :| 0 <= i < |fs| && fs[i].name == name;
      assert Find(fs, name) >= i;
    }
  }

  lemma {:induction false} CheckAllEach(names: set<string>, fs: seq<Filter>, i: nat)
    requires CheckAll(names, fs) == None && i < |fs|
    ensures Check(names, fs[i], false) == None
  {
    if i > 0 {
      CheckAllEach(names, fs[1..], i - 1);
    }
  }

  /** Accepted filters are legal. */
  lemma {:induction false} AcceptedIsLegal(fs: seq<Filter>, f: Filter, top: bool)
    requires Check(Names(fs), f, top) == None && (top || f.name == "")
    ensures Legal(fs, f)
    decreases f
  {
    if Connective(f.op) {
      forall i | 0 <= i < |f.filters|
        ensures if f.filters[i].name == "" then Legal(fs, f.filters[i]) else Find(fs, f.filters[i].name) >= 0
      {
        CheckAllEach(Names(fs), f.filters, i);
        if f.filters[i].name == "" {
          AcceptedIsLegal(fs, f.filters[i], false);
        } else {
          FindDefined(fs, f.filters[i].name);
        }
      }
    }
  }

  /** What an acceptable filter looks like: not named like the filter that passes everything, named at the top
      and either unnamed or a known name below; a connective over acceptable filters, a reference, a
      comparison of texts, or a comparison with a number of at most 64 bits. */
  predicate Acceptable(names: set<string>, f: Filter, top: bool)
    decreases f
  {
    && f.name != "*" && (if top then f.name != "" else f.name == "" || f.name in names)
    && if f.op == AND || f.op == OR then forall i :: 0 <= i < |f.filters| ==> Acceptable(names, f.filters[i], false)
       else f.filters == [] && ((!top && f.name != "") || f.op == EQ || f.op == NE
                                || (f.op in {GT, GE, LT, LE} && ParseUint(f.value, 64).Some?))
  }

  /** A filter has no error if and only if it is acceptable. */
  lemma {:induction false} NoErrorIffAcceptable(names: set<string>, f: Filter, top: bool)
    ensures Check(names, f, top) == None <==> Acceptable(names, f, top)
    decreases f, 1
  {
    if Connective(f.op) {
      NoErrorsIffAcceptable(names, f.filters);
    }
  }

  lemma {:induction false} NoErrorsIffAcceptable(names: set<string>, fs: seq<Filter>)
    ensures CheckAll(names, fs) == None <==> forall i :: 0 <= i < |fs| ==> Acceptable(names, fs[i], false)
    decreases fs, 0
  {
    if fs != [] {
      NoErrorIffAcceptable(names, fs[0], false);
      NoErrorsIffAcceptable(names, fs[1..]);
      assert forall i :: 0 < i < |fs| ==> fs[i] == fs[1..][i - 1];
    }
  }

  /** First error of the filters of a policy, each checked after those before it. */
  function CheckFilters(fs: seq<Filter>): Option<Error> {
    if fs == [] then None
    else
      var before := CheckFilters(fs[..|fs| - 1]);
      if before.Some? then before else Check(Names(fs[..|fs| - 1]), fs[|fs| - 1], true)
  }

  lemma {:induction false} FirstErrorStays(fs: seq<Filter>, k: nat)
    requires k <= |fs| && CheckFilters(fs[..k]).Some?
    ensures CheckFilters(fs) == CheckFilters(fs[..k])
  {
    var m := |fs| - 1;
    if k == |fs| {
      assert fs[..k] == fs;
    } else {
      assert fs[..m][..k] == fs[..k];
      FirstErrorStays(fs[..m], k);
    }
  }

  lemma CheckNext(fs: seq<Filter>, k: nat)
    requires k < |fs| && CheckFilters(fs[..k]) == None
    ensures CheckFilters(fs[..k + 1]) == Check(Names(fs[..k]), fs[k], true)
  {
    assert fs[..k + 1][..k] == fs[..k];
  }

  /** A policy has no error if and only if each filter is accepted after those before it. */
  lemma {:induction false} AcceptedIffEach(fs: seq<Filter>)
    ensures CheckFilters(fs) == None <==> forall k :: 0 <= k < |fs| ==> Check(Names(fs[..k]), fs[k], true) == None
  {
    if fs != [] {
      var m := |fs| - 1;
      AcceptedIffEach(fs[..m]);
      assert forall k :: 0 <= k < m ==> fs[..m][..k] == fs[..k] && fs[..m][k] == fs[k];
      if CheckFilters(fs) == None {
        forall k | 0 <= k < |fs| ensures Check(Names(fs[..k]), fs[k], true) == None {
          assert k < m ==> Check(Names(fs[..m][..k]), fs[..m][k], true) == None;
        }
      } else if CheckFilters(fs[..m]) != None {
        var k :| 0 <= k < m && Check(Names(fs[..m][..k]), fs[..m][k], true) != None;
        assert Check(Names(fs[..k]), fs[k], true) != None;
      }
    }
  }

  // ---- The caches ----

  /** Numbers of the comparisons of a filter, by their text. */
  function Numbers(f: Filter, top: bool): map<string, nat>
    decreases f, 1
  {
    if Connective(f.op) then NumbersOf(f.filters)
    else if !top && f.name != "" then map[]
    else if Numeric(f.op) && ParseUint(f.value, 64).Some? then map[f.value := ParseUint(f.value, 64).value]
    else map[]
  }

  function NumbersOf(fs: seq<Filter>): map<string, nat>
    decreases fs, 0
  {
    if fs == [] then map[] else NumbersOf(fs[..|fs| - 1]) + Numbers(fs[|fs| - 1], false)
  }

  lemma NumbersStep(nums: map<string, nat>, fs: seq<Filter>, i: nat)
    requires i < |fs|
    ensures nums + NumbersOf(fs[..i]) + Numbers(fs[i], false) == nums + NumbersOf(fs[..i + 1])
  {
    assert fs[..i + 1][..i] == fs[..i];
  }

  /** Every cached number is the value of its text. */
  ghost predicate Parsed(nums: map<string, nat>) {
    forall v :: v in nums ==> ParseUint(v, 64) == Some(nums[v])
  }

  lemma {:induction false} NumbersParsed(f: Filter, top: bool)
    ensures Parsed(Numbers(f, top))
    decreases f, 1
  {
    if Connective(f.op) {
      NumbersOfParsed(f.filters);
    }
  }

  lemma {:induction false} NumbersOfParsed(fs: seq<Filter>)
    ensures Parsed(NumbersOf(fs))
    decreases fs, 0
  {
    if fs != [] {
      NumbersOfParsed(fs[..|fs| - 1]);
      NumbersParsed(fs[|fs| - 1], false);
    }
  }

  /** All numeric comparisons evaluated for `f` itself are cached. */
  ghost predicate Cached(nums: map<string, nat>, f: Filter)
    decreases f
  {
    if Connective(f.op) then
      forall i :: 0 <= i < |f.filters| && f.filters[i].name == "" ==> Cached(nums, f.filters[i])
    else Numeric(f.op) ==> f.value in nums
  }

  lemma {:induction false} CachedMonotone(small: map<string, nat>, large: map<string, nat>, f: Filter)
    requires small.Keys <= large.Keys && Cached(small, f)
    ensures Cached(large, f)
    decreases f
  {
    if Connective(f.op) {
      forall i | 0 <= i < |f.filters| && f.filters[i].name == "" ensures Cached(large, f.filters[i]) {
        CachedMonotone(small, large, f.filters[i]);
      }
    }
  }

  lemma {:induction false} NumbersOfKeys(fs: seq<Filter>, i: nat)
    requires i < |fs|
    ensures Numbers(fs[i], false).Keys <= NumbersOf(fs).Keys
  {
    var m := |fs| - 1;
    if i < m {
      NumbersOfKeys(fs[..m], i);
    }
  }

  /** The numbers collected from an accepted filter are those its evaluation needs. */
  lemma {:induction false} NumbersCached(names: set<string>, f: Filter, top: bool)
    requires Check(names, f, top) == None && (top || f.name == "")
    ensures Cached(Numbers(f, top), f)
    decreases f
  {
    if Connective(f.op) {
      forall i | 0 <= i < |f.filters| && f.filters[i].name == "" ensures Cached(Numbers(f, top), f.filters[i]) {
        CheckAllEach(names, f.filters, i);
        NumbersCached(names, f.filters[i], false);
        NumbersOfKeys(f.filters, i);
        CachedMonotone(Numbers(f.filters[i], false), NumbersOf(f.filters), f.filters[i]);
      }
    }
  }

  // ---- A context after all filters have been processed ----

  /** Every cached number is right and every number needed by a stored filter is cached. */
  ghost predicate Usable(filters: map<string, Filter>, nums: map<string, nat>) {
    Parsed(nums) && forall name :: name in filters ==> Cached(nums, filters[name])
  }

  /** One more accepted definition keeps the context usable, also one that replaces another. */
  lemma UsableExtends(names: set<string>, f: Filter, filters: map<string, Filter>, nums: map<string, nat>)
    requires Usable(filters, nums) && Check(names, f, true) == None
    ensures Usable(filters[f.name := f], nums + Numbers(f, true))
  {
    var nums' := nums + Numbers(f, true);
    NumbersParsed(f, true);
    NumbersCached(names, f, true);
    CachedMonotone(Numbers(f, true), nums', f);
    forall name | name in filters ensures Cached(nums', filters[name]) {
      CachedMonotone(nums, nums', filters[name]);
    }
  }

  ghost predicate DistinctNames(fs: seq<Filter>) {
    forall j, k :: 0 <= j < k < |fs| ==> fs[j].name != fs[k].name
  }

  lemma NamesNext(fs: seq<Filter>, i: nat)
    requires i < |fs|
    ensures Names(fs[..i + 1]) == Names(fs[..i]) + {fs[i].name}
    ensures Definitions(fs[..i + 1]) == Definitions(fs[..i])[fs[i].name := fs[i]]
  {
    assert fs[..i + 1] == fs[..i] + [fs[i]];
    NamesAdded(fs[..i], fs[i]);
  }

  lemma {:induction false} DefinitionsKeys(fs: seq<Filter>)
    ensures Definitions(fs).Keys == Names(fs)
  {
    if fs != [] {
      var m := |fs| - 1;
      DefinitionsKeys(fs[..m]);
      NamesAdded(fs[..m], fs[m]);
      assert fs == fs[..m] + [fs[m]];
    }
  }

  lemma NamesAdded(fs: seq<Filter>, f: Filter)
    ensures Names(fs + [f]) == Names(fs) + {f.name}
  {
    assert forall j :: 0 <= j < |fs| ==> (fs + [f])[j] == fs[j];
    assert (fs + [f])[|fs|] == f;
  }
}
