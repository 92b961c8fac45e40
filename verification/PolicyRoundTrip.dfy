/** Printing a policy and parsing the result: exactly the canonical policies come back unchanged. */
module PolicyRoundTrip {
  import opened Common
  import opened Netmap
  import opened PolicyLanguage

  // ---- Canonical policies ----

  predicate Uint32(n: nat) {
    n < Power2(32)
  }

  predicate CanonicalReplica(lex: Lexer, r: Replica) {
    r.count >= 1 && Uint32(r.count) && (r.selector == "" || IsIdent(lex, r.selector))
  }

  predicate CanonicalSelector(lex: Lexer, s: Selector) {
    && s.count >= 1 && Uint32(s.count)
    && (if s.attribute == "" then s.clause == NoClause else IsIdent(lex, s.attribute))
    && (s.filter == MAIN_FILTER || IsIdent(lex, s.filter))
    && (s.name == "" || IsIdent(lex, s.name))
  }

  /** A comparison. */
  predicate IsComparison(lex: Lexer, f: Filter) {
    f.op !in {Unspecified, AND, OR} && IsIdent(lex, f.key) && IsValue(lex, f.value) && f.filters == []
  }

  /** A reference or an unnamed comparison. */
  predicate IsLeaf(lex: Lexer, f: Filter) {
    if f.op == Unspecified then IsIdent(lex, f.name) && f.key == "" && f.value == "" && f.filters == []
    else f.name == "" && IsComparison(lex, f)
  }

  /** An AND of at least two leaves. */
  predicate IsConjunction(lex: Lexer, f: Filter) {
    f.op == AND && f.key == "" && f.value == "" && |f.filters| >= 2 && forall i :: 0 <= i < |f.filters| ==> IsLeaf(lex, f.filters[i])
  }

  /** A leaf or an unnamed conjunction. */
  predicate IsTerm(lex: Lexer, f: Filter) {
    IsLeaf(lex, f) || (f.name == "" && IsConjunction(lex, f))
  }

  /** An OR of at least two terms. */
  predicate IsDisjunction(lex: Lexer, f: Filter) {
    f.op == OR && f.key == "" && f.value == "" && |f.filters| >= 2 && forall i :: 0 <= i < |f.filters| ==> IsTerm(lex, f.filters[i])
  }

  predicate CanonicalFilter(lex: Lexer, f: Filter) {
    IsIdent(lex, f.name) && (IsComparison(lex, f) || IsConjunction(lex, f) || IsDisjunction(lex, f))
  }

  predicate Canonical(lex: Lexer, p: Policy) {
    && p.replicas != [] && (forall i :: 0 <= i < |p.replicas| ==> CanonicalReplica(lex, p.replicas[i]))
    && Uint32(p.backupFactor)
    && (forall i :: 0 <= i < |p.selectors| ==> CanonicalSelector(lex, p.selectors[i]))
    && (forall i :: 0 <= i < |p.filters| ==> CanonicalFilter(lex, p.filters[i]))
  }

  // ---- Canonical policies come back ----

  lemma IdentReads(lex: Lexer, w: string)
    requires Readable(lex) && IsIdent(lex, w)
    ensures IdentText(lex(w)) == Some(w)
  {
  }

  lemma ReplicaTokens(num: Token, sel: Token, r: Replica, rest: seq<Token>)
    requires num.NUMBER1? && ParseUint(num.text, 32) == Some(r.count)
    requires r.selector != "" ==> IdentText(sel) == Some(r.selector)
    requires !At(rest, IN)
    ensures ParseReplica([REP, num] + (if r.selector != "" then [IN, sel] else []) + rest) == Got(r, rest)
  {
    var ts := [REP, num] + (if r.selector != "" then [IN, sel] else []) + rest;
    assert ts[1..][0] == num;
    if r.selector == "" {
      assert ts[1..][1..] == rest;
    } else {
      assert ts[1..][1..] == [IN, sel] + rest;
      assert ts[1..][1..][2..] == rest;
    }
  }

  lemma ReplicaReadsBack(lex: Lexer, r: Replica, rest: seq<Token>)
    requires Readable(lex) && CanonicalReplica(lex, r) && !At(rest, IN)
    ensures ParseReplica(PrintReplica(lex, r) + rest) == Got(r, rest)
  {
    NumberReadsBack(lex, r.count);
    ReplicaTokens(lex(Format(r.count)), lex(r.selector), r, rest);
  }

  lemma {:induction false} ReplicasReadBack(lex: Lexer, rs: seq<Replica>, rest: seq<Token>)
    requires Readable(lex) && !At(rest, IN) && !At(rest, REP)
    requires forall i :: 0 <= i < |rs| ==> CanonicalReplica(lex, rs[i])
    ensures ParseReplicas(PrintReplicas(lex, rs) + rest) == Got(rs, rest)
    decreases |rs|
  {
    if rs == [] {
      assert PrintReplicas(lex, rs) + rest == rest;
    } else {
      var tail := PrintReplicas(lex, rs[1..]) + rest;
      ReplicasReadBack(lex, rs[1..], rest);
      PrintedReplicasStart(lex, rs[1..], rest);
      ReplicaReadsBack(lex, rs[0], tail);
      ReplicasStep(PrintReplica(lex, rs[0]), PrintReplicas(lex, rs[1..]), rest, rs);
    }
  }

  lemma PrintedReplicasStart(lex: Lexer, rs: seq<Replica>, rest: seq<Token>)
    requires !At(rest, IN)
    ensures !At(PrintReplicas(lex, rs) + rest, IN)
  {
    if rs == [] {
      assert PrintReplicas(lex, rs) + rest == rest;
    } else {
      assert (PrintReplicas(lex, rs) + rest)[0] == REP;
    }
  }

  lemma ReplicasStep(first: seq<Token>, more: seq<Token>, rest: seq<Token>, rs: seq<Replica>)
    requires rs != [] && At(first, REP)
    requires ParseReplica(first + (more + rest)) == Got(rs[0], more + rest)
    requires ParseReplicas(more + rest) == Got(rs[1..], rest)
    ensures ParseReplicas(first + more + rest) == Got(rs, rest)
  {
    Associative(first, more, rest);
    assert At(first + (more + rest), REP);
    assert [rs[0]] + rs[1..] == rs;
  }

  lemma Associative(a: seq<Token>, b: seq<Token>, c: seq<Token>)
    ensures a + b + c == a + (b + c)
  {
  }

  function PrintBucket(lex: Lexer, s: Selector): seq<Token> {
    if s.attribute != "" then
      [IN] + (match s.clause case Same => [SAME] case Distinct => [DISTINCT] case NoClause => []) + [lex(s.attribute)]
    else []
  }

  lemma BucketTokens(clause: Clause, attr: Token, attribute: string, rest: seq<Token>)
    requires IdentText(attr) == Some(attribute)
    ensures ParseBucket([IN] + (match clause case Same => [SAME] case Distinct => [DISTINCT] case NoClause => []) + [attr] + rest)
            == Got((clause, attribute), rest)
  {
    var mid := match clause case Same => [SAME] case Distinct => [DISTINCT] case NoClause => [];
    var ts := [IN] + mid + [attr] + rest;
    assert ts[1..] == mid + ([attr] + rest);
    assert ([attr] + rest)[1..] == rest;
    if clause == NoClause {
      assert ts[1..] == [attr] + rest;
    } else {
      assert ts[1..][1..] == [attr] + rest;
    }
  }

  lemma BucketReadsBack(lex: Lexer, s: Selector, rest: seq<Token>)
    requires Readable(lex) && CanonicalSelector(lex, s) && At(rest, FROM)
    ensures ParseBucket(PrintBucket(lex, s) + rest) == Got((s.clause, s.attribute), rest)
  {
    if s.attribute == "" {
      assert PrintBucket(lex, s) + rest == rest;
    } else {
      IdentReads(lex, s.attribute);
      BucketTokens(s.clause, lex(s.attribute), s.attribute, rest);
    }
  }

  lemma FromReadsBack(lex: Lexer, filter: string, rest: seq<Token>)
    requires Readable(lex) && (filter == MAIN_FILTER || IsIdent(lex, filter))
    ensures ParseFrom([FROM, lex(filter)] + rest) == Got(filter, rest)
  {
    assert ([FROM, lex(filter)] + rest)[2..] == rest;
    if IsIdent(lex, filter) {
      IdentReads(lex, filter);
    }
  }

  lemma NameReadsBack(lex: Lexer, name: string, rest: seq<Token>)
    requires Readable(lex) && (name == "" || IsIdent(lex, name)) && !At(rest, AS)
    ensures ParseName((if name != "" then [AS, lex(name)] else []) + rest) == Got(name, rest)
  {
    if name == "" {
      assert [] + rest == rest;
    } else {
      IdentReads(lex, name);
      assert ([AS, lex(name)] + rest)[2..] == rest;
    }
  }

  /** The parts of a printed selector, one after the other. */
  lemma SelectorTokens(num: Token, bucket: seq<Token>, from: seq<Token>, name: seq<Token>, rest: seq<Token>, s: Selector)
    requires num.NUMBER1? && ParseUint(num.text, 32) == Some(s.count)
    requires ParseBucket(bucket + (from + (name + rest))) == Got((s.clause, s.attribute), from + (name + rest))
    requires ParseFrom(from + (name + rest)) == Got(s.filter, name + rest)
    requires ParseName(name + rest) == Got(s.name, rest)
    ensures ParseSelector([SELECT, num] + (bucket + (from + (name + rest)))) == Got(s, rest)
  {
    NumberTokens(SELECT, num, bucket + (from + (name + rest)));
    SelectorStages([SELECT, num] + (bucket + (from + (name + rest))), bucket + (from + (name + rest)), from + (name + rest), name + rest, rest, s);
  }

  lemma NumberTokens(word: Token, num: Token, rest: seq<Token>)
    requires num.NUMBER1? && ParseUint(num.text, 32).Some?
    ensures ParseNumber(([word, num] + rest)[1..]) == Got(ParseUint(num.text, 32).value, rest)
  {
    assert ([word, num] + rest)[1..] == [num] + rest;
    assert ([num] + rest)[1..] == rest;
  }

  lemma SelectorStages(ts: seq<Token>, bucket: seq<Token>, from: seq<Token>, name: seq<Token>, rest: seq<Token>, s: Selector)
    requires At(ts, SELECT) && ParseNumber(ts[1..]) == Got(s.count, bucket)
    requires ParseBucket(bucket) == Got((s.clause, s.attribute), from)
    requires ParseFrom(from) == Got(s.filter, name) && ParseName(name) == Got(s.name, rest)
    ensures ParseSelector(ts) == Got(s, rest)
  {
  }

  lemma SelectorReadsBack(lex: Lexer, s: Selector, rest: seq<Token>)
    requires Readable(lex) && CanonicalSelector(lex, s) && !At(rest, AS)
    ensures ParseSelector(PrintSelector(lex, s) + rest) == Got(s, rest)
  {
    assert s.filter != "";
    var name := if s.name != "" then [AS, lex(s.name)] else [];
    var from := [FROM, lex(s.filter)];
    NumberReadsBack(lex, s.count);
    BucketReadsBack(lex, s, from + (name + rest));
    FromReadsBack(lex, s.filter, name + rest);
    NameReadsBack(lex, s.name, rest);
    SelectorTokens(lex(Format(s.count)), PrintBucket(lex, s), from, name, rest, s);
    PrintedSelector(lex, s, from, name, rest);
  }

  lemma PrintedSelector(lex: Lexer, s: Selector, from: seq<Token>, name: seq<Token>, rest: seq<Token>)
    requires s.filter != "" && from == [FROM, lex(s.filter)] && name == if s.name != "" then [AS, lex(s.name)] else []
    ensures PrintSelector(lex, s) + rest == [SELECT, lex(Format(s.count))] + (PrintBucket(lex, s) + (from + (name + rest)))
  {
    var head := [SELECT, lex(Format(s.count))];
    assert PrintSelector(lex, s) == head + PrintBucket(lex, s) + from + name;
    Associative(head + PrintBucket(lex, s) + from, name, rest);
    Associative(head + PrintBucket(lex, s), from, name + rest);
    Associative(head, PrintBucket(lex, s), from + (name + rest));
  }

  lemma {:induction false} SelectorsReadBack(lex: Lexer, ss: seq<Selector>, rest: seq<Token>)
    requires Readable(lex) && !At(rest, AS) && !At(rest, SELECT)
    requires forall i :: 0 <= i < |ss| ==> CanonicalSelector(lex, ss[i])
    ensures ParseSelectors(PrintSelectors(lex, ss) + rest) == Got(ss, rest)
    decreases |ss|
  {
    if ss == [] {
      assert PrintSelectors(lex, ss) + rest == rest;
    } else {
      SelectorsReadBack(lex, ss[1..], rest);
      PrintedSelectorsStart(lex, ss[1..], rest);
      SelectorReadsBack(lex, ss[0], PrintSelectors(lex, ss[1..]) + rest);
      SelectorsStep(PrintSelector(lex, ss[0]), PrintSelectors(lex, ss[1..]), rest, ss);
    }
  }

  lemma PrintedSelectorsStart(lex: Lexer, ss: seq<Selector>, rest: seq<Token>)
    ensures !At(rest, AS) ==> !At(PrintSelectors(lex, ss) + rest, AS)
    ensures ss != [] ==> At(PrintSelectors(lex, ss) + rest, SELECT)
    ensures ss == [] ==> PrintSelectors(lex, ss) + rest == rest
  {
  }

  lemma SelectorsStep(first: seq<Token>, more: seq<Token>, rest: seq<Token>, ss: seq<Selector>)
    requires ss != [] && At(first, SELECT)
    requires ParseSelector(first + (more + rest)) == Got(ss[0], more + rest)
    requires ParseSelectors(more + rest) == Got(ss[1..], rest)
    ensures ParseSelectors(first + more + rest) == Got(ss, rest)
  {
    Associative(first, more, rest);
    assert At(first + (more + rest), SELECT);
    assert [ss[0]] + ss[1..] == ss;
  }

  // ---- Filter expressions ----

  /** Printed words together with the tree they are read as. */
  datatype Part = Part(words: seq<Token>, tree: Tree)

  function Joined(op: Token, ps: seq<Part>): seq<Token> {
    if ps == [] then []
    else if |ps| == 1 then ps[0].words
    else Joined(op, ps[..|ps| - 1]) + [op] + ps[|ps| - 1].words
  }

  /** Left-nested tree over the parts. */
  function Nested(op: Operation, ps: seq<Part>): Tree
    requires ps != []
  {
    if |ps| == 1 then ps[0].tree else Binary(op, Nested(op, ps[..|ps| - 1]), ps[|ps| - 1].tree)
  }

  /** Read as a primary expression, whatever follows. */
  ghost predicate Atomic(p: Part) {
    forall rest {:trigger ParsePrimary(p.words + rest)} :: ParsePrimary(p.words + rest) == Got(p.tree, rest)
  }

  /** Read whole at the precedence of AND, whatever follows. */
  ghost predicate Tight(p: Part) {
    forall rest, prec: nat {:trigger ParseFilterExpr(p.words + rest, prec)} :: prec <= 4 ==> ParseFilterExpr(p.words + rest, prec) == ParseRest(p.tree, rest, prec)
  }

  lemma Join(init: seq<Token>, op: Token, last: seq<Token>, rest: seq<Token>)
    ensures init + [op] + last + rest == init + ([op] + (last + rest))
  {
  }

  lemma AndStep(init: seq<Token>, leaf: seq<Token>, rest: seq<Token>, prec: nat, left: Tree, right: Tree)
    requires prec <= 4
    requires ParseFilterExpr(init + ([AND_OP] + (leaf + rest)), prec) == ParseRest(left, [AND_OP] + (leaf + rest), prec)
    requires ParsePrimary(leaf + rest) == Got(right, rest)
    ensures ParseFilterExpr(init + [AND_OP] + leaf + rest, prec) == ParseRest(Binary(AND, left, right), rest, prec)
  {
    Join(init, AND_OP, leaf, rest);
    var ts := [AND_OP] + (leaf + rest);
    assert ts[1..] == leaf + rest;
    assert ParseRest(right, rest, 5) == Got(right, rest);
    assert ParseFilterExpr(leaf + rest, 5) == Got(right, rest);
  }

  lemma OrStep(init: seq<Token>, term: seq<Token>, rest: seq<Token>, prec: nat, left: Tree, right: Tree)
    requires prec <= 3 && !At(rest, AND_OP)
    requires ParseFilterExpr(init + ([OR_OP] + (term + rest)), prec) == ParseRest(left, [OR_OP] + (term + rest), prec)
    requires ParseFilterExpr(term + rest, 4) == ParseRest(right, rest, 4)
    ensures ParseFilterExpr(init + [OR_OP] + term + rest, prec) == ParseRest(Binary(OR, left, right), rest, prec)
  {
    Join(init, OR_OP, term, rest);
    var ts := [OR_OP] + (term + rest);
    assert ts[1..] == term + rest;
    assert ParseRest(right, rest, 4) == Got(right, rest);
  }

  /** Parsing a printed conjunction continues after it with the whole conjunction on the left. */
  lemma {:induction false} AndReadsBack(ps: seq<Part>, rest: seq<Token>, prec: nat)
    requires ps != [] && prec <= 4 && forall i :: 0 <= i < |ps| ==> Atomic(ps[i])
    ensures ParseFilterExpr(Joined(AND_OP, ps) + rest, prec) == ParseRest(Nested(AND, ps), rest, prec)
    decreases |ps|
  {
    var m := |ps| - 1;
    assert ParsePrimary(ps[m].words + rest) == Got(ps[m].tree, rest);
    if m > 0 {
      AndReadsBack(ps[..m], [AND_OP] + (ps[m].words + rest), prec);
      AndStep(Joined(AND_OP, ps[..m]), ps[m].words, rest, prec, Nested(AND, ps[..m]), ps[m].tree);
    }
  }

  ghost predicate AllTight(ps: seq<Part>) {
    ps != [] ==> Tight(ps[|ps| - 1]) && AllTight(ps[..|ps| - 1])
  }

  lemma {:induction false} EachTight(ps: seq<Part>)
    requires forall i :: 0 <= i < |ps| ==> Tight(ps[i])
    ensures AllTight(ps)
  {
    if ps != [] {
      EachTight(ps[..|ps| - 1]);
    }
  }

  lemma TightWhole(p: Part, rest: seq<Token>, prec: nat)
    requires Tight(p) && prec <= 4
    ensures ParseFilterExpr(p.words + rest, prec) == ParseRest(p.tree, rest, prec)
  {
  }

  lemma {:induction false} OrReadsBack(ps: seq<Part>, rest: seq<Token>, prec: nat)
    requires ps != [] && prec <= 3 && !At(rest, AND_OP) && AllTight(ps)
    ensures ParseFilterExpr(Joined(OR_OP, ps) + rest, prec) == ParseRest(Nested(OR, ps), rest, prec)
    decreases |ps|
  {
    var m := |ps| - 1;
    if m == 0 {
      TightWhole(ps[0], rest, prec);
    } else {
      TightWhole(ps[m], rest, 4);
      OrReadsBack(ps[..m], [OR_OP] + (ps[m].words + rest), prec);
      OrStep(Joined(OR_OP, ps[..m]), ps[m].words, rest, prec, Nested(OR, ps[..m]), ps[m].tree);
    }
  }

  function Trees(ps: seq<Part>): (fs: seq<Filter>)
    ensures |fs| == |ps|
  {
    seq(|ps|, i requires 0 <= i < |ps| => Visit(ps[i].tree))
  }

  /** The visitor turns a left-nested tree into one filter over its parts. */
  lemma {:induction false} VisitNested(op: Operation, ps: seq<Part>)
    requires ps != [] && forall i :: 0 <= i < |ps| ==> Visit(ps[i].tree).op != op
    ensures Visit(Nested(op, ps)) == if |ps| == 1 then Visit(ps[0].tree) else Filter("", "", op, "", Trees(ps))
    decreases |ps|
  {
    var m := |ps| - 1;
    if m > 0 {
      VisitNested(op, ps[..m]);
      assert Trees(ps) == Trees(ps[..m]) + [Visit(ps[m].tree)];
    }
  }

  // ---- Printed filters ----

  function LeafTree(f: Filter): Tree {
    if f.op == Unspecified then Leaf(Reference(f.name)) else Leaf(Comparison(f.key, f.op, f.value))
  }

  function LeafParts(lex: Lexer, fs: seq<Filter>): (ps: seq<Part>)
    ensures |ps| == |fs|
  {
    seq(|fs|, i requires 0 <= i < |fs| => Part(PrintFilter(lex, fs[i]), LeafTree(fs[i])))
  }

  function TermTree(lex: Lexer, f: Filter): Tree {
    if f.op == AND && f.filters != [] then Nested(AND, LeafParts(lex, f.filters)) else LeafTree(f)
  }

  function TermParts(lex: Lexer, fs: seq<Filter>): (ps: seq<Part>)
    ensures |ps| == |fs|
  {
    seq(|fs|, i requires 0 <= i < |fs| => Part(PrintFilter(lex, fs[i]), TermTree(lex, fs[i])))
  }

  lemma {:induction false} PrintedInner(lex: Lexer, op: Operation, fs: seq<Filter>, ps: seq<Part>)
    requires |ps| == |fs| && forall i :: 0 <= i < |fs| ==> ps[i].words == PrintFilter(lex, fs[i])
    ensures PrintInner(lex, op, fs) == Joined(OpToken(op), ps)
    decreases |fs|
  {
    if |fs| > 1 {
      var m := |fs| - 1;
      PrintedInner(lex, op, fs[..m], ps[..m]);
    }
  }

  lemma ReferenceTokens(name: Token, text: string, rest: seq<Token>)
    requires IdentText(name) == Some(text)
    ensures ParsePrimary([AT, name] + rest) == Got(Leaf(Reference(text)), rest)
  {
    var ts := [AT, name] + rest;
    assert ts[2..] == rest;
  }

  lemma ComparisonTokens(key: Token, op: Operation, value: Token, keyText: string, valueText: string, rest: seq<Token>)
    requires IdentText(key) == Some(keyText) && ValueText(value) == Some(valueText)
    ensures ParsePrimary([key, SIMPLE_OP(op), value] + rest) == Got(Leaf(Comparison(keyText, op, valueText)), rest)
  {
    var ts := [key, SIMPLE_OP(op), value] + rest;
    assert ts[3..] == rest;
  }

  /** The tokens of a comparison, without its name. */
  function ComparisonWords(lex: Lexer, f: Filter): seq<Token> {
    [lex(f.key), SIMPLE_OP(f.op), lex(f.value)]
  }

  lemma ComparisonReadsBack(lex: Lexer, f: Filter, rest: seq<Token>)
    requires Readable(lex) && IsComparison(lex, f)
    ensures f.key != "" && ParsePrimary(ComparisonWords(lex, f) + rest) == Got(LeafTree(f), rest)
  {
    ComparisonTokens(lex(f.key), f.op, lex(f.value), f.key, f.value, rest);
  }

  lemma LeafReadsBack(lex: Lexer, f: Filter)
    requires Readable(lex) && IsLeaf(lex, f)
    ensures Atomic(Part(PrintFilter(lex, f), LeafTree(f)))
    ensures Visit(LeafTree(f)) == f
  {
    forall rest ensures ParsePrimary(PrintFilter(lex, f) + rest) == Got(LeafTree(f), rest) {
      if f.op == Unspecified {
        assert f.name != "";
        ReferenceTokens(lex(f.name), f.name, rest);
        assert PrintFilter(lex, f) == [AT, lex(f.name)];
      } else {
        ComparisonReadsBack(lex, f, rest);
        assert PrintFilter(lex, f) == ComparisonWords(lex, f);
      }
    }
  }

  lemma ConjunctionReadsBack(lex: Lexer, f: Filter)
    requires Readable(lex) && IsConjunction(lex, f)
    ensures Tight(Part(PrintInner(lex, AND, f.filters), TermTree(lex, f)))
    ensures Visit(TermTree(lex, f)) == Filter("", "", AND, "", f.filters)
  {
    var ps := LeafParts(lex, f.filters);
    LeafPartsReadBack(lex, f.filters);
    PrintedInner(lex, AND, f.filters, ps);
    assert Part(PrintInner(lex, AND, f.filters), TermTree(lex, f)) == Part(Joined(AND_OP, ps), Nested(AND, ps));
    ConjunctionOfParts(ps);
  }

  lemma LeafPartsReadBack(lex: Lexer, fs: seq<Filter>)
    requires Readable(lex) && forall i :: 0 <= i < |fs| ==> IsLeaf(lex, fs[i])
    ensures var ps := LeafParts(lex, fs);
            Trees(ps) == fs && forall i :: 0 <= i < |ps| ==> Atomic(ps[i]) && Visit(ps[i].tree).op != AND
  {
    var ps := LeafParts(lex, fs);
    forall i | 0 <= i < |ps| ensures Atomic(ps[i]) && Visit(ps[i].tree) == fs[i] && fs[i].op != AND {
      LeafReadsBack(lex, fs[i]);
    }
  }

  lemma ConjunctionOfParts(ps: seq<Part>)
    requires |ps| >= 2 && forall i :: 0 <= i < |ps| ==> Atomic(ps[i]) && Visit(ps[i].tree).op != AND
    ensures Tight(Part(Joined(AND_OP, ps), Nested(AND, ps)))
    ensures Visit(Nested(AND, ps)) == Filter("", "", AND, "", Trees(ps))
  {
    forall rest, prec: nat | prec <= 4
      ensures ParseFilterExpr(Joined(AND_OP, ps) + rest, prec) == ParseRest(Nested(AND, ps), rest, prec)
    {
      AndReadsBack(ps, rest, prec);
    }
    VisitNested(AND, ps);
  }

  lemma TermReadsBack(lex: Lexer, f: Filter)
    requires Readable(lex) && IsTerm(lex, f)
    ensures Tight(Part(PrintFilter(lex, f), TermTree(lex, f)))
    ensures Visit(TermTree(lex, f)) == f
  {
    if IsLeaf(lex, f) {
      LeafReadsBack(lex, f);
      AtomicIsTight(Part(PrintFilter(lex, f), LeafTree(f)));
    } else {
      ConjunctionReadsBack(lex, f);
      assert PrintFilter(lex, f) == PrintInner(lex, AND, f.filters);
    }
  }

  lemma AtomicIsTight(p: Part)
    requires Atomic(p)
    ensures Tight(p)
  {
    forall rest, prec: nat | prec <= 4 ensures ParseFilterExpr(p.words + rest, prec) == ParseRest(p.tree, rest, prec) {
      assert ParsePrimary(p.words + rest) == Got(p.tree, rest);
    }
  }

  lemma TermPartsReadBack(lex: Lexer, fs: seq<Filter>)
    requires Readable(lex) && forall i :: 0 <= i < |fs| ==> IsTerm(lex, fs[i])
    ensures var ps := TermParts(lex, fs);
            Trees(ps) == fs && forall i :: 0 <= i < |ps| ==> Tight(ps[i]) && Visit(ps[i].tree).op != OR
  {
    var ps := TermParts(lex, fs);
    forall i | 0 <= i < |ps| ensures Tight(ps[i]) && Visit(ps[i].tree) == fs[i] && fs[i].op != OR {
      TermReadsBack(lex, fs[i]);
    }
  }

  lemma DisjunctionReadsBack(lex: Lexer, f: Filter, rest: seq<Token>)
    requires Readable(lex) && IsDisjunction(lex, f) && At(rest, AS)
    ensures var tree := Nested(OR, TermParts(lex, f.filters));
            ParseFilterExpr(PrintInner(lex, OR, f.filters) + rest, 0) == Got(tree, rest)
            && Visit(tree) == Filter("", "", OR, "", f.filters)
  {
    TermPartsReadBack(lex, f.filters);
    PrintedInner(lex, OR, f.filters, TermParts(lex, f.filters));
    DisjunctionOfParts(TermParts(lex, f.filters), rest);
  }

  lemma DisjunctionOfParts(ps: seq<Part>, rest: seq<Token>)
    requires |ps| >= 2 && At(rest, AS)
    requires forall i :: 0 <= i < |ps| ==> Tight(ps[i]) && Visit(ps[i].tree).op != OR
    ensures ParseFilterExpr(Joined(OR_OP, ps) + rest, 0) == Got(Nested(OR, ps), rest)
    ensures Visit(Nested(OR, ps)) == Filter("", "", OR, "", Trees(ps))
  {
    EachTight(ps);
    OrReadsBack(ps, rest, 0);
    VisitNested(OR, ps);
  }

  lemma StatementTokens(body: seq<Token>, tree: Tree, name: Token, text: string, rest: seq<Token>)
    requires ParseFilterExpr(body + ([AS, name] + rest), 0) == Got(tree, [AS, name] + rest)
    requires IdentText(name) == Some(text)
    ensures ParseFilter([FILTER] + (body + [AS, name]) + rest) == Got(Visit(tree).(name := text), rest)
  {
    var ts := [FILTER] + (body + [AS, name]) + rest;
    assert ts[1..] == body + ([AS, name] + rest);
    assert ([AS, name] + rest)[2..] == rest;
  }

  /** The words of a filter before its name are read as the filter. */
  ghost predicate ReadAs(lex: Lexer, f: Filter, body: seq<Token>, tree: Tree, rest: seq<Token>) {
    && PrintFilter(lex, f) == body + [AS, lex(f.name)]
    && ParseFilterExpr(body + rest, 0) == Got(tree, rest) && Visit(tree).(name := f.name) == f
  }

  lemma ComparisonBody(lex: Lexer, f: Filter, rest: seq<Token>)
    requires Readable(lex) && IsComparison(lex, f) && f.name != "" && At(rest, AS)
    ensures ReadAs(lex, f, ComparisonWords(lex, f), LeafTree(f), rest)
  {
    ComparisonReadsBack(lex, f, rest);
    LeafAt(ComparisonWords(lex, f), LeafTree(f), rest);
    PrintedComparison(lex, f);
  }

  lemma ConjunctionBody(lex: Lexer, f: Filter, rest: seq<Token>)
    requires Readable(lex) && IsConjunction(lex, f) && f.name != "" && At(rest, AS)
    ensures ReadAs(lex, f, PrintInner(lex, AND, f.filters), TermTree(lex, f), rest)
  {
    ConjunctionReadsBack(lex, f);
    TightAt(Part(PrintInner(lex, AND, f.filters), TermTree(lex, f)), rest);
    PrintedConnective(lex, f);
  }

  lemma DisjunctionBody(lex: Lexer, f: Filter, rest: seq<Token>)
    requires Readable(lex) && IsDisjunction(lex, f) && f.name != "" && At(rest, AS)
    ensures ReadAs(lex, f, PrintInner(lex, OR, f.filters), Nested(OR, TermParts(lex, f.filters)), rest)
  {
    DisjunctionReadsBack(lex, f, rest);
    PrintedConnective(lex, f);
  }

  lemma BodyReadsBack(lex: Lexer, f: Filter, rest: seq<Token>) returns (body: seq<Token>, tree: Tree)
    requires Readable(lex) && CanonicalFilter(lex, f) && At(rest, AS)
    ensures ReadAs(lex, f, body, tree, rest)
  {
    NamedFilter(lex, f);
    if IsComparison(lex, f) {
      body, tree := ComparisonWords(lex, f), LeafTree(f);
      ComparisonBody(lex, f, rest);
    } else if IsConjunction(lex, f) {
      body, tree := PrintInner(lex, AND, f.filters), TermTree(lex, f);
      ConjunctionBody(lex, f, rest);
    } else {
      body, tree := PrintInner(lex, OR, f.filters), Nested(OR, TermParts(lex, f.filters));
      DisjunctionBody(lex, f, rest);
    }
  }

  lemma NamedFilter(lex: Lexer, f: Filter)
    requires Readable(lex) && IsIdent(lex, f.name)
    ensures f.name != ""
  {
  }

  lemma LeafAt(body: seq<Token>, tree: Tree, rest: seq<Token>)
    requires ParsePrimary(body + rest) == Got(tree, rest) && At(rest, AS)
    ensures ParseFilterExpr(body + rest, 0) == Got(tree, rest)
  {
  }

  lemma TightAt(p: Part, rest: seq<Token>)
    requires Tight(p) && At(rest, AS)
    ensures ParseFilterExpr(p.words + rest, 0) == Got(p.tree, rest)
  {
    assert ParseFilterExpr(p.words + rest, 0) == ParseRest(p.tree, rest, 0);
  }

  lemma PrintedComparison(lex: Lexer, f: Filter)
    requires f.key != "" && f.op !in {Unspecified, AND, OR} && f.filters == [] && f.name != ""
    ensures PrintFilter(lex, f) == ComparisonWords(lex, f) + [AS, lex(f.name)]
  {
    assert PrintInner(lex, f.op, f.filters) == [];
  }

  lemma PrintedConnective(lex: Lexer, f: Filter)
    requires f.key == "" && f.op in {AND, OR} && f.name != ""
    ensures PrintFilter(lex, f) == PrintInner(lex, f.op, f.filters) + [AS, lex(f.name)]
  {
  }

  lemma FilterReadsBack(lex: Lexer, f: Filter, rest: seq<Token>)
    requires Readable(lex) && CanonicalFilter(lex, f)
    ensures ParseFilter([FILTER] + PrintFilter(lex, f) + rest) == Got(f, rest)
  {
    var body, tree := BodyReadsBack(lex, f, [AS, lex(f.name)] + rest);
    IdentReads(lex, f.name);
    StatementTokens(body, tree, lex(f.name), f.name, rest);
  }

  lemma {:induction false} FiltersReadBack(lex: Lexer, fs: seq<Filter>)
    requires Readable(lex) && forall i :: 0 <= i < |fs| ==> CanonicalFilter(lex, fs[i])
    ensures ParseFilters(PrintFilters(lex, fs)) == Got(fs, [])
    decreases |fs|
  {
    if fs != [] {
      FiltersReadBack(lex, fs[1..]);
      FilterReadsBack(lex, fs[0], PrintFilters(lex, fs[1..]));
      FiltersStep([FILTER] + PrintFilter(lex, fs[0]), PrintFilters(lex, fs[1..]), fs);
    }
  }

  lemma FiltersStep(first: seq<Token>, more: seq<Token>, fs: seq<Filter>)
    requires fs != [] && At(first, FILTER)
    requires ParseFilter(first + more) == Got(fs[0], more)
    requires ParseFilters(more) == Got(fs[1..], [])
    ensures ParseFilters(first + more) == Got(fs, [])
  {
    assert [fs[0]] + fs[1..] == fs;
  }

  // ---- Policies ----

  lemma PrintedStart(lex: Lexer, p: Policy)
    ensures var tail := PrintSelectors(lex, p.selectors) + PrintFilters(lex, p.filters);
            !At(tail, IN) && !At(tail, REP) && !At(tail, CBF)
    ensures var filters := PrintFilters(lex, p.filters); !At(filters, AS) && !At(filters, SELECT)
  {
    PrintedSelectorsStart(lex, p.selectors, PrintFilters(lex, p.filters));
  }

  lemma BackupTokens(num: Token, n: nat, rest: seq<Token>)
    requires num.NUMBER1? && ParseUint(num.text, 32) == Some(n)
    ensures ParseCBF([CBF, num] + rest) == Got(n, rest)
  {
    NumberTokens(CBF, num, rest);
  }

  lemma BackupNumber(lex: Lexer, n: nat, rest: seq<Token>)
    requires Readable(lex) && Uint32(n) && n > 0
    ensures ParseCBF([CBF, lex(Format(n))] + rest) == Got(n, rest)
  {
    NumberReadsBack(lex, n);
    BackupTokens(lex(Format(n)), n, rest);
  }

  lemma BackupReadsBack(lex: Lexer, n: nat, rest: seq<Token>)
    requires Readable(lex) && Uint32(n) && !At(rest, CBF)
    ensures ParseCBF((if n > 0 then [CBF, lex(Format(n))] else []) + rest) == Got(n, rest)
  {
    if n > 0 {
      BackupNumber(lex, n, rest);
    } else {
      assert [] + rest == rest;
    }
  }

  /** Every canonical policy is read back from what it is printed as. */
  lemma CanonicalComesBack(lex: Lexer, p: Policy)
    requires Readable(lex) && Canonical(lex, p)
    ensures Parse(Print(lex, p)) == Some(p)
  {
    var filters := PrintFilters(lex, p.filters);
    var selectors := PrintSelectors(lex, p.selectors) + filters;
    var cbf := (if p.backupFactor > 0 then [CBF, lex(Format(p.backupFactor))] else []) + selectors;
    PrintedStart(lex, p);
    FiltersReadBack(lex, p.filters);
    SelectorsReadBack(lex, p.selectors, filters);
    BackupReadsBack(lex, p.backupFactor, selectors);
    assert !At(cbf, IN) && !At(cbf, REP) by {
      if p.backupFactor == 0 {
        assert cbf == selectors;
      }
    }
    ReplicasReadBack(lex, p.replicas, cbf);
    StagesMakePolicy(Print(lex, p), cbf, selectors, filters, p);
  }

  lemma StagesMakePolicy(ts: seq<Token>, cbf: seq<Token>, selectors: seq<Token>, filters: seq<Token>, p: Policy)
    requires p.replicas != [] && ParseReplicas(ts) == Got(p.replicas, cbf)
    requires ParseCBF(cbf) == Got(p.backupFactor, selectors)
    requires ParseSelectors(selectors) == Got(p.selectors, filters)
    requires ParseFilters(filters) == Got(p.filters, [])
    ensures Parse(ts) == Some(p)
  {
  }
}
