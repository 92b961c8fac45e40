/** Only canonical policies come back: whatever is read from words without parentheses is canonical, up to
    bare references, and those are not printed in a form that can be read. */
module PolicyExact {
  import opened Common
  import opened Netmap
  import opened PolicyLanguage
  import opened PolicyRoundTrip

  /** Genuine words, no parentheses. */
  ghost predicate Plain(lex: Lexer, ts: seq<Token>) {
    forall i :: 0 <= i < |ts| ==> Genuine(lex, ts[i]) && ts[i] != L_PAREN && ts[i] != R_PAREN
  }

  // ---- Printed policies are plain ----

  lemma WordPlain(lex: Lexer, w: string)
    requires Faithful(lex)
    ensures Plain(lex, [lex(w)])
  {
  }

  lemma PlainConcat(lex: Lexer, a: seq<Token>, b: seq<Token>)
    requires Plain(lex, a) && Plain(lex, b)
    ensures Plain(lex, a + b)
  {
  }

  lemma ReplicaPlain(lex: Lexer, r: Replica)
    requires Faithful(lex)
    ensures Plain(lex, PrintReplica(lex, r))
  {
    WordPlain(lex, Format(r.count));
    WordPlain(lex, r.selector);
  }

  lemma SelectorPlain(lex: Lexer, s: Selector)
    requires Faithful(lex)
    ensures Plain(lex, PrintSelector(lex, s))
  {
    var head := [SELECT, lex(Format(s.count))];
    var from := if s.filter != "" then [FROM, lex(s.filter)] else [];
    var name := if s.name != "" then [AS, lex(s.name)] else [];
    PairPlain(lex, SELECT, Format(s.count));
    BucketPlain(lex, s);
    PairPlain(lex, FROM, s.filter);
    PairPlain(lex, AS, s.name);
    PlainConcat(lex, head, PrintBucket(lex, s));
    PlainConcat(lex, head + PrintBucket(lex, s), from);
    PlainConcat(lex, head + PrintBucket(lex, s) + from, name);
    assert PrintSelector(lex, s) == head + PrintBucket(lex, s) + from + name;
  }

  lemma PairPlain(lex: Lexer, t: Token, w: string)
    requires Faithful(lex) && (t == SELECT || t == FROM || t == AS)
    ensures Plain(lex, [t, lex(w)])
  {
    WordPlain(lex, w);
  }

  lemma BucketPlain(lex: Lexer, s: Selector)
    requires Faithful(lex)
    ensures Plain(lex, PrintBucket(lex, s))
  {
    WordPlain(lex, s.attribute);
  }

  lemma {:induction false} FilterPlain(lex: Lexer, f: Filter)
    requires Faithful(lex)
    ensures Plain(lex, PrintFilter(lex, f))
    decreases f, 1
  {
    var head := if f.key != "" then [lex(f.key), OpToken(f.op), lex(f.value)]
                else if f.op == Unspecified && f.name != "" then [AT, lex(f.name)] else [];
    var name := if f.name != "" && f.op != Unspecified then [AS, lex(f.name)] else [];
    HeadPlain(lex, f, head, name);
    InnerPlain(lex, f.op, f.filters);
    PlainConcat(lex, head, PrintInner(lex, f.op, f.filters));
    PlainConcat(lex, head + PrintInner(lex, f.op, f.filters), name);
  }

  lemma HeadPlain(lex: Lexer, f: Filter, head: seq<Token>, name: seq<Token>)
    requires Faithful(lex)
    requires head in {[lex(f.key), OpToken(f.op), lex(f.value)], [AT, lex(f.name)], []}
    requires name in {[AS, lex(f.name)], []}
    ensures Plain(lex, head) && Plain(lex, name)
  {
    WordPlain(lex, f.key);
    WordPlain(lex, f.value);
    WordPlain(lex, f.name);
  }

  lemma {:induction false} InnerPlain(lex: Lexer, op: Operation, fs: seq<Filter>)
    requires Faithful(lex)
    ensures Plain(lex, PrintInner(lex, op, fs))
    decreases fs, 0
  {
    if |fs| >= 1 {
      FilterPlain(lex, fs[|fs| - 1]);
      InnerPlain(lex, op, fs[..|fs| - 1]);
    }
  }

  lemma {:induction false} ReplicasPlain(lex: Lexer, rs: seq<Replica>)
    requires Faithful(lex)
    ensures Plain(lex, PrintReplicas(lex, rs))
    decreases |rs|
  {
    if rs != [] {
      ReplicaPlain(lex, rs[0]);
      ReplicasPlain(lex, rs[1..]);
      PlainConcat(lex, PrintReplica(lex, rs[0]), PrintReplicas(lex, rs[1..]));
    }
  }

  lemma {:induction false} SelectorsPlain(lex: Lexer, ss: seq<Selector>)
    requires Faithful(lex)
    ensures Plain(lex, PrintSelectors(lex, ss))
    decreases |ss|
  {
    if ss != [] {
      SelectorPlain(lex, ss[0]);
      SelectorsPlain(lex, ss[1..]);
      PlainConcat(lex, PrintSelector(lex, ss[0]), PrintSelectors(lex, ss[1..]));
    }
  }

  lemma {:induction false} FiltersPlain(lex: Lexer, fs: seq<Filter>)
    requires Faithful(lex)
    ensures Plain(lex, PrintFilters(lex, fs))
    decreases |fs|
  {
    if fs != [] {
      FilterPlain(lex, fs[0]);
      FiltersPlain(lex, fs[1..]);
      PlainConcat(lex, [FILTER], PrintFilter(lex, fs[0]));
      PlainConcat(lex, [FILTER] + PrintFilter(lex, fs[0]), PrintFilters(lex, fs[1..]));
    }
  }

  lemma PolicyPlain(lex: Lexer, p: Policy)
    requires Faithful(lex)
    ensures Plain(lex, Print(lex, p))
  {
    ReplicasPlain(lex, p.replicas);
    SelectorsPlain(lex, p.selectors);
    FiltersPlain(lex, p.filters);
    var cbf := if p.backupFactor > 0 then [CBF, lex(Format(p.backupFactor))] else [];
    WordPlain(lex, Format(p.backupFactor));
    PlainConcat(lex, PrintSelectors(lex, p.selectors), PrintFilters(lex, p.filters));
    PlainConcat(lex, cbf, PrintSelectors(lex, p.selectors) + PrintFilters(lex, p.filters));
    PlainConcat(lex, PrintReplicas(lex, p.replicas), cbf + (PrintSelectors(lex, p.selectors) + PrintFilters(lex, p.filters)));
  }

  // ---- What is read from plain words ----

  lemma IdentIsWord(lex: Lexer, t: Token)
    requires Faithful(lex) && Genuine(lex, t) && IdentText(t).Some?
    ensures IsIdent(lex, IdentText(t).value)
  {
  }

  lemma ValueIsWord(lex: Lexer, t: Token)
    requires Faithful(lex) && Genuine(lex, t) && ValueText(t).Some?
    ensures IsValue(lex, ValueText(t).value)
  {
  }

  lemma PlainSuffix(lex: Lexer, ts: seq<Token>, k: nat)
    requires Plain(lex, ts) && k <= |ts|
    ensures Plain(lex, ts[k..])
  {
  }

  lemma ExprShape(lex: Lexer, ts: seq<Token>)
    requires Faithful(lex) && Plain(lex, ts) && ParsePrimary(ts).Got?
    ensures var r := ParsePrimary(ts); IsLeaf(lex, Visit(r.value)) && Plain(lex, r.rest)
  {
    var r := ParsePrimary(ts);
    assert r == ParseExpr(ts);
    if ts[0] == AT {
      IdentIsWord(lex, ts[1]);
      PlainSuffix(lex, ts, 2);
    } else {
      IdentIsWord(lex, ts[0]);
      ValueIsWord(lex, ts[2]);
      assert Genuine(lex, ts[1]);
      PlainSuffix(lex, ts, 3);
    }
  }

  lemma LeafAtFive(lex: Lexer, ts: seq<Token>)
    requires Faithful(lex) && Plain(lex, ts) && ParseFilterExpr(ts, 5).Got?
    ensures var r := ParseFilterExpr(ts, 5); IsLeaf(lex, Visit(r.value)) && Plain(lex, r.rest) && |r.rest| < |ts|
  {
    ExprShape(lex, ts);
  }

  lemma ConjoinedIsTerm(lex: Lexer, left: Tree, right: Tree)
    requires IsTerm(lex, Visit(left)) && IsLeaf(lex, Visit(right))
    ensures IsTerm(lex, Visit(Binary(AND, left, right)))
  {
  }

  lemma {:induction false} TermRest(lex: Lexer, left: Tree, ts: seq<Token>)
    requires Faithful(lex) && Plain(lex, ts) && IsTerm(lex, Visit(left)) && ParseRest(left, ts, 4).Got?
    ensures var r := ParseRest(left, ts, 4); IsTerm(lex, Visit(r.value)) && Plain(lex, r.rest) && !At(r.rest, AND_OP)
    decreases |ts|
  {
    if At(ts, AND_OP) {
      PlainSuffix(lex, ts, 1);
      LeafAtFive(lex, ts[1..]);
      var right := ParseFilterExpr(ts[1..], 5);
      ConjoinedIsTerm(lex, left, right.value);
      TermRest(lex, Binary(AND, left, right.value), right.rest);
    }
  }

  lemma TermAtFour(lex: Lexer, ts: seq<Token>)
    requires Faithful(lex) && Plain(lex, ts) && ParseFilterExpr(ts, 4).Got?
    ensures var r := ParseFilterExpr(ts, 4); IsTerm(lex, Visit(r.value)) && Plain(lex, r.rest) && !At(r.rest, AND_OP) && |r.rest| < |ts|
  {
    ExprShape(lex, ts);
    var first := ParsePrimary(ts);
    TermRest(lex, first.value, first.rest);
  }

  /** An unnamed disjunction. */
  ghost predicate Clause(lex: Lexer, f: Filter) {
    f.name == "" && IsDisjunction(lex, f)
  }

  lemma DisjoinedIsClause(lex: Lexer, left: Tree, right: Tree)
    requires (IsTerm(lex, Visit(left)) || Clause(lex, Visit(left))) && IsTerm(lex, Visit(right))
    ensures Clause(lex, Visit(Binary(OR, left, right)))
  {
  }

  lemma {:induction false} ClauseRest(lex: Lexer, left: Tree, ts: seq<Token>)
    requires Faithful(lex) && Plain(lex, ts) && ParseRest(left, ts, 0).Got?
    requires IsTerm(lex, Visit(left)) || (Clause(lex, Visit(left)) && !At(ts, AND_OP))
    ensures var r := ParseRest(left, ts, 0); (IsTerm(lex, Visit(r.value)) || Clause(lex, Visit(r.value))) && Plain(lex, r.rest)
    decreases |ts|
  {
    if At(ts, AND_OP) {
      PlainSuffix(lex, ts, 1);
      LeafAtFive(lex, ts[1..]);
      var right := ParseFilterExpr(ts[1..], 5);
      ConjoinedIsTerm(lex, left, right.value);
      ClauseRest(lex, Binary(AND, left, right.value), right.rest);
    } else if At(ts, OR_OP) {
      PlainSuffix(lex, ts, 1);
      TermAtFour(lex, ts[1..]);
      var right := ParseFilterExpr(ts[1..], 4);
      DisjoinedIsClause(lex, left, right.value);
      ClauseRest(lex, Binary(OR, left, right.value), right.rest);
    }
  }

  /** A named reference and nothing else: what `FILTER @B AS A` is turned into. */
  predicate BareReference(lex: Lexer, f: Filter) {
    IsIdent(lex, f.name) && f.op == Unspecified && f.key == "" && f.value == "" && f.filters == []
  }

  lemma FilterShape(lex: Lexer, ts: seq<Token>)
    requires Faithful(lex) && Plain(lex, ts) && ParseFilter(ts).Got?
    ensures var r := ParseFilter(ts); (CanonicalFilter(lex, r.value) || BareReference(lex, r.value)) && Plain(lex, r.rest)
  {
    PlainSuffix(lex, ts, 1);
    var first := ParsePrimary(ts[1..]);
    ExprShape(lex, ts[1..]);
    ClauseRest(lex, first.value, first.rest);
    var expr := ParseFilterExpr(ts[1..], 0);
    IdentIsWord(lex, expr.rest[1]);
    NamedShape(lex, Visit(expr.value), IdentText(expr.rest[1]).value);
    PlainSuffix(lex, expr.rest, 2);
  }

  lemma NamedShape(lex: Lexer, f: Filter, name: string)
    requires (IsTerm(lex, f) || Clause(lex, f)) && IsIdent(lex, name)
    ensures CanonicalFilter(lex, f.(name := name)) || BareReference(lex, f.(name := name))
  {
  }

  lemma {:induction false} FiltersShape(lex: Lexer, ts: seq<Token>)
    requires Faithful(lex) && Plain(lex, ts) && ParseFilters(ts).Got?
    ensures var fs := ParseFilters(ts).value; forall i :: 0 <= i < |fs| ==> CanonicalFilter(lex, fs[i]) || BareReference(lex, fs[i])
    decreases |ts|
  {
    if At(ts, FILTER) {
      FilterShape(lex, ts);
      var first := ParseFilter(ts);
      FiltersShape(lex, first.rest);
      assert ParseFilters(ts).value == [first.value] + ParseFilters(first.rest).value;
    }
  }

  lemma {:induction false} NumberPositive(w: string)
    requires NumberShape(w)
    ensures Digits(w) >= 1
  {
    if |w| == 1 {
      assert IsDigit(w[0]) && w[..0] == "";
    } else {
      var m := |w| - 1;
      NumberPositive(w[..m]);
    }
  }

  lemma NumberShapeOf(lex: Lexer, ts: seq<Token>)
    requires Plain(lex, ts) && ParseNumber(ts).Got?
    ensures var r := ParseNumber(ts); r.value >= 1 && Uint32(r.value) && Plain(lex, r.rest)
  {
    assert Genuine(lex, ts[0]);
    NumberPositive(ts[0].text);
    PlainSuffix(lex, ts, 1);
  }

  lemma ReplicaShape(lex: Lexer, ts: seq<Token>)
    requires Faithful(lex) && Plain(lex, ts) && ParseReplica(ts).Got?
    ensures var r := ParseReplica(ts); CanonicalReplica(lex, r.value) && Plain(lex, r.rest)
  {
    PlainSuffix(lex, ts, 1);
    NumberShapeOf(lex, ts[1..]);
    var rest := ParseNumber(ts[1..]).rest;
    if At(rest, IN) {
      IdentIsWord(lex, rest[1]);
      PlainSuffix(lex, rest, 2);
    }
  }

  lemma {:induction false} ReplicasShape(lex: Lexer, ts: seq<Token>)
    requires Faithful(lex) && Plain(lex, ts) && ParseReplicas(ts).Got?
    ensures var r := ParseReplicas(ts); (forall i :: 0 <= i < |r.value| ==> CanonicalReplica(lex, r.value[i])) && Plain(lex, r.rest)
    decreases |ts|
  {
    if At(ts, REP) {
      ReplicaShape(lex, ts);
      var first := ParseReplica(ts);
      ReplicasShape(lex, first.rest);
      assert ParseReplicas(ts).value == [first.value] + ParseReplicas(first.rest).value;
    }
  }

  lemma ClauseShape(lex: Lexer, ts: seq<Token>)
    requires Plain(lex, ts)
    ensures Plain(lex, ParseClause(ts).rest)
  {
    if ts != [] {
      PlainSuffix(lex, ts, 1);
    }
  }

  lemma BucketShape(lex: Lexer, ts: seq<Token>)
    requires Readable(lex) && Faithful(lex) && Plain(lex, ts) && ParseBucket(ts).Got?
    ensures var r := ParseBucket(ts);
            (if r.value.1 == "" then r.value.0 == NoClause else IsIdent(lex, r.value.1)) && Plain(lex, r.rest)
  {
    if At(ts, IN) {
      PlainSuffix(lex, ts, 1);
      var rest := ParseClause(ts[1..]).rest;
      ClauseShape(lex, ts[1..]);
      IdentIsWord(lex, rest[0]);
      PlainSuffix(lex, rest, 1);
    }
  }

  lemma FromShape(lex: Lexer, ts: seq<Token>)
    requires Faithful(lex) && Plain(lex, ts) && ParseFrom(ts).Got?
    ensures var r := ParseFrom(ts); (r.value == MAIN_FILTER || IsIdent(lex, r.value)) && Plain(lex, r.rest)
  {
    PlainSuffix(lex, ts, 2);
    if ts[1] != WILDCARD {
      IdentIsWord(lex, ts[1]);
    }
  }

  lemma NameShape(lex: Lexer, ts: seq<Token>)
    requires Faithful(lex) && Plain(lex, ts) && ParseName(ts).Got?
    ensures var r := ParseName(ts); (r.value == "" || IsIdent(lex, r.value)) && Plain(lex, r.rest)
  {
    if At(ts, AS) {
      IdentIsWord(lex, ts[1]);
      PlainSuffix(lex, ts, 2);
    }
  }

  lemma SelectorShape(lex: Lexer, ts: seq<Token>)
    requires Readable(lex) && Faithful(lex) && Plain(lex, ts) && ParseSelector(ts).Got?
    ensures var r := ParseSelector(ts); CanonicalSelector(lex, r.value) && Plain(lex, r.rest)
  {
    PlainSuffix(lex, ts, 1);
    NumberShapeOf(lex, ts[1..]);
    var count := ParseNumber(ts[1..]);
    BucketShape(lex, count.rest);
    var bucket := ParseBucket(count.rest);
    FromShape(lex, bucket.rest);
    var filter := ParseFrom(bucket.rest);
    NameShape(lex, filter.rest);
  }

  lemma {:induction false} SelectorsShape(lex: Lexer, ts: seq<Token>)
    requires Readable(lex) && Faithful(lex) && Plain(lex, ts) && ParseSelectors(ts).Got?
    ensures var r := ParseSelectors(ts); (forall i :: 0 <= i < |r.value| ==> CanonicalSelector(lex, r.value[i])) && Plain(lex, r.rest)
    decreases |ts|
  {
    if At(ts, SELECT) {
      SelectorShape(lex, ts);
      var first := ParseSelector(ts);
      SelectorsShape(lex, first.rest);
      var more := ParseSelectors(first.rest);
      assert ParseSelectors(ts) == Got([first.value] + more.value, more.rest);
      SelectorsPrepend(lex, first.value, more.value);
    }
  }

  lemma SelectorsPrepend(lex: Lexer, s: Selector, ss: seq<Selector>)
    requires CanonicalSelector(lex, s) && forall i :: 0 <= i < |ss| ==> CanonicalSelector(lex, ss[i])
    ensures forall i :: 0 <= i < |[s] + ss| ==> CanonicalSelector(lex, ([s] + ss)[i])
  {
  }

  /** Everything a policy read from plain words satisfies. */
  ghost predicate NearlyCanonical(lex: Lexer, p: Policy) {
    && p.replicas != [] && (forall i :: 0 <= i < |p.replicas| ==> CanonicalReplica(lex, p.replicas[i]))
    && Uint32(p.backupFactor)
    && (forall i :: 0 <= i < |p.selectors| ==> CanonicalSelector(lex, p.selectors[i]))
    && (forall i :: 0 <= i < |p.filters| ==> CanonicalFilter(lex, p.filters[i]) || BareReference(lex, p.filters[i]))
  }

  lemma ParsedIsNearlyCanonical(lex: Lexer, ts: seq<Token>)
    requires Readable(lex) && Faithful(lex) && Plain(lex, ts) && Parse(ts).Some?
    ensures NearlyCanonical(lex, Parse(ts).value)
  {
    var replicas := ParseReplicas(ts);
    ReplicasShape(lex, ts);
    var cbf := ParseCBF(replicas.rest);
    if At(replicas.rest, CBF) {
      PlainSuffix(lex, replicas.rest, 1);
      NumberShapeOf(lex, replicas.rest[1..]);
    } else {
      assert Uint32(0) by { Power2Positive(32); }
    }
    SelectorsShape(lex, cbf.rest);
    FiltersShape(lex, ParseSelectors(cbf.rest).rest);
  }

  lemma {:induction false} Power2Positive(n: nat)
    ensures Power2(n) > 0
  {
    if n > 0 {
      Power2Positive(n - 1);
    }
  }

  // ---- Bare references do not come back ----

  lemma BareReferenceFails(lex: Lexer, f: Filter, rest: seq<Token>)
    requires Readable(lex) && BareReference(lex, f) && (rest == [] || rest[0] == FILTER)
    ensures ParseFilter([FILTER] + PrintFilter(lex, f) + rest) == Fail
  {
    assert f.name != "";
    assert PrintFilter(lex, f) == [AT, lex(f.name)];
    IdentReads(lex, f.name);
    BareTokens(lex(f.name), f.name, rest);
  }

  lemma BareTokens(name: Token, text: string, rest: seq<Token>)
    requires IdentText(name) == Some(text) && (rest == [] || rest[0] == FILTER)
    ensures ParseFilter([FILTER] + [AT, name] + rest) == Fail
  {
    ReferenceTokens(name, text, rest);
    var ts := [FILTER] + [AT, name] + rest;
    assert ts[1..] == [AT, name] + rest;
    assert ParseFilterExpr(ts[1..], 0) == Got(Leaf(Reference(text)), rest);
  }

  lemma {:induction false} FiltersWithBareFail(lex: Lexer, fs: seq<Filter>, k: nat)
    requires Readable(lex) && k < |fs| && BareReference(lex, fs[k])
    requires forall i :: 0 <= i < |fs| ==> CanonicalFilter(lex, fs[i]) || BareReference(lex, fs[i])
    ensures ParseFilters(PrintFilters(lex, fs)) == Fail
    decreases |fs|
  {
    var rest := PrintFilters(lex, fs[1..]);
    if BareReference(lex, fs[0]) {
      BareReferenceFails(lex, fs[0], rest);
    } else {
      FilterReadsBack(lex, fs[0], rest);
      FiltersWithBareFail(lex, fs[1..], k - 1);
    }
    assert PrintFilters(lex, fs) == [FILTER] + PrintFilter(lex, fs[0]) + rest;
    FiltersFail([FILTER] + PrintFilter(lex, fs[0]), rest);
  }

  lemma FiltersFail(first: seq<Token>, more: seq<Token>)
    requires At(first, FILTER)
    requires var r := ParseFilter(first + more); r == Fail || (r.rest == more && ParseFilters(more) == Fail)
    ensures ParseFilters(first + more) == Fail
  {
    assert At(first + more, FILTER);
  }

  lemma StagesReachFilters(lex: Lexer, p: Policy)
    requires Readable(lex) && NearlyCanonical(lex, p) && ParseFilters(PrintFilters(lex, p.filters)) == Fail
    ensures Parse(Print(lex, p)) == None
  {
    var filters := PrintFilters(lex, p.filters);
    var selectors := PrintSelectors(lex, p.selectors) + filters;
    var cbf := (if p.backupFactor > 0 then [CBF, lex(Format(p.backupFactor))] else []) + selectors;
    PrintedStart(lex, p);
    SelectorsReadBack(lex, p.selectors, filters);
    BackupReadsBack(lex, p.backupFactor, selectors);
    assert !At(cbf, IN) && !At(cbf, REP) by {
      if p.backupFactor == 0 {
        assert cbf == selectors;
      }
    }
    ReplicasReadBack(lex, p.replicas, cbf);
    StagesFail(Print(lex, p), cbf, selectors, filters, p);
  }

  lemma StagesFail(ts: seq<Token>, cbf: seq<Token>, selectors: seq<Token>, filters: seq<Token>, p: Policy)
    requires ParseReplicas(ts) == Got(p.replicas, cbf)
    requires ParseCBF(cbf) == Got(p.backupFactor, selectors)
    requires ParseSelectors(selectors) == Got(p.selectors, filters)
    requires ParseFilters(filters) == Fail
    ensures Parse(ts) == None
  {
  }

  /** Printing and parsing returns the policy if and only if the policy is canonical. */
  lemma RoundTripIffCanonical(lex: Lexer, p: Policy)
    requires Readable(lex) && Faithful(lex)
    ensures Parse(Print(lex, p)) == Some(p) <==> Canonical(lex, p)
  {
    if Canonical(lex, p) {
      CanonicalComesBack(lex, p);
    } else if Parse(Print(lex, p)) == Some(p) {
      PolicyPlain(lex, p);
      ParsedIsNearlyCanonical(lex, Print(lex, p));
      NotCanonicalFails(lex, p);
    }
  }

  lemma NotCanonicalFails(lex: Lexer, p: Policy)
    requires Readable(lex) && NearlyCanonical(lex, p) && !Canonical(lex, p)
    ensures Parse(Print(lex, p)) == None
  {
    var k :| 0 <= k < |p.filters| && !CanonicalFilter(lex, p.filters[k]);
    FiltersWithBareFail(lex, p.filters, k);
    StagesReachFilters(lex, p);
  }

  /** The same for the words of the query language. */
  lemma QueryRoundTripIffCanonical(p: Policy)
    ensures Parse(Print(Lex, p)) == Some(p) <==> Canonical(Lex, p)
  {
    QueryWordsReadable();
    QueryWordsFaithful();
    RoundTripIffCanonical(Lex, p);
  }
}
