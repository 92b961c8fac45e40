/** Whole queries: a policy is parsed from exactly the words of its replicas, backup factor, selectors and filter
    statements, the latter with any parentheses. */
module QueryGrammar {
  import opened Common
  import opened Netmap
  import opened PolicyLanguage
  import opened PolicyRoundTrip
  import opened PolicyExact
  import opened Grammar

  // ---- Queries and their words ----

  /** A filter statement: an expression and the name it is given. */
  datatype Statement = Statement(expr: Tree, name: string)

  predicate Proper(lex: Lexer, st: Statement) {
    Expression(lex, st.expr) && IsIdent(lex, st.name)
  }

  function StatementWords(lex: Lexer, st: Statement): seq<Token> {
    [FILTER] + (Words(lex, st.expr) + [AS, lex(st.name)])
  }

  function StatementsWords(lex: Lexer, sts: seq<Statement>): seq<Token> {
    if sts == [] then [] else StatementWords(lex, sts[0]) + StatementsWords(lex, sts[1..])
  }

  /** The filters the statements are turned into. */
  function FiltersOf(sts: seq<Statement>): seq<Filter> {
    if sts == [] then [] else [Visit(sts[0].expr).(name := sts[0].name)] + FiltersOf(sts[1..])
  }

  function BackupWords(lex: Lexer, n: nat): seq<Token> {
    if n > 0 then [CBF, lex(Format(n))] else []
  }

  /** The tokens are a query for the policy. */
  ghost predicate IsQuery(lex: Lexer, ts: seq<Token>, p: Policy, sts: seq<Statement>) {
    && p.replicas != [] && (forall i :: 0 <= i < |p.replicas| ==> CanonicalReplica(lex, p.replicas[i]))
    && Uint32(p.backupFactor)
    && (forall i :: 0 <= i < |p.selectors| ==> CanonicalSelector(lex, p.selectors[i]))
    && (forall i :: 0 <= i < |sts| ==> Proper(lex, sts[i])) && p.filters == FiltersOf(sts)
    && ts == PrintReplicas(lex, p.replicas)
             + (BackupWords(lex, p.backupFactor) + (PrintSelectors(lex, p.selectors) + StatementsWords(lex, sts)))
  }

  // ---- Queries are read ----

  lemma {:induction false} StatementsRead(lex: Lexer, sts: seq<Statement>)
    requires Readable(lex) && forall i :: 0 <= i < |sts| ==> Proper(lex, sts[i])
    ensures ParseFilters(StatementsWords(lex, sts)) == Got(FiltersOf(sts), [])
    decreases |sts|
  {
    if sts != [] {
      var st, rest := sts[0], StatementsWords(lex, sts[1..]);
      StatementsRead(lex, sts[1..]);
      ExpressionReads(lex, st.expr, [AS, lex(st.name)] + rest, 0);
      StatementTokens(Words(lex, st.expr), st.expr, lex(st.name), st.name, rest);
      FiltersStep(StatementWords(lex, st), rest, FiltersOf(sts));
    }
  }

  lemma QueryReads(lex: Lexer, ts: seq<Token>, p: Policy, sts: seq<Statement>)
    requires Readable(lex) && IsQuery(lex, ts, p, sts)
    ensures Parse(ts) == Some(p)
  {
    var filters := StatementsWords(lex, sts);
    var selectors := PrintSelectors(lex, p.selectors) + filters;
    var cbf := BackupWords(lex, p.backupFactor) + selectors;
    StatementsRead(lex, sts);
    assert !At(filters, AS) && !At(filters, SELECT) && !At(filters, IN) && !At(filters, REP) && !At(filters, CBF);
    SelectorsReadBack(lex, p.selectors, filters);
    PrintedSelectorsStart(lex, p.selectors, filters);
    BackupReadsBack(lex, p.backupFactor, selectors);
    assert !At(cbf, IN) && !At(cbf, REP) by {
      if p.backupFactor == 0 {
        assert cbf == selectors;
      }
    }
    ReplicasReadBack(lex, p.replicas, cbf);
    StagesMakePolicy(ts, cbf, selectors, filters, p);
  }

  // ---- Whatever is read is a query ----

  /** A number token is the number printed. */
  lemma {:induction false} DigitsFormat(w: string)
    requires NumberShape(w)
    ensures Format(Digits(w)) == w
  {
    var m := |w| - 1;
    assert IsDigit(w[m]) && Digit(DigitValue(w[m])) == w[m];
    if m == 0 {
      assert w[..0] == "" && w == [w[0]];
    } else {
      assert NumberShape(w[..m]);
      DigitsFormat(w[..m]);
      NumberPositive(w[..m]);
      assert Digits(w) / 10 == Digits(w[..m]) && Digits(w) % 10 == DigitValue(w[m]);
      assert w == w[..m] + [w[m]];
    }
  }

  lemma NumberRead(lex: Lexer, ts: seq<Token>)
    requires AllGenuine(lex, ts) && ParseNumber(ts).Got?
    ensures var r := ParseNumber(ts); r.value >= 1 && Uint32(r.value) && ts == [lex(Format(r.value))] + r.rest && AllGenuine(lex, r.rest)
  {
    assert Genuine(lex, ts[0]);
    NumberPositive(ts[0].text);
    DigitsFormat(ts[0].text);
    GenuineSuffix(lex, ts, 1);
    assert ts == [ts[0]] + ts[1..];
  }

  lemma IdentRead(lex: Lexer, t: Token)
    requires Readable(lex) && Faithful(lex) && Genuine(lex, t) && IdentText(t).Some?
    ensures var w := IdentText(t).value; lex(w) == t && IsIdent(lex, w) && w != ""
  {
    IdentToken(lex, t);
  }

  lemma Prepend(word: Token, ts: seq<Token>, first: seq<Token>, rest: seq<Token>)
    requires At(ts, word) && ts[1..] == first + rest
    ensures ts == [word] + first + rest
  {
    assert ts == [word] + ts[1..];
  }

  lemma SplitOne(ts: seq<Token>)
    requires ts != []
    ensures ts == [ts[0]] + ts[1..]
  {
  }

  lemma SplitTwo(ts: seq<Token>)
    requires |ts| >= 2
    ensures ts == [ts[0], ts[1]] + ts[2..]
  {
  }

  lemma ReplicaJoined(lex: Lexer, ts: seq<Token>, r: Replica, selector: seq<Token>, rest: seq<Token>)
    requires At(ts, REP) && ts[1..] == [lex(Format(r.count))] + selector
    requires selector == (if r.selector != "" then [IN, lex(r.selector)] else []) + rest
    ensures ts == PrintReplica(lex, r) + rest
  {
    Prepend(REP, ts, [lex(Format(r.count))], selector);
    Associative([REP, lex(Format(r.count))], if r.selector != "" then [IN, lex(r.selector)] else [], rest);
  }

  lemma ReplicaSelectorRead(lex: Lexer, ts: seq<Token>)
    requires Readable(lex) && Faithful(lex) && AllGenuine(lex, ts) && |ts| >= 2 && ts[0] == IN && IdentText(ts[1]).Some?
    ensures var w := IdentText(ts[1]).value; w != "" && IsIdent(lex, w) && ts == [IN, lex(w)] + ts[2..] && AllGenuine(lex, ts[2..])
  {
    assert Genuine(lex, ts[1]);
    IdentRead(lex, ts[1]);
    SplitTwo(ts);
    GenuineSuffix(lex, ts, 2);
  }

  lemma ReplicaRead(lex: Lexer, ts: seq<Token>)
    requires Readable(lex) && Faithful(lex) && AllGenuine(lex, ts) && ParseReplica(ts).Got?
    ensures var r := ParseReplica(ts); CanonicalReplica(lex, r.value) && ts == PrintReplica(lex, r.value) + r.rest && AllGenuine(lex, r.rest)
  {
    GenuineSuffix(lex, ts, 1);
    NumberRead(lex, ts[1..]);
    var count := ParseNumber(ts[1..]);
    if At(count.rest, IN) {
      ReplicaSelectorRead(lex, count.rest);
      ReplicaJoined(lex, ts, Replica(count.value, IdentText(count.rest[1]).value), count.rest, count.rest[2..]);
    } else {
      NothingBefore(count.rest);
      ReplicaJoined(lex, ts, Replica(count.value, ""), count.rest, count.rest);
    }
  }

  lemma NothingBefore(ts: seq<Token>)
    ensures [] + ts == ts
  {
  }

  lemma ReplicasJoined(lex: Lexer, r: Replica, rs: seq<Replica>, ts: seq<Token>, more: seq<Token>, rest: seq<Token>)
    requires ts == PrintReplica(lex, r) + more && more == PrintReplicas(lex, rs) + rest
    requires CanonicalReplica(lex, r) && forall i :: 0 <= i < |rs| ==> CanonicalReplica(lex, rs[i])
    ensures ts == PrintReplicas(lex, [r] + rs) + rest
    ensures forall i :: 0 <= i < |[r] + rs| ==> CanonicalReplica(lex, ([r] + rs)[i])
  {
    assert ([r] + rs)[1..] == rs;
    Associative(PrintReplica(lex, r), PrintReplicas(lex, rs), rest);
  }

  lemma {:induction false} ReplicasRead(lex: Lexer, ts: seq<Token>)
    requires Readable(lex) && Faithful(lex) && AllGenuine(lex, ts) && ParseReplicas(ts).Got?
    ensures var r := ParseReplicas(ts);
            && (forall i :: 0 <= i < |r.value| ==> CanonicalReplica(lex, r.value[i]))
            && ts == PrintReplicas(lex, r.value) + r.rest && AllGenuine(lex, r.rest)
    decreases |ts|
  {
    if At(ts, REP) {
      ReplicaRead(lex, ts);
      var first := ParseReplica(ts);
      ReplicasRead(lex, first.rest);
      var more := ParseReplicas(first.rest);
      ReplicasJoined(lex, first.value, more.value, ts, first.rest, more.rest);
    }
  }

  lemma BackupJoined(ts: seq<Token>, word: Token, rest: seq<Token>)
    requires At(ts, CBF) && ts[1..] == [word] + rest
    ensures ts == [CBF, word] + rest
  {
    Prepend(CBF, ts, [word], rest);
  }

  lemma NoBackup()
    ensures Uint32(0)
  {
    Power2Positive(32);
  }

  lemma BackupRead(lex: Lexer, ts: seq<Token>)
    requires AllGenuine(lex, ts) && ParseCBF(ts).Got?
    ensures var r := ParseCBF(ts); Uint32(r.value) && ts == BackupWords(lex, r.value) + r.rest && AllGenuine(lex, r.rest)
  {
    if At(ts, CBF) {
      GenuineSuffix(lex, ts, 1);
      NumberRead(lex, ts[1..]);
      var number := ParseNumber(ts[1..]);
      BackupJoined(ts, lex(Format(number.value)), number.rest);
    } else {
      NoBackup();
      NothingBefore(ts);
    }
  }

  lemma ClauseRead(lex: Lexer, ts: seq<Token>)
    requires AllGenuine(lex, ts)
    ensures var r := ParseClause(ts);
            ts == (match r.value case Same => [SAME] case Distinct => [DISTINCT] case NoClause => []) + r.rest && AllGenuine(lex, r.rest)
  {
    if ts != [] {
      GenuineSuffix(lex, ts, 1);
      assert ts == [ts[0]] + ts[1..];
    }
  }

  lemma BucketRead(lex: Lexer, ts: seq<Token>, s: Selector)
    requires Readable(lex) && Faithful(lex) && AllGenuine(lex, ts) && ParseBucket(ts).Got?
    requires (s.clause, s.attribute) == ParseBucket(ts).value
    ensures if s.attribute == "" then s.clause == NoClause else IsIdent(lex, s.attribute)
    ensures ts == PrintBucket(lex, s) + ParseBucket(ts).rest && AllGenuine(lex, ParseBucket(ts).rest)
  {
    if At(ts, IN) {
      GenuineSuffix(lex, ts, 1);
      ClauseRead(lex, ts[1..]);
      var clause := ParseClause(ts[1..]);
      var word := match clause.value case Same => [SAME] case Distinct => [DISTINCT] case NoClause => [];
      AttributeRead(lex, clause.rest);
      BucketJoined(ts, word, clause.rest[0], clause.rest[1..]);
    }
  }

  lemma AttributeRead(lex: Lexer, ts: seq<Token>)
    requires Readable(lex) && Faithful(lex) && AllGenuine(lex, ts) && ts != [] && IdentText(ts[0]).Some?
    ensures var w := IdentText(ts[0]).value; w != "" && IsIdent(lex, w) && lex(w) == ts[0]
    ensures ts == [ts[0]] + ts[1..] && AllGenuine(lex, ts[1..])
  {
    SplitOne(ts);
    assert Genuine(lex, ts[0]);
    IdentRead(lex, ts[0]);
    GenuineSuffix(lex, ts, 1);
  }

  lemma BucketJoined(ts: seq<Token>, word: seq<Token>, attr: Token, rest: seq<Token>)
    requires At(ts, IN) && ts[1..] == word + ([attr] + rest)
    ensures ts == [IN] + word + [attr] + rest
  {
    assert ts == [IN] + ts[1..];
  }

  lemma FromRead(lex: Lexer, ts: seq<Token>)
    requires Readable(lex) && Faithful(lex) && AllGenuine(lex, ts) && ParseFrom(ts).Got?
    ensures var r := ParseFrom(ts);
            && (r.value == MAIN_FILTER || IsIdent(lex, r.value)) && r.value != ""
            && ts == [FROM, lex(r.value)] + r.rest && AllGenuine(lex, r.rest)
  {
    SplitTwo(ts);
    GenuineSuffix(lex, ts, 2);
    assert Genuine(lex, ts[1]);
    if ts[1] != WILDCARD {
      IdentRead(lex, ts[1]);
    }
  }

  lemma NameRead(lex: Lexer, ts: seq<Token>)
    requires Readable(lex) && Faithful(lex) && AllGenuine(lex, ts) && ParseName(ts).Got?
    ensures var r := ParseName(ts);
            && (r.value == "" || IsIdent(lex, r.value))
            && ts == (if r.value != "" then [AS, lex(r.value)] else []) + r.rest && AllGenuine(lex, r.rest)
  {
    if At(ts, AS) {
      SplitTwo(ts);
      GenuineSuffix(lex, ts, 2);
      assert Genuine(lex, ts[1]);
      IdentRead(lex, ts[1]);
    }
  }

  lemma SelectorJoined(lex: Lexer, ts: seq<Token>, s: Selector, bucket: seq<Token>, from: seq<Token>, name: seq<Token>, rest: seq<Token>)
    requires At(ts, SELECT) && ts[1..] == [lex(Format(s.count))] + bucket && bucket == PrintBucket(lex, s) + from
    requires s.filter != "" && from == [FROM, lex(s.filter)] + name && name == (if s.name != "" then [AS, lex(s.name)] else []) + rest
    ensures ts == PrintSelector(lex, s) + rest
  {
    Prepend(SELECT, ts, [lex(Format(s.count))], bucket);
    PrintedSelector(lex, s, [FROM, lex(s.filter)], if s.name != "" then [AS, lex(s.name)] else [], rest);
  }

  lemma SelectorRead(lex: Lexer, ts: seq<Token>)
    requires Readable(lex) && Faithful(lex) && AllGenuine(lex, ts) && ParseSelector(ts).Got?
    ensures var r := ParseSelector(ts); CanonicalSelector(lex, r.value) && ts == PrintSelector(lex, r.value) + r.rest && AllGenuine(lex, r.rest)
  {
    var s := ParseSelector(ts).value;
    GenuineSuffix(lex, ts, 1);
    NumberRead(lex, ts[1..]);
    var count := ParseNumber(ts[1..]);
    BucketRead(lex, count.rest, s);
    var bucket := ParseBucket(count.rest);
    FromRead(lex, bucket.rest);
    var from := ParseFrom(bucket.rest);
    NameRead(lex, from.rest);
    SelectorJoined(lex, ts, s, count.rest, bucket.rest, from.rest, ParseName(from.rest).rest);
  }

  lemma {:induction false} SelectorsRead(lex: Lexer, ts: seq<Token>)
    requires Readable(lex) && Faithful(lex) && AllGenuine(lex, ts) && ParseSelectors(ts).Got?
    ensures var r := ParseSelectors(ts);
            && (forall i :: 0 <= i < |r.value| ==> CanonicalSelector(lex, r.value[i]))
            && ts == PrintSelectors(lex, r.value) + r.rest && AllGenuine(lex, r.rest)
    decreases |ts|
  {
    if At(ts, SELECT) {
      SelectorRead(lex, ts);
      var first := ParseSelector(ts);
      SelectorsRead(lex, first.rest);
      var more := ParseSelectors(first.rest);
      SelectorsPrepend(lex, first.value, more.value);
      SelectorsJoined(lex, first.value, more.value, ts, first.rest, more.rest);
    }
  }

  lemma SelectorsJoined(lex: Lexer, s: Selector, ss: seq<Selector>, ts: seq<Token>, more: seq<Token>, rest: seq<Token>)
    requires ts == PrintSelector(lex, s) + more && more == PrintSelectors(lex, ss) + rest
    ensures ts == PrintSelectors(lex, [s] + ss) + rest
  {
    assert ([s] + ss)[1..] == ss;
    Associative(PrintSelector(lex, s), PrintSelectors(lex, ss), rest);
  }

  lemma FilterRead(lex: Lexer, ts: seq<Token>) returns (st: Statement)
    requires Readable(lex) && Faithful(lex) && AllGenuine(lex, ts) && ParseFilter(ts).Got?
    ensures var r := ParseFilter(ts);
            && Proper(lex, st) && r.value == Visit(st.expr).(name := st.name)
            && ts == StatementWords(lex, st) + r.rest && AllGenuine(lex, r.rest)
  {
    GenuineSuffix(lex, ts, 1);
    ExpressionRead(lex, ts[1..]);
    var expr := ParseFilterExpr(ts[1..], 0);
    assert Genuine(lex, expr.rest[1]);
    IdentRead(lex, expr.rest[1]);
    SplitTwo(expr.rest);
    GenuineSuffix(lex, expr.rest, 2);
    st := Statement(expr.value, IdentText(expr.rest[1]).value);
    Associative(Words(lex, st.expr), [AS, lex(st.name)], expr.rest[2..]);
    Prepend(FILTER, ts, Words(lex, st.expr) + [AS, lex(st.name)], expr.rest[2..]);
  }

  lemma {:induction false} FiltersRead(lex: Lexer, ts: seq<Token>) returns (sts: seq<Statement>)
    requires Readable(lex) && Faithful(lex) && AllGenuine(lex, ts) && ParseFilters(ts).Got?
    ensures var r := ParseFilters(ts);
            && (forall i :: 0 <= i < |sts| ==> Proper(lex, sts[i])) && r.value == FiltersOf(sts)
            && ts == StatementsWords(lex, sts) + r.rest
    decreases |ts|
  {
    sts := [];
    if At(ts, FILTER) {
      var st := FilterRead(lex, ts);
      var first := ParseFilter(ts);
      var more := FiltersRead(lex, first.rest);
      sts := [st] + more;
      StatementsJoined(lex, st, more, ts, first.rest, ParseFilters(first.rest).rest);
    }
  }

  lemma StatementsJoined(lex: Lexer, st: Statement, sts: seq<Statement>, ts: seq<Token>, more: seq<Token>, rest: seq<Token>)
    requires ts == StatementWords(lex, st) + more && more == StatementsWords(lex, sts) + rest
    ensures ts == StatementsWords(lex, [st] + sts) + rest && FiltersOf([st] + sts) == [Visit(st.expr).(name := st.name)] + FiltersOf(sts)
  {
    assert ([st] + sts)[1..] == sts;
    Associative(StatementWords(lex, st), StatementsWords(lex, sts), rest);
  }

  lemma QueryRead(lex: Lexer, ts: seq<Token>) returns (sts: seq<Statement>)
    requires Readable(lex) && Faithful(lex) && AllGenuine(lex, ts) && Parse(ts).Some?
    ensures IsQuery(lex, ts, Parse(ts).value, sts)
  {
    ReplicasRead(lex, ts);
    var replicas := ParseReplicas(ts);
    BackupRead(lex, replicas.rest);
    var cbf := ParseCBF(replicas.rest);
    SelectorsRead(lex, cbf.rest);
    var selectors := ParseSelectors(cbf.rest);
    sts := FiltersRead(lex, selectors.rest);
    assert StatementsWords(lex, sts) + [] == StatementsWords(lex, sts);
  }

  // ---- The language of queries, exactly ----

  /** A policy is parsed from tokens if and only if they are a query for it, to the last token. */
  lemma ParsedIffQuery(lex: Lexer, ts: seq<Token>, p: Policy)
    requires Readable(lex) && Faithful(lex) && AllGenuine(lex, ts)
    ensures Parse(ts) == Some(p) <==> exists sts :: IsQuery(lex, ts, p, sts)
  {
    if Parse(ts) == Some(p) {
      var sts := QueryRead(lex, ts);
    }
    if sts :| IsQuery(lex, ts, p, sts) {
      QueryReads(lex, ts, p, sts);
    }
  }

  /** The same for the words of the query language. */
  lemma QueryParsedIffQuery(ts: seq<Token>, p: Policy)
    requires AllGenuine(Lex, ts)
    ensures Parse(ts) == Some(p) <==> exists sts :: IsQuery(Lex, ts, p, sts)
  {
    QueryWordsReadable();
    QueryWordsFaithful();
    ParsedIffQuery(Lex, ts, p);
  }
}
