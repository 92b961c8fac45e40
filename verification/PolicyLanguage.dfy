/** The policy query language at token level: words, the printer, the parser and the visitor. */
module PolicyLanguage {
  import opened Common
  import opened Netmap

  // ---- Tokens ----

  datatype Token =
    | REP | IN | AS | SELECT | FROM | FILTER      // keywords that may also serve as identifiers
    | CBF | AND_OP | OR_OP | SIMPLE_OP(op: Operation) | SAME | DISTINCT
    | WILDCARD | AT | L_PAREN | R_PAREN
    | IDENT(text: string) | NUMBER1(text: string) | ZERO
    | BAD

  predicate Letter(c: char) {
    'a' <= c <= 'z' || 'A' <= c <= 'Z' || c == '_'
  }

  predicate IdentShape(w: string) {
    w != "" && Letter(w[0]) && forall i :: 0 <= i < |w| ==> Letter(w[i]) || IsDigit(w[i])
  }

  predicate NumberShape(w: string) {
    w != "" && w[0] != '0' && forall i :: 0 <= i < |w| ==> IsDigit(w[i])
  }

  const FIXED_WORDS: nat := 19

  /** The words with a token of their own. */
  function FixedWord(k: nat): (string, Token) {
    if k == 0 then ("REP", REP) else if k == 1 then ("IN", IN) else if k == 2 then ("AS", AS)
    else if k == 3 then ("SELECT", SELECT) else if k == 4 then ("FROM", FROM) else if k == 5 then ("FILTER", FILTER)
    else if k == 6 then ("CBF", CBF) else if k == 7 then ("AND", AND_OP) else if k == 8 then ("OR", OR_OP)
    else if k == 9 then ("EQ", SIMPLE_OP(EQ)) else if k == 10 then ("NE", SIMPLE_OP(NE))
    else if k == 11 then ("GE", SIMPLE_OP(GE)) else if k == 12 then ("GT", SIMPLE_OP(GT))
    else if k == 13 then ("LT", SIMPLE_OP(LT)) else if k == 14 then ("LE", SIMPLE_OP(LE))
    else if k == 15 then ("SAME", SAME) else if k == 16 then ("DISTINCT", DISTINCT)
    else if k == 17 then (MAIN_FILTER, WILDCARD) else ("0", ZERO)
  }

  /** Token of a printed word. A word that is not a single identifier, keyword, operator, number or
      wildcard cannot be read back as itself and counts as bad. */
  function Lex(w: string): Token {
    LexFrom(0, w)
  }

  function LexFrom(k: nat, w: string): Token
    decreases FIXED_WORDS - k
  {
    if k >= FIXED_WORDS then (if IdentShape(w) then IDENT(w) else if NumberShape(w) then NUMBER1(w) else BAD)
    else if FixedWord(k).0 == w then FixedWord(k).1
    else LexFrom(k + 1, w)
  }

  /** Text of a token where the grammar wants an identifier. */
  function IdentText(t: Token): Option<string> {
    match t
    case REP => Some("REP")
    case IN => Some("IN")
    case AS => Some("AS")
    case SELECT => Some("SELECT")
    case FROM => Some("FROM")
    case FILTER => Some("FILTER")
    case IDENT(w) => Some(w)
    case _ => None
  }

  /** Text of a token where the grammar wants a comparison value. */
  function ValueText(t: Token): Option<string> {
    match t
    case ZERO => Some("0")
    case NUMBER1(w) => Some(w)
    case _ => IdentText(t)
  }

  /** A way to turn printed words into tokens. */
  type Lexer = string -> Token

  predicate IsIdent(lex: Lexer, w: string) {
    IdentText(lex(w)).Some?
  }

  predicate IsValue(lex: Lexer, w: string) {
    ValueText(lex(w)).Some?
  }

  /** A token as the lexer makes it. */
  ghost predicate Genuine(lex: Lexer, t: Token) {
    match t
    case IDENT(w) => lex(w) == t
    case NUMBER1(w) => lex(w) == t && NumberShape(w)
    case SIMPLE_OP(op) => op !in {Unspecified, AND, OR}
    case _ => true
  }

  /** Words read as identifiers, values or numbers are read back as themselves. */
  ghost predicate Readable(lex: Lexer) {
    && (forall w :: IsIdent(lex, w) ==> IdentText(lex(w)) == Some(w))
    && (forall w :: IsValue(lex, w) ==> ValueText(lex(w)) == Some(w))
    && (forall w :: NumberShape(w) ==> lex(w) == NUMBER1(w))
    && lex(MAIN_FILTER) == WILDCARD && lex("") == BAD
  }

  /** Words never read as a parenthesis, and every identifier the parser can return is a word. */
  ghost predicate Faithful(lex: Lexer) {
    && (forall w :: Genuine(lex, lex(w)) && lex(w) != L_PAREN && lex(w) != R_PAREN)
    && lex("REP") == REP && lex("IN") == IN && lex("AS") == AS
    && lex("SELECT") == SELECT && lex("FROM") == FROM && lex("FILTER") == FILTER && lex("0") == ZERO
  }

  // ---- The lexer of the query grammar ----

  /** The words of the query grammar are readable. */
  lemma QueryWordsReadable()
    ensures Readable(Lex)
  {
    forall w
      ensures IsIdent(Lex, w) ==> IdentText(Lex(w)) == Some(w)
      ensures IsValue(Lex, w) ==> ValueText(Lex(w)) == Some(w)
    {
      LexReadsBack(w);
    }
    forall w | NumberShape(w) ensures Lex(w) == NUMBER1(w) {
      NumberFrom(0, w);
    }
    assert Lex(MAIN_FILTER) == WILDCARD by {
      KeywordFrom(0, 17);
    }
    EmptyFrom(0);
  }

  lemma {:induction false} EmptyFrom(k: nat)
    ensures LexFrom(k, "") == BAD
    decreases FIXED_WORDS - k
  {
    if k < FIXED_WORDS {
      assert |FixedWord(k).0| > 0;
      EmptyFrom(k + 1);
    }
  }

  lemma QueryWordsFaithful()
    ensures Faithful(Lex)
  {
    forall w ensures Genuine(Lex, Lex(w)) && Lex(w) != L_PAREN && Lex(w) != R_PAREN {
      LexIsGenuine(w);
    }
    GrammarWords();
  }

  /** A word is lexed by one of the fixed words, or by its shape. */
  lemma {:induction false} LexedBy(k: nat, w: string) returns (j: nat)
    requires k <= FIXED_WORDS
    ensures j <= FIXED_WORDS
    ensures j < FIXED_WORDS ==> (w, LexFrom(k, w)) == FixedWord(j)
    ensures j == FIXED_WORDS ==> LexFrom(k, w) == if IdentShape(w) then IDENT(w) else if NumberShape(w) then NUMBER1(w) else BAD
    decreases FIXED_WORDS - k
  {
    if k == FIXED_WORDS || FixedWord(k).0 == w {
      j := k;
    } else {
      j := LexedBy(k + 1, w);
    }
  }

  lemma LexReadsBack(w: string)
    ensures IdentText(Lex(w)).Some? ==> IdentText(Lex(w)) == Some(w)
    ensures ValueText(Lex(w)).Some? ==> ValueText(Lex(w)) == Some(w)
  {
    var j := LexedBy(0, w);
    if j < FIXED_WORDS {
      FixedWordReads(j);
    }
  }

  lemma LexIsGenuine(w: string)
    ensures Lex(w).IDENT? ==> Lex(w).text == w
    ensures Lex(w).NUMBER1? ==> Lex(w).text == w && NumberShape(w)
    ensures Lex(w).SIMPLE_OP? ==> Lex(w).op != Unspecified && Lex(w).op != AND && Lex(w).op != OR
    ensures Lex(w) != L_PAREN && Lex(w) != R_PAREN
  {
    var j := LexedBy(0, w);
    if j < FIXED_WORDS {
      FixedWordReads(j);
    }
  }

  lemma FixedWordReads(k: nat)
    ensures var (w, t) := FixedWord(k);
            && (IdentText(t).Some? ==> IdentText(t) == Some(w))
            && (ValueText(t).Some? ==> ValueText(t) == Some(w))
            && !t.IDENT? && !t.NUMBER1? && t != L_PAREN && t != R_PAREN
            && (t.SIMPLE_OP? ==> t.op != Unspecified && t.op != AND && t.op != OR)
  {
  }

  lemma {:induction false} NumberFrom(k: nat, w: string)
    requires NumberShape(w)
    ensures LexFrom(k, w) == NUMBER1(w)
    decreases FIXED_WORDS - k
  {
    assert IsDigit(w[0]) && !Letter(w[0]);
    if k < FIXED_WORDS {
      assert FixedWord(k).0[0] != w[0];
      NumberFrom(k + 1, w);
    }
  }

  lemma DistinctWords(k: nat, i: nat)
    requires k < i < FIXED_WORDS
    ensures FixedWord(k).0 != FixedWord(i).0
  {
    var a, b := FixedWord(k).0, FixedWord(i).0;
    assert |a| != |b| || a[0] != b[0] || a[|a| - 1] != b[|b| - 1];
  }

  lemma {:induction false} KeywordFrom(k: nat, i: nat)
    requires k <= i < FIXED_WORDS
    ensures LexFrom(k, FixedWord(i).0) == FixedWord(i).1
    decreases i - k
  {
    if k < i {
      DistinctWords(k, i);
      KeywordFrom(k + 1, i);
    }
  }

  /** The words of the grammar that stand for themselves. */
  lemma GrammarWords()
    ensures Lex("REP") == REP && Lex("IN") == IN && Lex("AS") == AS && Lex("SELECT") == SELECT && Lex("FROM") == FROM
    ensures Lex("FILTER") == FILTER && Lex("CBF") == CBF && Lex("SAME") == SAME && Lex("DISTINCT") == DISTINCT
    ensures Lex("AND") == AND_OP && Lex("OR") == OR_OP && Lex("EQ") == SIMPLE_OP(EQ) && Lex("NE") == SIMPLE_OP(NE)
    ensures Lex("GE") == SIMPLE_OP(GE) && Lex("GT") == SIMPLE_OP(GT) && Lex("LT") == SIMPLE_OP(LT) && Lex("LE") == SIMPLE_OP(LE)
    ensures Lex("*") == WILDCARD && Lex("0") == ZERO
  {
    KeywordFrom(0, 0);
    KeywordFrom(0, 1);
    KeywordFrom(0, 2);
    KeywordFrom(0, 3);
    KeywordFrom(0, 4);
    KeywordFrom(0, 5);
    KeywordFrom(0, 6);
    KeywordFrom(0, 7);
    KeywordFrom(0, 8);
    KeywordFrom(0, 9);
    KeywordFrom(0, 10);
    KeywordFrom(0, 11);
    KeywordFrom(0, 12);
    KeywordFrom(0, 13);
    KeywordFrom(0, 14);
    KeywordFrom(0, 15);
    KeywordFrom(0, 16);
    KeywordFrom(0, 17);
    KeywordFrom(0, 18);
  }

  // ---- Decimal numbers ----

  function Digit(d: nat): char
    requires d < 10
  {
    ('0' as int + d) as char
  }

  function Format(n: nat): string {
    if n < 10 then [Digit(n)] else Format(n / 10) + [Digit(n % 10)]
  }

  lemma {:induction false} FormatReadsBack(n: nat)
    ensures Format(n) != "" && forall i :: 0 <= i < |Format(n)| ==> IsDigit(Format(n)[i])
    ensures Digits(Format(n)) == n
    ensures n > 0 ==> Format(n)[0] != '0'
  {
    if n < 10 {
      assert Format(n)[..0] == "";
    } else {
      FormatReadsBack(n / 10);
      var m := |Format(n)| - 1;
      assert Format(n)[..m] == Format(n / 10);
    }
  }

  /** A printed number is one number token with the number as its value. */
  lemma NumberReadsBack(lex: Lexer, n: nat)
    requires Readable(lex) && 1 <= n < Power2(32)
    ensures lex(Format(n)) == NUMBER1(Format(n))
    ensures ParseUint(Format(n), 32) == Some(n)
  {
    FormatReadsBack(n);
  }

  // ---- Printer ----

  /** Word of an operation; an unset one prints as a word that is no operator. */
  function OpToken(op: Operation): Token {
    match op
    case AND => AND_OP
    case OR => OR_OP
    case Unspecified => BAD
    case _ => SIMPLE_OP(op)
  }

  function PrintReplica(lex: Lexer, r: Replica): seq<Token> {
    [REP, lex(Format(r.count))] + (if r.selector != "" then [IN, lex(r.selector)] else [])
  }

  function PrintSelector(lex: Lexer, s: Selector): seq<Token> {
    [SELECT, lex(Format(s.count))]
    + (if s.attribute != "" then
         [IN] + (match s.clause case Same => [SAME] case Distinct => [DISTINCT] case NoClause => []) + [lex(s.attribute)]
       else [])
    + (if s.filter != "" then [FROM, lex(s.filter)] else [])
    + (if s.name != "" then [AS, lex(s.name)] else [])
  }

  function PrintFilter(lex: Lexer, f: Filter): seq<Token>
    decreases f, 1
  {
    (if f.key != "" then [lex(f.key), OpToken(f.op), lex(f.value)]
     else if f.op == Unspecified && f.name != "" then [AT, lex(f.name)]
     else [])
    + PrintInner(lex, f.op, f.filters)
    + (if f.name != "" && f.op != Unspecified then [AS, lex(f.name)] else [])
  }

  /** Inner filters with the operation between them. */
  function PrintInner(lex: Lexer, op: Operation, fs: seq<Filter>): seq<Token>
    decreases fs, 0
  {
    if fs == [] then []
    else if |fs| == 1 then PrintFilter(lex, fs[0])
    else PrintInner(lex, op, fs[..|fs| - 1]) + [OpToken(op)] + PrintFilter(lex, fs[|fs| - 1])
  }

  function PrintReplicas(lex: Lexer, rs: seq<Replica>): seq<Token> {
    if rs == [] then [] else PrintReplica(lex, rs[0]) + PrintReplicas(lex, rs[1..])
  }

  function PrintSelectors(lex: Lexer, ss: seq<Selector>): seq<Token> {
    if ss == [] then [] else PrintSelector(lex, ss[0]) + PrintSelectors(lex, ss[1..])
  }

  function PrintFilters(lex: Lexer, fs: seq<Filter>): seq<Token> {
    if fs == [] then [] else [FILTER] + PrintFilter(lex, fs[0]) + PrintFilters(lex, fs[1..])
  }

  function Print(lex: Lexer, p: Policy): seq<Token> {
    PrintReplicas(lex, p.replicas)
    + ((if p.backupFactor > 0 then [CBF, lex(Format(p.backupFactor))] else [])
       + (PrintSelectors(lex, p.selectors) + PrintFilters(lex, p.filters)))
  }

  method WriteReplicas(lex: Lexer, rs: seq<Replica>) returns (w: seq<Token>)
    ensures w == PrintReplicas(lex, rs)
  {
    w := [];
    for i := 0 to |rs|
      invariant w + PrintReplicas(lex, rs[i..]) == PrintReplicas(lex, rs)
    {
      assert rs[i..][1..] == rs[i + 1..];
      w := w + PrintReplica(lex, rs[i]);
    }
  }

  method WriteSelectors(lex: Lexer, ss: seq<Selector>) returns (w: seq<Token>)
    ensures w == PrintSelectors(lex, ss)
  {
    w := [];
    for i := 0 to |ss|
      invariant w + PrintSelectors(lex, ss[i..]) == PrintSelectors(lex, ss)
    {
      assert ss[i..][1..] == ss[i + 1..];
      w := w + PrintSelector(lex, ss[i]);
    }
  }

  method WriteFilters(lex: Lexer, fs: seq<Filter>) returns (w: seq<Token>)
    ensures w == PrintFilters(lex, fs)
  {
    w := [];
    for i := 0 to |fs|
      invariant w + PrintFilters(lex, fs[i..]) == PrintFilters(lex, fs)
    {
      assert fs[i..][1..] == fs[i + 1..];
      w := w + ([FILTER] + PrintFilter(lex, fs[i]));
    }
  }

  /** Writes a policy: replicas, backup factor if set, selectors and filters. */
  method WriteStringTo(lex: Lexer, p: Policy) returns (w: seq<Token>)
    ensures w == Print(lex, p)
  {
    var replicas := WriteReplicas(lex, p.replicas);
    var cbf := [];
    if p.backupFactor > 0 {
      cbf := [CBF, lex(Format(p.backupFactor))];
    }
    var selectors := WriteSelectors(lex, p.selectors);
    var filters := WriteFilters(lex, p.filters);
    w := replicas + (cbf + (selectors + filters));
  }

  // ---- Parser ----

  datatype Parsed<T> = Fail | Got(value: T, rest: seq<Token>)

  datatype Expr = Reference(name: string) | Comparison(key: string, op: Operation, value: string)

  /** Parse tree of a filter expression. */
  datatype Tree = Leaf(expr: Expr) | Inner(tree: Tree) | Binary(op: Operation, left: Tree, right: Tree)

  predicate At(ts: seq<Token>, t: Token) {
    ts != [] && ts[0] == t
  }

  function ParseExpr(ts: seq<Token>): (r: Parsed<Tree>)
    ensures r.Got? ==> |r.rest| < |ts|
  {
    if ts == [] then Fail
    else if ts[0] == AT then
      if |ts| >= 2 && IdentText(ts[1]).Some? then Got(Leaf(Reference(IdentText(ts[1]).value)), ts[2..]) else Fail
    else if |ts| >= 3 && IdentText(ts[0]).Some? && ts[1].SIMPLE_OP? && ValueText(ts[2]).Some?
      then Got(Leaf(Comparison(IdentText(ts[0]).value, ts[1].op, ValueText(ts[2]).value)), ts[3..])
    else Fail
  }

  /** Precedence climbing: an expression whose operators bind at least as tightly as `prec`. */
  function ParseFilterExpr(ts: seq<Token>, prec: nat): (r: Parsed<Tree>)
    ensures r.Got? ==> |r.rest| < |ts|
    decreases |ts|, 2
  {
    var first := ParsePrimary(ts);
    if first == Fail then Fail else ParseRest(first.value, first.rest, prec)
  }

  function ParsePrimary(ts: seq<Token>): (r: Parsed<Tree>)
    ensures r.Got? ==> |r.rest| < |ts|
    decreases |ts|, 1
  {
    if At(ts, L_PAREN) then
      var inner := ParseFilterExpr(ts[1..], 0);
      if inner.Got? && At(inner.rest, R_PAREN) then Got(Inner(inner.value), inner.rest[1..]) else Fail
    else ParseExpr(ts)
  }

  function ParseRest(left: Tree, ts: seq<Token>, prec: nat): (r: Parsed<Tree>)
    ensures r.Got? ==> |r.rest| <= |ts|
    decreases |ts|, 3
  {
    if At(ts, AND_OP) && 4 >= prec then
      var right := ParseFilterExpr(ts[1..], 5);
      if right == Fail then Fail else ParseRest(Binary(AND, left, right.value), right.rest, prec)
    else if At(ts, OR_OP) && 3 >= prec then
      var right := ParseFilterExpr(ts[1..], 4);
      if right == Fail then Fail else ParseRest(Binary(OR, left, right.value), right.rest, prec)
    else Got(left, ts)
  }

  /** The visitor: nested nodes of the same operation on the left become one filter of any arity. */
  function Visit(t: Tree): Filter {
    match t
    case Leaf(Reference(name)) => Filter(name, "", Unspecified, "", [])
    case Leaf(Comparison(key, op, value)) => Filter("", key, op, value, [])
    case Inner(tree) => Visit(tree)
    case Binary(op, left, right) =>
      var f1, f2 := Visit(left), Visit(right);
      if f1.op == op then Filter("", "", op, "", f1.filters + [f2]) else Filter("", "", op, "", [f1, f2])
  }

  function ParseNumber(ts: seq<Token>): (r: Parsed<nat>)
    ensures r.Got? ==> |r.rest| < |ts|
  {
    if ts != [] && ts[0].NUMBER1? && ParseUint(ts[0].text, 32).Some? then Got(ParseUint(ts[0].text, 32).value, ts[1..])
    else Fail
  }

  function ParseReplica(ts: seq<Token>): (r: Parsed<Replica>)
    ensures r.Got? ==> |r.rest| < |ts|
  {
    if !At(ts, REP) then Fail
    else
      var count := ParseNumber(ts[1..]);
      if count == Fail then Fail
      else if !At(count.rest, IN) then Got(Replica(count.value, ""), count.rest)
      else if |count.rest| < 2 || IdentText(count.rest[1]) == None then Fail
      else Got(Replica(count.value, IdentText(count.rest[1]).value), count.rest[2..])
  }

  function ParseReplicas(ts: seq<Token>): (r: Parsed<seq<Replica>>)
    ensures r.Got? ==> |r.rest| <= |ts|
    decreases |ts|
  {
    if !At(ts, REP) then Got([], ts)
    else
      var first := ParseReplica(ts);
      if first == Fail then Fail
      else
        var more := ParseReplicas(first.rest);
        if more == Fail then Fail else Got([first.value] + more.value, more.rest)
  }

  function ParseClause(ts: seq<Token>): (r: Parsed<Clause>)
    ensures r.Got? && |r.rest| <= |ts|
  {
    if At(ts, SAME) then Got(Same, ts[1..]) else if At(ts, DISTINCT) then Got(Distinct, ts[1..]) else Got(NoClause, ts)
  }

  /** The optional bucket part of a selector. */
  function ParseBucket(ts: seq<Token>): (r: Parsed<(Clause, string)>)
    ensures r.Got? ==> |r.rest| <= |ts|
  {
    if !At(ts, IN) then Got((NoClause, ""), ts)
    else
      var clause := ParseClause(ts[1..]);
      if clause.rest != [] && IdentText(clause.rest[0]).Some?
      then Got((clause.value, IdentText(clause.rest[0]).value), clause.rest[1..])
      else Fail
  }

  function ParseFrom(ts: seq<Token>): (r: Parsed<string>)
    ensures r.Got? ==> |r.rest| < |ts|
  {
    if !At(ts, FROM) || |ts| < 2 then Fail
    else if ts[1] == WILDCARD then Got(MAIN_FILTER, ts[2..])
    else if IdentText(ts[1]).Some? then Got(IdentText(ts[1]).value, ts[2..])
    else Fail
  }

  /** An optional name. */
  function ParseName(ts: seq<Token>): (r: Parsed<string>)
    ensures r.Got? ==> |r.rest| <= |ts|
  {
    if !At(ts, AS) then Got("", ts)
    else if |ts| >= 2 && IdentText(ts[1]).Some? then Got(IdentText(ts[1]).value, ts[2..])
    else Fail
  }

  function ParseSelector(ts: seq<Token>): (r: Parsed<Selector>)
    ensures r.Got? ==> |r.rest| < |ts|
  {
    if !At(ts, SELECT) then Fail
    else
      var count := ParseNumber(ts[1..]);
      if count == Fail then Fail
      else
        var bucket := ParseBucket(count.rest);
        if bucket == Fail then Fail
        else
          var filter := ParseFrom(bucket.rest);
          if filter == Fail then Fail
          else
            var name := ParseName(filter.rest);
            if name == Fail then Fail
            else Got(Selector(name.value, count.value, bucket.value.0, bucket.value.1, filter.value), name.rest)
  }

  function ParseSelectors(ts: seq<Token>): (r: Parsed<seq<Selector>>)
    ensures r.Got? ==> |r.rest| <= |ts|
    decreases |ts|
  {
    if !At(ts, SELECT) then Got([], ts)
    else
      var first := ParseSelector(ts);
      if first == Fail then Fail
      else
        var more := ParseSelectors(first.rest);
        if more == Fail then Fail else Got([first.value] + more.value, more.rest)
  }

  function ParseFilter(ts: seq<Token>): (r: Parsed<Filter>)
    ensures r.Got? ==> |r.rest| < |ts|
  {
    if !At(ts, FILTER) then Fail
    else
      var expr := ParseFilterExpr(ts[1..], 0);
      if expr == Fail || !At(expr.rest, AS) then Fail
      else if |expr.rest| < 2 || IdentText(expr.rest[1]) == None then Fail
      else Got(Visit(expr.value).(name := IdentText(expr.rest[1]).value), expr.rest[2..])
  }

  function ParseFilters(ts: seq<Token>): (r: Parsed<seq<Filter>>)
    ensures r.Got? ==> |r.rest| <= |ts|
    decreases |ts|
  {
    if !At(ts, FILTER) then Got([], ts)
    else
      var first := ParseFilter(ts);
      if first == Fail then Fail
      else
        var more := ParseFilters(first.rest);
        if more == Fail then Fail else Got([first.value] + more.value, more.rest)
  }

  /** An optional backup factor. */
  function ParseCBF(ts: seq<Token>): Parsed<nat> {
    if !At(ts, CBF) then Got(0, ts) else ParseNumber(ts[1..])
  }

  function Parse(ts: seq<Token>): Option<Policy> {
    var replicas := ParseReplicas(ts);
    if replicas == Fail || replicas.value == [] then None
    else
      var cbf := ParseCBF(replicas.rest);
      if cbf == Fail then None
      else
        var selectors := ParseSelectors(cbf.rest);
        if selectors == Fail then None
        else
          var filters := ParseFilters(selectors.rest);
          if filters == Fail || filters.rest != [] then None
          else Some(Policy(replicas.value, cbf.value, selectors.value, filters.value))
  }
}
