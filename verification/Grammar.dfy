/** Filter expressions with parentheses: the parser accepts exactly the words of the expressions whose shape
    respects the precedence of AND over OR, and returns the expression they are the words of. */
module Grammar {
  import opened Common
  import opened Netmap
  import opened Filters
  import opened PolicyLanguage
  import opened PolicyRoundTrip
  import opened PolicyExact
  import V = VisitorMeaning

  // ---- Expressions and their words ----

  /** A reference or a comparison whose texts are words of the language. */
  predicate Simple(lex: Lexer, e: Expr) {
    match e
    case Reference(name) => IsIdent(lex, name)
    case Comparison(key, op, value) => op !in {Unspecified, AND, OR} && IsIdent(lex, key) && IsValue(lex, value)
  }

  /** A simple expression, or any expression in parentheses. */
  predicate Atom(lex: Lexer, t: Tree)
    decreases t, 0
  {
    match t
    case Leaf(e) => Simple(lex, e)
    case Inner(u) => Expression(lex, u)
    case Binary(_, _, _) => false
  }

  /** Atoms joined by AND, grouped to the left. */
  predicate Term(lex: Lexer, t: Tree)
    decreases t, 1
  {
    Atom(lex, t) || (t.Binary? && t.op == AND && Term(lex, t.left) && Atom(lex, t.right))
  }

  /** Terms joined by OR, grouped to the left. */
  predicate Expression(lex: Lexer, t: Tree)
    decreases t, 2
  {
    Term(lex, t) || (t.Binary? && t.op == OR && Expression(lex, t.left) && Term(lex, t.right))
  }

  function ExprWords(lex: Lexer, e: Expr): seq<Token> {
    match e
    case Reference(name) => [AT, lex(name)]
    case Comparison(key, op, value) => [lex(key), SIMPLE_OP(op), lex(value)]
  }

  function Words(lex: Lexer, t: Tree): seq<Token> {
    match t
    case Leaf(e) => ExprWords(lex, e)
    case Inner(u) => [L_PAREN] + Words(lex, u) + [R_PAREN]
    case Binary(op, left, right) => Words(lex, left) + [if op == AND then AND_OP else OR_OP] + Words(lex, right)
  }

  /** No operator follows. */
  predicate Ends(rest: seq<Token>) {
    !At(rest, AND_OP) && !At(rest, OR_OP)
  }

  // ---- Words are read as their expression ----

  lemma SimpleReads(lex: Lexer, e: Expr, rest: seq<Token>)
    requires Readable(lex) && Simple(lex, e)
    ensures ParsePrimary(ExprWords(lex, e) + rest) == Got(Leaf(e), rest)
  {
    match e
    case Reference(name) => ReferenceTokens(lex(name), name, rest);
    case Comparison(key, op, value) => ComparisonTokens(lex(key), op, lex(value), key, value, rest);
  }

  /** What follows an opening parenthesis is read as a whole expression. */
  lemma ParenthesesRead(words: seq<Token>, t: Tree, rest: seq<Token>)
    requires ParseFilterExpr(words + ([R_PAREN] + rest), 0) == Got(t, [R_PAREN] + rest)
    ensures ParsePrimary([L_PAREN] + words + [R_PAREN] + rest) == Got(Inner(t), rest)
  {
    var ts := [L_PAREN] + words + [R_PAREN] + rest;
    assert ts[1..] == words + ([R_PAREN] + rest);
    assert ([R_PAREN] + rest)[1..] == rest;
  }

  lemma {:induction false} AtomReads(lex: Lexer, t: Tree, rest: seq<Token>)
    requires Readable(lex) && Atom(lex, t)
    ensures ParsePrimary(Words(lex, t) + rest) == Got(t, rest)
    decreases t, 0
  {
    match t
    case Leaf(e) => SimpleReads(lex, e, rest);
    case Inner(u) =>
      ExpressionReads(lex, u, [R_PAREN] + rest, 0);
      ParenthesesRead(Words(lex, u), u, rest);
  }

  lemma AtomFirst(words: seq<Token>, t: Tree, rest: seq<Token>, prec: nat)
    requires ParsePrimary(words + rest) == Got(t, rest)
    ensures ParseFilterExpr(words + rest, prec) == ParseRest(t, rest, prec)
  {
  }

  lemma {:induction false} TermReads(lex: Lexer, t: Tree, rest: seq<Token>, prec: nat)
    requires Readable(lex) && Term(lex, t) && prec <= 4
    ensures ParseFilterExpr(Words(lex, t) + rest, prec) == ParseRest(t, rest, prec)
    decreases t, 1
  {
    if Atom(lex, t) {
      AtomReads(lex, t, rest);
      AtomFirst(Words(lex, t), t, rest, prec);
    } else {
      var right := Words(lex, t.right);
      TermReads(lex, t.left, [AND_OP] + (right + rest), prec);
      AtomReads(lex, t.right, rest);
      AndStep(Words(lex, t.left), right, rest, prec, t.left, t.right);
    }
  }

  lemma {:induction false} ExpressionReads(lex: Lexer, t: Tree, rest: seq<Token>, prec: nat)
    requires Readable(lex) && Expression(lex, t) && prec <= 3 && !At(rest, AND_OP)
    ensures ParseFilterExpr(Words(lex, t) + rest, prec) == ParseRest(t, rest, prec)
    decreases t, 2
  {
    if Term(lex, t) {
      TermReads(lex, t, rest, prec);
    } else {
      var right := Words(lex, t.right);
      ExpressionReads(lex, t.left, [OR_OP] + (right + rest), prec);
      TermReads(lex, t.right, rest, 4);
      OrStep(Words(lex, t.left), right, rest, prec, t.left, t.right);
    }
  }

  // ---- Whatever is read is the words of the expression returned ----

  /** Tokens as the lexer makes them, parentheses included. */
  ghost predicate AllGenuine(lex: Lexer, ts: seq<Token>) {
    forall i :: 0 <= i < |ts| ==> Genuine(lex, ts[i])
  }

  /** The tokens are the words of the expression and what is left of them. */
  ghost predicate ReadFrom(lex: Lexer, ts: seq<Token>, t: Tree, rest: seq<Token>) {
    ts == Words(lex, t) + rest && AllGenuine(lex, rest)
  }

  lemma IdentToken(lex: Lexer, t: Token)
    requires Faithful(lex) && Genuine(lex, t) && IdentText(t).Some?
    ensures lex(IdentText(t).value) == t
  {
  }

  lemma ValueToken(lex: Lexer, t: Token)
    requires Faithful(lex) && Genuine(lex, t) && ValueText(t).Some?
    ensures lex(ValueText(t).value) == t
  {
  }

  lemma GenuineSuffix(lex: Lexer, ts: seq<Token>, k: nat)
    requires AllGenuine(lex, ts) && k <= |ts|
    ensures AllGenuine(lex, ts[k..])
  {
  }

  lemma ReferenceRead(lex: Lexer, ts: seq<Token>)
    requires Faithful(lex) && AllGenuine(lex, ts) && |ts| >= 2 && ts[0] == AT && IdentText(ts[1]).Some?
    ensures var t := Leaf(Reference(IdentText(ts[1]).value)); Atom(lex, t) && ReadFrom(lex, ts, t, ts[2..])
  {
    assert Genuine(lex, ts[1]);
    IdentToken(lex, ts[1]);
    GenuineSuffix(lex, ts, 2);
    assert ts == [AT, ts[1]] + ts[2..];
  }

  lemma ComparisonRead(lex: Lexer, ts: seq<Token>)
    requires Faithful(lex) && AllGenuine(lex, ts) && |ts| >= 3
    requires IdentText(ts[0]).Some? && ts[1].SIMPLE_OP? && ValueText(ts[2]).Some?
    ensures var t := Leaf(Comparison(IdentText(ts[0]).value, ts[1].op, ValueText(ts[2]).value));
            Atom(lex, t) && ReadFrom(lex, ts, t, ts[3..])
  {
    assert Genuine(lex, ts[0]) && Genuine(lex, ts[1]) && Genuine(lex, ts[2]);
    IdentToken(lex, ts[0]);
    ValueToken(lex, ts[2]);
    GenuineSuffix(lex, ts, 3);
    assert ts == [ts[0], ts[1], ts[2]] + ts[3..];
  }

  lemma SimpleRead(lex: Lexer, ts: seq<Token>)
    requires Faithful(lex) && AllGenuine(lex, ts) && ParseExpr(ts).Got?
    ensures var r := ParseExpr(ts); Atom(lex, r.value) && ReadFrom(lex, ts, r.value, r.rest)
  {
    if ts[0] == AT {
      ReferenceRead(lex, ts);
    } else {
      ComparisonRead(lex, ts);
    }
  }

  /** On the right of an AND stands one atom. */
  lemma AtomAtFive(ts: seq<Token>)
    ensures ParseFilterExpr(ts, 5) == ParsePrimary(ts)
  {
    var first := ParsePrimary(ts);
    if first.Got? {
      assert ParseRest(first.value, first.rest, 5) == first;
    }
  }

  lemma WrappedWords(lex: Lexer, ts: seq<Token>, u: Tree, inner: seq<Token>)
    requires At(ts, L_PAREN) && ts[1..] == Words(lex, u) + inner && At(inner, R_PAREN)
    ensures ts == Words(lex, Inner(u)) + inner[1..]
  {
    assert ts == [L_PAREN] + ts[1..];
    assert inner == [R_PAREN] + inner[1..];
  }

  lemma {:induction false} AtomRead(lex: Lexer, ts: seq<Token>)
    requires Faithful(lex) && AllGenuine(lex, ts) && ParsePrimary(ts).Got?
    ensures var r := ParsePrimary(ts); Atom(lex, r.value) && ReadFrom(lex, ts, r.value, r.rest)
    decreases |ts|, 0
  {
    if At(ts, L_PAREN) {
      GenuineSuffix(lex, ts, 1);
      ExpressionRead(lex, ts[1..]);
      var inner := ParseFilterExpr(ts[1..], 0);
      GenuineSuffix(lex, inner.rest, 1);
      WrappedWords(lex, ts, inner.value, inner.rest);
    } else {
      SimpleRead(lex, ts);
    }
  }

  lemma JoinedWords(lex: Lexer, before: seq<Token>, ts: seq<Token>, op: Operation, left: Tree, right: Tree, rest: seq<Token>)
    requires Connective(op) && At(ts, if op == AND then AND_OP else OR_OP) && ts[1..] == Words(lex, right) + rest
    requires before == Words(lex, left) + ts
    ensures before == Words(lex, Binary(op, left, right)) + rest
  {
    var token := if op == AND then AND_OP else OR_OP;
    assert ts == [token] + ts[1..];
    Join(Words(lex, left), token, Words(lex, right), rest);
  }

  /** Behind an atom or a term, the parser at the precedence of AND reads a term. */
  lemma {:induction false} TermRestRead(lex: Lexer, before: seq<Token>, left: Tree, ts: seq<Token>)
    requires Faithful(lex) && Term(lex, left) && ReadFrom(lex, before, left, ts) && ParseRest(left, ts, 4).Got?
    ensures var r := ParseRest(left, ts, 4); Term(lex, r.value) && ReadFrom(lex, before, r.value, r.rest) && !At(r.rest, AND_OP)
    decreases |ts|, 2
  {
    if At(ts, AND_OP) {
      GenuineSuffix(lex, ts, 1);
      var right := ParseFilterExpr(ts[1..], 5);
      AtomAtFive(ts[1..]);
      AtomRead(lex, ts[1..]);
      JoinedWords(lex, before, ts, AND, left, right.value, right.rest);
      TermRestRead(lex, before, Binary(AND, left, right.value), right.rest);
    }
  }

  lemma {:induction false} TermRead(lex: Lexer, ts: seq<Token>)
    requires Faithful(lex) && AllGenuine(lex, ts) && ParseFilterExpr(ts, 4).Got?
    ensures var r := ParseFilterExpr(ts, 4); Term(lex, r.value) && ReadFrom(lex, ts, r.value, r.rest) && !At(r.rest, AND_OP)
    decreases |ts|, 1
  {
    AtomRead(lex, ts);
    var first := ParsePrimary(ts);
    TermRestRead(lex, ts, first.value, first.rest);
  }

  lemma {:induction false} ExpressionRestRead(lex: Lexer, before: seq<Token>, left: Tree, ts: seq<Token>)
    requires Faithful(lex) && ReadFrom(lex, before, left, ts) && ParseRest(left, ts, 0).Got?
    requires Term(lex, left) || (Expression(lex, left) && !At(ts, AND_OP))
    ensures var r := ParseRest(left, ts, 0); Expression(lex, r.value) && ReadFrom(lex, before, r.value, r.rest) && Ends(r.rest)
    decreases |ts|, 2
  {
    if At(ts, AND_OP) {
      GenuineSuffix(lex, ts, 1);
      var right := ParseFilterExpr(ts[1..], 5);
      AtomAtFive(ts[1..]);
      AtomRead(lex, ts[1..]);
      JoinedWords(lex, before, ts, AND, left, right.value, right.rest);
      ExpressionRestRead(lex, before, Binary(AND, left, right.value), right.rest);
    } else if At(ts, OR_OP) {
      GenuineSuffix(lex, ts, 1);
      var right := ParseFilterExpr(ts[1..], 4);
      TermRead(lex, ts[1..]);
      JoinedWords(lex, before, ts, OR, left, right.value, right.rest);
      ExpressionRestRead(lex, before, Binary(OR, left, right.value), right.rest);
    }
  }

  lemma {:induction false} ExpressionRead(lex: Lexer, ts: seq<Token>)
    requires Faithful(lex) && AllGenuine(lex, ts) && ParseFilterExpr(ts, 0).Got?
    ensures var r := ParseFilterExpr(ts, 0); Expression(lex, r.value) && ReadFrom(lex, ts, r.value, r.rest) && Ends(r.rest)
    decreases |ts|, 3
  {
    AtomRead(lex, ts);
    var first := ParsePrimary(ts);
    ExpressionRestRead(lex, ts, first.value, first.rest);
  }

  // ---- The grammar, exactly ----

  /** The parser returns an expression and a rest if and only if the tokens are the words of that expression
      followed by that rest, and the rest does not go on with an operator. */
  lemma ParsesIffWords(lex: Lexer, ts: seq<Token>, t: Tree, rest: seq<Token>)
    requires Readable(lex) && Faithful(lex) && AllGenuine(lex, ts)
    ensures ParseFilterExpr(ts, 0) == Got(t, rest) <==> Expression(lex, t) && ts == Words(lex, t) + rest && Ends(rest)
  {
    if ParseFilterExpr(ts, 0) == Got(t, rest) {
      ExpressionRead(lex, ts);
    }
    if Expression(lex, t) && ts == Words(lex, t) + rest && Ends(rest) {
      ExpressionReads(lex, t, rest, 0);
    }
  }

  /** The same for the words of the query language. */
  lemma QueryParsesIffWords(ts: seq<Token>, t: Tree, rest: seq<Token>)
    requires AllGenuine(Lex, ts)
    ensures ParseFilterExpr(ts, 0) == Got(t, rest) <==> Expression(Lex, t) && ts == Words(Lex, t) + rest && Ends(rest)
  {
    QueryWordsReadable();
    QueryWordsFaithful();
    ParsesIffWords(Lex, ts, t, rest);
  }

  /** No two expressions have the same words. */
  lemma WordsUnambiguous(lex: Lexer, t: Tree, u: Tree)
    requires Readable(lex) && Expression(lex, t) && Expression(lex, u) && Words(lex, t) == Words(lex, u)
    ensures t == u
  {
    ExpressionReads(lex, t, [], 0);
    ExpressionReads(lex, u, [], 0);
  }

  lemma {:induction false} AtomWellFormed(lex: Lexer, t: Tree)
    requires Readable(lex) && Atom(lex, t)
    ensures V.WellFormed(t)
    decreases t, 0
  {
    if t.Inner? {
      ExpressionWellFormed(lex, t.tree);
    }
  }

  lemma {:induction false} TermWellFormed(lex: Lexer, t: Tree)
    requires Readable(lex) && Term(lex, t)
    ensures V.WellFormed(t)
    decreases t, 1
  {
    if Atom(lex, t) {
      AtomWellFormed(lex, t);
    } else {
      TermWellFormed(lex, t.left);
      AtomWellFormed(lex, t.right);
    }
  }

  /** Every expression the parser returns is one whose meaning the visitor keeps. */
  lemma {:induction false} ExpressionWellFormed(lex: Lexer, t: Tree)
    requires Readable(lex) && Expression(lex, t)
    ensures V.WellFormed(t)
    decreases t, 2
  {
    if Term(lex, t) {
      TermWellFormed(lex, t);
    } else {
      ExpressionWellFormed(lex, t.left);
      TermWellFormed(lex, t.right);
    }
  }

  /** A filter statement with any expression, parenthesised or not: it is read, and the filter it is turned
      into matches a node if and only if the expression does, unless it is a bare reference. */
  lemma StatementMatches(lex: Lexer, fs: seq<Filter>, t: Tree, name: string, rest: seq<Token>, b: Node)
    requires Readable(lex) && Expression(lex, t) && IsIdent(lex, name) && name != "*"
    ensures ParseFilter([FILTER] + (Words(lex, t) + [AS, lex(name)]) + rest) == Got(Visit(t).(name := name), rest)
    ensures !V.Bare(t) ==> Means(fs, Visit(t).(name := name), b) == V.TreeMeans(fs, t, b)
  {
    NamedFilter(lex, Filter(name, "", Unspecified, "", []));
    ExpressionReads(lex, t, [AS, lex(name)] + rest, 0);
    StatementTokens(Words(lex, t), t, lex(name), name, rest);
    ExpressionWellFormed(lex, t);
    V.AcceptedStatementKeepsMeaning(fs, t, name, b);
  }
}
