/** What comparisons with numbers and texts say about a node, in terms of the numbers and texts themselves. */
module FilterMeaning {
  import opened Common
  import opened Netmap
  import opened Filters
  import opened PolicyLanguage

  /** The numbers a comparison can hold: 64 bits without sign. */
  const LIMIT: nat := 18446744073709551616

  lemma {:induction false} Power2Adds(m: nat, n: nat)
    ensures Power2(m + n) == Power2(m) * Power2(n)
  {
    if m > 0 {
      Power2Adds(m - 1, n);
    }
  }

  lemma Bits()
    ensures Power2(64) == LIMIT && Power2(32) == 4294967296
  {
    assert Power2(8) == 256;
    Power2Adds(8, 8);
    Power2Adds(16, 16);
    Power2Adds(32, 32);
  }

  /** A comparison of attribute `key` with `value`, as it stands at the top level or inside a connective. */
  function Comparing(name: string, key: string, op: Operation, value: string): Filter {
    Filter(name, key, op, value, [])
  }

  /** A printed number parses to itself exactly when it has at most 64 bits. */
  lemma PrintedParses(n: nat)
    ensures ParseUint(Format(n), 64) == if n < LIMIT then Some(n) else None
  {
    Bits();
    FormatReadsBack(n);
  }

  /** Numeric comparisons compare the numbers: on a node whose attribute is `n`, a filter against `v` matches
      if and only if `n` and `v` are in the relation its operation is named after. */
  lemma NumbersCompare(fs: seq<Filter>, filters: map<string, Filter>, seen: set<string>, name: string, key: string, n: nat, v: nat, b: Node)
    requires n < LIMIT && v < LIMIT && key in b.attributes && b.attributes[key] == Format(n)
    ensures Means(fs, Comparing(name, key, GT, Format(v)), b) <==> n > v
    ensures Means(fs, Comparing(name, key, GE, Format(v)), b) <==> n >= v
    ensures Means(fs, Comparing(name, key, LT, Format(v)), b) <==> n < v
    ensures Means(fs, Comparing(name, key, LE, Format(v)), b) <==> n <= v
    ensures Walk(filters, Comparing(name, key, GT, Format(v)), b, seen) == Some(n > v)
    ensures Walk(filters, Comparing(name, key, GE, Format(v)), b, seen) == Some(n >= v)
    ensures Walk(filters, Comparing(name, key, LT, Format(v)), b, seen) == Some(n < v)
    ensures Walk(filters, Comparing(name, key, LE, Format(v)), b, seen) == Some(n <= v)
  {
    PrintedParses(n);
    PrintedParses(v);
    FormatReadsBack(n);
  }

  /** A node without price or capacity counts as one with zero of it. */
  lemma AbsentPriceIsZero(fs: seq<Filter>, name: string, key: string, v: nat, b: Node)
    requires key in {"Price", "Capacity"} && key !in b.attributes && v < LIMIT
    ensures !Means(fs, Comparing(name, key, GT, Format(v)), b)
    ensures Means(fs, Comparing(name, key, GE, Format(v)), b) <==> v == 0
    ensures Means(fs, Comparing(name, key, LT, Format(v)), b) <==> v > 0
    ensures Means(fs, Comparing(name, key, LE, Format(v)), b)
  {
    PrintedParses(v);
  }

  /** Empty, with something that is no digit, or too large. */
  ghost predicate NoNumber(text: string) {
    || text == ""
    || (exists i :: 0 <= i < |text| && !('0' <= text[i] <= '9'))
    || exists n: nat :: n >= LIMIT && text == Format(n)
  }

  lemma NoNumberFails(text: string)
    requires NoNumber(text)
    ensures ParseUint(text, 64) == None
  {
    if n: nat :| n >= LIMIT && text == Format(n) {
      PrintedParses(n);
    } else if i :| 0 <= i < |text| && !('0' <= text[i] <= '9') {
      assert !IsDigit(text[i]);
    }
  }

  /** On any other attribute that is absent or no number of at most 64 bits, no numeric comparison matches. */
  lemma NoNumberNoMatch(fs: seq<Filter>, name: string, key: string, op: Operation, value: string, b: Node)
    requires op in {GT, GE, LT, LE} && key !in {"Price", "Capacity"} && (key in b.attributes ==> NoNumber(b.attributes[key]))
    ensures !Means(fs, Comparing(name, key, op, value), b)
  {
    NoNumberFails(if key in b.attributes then b.attributes[key] else "");
  }

  /** EQ and NE compare the texts, an absent attribute being the empty one. */
  lemma TextsCompare(fs: seq<Filter>, filters: map<string, Filter>, seen: set<string>, name: string, key: string, value: string, b: Node)
    ensures var same := if key in b.attributes then b.attributes[key] == value else value == "";
            && (Means(fs, Comparing(name, key, EQ, value), b) <==> same)
            && (Means(fs, Comparing(name, key, NE, value), b) <==> !same)
            && Walk(filters, Comparing(name, key, EQ, value), b, seen) == Some(same)
            && Walk(filters, Comparing(name, key, NE, value), b, seen) == Some(!same)
  {
  }

  /** A numeric filter is accepted if and only if it compares with a number of at most 64 bits. */
  lemma NumericAcceptedIff(names: set<string>, name: string, key: string, op: Operation, v: nat)
    requires op in {GT, GE, LT, LE} && name != "" && name != "*"
    ensures Check(names, Comparing(name, key, op, Format(v)), true) == if v < LIMIT then None else Some(InvalidNumber)
  {
    PrintedParses(v);
  }
}
