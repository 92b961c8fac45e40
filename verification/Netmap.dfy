/** Network map and placement policy: the data, and numbers written in decimal. */
module Netmap {
  import opened Common

  datatype Operation = Unspecified | EQ | NE | GT | GE | LT | LE | OR | AND

  /** A filter: a comparison, a reference to a named filter, or a connective over inner filters. */
  datatype Filter = Filter(name: string, key: string, op: Operation, value: string, filters: seq<Filter>)

  datatype Clause = NoClause | Same | Distinct

  datatype Selector = Selector(name: string, count: nat, clause: Clause, attribute: string, filter: string)

  datatype Replica = Replica(count: nat, selector: string)

  datatype Policy = Policy(replicas: seq<Replica>, backupFactor: nat, selectors: seq<Selector>, filters: seq<Filter>)

  /** Name of the filter that passes every node. */
  const MAIN_FILTER := "*"

  /** A storage node: its public key and attributes. */
  datatype Node = Node(key: nat, attributes: map<string, string>)

  function Attribute(b: Node, key: string): string {
    if key in b.attributes then b.attributes[key] else ""
  }

  predicate Numeric(op: Operation) {
    op in {GT, GE, LT, LE}
  }

  predicate Connective(op: Operation) {
    op == AND || op == OR
  }

  predicate IsDigit(c: char) {
    '0' <= c <= '9'
  }

  function DigitValue(c: char): nat
    requires IsDigit(c)
  {
    c as nat - '0' as nat
  }

  /** Value of a string of digits. */
  function Digits(s: string): nat
    requires forall i :: 0 <= i < |s| ==> IsDigit(s[i])
  {
    if s == "" then 0 else 10 * Digits(s[..|s| - 1]) + DigitValue(s[|s| - 1])
  }

  /** Decimal numbers of at most `bits` bits; everything else does not parse. */
  function ParseUint(s: string, bits: nat): Option<nat> {
    if s != "" && (forall i :: 0 <= i < |s| ==> IsDigit(s[i])) && Digits(s) < Power2(bits) then Some(Digits(s)) else None
  }

  function Power2(n: nat): nat {
    if n == 0 then 1 else 2 * Power2(n - 1)
  }

  const PRICE := "Price"
  const CAPACITY := "Capacity"

  /** Price and capacity of a registered node are absent or numbers. */
  predicate Registered(b: Node) {
    forall key :: key in {PRICE, CAPACITY} && Attribute(b, key) != "" ==> ParseUint(Attribute(b, key), 64).Some?
  }

  /** Value a numeric comparison looks at; price and capacity default to zero. */
  function NumericAttribute(b: Node, key: string): Option<nat> {
    if key in {PRICE, CAPACITY} && Attribute(b, key) == "" then Some(0) else ParseUint(Attribute(b, key), 64)
  }
}
