/** Weighted sampling of pool clients by Vose's alias method, over exact reals. */
module Sampler {

  /** Sum of the elements of `s`. */
  function Sum(s: seq<real>): real {
    if s == [] then 0.0 else Sum(s[..|s| - 1]) + s[|s| - 1]
  }

  /** One finished sampler: column `j` keeps its own index for draws below `prob[j]`
      and answers `alias[j]` for the others. */
  datatype Table = Table(prob: seq<real>, alias: seq<int>)

  ghost predicate WellFormed(t: Table) {
    && |t.prob| == |t.alias|
    && (forall j :: 0 <= j < |t.prob| ==> 0.0 <= t.prob[j] <= 1.0)
    && (forall j :: 0 <= j < |t.alias| ==> 0 <= t.alias[j] < |t.alias|)
  }

  /** What `Next` answers for the column `j` and the second draw `u`. */
  function Answer(t: Table, j: int, u: real): int
    requires |t.prob| == |t.alias| && 0 <= j < |t.prob|
  {
    if u < t.prob[j] then j else t.alias[j]
  }

  /** Length of the part of [0, 1) on which a column with threshold `p` and alias `a`, standing at
      index `j`, answers `i`. */
  function Share(p: real, a: int, j: int, i: int): real {
    (if j == i then p else 0.0) + (if a == i then 1.0 - p else 0.0)
  }

  /** The draws for which a column answers `i` are an interval, and its length is the share. */
  lemma ShareIsLength(t: Table, j: int, i: int) returns (from: real, to: real)
    requires WellFormed(t) && 0 <= j < |t.prob|
    ensures 0.0 <= from <= to <= 1.0 && to - from == Share(t.prob[j], t.alias[j], j, i)
    ensures forall u :: 0.0 <= u < 1.0 ==> (Answer(t, j, u) == i <==> from <= u < to)
  {
    from := if j == i then 0.0 else if t.alias[j] == i then t.prob[j] else 0.0;
    to := if t.alias[j] == i then 1.0 else if j == i then t.prob[j] else 0.0;
  }

  /** Total length, over the first `k` columns, of the draws answered with `i`.
      Column choice is uniform, so `i` is answered with probability `Mass(t, n, i) / n`. */
  function Mass(t: Table, k: nat, i: int): real
    requires |t.prob| == |t.alias| && k <= |t.prob|
  {
    if k == 0 then 0.0 else Mass(t, k - 1, i) + Share(t.prob[k - 1], t.alias[k - 1], k - 1, i)
  }

  /** `x` added up `n` times: the product, kept away from non-linear arithmetic. */
  ghost function Times(x: real, n: nat): real {
    if n == 0 then 0.0 else Times(x, n - 1) + x
  }

  lemma {:induction false} TimesIsProduct(x: real, n: nat)
    ensures Times(x, n) == x * n as real
  {
    if n > 0 {
      TimesIsProduct(x, n - 1);
    }
  }

  /** `p` is `w` scaled by `n`. */
  ghost predicate Scaled(w: seq<real>, n: nat, p: seq<real>) {
    |w| == |p| && forall j :: 0 <= j < |w| ==> p[j] == Times(w[j], n)
  }

  /** The table answers every index with the probability the weights give it: the mass of index `i`
      is `w[i]` times the number of columns. */
  ghost predicate Reproduces(t: Table, w: seq<real>)
    requires |t.prob| == |t.alias| == |w|
  {
    forall i :: 0 <= i < |w| ==> Mass(t, |w|, i) == Times(w[i], |w|)
  }

  /** Said with quotients: the share of all draws answered with `i` is the weight of `i`. */
  lemma ReproducedProbability(t: Table, w: seq<real>, i: int)
    requires |t.prob| == |t.alias| == |w| && 0 <= i < |w|
    requires Reproduces(t, w)
    ensures Mass(t, |w|, i) / |w| as real == w[i]
  {
    TimesIsProduct(w[i], |w|);
    QuotientOfProduct(Mass(t, |w|, i), w[i], |w| as real);
  }

  lemma QuotientOfProduct(m: real, x: real, y: real)
    requires y != 0.0 && m == x * y
    ensures m / y == x
  {
  }

  // ---- Sums ----

  lemma {:induction false} SumUpdate(s: seq<real>, k: nat, x: real)
    requires k < |s|
    ensures Sum(s[k := x]) == Sum(s) - s[k] + x
  {
    var m := |s| - 1;
    if k == m {
      assert s[k := x][..m] == s[..m];
    } else {
      assert s[k := x][..m] == s[..m][k := x];
      SumUpdate(s[..m], k, x);
    }
  }

  lemma {:induction false} SumTimes(w: seq<real>, n: nat, p: seq<real>)
    requires Scaled(w, n, p)
    ensures Sum(p) == Times(Sum(w), n)
  {
    if w == [] {
      TimesIsProduct(0.0, n);
    } else {
      var m := |w| - 1;
      SumTimes(w[..m], n, p[..m]);
      TimesAdds(Sum(w[..m]), w[m], n);
    }
  }

  lemma {:induction false} TimesAdds(x: real, y: real, n: nat)
    ensures Times(x + y, n) == Times(x, n) + Times(y, n)
  {
    if n > 0 {
      TimesAdds(x, y, n - 1);
    }
  }

  lemma {:induction false} SumNegated(s: seq<real>, t: seq<real>)
    requires |s| == |t| && forall i :: 0 <= i < |s| ==> t[i] == -s[i]
    ensures Sum(t) == -Sum(s)
  {
    if s != [] {
      SumNegated(s[..|s| - 1], t[..|s| - 1]);
    }
  }

  lemma {:induction false} SumConstant(n: nat, c: real)
    ensures Sum(seq(n, i => c)) == Times(c, n)
  {
    if n > 0 {
      assert seq(n, i => c)[..n - 1] == seq(n - 1, i => c);
      SumConstant(n - 1, c);
    }
  }

  lemma {:induction false} SumAdd(s: seq<real>, t: seq<real>, r: seq<real>)
    requires |s| == |t| == |r|
    requires forall i :: 0 <= i < |s| ==> r[i] == s[i] + t[i]
    ensures Sum(r) == Sum(s) + Sum(t)
  {
    if s != [] {
      var m := |s| - 1;
      SumAdd(s[..m], t[..m], r[..m]);
    }
  }

  lemma {:induction false} SumNonNegative(s: seq<real>)
    requires forall i :: 0 <= i < |s| ==> s[i] >= 0.0
    ensures Sum(s) >= 0.0
    ensures Sum(s) == 0.0 ==> forall i :: 0 <= i < |s| ==> s[i] == 0.0
  {
    if s != [] {
      SumNonNegative(s[..|s| - 1]);
      assert forall i :: 0 <= i < |s| - 1 ==> s[i] == s[..|s| - 1][i];
    }
  }

  // ---- Every table is a probability distribution ----

  /** Total length of each column is one: the answers of one column cover all draws once. */
  lemma {:induction false} ColumnTotal(p: real, a: int, j: int, n: nat)
    requires 0 <= j < n && 0 <= a < n
    ensures Sum(seq(n, i => Share(p, a, j, i))) == 1.0
  {
    var zero := seq(n, i => 0.0);
    SumConstant(n, 0.0);
    TimesIsProduct(0.0, n);
    var own := zero[j := p];
    var other := zero[a := 1.0 - p];
    SumUpdate(zero, j, p);
    SumUpdate(zero, a, 1.0 - p);
    SumAdd(own, other, seq(n, i => Share(p, a, j, i)));
  }

  lemma {:induction false} TotalMass(t: Table, k: nat)
    requires WellFormed(t) && k <= |t.prob|
    ensures Sum(seq(|t.prob|, i => Mass(t, k, i))) == k as real
  {
    var n := |t.prob|;
    var now := seq(n, i => Mass(t, k, i));
    if k == 0 {
      assert now == seq(n, i => 0.0);
      SumConstant(n, 0.0);
      TimesIsProduct(0.0, n);
    } else {
      var before := seq(n, i => Mass(t, k - 1, i));
      var column := seq(n, i => Share(t.prob[k - 1], t.alias[k - 1], k - 1, i));
      TotalMass(t, k - 1);
      ColumnTotal(t.prob[k - 1], t.alias[k - 1], k - 1, n);
      SumAdd(before, column, now);
    }
  }

  /** A table can only reproduce weights that sum to one. */
  lemma ReproducedWeightsAreNormalised(t: Table, w: seq<real>)
    requires WellFormed(t) && |t.prob| == |w| > 0
    requires Reproduces(t, w)
    ensures Sum(w) == 1.0
  {
    var n := |w|;
    var mass := seq(n, i => Mass(t, n, i));
    TotalMass(t, n);
    SumTimes(w, n, mass);
    UnitFactor(Sum(w), n);
  }

  lemma UnitFactor(x: real, n: nat)
    requires n > 0 && Times(x, n) == n as real
    ensures x == 1.0
  {
    TimesIsProduct(x, n);
  }

  // ---- Mass and the answers of Next ----

  /** A single column only ever adds to the mass of an index. */
  lemma {:induction false} MassAtLeastColumn(t: Table, k: nat, j: int, i: int)
    requires WellFormed(t) && k <= |t.prob|
    ensures Mass(t, k, i) >= 0.0
    ensures 0 <= j < k ==> Mass(t, k, i) >= Share(t.prob[j], t.alias[j], j, i) >= 0.0
  {
    if k > 0 {
      MassAtLeastColumn(t, k - 1, j, i);
    }
  }

  /** An index of weight zero is answered for no draw at all. */
  lemma ZeroWeightNeverAnswered(t: Table, w: seq<real>, j: int, u: real)
    requires WellFormed(t) && |t.prob| == |w| && Reproduces(t, w)
    requires 0 <= j < |w| && 0.0 <= u < 1.0
    ensures 0 <= Answer(t, j, u) < |w|
    ensures w[Answer(t, j, u)] != 0.0
  {
    var i := Answer(t, j, u);
    MassAtLeastColumn(t, |w|, j, i);
    TimesIsProduct(w[i], |w|);
  }

  // ---- Construction: what is settled and what is still to be spread ----

  /** Mass given to `i` by the finished columns among the first `k`. */
  ghost function Settled(t: Table, done: seq<bool>, k: nat, i: int): real
    requires |t.prob| == |t.alias| == |done| && k <= |done|
  {
    if k == 0 then 0.0
    else Settled(t, done, k - 1, i)
         + (if done[k - 1] then Share(t.prob[k - 1], t.alias[k - 1], k - 1, i) else 0.0)
  }

  /** Settled mass plus what an unfinished column still holds is the scaled weight `p0`. */
  ghost predicate Balanced(t: Table, done: seq<bool>, p: seq<real>, p0: seq<real>) {
    && |t.prob| == |t.alias| == |done| == |p| == |p0|
    && forall i :: 0 <= i < |p| ==> Settled(t, done, |p|, i) + (if done[i] then 0.0 else p[i]) == p0[i]
  }

  lemma {:induction false} SettleColumn(t: Table, done: seq<bool>, k: nat, l: nat, x: real, a: int, i: int)
    requires |t.prob| == |t.alias| == |done| && k <= |done|
    requires l < |done| && !done[l]
    ensures Settled(Table(t.prob[l := x], t.alias[l := a]), done[l := true], k, i)
            == Settled(t, done, k, i) + (if l < k then Share(x, a, l, i) else 0.0)
  {
    if k > 0 {
      SettleColumn(t, done, k - 1, l, x, a, i);
    }
  }

  /** Closing the small column `l` with the help of the large column `g` keeps the balance. */
  lemma PairKeepsBalance(t: Table, done: seq<bool>, p: seq<real>, p0: seq<real>, l: nat, g: nat)
    requires Balanced(t, done, p, p0)
    requires l < |p| && g < |p| && l != g && !done[l] && !done[g]
    ensures Balanced(Table(t.prob[l := p[l]], t.alias[l := g]), done[l := true], p[g := p[g] + p[l] - 1.0], p0)
  {
    forall i | 0 <= i < |p|
      ensures Settled(Table(t.prob[l := p[l]], t.alias[l := g]), done[l := true], |p|, i)
              == Settled(t, done, |p|, i) + Share(p[l], g, l, i)
    {
      SettleColumn(t, done, |p|, l, p[l], g, i);
    }
  }

  lemma {:induction false} NoneSettled(t: Table, done: seq<bool>, k: nat, i: int)
    requires |t.prob| == |t.alias| == |done| && k <= |done|
    requires forall j :: 0 <= j < |done| ==> !done[j]
    ensures Settled(t, done, k, i) == 0.0
  {
    if k > 0 {
      NoneSettled(t, done, k - 1, i);
    }
  }

  /** How far each unfinished column is from holding exactly one. */
  ghost function Excess(done: seq<bool>, p: seq<real>): (e: seq<real>)
    requires |done| == |p|
    ensures |e| == |p|
  {
    seq(|p|, i requires 0 <= i < |p| => if done[i] then 0.0 else p[i] - 1.0)
  }

  lemma ExcessAtStart(done: seq<bool>, w: seq<real>, p: seq<real>)
    requires |done| == |p| && Scaled(w, |w|, p)
    requires forall j :: 0 <= j < |done| ==> !done[j]
    ensures Sum(Excess(done, p)) == Times(Sum(w) - 1.0, |w|)
  {
    var n := |w|;
    SumConstant(n, -1.0);
    SumTimes(w, n, p);
    SumAdd(p, seq(n, i => -1.0), Excess(done, p));
    TimesAdds(Sum(w), -1.0, n);
  }

  lemma PairKeepsExcess(done: seq<bool>, p: seq<real>, l: nat, g: nat)
    requires |done| == |p| && l < |p| && g < |p| && l != g && !done[l] && !done[g]
    ensures Sum(Excess(done[l := true], p[g := p[g] + p[l] - 1.0])) == Sum(Excess(done, p))
  {
    var e := Excess(done, p);
    var e1 := e[l := 0.0];
    SumUpdate(e, l, 0.0);
    SumUpdate(e1, g, e1[g] + p[l] - 1.0);
    assert e1[g := e1[g] + p[l] - 1.0] == Excess(done[l := true], p[g := p[g] + p[l] - 1.0]);
  }

  /** When the total excess is zero and no unfinished column is short, all of them hold one. */
  lemma NoShortageMeansUnit(done: seq<bool>, p: seq<real>)
    requires |done| == |p| && Sum(Excess(done, p)) == 0.0
    requires forall i :: 0 <= i < |p| && !done[i] ==> p[i] >= 1.0
    ensures forall i :: 0 <= i < |p| && !done[i] ==> p[i] == 1.0
  {
    SumNonNegative(Excess(done, p));
    forall i | 0 <= i < |p| && !done[i] ensures p[i] == 1.0 {
      assert Excess(done, p)[i] == 0.0;
    }
  }

  /** When the total excess is zero, the unfinished columns cannot all be short. */
  lemma NotAllShort(done: seq<bool>, p: seq<real>, l: nat)
    requires |done| == |p| && Sum(Excess(done, p)) == 0.0
    requires l < |p| && !done[l] && p[l] < 1.0
    ensures exists i :: 0 <= i < |p| && !done[i] && p[i] >= 1.0
  {
    var e := Excess(done, p);
    var f := seq(|p|, i requires 0 <= i < |p| => -e[i]);
    SumNegated(e, f);
    assert f[l] > 0.0;
    if forall i :: 0 <= i < |p| ==> f[i] >= 0.0 {
      SumNonNegative(f);
    }
    var i :| 0 <= i < |p| && f[i] < 0.0;
    assert !done[i] && p[i] >= 1.0;
  }

  // ---- The steps of the construction ----

  /** The two work lists hold every unfinished column once: `small` those below one, `large` the others. */
  ghost predicate Queued(small: seq<int>, large: seq<int>, done: seq<bool>, p: seq<real>) {
    && |done| == |p|
    && (forall i :: multiset(small)[i] == if 0 <= i < |p| && !done[i] && p[i] < 1.0 then 1 else 0)
    && (forall i :: multiset(large)[i] == if 0 <= i < |p| && !done[i] && p[i] >= 1.0 then 1 else 0)
  }

  /** The last element of a work list is unfinished and occurs nowhere else. */
  lemma LastQueued(s: seq<int>)
    requires s != []
    ensures multiset(s) == multiset(s[..|s| - 1]) + multiset{s[|s| - 1]}
    ensures multiset(s)[s[|s| - 1]] > 0
  {
    assert s == s[..|s| - 1] + [s[|s| - 1]];
  }

  /** State of the construction: the table so far, the two work lists, the finished columns and
      what each column holds. */
  datatype Work = Work(t: Table, small: seq<int>, large: seq<int>, done: seq<bool>, p: seq<real>)

  /** Everything the pairing loop keeps. */
  ghost predicate Pairing(s: Work, p0: seq<real>, excess: real) {
    && WellFormed(s.t)
    && Queued(s.small, s.large, s.done, s.p)
    && Balanced(s.t, s.done, s.p, p0)
    && Sum(Excess(s.done, s.p)) == excess
    && (forall j :: 0 <= j < |s.p| ==> s.p[j] >= 0.0)
  }

  method Scale(weights: seq<real>) returns (p: array<real>)
    ensures fresh(p) && p.Length == |weights|
    ensures Scaled(weights, |weights|, p[..])
  {
    p := new real[|weights|](_ => 0.0);
    for i := 0 to |weights|
      invariant forall j :: 0 <= j < i ==> p[j] == Times(weights[j], |weights|)
    {
      TimesIsProduct(weights[i], |weights|);
      p[i] := weights[i] * |weights| as real;
    }
  }

  method Partition(p: array<real>) returns (small: seq<int>, large: seq<int>)
    ensures Queued(small, large, seq(p.Length, i => false), p[..])
  {
    small, large := [], [];
    for i := 0 to p.Length
      invariant forall j :: multiset(small)[j] == if 0 <= j < i && p[j] < 1.0 then 1 else 0
      invariant forall j :: multiset(large)[j] == if 0 <= j < i && p[j] >= 1.0 then 1 else 0
    {
      if p[i] < 1.0 {
        small := small + [i];
      } else {
        large := large + [i];
      }
    }
  }

  /** There is a small column to pair with a large one. */
  ghost predicate Pairable(s: Work) {
    && |s.t.prob| == |s.t.alias| == |s.done| == |s.p| && s.small != [] && s.large != []
    && var l, g := s.small[|s.small| - 1], s.large[|s.large| - 1];
       && 0 <= l < |s.p| && 0 <= g < |s.p| && l != g && !s.done[l] && !s.done[g] && s.p[l] < 1.0 <= s.p[g]
  }

  lemma QueuedPairable(s: Work)
    requires Queued(s.small, s.large, s.done, s.p) && s.small != [] && s.large != []
    requires |s.t.prob| == |s.t.alias| == |s.p|
    ensures Pairable(s)
  {
    LastQueued(s.small);
    LastQueued(s.large);
  }

  /** One round of the pairing loop on values. */
  ghost function PairOnce(s: Work): Work
    requires Pairable(s)
  {
    var l, g := s.small[|s.small| - 1], s.large[|s.large| - 1];
    var small, large := s.small[..|s.small| - 1], s.large[..|s.large| - 1];
    var x := s.p[g] + s.p[l] - 1.0;
    Work(Table(s.t.prob[l := s.p[l]], s.t.alias[l := g]),
         if x < 1.0 then small + [g] else small, if x < 1.0 then large else large + [g],
         s.done[l := true], s.p[g := x])
  }

  /** Taking the last column `l` off a list and perhaps adding `g`. */
  lemma Requeued(s: seq<int>, g: int, add: bool, i: int)
    requires s != []
    ensures var l, rest := s[|s| - 1], s[..|s| - 1];
            multiset(if add then rest + [g] else rest)[i]
            == multiset(s)[i] - (if i == l then 1 else 0) + (if add && i == g then 1 else 0)
  {
    LastQueued(s);
  }

  lemma PairOnceKeepsQueues(s: Work)
    requires Queued(s.small, s.large, s.done, s.p) && Pairable(s)
    ensures var r := PairOnce(s); Queued(r.small, r.large, r.done, r.p)
  {
    PairOnceKeepsSmall(s);
    PairOnceKeepsLarge(s);
  }

  /** The list of small columns at `i`, after `l` leaves it and `g` gets the value `x`. */
  lemma SmallAfter(small: seq<int>, done: seq<bool>, p: seq<real>, g: int, x: real, i: int)
    requires |done| == |p| && small != [] && 0 <= small[|small| - 1] < |p| && 0 <= g < |p| && small[|small| - 1] != g
    requires !done[g] && p[g] >= 1.0
    requires multiset(small)[i] == if 0 <= i < |p| && !done[i] && p[i] < 1.0 then 1 else 0
    ensures multiset(if x < 1.0 then small[..|small| - 1] + [g] else small[..|small| - 1])[i]
            == if 0 <= i < |p| && !done[small[|small| - 1] := true][i] && p[g := x][i] < 1.0 then 1 else 0
  {
    Requeued(small, g, x < 1.0, i);
  }

  /** The list of large columns at `i`, after `l` is done and `g` gets the value `x`. */
  lemma LargeAfter(large: seq<int>, done: seq<bool>, p: seq<real>, l: int, x: real, i: int)
    requires |done| == |p| && large != [] && 0 <= large[|large| - 1] < |p| && 0 <= l < |p| && large[|large| - 1] != l
    requires !done[large[|large| - 1]] && p[l] < 1.0
    requires multiset(large)[i] == if 0 <= i < |p| && !done[i] && p[i] >= 1.0 then 1 else 0
    ensures multiset(if x < 1.0 then large[..|large| - 1] else large[..|large| - 1] + [large[|large| - 1]])[i]
            == if 0 <= i < |p| && !done[l := true][i] && p[large[|large| - 1] := x][i] >= 1.0 then 1 else 0
  {
    Requeued(large, large[|large| - 1], x >= 1.0, i);
  }

  lemma PairOnceKeepsSmall(s: Work)
    requires Queued(s.small, s.large, s.done, s.p) && Pairable(s)
    ensures var r := PairOnce(s);
            |r.done| == |r.p| &&
            forall i :: multiset(r.small)[i] == if 0 <= i < |r.p| && !r.done[i] && r.p[i] < 1.0 then 1 else 0
  {
    var g, r := s.large[|s.large| - 1], PairOnce(s);
    forall i ensures multiset(r.small)[i] == if 0 <= i < |r.p| && !r.done[i] && r.p[i] < 1.0 then 1 else 0 {
      SmallAfter(s.small, s.done, s.p, g, r.p[g], i);
    }
  }

  lemma PairOnceKeepsLarge(s: Work)
    requires Queued(s.small, s.large, s.done, s.p) && Pairable(s)
    ensures var r := PairOnce(s);
            |r.done| == |r.p| &&
            forall i :: multiset(r.large)[i] == if 0 <= i < |r.p| && !r.done[i] && r.p[i] >= 1.0 then 1 else 0
  {
    var l, g, r := s.small[|s.small| - 1], s.large[|s.large| - 1], PairOnce(s);
    forall i ensures multiset(r.large)[i] == if 0 <= i < |r.p| && !r.done[i] && r.p[i] >= 1.0 then 1 else 0 {
      LargeAfter(s.large, s.done, s.p, l, r.p[g], i);
    }
  }

  /** One round keeps the table well formed, the balance, the excess and the signs. */
  lemma PairOnceKeepsSums(s: Work, p0: seq<real>)
    requires Pairable(s) && WellFormed(s.t) && Balanced(s.t, s.done, s.p, p0) && forall j :: 0 <= j < |s.p| ==> s.p[j] >= 0.0
    ensures var r := PairOnce(s);
            && WellFormed(r.t) && Balanced(r.t, r.done, r.p, p0) && Sum(Excess(r.done, r.p)) == Sum(Excess(s.done, s.p))
            && forall j :: 0 <= j < |r.p| ==> r.p[j] >= 0.0
  {
    var l, g := s.small[|s.small| - 1], s.large[|s.large| - 1];
    PairKeepsBalance(s.t, s.done, s.p, p0, l, g);
    PairKeepsExcess(s.done, s.p, l, g);
  }

  lemma PairOnceKeeps(s: Work, p0: seq<real>, excess: real)
    requires Pairing(s, p0, excess) && s.small != [] && s.large != []
    ensures Pairable(s) && Pairing(PairOnce(s), p0, excess)
  {
    QueuedPairable(s);
    PairOnceKeepsQueues(s);
    PairOnceKeepsSums(s, p0);
  }

  /** One round of the pairing loop in place. */
  method PairNext(p: array<real>, prob: array<real>, alias: array<int>, ghost s: Work, small0: seq<int>, large0: seq<int>)
    returns (small: seq<int>, large: seq<int>)
    requires p != prob
    requires s.t == Table(prob[..], alias[..]) && s.small == small0 && s.large == large0 && s.p == p[..]
    requires Pairable(s)
    modifies p, prob, alias
    ensures PairOnce(s).t == Table(prob[..], alias[..]) && PairOnce(s).small == small && PairOnce(s).large == large
    ensures PairOnce(s).p == p[..]
  {
    var l, g := small0[|small0| - 1], large0[|large0| - 1];
    small, large := small0[..|small0| - 1], large0[..|large0| - 1];
    prob[l] := p[l];
    alias[l] := g;
    p[g] := p[g] + p[l] - 1.0;
    if p[g] < 1.0 {
      small := small + [g];
    } else {
      large := large + [g];
    }
  }

  /** The pairing loop: afterwards one of the lists is empty and all it keeps still holds. */
  method PairOff(p: array<real>, prob: array<real>, alias: array<int>, ghost start: Work,
                 ghost p0: seq<real>, ghost excess: real, small0: seq<int>, large0: seq<int>)
    returns (small: seq<int>, large: seq<int>, ghost end: Work)
    requires p != prob
    requires start.t == Table(prob[..], alias[..]) && start.small == small0 && start.large == large0 && start.p == p[..]
    requires Pairing(start, p0, excess)
    modifies p, prob, alias
    ensures end.t == Table(prob[..], alias[..]) && end.small == small && end.large == large && end.p == p[..]
    ensures Pairing(end, p0, excess)
    ensures small == [] || large == []
    ensures large0 == [] ==> end == start
  {
    small, large, end := small0, large0, start;
    while small != [] && large != []
      invariant end.t == Table(prob[..], alias[..]) && end.small == small && end.large == large && end.p == p[..]
      invariant Pairing(end, p0, excess)
      invariant large0 == [] ==> end == start
      decreases |small| + |large|
    {
      PairOnceKeeps(end, p0, excess);
      small, large := PairNext(p, prob, alias, end, small, large);
      end := PairOnce(end);
    }
  }

  /** The two closing loops: every column still queued gets threshold one. */
  method CloseRest(prob: array<real>, work: seq<int>)
    requires forall a :: 0 <= a < |work| ==> 0 <= work[a] < prob.Length
    modifies prob
    ensures forall j :: 0 <= j < prob.Length ==> prob[j] == if j in work then 1.0 else old(prob[j])
  {
    var rest := work;
    while rest != []
      invariant rest <= work
      invariant forall j :: 0 <= j < prob.Length ==> prob[j] == if j in work[|rest|..] then 1.0 else old(prob[j])
    {
      var g := rest[|rest| - 1];
      assert work[|rest| - 1..] == [g] + work[|rest|..];
      rest := rest[..|rest| - 1];
      prob[g] := 1.0;
    }
  }

  /** The table after both closing loops: every unfinished column has threshold one. */
  ghost predicate Closes(t: Table, done: seq<bool>, closed: Table) {
    && |closed.prob| == |t.prob| == |done|
    && closed.alias == t.alias
    && forall j :: 0 <= j < |closed.prob| ==> closed.prob[j] == if done[j] then t.prob[j] else 1.0
  }

  /** Settled mass of the closed table, when every unfinished column holds exactly one. */
  lemma {:induction false} ClosingSettles(t: Table, done: seq<bool>, p: seq<real>, closed: Table, k: nat, i: int)
    requires |t.prob| == |t.alias| == |done| == |p| && k <= |p|
    requires Closes(t, done, closed)
    requires forall j :: 0 <= j < |p| && !done[j] ==> p[j] == 1.0
    ensures Mass(closed, k, i) == Settled(t, done, k, i) + (if 0 <= i < k && !done[i] then p[i] else 0.0)
  {
    if k > 0 {
      ClosingSettles(t, done, p, closed, k - 1, i);
    }
  }

  /** Without excess, the pairing loop leaves no small column behind and every large one at exactly
      one, so closing them yields a table whose masses are the scaled weights. */
  lemma ClosedTableMass(s: Work, p0: seq<real>, t: Table)
    requires Pairing(s, p0, 0.0) && (s.small == [] || s.large == [])
    requires Closes(s.t, s.done, t)
    ensures s.small == []
    ensures forall i :: 0 <= i < |p0| ==> Mass(t, |p0|, i) == p0[i]
  {
    if s.small != [] {
      LastQueued(s.small);
      assert forall i :: 0 <= i < |s.p| && !s.done[i] && s.p[i] >= 1.0 ==> multiset(s.large)[i] == 1;
      NotAllShort(s.done, s.p, s.small[|s.small| - 1]);
    }
    forall i | 0 <= i < |s.p| && !s.done[i] ensures s.p[i] >= 1.0 {
      assert multiset(s.small)[i] == 0;
    }
    NoShortageMeansUnit(s.done, s.p);
    forall i | 0 <= i < |p0| ensures Mass(t, |p0|, i) == p0[i] {
      ClosingSettles(s.t, s.done, s.p, t, |p0|, i);
    }
  }

  /** What the construction promises about its result. */
  ghost predicate Sampled(t: Table, w: seq<real>) {
    && WellFormed(t) && |t.prob| == |w|
    && (|w| > 0 ==> (Reproduces(t, w) <==> Sum(w) == 1.0))
    && ((forall i :: 0 <= i < |w| ==> w[i] == 0.0) ==> forall i :: 0 <= i < |w| ==> t.prob[i] == 1.0)
  }

  lemma StartPairing(s: Work)
    requires forall i :: 0 <= i < |s.p| ==> s.p[i] >= 0.0
    requires |s.t.prob| == |s.t.alias| == |s.p|
    requires forall j :: 0 <= j < |s.p| ==> s.t.prob[j] == 0.0 && s.t.alias[j] == 0
    requires s.done == seq(|s.p|, i => false) && Queued(s.small, s.large, s.done, s.p)
    ensures Pairing(s, s.p, Sum(Excess(s.done, s.p)))
  {
    forall i | 0 <= i < |s.p| ensures Settled(s.t, s.done, |s.p|, i) == 0.0 {
      NoneSettled(s.t, s.done, |s.p|, i);
    }
  }

  lemma ScaledBounds(w: seq<real>, p: seq<real>)
    requires Scaled(w, |w|, p) && forall i :: 0 <= i < |w| ==> w[i] >= 0.0
    ensures forall i :: 0 <= i < |p| ==> p[i] >= 0.0
    ensures forall i :: 0 <= i < |p| && w[i] == 0.0 ==> p[i] == 0.0
  {
    forall i | 0 <= i < |w| ensures p[i] >= 0.0 && (w[i] == 0.0 ==> p[i] == 0.0) {
      TimesIsProduct(w[i], |w|);
    }
  }

  lemma ZeroWeightsAllSmall(s: Work)
    requires forall j :: 0 <= j < |s.p| ==> s.p[j] == 0.0
    requires Queued(s.small, s.large, s.done, s.p)
    ensures s.large == []
  {
    if s.large != [] {
      var g := s.large[|s.large| - 1];
      assert 0 <= g < |s.p| ==> s.p[g] == 0.0;
      LastQueued(s.large);
    }
  }

  lemma ClosedTableIsWellFormed(t: Table, done: seq<bool>, closed: Table)
    requires WellFormed(t) && Closes(t, done, closed)
    ensures WellFormed(closed)
  {
  }

  lemma ExcessOfNormalised(w: seq<real>)
    requires Sum(w) == 1.0
    ensures Times(Sum(w) - 1.0, |w|) == 0.0
  {
    TimesIsProduct(0.0, |w|);
  }

  lemma EndPairing(w: seq<real>, p0: seq<real>, s: Work, t: Table)
    requires Scaled(w, |w|, p0)
    requires Pairing(s, p0, Times(Sum(w) - 1.0, |w|)) && (s.small == [] || s.large == [])
    requires Closes(s.t, s.done, t)
    ensures WellFormed(t) && |t.prob| == |w|
    ensures |w| > 0 ==> (Reproduces(t, w) <==> Sum(w) == 1.0)
  {
    ClosedTableIsWellFormed(s.t, s.done, t);
    if Sum(w) == 1.0 {
      ExcessOfNormalised(w);
      ClosedTableMass(s, p0, t);
    } else if |w| > 0 && Reproduces(t, w) {
      ReproducedWeightsAreNormalised(t, w);
    }
  }

  lemma QueuedIsUnfinished(small: seq<int>, large: seq<int>, done: seq<bool>, p: seq<real>)
    requires Queued(small, large, done, p)
    ensures forall a :: 0 <= a < |small| ==> 0 <= small[a] < |p|
    ensures forall a :: 0 <= a < |large| ==> 0 <= large[a] < |p|
    ensures forall j :: 0 <= j < |p| ==> ((j in small || j in large) <==> !done[j])
  {
    forall a | 0 <= a < |small| ensures 0 <= small[a] < |p| {
      assert multiset(small)[small[a]] > 0;
    }
    forall a | 0 <= a < |large| ensures 0 <= large[a] < |p| {
      assert multiset(large)[large[a]] > 0;
    }
    forall j | 0 <= j < |p| ensures (j in small || j in large) <==> !done[j] {
      assert j in small <==> multiset(small)[j] > 0;
      assert j in large <==> multiset(large)[j] > 0;
    }
  }

  /** Both closing loops. */
  method CloseAll(prob: array<real>, alias: array<int>, small: seq<int>, large: seq<int>, ghost s: Work)
    requires s.t == Table(prob[..], alias[..]) && small == s.small && large == s.large
    requires prob.Length == |s.p| && Queued(small, large, s.done, s.p)
    modifies prob
    ensures Closes(s.t, s.done, Table(prob[..], alias[..]))
  {
    QueuedIsUnfinished(small, large, s.done, s.p);
    CloseRest(prob, large);
    CloseRest(prob, small);
  }

  /** Allocation and scaling. */
  method Prepare(weights: seq<real>)
    returns (p: array<real>, prob: array<real>, alias: array<int>, small: seq<int>, large: seq<int>, ghost s: Work)
    requires forall i :: 0 <= i < |weights| ==> weights[i] >= 0.0
    ensures fresh(p) && fresh(prob) && fresh(alias) && p != prob
    ensures s.t == Table(prob[..], alias[..]) && s.small == small && s.large == large && s.p == p[..]
    ensures Scaled(weights, |weights|, s.p)
    ensures Pairing(s, s.p, Times(Sum(weights) - 1.0, |weights|))
    ensures s.done == seq(|weights|, i => false)
    ensures (forall i :: 0 <= i < |weights| ==> weights[i] == 0.0) ==> large == []
  {
    prob := new real[|weights|](_ => 0.0);
    alias := new int[|weights|](_ => 0);
    p := Scale(weights);
    small, large := Partition(p);
    s := Work(Table(prob[..], alias[..]), small, large, seq(|weights|, i => false), p[..]);
    ScaledBounds(weights, s.p);
    ExcessAtStart(s.done, weights, s.p);
    StartPairing(s);
    if forall i :: 0 <= i < |weights| ==> weights[i] == 0.0 {
      ZeroWeightsAllSmall(s);
    }
  }

  /** The whole construction on arrays. */
  method Build(weights: seq<real>) returns (prob: array<real>, alias: array<int>)
    requires forall i :: 0 <= i < |weights| ==> weights[i] >= 0.0
    ensures fresh(prob) && fresh(alias)
    ensures Sampled(Table(prob[..], alias[..]), weights)
  {
    var p, small, large;
    ghost var start, end;
    p, prob, alias, small, large, start := Prepare(weights);
    ghost var excess := Times(Sum(weights) - 1.0, |weights|);
    small, large, end := PairOff(p, prob, alias, start, start.p, excess, small, large);
    CloseAll(prob, alias, small, large, end);
    EndPairing(weights, start.p, end, Table(prob[..], alias[..]));
  }

  class AliasSampler {
    var probabilities: array<real>
    var alias: array<int>

    ghost function Contents(): Table
      reads this, probabilities, alias
    {
      Table(probabilities[..], alias[..])
    }

    /** Vose's construction. The finished table is a distribution for all non-negative weights, it
        reproduces the weights exactly when they sum to one, and it is uniform when all are zero. */
    constructor (weights: seq<real>)
      requires forall i :: 0 <= i < |weights| ==> weights[i] >= 0.0
      ensures fresh(probabilities) && fresh(alias)
      ensures Sampled(Contents(), weights)
    {
      var prob, aliases := Build(weights);
      probabilities, alias := prob, aliases;
    }

    /** One draw: `column` and `u` are the two random numbers. */
    method Next(column: int, u: real) returns (i: int)
      requires WellFormed(Contents()) && 0 <= column < alias.Length && 0.0 <= u < 1.0
      ensures 0 <= i < alias.Length
      ensures i == Answer(Contents(), column, u)
    {
      if u < probabilities[column] {
        return column;
      }
      return alias[column];
    }
  }
}
