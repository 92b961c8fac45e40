/** Client pool: weight adjustment, rebalancing after health checks, choice of a connection and the
    error-count monitor of one client. */
module Pool {
  import opened Common
  import opened Sampler

  // ---- Weights ----

  /** `adjusted` is `weights` divided by their sum, or all zero when the sum is not positive. */
  ghost predicate Adjusted(weights: seq<real>, adjusted: seq<real>) {
    && |adjusted| == |weights|
    && if Sum(weights) > 0.0
       then forall i :: 0 <= i < |weights| ==> adjusted[i] == weights[i] / Sum(weights)
       else forall i :: 0 <= i < |weights| ==> adjusted[i] == 0.0
  }

  lemma {:induction false} SumDivided(weights: seq<real>, adjusted: seq<real>, total: real)
    requires total > 0.0 && |adjusted| == |weights|
    requires forall i :: 0 <= i < |weights| ==> adjusted[i] == weights[i] / total
    ensures Sum(adjusted) == Sum(weights) / total
  {
    if weights != [] {
      var m := |weights| - 1;
      SumDivided(weights[..m], adjusted[..m], total);
      QuotientAdds(Sum(weights[..m]), weights[m], total);
    }
  }

  lemma QuotientAdds(x: real, y: real, total: real)
    requires total > 0.0
    ensures x / total + y / total == (x + y) / total
  {
  }

  lemma QuotientSign(x: real, total: real)
    requires total > 0.0 && x >= 0.0
    ensures x / total >= 0.0 && (x / total == 0.0 <==> x == 0.0)
  {
  }

  lemma QuotientOne(total: real)
    requires total > 0.0
    ensures total / total == 1.0
  {
  }

  /** Weights divided by a positive sum are a probability distribution over the same support. */
  lemma AdjustedIsDistribution(weights: seq<real>, adjusted: seq<real>)
    requires (forall i :: 0 <= i < |weights| ==> weights[i] >= 0.0) && Adjusted(weights, adjusted)
    ensures forall i :: 0 <= i < |adjusted| ==> adjusted[i] >= 0.0 && (adjusted[i] == 0.0 <==> weights[i] == 0.0)
    ensures Sum(weights) > 0.0 ==> Sum(adjusted) == 1.0
  {
    SumNonNegative(weights);
    if Sum(weights) > 0.0 {
      SumDivided(weights, adjusted, Sum(weights));
      QuotientOne(Sum(weights));
      forall i | 0 <= i < |adjusted| ensures adjusted[i] >= 0.0 && (adjusted[i] == 0.0 <==> weights[i] == 0.0) {
        QuotientSign(weights[i], Sum(weights));
      }
    }
  }

  method AdjustWeights(weights: seq<real>) returns (adjusted: seq<real>)
    requires forall i :: 0 <= i < |weights| ==> weights[i] >= 0.0
    ensures Adjusted(weights, adjusted)
    ensures forall i :: 0 <= i < |adjusted| ==> adjusted[i] >= 0.0 && (adjusted[i] == 0.0 <==> weights[i] == 0.0)
    ensures Sum(weights) > 0.0 ==> Sum(adjusted) == 1.0
  {
    adjusted := [];
    var sum := 0.0;
    for i := 0 to |weights|
      invariant sum == Sum(weights[..i])
    {
      assert weights[..i + 1][..i] == weights[..i];
      sum := sum + weights[i];
    }
    assert weights[..|weights|] == weights;
    if sum > 0.0 {
      for i := 0 to |weights|
        invariant |adjusted| == i
        invariant forall j :: 0 <= j < i ==> adjusted[j] == weights[j] / sum
      {
        adjusted := adjusted + [weights[i] / sum];
      }
    } else {
      adjusted := seq(|weights|, i => 0.0);
    }
    AdjustedIsDistribution(weights, adjusted);
  }

  // ---- Rebalancing ----

  /** Weights of the healthy clients; the others get zero. */
  ghost function Masked(weights: seq<real>, healthy: seq<bool>): (m: seq<real>)
    requires |weights| == |healthy|
    ensures |m| == |weights|
  {
    seq(|weights|, i requires 0 <= i < |weights| => if healthy[i] then weights[i] else 0.0)
  }

  /** Sum of the weights of the healthy clients. */
  ghost function HealthySum(weights: seq<real>, healthy: seq<bool>): real
    requires |weights| == |healthy|
  {
    if weights == [] then 0.0
    else
      var m := |weights| - 1;
      if healthy[m] then HealthySum(weights[..m], healthy[..m]) + weights[m] else HealthySum(weights[..m], healthy[..m])
  }

  lemma {:induction false} MaskedSum(weights: seq<real>, healthy: seq<bool>)
    requires |weights| == |healthy|
    ensures Sum(Masked(weights, healthy)) == HealthySum(weights, healthy)
  {
    if weights != [] {
      var m := |weights| - 1;
      MaskedSum(weights[..m], healthy[..m]);
      assert Masked(weights, healthy)[..m] == Masked(weights[..m], healthy[..m]);
    }
  }

  /** The share of every client in the weights of the healthy ones: nothing for the others, and for all of
      them nothing when no healthy client has weight. */
  ghost predicate Shares(weights: seq<real>, healthy: seq<bool>, adjusted: seq<real>) {
    && |weights| == |healthy| == |adjusted|
    && forall i :: 0 <= i < |weights| ==>
         adjusted[i] == if healthy[i] && HealthySum(weights, healthy) > 0.0 then weights[i] / HealthySum(weights, healthy) else 0.0
  }

  /** The table was built for the shares of the healthy clients. */
  ghost predicate BuiltFor(t: Table, weights: seq<real>, healthy: seq<bool>, adjusted: seq<real>)
  {
    && |weights| == |healthy| && (forall i :: 0 <= i < |weights| ==> weights[i] >= 0.0)
    && Shares(weights, healthy, adjusted) && Sampled(t, adjusted)
  }

  lemma AdjustedShares(weights: seq<real>, healthy: seq<bool>, adjusted: seq<real>)
    requires |weights| == |healthy| && Adjusted(Masked(weights, healthy), adjusted)
    ensures Shares(weights, healthy, adjusted)
  {
    MaskedSum(weights, healthy);
    var masked, sum := Masked(weights, healthy), HealthySum(weights, healthy);
    forall i | 0 <= i < |weights| ensures adjusted[i] == if healthy[i] && sum > 0.0 then weights[i] / sum else 0.0 {
      assert masked[i] == if healthy[i] then weights[i] else 0.0;
      if sum > 0.0 {
        assert 0.0 / sum == 0.0;
      }
    }
  }

  /** Shares are a distribution over the healthy clients with weight. */
  lemma SharesAreDistribution(weights: seq<real>, healthy: seq<bool>, adjusted: seq<real>)
    requires Shares(weights, healthy, adjusted) && HealthySum(weights, healthy) > 0.0
    requires forall i :: 0 <= i < |weights| ==> weights[i] >= 0.0
    ensures Sum(adjusted) == 1.0
    ensures forall i :: 0 <= i < |weights| ==> adjusted[i] >= 0.0 && (adjusted[i] == 0.0 <==> !healthy[i] || weights[i] == 0.0)
  {
    MaskedSum(weights, healthy);
    var masked, sum := Masked(weights, healthy), HealthySum(weights, healthy);
    forall i | 0 <= i < |masked| ensures adjusted[i] == masked[i] / sum {
      assert 0.0 / sum == 0.0;
    }
    AdjustedIsDistribution(masked, adjusted);
  }

  /** Healthy clients keep the proportions of the weights they were configured with. */
  lemma SharesKeepProportions(weights: seq<real>, healthy: seq<bool>, adjusted: seq<real>, i: nat, j: nat)
    requires Shares(weights, healthy, adjusted) && i < |weights| && j < |weights| && healthy[i] && healthy[j]
    ensures adjusted[i] * weights[j] == adjusted[j] * weights[i]
  {
    var sum := HealthySum(weights, healthy);
    if sum > 0.0 {
      CrossProducts(weights[i], weights[j], sum);
    }
  }

  lemma CrossProducts(x: real, y: real, sum: real)
    requires sum > 0.0
    ensures (x / sum) * y == (y / sum) * x
  {
    var a, b := x / sum, y / sum;
    assert x == a * sum && y == b * sum;
  }

  /** What the health check does when some client changed its health. */
  method Rebalance(weights: seq<real>, healthy: seq<bool>) returns (s: AliasSampler, adjusted: seq<real>)
    requires |weights| == |healthy|
    requires forall i :: 0 <= i < |weights| ==> weights[i] >= 0.0
    ensures fresh(s) && BuiltFor(s.Contents(), weights, healthy, adjusted)
  {
    var buffer := [];
    for j := 0 to |weights|
      invariant |buffer| == j && forall i :: 0 <= i < j ==> buffer[i] == if healthy[i] then weights[i] else 0.0
    {
      buffer := buffer + [if healthy[j] then weights[j] else 0.0];
    }
    assert buffer == Masked(weights, healthy);
    adjusted := AdjustWeights(buffer);
    AdjustedShares(weights, healthy, adjusted);
    s := new AliasSampler(adjusted);
  }

  /** After a rebalance every draw answers a healthy client, provided some healthy client has weight. */
  lemma DrawIsHealthy(t: Table, weights: seq<real>, healthy: seq<bool>, adjusted: seq<real>, column: int, u: real)
    requires BuiltFor(t, weights, healthy, adjusted) && HealthySum(weights, healthy) > 0.0
    requires 0 <= column < |weights| && 0.0 <= u < 1.0
    ensures WellFormed(t) && |t.prob| == |weights|
    ensures 0 <= Answer(t, column, u) < |weights|
    ensures healthy[Answer(t, column, u)] && weights[Answer(t, column, u)] != 0.0
  {
    SharesAreDistribution(weights, healthy, adjusted);
    ZeroWeightNeverAnswered(t, adjusted, column, u);
  }

  /** And it answers client `i` with the probability that is its share in the weights of the healthy clients. */
  lemma DrawProbability(t: Table, weights: seq<real>, healthy: seq<bool>, adjusted: seq<real>, i: int)
    requires BuiltFor(t, weights, healthy, adjusted) && HealthySum(weights, healthy) > 0.0
    requires 0 <= i < |weights|
    ensures |t.prob| == |t.alias| == |weights|
    ensures Mass(t, |weights|, i) / |weights| as real == if healthy[i] then weights[i] / HealthySum(weights, healthy) else 0.0
  {
    SharesAreDistribution(weights, healthy, adjusted);
    ReproducedProbability(t, adjusted, i);
  }

  // ---- Connection ----

  /** First attempt whose draw answers a healthy client. */
  ghost predicate FirstHealthy(t: Table, healthy: seq<bool>, draws: seq<(int, real)>, k: nat)
    requires WellFormed(t) && |t.prob| == |healthy|
    requires forall a :: 0 <= a < |draws| ==> 0 <= draws[a].0 < |healthy|
  {
    && k < |draws| && healthy[Answer(t, draws[k].0, draws[k].1)]
    && forall a :: 0 <= a < k ==> !healthy[Answer(t, draws[a].0, draws[a].1)]
  }

  class InnerPool {
    var sampler: AliasSampler
    var healthy: seq<bool>

    constructor (s: AliasSampler, h: seq<bool>)
      ensures sampler == s && healthy == h
    {
      sampler, healthy := s, h;
    }

    /** Up to three attempts per client; `draws` holds the random numbers of the attempts. */
    method Connection(draws: seq<(int, real)>) returns (c: Option<int>)
      requires WellFormed(sampler.Contents()) && |sampler.Contents().prob| == |healthy|
      requires |draws| == 3 * |healthy|
      requires forall a :: 0 <= a < |draws| ==> 0 <= draws[a].0 < |healthy| && 0.0 <= draws[a].1 < 1.0
      ensures |healthy| == 1 ==> c == if healthy[0] then Some(0) else None
      ensures |healthy| != 1 && c.Some? ==>
                exists k: nat :: FirstHealthy(sampler.Contents(), healthy, draws, k)
                            && c.value == Answer(sampler.Contents(), draws[k].0, draws[k].1)
      ensures |healthy| != 1 && c.None? ==> forall k: nat :: !FirstHealthy(sampler.Contents(), healthy, draws, k)
    {
      if |healthy| == 1 {
        return if healthy[0] then Some(0) else None;
      }
      for k := 0 to |draws|
        invariant forall a :: 0 <= a < k ==> !healthy[Answer(sampler.Contents(), draws[a].0, draws[a].1)]
      {
        var i := sampler.Next(draws[k].0, draws[k].1);
        if healthy[i] {
          assert FirstHealthy(sampler.Contents(), healthy, draws, k);
          return Some(i);
        }
      }
      return None;
    }
  }

  /** Right after a rebalance the first attempt of a connection already succeeds. */
  lemma FirstAttemptSucceeds(t: Table, weights: seq<real>, healthy: seq<bool>, adjusted: seq<real>, draws: seq<(int, real)>)
    requires BuiltFor(t, weights, healthy, adjusted) && HealthySum(weights, healthy) > 0.0
    requires |draws| == 3 * |healthy|
    requires forall a :: 0 <= a < |draws| ==> 0 <= draws[a].0 < |healthy| && 0.0 <= draws[a].1 < 1.0
    ensures WellFormed(t) && |t.prob| == |healthy|
    ensures FirstHealthy(t, healthy, draws, 0)
  {
    assert |weights| > 0;
    DrawIsHealthy(t, weights, healthy, adjusted, draws[0].0, draws[0].1);
  }

  // ---- Error counting ----

  /** What one call of a client ended with. */
  datatype CallResult =
    | NoError
    | ServerInternal | WrongMagicNumber | SignatureVerification | NodeUnderMaintenance
    | OtherStatus     // any other API status
    | SplitInfo       // reply of a virtual object, no failure of the connection
    | OtherError

  /** Everything that happens to a monitor. */
  datatype Event = Call(result: CallResult) | SetHealthy | SetUnhealthy

  predicate Counted(r: CallResult) {
    r.ServerInternal? || r.WrongMagicNumber? || r.SignatureVerification? || r.NodeUnderMaintenance? || r.OtherError?
  }

  /** Number of counted errors in a run. */
  function Errors(run: seq<Event>): nat {
    if run == [] then 0
    else Errors(run[..|run| - 1]) + (if run[|run| - 1].Call? && Counted(run[|run| - 1].result) then 1 else 0)
  }

  datatype Counters = Counters(healthy: bool, current: nat, overall: nat, trips: nat)

  /** Counters after one event; `trips` counts how often errors turned the client unhealthy. */
  function Step(s: Counters, threshold: nat, e: Event): Counters {
    match e
    case SetHealthy => s.(healthy := true)
    case SetUnhealthy => s.(healthy := false)
    case Call(r) =>
      if !Counted(r) then s
      else if s.current + 1 >= threshold then Counters(false, 0, s.overall + 1, s.trips + 1)
      else s.(current := s.current + 1, overall := s.overall + 1)
  }

  function Run(threshold: nat, run: seq<Event>): Counters {
    if run == [] then Counters(true, 0, 0, 0)
    else Step(Run(threshold, run[..|run| - 1]), threshold, run[|run| - 1])
  }

  class StatusMonitor {
    var healthy: bool
    var currentErrorCount: nat
    var overallErrorCount: nat
    const errorThreshold: nat

    constructor (threshold: nat)
      ensures errorThreshold == threshold
      ensures healthy && currentErrorCount == 0 && overallErrorCount == 0
    {
      healthy, currentErrorCount, overallErrorCount, errorThreshold := true, 0, 0, threshold;
    }

    /** The monitor agrees with the counters of a run. */
    ghost predicate At(s: Counters)
      reads this
    {
      healthy == s.healthy && currentErrorCount == s.current && overallErrorCount == s.overall
    }

    method SetHealthy(ghost s: Counters)
      requires At(s)
      modifies this`healthy
      ensures At(Step(s, errorThreshold, Event.SetHealthy))
    {
      healthy := true;
    }

    method SetUnhealthy(ghost s: Counters)
      requires At(s)
      modifies this`healthy
      ensures At(Step(s, errorThreshold, Event.SetUnhealthy))
    {
      healthy := false;
    }

    method IncErrorRate()
      modifies this
      ensures overallErrorCount == old(overallErrorCount) + 1
      ensures old(currentErrorCount) + 1 >= errorThreshold ==> !healthy && currentErrorCount == 0
      ensures old(currentErrorCount) + 1 < errorThreshold ==>
                healthy == old(healthy) && currentErrorCount == old(currentErrorCount) + 1
    {
      currentErrorCount := currentErrorCount + 1;
      overallErrorCount := overallErrorCount + 1;
      if currentErrorCount >= errorThreshold {
        healthy := false;
        currentErrorCount := 0;
      }
    }

    method UpdateErrorRate(r: CallResult, ghost s: Counters)
      requires At(s)
      modifies this
      ensures At(Step(s, errorThreshold, Call(r)))
      ensures overallErrorCount == old(overallErrorCount)
                                   + if r in {NoError, OtherStatus, SplitInfo} then 0 else 1
    {
      if r == NoError {
        return;
      }
      if r == ServerInternal || r == WrongMagicNumber || r == SignatureVerification || r == NodeUnderMaintenance {
        IncErrorRate();
        return;
      }
      if r == OtherStatus {
        return;
      }
      if r != SplitInfo {
        IncErrorRate();
      }
    }
  }

  /** Any run of events on a monitor: its counters are those of the run, hence what `RunCounts` says. */
  method Play(m: StatusMonitor, run: seq<Event>)
    requires m.At(Run(m.errorThreshold, []))
    modifies m
    ensures m.At(Run(m.errorThreshold, run)) && m.overallErrorCount == Errors(run)
    ensures m.errorThreshold >= 1 ==> m.currentErrorCount == m.overallErrorCount % m.errorThreshold
  {
    for i := 0 to |run|
      invariant m.At(Run(m.errorThreshold, run[..i])) && Run(m.errorThreshold, run[..i]).overall == Errors(run[..i])
    {
      assert run[..i + 1][..i] == run[..i];
      ghost var s := Run(m.errorThreshold, run[..i]);
      match run[i]
      case SetHealthy => m.SetHealthy(s);
      case SetUnhealthy => m.SetUnhealthy(s);
      case Call(result) => m.UpdateErrorRate(result, s);
    }
    assert run[..|run|] == run;
    if m.errorThreshold >= 1 {
      RunCounts(m.errorThreshold, run);
    }
  }

  /** Over every run: the overall count is the number of counted errors and never anything else, the
      current count is its remainder by the threshold, and errors tripped the client once per threshold. */
  lemma {:induction false} RunCounts(threshold: nat, run: seq<Event>)
    requires threshold >= 1
    ensures var s := Run(threshold, run);
            && s.overall == Errors(run)
            && s.current == s.overall % threshold
            && s.trips == s.overall / threshold
  {
    RunDivides(threshold, run);
    var s := Run(threshold, run);
    DivisionUnique(s.overall, threshold, s.trips, s.current);
  }

  lemma {:induction false} RunDivides(threshold: nat, run: seq<Event>)
    requires threshold >= 1
    ensures var s := Run(threshold, run);
            && s.overall == Errors(run)
            && s.current < threshold
            && s.overall == s.trips * threshold + s.current
  {
    if run != [] {
      var m := |run| - 1;
      RunDivides(threshold, run[..m]);
      var s := Run(threshold, run[..m]);
      assert (s.trips + 1) * threshold == s.trips * threshold + threshold;
    }
  }
}
