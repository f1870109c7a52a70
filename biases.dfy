/**
 * Per-feature bias weights: a value's bias grows as the value gets rarer
 * relative to its feature's most frequent value, offset by how far that
 * most frequent value is from appearing in every observation.
 */
module Biases {
  import opened Observations

  /** Some value of a non-empty value-count map has the largest count. */
  lemma {:induction false} MostCommonExists(valueCounts: map<Symbol, int>)
    requires valueCounts != map[]
    ensures exists mode :: mode in valueCounts.Values && forall s :: s in valueCounts ==> valueCounts[s] <= mode
  {
    var x :| x in valueCounts;
    var rest := valueCounts - {x};
    if forall s :: s in valueCounts ==> s == x {
      assert valueCounts[x] in valueCounts.Values;
      assert forall s :: s in valueCounts ==> valueCounts[s] <= valueCounts[x];
    } else {
      var y :| y in valueCounts && y != x;
      assert y in rest;
      MostCommonExists(rest);
      var mode :| mode in rest.Values && forall s :: s in rest ==> rest[s] <= mode;
      var k :| k in rest && rest[k] == mode;
      assert valueCounts[k] in valueCounts.Values;
      assert valueCounts[x] in valueCounts.Values;
      assert forall s :: s in valueCounts ==> s == x || s in rest;
    }
  }

  /** The mode of a feature: the largest count among its values. */
  function GetMode(valueCounts: map<Symbol, int>): (mode: int)
    requires valueCounts != map[]
    ensures exists k :: k in valueCounts && valueCounts[k] == mode
    ensures forall s :: s in valueCounts ==> valueCounts[s] <= mode
  {
    MostCommonExists(valueCounts);
    var mode :| mode in valueCounts.Values && forall s :: s in valueCounts ==> valueCounts[s] <= mode;
    mode
  }

  /** The share of observations in which the feature's most frequent value is absent. */
  function Base(mode: int, nObs: int): (base: real)
    requires nObs != 0
    ensures 0 < mode <= nObs ==> 0.0 <= base < 1.0
    ensures 0 < mode <= nObs ==> (base == 0.0 <==> mode == nObs)
  {
    1.0 - mode as real / nObs as real
  }

  /** The bias of a value seen `count` times in a feature with the given mode and base. */
  function ComputeBias(count: int, mode: int, base: real): (bias: real)
    requires mode != 0
    ensures 0 < count <= mode ==> 0.5 * base <= bias < 0.5 * (1.0 + base)
    ensures 0 < count <= mode ==> (bias == 0.5 * base <==> count == mode)
  {
    var dev := 1.0 - count as real / mode as real;
    0.5 * (dev + base)
  }

  /** A value seen more often than another gets a strictly smaller bias. */
  lemma BiasDecreasesWithCount(lower: int, higher: int, mode: int, base: real)
    requires 0 < mode && lower < higher
    ensures ComputeBias(higher, mode, base) < ComputeBias(lower, mode, base)
  {
    assert lower as real / mode as real < higher as real / mode as real;
  }

  /** The bias of every value of one feature: the feature's mode and base are
      computed once and every value's count is compared with that mode. */
  function FeatureBiases(valueCounts: map<Symbol, int>, nObs: int): (biases: map<Symbol, real>)
    requires valueCounts != map[]
    requires nObs != 0
    requires forall s :: s in valueCounts ==> valueCounts[s] > 0
    ensures biases.Keys == valueCounts.Keys
  {
    var mode := GetMode(valueCounts);
    var base := Base(mode, nObs);
    map v | v in valueCounts :: ComputeBias(valueCounts[v], mode, base)
  }

  /** Within a feature, the rarer of two values has the strictly larger bias, and
      values seen equally often have the same bias. */
  lemma FeatureBiasesOrder(valueCounts: map<Symbol, int>, nObs: int, s: Symbol, t: Symbol)
    requires valueCounts != map[] && nObs != 0
    requires forall v :: v in valueCounts ==> valueCounts[v] > 0
    requires s in valueCounts && t in valueCounts
    ensures var biases := FeatureBiases(valueCounts, nObs);
            (biases[s] < biases[t] <==> valueCounts[t] < valueCounts[s]) &&
            (biases[s] == biases[t] <==> valueCounts[s] == valueCounts[t])
  {
    var mode := GetMode(valueCounts);
    var base := Base(mode, nObs);
    if valueCounts[s] < valueCounts[t] {
      BiasDecreasesWithCount(valueCounts[s], valueCounts[t], mode, base);
    } else if valueCounts[t] < valueCounts[s] {
      BiasDecreasesWithCount(valueCounts[t], valueCounts[s], mode, base);
    }
  }

  /** A feature's most frequent values have its smallest bias, half its base, and every
      bias of the feature lies in [base / 2, (1 + base) / 2). */
  lemma FeatureBiasesBounds(valueCounts: map<Symbol, int>, nObs: int, s: Symbol)
    requires valueCounts != map[] && nObs != 0
    requires forall v :: v in valueCounts ==> valueCounts[v] > 0
    requires s in valueCounts
    ensures var mode := GetMode(valueCounts);
            var base := Base(mode, nObs);
            var bias := FeatureBiases(valueCounts, nObs)[s];
            0.5 * base <= bias < 0.5 * (1.0 + base) &&
            (bias == 0.5 * base <==> valueCounts[s] == mode)
  {
  }

  /** Every bias lies in [0, 1) when no count exceeds the number of observations. */
  lemma FeatureBiasesInUnitInterval(valueCounts: map<Symbol, int>, nObs: int)
    requires valueCounts != map[] && nObs > 0
    requires forall v :: v in valueCounts ==> 0 < valueCounts[v] <= nObs
    ensures forall s :: s in valueCounts ==> 0.0 <= FeatureBiases(valueCounts, nObs)[s] < 1.0
  {
    var mode := GetMode(valueCounts);
    var k :| k in valueCounts && valueCounts[k] == mode;
    assert 0 < mode <= nObs;
  }

  /** A value present in every observation is the mode and has bias 0. */
  lemma {:induction false} UbiquitousValueHasZeroBias(valueCounts: map<Symbol, int>, nObs: int, s: Symbol)
    requires nObs > 0
    requires forall v :: v in valueCounts ==> 0 < valueCounts[v] <= nObs
    requires s in valueCounts && valueCounts[s] == nObs
    ensures FeatureBiases(valueCounts, nObs)[s] == 0.0
  {
    var mode := GetMode(valueCounts);
    assert mode == nObs by {
      var m :| m in valueCounts && valueCounts[m] == mode;
    }
  }

  /** Worked example: feature A seen with value 1 twice and value 2 once in three observations. */
  lemma ExampleFeatureBiases()
    ensures var counts := map[("A", "1") := 2, ("A", "2") := 1];
            var biases := FeatureBiases(counts, 3);
            biases[("A", "1")] == 1.0 / 6.0 && biases[("A", "2")] == 5.0 / 12.0
  {
    var counts := map[("A", "1") := 2, ("A", "2") := 1];
    var mode := GetMode(counts);
    assert mode == 2 by {
      assert counts.Values == {1, 2} by {
        assert counts[("A", "1")] in counts.Values;
        assert counts[("A", "2")] in counts.Values;
      }
    }
  }
}
