/**
 * Fitting a coupled biased random walk model: per-feature bias weights from
 * the value counts, then a transition matrix whose entry (i, j) is the
 * conditional frequency of the symbol at i given the symbol at j, weighted by
 * the bias of the symbol at j, normalised so that every row with an edge sums to 1.
 */
module Detection {
  import opened Observations
  import opened Biases
  import opened Matrices

  datatype Option<T> = None | Some(value: T)

  datatype Result<T> = Ok(value: T) | Err(message: string)

  lemma MapsEqual<K, V>(a: map<K, V>, b: map<K, V>)
    requires a.Keys == b.Keys && forall k :: k in a ==> a[k] == b[k]
    ensures a == b
  {
  }

  /** A subset with nothing left over is the whole set. */
  lemma Exhausted<T>(done: set<T>, all: set<T>)
    requires done <= all && all - done == {}
    ensures done == all
  {
    forall x | x in all ensures x in done {
      assert x !in all - done;
    }
  }

  /** Statistics that fitting accepts: well formed and with at least one observation. */
  ghost predicate Fittable(counter: Counter) {
    counter.Valid() && counter.nObs > 0
  }

  /** The feature a symbol is a value of (unique, as no symbol belongs to two features). */
  ghost function FeatureOf(counter: Counter, s: Symbol): (f: Feature)
    requires s in counter.Symbols()
    ensures f in counter.counts && s in counter.counts[f]
  {
    var f :| f in counter.counts && s in counter.counts[f]; f
  }

  /** The bias weights a fit stores: one per value of every feature, computed
      with that feature's own mode and base, and nothing else. */
  ghost function FittedBiases(counter: Counter): (bias: map<Symbol, real>)
    requires counter.ValidCounts() && counter.nObs > 0
    ensures bias.Keys == counter.Symbols()
    ensures forall f, s :: f in counter.counts && s in counter.counts[f] ==>
              s in bias && bias[s] == FeatureBiases(counter.counts[f], counter.nObs)[s]
  {
    map s | s in counter.Symbols() :: FeatureBiases(counter.counts[FeatureOf(counter, s)], counter.nObs)[s]
  }

  /** Every fitted bias lies in [0, 1). */
  lemma FittedBiasesInUnitInterval(counter: Counter)
    requires counter.ValidCounts() && counter.nObs > 0
    ensures forall s :: s in FittedBiases(counter) ==> 0.0 <= FittedBiases(counter)[s] < 1.0
  {
    var bias := FittedBiases(counter);
    forall s | s in bias ensures 0.0 <= bias[s] < 1.0 {
      var f := FeatureOf(counter, s);
      FeatureBiasesInUnitInterval(counter.counts[f], counter.nObs);
    }
  }

  /** Any map meeting the fitted-bias description is the fitted biases: the result
      does not depend on the order in which features are visited. */
  lemma FittedBiasesDeterministic(counter: Counter, bias: map<Symbol, real>)
    requires counter.ValidCounts() && counter.nObs > 0
    requires HoldsBiasesOf(counter, bias, counter.counts.Keys)
    ensures bias == FittedBiases(counter)
  {
    var fitted := FittedBiases(counter);
    forall s | s in bias ensures s in fitted && bias[s] == fitted[s] {
      var f :| f in counter.counts && s in counter.counts[f];
    }
    MapsEqual(bias, fitted);
  }

  lemma SymbolsOfAdd(counter: Counter, done: set<Feature>, f: Feature)
    requires f in counter.counts
    ensures counter.SymbolsOf(done + {f}) == counter.SymbolsOf(done) + counter.counts[f].Keys
  {
    var lhs, rhs := counter.SymbolsOf(done + {f}), counter.SymbolsOf(done) + counter.counts[f].Keys;
    forall s | s in lhs ensures s in rhs {
      var g :| g in done + {f} && g in counter.counts && s in counter.counts[g];
    }
    forall s | s in rhs ensures s in lhs {
      if s !in counter.counts[f] {
        var g :| g in done && g in counter.counts && s in counter.counts[g];
      }
    }
  }

  /** `biases` holds exactly the biases of the values of the features in `done`. */
  ghost predicate HoldsBiasesOf(counter: Counter, biases: map<Symbol, real>, done: set<Feature>)
    requires counter.ValidCounts() && counter.nObs > 0 && done <= counter.counts.Keys
  {
    && biases.Keys == counter.SymbolsOf(done)
    && forall g, s :: g in done && s in counter.counts[g] ==>
         s in biases && biases[s] == FeatureBiases(counter.counts[g], counter.nObs)[s]
  }

  /** One more feature's biases joined to those of the features already done. */
  lemma AddFeatureBiases(counter: Counter, biases: map<Symbol, real>, done: set<Feature>, f: Feature)
    requires counter.ValidCounts() && counter.nObs > 0
    requires done <= counter.counts.Keys && f in counter.counts && f !in done
    requires HoldsBiasesOf(counter, biases, done)
    ensures HoldsBiasesOf(counter, biases + FeatureBiases(counter.counts[f], counter.nObs), done + {f})
  {
    var added := FeatureBiases(counter.counts[f], counter.nObs);
    var next := biases + added;
    SymbolsOfAdd(counter, done, f);
    forall g, s | g in done + {f} && s in counter.counts[g]
      ensures s in next && next[s] == FeatureBiases(counter.counts[g], counter.nObs)[s]
    {
      if g != f {
        assert s !in counter.counts[f];
        assert next[s] == biases[s];
      }
    }
  }

  /** Bias weights that the transition matrix can be built from: one for every
      symbol of a joint count, none negative. */
  ghost predicate Weighable(counter: Counter, bias: map<Symbol, real>) {
    && counter.DenseIndex()
    && counter.ValidJointCounts()
    && (forall p :: p in counter.jointCounts ==> p.0 in bias && p.1 in bias)
    && (forall s :: s in bias ==> bias[s] >= 0.0)
  }

  lemma FittedBiasesWeighable(counter: Counter)
    requires Fittable(counter)
    ensures Weighable(counter, FittedBiases(counter))
  {
    FittedBiasesInUnitInterval(counter);
  }

  /** The symbol whose row and column are r. */
  ghost function SymbolAt(counter: Counter, r: int): (s: Symbol)
    requires counter.DenseIndex() && 0 <= r < counter.Size()
    ensures s in counter.index && counter.index[s] == r
  {
    assert r in counter.index.Values;
    var s :| s in counter.index && counter.index[s] == r; s
  }

  lemma SymbolAtIndex(counter: Counter, s: Symbol)
    requires counter.DenseIndex() && s in counter.index
    ensures 0 <= counter.index[s] < counter.Size() && SymbolAt(counter, counter.index[s]) == s
  {
  }

  /** Weight of an edge into `given` from a symbol that co-occurred with it `jointCount` times:
      the bias of `given` times the frequency of the pair among `given`'s observations. */
  function EdgeWeight(counter: Counter, bias: map<Symbol, real>, jointCount: int, given: Symbol): (w: real)
    requires given in bias && given in counter.symbolCounts && counter.symbolCounts[given] != 0
  {
    bias[given] * jointCount as real / counter.symbolCounts[given] as real
  }

  lemma EdgeWeightNonNegative(counter: Counter, bias: map<Symbol, real>, jointCount: int, given: Symbol)
    requires given in bias && given in counter.symbolCounts && counter.symbolCounts[given] > 0
    requires bias[given] >= 0.0 && jointCount >= 0
    ensures EdgeWeight(counter, bias, jointCount, given) >= 0.0
  {
    assert bias[given] * jointCount as real >= 0.0;
  }

  lemma EdgeWeightPositive(counter: Counter, bias: map<Symbol, real>, jointCount: int, given: Symbol)
    requires given in bias && given in counter.symbolCounts && counter.symbolCounts[given] > 0
    requires bias[given] > 0.0 && jointCount > 0
    ensures EdgeWeight(counter, bias, jointCount, given) > 0.0
  {
    assert bias[given] * jointCount as real > 0.0;
  }

  /** The weight at (r, c) contributed by the joint counts of the pairs in `pairs`.
      A pair (a, b) feeds cell (index[a], index[b]) with an edge weight given b,
      and cell (index[b], index[a]) with an edge weight given a. */
  ghost function RawCell(counter: Counter, bias: map<Symbol, real>, pairs: set<SymbolPair>, r: int, c: int): (w: real)
    requires Weighable(counter, bias) && pairs <= counter.jointCounts.Keys
    requires 0 <= r < counter.Size() && 0 <= c < counter.Size()
  {
    var a := SymbolAt(counter, r);
    var b := SymbolAt(counter, c);
    (if (a, b) in pairs then EdgeWeight(counter, bias, counter.jointCounts[(a, b)], b) else 0.0)
    + (if (b, a) in pairs then EdgeWeight(counter, bias, counter.jointCounts[(b, a)], b) else 0.0)
  }

  lemma RawCellNonNegative(counter: Counter, bias: map<Symbol, real>, pairs: set<SymbolPair>, r: int, c: int)
    requires Weighable(counter, bias) && pairs <= counter.jointCounts.Keys
    requires 0 <= r < counter.Size() && 0 <= c < counter.Size()
    ensures RawCell(counter, bias, pairs, r, c) >= 0.0
  {
    var a := SymbolAt(counter, r);
    var b := SymbolAt(counter, c);
    if (a, b) in pairs {
      EdgeWeightNonNegative(counter, bias, counter.jointCounts[(a, b)], b);
    }
    if (b, a) in pairs {
      EdgeWeightNonNegative(counter, bias, counter.jointCounts[(b, a)], b);
    }
  }

  /** Taking one more joint count into account adds its two edge weights to their two cells. */
  lemma RawCellAddPair(counter: Counter, bias: map<Symbol, real>, pairs: set<SymbolPair>, p: SymbolPair, r: int, c: int)
    requires Weighable(counter, bias) && pairs <= counter.jointCounts.Keys
    requires p in counter.jointCounts && p !in pairs
    requires 0 <= r < counter.Size() && 0 <= c < counter.Size()
    ensures RawCell(counter, bias, pairs + {p}, r, c) ==
            RawCell(counter, bias, pairs, r, c)
            + (if counter.index[p.0] == r && counter.index[p.1] == c
               then EdgeWeight(counter, bias, counter.jointCounts[p], p.1) else 0.0)
            + (if counter.index[p.1] == r && counter.index[p.0] == c
               then EdgeWeight(counter, bias, counter.jointCounts[p], p.0) else 0.0)
  {
    var a := SymbolAt(counter, r);
    var b := SymbolAt(counter, c);
    assert counter.index[p.0] == r <==> p.0 == a;
    assert counter.index[p.1] == c <==> p.1 == b;
    assert counter.index[p.1] == r <==> p.1 == a;
    assert counter.index[p.0] == c <==> p.0 == b;
  }

  /** The matrix before normalisation: the edge weights of all joint counts. */
  ghost function RawMatrix(counter: Counter, bias: map<Symbol, real>): (m: Matrix)
    requires Weighable(counter, bias)
    ensures IsSquare(m, counter.Size())
    ensures NonNegative(m)
  {
    var n := counter.Size();
    var m := seq(n, r requires 0 <= r < n =>
                 seq(n, c requires 0 <= c < n => RawCell(counter, bias, counter.jointCounts.Keys, r, c)));
    assert NonNegative(m) by {
      forall r, c | 0 <= r < n && 0 <= c < n ensures m[r][c] >= 0.0 {
        RawCellNonNegative(counter, bias, counter.jointCounts.Keys, r, c);
      }
    }
    m
  }

  /** Cell (index[a], index[b]) holds the edge weights given b of the joint counts of
      (a, b) and of (b, a), summed; a cell of two symbols that never co-occurred is 0. */
  lemma RawMatrixAt(counter: Counter, bias: map<Symbol, real>, a: Symbol, b: Symbol)
    requires Weighable(counter, bias) && a in counter.index && b in counter.index
    ensures var m := RawMatrix(counter, bias);
            var i, j := counter.index[a], counter.index[b];
            0 <= i < counter.Size() && 0 <= j < counter.Size() &&
            m[i][j] == (if (a, b) in counter.jointCounts then EdgeWeight(counter, bias, counter.jointCounts[(a, b)], b) else 0.0)
                     + (if (b, a) in counter.jointCounts then EdgeWeight(counter, bias, counter.jointCounts[(b, a)], b) else 0.0)
  {
    SymbolAtIndex(counter, a);
    SymbolAtIndex(counter, b);
  }

  /** No symbol has an edge to itself. */
  lemma RawMatrixNoSelfLoops(counter: Counter, bias: map<Symbol, real>, r: int)
    requires Weighable(counter, bias) && 0 <= r < counter.Size()
    ensures RawMatrix(counter, bias)[r][r] == 0.0
  {
    var a := SymbolAt(counter, r);
    assert (a, a) !in counter.jointCounts;
  }

  /** A symbol that co-occurred with nothing has an all-zero row. */
  lemma IsolatedSymbolRowIsZero(counter: Counter, bias: map<Symbol, real>, a: Symbol)
    requires Weighable(counter, bias) && a in counter.index
    requires forall p :: p in counter.jointCounts ==> p.0 != a && p.1 != a
    ensures IsZeroRow(RawMatrix(counter, bias)[counter.index[a]])
  {
    var m := RawMatrix(counter, bias);
    SymbolAtIndex(counter, a);
    forall c | 0 <= c < counter.Size() ensures m[counter.index[a]][c] == 0.0 {
      var b := SymbolAt(counter, c);
      assert (a, b) !in counter.jointCounts && (b, a) !in counter.jointCounts;
    }
  }

  /** A symbol that co-occurred with a symbol of positive bias has an edge to it. */
  lemma PairedSymbolRowIsNonZero(counter: Counter, bias: map<Symbol, real>, p: SymbolPair)
    requires Weighable(counter, bias) && p in counter.jointCounts && bias[p.1] > 0.0
    ensures !IsZeroRow(RawMatrix(counter, bias)[counter.index[p.0]])
    ensures RawMatrix(counter, bias)[counter.index[p.0]][counter.index[p.1]] > 0.0
  {
    var m := RawMatrix(counter, bias);
    var a, b := p.0, p.1;
    RawMatrixAt(counter, bias, a, b);
    EdgeWeightPositive(counter, bias, counter.jointCounts[(a, b)], b);
    if (b, a) in counter.jointCounts {
      EdgeWeightNonNegative(counter, bias, counter.jointCounts[(b, a)], b);
    }
    assert m[counter.index[a]][counter.index[b]] > 0.0;
  }

  /** The transition matrix a fit stores. */
  ghost function FittedMatrix(counter: Counter): (m: Matrix)
    requires Fittable(counter)
    ensures IsSquare(m, counter.Size()) && NonNegative(m)
  {
    FittedBiasesWeighable(counter);
    var raw := RawMatrix(counter, FittedBiases(counter));
    RowNormalize(raw)
  }

  /** The fitted matrix is the normalised raw matrix of the fitted biases, which are weighable. */
  lemma FittedMatrixFromBiases(counter: Counter)
    requires Fittable(counter)
    ensures Weighable(counter, FittedBiases(counter))
    ensures FittedMatrix(counter) == RowNormalize(RawMatrix(counter, FittedBiases(counter)))
  {
    FittedBiasesWeighable(counter);
  }

  /** Every row of the fitted matrix either sums to 1 or is all zero, the latter exactly
      for symbols without edges; there are no self-loops. */
  lemma FittedMatrixIsStochastic(counter: Counter, r: int)
    requires Fittable(counter) && 0 <= r < counter.Size()
    ensures var raw := RawMatrix(counter, FittedBiases(counter));
            (!IsZeroRow(raw[r]) ==> Sum(FittedMatrix(counter)[r]) == 1.0) &&
            (IsZeroRow(raw[r]) ==> IsZeroRow(FittedMatrix(counter)[r]))
    ensures FittedMatrix(counter)[r][r] == 0.0
  {
    FittedBiasesWeighable(counter);
    var bias := FittedBiases(counter);
    var raw := RawMatrix(counter, bias);
    RowNormalizeIsStochastic(raw, r);
    RawMatrixNoSelfLoops(counter, bias, r);
  }

  /** The entries assembled so far account exactly for the joint counts of `done`. */
  ghost predicate Accounts(counter: Counter, bias: map<Symbol, real>, entries: seq<Entry>, done: set<SymbolPair>)
    requires Weighable(counter, bias) && done <= counter.jointCounts.Keys
  {
    && (forall i :: 0 <= i < |entries| ==>
          0 <= entries[i].row < counter.Size() && 0 <= entries[i].col < counter.Size())
    && (forall r, c :: 0 <= r < counter.Size() && 0 <= c < counter.Size() ==>
          CellSum(entries, r, c) == RawCell(counter, bias, done, r, c))
  }

  /** The two directed coordinate entries of one joint count: the entry at
      (index[symbol1], index[symbol2]) is p(symbol1 | symbol2), weighted by the bias
      of symbol2, and the mirrored entry is p(symbol2 | symbol1), weighted by the
      bias of symbol1. */
  function PairEntries(counter: Counter, bias: map<Symbol, real>, p: SymbolPair): (entries: seq<Entry>)
    requires Weighable(counter, bias) && p in counter.jointCounts
    ensures |entries| == 2
    ensures entries[0] == Entry(counter.index[p.0], counter.index[p.1],
                                EdgeWeight(counter, bias, counter.jointCounts[p], p.1))
    ensures entries[1] == Entry(counter.index[p.1], counter.index[p.0],
                                EdgeWeight(counter, bias, counter.jointCounts[p], p.0))
  {
    var (symbol1, symbol2) := p;
    var jointCount := counter.jointCounts[p];
    var symb1Idx, symb2Idx := counter.index[symbol1], counter.index[symbol2];
    [Entry(symb1Idx, symb2Idx, EdgeWeight(counter, bias, jointCount, symbol2)),
     Entry(symb2Idx, symb1Idx, EdgeWeight(counter, bias, jointCount, symbol1))]
  }

  /** Appending the entries of one more joint count keeps the accounting exact. */
  lemma AppendPairEntries(counter: Counter, bias: map<Symbol, real>, entries: seq<Entry>,
                          done: set<SymbolPair>, p: SymbolPair)
    requires Weighable(counter, bias) && done <= counter.jointCounts.Keys
    requires p in counter.jointCounts && p !in done
    requires Accounts(counter, bias, entries, done)
    ensures Accounts(counter, bias, entries + PairEntries(counter, bias, p), done + {p})
  {
    var n := counter.Size();
    var added := PairEntries(counter, bias, p);
    var forward, backward := added[0], added[1];
    assert entries + added == entries + [forward] + [backward];
    forall r, c | 0 <= r < n && 0 <= c < n
      ensures CellSum(entries + [forward] + [backward], r, c) == RawCell(counter, bias, done + {p}, r, c)
    {
      CellSumAppend(entries, forward, r, c);
      CellSumAppend(entries + [forward], backward, r, c);
      RawCellAddPair(counter, bias, done, p, r, c);
    }
  }

  /** The coordinate-format entries of every joint count, two per pair, in the
      order the pairs are visited; together they account for the raw matrix. */
  method CollectEntries(counter: Counter, bias: map<Symbol, real>) returns (entries: seq<Entry>)
    requires Weighable(counter, bias)
    ensures Accounts(counter, bias, entries, counter.jointCounts.Keys)
    ensures |entries| == 2 * |counter.jointCounts|
  {
    entries := [];
    var pending := counter.jointCounts.Keys;
    ghost var done: set<SymbolPair> := {};
    while pending != {}
      invariant done <= counter.jointCounts.Keys && pending == counter.jointCounts.Keys - done
      invariant Accounts(counter, bias, entries, done)
      invariant |entries| == 2 * |done|
      decreases pending
    {
      var pair :| pair in pending;
      AppendPairEntries(counter, bias, entries, done, pair);
      entries := entries + PairEntries(counter, bias, pair);
      pending := pending - {pair};
      done := done + {pair};
    }
    Exhausted(done, counter.jointCounts.Keys);
  }

  /** Once every joint count is accounted for, assembling the entries gives the raw matrix. */
  lemma AssembledIsRaw(counter: Counter, bias: map<Symbol, real>, entries: seq<Entry>)
    requires Weighable(counter, bias)
    requires Accounts(counter, bias, entries, counter.jointCounts.Keys)
    ensures Assemble(counter.Size(), entries) == RawMatrix(counter, bias)
  {
    var n := counter.Size();
    var raw, spec := Assemble(n, entries), RawMatrix(counter, bias);
    forall r | 0 <= r < n ensures raw[r] == spec[r] {
      assert forall c :: 0 <= c < n ==> raw[r][c] == spec[r][c];
    }
  }

  class CBRW {
    var counter: Counter
    var biasDict: Option<map<Symbol, real>>
    var transMatrix: Option<Matrix>

    /** A model over the given counter statistics, not yet fitted. */
    constructor (counter: Counter)
      ensures this.counter == counter && biasDict == None && transMatrix == None
    {
      this.counter := counter;
      biasDict := None;
      transMatrix := None;
    }

    /** Computes the bias weights of all values, one feature at a time. */
    method ComputeBiases()
      requires counter.ValidCounts() && counter.nObs > 0
      modifies this`biasDict
      ensures biasDict == Some(FittedBiases(counter))
    {
      var stats := counter;
      var biases: map<Symbol, real> := map[];
      var pending := stats.counts.Keys;
      ghost var done: set<Feature> := {};
      while pending != {}
        invariant done <= stats.counts.Keys && pending == stats.counts.Keys - done
        invariant HoldsBiasesOf(stats, biases, done)
        decreases pending
      {
        var featureName :| featureName in pending;
        AddFeatureBiases(stats, biases, done, featureName);
        biases := biases + FeatureBiases(stats.counts[featureName], stats.nObs);
        pending := pending - {featureName};
        done := done + {featureName};
      }
      Exhausted(done, stats.counts.Keys);
      FittedBiasesDeterministic(stats, biases);
      biasDict := Some(biases);
    }

    /** Builds the transition matrix from the joint counts and the stored bias weights.
        Without any joint count the coordinate list is empty, the sparse matrix cannot
        be built from it, and the stored matrix is left as it was. */
    method ComputeTransMatrix() returns (outcome: Result<()>)
      requires biasDict.Some? && Weighable(counter, biasDict.value)
      modifies this`transMatrix
      ensures |counter.jointCounts| == 0 ==>
                outcome == Err("invalid input format") && transMatrix == old(transMatrix)
      ensures |counter.jointCounts| != 0 ==>
                outcome == Ok(()) && transMatrix == Some(RowNormalize(RawMatrix(counter, biasDict.value)))
    {
      var entries := CollectEntries(counter, biasDict.value);
      if |entries| == 0 {
        return Err("invalid input format");
      }
      var rawMatrix := Assemble(counter.Size(), entries);
      AssembledIsRaw(counter, biasDict.value, entries);
      transMatrix := Some(RowNormalize(rawMatrix));
      return Ok(());
    }

    /** Fits the model: fails when no observation was counted; otherwise stores the
        bias weights and then builds the transition matrix, which fails when no two
        symbols ever co-occurred, and on success returns the model itself. */
    method Fit() returns (result: Result<CBRW>)
      requires counter.Valid()
      modifies this`biasDict, this`transMatrix
      ensures counter.nObs == 0 ==>
                && result == Err("no observations provided")
                && biasDict == old(biasDict) && transMatrix == old(transMatrix)
      ensures counter.nObs != 0 && |counter.jointCounts| == 0 ==>
                && result == Err("invalid input format")
                && biasDict == Some(FittedBiases(counter)) && transMatrix == old(transMatrix)
      ensures counter.nObs != 0 && |counter.jointCounts| != 0 ==>
                && result == Ok(this)
                && biasDict == Some(FittedBiases(counter))
                && transMatrix == Some(FittedMatrix(counter))
    {
      if counter.nObs == 0 {
        return Err("no observations provided");
      }
      ghost var stats := counter;
      ComputeBiases();
      assert counter == stats;
      FittedMatrixFromBiases(stats);
      assert biasDict.value == FittedBiases(stats);
      assert Weighable(counter, biasDict.value);
      var built := ComputeTransMatrix();
      if built.Err? {
        return Err(built.message);
      }
      return Ok(this);
    }
  }
}
