/**
 * The statistics that the observation counter exposes to fitting. The counter
 * itself (how observations are counted) is not part of this model: its state
 * is an input, and Valid() is the contract it promises its readers.
 */
module Observations {

  /** A (feature name, feature value) pair: one node of the transition graph. */
  type Symbol = (string, string)

  type Feature = string

  /** A pair of symbols that co-occurred, as the counter keys its joint counts. */
  type SymbolPair = (Symbol, Symbol)

  datatype Counter = Counter(
    index: map<Symbol, int>,                     // symbol -> row/column of the matrix
    counts: map<Feature, map<Symbol, int>>,      // feature -> (value -> count)
    jointCounts: map<SymbolPair, int>,           // co-occurring pair -> joint count
    symbolCounts: map<Symbol, int>,              // what get_count(symbol) returns
    nObs: int)                                   // observations ingested
  {
    /** Number of distinct symbols, the side of the transition matrix. */
    function Size(): nat {
      |index|
    }

    /** Every value of every feature. */
    ghost function Symbols(): set<Symbol> {
      SymbolsOf(counts.Keys)
    }

    /** The values of the features in `fs`. */
    ghost function SymbolsOf(fs: set<Feature>): set<Symbol> {
      set f, s | f in fs && f in counts && s in counts[f] :: s
    }

    /** The index is a bijection from the symbols onto [0, Size()). */
    ghost predicate DenseIndex() {
      && (forall s :: s in index ==> 0 <= index[s] < |index|)
      && (forall s, t :: s in index && t in index && s != t ==> index[s] != index[t])
      && (forall r :: 0 <= r < |index| ==> r in index.Values)
    }

    /** Each feature has at least one value; counts are positive and at most nObs;
        no symbol is a value of two features. */
    ghost predicate ValidCounts() {
      && (forall f :: f in counts ==> counts[f] != map[])
      && (forall f, s :: f in counts && s in counts[f] ==> 0 < counts[f][s] <= nObs)
      && (forall f, g, s :: f in counts && g in counts && s in counts[f] && s in counts[g] ==> f == g)
    }

    /** Joint counts are positive and pair two distinct, indexed symbols of positive count. */
    ghost predicate ValidJointCounts() {
      forall p :: p in jointCounts ==>
        && p.0 != p.1
        && jointCounts[p] > 0
        && p.0 in index && p.1 in index
        && p.0 in symbolCounts && p.1 in symbolCounts
        && symbolCounts[p.0] > 0 && symbolCounts[p.1] > 0
    }

    /** Both symbols of every joint count are values of some feature. */
    ghost predicate JointSymbolsObserved() {
      forall p :: p in jointCounts ==> p.0 in Symbols() && p.1 in Symbols()
    }

    ghost predicate Valid() {
      && nObs >= 0
      && DenseIndex()
      && ValidCounts()
      && ValidJointCounts()
      && JointSymbolsObserved()
    }
  }
}
