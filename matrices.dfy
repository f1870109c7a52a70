/**
 * Matrices as the fitted model sees them. A sparse matrix is modelled by the
 * dense matrix it stands for: n rows of n reals, an entry that is not stored
 * being 0. Coordinate-format entries are assembled by summing the weights
 * that land on the same cell, and row normalisation divides every non-zero
 * entry by its row's sum.
 */
module Matrices {

  type Matrix = seq<seq<real>>

  /** One coordinate-format entry: a weight placed at (row, col). */
  datatype Entry = Entry(row: int, col: int, weight: real)

  predicate IsSquare(m: Matrix, n: nat) {
    |m| == n && forall r :: 0 <= r < n ==> |m[r]| == n
  }

  predicate NonNegative(m: Matrix) {
    forall r, c :: 0 <= r < |m| && 0 <= c < |m[r]| ==> m[r][c] >= 0.0
  }

  predicate IsZeroRow(row: seq<real>) {
    forall c :: 0 <= c < |row| ==> row[c] == 0.0
  }

  /** Total weight of the entries placed at (r, c). */
  function CellSum(entries: seq<Entry>, r: int, c: int): (w: real) {
    if |entries| == 0 then 0.0
    else
      var last := entries[|entries| - 1];
      CellSum(entries[..|entries| - 1], r, c) + (if last.row == r && last.col == c then last.weight else 0.0)
  }

  /** Appending an entry adds its weight to its own cell and to no other. */
  lemma CellSumAppend(entries: seq<Entry>, e: Entry, r: int, c: int)
    ensures CellSum(entries + [e], r, c) ==
            CellSum(entries, r, c) + (if e.row == r && e.col == c then e.weight else 0.0)
  {
    assert (entries + [e])[..|entries|] == entries;
  }

  /** A cell that no entry lands on holds 0. */
  lemma {:induction false} CellSumUntouched(entries: seq<Entry>, r: int, c: int)
    requires forall i :: 0 <= i < |entries| ==> entries[i].row != r || entries[i].col != c
    ensures CellSum(entries, r, c) == 0.0
  {
    if |entries| > 0 {
      CellSumUntouched(entries[..|entries| - 1], r, c);
    }
  }

  lemma {:induction false} CellSumNonNegative(entries: seq<Entry>, r: int, c: int)
    requires forall i :: 0 <= i < |entries| ==> entries[i].weight >= 0.0
    ensures CellSum(entries, r, c) >= 0.0
  {
    if |entries| > 0 {
      CellSumNonNegative(entries[..|entries| - 1], r, c);
    }
  }

  /** The n-by-n matrix built from coordinate-format entries, duplicates summed. */
  function Assemble(n: nat, entries: seq<Entry>): (m: Matrix)
    requires forall i :: 0 <= i < |entries| ==> 0 <= entries[i].row < n && 0 <= entries[i].col < n
    ensures IsSquare(m, n)
    ensures forall r, c :: 0 <= r < n && 0 <= c < n ==> m[r][c] == CellSum(entries, r, c)
  {
    seq(n, r => seq(n, c => CellSum(entries, r, c)))
  }

  lemma AssembleNonNegative(n: nat, entries: seq<Entry>)
    requires forall i :: 0 <= i < |entries| ==> 0 <= entries[i].row < n && 0 <= entries[i].col < n
    requires forall i :: 0 <= i < |entries| ==> entries[i].weight >= 0.0
    ensures NonNegative(Assemble(n, entries))
  {
    forall r, c | 0 <= r < n && 0 <= c < n ensures Assemble(n, entries)[r][c] >= 0.0 {
      CellSumNonNegative(entries, r, c);
    }
  }

  /** The sum of a row, as `sum(axis=1)` computes it for one row. */
  function Sum(row: seq<real>): (total: real) {
    if |row| == 0 then 0.0 else Sum(row[..|row| - 1]) + row[|row| - 1]
  }

  /** An all-zero row sums to 0. */
  lemma {:induction false} SumOfZeroRow(row: seq<real>)
    requires IsZeroRow(row)
    ensures Sum(row) == 0.0
  {
    if |row| > 0 {
      SumOfZeroRow(row[..|row| - 1]);
    }
  }

  /** A row of non-negative reals sums to at least each of its entries. */
  lemma {:induction false} SumBounds(row: seq<real>)
    requires forall c :: 0 <= c < |row| ==> row[c] >= 0.0
    ensures Sum(row) >= 0.0
    ensures forall c :: 0 <= c < |row| ==> row[c] <= Sum(row)
  {
    if |row| > 0 {
      var init := row[..|row| - 1];
      SumBounds(init);
      assert forall c :: 0 <= c < |init| ==> init[c] == row[c];
    }
  }

  /** Each non-zero entry divided by t; zero entries stay zero and are never divided. */
  function DivideNonZero(row: seq<real>, t: real): (out: seq<real>)
    requires forall c :: 0 <= c < |row| && row[c] != 0.0 ==> t != 0.0
    ensures |out| == |row|
    ensures forall c :: 0 <= c < |row| ==> out[c] == if row[c] != 0.0 then row[c] / t else 0.0
  {
    seq(|row|, c requires 0 <= c < |row| => if row[c] != 0.0 then row[c] / t else 0.0)
  }

  lemma DivideDistributes(x: real, y: real, t: real)
    requires t != 0.0
    ensures x / t + y / t == (x + y) / t
  {
  }

  lemma {:induction false} SumDivideNonZero(row: seq<real>, t: real)
    requires t != 0.0
    ensures Sum(DivideNonZero(row, t)) == Sum(row) / t
  {
    if |row| > 0 {
      var init := row[..|row| - 1];
      var out := DivideNonZero(row, t);
      SumDivideNonZero(init, t);
      assert out[..|row| - 1] == DivideNonZero(init, t);
      var last := row[|row| - 1];
      assert out[|row| - 1] == last / t;
      DivideDistributes(Sum(init), last, t);
    }
  }

  lemma QuotientsInUnitInterval(row: seq<real>, t: real)
    requires forall c :: 0 <= c < |row| ==> 0.0 <= row[c] <= t
    ensures forall c :: 0 <= c < |row| && row[c] != 0.0 ==> 0.0 <= row[c] / t <= 1.0
  {
    forall c | 0 <= c < |row| && row[c] != 0.0 ensures 0.0 <= row[c] / t <= 1.0 {
      assert 0.0 < row[c] <= t;
      assert row[c] / t <= t / t;
    }
  }

  /** One row normalised: its non-zero entries divided by the row's sum. */
  function NormalizeRow(row: seq<real>): (out: seq<real>)
    requires forall c :: 0 <= c < |row| ==> row[c] >= 0.0
    ensures |out| == |row|
    ensures forall c :: 0 <= c < |row| ==> (out[c] != 0.0 <==> row[c] != 0.0)
    ensures forall c :: 0 <= c < |row| ==> 0.0 <= out[c] <= 1.0
    ensures forall c :: 0 <= c < |row| && row[c] != 0.0 ==> Sum(row) > 0.0 && out[c] == row[c] / Sum(row)
  {
    SumBounds(row);
    QuotientsInUnitInterval(row, Sum(row));
    DivideNonZero(row, Sum(row))
  }

  /** A new matrix of the same shape whose rows are normalised. */
  function RowNormalize(m: Matrix): (out: Matrix)
    requires NonNegative(m)
    ensures |out| == |m|
    ensures forall r :: 0 <= r < |m| ==> |out[r]| == |m[r]|
    ensures forall r, c :: 0 <= r < |m| && 0 <= c < |m[r]| ==> (out[r][c] != 0.0 <==> m[r][c] != 0.0)
    ensures forall r, c :: 0 <= r < |m| && 0 <= c < |m[r]| ==> 0.0 <= out[r][c] <= 1.0
    ensures forall r, c :: 0 <= r < |m| && 0 <= c < |m[r]| && m[r][c] != 0.0 ==>
              Sum(m[r]) > 0.0 && out[r][c] == m[r][c] / Sum(m[r])
  {
    seq(|m|, r requires 0 <= r < |m| => NormalizeRow(m[r]))
  }

  lemma SeqsEqual(a: seq<real>, b: seq<real>)
    requires |a| == |b| && forall c :: 0 <= c < |a| ==> a[c] == b[c]
    ensures a == b
  {
  }

  lemma SelfQuotient(t: real)
    requires t != 0.0
    ensures t / t == 1.0
  {
  }

  lemma PositiveSum(row: seq<real>, c: int)
    requires forall i :: 0 <= i < |row| ==> row[i] >= 0.0
    requires 0 <= c < |row| && row[c] != 0.0
    ensures Sum(row) > 0.0
  {
    SumBounds(row);
  }

  /** A row with a non-zero entry sums to 1 once normalised. */
  lemma NormalizeRowSumsToOne(row: seq<real>)
    requires forall c :: 0 <= c < |row| ==> row[c] >= 0.0
    requires !IsZeroRow(row)
    ensures Sum(NormalizeRow(row)) == 1.0
  {
    var c :| 0 <= c < |row| && row[c] != 0.0;
    PositiveSum(row, c);
    var total := Sum(row);
    SumDivideNonZero(row, total);
    assert NormalizeRow(row) == DivideNonZero(row, total);
    SelfQuotient(total);
  }

  /** An all-zero row is left as it was. */
  lemma NormalizeZeroRow(row: seq<real>)
    requires IsZeroRow(row)
    ensures NormalizeRow(row) == row
  {
    SeqsEqual(NormalizeRow(row), row);
  }

  /** Every row with a non-zero entry sums to 1 after normalisation; an all-zero row is returned as it was. */
  lemma RowNormalizeIsStochastic(m: Matrix, r: int)
    requires NonNegative(m) && 0 <= r < |m|
    ensures !IsZeroRow(m[r]) ==> Sum(RowNormalize(m)[r]) == 1.0
    ensures IsZeroRow(m[r]) ==> RowNormalize(m)[r] == m[r]
  {
    assert RowNormalize(m)[r] == NormalizeRow(m[r]);
    if IsZeroRow(m[r]) {
      NormalizeZeroRow(m[r]);
    } else {
      NormalizeRowSumsToOne(m[r]);
    }
  }

  /** Normalising an already normalised matrix changes nothing. */
  lemma RowNormalizeIdempotent(m: Matrix)
    requires NonNegative(m)
    ensures NonNegative(RowNormalize(m))
    ensures RowNormalize(RowNormalize(m)) == RowNormalize(m)
  {
    var once := RowNormalize(m);
    var twice := RowNormalize(once);
    forall r | 0 <= r < |m| ensures twice[r] == once[r] {
      RowNormalizeIsStochastic(m, r);
      if IsZeroRow(m[r]) {
        assert IsZeroRow(once[r]);
        RowNormalizeIsStochastic(once, r);
      } else {
        assert Sum(once[r]) == 1.0;
      }
    }
  }
}
