/** What the solver's two objective-building steps produce: the Phase I tableau
    built from `A x <= b`, and the Phase II objective row priced out against
    the current basis. */
module Phases {
  import opened Tableau

  // ---------------------------------------------------------------- Phase I layout

  /** A row with a negative right-hand side is negated; it then gets a surplus
      and an artificial column instead of a single slack column. */
  predicate Flipped(b: seq<real>, r: nat)
    requires r < |b|
  {
    b[r] < 0.0
  }

  /** Columns the rows before `k` add: two for a flipped row, one otherwise. */
  function AddedColumns(b: seq<real>, k: nat): nat
    requires k <= |b|
  {
    if k == 0 then 0 else AddedColumns(b, k - 1) + (if Flipped(b, k - 1) then 2 else 1)
  }

  /** Index of the first column row `k` adds: its slack, or its surplus. */
  function Offset(n: nat, b: seq<real>, k: nat): nat
    requires k <= |b|
  {
    n + AddedColumns(b, k)
  }

  /** The column that is basic in row `r`: its slack, or its artificial. */
  function BasicColumn(n: nat, b: seq<real>, r: nat): nat
    requires r < |b|
  {
    if Flipped(b, r) then Offset(n, b, r) + 1 else Offset(n, b, r)
  }

  /** Later rows' columns come after all columns of earlier rows. */
  lemma {:induction false} OffsetGrows(n: nat, b: seq<real>, r: nat, k: nat)
    requires r < k <= |b|
    ensures Offset(n, b, r) + (if Flipped(b, r) then 2 else 1) <= Offset(n, b, k)
    decreases k
  {
    if r < k - 1 {
      OffsetGrows(n, b, r, k - 1);
    }
  }

  predicate WellFormed(A: seq<seq<real>>, b: seq<real>, n: nat) {
    |A| == |b| && forall r :: 0 <= r < |A| ==> |A[r]| == n
  }

  /** Entry of constraint row `r` in column `j` (any column left of the RHS). */
  function Entry(A: seq<seq<real>>, b: seq<real>, n: nat, r: nat, j: nat): real
    requires WellFormed(A, b, n) && r < |b|
  {
    if j < n then (if Flipped(b, r) then -A[r][j] else A[r][j])
    else if j == Offset(n, b, r) then (if Flipped(b, r) then -1.0 else 1.0)
    else if Flipped(b, r) && j == Offset(n, b, r) + 1 then 1.0
    else 0.0
  }

  /** Constraint row `r` over `cols` columns, followed by its (non-negative) RHS. */
  function ConstraintRow(A: seq<seq<real>>, b: seq<real>, n: nat, r: nat, cols: nat): (row: Row)
    requires WellFormed(A, b, n) && r < |b|
    ensures |row| == cols + 1
  {
    seq(cols, j requires 0 <= j < cols => Entry(A, b, n, r, j)) + [if Flipped(b, r) then -b[r] else b[r]]
  }

  /** The first `k` constraint rows over `cols` columns. */
  function ConstraintRows(A: seq<seq<real>>, b: seq<real>, n: nat, k: nat, cols: nat): (rows: Matrix)
    requires WellFormed(A, b, n) && k <= |b|
    ensures |rows| == k && forall r :: 0 <= r < k ==> |rows[r]| == cols + 1
  {
    seq(k, r requires 0 <= r < k => ConstraintRow(A, b, n, r, cols))
  }

  function Basis(n: nat, b: seq<real>, k: nat): (bv: seq<int>)
    requires k <= |b|
    ensures |bv| == k
  {
    seq(k, r requires 0 <= r < k => BasicColumn(n, b, r))
  }

  function Artificials(n: nat, b: seq<real>, k: nat): set<int>
    requires k <= |b|
  {
    set r | 0 <= r < k && Flipped(b, r) :: BasicColumn(n, b, r)
  }

  /** Inserting a zero column at index `cols`, right of every column row `r`
      owns, turns the row over `cols` columns into the row over `cols + 1`. */
  lemma InsertZeroColumn(A: seq<seq<real>>, b: seq<real>, n: nat, r: nat, cols: nat)
    requires WellFormed(A, b, n) && r < |b| && Offset(n, b, r + 1) <= cols
    ensures var row := ConstraintRow(A, b, n, r, cols);
      row[..cols] + [0.0] + row[cols..] == ConstraintRow(A, b, n, r, cols + 1)
  {
    var row := ConstraintRow(A, b, n, r, cols);
    var row' := ConstraintRow(A, b, n, r, cols + 1);
    assert Entry(A, b, n, r, cols) == 0.0;
    assert row[..cols] + [0.0] + row[cols..] == row';
  }

  /** A zero column inserted at `cols` into the first `k` rows. */
  lemma InsertZeroColumnRows(A: seq<seq<real>>, b: seq<real>, n: nat, k: nat, cols: nat)
    requires WellFormed(A, b, n) && k <= |b| && Offset(n, b, k) <= cols
    ensures InsertedColumn(ConstraintRows(A, b, n, k, cols), cols) == ConstraintRows(A, b, n, k, cols + 1)
  {
    forall r | 0 <= r < k
      ensures InsertZero(ConstraintRows(A, b, n, k, cols)[r], cols) == ConstraintRows(A, b, n, k, cols + 1)[r]
    {
      OffsetGrows(n, b, r, k);
      if r + 1 < k {
        OffsetGrows(n, b, r + 1, k);
      }
      assert Offset(n, b, r + 1) <= cols;
      InsertZeroColumn(A, b, n, r, cols);
    }
  }

  /** The row the solver assembles for a row with `b[i] >= 0`: `A[i]`, zeros up
      to its slack column, the slack's 1, and the RHS. */
  lemma SlackRow(A: seq<seq<real>>, b: seq<real>, n: nat, i: nat)
    requires WellFormed(A, b, n) && i < |b| && !Flipped(b, i)
    ensures Offset(n, b, i) >= n
    ensures (A[i] + Zeros(Offset(n, b, i) + 1 - n))[Offset(n, b, i) := 1.0] + [b[i]]
         == ConstraintRow(A, b, n, i, Offset(n, b, i + 1))
  {
    var off := Offset(n, b, i);
    var lhs := (A[i] + Zeros(off + 1 - n))[off := 1.0] + [b[i]];
    var rhs := ConstraintRow(A, b, n, i, Offset(n, b, i + 1));
    assert |lhs| == |rhs|;
    forall j | 0 <= j < |lhs| ensures lhs[j] == rhs[j] {
      if j < off + 1 {
        assert rhs[j] == Entry(A, b, n, i, j);
      }
    }
  }

  /** The row the solver assembles for a row with `b[i] < 0`: `-A[i]`, zeros up
      to its surplus column, the surplus's -1, the artificial's 1, and `-b[i]`. */
  lemma SurplusRow(A: seq<seq<real>>, b: seq<real>, n: nat, i: nat)
    requires WellFormed(A, b, n) && i < |b| && Flipped(b, i)
    ensures Offset(n, b, i) >= n
    ensures ((Negated(A[i]) + Zeros(Offset(n, b, i) + 1 - n))[Offset(n, b, i) := -1.0] + Zeros(1))[Offset(n, b, i) + 1 := 1.0] + [-b[i]]
         == ConstraintRow(A, b, n, i, Offset(n, b, i + 1))
  {
    var off := Offset(n, b, i);
    var lhs := ((Negated(A[i]) + Zeros(off + 1 - n))[off := -1.0] + Zeros(1))[off + 1 := 1.0] + [-b[i]];
    var rhs := ConstraintRow(A, b, n, i, Offset(n, b, i + 1));
    assert |lhs| == |rhs|;
    forall j | 0 <= j < |lhs| ensures lhs[j] == rhs[j] {
      if j < off + 2 {
        assert rhs[j] == Entry(A, b, n, i, j);
      }
    }
  }

  /** The basic column of row `r` is 1 in row `r` and 0 in every other
      constraint row, and it is an artificial column exactly when row `r` is
      flipped. */
  lemma BasicColumnUnit(A: seq<seq<real>>, b: seq<real>, n: nat, r: nat, k: nat)
    requires WellFormed(A, b, n) && r < k <= |b|
    ensures n <= BasicColumn(n, b, r) < Offset(n, b, k)
    ensures forall q :: 0 <= q < k ==> Entry(A, b, n, q, BasicColumn(n, b, r)) == if q == r then 1.0 else 0.0
    ensures BasicColumn(n, b, r) in Artificials(n, b, k) <==> Flipped(b, r)
  {
    var c := BasicColumn(n, b, r);
    OffsetGrows(n, b, r, k);
    forall q | 0 <= q < k && q != r
      ensures Offset(n, b, q) != c && !(Flipped(b, q) && Offset(n, b, q) + 1 == c)
    {
      if q < r { OffsetGrows(n, b, q, r); } else { OffsetGrows(n, b, r, q); }
    }
    if c in Artificials(n, b, k) {
      var q :| 0 <= q < k && Flipped(b, q) && BasicColumn(n, b, q) == c;
    }
  }

  /** Every artificial column is right of the decision columns and left of the RHS. */
  lemma ArtificialsRange(n: nat, b: seq<real>, k: nat)
    requires k <= |b|
    ensures forall c :: c in Artificials(n, b, k) ==> n <= c < Offset(n, b, k)
  {
    forall c | c in Artificials(n, b, k) ensures n <= c < Offset(n, b, k) {
      var r :| 0 <= r < k && Flipped(b, r) && BasicColumn(n, b, r) == c;
      OffsetGrows(n, b, r, k);
    }
  }

  /** Row `k` adds its basic column to the artificials exactly when it is flipped. */
  lemma ArtificialsStep(n: nat, b: seq<real>, k: nat)
    requires k < |b|
    ensures Artificials(n, b, k + 1) == Artificials(n, b, k) + (if Flipped(b, k) then {BasicColumn(n, b, k)} else {})
  {
  }

  // ---------------------------------------------------------------- Phase I objective

  /** Column `j` of the sum of the first `k` rows, counting only flipped rows. */
  function FlippedSum(rows: Matrix, b: seq<real>, k: nat, j: nat): real
    requires k <= |rows| && k <= |b| && forall r :: 0 <= r < k ==> j < |rows[r]|
  {
    if k == 0 then 0.0 else FlippedSum(rows, b, k - 1, j) + (if Flipped(b, k - 1) then rows[k - 1][j] else 0.0)
  }

  /** The Phase I objective row over `W` columns: 1 in each artificial column,
      less every flipped row. */
  function PhaseIObjective(rows: Matrix, b: seq<real>, art: set<int>, W: nat): (obj: Row)
    requires |rows| <= |b| && forall r :: 0 <= r < |rows| ==> |rows[r]| == W
    ensures |obj| == W
  {
    seq(W, j requires 0 <= j < W => (if j in art then 1.0 else 0.0) - FlippedSum(rows, b, |rows|, j))
  }

  /** Sum of the flipped rows' right-hand sides, `-b[r]` each. */
  function FlippedRhs(b: seq<real>, k: nat): real
    requires k <= |b|
  {
    if k == 0 then 0.0 else FlippedRhs(b, k - 1) + (if Flipped(b, k - 1) then -b[k - 1] else 0.0)
  }

  lemma {:induction false} FlippedRhsNonNegative(b: seq<real>, k: nat)
    requires k <= |b|
    ensures FlippedRhs(b, k) >= 0.0
  {
    if k > 0 {
      FlippedRhsNonNegative(b, k - 1);
    }
  }

  /** Summing a column in which only row `r` may be non-zero. */
  lemma {:induction false} FlippedSumSingle(rows: Matrix, b: seq<real>, k: nat, j: nat, r: int)
    requires k <= |rows| && k <= |b| && forall q :: 0 <= q < k ==> j < |rows[q]|
    requires forall q :: 0 <= q < k && q != r ==> rows[q][j] == 0.0
    ensures FlippedSum(rows, b, k, j) == if 0 <= r < k && Flipped(b, r) then rows[r][j] else 0.0
  {
    if k > 0 {
      FlippedSumSingle(rows, b, k - 1, j, r);
    }
  }

  lemma {:induction false} FlippedSumRhs(A: seq<seq<real>>, b: seq<real>, n: nat, k: nat, cols: nat)
    requires WellFormed(A, b, n) && k <= |b|
    ensures FlippedSum(ConstraintRows(A, b, n, k, cols), b, k, cols) == FlippedRhs(b, k)
  {
    var rows := ConstraintRows(A, b, n, k, cols);
    if k > 0 {
      FlippedSumRhs(A, b, n, k - 1, cols);
      var rows' := ConstraintRows(A, b, n, k - 1, cols);
      FlippedSumPrefix(rows, rows', b, k - 1, cols);
    }
  }

  lemma {:induction false} FlippedSumPrefix(rows: Matrix, rows': Matrix, b: seq<real>, k: nat, j: nat)
    requires k <= |rows| && k <= |rows'| && k <= |b|
    requires forall q :: 0 <= q < k ==> rows[q] == rows'[q] && j < |rows[q]|
    ensures FlippedSum(rows, b, k, j) == FlippedSum(rows', b, k, j)
  {
    if k > 0 {
      FlippedSumPrefix(rows, rows', b, k - 1, j);
    }
  }

  /** The Phase I tableau: all constraint rows, then the Phase I objective. */
  function PhaseITableau(A: seq<seq<real>>, b: seq<real>, n: nat): (T: Matrix)
    requires WellFormed(A, b, n) && |b| > 0
    ensures IsTableau(T) && |T| == |b| + 1 && Width(T) == Offset(n, b, |b|) + 1
  {
    var cols := Offset(n, b, |b|);
    var rows := ConstraintRows(A, b, n, |b|, cols);
    rows + [PhaseIObjective(rows, b, Artificials(n, b, |b|), cols + 1)]
  }

  /** Row `i`'s basic column is the unit vector of row `i` in the Phase I tableau. */
  lemma PhaseIBasicUnit(A: seq<seq<real>>, b: seq<real>, n: nat, i: nat)
    requires WellFormed(A, b, n) && i < |b|
    ensures BasicColumn(n, b, i) < Width(PhaseITableau(A, b, n)) - 1
    ensures UnitColumn(PhaseITableau(A, b, n), BasicColumn(n, b, i), i)
  {
    var m := |b|;
    var cols := Offset(n, b, m);
    var rows := ConstraintRows(A, b, n, m, cols);
    var T := PhaseITableau(A, b, n);
    var c := BasicColumn(n, b, i);
    BasicColumnUnit(A, b, n, i, m);
    forall q | 0 <= q < m ensures rows[q][c] == if q == i then 1.0 else 0.0 {
      assert rows[q][c] == Entry(A, b, n, q, c);
    }
    FlippedSumSingle(rows, b, m, c, i);
    assert T[m][c] == 0.0;
    forall q | 0 <= q < |T| ensures T[q][c] == if q == i then 1.0 else 0.0 {
      if q < m { assert T[q] == rows[q]; }
    }
  }

  /** The Phase I tableau is canonical for the slack/artificial basis, over
      constraint rows and objective row alike, and its artificial columns lie
      between the decision columns and the RHS. */
  lemma PhaseICanonical(A: seq<seq<real>>, b: seq<real>, n: nat)
    requires WellFormed(A, b, n) && |b| > 0
    ensures Canonical(PhaseITableau(A, b, n), Basis(n, b, |b|))
    ensures n < Width(PhaseITableau(A, b, n))
    ensures forall c :: c in Artificials(n, b, |b|) ==> n <= c < Width(PhaseITableau(A, b, n)) - 1
  {
    var T := PhaseITableau(A, b, n);
    var bv := Basis(n, b, |b|);
    ArtificialsRange(n, b, |b|);
    forall i | 0 <= i < |b|
      ensures 0 <= bv[i] < Width(T) && UnitColumn(T, bv[i], i)
    {
      PhaseIBasicUnit(A, b, n, i);
    }
    OffsetGrows(n, b, 0, |b|);
  }

  /** Every constraint row of the Phase I tableau has a non-negative right-hand side. */
  lemma PhaseIRhsNonNegative(A: seq<seq<real>>, b: seq<real>, n: nat, r: nat)
    requires WellFormed(A, b, n) && r < |b|
    ensures Rhs(PhaseITableau(A, b, n), r) >= 0.0
  {
    var cols := Offset(n, b, |b|);
    assert PhaseITableau(A, b, n)[r] == ConstraintRow(A, b, n, r, cols);
  }

  /** Outside the artificial columns, the Phase I objective is minus the
      column's sum over the `k` negated rows. */
  lemma ObjectiveOffArtificial(rows: Matrix, b: seq<real>, art: set<int>, W: nat, j: nat, k: nat)
    requires k == |rows| <= |b| && forall r :: 0 <= r < |rows| ==> |rows[r]| == W
    requires j < W && j !in art
    ensures PhaseIObjective(rows, b, art, W)[j] == -FlippedSum(rows, b, k, j)
  {
  }

  lemma PhaseIObjectiveRhsEntry(A: seq<seq<real>>, b: seq<real>, n: nat)
    requires WellFormed(A, b, n) && |b| > 0
    ensures Rhs(PhaseITableau(A, b, n), |b|)
         == -FlippedSum(ConstraintRows(A, b, n, |b|, Offset(n, b, |b|)), b, |b|, Offset(n, b, |b|))
  {
    var m := |b|;
    var cols := Offset(n, b, m);
    var rows := ConstraintRows(A, b, n, m, cols);
    var art := Artificials(n, b, m);
    var T := PhaseITableau(A, b, n);
    var obj := PhaseIObjective(rows, b, art, cols + 1);
    PhaseIObjectiveRow(A, b, n);
    assert cols !in art by {
      ArtificialsRange(n, b, m);
    }
    ObjectiveOffArtificial(rows, b, art, cols + 1, cols, m);
    assert Rhs(T, m) == obj[cols];
  }

  /** The last row of the Phase I tableau is the Phase I objective. */
  lemma PhaseIObjectiveRow(A: seq<seq<real>>, b: seq<real>, n: nat)
    requires WellFormed(A, b, n) && |b| > 0
    ensures PhaseITableau(A, b, n)[|b|] ==
      PhaseIObjective(ConstraintRows(A, b, n, |b|, Offset(n, b, |b|)), b, Artificials(n, b, |b|), Offset(n, b, |b|) + 1)
  {
  }

  /** The Phase I objective's right-hand side is minus the sum of the flipped
      rows' right-hand sides, so it is never positive. */
  lemma PhaseIObjectiveRhs(A: seq<seq<real>>, b: seq<real>, n: nat)
    requires WellFormed(A, b, n) && |b| > 0
    ensures Rhs(PhaseITableau(A, b, n), |b|) == -FlippedRhs(b, |b|)
    ensures Rhs(PhaseITableau(A, b, n), |b|) <= 0.0
  {
    PhaseIObjectiveRhsEntry(A, b, n);
    FlippedSumRhs(A, b, n, |b|, Offset(n, b, |b|));
    FlippedRhsNonNegative(b, |b|);
  }

  // ---------------------------------------------------------------- Phase II objective

  /** `-c` over the decision columns, 0 elsewhere. */
  function CostRow(c: seq<real>, W: nat): (row: Row)
    ensures |row| == W
  {
    seq(W, j requires 0 <= j < W => if j < |c| then -c[j] else 0.0)
  }

  /** The objective row after adding `c[bv[r]]` times row `r`, for every row
      `r < i` whose basic variable is a decision variable. */
  function PricedOut(T: Matrix, bv: seq<int>, c: seq<real>, i: nat): (obj: Row)
    requires IsTableau(T) && |bv| == |T| - 1 && i <= |bv|
    ensures |obj| == Width(T)
  {
    if i == 0 then CostRow(c, Width(T))
    else
      var prev := PricedOut(T, bv, c, i - 1);
      if 0 <= bv[i - 1] < |c| then AddMultiple(prev, c[bv[i - 1]], T[i - 1]) else prev
  }

  lemma {:induction false} PricedOutOnBasis(T: Matrix, bv: seq<int>, c: seq<real>, i: nat, r: nat)
    requires IsTableau(T) && Canonical(T, bv) && i <= |bv| && r < |bv| && bv[r] != -1
    ensures PricedOut(T, bv, c, i)[bv[r]] ==
      (if bv[r] < |c| then -c[bv[r]] else 0.0) + (if r < i && bv[r] < |c| then c[bv[r]] else 0.0)
  {
    if i > 0 {
      PricedOutOnBasis(T, bv, c, i - 1, r);
      assert T[i - 1][bv[r]] == if i - 1 == r then 1.0 else 0.0;
    }
  }

  /** Priced out against a canonical basis, the objective row has reduced cost 0
      in every basic column. */
  lemma PricedOutCanonical(T: Matrix, bv: seq<int>, c: seq<real>)
    requires IsTableau(T) && Canonical(T, bv)
    ensures forall r :: 0 <= r < |bv| && bv[r] != -1 ==> PricedOut(T, bv, c, |bv|)[bv[r]] == 0.0
  {
    forall r | 0 <= r < |bv| && bv[r] != -1 ensures PricedOut(T, bv, c, |bv|)[bv[r]] == 0.0 {
      PricedOutOnBasis(T, bv, c, |bv|, r);
    }
  }

  /** A decision variable basic in row `i` is still 0 in the solution read off the rows before `i`. */
  lemma SolutionUpToFresh(T: Matrix, bv: seq<int>, n: nat, i: nat)
    requires IsTableau(T) && Canonical(T, bv) && i < |bv| && 0 <= bv[i] < n
    ensures SolutionUpTo(T, bv, n, i)[bv[i]] == 0.0
  {
    SolutionUpToValues(T, bv, n, i);
  }

  lemma {:induction false} PricedOutValueUpTo(T: Matrix, bv: seq<int>, c: seq<real>, i: nat)
    requires IsTableau(T) && Canonical(T, bv) && i <= |bv| && |c| < Width(T)
    ensures PricedOut(T, bv, c, i)[Width(T) - 1] == Dot(c, SolutionUpTo(T, bv, |c|, i))
  {
    if i == 0 {
      DotZeros(c);
    } else {
      PricedOutValueUpTo(T, bv, c, i - 1);
      if 0 <= bv[i - 1] < |c| {
        SolutionUpToFresh(T, bv, |c|, i - 1);
      }
      PricedOutValueStep(T, bv, c, i);
    }
  }

  /** Row `i - 1` adds the same amount to the priced-out RHS and to `c . x`. */
  lemma PricedOutValueStep(T: Matrix, bv: seq<int>, c: seq<real>, i: nat)
    requires IsTableau(T) && |bv| == |T| - 1 && 0 < i <= |bv| && |c| < Width(T)
    requires PricedOut(T, bv, c, i - 1)[Width(T) - 1] == Dot(c, SolutionUpTo(T, bv, |c|, i - 1))
    requires 0 <= bv[i - 1] < |c| ==> SolutionUpTo(T, bv, |c|, i - 1)[bv[i - 1]] == 0.0
    ensures PricedOut(T, bv, c, i)[Width(T) - 1] == Dot(c, SolutionUpTo(T, bv, |c|, i))
  {
    var j := bv[i - 1];
    var x := SolutionUpTo(T, bv, |c|, i - 1);
    var v := Rhs(T, i - 1);
    if 0 <= j < |c| {
      calc {
        PricedOut(T, bv, c, i)[Width(T) - 1];
        == { PricedOutRhsStep(T, bv, c, i); }
        PricedOut(T, bv, c, i - 1)[Width(T) - 1] + c[j] * v;
        ==
        Dot(c, x) + c[j] * v;
        == { DotSet(c, x, j, v); }
        Dot(c, x[j := v]);
        == { assert SolutionUpTo(T, bv, |c|, i) == x[j := v]; }
        Dot(c, SolutionUpTo(T, bv, |c|, i));
      }
    } else {
      assert PricedOut(T, bv, c, i) == PricedOut(T, bv, c, i - 1);
      assert SolutionUpTo(T, bv, |c|, i) == x;
    }
  }

  /** Setting a zero entry `x[k]` to `v` adds `c[k] * v` to the dot product. */
  lemma DotSet(c: Row, x: Row, k: nat, v: real)
    requires |c| == |x| && k < |x| && x[k] == 0.0
    ensures Dot(c, x[k := v]) == Dot(c, x) + c[k] * v
  {
    DotUpdate(c, x, k, v);
  }

  /** One row of pricing out adds `c[bv[i - 1]]` times that row's RHS to the objective's RHS. */
  lemma PricedOutRhsStep(T: Matrix, bv: seq<int>, c: seq<real>, i: nat)
    requires IsTableau(T) && |bv| == |T| - 1 && 0 < i <= |bv| && 0 <= bv[i - 1] < |c|
    ensures PricedOut(T, bv, c, i)[Width(T) - 1] ==
      PricedOut(T, bv, c, i - 1)[Width(T) - 1] + c[bv[i - 1]] * Rhs(T, i - 1)
  {
  }

  /** The priced-out objective's right-hand side is the objective value `c . x`
      of the basic solution `x` read off the tableau. */
  lemma PricedOutValue(T: Matrix, bv: seq<int>, c: seq<real>)
    requires IsTableau(T) && Canonical(T, bv) && |c| < Width(T)
    ensures PricedOut(T, bv, c, |bv|)[Width(T) - 1] == Dot(c, BasicSolution(T, bv, |c|))
  {
    PricedOutValueUpTo(T, bv, c, |bv|);
  }

  // ---------------------------------------------------------------- from Phase I to Phase II

  /** The pivot-out loop of the artificial removal from row `i` on: a row whose
      basic variable is artificial pivots on its first non-artificial entry above
      Eps10, or is deleted when it has none. After a deletion the next row moves
      into place `i` but the loop goes on with `i + 1`. */
  function PivotOut(s: State, art: set<int>, i: nat): (r: State)
    requires Shaped(s) && i <= |s.bv| + 1
    ensures Shaped(r) && Width(r.T) == Width(s.T) && |r.T| <= |s.T|
    decreases |s.bv| + 1 - i
  {
    if i >= |s.bv| then s
    else if s.bv[i] !in art then PivotOut(s, art, i + 1)
    else
      var col := FirstPivotable(s.T[i], art, 0);
      if col != -1 then PivotOut(State(Pivoted(s.T, col, i), s.bv[i := col]), art, i + 1)
      else
        RemoveRowShape(s.T, i);
        PivotOut(State(s.T[..i] + s.T[i + 1..], s.bv[..i] + s.bv[i + 1..]), art, i + 1)
  }

  /** The pivot-out loop keeps the tableau canonical. */
  lemma {:induction false} PivotOutCanonical(s: State, art: set<int>, i: nat)
    requires Shaped(s) && i <= |s.bv| + 1 && Canonical(s.T, s.bv)
    ensures Canonical(PivotOut(s, art, i).T, PivotOut(s, art, i).bv)
    decreases |s.bv| + 1 - i
  {
    if i < |s.bv| && s.bv[i] in art {
      var col := FirstPivotable(s.T[i], art, 0);
      if col != -1 {
        PivotCanonical(s.T, s.bv, col, i);
        PivotOutCanonical(State(Pivoted(s.T, col, i), s.bv[i := col]), art, i + 1);
      } else {
        RemoveRowCanonical(s.T, s.bv, i);
        PivotOutCanonical(State(s.T[..i] + s.T[i + 1..], s.bv[..i] + s.bv[i + 1..]), art, i + 1);
      }
    } else if i < |s.bv| {
      PivotOutCanonical(s, art, i + 1);
    }
  }

  /** The artificial removal: nothing without artificials; otherwise the
      pivot-out loop, then only the non-artificial columns and the RHS are kept and
      every basic index is sent through the old-to-new column map. */
  function DropArtificials(s: State, art: set<int>): (r: State)
    requires Shaped(s) && forall j :: j in art ==> 0 <= j < Width(s.T) - 1
    ensures Shaped(r) && |r.T| <= |s.T|
  {
    if art == {} then s else Compact(PivotOut(s, art, 0), art)
  }

  /** Only the non-artificial columns and the RHS are kept, and every basic
      index is sent through the old-to-new column map. */
  function Compact(p: State, art: set<int>): (r: State)
    requires Shaped(p)
    ensures Shaped(r) && |r.T| == |p.T|
  {
    var keep := KeptColumns(art, Width(p.T) - 1);
    KeptColumnsFacts(art, Width(p.T) - 1);
    State(Compacted(p.T, keep), Remapped(p.bv, keep))
  }

  /** Compaction by the kept columns `keep` of a state, spelled out. */
  lemma CompactOf(p: State, art: set<int>, keep: seq<int>)
    requires Shaped(p) && keep == KeptColumns(art, Width(p.T) - 1)
    ensures forall k :: 0 <= k < |keep| ==> 0 <= keep[k] < Width(p.T) - 1
    ensures Compact(p, art) == State(Compacted(p.T, keep), Remapped(p.bv, keep))
  {
    KeptColumnsFacts(art, Width(p.T) - 1);
  }

  /** After the artificial removal the tableau is canonical, narrower by the
      number of artificials, the decision columns and every RHS are those the
      pivot-out loop left, and each basic index is -1 or a column left of the RHS. */
  lemma DropArtificialsFacts(s: State, art: set<int>, n: nat)
    requires Shaped(s) && Canonical(s.T, s.bv) && n < Width(s.T)
    requires art != {} && forall j :: j in art ==> n <= j < Width(s.T) - 1
    ensures var r := DropArtificials(s, art);
      Canonical(r.T, r.bv) && Width(r.T) == Width(s.T) - |art| && n < Width(r.T)
    ensures var r := DropArtificials(s, art); var p := PivotOut(s, art, 0);
      |r.T| == |p.T| &&
      (forall q, k :: 0 <= q < |r.T| && 0 <= k < n ==> r.T[q][k] == p.T[q][k]) &&
      (forall q :: 0 <= q < |r.T| ==> Rhs(r.T, q) == Rhs(p.T, q))
    ensures var r := DropArtificials(s, art);
      forall q :: 0 <= q < |r.bv| ==> r.bv[q] == -1 || 0 <= r.bv[q] < Width(r.T) - 1
  {
    var p := PivotOut(s, art, 0);
    assert DropArtificials(s, art) == Compact(p, art);
    PivotOutCanonical(s, art, 0);
    CompactFacts(p, art, n);
  }

  /** Compacting a canonical state keeps it canonical, narrows it by the number
      of artificials and keeps its decision columns, every RHS and each basic
      index left of the RHS. */
  lemma CompactFacts(p: State, art: set<int>, n: nat)
    requires Shaped(p) && Canonical(p.T, p.bv) && n < Width(p.T)
    requires forall j :: j in art ==> n <= j < Width(p.T) - 1
    ensures var r := Compact(p, art);
      Canonical(r.T, r.bv) && Width(r.T) == Width(p.T) - |art| && n < Width(r.T) &&
      |r.T| == |p.T| &&
      (forall q, k :: 0 <= q < |r.T| && 0 <= k < n ==> r.T[q][k] == p.T[q][k]) &&
      (forall q :: 0 <= q < |r.T| ==> Rhs(r.T, q) == Rhs(p.T, q)) &&
      (forall q :: 0 <= q < |r.bv| ==> r.bv[q] == -1 || 0 <= r.bv[q] < Width(r.T) - 1)
  {
    var W := Width(p.T);
    var keep := KeptColumns(art, W - 1);
    KeptColumnsFacts(art, W - 1);
    KeptColumnsIdentity(art, n, W - 1);
    assert ArtBelow(art, W - 1) == art;
    CompactedCanonical(p.T, p.bv, keep);
  }

  /** The state Phase II starts from: the objective row replaced by `-c` priced
      out against the basis. */
  function PhaseIIStart(s: State, c: seq<real>): (r: State)
    requires Shaped(s)
    ensures Shaped(r) && |r.T| == |s.T| && Width(r.T) == Width(s.T) && r.bv == s.bv
    ensures forall q :: 0 <= q < |s.T| - 1 ==> r.T[q] == s.T[q]
  {
    State(s.T[|s.T| - 1 := PricedOut(s.T, s.bv, c, |s.bv|)], s.bv)
  }

  /** Phase II starts canonical, with reduced cost 0 in every basic column and
      the objective value `c . x` of the basic solution `x` as its RHS. */
  lemma PhaseIIStartFacts(s: State, c: seq<real>)
    requires Shaped(s) && Canonical(s.T, s.bv) && |c| < Width(s.T)
    ensures var r := PhaseIIStart(s, c);
      Canonical(r.T, r.bv) &&
      (forall q :: 0 <= q < |r.bv| && r.bv[q] != -1 ==> r.T[|r.T| - 1][r.bv[q]] == 0.0) &&
      Rhs(r.T, |r.T| - 1) == Dot(c, BasicSolution(r.T, r.bv, |c|))
  {
    var r := PhaseIIStart(s, c);
    PricedOutCanonical(s.T, s.bv, c);
    PricedOutValue(s.T, s.bv, c);
    SolutionSameRows(s.T, r.T, s.bv, |c|, |s.bv|);
    forall i | 0 <= i < |r.bv| && r.bv[i] != -1
      ensures 0 <= r.bv[i] < Width(r.T) && UnitColumn(r.T, r.bv[i], i)
    {
      assert UnitColumn(s.T, s.bv[i], i);
    }
  }

  /** The basic solution depends only on the constraint rows. */
  lemma {:induction false} SolutionSameRows(T: Matrix, T': Matrix, bv: seq<int>, n: nat, i: nat)
    requires IsTableau(T) && IsTableau(T') && |T| == |T'| && Width(T) == Width(T')
    requires |bv| == |T| - 1 && i <= |bv|
    requires forall r :: 0 <= r < |T| - 1 ==> T[r] == T'[r]
    ensures SolutionUpTo(T, bv, n, i) == SolutionUpTo(T', bv, n, i)
  {
    if i > 0 {
      SolutionSameRows(T, T', bv, n, i - 1);
    }
  }
}
