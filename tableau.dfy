/** Dense simplex tableaux over exact reals: their shape, canonical form, and the
    row operations, scans and column compaction the two-phase solver performs.
    A tableau has one row per constraint followed by the objective row; its last
    column is the right-hand side (RHS). With `T` a tableau, the number of
    constraint rows is `|T| - 1`. */
module Tableau {

  /** Tolerances of the solver. */
  const Eps12: real := 1e-12   // reduced costs, pivot-column entries, ratio ties
  const Eps10: real := 1e-10   // "non-negligible" coefficient when pivoting an artificial out

  type Row = seq<real>
  type Matrix = seq<Row>

  /** At least the objective row and the RHS column, and every row equally wide. */
  predicate IsTableau(T: Matrix) {
    |T| >= 1 && |T[0]| >= 1 && forall i :: 0 <= i < |T| ==> |T[i]| == |T[0]|
  }

  function Width(T: Matrix): nat
    requires |T| >= 1
  {
    |T[0]|
  }

  /** Right-hand side of row `i`. */
  function Rhs(T: Matrix, i: nat): real
    requires IsTableau(T) && i < |T|
  {
    T[i][Width(T) - 1]
  }

  /** Column `c` is the unit vector with its 1 in row `i`, across every row,
      the objective row included. */
  predicate UnitColumn(T: Matrix, c: nat, i: nat)
    requires IsTableau(T) && c < Width(T)
  {
    forall r :: 0 <= r < |T| ==> T[r][c] == if r == i then 1.0 else 0.0
  }

  /** One basic variable per constraint row; each is -1 (no basic variable) or a
      column that is the unit vector of its row. */
  predicate Canonical(T: Matrix, bv: seq<int>)
    requires IsTableau(T)
  {
    |bv| == |T| - 1 &&
    forall i :: 0 <= i < |bv| ==> bv[i] == -1 || (0 <= bv[i] < Width(T) && UnitColumn(T, bv[i], i))
  }

  /** Two rows never share a basic column. */
  lemma CanonicalDistinct(T: Matrix, bv: seq<int>, i: nat, k: nat)
    requires IsTableau(T) && Canonical(T, bv)
    requires i < |bv| && k < |bv| && i != k && bv[i] != -1
    ensures bv[i] != bv[k]
  {
    assert T[i][bv[i]] == 1.0;
    if bv[k] != -1 {
      assert T[i][bv[k]] == 0.0;
    }
  }

  // ---------------------------------------------------------------- row operations

  function ScaleRow(r: Row, p: real): (s: Row)
    requires p != 0.0
    ensures |s| == |r|
  {
    seq(|r|, j requires 0 <= j < |r| => r[j] / p)
  }

  function SubtractMultiple(r: Row, f: real, pr: Row): (s: Row)
    requires |pr| == |r|
    ensures |s| == |r|
  {
    seq(|r|, j requires 0 <= j < |r| => r[j] - f * pr[j])
  }

  function AddMultiple(r: Row, f: real, pr: Row): (s: Row)
    requires |pr| == |r|
    ensures |s| == |r|
  {
    seq(|r|, j requires 0 <= j < |r| => r[j] + f * pr[j])
  }

  function Negated(r: Row): (s: Row)
    ensures |s| == |r|
  {
    seq(|r|, j requires 0 <= j < |r| => -r[j])
  }

  /** `row` with a 0 inserted at index `idx`, every later entry moving one place right. */
  function InsertZero(row: Row, idx: nat): (s: Row)
    requires idx <= |row|
    ensures |s| == |row| + 1 && s[idx] == 0.0
    ensures forall j :: 0 <= j < idx ==> s[j] == row[j]
    ensures forall j :: idx <= j < |row| ==> s[j + 1] == row[j]
  {
    row[..idx] + [0.0] + row[idx..]
  }

  /** Every row of `T` with a zero column inserted at index `idx`. */
  function InsertedColumn(T: Matrix, idx: nat): (T': Matrix)
    requires forall r :: 0 <= r < |T| ==> idx <= |T[r]|
    ensures |T'| == |T| && forall r :: 0 <= r < |T| ==> T'[r] == InsertZero(T[r], idx)
  {
    seq(|T|, r requires 0 <= r < |T| => InsertZero(T[r], idx))
  }

  function Abs(x: real): real {
    if x < 0.0 then -x else x
  }

  /** The tableau after pivoting on entry (l, e): row `l` divided by the pivot,
      then that multiple of it subtracted from every other row that zeroes column `e`. */
  function Pivoted(T: Matrix, e: nat, l: nat): (P: Matrix)
    requires IsTableau(T) && e < Width(T) && l < |T| && T[l][e] != 0.0
    ensures IsTableau(P) && |P| == |T| && Width(P) == Width(T)
  {
    var pr := ScaleRow(T[l], T[l][e]);
    seq(|T|, i requires 0 <= i < |T| => if i == l then pr else SubtractMultiple(T[i], T[i][e], pr))
  }

  /** Pivoting makes column `e` the unit vector of row `l`, keeps every other basic
      column a unit vector, and so keeps the tableau canonical for the basis with
      `e` in row `l`. */
  lemma PivotCanonical(T: Matrix, bv: seq<int>, e: nat, l: nat)
    requires IsTableau(T) && Canonical(T, bv)
    requires e < Width(T) && l < |T| - 1 && T[l][e] != 0.0
    ensures UnitColumn(Pivoted(T, e, l), e, l)
    ensures Canonical(Pivoted(T, e, l), bv[l := e])
  {
    var P := Pivoted(T, e, l);
    var bv' := bv[l := e];
    var pr := ScaleRow(T[l], T[l][e]);
    assert pr[e] == 1.0;
    forall r | 0 <= r < |P| ensures P[r][e] == if r == l then 1.0 else 0.0 {
      if r != l {
        assert P[r] == SubtractMultiple(T[r], T[r][e], pr);
      }
    }
    forall i | 0 <= i < |bv'| && bv'[i] != -1 && i != l
      ensures 0 <= bv'[i] < Width(P) && UnitColumn(P, bv'[i], i)
    {
      var c := bv[i];
      assert T[l][c] == 0.0;
      forall r | 0 <= r < |P| ensures P[r][c] == T[r][c] {}
    }
  }

  /** Deleting a constraint row leaves a tableau of the same width with one row fewer. */
  lemma RemoveRowShape(T: Matrix, i: nat)
    requires IsTableau(T) && i < |T| - 1
    ensures IsTableau(T[..i] + T[i + 1..]) && |T[..i] + T[i + 1..]| == |T| - 1
    ensures Width(T[..i] + T[i + 1..]) == Width(T)
    ensures forall r :: 0 <= r < |T| - 1 ==> (T[..i] + T[i + 1..])[r] == if r < i then T[r] else T[r + 1]
  {
    var T' := T[..i] + T[i + 1..];
    assert |T'| == |T| - 1 && T'[0] == (if i == 0 then T[1] else T[0]);
    assert forall r :: 0 <= r < |T'| ==> T'[r] == if r < i then T[r] else T[r + 1];
  }

  /** Deleting constraint row `i`, together with its basic-variable entry, keeps
      every remaining basic column a unit vector of its (renumbered) row. */
  lemma RemoveRowCanonical(T: Matrix, bv: seq<int>, i: nat)
    requires IsTableau(T) && Canonical(T, bv) && i < |T| - 1
    ensures IsTableau(T[..i] + T[i + 1..]) && Width(T[..i] + T[i + 1..]) == Width(T)
    ensures Canonical(T[..i] + T[i + 1..], bv[..i] + bv[i + 1..])
  {
    var T' := T[..i] + T[i + 1..];
    var bv' := bv[..i] + bv[i + 1..];
    RemoveRowShape(T, i);
    forall k | 0 <= k < |bv'| && bv'[k] != -1
      ensures 0 <= bv'[k] < Width(T') && UnitColumn(T', bv'[k], k)
    {
      var k0 := if k < i then k else k + 1;
      assert bv'[k] == bv[k0];
      assert UnitColumn(T, bv[k0], k0);
    }
  }

  // ---------------------------------------------------------------- entering column

  /** The objective row. */
  function Obj(T: Matrix): Row
    requires |T| >= 1
  {
    T[|T| - 1]
  }

  /** Column `col` has an entry above Eps12 in some constraint row. */
  predicate PositiveInColumn(T: Matrix, col: nat)
    requires IsTableau(T) && col < Width(T)
  {
    exists i :: 0 <= i < |T| - 1 && T[i][col] > Eps12
  }

  /** The scan for the entering column from column `j` on, with `e` the column
      chosen so far and `best` its reduced cost (0 before any choice). */
  function EnterScan(T: Matrix, j: nat, e: int, best: real): int
    requires IsTableau(T) && j <= Width(T) - 1
    decreases Width(T) - 1 - j
  {
    if j == Width(T) - 1 then e
    else if Obj(T)[j] < best - Eps12 && PositiveInColumn(T, j) then EnterScan(T, j + 1, j, Obj(T)[j])
    else EnterScan(T, j + 1, e, best)
  }

  /** The entering column of a tableau, -1 when there is none. */
  function EnteringColumn(T: Matrix): int
    requires IsTableau(T)
  {
    EnterScan(T, 0, -1, 0.0)
  }

  /** A column is a candidate when it has a positive constraint-row entry. */
  ghost predicate EnterChoice(T: Matrix, e: int)
    requires IsTableau(T)
  {
    (e == -1 <==> forall j :: 0 <= j < Width(T) - 1 && PositiveInColumn(T, j) ==> Obj(T)[j] >= -Eps12) &&
    (e != -1 ==>
      0 <= e < Width(T) - 1 && PositiveInColumn(T, e) && Obj(T)[e] < -Eps12 &&
      (forall j :: 0 <= j < e && PositiveInColumn(T, j) ==> Obj(T)[j] > Obj(T)[e]) &&
      (forall j :: e < j < Width(T) - 1 && PositiveInColumn(T, j) ==> Obj(T)[j] >= Obj(T)[e] - Eps12))
  }

  ghost predicate EnterScanState(T: Matrix, j: nat, e: int, best: real)
    requires IsTableau(T) && j <= Width(T) - 1
  {
    (e == -1 && best == 0.0 &&
      forall k :: 0 <= k < j && PositiveInColumn(T, k) ==> Obj(T)[k] >= -Eps12) ||
    (0 <= e < j && best == Obj(T)[e] && PositiveInColumn(T, e) && Obj(T)[e] < -Eps12 &&
      (forall k :: 0 <= k < e && PositiveInColumn(T, k) ==> Obj(T)[k] > Obj(T)[e]) &&
      (forall k :: e < k < j && PositiveInColumn(T, k) ==> Obj(T)[k] >= Obj(T)[e] - Eps12))
  }

  lemma {:induction false} EnterScanChoice(T: Matrix, j: nat, e: int, best: real)
    requires IsTableau(T) && j <= Width(T) - 1 && EnterScanState(T, j, e, best)
    ensures EnterChoice(T, EnterScan(T, j, e, best))
    decreases Width(T) - 1 - j
  {
    if j < Width(T) - 1 {
      if Obj(T)[j] < best - Eps12 && PositiveInColumn(T, j) {
        EnterScanChoice(T, j + 1, j, Obj(T)[j]);
      } else {
        EnterScanChoice(T, j + 1, e, best);
      }
    }
  }

  /** The entering column is -1 exactly when no candidate column has a reduced
      cost below -Eps12; otherwise it is a candidate below the RHS column with a
      reduced cost below -Eps12, strictly the most negative among the candidates
      before it, and beaten by no later candidate by more than Eps12. */
  lemma EnteringColumnChoice(T: Matrix)
    requires IsTableau(T)
    ensures EnterChoice(T, EnteringColumn(T))
  {
    EnterScanChoice(T, 0, -1, 0.0);
  }

  // ---------------------------------------------------------------- leaving row

  /** Row `i` may leave for entering column `e`: positive pivot entry and a
      right-hand side that is not negative beyond the tolerance. */
  predicate Eligible(T: Matrix, e: nat, i: nat)
    requires IsTableau(T) && e < Width(T) && i < |T|
  {
    T[i][e] > Eps12 && Rhs(T, i) >= -Eps12
  }

  function Ratio(T: Matrix, e: nat, i: nat): real
    requires IsTableau(T) && e < Width(T) && i < |T| && T[i][e] > 0.0
  {
    Rhs(T, i) / T[i][e]
  }

  /** The minimum-ratio scan from row `i` on, with `l` the row chosen so far
      (-1: none, the best ratio standing for +infinity) and `best` its ratio. */
  function LeaveScan(T: Matrix, e: nat, i: nat, l: int, best: real): int
    requires IsTableau(T) && e < Width(T) && i <= |T| - 1
    decreases |T| - 1 - i
  {
    if i == |T| - 1 then l
    else if Eligible(T, e, i) && (l == -1 || Ratio(T, e, i) < best - Eps12) then LeaveScan(T, e, i + 1, i, Ratio(T, e, i))
    else LeaveScan(T, e, i + 1, l, best)
  }

  /** The leaving row for entering column `e`, -1 when there is none. */
  function LeavingRow(T: Matrix, e: nat): int
    requires IsTableau(T) && e < Width(T)
  {
    LeaveScan(T, e, 0, -1, 0.0)
  }

  ghost predicate LeaveChoice(T: Matrix, e: nat, l: int)
    requires IsTableau(T) && e < Width(T)
  {
    (l == -1 <==> forall i :: 0 <= i < |T| - 1 ==> !Eligible(T, e, i)) &&
    (l != -1 ==>
      0 <= l < |T| - 1 && Eligible(T, e, l) &&
      (forall i :: 0 <= i < l && Eligible(T, e, i) ==> Ratio(T, e, i) > Ratio(T, e, l)) &&
      (forall i :: l < i < |T| - 1 && Eligible(T, e, i) ==> Ratio(T, e, i) >= Ratio(T, e, l) - Eps12))
  }

  ghost predicate LeaveScanState(T: Matrix, e: nat, i: nat, l: int, best: real)
    requires IsTableau(T) && e < Width(T) && i <= |T| - 1
  {
    (l == -1 && forall k :: 0 <= k < i ==> !Eligible(T, e, k)) ||
    (0 <= l < i && Eligible(T, e, l) && best == Ratio(T, e, l) &&
      (forall k :: 0 <= k < l && Eligible(T, e, k) ==> Ratio(T, e, k) > Ratio(T, e, l)) &&
      (forall k :: l < k < i && Eligible(T, e, k) ==> Ratio(T, e, k) >= Ratio(T, e, l) - Eps12))
  }

  lemma {:induction false} LeaveScanChoice(T: Matrix, e: nat, i: nat, l: int, best: real)
    requires IsTableau(T) && e < Width(T) && i <= |T| - 1 && LeaveScanState(T, e, i, l, best)
    ensures LeaveChoice(T, e, LeaveScan(T, e, i, l, best))
    decreases |T| - 1 - i
  {
    if i < |T| - 1 {
      if Eligible(T, e, i) && (l == -1 || Ratio(T, e, i) < best - Eps12) {
        LeaveScanChoice(T, e, i + 1, i, Ratio(T, e, i));
      } else {
        LeaveScanChoice(T, e, i + 1, l, best);
      }
    }
  }

  /** The leaving row is -1 exactly when no constraint row is eligible; otherwise
      it is an eligible row whose ratio is strictly below that of every eligible
      row before it and beaten by no later eligible row by more than Eps12. */
  lemma LeavingRowChoice(T: Matrix, e: nat)
    requires IsTableau(T) && e < Width(T)
    ensures LeaveChoice(T, e, LeavingRow(T, e))
  {
    LeaveScanChoice(T, e, 0, -1, 0.0);
  }

  // ---------------------------------------------------------------- simplex iteration

  /** A tableau together with its basis. */
  datatype State = State(T: Matrix, bv: seq<int>)

  /** A tableau with one basis entry per constraint row. */
  predicate Shaped(s: State) {
    IsTableau(s.T) && |s.bv| == |s.T| - 1
  }

  /** Some column enters and some row leaves for it, so a pivot is made. */
  predicate CanPivot(T: Matrix)
    requires IsTableau(T)
  {
    var e := EnteringColumn(T);
    0 <= e < Width(T) - 1 && LeavingRow(T, e) != -1
  }

  /** One simplex iteration: pivot on the entering column and its leaving row,
      which then takes the entering column as its basic variable. */
  function PivotStep(s: State): (r: State)
    requires Shaped(s) && CanPivot(s.T)
    ensures Shaped(r) && |r.T| == |s.T| && Width(r.T) == Width(s.T)
  {
    var e := EnteringColumn(s.T);
    var l := LeavingRow(s.T, e);
    LeavingRowChoice(s.T, e);
    State(Pivoted(s.T, e, l), s.bv[l := e])
  }

  /** The state after `k` iterations, iteration stopping once no pivot is possible. */
  function Iterate(s: State, k: nat): (r: State)
    requires Shaped(s)
    ensures Shaped(r) && |r.T| == |s.T| && Width(r.T) == Width(s.T)
  {
    if k == 0 then s
    else
      var p := Iterate(s, k - 1);
      if CanPivot(p.T) then PivotStep(p) else p
  }

  /** When a column enters and a row leaves, the next iteration pivots on them. */
  lemma IterateNext(s: State, k: nat, e: int, l: int)
    requires Shaped(s) && e == EnteringColumn(Iterate(s, k).T) && 0 <= e < Width(s.T) - 1
    requires l == LeavingRow(Iterate(s, k).T, e) && l != -1
    ensures CanPivot(Iterate(s, k).T) && 0 <= l < |s.T| - 1 && Iterate(s, k).T[l][e] != 0.0
    ensures Iterate(s, k + 1) == State(Pivoted(Iterate(s, k).T, e, l), Iterate(s, k).bv[l := e])
  {
    LeavingRowChoice(Iterate(s, k).T, e);
  }

  /** An iteration pivots on a non-zero entry, so it keeps the tableau canonical. */
  lemma PivotStepCanonical(s: State)
    requires Shaped(s) && CanPivot(s.T) && Canonical(s.T, s.bv)
    ensures Canonical(PivotStep(s).T, PivotStep(s).bv)
  {
    var e := EnteringColumn(s.T);
    LeavingRowChoice(s.T, e);
    PivotCanonical(s.T, s.bv, e, LeavingRow(s.T, e));
  }

  /** Any number of iterations keeps the tableau canonical for its basis. */
  lemma {:induction false} IterateCanonical(s: State, k: nat)
    requires Shaped(s) && Canonical(s.T, s.bv)
    ensures Canonical(Iterate(s, k).T, Iterate(s, k).bv)
  {
    if k > 0 {
      IterateCanonical(s, k - 1);
      var p := Iterate(s, k - 1);
      if CanPivot(p.T) {
        PivotStepCanonical(p);
      }
    }
  }

  /** Once no pivot is possible, further iterations change nothing. */
  lemma {:induction false} IterateStuck(s: State, k: nat, j: nat)
    requires Shaped(s) && !CanPivot(Iterate(s, k).T)
    ensures Iterate(s, k + j) == Iterate(s, k)
  {
    if j > 0 {
      IterateStuck(s, k, j - 1);
      var p := Iterate(s, k + j - 1);
      assert p == Iterate(s, k);
      assert !CanPivot(p.T);
    }
  }

  // ---------------------------------------------------------------- basic solution

  function Zeros(k: nat): (z: Row)
    ensures |z| == k && forall j :: 0 <= j < k ==> z[j] == 0.0
  {
    seq(k, _ => 0.0)
  }

  /** Values of the `n` decision variables read off the first `i` constraint rows:
      a decision variable basic in a row takes that row's right-hand side. */
  function SolutionUpTo(T: Matrix, bv: seq<int>, n: nat, i: nat): (x: Row)
    requires IsTableau(T) && |bv| == |T| - 1 && i <= |bv|
    ensures |x| == n
  {
    if i == 0 then Zeros(n)
    else
      var x := SolutionUpTo(T, bv, n, i - 1);
      if 0 <= bv[i - 1] < n then x[bv[i - 1] := Rhs(T, i - 1)] else x
  }

  function BasicSolution(T: Matrix, bv: seq<int>, n: nat): (x: Row)
    requires IsTableau(T) && |bv| == |T| - 1
    ensures |x| == n
  {
    SolutionUpTo(T, bv, n, |bv|)
  }

  lemma {:induction false} SolutionUpToValues(T: Matrix, bv: seq<int>, n: nat, i: nat)
    requires IsTableau(T) && Canonical(T, bv) && i <= |bv|
    ensures forall r :: 0 <= r < i && 0 <= bv[r] < n ==> SolutionUpTo(T, bv, n, i)[bv[r]] == Rhs(T, r)
    ensures forall j :: 0 <= j < n && j !in bv[..i] ==> SolutionUpTo(T, bv, n, i)[j] == 0.0
  {
    if i > 0 {
      SolutionUpToValues(T, bv, n, i - 1);
      assert bv[..i] == bv[..i - 1] + [bv[i - 1]];
      forall r | 0 <= r < i - 1 && bv[r] != -1
        ensures bv[r] != bv[i - 1]
      {
        CanonicalDistinct(T, bv, r, i - 1);
      }
    }
  }

  /** In canonical form the basic solution gives every decision variable that is
      basic in some row that row's right-hand side, and every other one 0. */
  lemma BasicSolutionValues(T: Matrix, bv: seq<int>, n: nat)
    requires IsTableau(T) && Canonical(T, bv)
    ensures forall r :: 0 <= r < |bv| && 0 <= bv[r] < n ==> BasicSolution(T, bv, n)[bv[r]] == Rhs(T, r)
    ensures forall j :: 0 <= j < n && j !in bv ==> BasicSolution(T, bv, n)[j] == 0.0
  {
    SolutionUpToValues(T, bv, n, |bv|);
    assert bv[..|bv|] == bv;
  }

  /** Inner product of equally long vectors. */
  function Dot(c: Row, x: Row): real
    requires |c| == |x|
  {
    if |c| == 0 then 0.0 else Dot(c[..|c| - 1], x[..|x| - 1]) + c[|c| - 1] * x[|x| - 1]
  }

  /** Changing one coordinate changes the inner product by its coefficient times the change. */
  lemma {:induction false} DotUpdate(c: Row, x: Row, k: nat, v: real)
    requires |c| == |x| && k < |x|
    ensures Dot(c, x[k := v]) == Dot(c, x) + c[k] * (v - x[k])
    decreases |x|
  {
    var last := |x| - 1;
    if k < last {
      assert x[k := v][..last] == x[..last][k := v];
      DotUpdate(c[..last], x[..last], k, v);
    } else {
      assert x[k := v][..last] == x[..last];
    }
  }

  lemma {:induction false} DotZeros(c: Row)
    ensures Dot(c, Zeros(|c|)) == 0.0
    decreases |c|
  {
    if |c| > 0 {
      assert Zeros(|c|)[..|c| - 1] == Zeros(|c| - 1);
      DotZeros(c[..|c| - 1]);
    }
  }

  /** The first column of `row` from `from` on, the RHS included, whose entry
      exceeds Eps10 in magnitude and which is not artificial; -1 when there is none. */
  function FirstPivotable(row: Row, art: set<int>, from: nat): (j: int)
    requires from <= |row|
    ensures j == -1 <==> forall k :: from <= k < |row| ==> Abs(row[k]) <= Eps10 || k in art
    ensures j != -1 ==>
      from <= j < |row| && Abs(row[j]) > Eps10 && j !in art &&
      forall k :: from <= k < j ==> Abs(row[k]) <= Eps10 || k in art
    decreases |row| - from
  {
    if from == |row| then -1
    else if Abs(row[from]) > Eps10 && from !in art then from
    else FirstPivotable(row, art, from + 1)
  }

  // ---------------------------------------------------------------- column compaction

  /** Columns 0 .. j-1 that are not artificial, in increasing order. */
  function KeptColumns(art: set<int>, j: nat): (keep: seq<int>)
    ensures |keep| <= j
  {
    if j == 0 then []
    else if j - 1 in art then KeptColumns(art, j - 1)
    else KeptColumns(art, j - 1) + [j - 1]
  }

  predicate StrictlyIncreasing(s: seq<int>) {
    forall p, q :: 0 <= p < q < |s| ==> s[p] < s[q]
  }

  /** The columns of `art` left of `j`. */
  function ArtBelow(art: set<int>, j: nat): set<int> {
    set c | c in art && 0 <= c < j
  }

  /** The kept columns are exactly the non-artificial columns below `j`, in
      increasing order; counted together with the artificial columns below `j`
      they make up all `j` columns. */
  lemma {:induction false} KeptColumnsFacts(art: set<int>, j: nat)
    ensures StrictlyIncreasing(KeptColumns(art, j))
    ensures forall k :: 0 <= k < |KeptColumns(art, j)| ==>
      0 <= KeptColumns(art, j)[k] < j && KeptColumns(art, j)[k] !in art
    ensures forall c :: 0 <= c < j && c !in art ==> c in KeptColumns(art, j)
    ensures |KeptColumns(art, j)| + |ArtBelow(art, j)| == j
  {
    if j > 0 {
      KeptColumnsFacts(art, j - 1);
      if j - 1 in art {
        assert ArtBelow(art, j) == ArtBelow(art, j - 1) + {j - 1};
      } else {
        assert ArtBelow(art, j) == ArtBelow(art, j - 1);
      }
    }
  }

  /** Keeping more columns only appends to the list of kept ones. */
  lemma {:induction false} KeptColumnsPrefix(art: set<int>, j1: nat, j2: nat)
    requires j1 <= j2
    ensures KeptColumns(art, j1) <= KeptColumns(art, j2)
    decreases j2
  {
    if j1 < j2 {
      KeptColumnsPrefix(art, j1, j2 - 1);
    }
  }

  /** With no artificial column below `n`, the first `n` kept columns are 0 .. n-1. */
  lemma {:induction false} KeptColumnsIdentity(art: set<int>, n: nat, j: nat)
    requires n <= j && forall c :: c in art ==> c >= n
    ensures |KeptColumns(art, j)| >= n
    ensures forall k :: 0 <= k < n ==> KeptColumns(art, j)[k] == k
    decreases j
  {
    if j == n {
      if n > 0 {
        KeptColumnsIdentity(art, n - 1, n - 1);
      }
    } else {
      KeptColumnsIdentity(art, n, j - 1);
      KeptColumnsPrefix(art, j - 1, j);
    }
  }

  /** The last position at which `x` occurs in `keep`, -1 when it does not occur. */
  function LastIndexOf(keep: seq<int>, x: int): (k: int)
    ensures -1 <= k < |keep|
    ensures k == -1 <==> x !in keep
    ensures k != -1 ==> keep[k] == x && forall p :: k < p < |keep| ==> keep[p] != x
  {
    if keep == [] then -1
    else if keep[|keep| - 1] == x then |keep| - 1
    else LastIndexOf(keep[..|keep| - 1], x)
  }

  /** Basic-variable indices sent through the old-to-new column map; an index
      with no new position (or -1) becomes -1. */
  function Remapped(bv: seq<int>, keep: seq<int>): (bv': seq<int>)
    ensures |bv'| == |bv|
  {
    seq(|bv|, i requires 0 <= i < |bv| => if bv[i] == -1 then -1 else LastIndexOf(keep, bv[i]))
  }

  /** Every row restricted to the kept columns, followed by its right-hand side. */
  function Compacted(T: Matrix, keep: seq<int>): (C: Matrix)
    requires IsTableau(T) && forall k :: 0 <= k < |keep| ==> 0 <= keep[k] < Width(T) - 1
    ensures IsTableau(C) && |C| == |T| && Width(C) == |keep| + 1
  {
    seq(|T|, r requires 0 <= r < |T| => assert |T[r]| == Width(T); CompactRow(T[r], keep))
  }

  function CompactRow(row: Row, keep: seq<int>): (s: Row)
    requires |row| >= 1 && forall k :: 0 <= k < |keep| ==> 0 <= keep[k] < |row| - 1
    ensures |s| == |keep| + 1
  {
    seq(|keep|, k requires 0 <= k < |keep| => row[keep[k]]) + [row[|row| - 1]]
  }

  /** Compaction moves every kept column, without change, to its new position,
      keeps each RHS last, and leaves the tableau canonical for the remapped basis. */
  lemma CompactedCanonical(T: Matrix, bv: seq<int>, keep: seq<int>)
    requires IsTableau(T) && Canonical(T, bv)
    requires forall k :: 0 <= k < |keep| ==> 0 <= keep[k] < Width(T) - 1
    ensures forall r, k :: 0 <= r < |T| && 0 <= k < |keep| ==> Compacted(T, keep)[r][k] == T[r][keep[k]]
    ensures forall r :: 0 <= r < |T| ==> Rhs(Compacted(T, keep), r) == Rhs(T, r)
    ensures Canonical(Compacted(T, keep), Remapped(bv, keep))
  {
    var C := Compacted(T, keep);
    var bv' := Remapped(bv, keep);
    forall i | 0 <= i < |bv'| && bv'[i] != -1
      ensures 0 <= bv'[i] < Width(C) && UnitColumn(C, bv'[i], i)
    {
      var k := bv'[i];
      assert keep[k] == bv[i];
      assert UnitColumn(T, bv[i], i);
    }
  }
}
