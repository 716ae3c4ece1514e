/** The two-phase dense-tableau simplex solver for: maximise c.x subject to
    A x <= b. Phase I drives artificial variables out of a slack/artificial
    starting basis, Phase II optimises the true objective; each pivot is
    recorded as a step. */
module Simplex {
  import opened Tableau
  import opened Phases

  /** Infeasibility threshold on the Phase I objective value. */
  const Eps8: real := 1e-8

  datatype Status = Optimal | Unbounded | Infeasible | Searching

  /** One recorded iterate: the decision variables, the objective row's
      right-hand side, and whether the phase ended optimal here. */
  datatype Step = Step(sol: seq<real>, obj: real, optimal: bool)

  /** The step recorded for state `s`: its basic solution over the `n` decision
      variables and its objective row's RHS. */
  function Record(s: State, n: nat, optimal: bool): (r: Step)
    requires Shaped(s)
    ensures |r.sol| == n
  {
    Step(BasicSolution(s.T, s.bv, n), Rhs(s.T, |s.T| - 1), optimal)
  }

  /** Pads `row` with zeros up to length `upto`. */
  method ExtendRow(row: Row, upto: nat) returns (r: Row)
    ensures |row| <= upto ==> r == row + Zeros(upto - |row|)
    ensures |row| > upto ==> r == row
  {
    r := row;
    while |r| < upto
      invariant |row| <= |r| && (|row| <= upto ==> |r| <= upto) && (|row| > upto ==> r == row)
      invariant r == row + Zeros(|r| - |row|)
      decreases upto - |r|
    {
      r := r + [0.0];
    }
  }

  /** How many entries of `s` are in `art`. */
  function CountIn(s: seq<int>, art: set<int>): nat {
    if s == [] then 0 else CountIn(s[..|s| - 1], art) + (if s[|s| - 1] in art then 1 else 0)
  }

  lemma CountInAppend(s: seq<int>, x: int, art: set<int>)
    ensures CountIn(s + [x], art) == CountIn(s, art) + (if x in art then 1 else 0)
  {
    assert (s + [x])[..|s|] == s;
  }

  class SimplexSolver {
    const cOrig: seq<real>     // objective coefficients c
    const n: nat               // number of decision variables
    var m: nat                 // number of constraint rows (shrinks when a redundant row is dropped)
    var tableau: Matrix        // m constraint rows, then the objective row; RHS last
    var basicVars: seq<int>    // basic column per constraint row, -1 for none
    var artificial: set<int>   // artificial columns
    var status: Status

    /** The solver's invariant: an (m+1)-row tableau of equal-width rows whose
        decision columns come first, canonical for `basicVars`, with every
        artificial column between the decision columns and the RHS. */
    ghost predicate Valid()
      reads this
    {
      n == |cOrig| &&
      IsTableau(tableau) && |tableau| == m + 1 && n < Width(tableau) &&
      Canonical(tableau, basicVars) &&
      (forall j :: j in artificial ==> n <= j < Width(tableau) - 1)
    }

    /** Builds the Phase I tableau for `c`, `A`, `b`. */
    constructor (c: seq<real>, A: seq<seq<real>>, b: seq<real>)
      requires |b| > 0 && WellFormed(A, b, |c|)
      ensures Valid()
      ensures cOrig == c && n == |c| && m == |b| && status == Optimal
      ensures tableau == PhaseITableau(A, b, n)
      ensures basicVars == Basis(n, b, m) && artificial == Artificials(n, b, m)
    {
      cOrig := c;
      n := |c|;
      m := |A|;
      tableau := [];
      basicVars := [];
      artificial := {};
      status := Optimal;
      new;
      BuildPhaseI(A, b);
    }

    /** Lays out one row per constraint, then appends the Phase I objective. */
    method BuildPhaseI(A: seq<seq<real>>, b: seq<real>)
      requires n == |cOrig| && m == |b| > 0 && WellFormed(A, b, n)
      requires tableau == [] && basicVars == [] && artificial == {}
      modifies this
      ensures Valid() && m == old(m) && status == old(status)
      ensures tableau == PhaseITableau(A, b, n)
      ensures basicVars == Basis(n, b, m) && artificial == Artificials(n, b, m)
    {
      var cols := n;   // number of columns laid out so far
      var i := 0;
      while i < m
        invariant 0 <= i <= m && m == |b| == old(m) && status == old(status)
        invariant cols == Offset(n, b, i)
        invariant tableau == ConstraintRows(A, b, n, i, cols)
        invariant basicVars == Basis(n, b, i)
        invariant artificial == Artificials(n, b, i)
      {
        cols := AddConstraintRow(A, b, i, cols);
        i := i + 1;
      }
      AppendPhaseIObjective(A, b, cols);
    }

    /** Inserts a zero column at index `idx` into every row laid out so far. */
    method AddColumn(idx: nat)
      requires forall r :: 0 <= r < |tableau| ==> idx <= |tableau[r]|
      modifies this
      ensures tableau == InsertedColumn(old(tableau), idx)
      ensures m == old(m) && basicVars == old(basicVars) && artificial == old(artificial) && status == old(status)
    {
      tableau := InsertedColumn(tableau, idx);
    }

    /** Lays out constraint row `i`: negated when its RHS is negative, it gets a
        surplus and an artificial column (the artificial basic), otherwise a
        slack column (basic). */
    method AddConstraintRow(A: seq<seq<real>>, b: seq<real>, i: nat, cols: nat) returns (cols': nat)
      requires n == |cOrig| && m == |b| && i < m && WellFormed(A, b, n)
      requires cols == Offset(n, b, i) && tableau == ConstraintRows(A, b, n, i, cols)
      requires basicVars == Basis(n, b, i) && artificial == Artificials(n, b, i)
      modifies this
      ensures m == old(m) && status == old(status)
      ensures cols' == Offset(n, b, i + 1) && tableau == ConstraintRows(A, b, n, i + 1, cols')
      ensures basicVars == Basis(n, b, i + 1) && artificial == Artificials(n, b, i + 1)
    {
      var row := A[i];
      var rhs := b[i];
      var isLE := true;
      if rhs < 0.0 {
        row := Negated(row);
        rhs := -rhs;
        isLE := !isLE;
      }
      if isLE {
        cols' := AddSlackRow(A, b, i, cols, row, rhs);
      } else {
        cols' := AddSurplusRow(A, b, i, cols, row, rhs);
      }
    }

    /** A `<=` row: one slack column, basic in the new row. */
    method AddSlackRow(A: seq<seq<real>>, b: seq<real>, i: nat, cols: nat, row0: Row, rhs: real) returns (cols': nat)
      requires n == |cOrig| && m == |b| && i < m && WellFormed(A, b, n) && !Flipped(b, i)
      requires row0 == A[i] && rhs == b[i]
      requires cols == Offset(n, b, i) && tableau == ConstraintRows(A, b, n, i, cols)
      requires basicVars == Basis(n, b, i) && artificial == Artificials(n, b, i)
      modifies this
      ensures m == old(m) && status == old(status)
      ensures cols' == Offset(n, b, i + 1) && tableau == ConstraintRows(A, b, n, i + 1, cols')
      ensures basicVars == Basis(n, b, i + 1) && artificial == Artificials(n, b, i + 1)
    {
      SlackRow(A, b, n, i);
      InsertZeroColumnRows(A, b, n, i, cols);
      AddColumn(cols);
      cols' := cols + 1;
      var jS := cols' - 1;
      var row := ExtendRow(row0, jS + 1);
      row := row[jS := 1.0];
      basicVars := basicVars + [jS];
      row := row + [rhs];
      tableau := tableau + [row];
      assert tableau == ConstraintRows(A, b, n, i + 1, cols');
      assert basicVars == Basis(n, b, i + 1);
      ArtificialsStep(n, b, i);
    }

    /** A `>=` row (after negation): a surplus column and an artificial column,
        the artificial basic in the new row. */
    method AddSurplusRow(A: seq<seq<real>>, b: seq<real>, i: nat, cols: nat, row0: Row, rhs: real) returns (cols': nat)
      requires n == |cOrig| && m == |b| && i < m && WellFormed(A, b, n) && Flipped(b, i)
      requires row0 == Negated(A[i]) && rhs == -b[i]
      requires cols == Offset(n, b, i) && tableau == ConstraintRows(A, b, n, i, cols)
      requires basicVars == Basis(n, b, i) && artificial == Artificials(n, b, i)
      modifies this
      ensures m == old(m) && status == old(status)
      ensures cols' == Offset(n, b, i + 1) && tableau == ConstraintRows(A, b, n, i + 1, cols')
      ensures basicVars == Basis(n, b, i + 1) && artificial == Artificials(n, b, i + 1)
    {
      SurplusRow(A, b, n, i);
      InsertZeroColumnRows(A, b, n, i, cols);
      AddColumn(cols);
      cols' := cols + 1;
      var jT := cols' - 1;
      var row := ExtendRow(row0, jT + 1);
      row := row[jT := -1.0];
      InsertZeroColumnRows(A, b, n, i, cols');
      AddColumn(cols');
      cols' := cols' + 1;
      var jA := cols' - 1;
      row := ExtendRow(row, jA + 1);
      row := row[jA := 1.0];
      artificial := artificial + {jA};
      basicVars := basicVars + [jA];
      row := row + [rhs];
      tableau := tableau + [row];
      assert tableau == ConstraintRows(A, b, n, i + 1, cols');
      assert basicVars == Basis(n, b, i + 1);
      ArtificialsStep(n, b, i);
    }

    /** `obj` is 1 in every artificial column and 0 elsewhere. */
    method ArtificialIndicator(W: nat) returns (obj: Row)
      requires forall j :: j in artificial ==> 0 <= j < W
      ensures |obj| == W && forall j :: 0 <= j < W ==> obj[j] == if j in artificial then 1.0 else 0.0
    {
      obj := Zeros(W);
      var rest := artificial;
      while rest != {}
        invariant rest <= artificial && |obj| == W
        invariant forall j :: 0 <= j < W ==> obj[j] == if j in artificial - rest then 1.0 else 0.0
        decreases |rest|
      {
        assert (forall y :: y !in rest) ==> rest == {};
        var col :| col in rest;
        obj := obj[col := 1.0];
        rest := rest - {col};
      }
    }

    /** Appends the Phase I objective (maximise minus the sum of the
        artificials): 1 in each artificial column, less every row whose basic
        variable is artificial. */
    method AppendPhaseIObjective(A: seq<seq<real>>, b: seq<real>, cols: nat)
      requires n == |cOrig| && m == |b| > 0 && WellFormed(A, b, n)
      requires cols == Offset(n, b, m) && tableau == ConstraintRows(A, b, n, m, cols)
      requires basicVars == Basis(n, b, m) && artificial == Artificials(n, b, m)
      modifies this
      ensures Valid() && m == old(m) && status == old(status)
      ensures tableau == PhaseITableau(A, b, n)
      ensures basicVars == old(basicVars) && artificial == old(artificial)
    {
      var W := cols + 1;
      ArtificialsRange(n, b, m);
      var obj := ArtificialIndicator(W);

      // zero out the objective in the basic artificial columns
      var i := 0;
      while i < m
        invariant 0 <= i <= m && |obj| == W
        invariant tableau == old(tableau) && basicVars == old(basicVars) && artificial == old(artificial)
        invariant m == old(m) && status == old(status)
        invariant forall j :: 0 <= j < W ==>
          obj[j] == (if j in artificial then 1.0 else 0.0) - FlippedSum(tableau, b, i, j)
      {
        var bv := basicVars[i];
        BasicColumnUnit(A, b, n, i, m);
        if bv in artificial {
          forall q | 0 <= q < i ensures tableau[q][bv] == 0.0 {
            assert tableau[q][bv] == Entry(A, b, n, q, bv);
          }
          FlippedSumSingle(tableau, b, i, bv, i);
          var coeff := obj[bv];
          obj := SubtractMultiple(obj, coeff, tableau[i]);
        }
        i := i + 1;
      }
      assert obj == PhaseIObjective(tableau, b, artificial, W);
      tableau := tableau + [obj];
      PhaseICanonical(A, b, n);
    }

    /** The objective row's right-hand side: the value each step records. */
    function Objective(): (v: real)
      reads this
      requires Valid()
      ensures v == Rhs(tableau, m)
    {
      tableau[m][Width(tableau) - 1]
    }

    /** Reads the decision variables off the tableau: each basic decision
        variable takes its row's right-hand side, every other one 0. */
    method Solution() returns (x: seq<real>)
      requires Valid()
      ensures |x| == n && x == BasicSolution(tableau, basicVars, n)
      ensures forall r :: 0 <= r < m && 0 <= basicVars[r] < n ==> x[basicVars[r]] == Rhs(tableau, r)
      ensures forall j :: 0 <= j < n && j !in basicVars ==> x[j] == 0.0
    {
      x := Zeros(n);
      var i := 0;
      while i < m
        invariant 0 <= i <= m
        invariant x == SolutionUpTo(tableau, basicVars, n, i)
      {
        var bv := basicVars[i];
        if 0 <= bv < n {
          x := x[bv := Rhs(tableau, i)];
        }
        i := i + 1;
      }
      BasicSolutionValues(tableau, basicVars, n);
    }

    /** Whether column `col` has an entry above Eps12 in some constraint row. */
    method ColHasPositive(col: nat) returns (r: bool)
      requires Valid() && col < Width(tableau)
      ensures r <==> exists i :: 0 <= i < m && tableau[i][col] > Eps12
    {
      var i := 0;
      while i < m
        invariant 0 <= i <= m
        invariant forall k :: 0 <= k < i ==> tableau[k][col] <= Eps12
      {
        if tableau[i][col] > Eps12 {
          return true;
        }
        i := i + 1;
      }
      return false;
    }

    /** The entering column: the most negative reduced cost (within Eps12)
        among columns with a positive constraint-row entry; -1 when none is
        below -Eps12. */
    method Entering() returns (e: int)
      requires Valid()
      ensures e == EnteringColumn(tableau)
      ensures e == -1 <==> forall j :: 0 <= j < Width(tableau) - 1 && PositiveInColumn(tableau, j) ==> Obj(tableau)[j] >= -Eps12
      ensures e != -1 ==> 0 <= e < Width(tableau) - 1 && PositiveInColumn(tableau, e) && Obj(tableau)[e] < -Eps12
      ensures e != -1 ==> forall j :: 0 <= j < Width(tableau) - 1 && PositiveInColumn(tableau, j) ==> Obj(tableau)[j] >= Obj(tableau)[e] - Eps12
    {
      var obj := tableau[|tableau| - 1];
      e := -1;
      var mostNeg := 0.0;
      var j := 0;
      while j < |obj| - 1
        invariant 0 <= j <= |obj| - 1
        invariant EnterScan(tableau, j, e, mostNeg) == EnteringColumn(tableau)
      {
        if obj[j] < mostNeg - Eps12 {
          var pos := ColHasPositive(j);
          if pos {
            mostNeg := obj[j];
            e := j;
          }
        }
        j := j + 1;
      }
      EnteringColumnChoice(tableau);
    }

    /** The leaving row for entering column `e`: the minimum-ratio test over
        rows with an entry above Eps12 and an RHS of at least -Eps12, the first
        row found winning unless a later ratio beats it by more than Eps12; -1
        when no row qualifies. */
    method Leaving(e: nat) returns (l: int)
      requires Valid() && e < Width(tableau)
      ensures l == LeavingRow(tableau, e)
      ensures l == -1 <==> forall i :: 0 <= i < m ==> !Eligible(tableau, e, i)
      ensures l != -1 ==> 0 <= l < m && Eligible(tableau, e, l)
      ensures l != -1 ==> forall i :: 0 <= i < m && Eligible(tableau, e, i) ==> Ratio(tableau, e, i) >= Ratio(tableau, e, l) - Eps12
    {
      l := -1;
      var best := 0.0;   // stands for +infinity while l == -1
      var i := 0;
      while i < m
        invariant 0 <= i <= m
        invariant LeaveScan(tableau, e, i, l, best) == LeavingRow(tableau, e)
      {
        var a := tableau[i][e];
        var b := tableau[i][Width(tableau) - 1];
        if a > Eps12 && b >= -Eps12 {
          var ratio := b / a;
          if l == -1 || ratio < best - Eps12 {
            best := ratio;
            l := i;
          }
        }
        i := i + 1;
      }
      LeavingRowChoice(tableau, e);
    }

    /** Pivots on entry (l, e): column `e` becomes the unit vector of row `l`
        and `e` becomes row `l`'s basic variable. */
    method Pivot(e: nat, l: nat)
      requires Valid() && e < Width(tableau) && l < m && tableau[l][e] != 0.0
      modifies this
      ensures Valid()
      ensures tableau == Pivoted(old(tableau), e, l) && basicVars == old(basicVars)[l := e]
      ensures UnitColumn(tableau, e, l)
      ensures m == old(m) && artificial == old(artificial) && status == old(status)
    {
      ghost var T0 := tableau;
      PivotCanonical(T0, basicVars, e, l);
      var p := tableau[l][e];
      tableau := tableau[l := ScaleRow(tableau[l], p)];
      var i := 0;
      while i < |tableau|
        invariant 0 <= i <= |tableau| == |T0|
        invariant basicVars == old(basicVars) && m == old(m) && artificial == old(artificial) && status == old(status)
        invariant forall r :: 0 <= r < |T0| ==>
          tableau[r] == if r < i || r == l then Pivoted(T0, e, l)[r] else T0[r]
      {
        if i != l {
          var f := tableau[i][e];
          tableau := tableau[i := SubtractMultiple(tableau[i], f, tableau[l])];
        }
        i := i + 1;
      }
      assert tableau == Pivoted(T0, e, l);
      basicVars := basicVars[l := e];
    }

    /** The step recorded for the current state: its basic solution and its
        objective value, flagged `optimal` as given. */
    method RecordStep(optimal: bool) returns (st: Step)
      requires Valid()
      ensures st == Record(State(tableau, basicVars), n, optimal)
    {
      var sol := Solution();
      st := Step(sol, Objective(), optimal);
      RecordOf(State(tableau, basicVars), n, sol, st.obj, optimal);
    }

    /** Pivots until no column enters, no row leaves, or `maxIter` pivots were
        made, recording a step after every pivot and one final step. */
    method RunSimplex(steps: seq<Step>, maxIter: nat) returns (out: seq<Step>, ghost k: nat)
      requires Valid()
      modifies this
      ensures Valid() && m == old(m) && Width(tableau) == old(Width(tableau)) && artificial == old(artificial)
      ensures k <= maxIter && State(tableau, basicVars) == Iterate(State(old(tableau), old(basicVars)), k)
      ensures k < maxIter ==>
        !CanPivot(tableau) && status in {Optimal, Unbounded} && (status == Optimal <==> EnteringColumn(tableau) == -1)
      ensures k == maxIter ==> status == old(status)
      ensures |out| == |steps| + k + 1 && out[..|steps|] == steps
      ensures Trace(State(old(tableau), old(basicVars)), k, out, |steps|, n)
      ensures EndsWith(out, State(tableau, basicVars), n, status == Optimal)
    {
      ghost var S0 := State(tableau, basicVars);
      out := steps;
      var iter := 0;
      while iter < maxIter
        invariant Valid() && m == old(m) && Width(tableau) == old(Width(tableau)) && artificial == old(artificial)
        invariant iter <= maxIter && State(tableau, basicVars) == Iterate(S0, iter)
        invariant |out| == |steps| + iter && out[..|steps|] == steps
        invariant Trace(S0, iter, out, |steps|, n)
        invariant status == old(status)
        decreases maxIter - iter
      {
        var pivoted;
        out, pivoted := Iteration(steps, out, S0, iter);
        if !pivoted {
          break;
        }
        iter := iter + 1;
      }
      k := iter;
      out := RecordFinal(steps, out, S0, k);
    }

    /** One iteration: `Optimal` when no column enters, `Unbounded` when no
        row leaves for it, otherwise a pivot and its recorded step. */
    method Iteration(steps: seq<Step>, out: seq<Step>, ghost S0: State, ghost k: nat) returns (out': seq<Step>, pivoted: bool)
      requires Valid() && Shaped(S0) && State(tableau, basicVars) == Iterate(S0, k)
      requires |out| == |steps| + k && out[..|steps|] == steps && Trace(S0, k, out, |steps|, n)
      modifies this
      ensures Valid() && m == old(m) && Width(tableau) == old(Width(tableau)) && artificial == old(artificial)
      ensures pivoted ==>
        status == old(status) && State(tableau, basicVars) == Iterate(S0, k + 1) &&
        |out'| == |steps| + k + 1 && out'[..|steps|] == steps && Trace(S0, k + 1, out', |steps|, n)
      ensures !pivoted ==>
        out' == out && tableau == old(tableau) && basicVars == old(basicVars) && !CanPivot(tableau) &&
        status in {Optimal, Unbounded} && (status == Optimal <==> EnteringColumn(tableau) == -1)
    {
      var e := Entering();
      if e == -1 {
        status := Optimal;
        return out, false;
      }
      var l := Leaving(e);
      if l == -1 {
        status := Unbounded;
        return out, false;
      }
      out' := PivotAndRecord(e, l, steps, out, S0, k);
      pivoted := true;
    }

    /** Appends the final step of a run: the current state's record, optimal
        exactly when the status says so. */
    method RecordFinal(steps: seq<Step>, out: seq<Step>, ghost S0: State, ghost k: nat) returns (out': seq<Step>)
      requires Valid() && Shaped(S0) && |out| == |steps| + k && out[..|steps|] == steps && Trace(S0, k, out, |steps|, n)
      ensures |out'| == |steps| + k + 1 && out'[..|steps|] == steps && Trace(S0, k, out', |steps|, n)
      ensures EndsWith(out', State(tableau, basicVars), n, status == Optimal)
    {
      var last := RecordStep(status == Optimal);
      out' := out + [last];
      assert out'[|out|] == last;
      TraceAppend(S0, k, out, |steps|, n, out');
      assert out'[..|steps|] == out[..|steps|];
    }

    /** The body of an iteration that pivots: pivot on (l, e), then record the
        new state as a step that is not optimal. */
    method PivotAndRecord(e: nat, l: nat, steps: seq<Step>, out: seq<Step>, ghost S0: State, ghost k: nat) returns (out': seq<Step>)
      requires Valid() && Shaped(S0) && State(tableau, basicVars) == Iterate(S0, k)
      requires e == EnteringColumn(tableau) && e < Width(tableau) - 1 && l == LeavingRow(tableau, e)
      requires |out| == |steps| + k && out[..|steps|] == steps && Trace(S0, k, out, |steps|, n)
      modifies this
      ensures Valid() && m == old(m) && Width(tableau) == old(Width(tableau))
      ensures artificial == old(artificial) && status == old(status)
      ensures State(tableau, basicVars) == Iterate(S0, k + 1)
      ensures |out'| == |steps| + k + 1 && out'[..|steps|] == steps && Trace(S0, k + 1, out', |steps|, n)
    {
      IterateNext(S0, k, e, l);
      Pivot(e, l);
      var st := RecordStep(false);
      TraceExtend(S0, k, out, |steps|, n, st);
      out' := out + [st];
      assert out'[..|steps|] == out[..|steps|];
    }

    /** The first loop of `dropArtificial`: every row whose basic variable is
        artificial either pivots on its first non-artificial entry above Eps10
        or, when it has none, is deleted. The row that moves into a deleted
        row's place is not examined, so at most as many artificials stay basic
        as rows were deleted. */
    method PivotOutArtificials() returns (ghost deleted: nat)
      requires Valid()
      modifies this
      ensures Valid() && artificial == old(artificial) && Width(tableau) == old(Width(tableau)) && status == old(status)
      ensures State(tableau, basicVars) == PivotOut(State(old(tableau), old(basicVars)), artificial, 0)
      ensures m + deleted == old(m)
      ensures CountIn(basicVars, artificial) <= deleted
    {
      ghost var S0 := State(tableau, basicVars);
      deleted := 0;
      var i := 0;
      while i < m
        invariant Valid() && artificial == old(artificial) && Width(tableau) == old(Width(tableau)) && status == old(status)
        invariant 0 <= i <= m + 1 && m + deleted == old(m)
        invariant PivotOut(State(tableau, basicVars), artificial, i) == PivotOut(S0, artificial, 0)
        invariant CountIn(basicVars[..if i <= m then i else m], artificial) <= deleted
        decreases m - i + 1
      {
        ghost var d := PivotOutRow(i);
        deleted := deleted + d;
        i := i + 1;
      }
      assert basicVars[..m] == basicVars;
    }

    /** One row of the pivot-out loop: nothing unless its basic variable is
        artificial; then a degenerate pivot on its first non-artificial entry
        above Eps10, or the row's deletion (`del` is 1) when it has none. */
    method PivotOutRow(i: nat) returns (ghost del: nat)
      requires Valid() && i < m
      modifies this
      ensures Valid() && artificial == old(artificial) && Width(tableau) == old(Width(tableau)) && status == old(status)
      ensures del <= 1 && m + del == old(m)
      ensures PivotOut(State(tableau, basicVars), artificial, i + 1) == PivotOut(State(old(tableau), old(basicVars)), artificial, i)
      ensures CountIn(basicVars[..if i + 1 <= m then i + 1 else m], artificial) <= CountIn(old(basicVars)[..i], artificial) + del
    {
      var bv := basicVars[i];
      if bv !in artificial {
        del := 0;
        CountInAppend(basicVars[..i], bv, artificial);
        assert basicVars[..i + 1] == basicVars[..i] + [bv];
        return;
      }
      var col := FirstPivotable(tableau[i], artificial, 0);
      ghost var before := basicVars;
      if col != -1 {
        Pivot(col, i);          // degenerate pivot
        del := 0;
        CountInAppend(before[..i], col, artificial);
        assert basicVars[..i + 1] == before[..i] + [col];
      } else {
        DeleteRow(i);           // redundant row
        del := 1;
        if i + 1 <= m {
          CountInAppend(before[..i], before[i + 1], artificial);
          assert basicVars[..i + 1] == before[..i] + [before[i + 1]];
        } else {
          assert basicVars[..m] == before[..i];
        }
      }
    }

    /** Deletes constraint row `i` and its basic variable. */
    method DeleteRow(i: nat)
      requires Valid() && i < m
      modifies this
      ensures Valid() && m == old(m) - 1 && artificial == old(artificial) && status == old(status)
      ensures Width(tableau) == old(Width(tableau))
      ensures tableau == old(tableau)[..i] + old(tableau)[i + 1..]
      ensures basicVars == old(basicVars)[..i] + old(basicVars)[i + 1..]
    {
      RemoveRowCanonical(tableau, basicVars, i);
      tableau := tableau[..i] + tableau[i + 1..];
      basicVars := basicVars[..i] + basicVars[i + 1..];
      m := m - 1;
    }

    /** The second half of `dropArtificial`: keeps the non-artificial columns in
        their order with the RHS last, and sends every basic index through the
        old-to-new column map. */
    method RemoveArtificialColumns() returns (ghost keep: seq<int>)
      requires Valid()
      modifies this
      ensures Valid() && artificial == {} && m == old(m) && status == old(status)
      ensures keep == KeptColumns(old(artificial), old(Width(tableau)) - 1)
      ensures forall k :: 0 <= k < |keep| ==> 0 <= keep[k] < old(Width(tableau)) - 1
      ensures tableau == Compacted(old(tableau), keep) && basicVars == Remapped(old(basicVars), keep)
      ensures Width(tableau) == old(Width(tableau)) - |old(artificial)|
      ensures StrictlyIncreasing(keep)
      ensures forall j :: 0 <= j < old(Width(tableau)) - 1 ==> (j in keep <==> j !in old(artificial))
      ensures forall k :: 0 <= k < n ==> keep[k] == k
      ensures forall i :: 0 <= i < m && basicVars[i] != -1 ==> keep[basicVars[i]] == old(basicVars)[i]
    {
      var W := Width(tableau);
      var kept: seq<int> := [];
      var j := 0;
      while j < W - 1
        invariant 0 <= j <= W - 1
        invariant kept == KeptColumns(artificial, j)
      {
        if j !in artificial {
          kept := kept + [j];
        }
        j := j + 1;
      }
      KeptColumnsFacts(artificial, W - 1);
      KeptColumnsIdentity(artificial, n, W - 1);
      assert ArtBelow(artificial, W - 1) == artificial;
      CompactedCanonical(tableau, basicVars, kept);
      tableau := Compacted(tableau, kept);
      basicVars := Remapped(basicVars, kept);
      artificial := {};
      keep := kept;
    }

    /** Removes the artificial columns after Phase I (nothing to do without
        any): `mid` is the state after the pivot-out loop, `keep` the columns kept. */
    method DropArtificial() returns (ghost mid: State, ghost keep: seq<int>)
      requires Valid()
      modifies this
      ensures Valid() && artificial == {} && status == old(status) && m <= old(m)
      ensures State(tableau, basicVars) == DropArtificials(State(old(tableau), old(basicVars)), old(artificial))
      ensures Width(tableau) == old(Width(tableau)) - |old(artificial)|
      ensures old(artificial) == {} ==> tableau == old(tableau) && basicVars == old(basicVars) && m == old(m)
      ensures old(artificial) != {} ==>
        mid == PivotOut(State(old(tableau), old(basicVars)), old(artificial), 0) &&
        CountIn(mid.bv, old(artificial)) <= old(m) - m &&
        keep == KeptColumns(old(artificial), old(Width(tableau)) - 1) &&
        (forall k :: 0 <= k < |keep| ==> 0 <= keep[k] < Width(mid.T) - 1) &&
        tableau == Compacted(mid.T, keep) && basicVars == Remapped(mid.bv, keep) &&
        (forall k :: 0 <= k < n ==> keep[k] == k) &&
        (forall q :: 0 <= q < m ==> Rhs(tableau, q) == Rhs(mid.T, q)) &&
        (forall q :: 0 <= q < m ==> basicVars[q] == -1 || 0 <= basicVars[q] < Width(tableau) - 1)
    {
      mid := State(tableau, basicVars);
      keep := [];
      if |artificial| == 0 {
        return;
      }
      ghost var S0 := State(tableau, basicVars);
      ghost var m0 := m;
      ghost var deleted := PivotOutArtificials();
      mid, keep := DropColumns(S0, m0);
    }

    /** The column removal of `dropArtificial`, after the pivot-out loop has
        taken state `S0` with `m0` constraint rows to the current state. */
    method DropColumns(ghost S0: State, ghost m0: nat) returns (ghost mid: State, ghost keep: seq<int>)
      requires Valid() && Shaped(S0) && artificial != {}
      requires forall j :: j in artificial ==> 0 <= j < Width(S0.T) - 1
      requires State(tableau, basicVars) == PivotOut(S0, artificial, 0) && CountIn(basicVars, artificial) <= m0 - m
      requires Width(tableau) == Width(S0.T)
      modifies this
      ensures Valid() && artificial == {} && status == old(status) && m == old(m)
      ensures State(tableau, basicVars) == DropArtificials(S0, old(artificial))
      ensures Width(tableau) == Width(S0.T) - |old(artificial)|
      ensures mid == PivotOut(S0, old(artificial), 0) && CountIn(mid.bv, old(artificial)) <= m0 - m
      ensures keep == KeptColumns(old(artificial), Width(S0.T) - 1)
      ensures forall k :: 0 <= k < |keep| ==> 0 <= keep[k] < Width(mid.T) - 1
      ensures tableau == Compacted(mid.T, keep) && basicVars == Remapped(mid.bv, keep)
      ensures forall k :: 0 <= k < n ==> keep[k] == k
      ensures forall q :: 0 <= q < m ==> Rhs(tableau, q) == Rhs(mid.T, q)
      ensures forall q :: 0 <= q < m ==> basicVars[q] == -1 || 0 <= basicVars[q] < Width(tableau) - 1
    {
      ghost var art := artificial;
      mid := State(tableau, basicVars);
      keep := RemoveArtificialColumns();
      CompactOf(mid, art, keep);
      CompactFacts(mid, art, n);
      assert State(tableau, basicVars) == Compact(mid, art);
    }

    /** The Phase II objective row before canonicalising: `-c`, plus `c[bv]`
        times every row whose basic variable is a decision variable. */
    method PricedObjective() returns (obj: Row)
      requires Valid()
      ensures obj == PricedOut(tableau, basicVars, cOrig, m)
    {
      var W := Width(tableau);
      obj := Zeros(W);
      var j := 0;
      while j < n
        invariant 0 <= j <= n && |obj| == W
        invariant forall k :: 0 <= k < W ==> obj[k] == if k < j then -cOrig[k] else 0.0
      {
        obj := obj[j := -cOrig[j]];
        j := j + 1;
      }
      assert obj == CostRow(cOrig, W);

      // add c_B times row i for each basic decision variable
      var i := 0;
      while i < m
        invariant 0 <= i <= m
        invariant obj == PricedOut(tableau, basicVars, cOrig, i)
      {
        var bv := basicVars[i];
        if 0 <= bv < n {
          var cb := cOrig[bv];
          obj := AddMultiple(obj, cb, tableau[i]);
        }
        i := i + 1;
      }
    }

    /** Replaces the objective row by `-c` priced out against the current
        basis, so that every basic column has reduced cost 0 and the row's
        right-hand side is the objective value c.x of the basic solution. */
    method BuildPhaseIIObjective()
      requires Valid()
      modifies this
      ensures Valid() && m == old(m) && basicVars == old(basicVars) && artificial == old(artificial) && status == old(status)
      ensures tableau == old(tableau)[m := PricedOut(old(tableau), basicVars, cOrig, m)]
      ensures State(tableau, basicVars) == PhaseIIStart(State(old(tableau), old(basicVars)), cOrig)
      ensures forall r :: 0 <= r < m && basicVars[r] != -1 ==> tableau[m][basicVars[r]] == 0.0
      ensures Objective() == Dot(cOrig, BasicSolution(tableau, basicVars, n))
    {
      var obj := PricedObjective();

      // canonicalise: over exact reals every basic reduced cost is already 0
      PricedOutCanonical(tableau, basicVars, cOrig);
      var i := 0;
      while i < m
        invariant 0 <= i <= m
        invariant obj == PricedOut(tableau, basicVars, cOrig, m)
      {
        var bv := basicVars[i];
        if bv != -1 {
          var coeff := obj[bv];
          if Abs(coeff) > Eps12 {
            assert false;   // coeff is 0 by PricedOutCanonical
          }
        }
        i := i + 1;
      }

      PricedOutValue(tableau, basicVars, cOrig);
      ghost var T0 := tableau;
      tableau := tableau[m := obj];
      assert forall r :: 0 <= r < m ==> tableau[r] == T0[r];
      assert BasicSolution(tableau, basicVars, n) == BasicSolution(T0, basicVars, n) by {
        SolutionSameRows(T0, tableau, basicVars, n, m);
      }
    }

    /** Phase II: artificial removal, the Phase II objective, then the simplex
        iterations from the `Searching` status, appending to `steps`. `start`
        is the state the Phase II iterations begin from. */
    method PhaseII(steps: seq<Step>, maxIter: nat) returns (out: seq<Step>, ghost start: State, ghost pivots: nat)
      requires Valid()
      modifies this
      ensures Valid() && artificial == {} && pivots <= maxIter && Shaped(start)
      ensures start == PhaseIIStart(DropArtificials(State(old(tableau), old(basicVars)), old(artificial)), cOrig)
      ensures State(tableau, basicVars) == Iterate(start, pivots) && Trace(start, pivots, out, |steps|, n)
      ensures |out| == |steps| + pivots + 1 && out[..|steps|] == steps
      ensures EndsWith(out, State(tableau, basicVars), n, status == Optimal)
      ensures status in {Optimal, Unbounded, Searching} && (status == Searching <==> pivots == maxIter)
      ensures status == Optimal <==> pivots < maxIter && EnteringColumn(tableau) == -1
    {
      ghost var S0 := State(tableau, basicVars);
      ghost var art := artificial;
      ghost var mid, keep := DropArtificial();
      ghost var d := State(tableau, basicVars);
      assert d == DropArtificials(S0, art);
      BuildPhaseIIObjective();
      start := State(tableau, basicVars);
      assert start == PhaseIIStart(d, cOrig);
      status := Searching;
      out, pivots := RunSimplex(steps, maxIter);
    }

    /** Phase I, the infeasibility test on its objective value, then (unless
        infeasible) Phase II. `phaseIValue` is the Phase I objective value
        tested, `pivotsI` and `pivotsII` the pivots made in each phase, and
        `start` the state Phase II begins from. */
    method Solve(maxIter: nat) returns (steps: seq<Step>, result: Status, ghost phaseIValue: real,
                                        ghost pivotsI: nat, ghost statusI: Status,
                                        ghost start: State, ghost pivotsII: nat)
      requires Valid()
      modifies this
      ensures Valid() && result == status && pivotsI <= maxIter && pivotsII <= maxIter
      ensures var p1 := Iterate(State(old(tableau), old(basicVars)), pivotsI);
        pivotsI < |steps| && phaseIValue == Rhs(p1.T, |p1.T| - 1) &&
        steps[pivotsI].obj == phaseIValue && steps[pivotsI].sol == BasicSolution(p1.T, p1.bv, n) &&
        (pivotsI < maxIter ==> !CanPivot(p1.T))
      ensures var p1 := Iterate(State(old(tableau), old(basicVars)), pivotsI);
        pivotsI < |steps| && steps[pivotsI] == Record(p1, n, statusI == Optimal) &&
        (pivotsI < maxIter ==>
          statusI in {Optimal, Unbounded} && (statusI == Optimal <==> EnteringColumn(p1.T) == -1)) &&
        (pivotsI == maxIter ==> statusI == old(status))
      ensures Trace(State(old(tableau), old(basicVars)), pivotsI, steps[..pivotsI + 1], 0, n)
      ensures phaseIValue > Eps8 ==>
        result == Infeasible && |steps| == pivotsI + 1 && artificial == old(artificial) && m == old(m) &&
        State(tableau, basicVars) == Iterate(State(old(tableau), old(basicVars)), pivotsI) &&
        EndsWith(steps, Iterate(State(old(tableau), old(basicVars)), pivotsI), n, statusI == Optimal)
      ensures phaseIValue <= Eps8 ==>
        start == PhaseIIStart(DropArtificials(Iterate(State(old(tableau), old(basicVars)), pivotsI), old(artificial)), cOrig)
      ensures phaseIValue <= Eps8 ==>
        Shaped(start) && artificial == {} && |steps| == pivotsI + pivotsII + 2 &&
        State(tableau, basicVars) == Iterate(start, pivotsII) &&
        Trace(start, pivotsII, steps, pivotsI + 1, n) &&
        EndsWith(steps, State(tableau, basicVars), n, result == Optimal) &&
        result in {Optimal, Unbounded, Searching} && (result == Searching <==> pivotsII == maxIter) &&
        (result == Optimal <==> pivotsII < maxIter && EnteringColumn(tableau) == -1)
    {
      ghost var S0 := State(tableau, basicVars);
      steps, pivotsI := RunSimplex([], maxIter);
      ghost var p1 := State(tableau, basicVars);
      ghost var stepsI := steps;
      assert |stepsI| == pivotsI + 1 && steps[..pivotsI + 1] == stepsI;
      statusI := status;
      ghost var lastI := steps[pivotsI];
      assert lastI == Record(p1, n, statusI == Optimal);
      assert lastI.sol == BasicSolution(p1.T, p1.bv, n) && lastI.obj == Rhs(p1.T, |p1.T| - 1);
      var phaseIObj := Objective();   // value of -(sum of artificials)
      phaseIValue := phaseIObj;
      start := p1;
      if phaseIObj > Eps8 {
        status := Infeasible;
        result := status;
        pivotsII := 0;
      } else {
        steps, start, pivotsII := PhaseII(steps, maxIter);
        assert steps[..pivotsI + 1] == stepsI;
        assert steps[pivotsI] == lastI by {
          assert steps[..|stepsI|][pivotsI] == steps[pivotsI];
        }
        result := status;
        assert Trace(start, pivotsII, steps, pivotsI + 1, n);
      }
    }
  }

  /** Step `x` is the record of state `s`. */
  ghost predicate Records(x: Step, s: State, n: nat, optimal: bool)
    requires Shaped(s)
  {
    x == Record(s, n, optimal)
  }

  /** The last step of `out` records state `s`. */
  ghost predicate EndsWith(out: seq<Step>, s: State, n: nat, optimal: bool)
    requires Shaped(s)
  {
    |out| > 0 && Records(out[|out| - 1], s, n, optimal)
  }

  /** `out[from ..]` records the first `k` iterations from `S0`: the state before
      each of them admits a pivot, and the step recorded after iteration `s + 1`
      is that state's record, not optimal. */
  ghost predicate Trace(S0: State, k: nat, out: seq<Step>, from: nat, n: nat)
    requires Shaped(S0)
  {
    from + k <= |out| &&
    (k > 0 ==>
      Trace(S0, k - 1, out, from, n) && CanPivot(Iterate(S0, k - 1).T) &&
      Records(out[from + k - 1], Iterate(S0, k), n, false))
  }

  /** Iteration `s` of a trace pivots, and its step records iteration `s + 1`. */
  lemma {:induction false} TraceAt(S0: State, k: nat, out: seq<Step>, from: nat, n: nat, s: nat)
    requires Shaped(S0) && Trace(S0, k, out, from, n) && s < k
    ensures CanPivot(Iterate(S0, s).T) && out[from + s] == Record(Iterate(S0, s + 1), n, false)
  {
    TracePrefix(S0, k, out, from, n, s + 1);
    TraceLast(S0, s, out, from, n);
  }

  /** Unfolds a trace of `j + 1` iterations at its last iteration. */
  lemma TraceLast(S0: State, j: nat, out: seq<Step>, from: nat, n: nat)
    requires Shaped(S0) && Trace(S0, j + 1, out, from, n)
    ensures CanPivot(Iterate(S0, j).T) && out[from + j] == Record(Iterate(S0, j + 1), n, false)
  {
  }

  /** A trace of `k` iterations holds of its first `j` iterations. */
  lemma {:induction false} TracePrefix(S0: State, k: nat, out: seq<Step>, from: nat, n: nat, j: nat)
    requires Shaped(S0) && Trace(S0, k, out, from, n) && j <= k
    ensures Trace(S0, j, out, from, n)
    decreases k
  {
    if j != k {
      TracePrefix(S0, k - 1, out, from, n, j);
    }
  }

  /** A trace survives appending further steps. */
  lemma {:induction false} TraceAppend(S0: State, k: nat, out: seq<Step>, from: nat, n: nat, out': seq<Step>)
    requires Shaped(S0) && Trace(S0, k, out, from, n) && |out| <= |out'| && out'[..|out|] == out
    ensures Trace(S0, k, out', from, n)
  {
    if k > 0 {
      TraceAppend(S0, k - 1, out, from, n, out');
      assert out'[..|out|][from + k - 1] == out'[from + k - 1];
    }
  }

  /** Recording one more iteration that pivots extends a trace. */
  lemma TraceExtend(S0: State, k: nat, out: seq<Step>, from: nat, n: nat, x: Step)
    requires Shaped(S0) && Trace(S0, k, out, from, n) && |out| == from + k
    requires CanPivot(Iterate(S0, k).T) && Records(x, Iterate(S0, k + 1), n, false)
    ensures Trace(S0, k + 1, out + [x], from, n)
  {
    TraceAppend(S0, k, out, from, n, out + [x]);
  }

  /** A step built from a state's basic solution and objective RHS is its record. */
  lemma RecordOf(s: State, n: nat, sol: seq<real>, obj: real, optimal: bool)
    requires Shaped(s) && sol == BasicSolution(s.T, s.bv, n) && obj == Rhs(s.T, |s.T| - 1)
    ensures Step(sol, obj, optimal) == Record(s, n, optimal)
  {
  }
}
