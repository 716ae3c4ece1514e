# Two-phase simplex solver and feasible-region geometry

This project models the linear-programming core of
`app/linear-programming/LinearProgramming.tsx`, with proofs.

**The solver.** `SimplexSolver` maximises `c.x` subject to `A x <= b` using a
dense two-phase simplex tableau:

- A row with a negative right-hand side is negated.
- A `<=` row gets a slack column.
- A negated row gets a surplus column and an artificial column.
- Phase I maximises minus the sum of the artificials.
- A Phase I value above `1e-8` reports the problem infeasible.
- Otherwise the artificial columns are pivoted out and removed, the true
  objective is priced out against the current basis, and Phase II runs.
- Every pivot is recorded as a step: the decision variables, the objective
  row's right-hand side, and whether the phase ended optimal.

**The geometry.** Two helpers serve the drawing code:

- The feasible polygon's vertices are found by intersecting every pair of
  boundary lines with Cramer's rule. The feasible points are kept and ordered
  by angle around their centroid.
- The canvas fit computes the bounding box, a uniform scale and an origin.

**Arithmetic.** All numbers are Dafny `real`, so all arithmetic is exact. The
source's tolerances are kept as literals:

| constant | value | used for |
|---|---|---|
| `Eps12` | `1e-12` | pivot choice |
| `Eps10` | `1e-10` | pivoting out artificials |
| `Eps9` | `1e-9` | geometry |
| `Eps8` | `1e-8` | infeasibility |

## Modules

- `tableau.dfy` (module `Tableau`) covers the tableau itself:
  - its shape and canonical form: every basic column is a unit vector in
    every row, the objective row included;
  - pivoting;
  - the entering-column and leaving-row scans as reference functions;
  - the reference iteration `Iterate`: k simplex iterations applied to a
    tableau and its basis, stopping once no pivot is possible;
  - the basic solution;
  - column compaction and index remapping.
- `phases.dfy` (module `Phases`) covers the two phases' reference states:
  - the Phase I tableau as a closed-form function of `A`, `b` and `n`;
  - the pivot-out loop and the column removal of `dropArtificial`, as the
    functions `PivotOut`, `Compact` and `DropArtificials`;
  - the Phase II objective row, as a function of the tableau, the basis and `c`.
- `solver.dfy` (module `Simplex`) holds `class SimplexSolver`:
  - fields `tableau`, `basicVars`, `artificial`, `m` and `status` are updated
    by its methods, plus the constants `cOrig` and `n`;
  - `Valid()` holds after construction: `m + 1` equal-width rows, one basic entry
    per constraint row, canonical form, and artificial columns strictly
    between the decision columns and the right-hand side;
  - every method called after construction requires and keeps `Valid()`;
  - the four layout methods `AddColumn`, `AddConstraintRow`, `AddSlackRow`
    and `AddSurplusRow` run while the tableau is still being built. They are
    stated against the closed forms `ConstraintRows`, `Basis` and
    `Artificials` instead;
  - each method states its new state as a reference function of the old one:
    - `Pivot` by `Pivoted`;
    - `RunSimplex` by `Iterate`, with every recorded step tied to its iterate;
    - `PivotOutArtificials` by `PivotOut`;
    - `DropArtificial` by `DropArtificials`;
    - `BuildPhaseIIObjective` by `PhaseIIStart`, its first two loops
      (`PricedObjective`) by `PricedOut`;
    - `Solve` by the composition of these.
- `geometry.dfy` (module `Geometry`) holds `HullFromConstraints`, which is
  imperative with nested loops, and `FitToCanvas`, which is pure.

**How the recorded steps are stated.** `Record(s, n, optimal)` is the step
pushed for state `s`: its basic solution, its objective row's right-hand side
(`objective()`, line 273) and the flag. `Trace(S0, k, out, from, n)` says that
the steps `out[from]` to `out[from + k - 1]` are the records, not optimal, of
iterates 1 to k from `S0`. `EndsWith(out, s, n, optimal)` says that the last
step records `s`.

**How JavaScript `undefined` is modelled.** A `basicVars` entry of `-1`
stands for `undefined`. It arises in two ways:

- `dropArtificial` maps a column that was not kept through the old-to-new
  column `Map`.
- The `findIndex` at lines 176-178 scans the right-hand-side column too, so a
  row can be pivoted on that column. The right-hand-side column is never
  kept.

Every later reader of `basicVars` ignores `-1` exactly as the source ignores
`undefined`:

- `solution` and `buildPhaseIIObjective` test `bv >= 0 && bv < n`.
- `Math.abs(obj[undefined])` is `NaN`, and a comparison with `NaN` is false.
- `artificial.has(undefined)` is false.

## Model

| member | source | states |
|---|---|---|
| Tableau.CanonicalDistinct | app/linear-programming/LinearProgramming.tsx:224-231 | in canonical form no two rows share a basic column |
| Tableau.ScaleRow | app/linear-programming/LinearProgramming.tsx:264 | `row.map(v => v / p)` keeps the row's length; `Tableau.PivotCanonical` states what the division does to the pivot column |
| Tableau.SubtractMultiple | app/linear-programming/LinearProgramming.tsx:268 | `v - m * pivotRow[j]` entry by entry keeps the row's length; `Tableau.PivotCanonical` states that it zeroes the pivot column |
| Tableau.InsertZero | app/linear-programming/LinearProgramming.tsx:76 | `splice(idx, 0, 0)`: entries before `idx` unchanged, a 0 at `idx`, later entries one place right |
| Tableau.Pivoted | app/linear-programming/LinearProgramming.tsx:262-271 | pivoting keeps the row count and the common width |
| Tableau.PivotCanonical | app/linear-programming/LinearProgramming.tsx:262-271 | after pivoting on (l, e), column e is the unit vector of row l in every row (objective included), and canonical form holds for the basis with `bv[l := e]` |
| Tableau.RemoveRowShape | app/linear-programming/LinearProgramming.tsx:183 | deleting row i keeps a tableau of the same width, one row shorter, with every later row moved up one place |
| Tableau.RemoveRowCanonical | app/linear-programming/LinearProgramming.tsx:183-185 | deleting a constraint row and its basic entry keeps the shape and canonical form |
| Tableau.EnterScan | app/linear-programming/LinearProgramming.tsx:240-245 | the loop of `entering` as a scan from column j with the best column and value so far; its result is characterised by `Tableau.EnterScanChoice` |
| Tableau.EnteringColumn | app/linear-programming/LinearProgramming.tsx:238-247 | the scan started at column 0 with `e = -1` and `mostNeg = 0`; characterised by `Tableau.EnteringColumnChoice` |
| Tableau.EnterScanChoice | app/linear-programming/LinearProgramming.tsx:238-247 | from any state the scan can reach, the entering scan's result satisfies the entering-column characterisation |
| Tableau.EnteringColumnChoice | app/linear-programming/LinearProgramming.tsx:238-247 | -1 iff no eligible column has reduced cost below -1e-12; otherwise a column left of the RHS with a positive entry and reduced cost below -1e-12, strictly below every earlier candidate and within 1e-12 of every later one |
| Tableau.LeaveScan | app/linear-programming/LinearProgramming.tsx:251-258 | the loop of `leaving` as a scan from row i with the best row and ratio so far; its result is characterised by `Tableau.LeaveScanChoice` |
| Tableau.LeavingRow | app/linear-programming/LinearProgramming.tsx:249-260 | the scan started at row 0 with `l = -1` and no ratio yet (`Infinity`); characterised by `Tableau.LeavingRowChoice` |
| Tableau.LeaveScanChoice | app/linear-programming/LinearProgramming.tsx:249-260 | from any state the scan can reach, the leaving scan's result satisfies the leaving-row characterisation |
| Tableau.LeavingRowChoice | app/linear-programming/LinearProgramming.tsx:249-260 | -1 iff no row has an entry > 1e-12 and an RHS >= -1e-12; otherwise such a row whose ratio no eligible row beats by more than 1e-12, and which earlier eligible rows do not beat at all |
| Tableau.PivotStep | app/linear-programming/LinearProgramming.tsx:209-216 | one pass of the `runSimplex` loop that pivots: on the entering column and its leaving row, which takes that column as its basic variable; shape and width are kept |
| Tableau.Iterate | app/linear-programming/LinearProgramming.tsx:206-219 | k passes of the loop from a state, stopping once no pivot is possible; shape and width are kept |
| Tableau.IterateNext | app/linear-programming/LinearProgramming.tsx:209-216 | when column e enters at iterate k and row l leaves for it, the pivot entry is non-zero and iterate k + 1 is iterate k pivoted on (l, e) with `bv[l] := e` |
| Tableau.PivotStepCanonical | app/linear-programming/LinearProgramming.tsx:209-216 | one iteration keeps canonical form |
| Tableau.IterateCanonical | app/linear-programming/LinearProgramming.tsx:206-219 | any number of iterations keep canonical form |
| Tableau.IterateStuck | app/linear-programming/LinearProgramming.tsx:210-215 | once no pivot is possible, further iterations change nothing |
| Tableau.BasicSolution | app/linear-programming/LinearProgramming.tsx:224-231 | the solution has n entries |
| Tableau.SolutionUpToValues | app/linear-programming/LinearProgramming.tsx:224-231 | after reading rows below i, a decision variable basic in one of them holds that row's RHS and every other one holds 0 |
| Tableau.BasicSolutionValues | app/linear-programming/LinearProgramming.tsx:224-231 | each basic decision variable takes its row's RHS; every non-basic one is 0 |
| Tableau.FirstPivotable | app/linear-programming/LinearProgramming.tsx:176-178 | -1 iff every entry, RHS included, is within 1e-10 of 0 or artificial; otherwise the first column that is neither |
| Tableau.KeptColumns | app/linear-programming/LinearProgramming.tsx:190-193 | at most j columns below column j; characterised in full by `Tableau.KeptColumnsFacts` |
| Tableau.KeptColumnsFacts | app/linear-programming/LinearProgramming.tsx:190-193 | the kept columns are strictly increasing; exactly the non-artificial columns left of the RHS; their count plus the artificial count is the column count |
| Tableau.KeptColumnsIdentity | app/linear-programming/LinearProgramming.tsx:190-193 | with every artificial at index >= n, the first n kept columns are 0..n-1, so decision variables keep their indices |
| Tableau.LastIndexOf | app/linear-programming/LinearProgramming.tsx:198-200 | the `Map` lookup: -1 iff the column is not kept; otherwise the position holding it, with no later duplicate |
| Tableau.Remapped | app/linear-programming/LinearProgramming.tsx:198-200 | `basicVars.map(j => map.get(j))`: one entry per row; `Tableau.CompactedCanonical` proves canonical form for it |
| Tableau.CompactRow | app/linear-programming/LinearProgramming.tsx:195 | one row rebuilt from the kept columns followed by the RHS: `|keep| + 1` entries |
| Tableau.Compacted | app/linear-programming/LinearProgramming.tsx:195 | the compacted tableau has the same rows and width `|keep| + 1` |
| Tableau.CompactedCanonical | app/linear-programming/LinearProgramming.tsx:195-200 | entry k of each compacted row is the old entry at `keep[k]`, the RHS is unchanged, and canonical form holds for the remapped basis |
| Phases.OffsetGrows | app/linear-programming/LinearProgramming.tsx:73-78 | columns added by a later row lie right of every column an earlier row added |
| Phases.Entry | app/linear-programming/LinearProgramming.tsx:88-117 | the entry of constraint row r in column j: `±A[r][j]` among the decision columns, then 1 in its slack column, or -1 in its surplus column and 1 in the artificial column after it, and 0 elsewhere; `Phases.SlackRow` and `Phases.SurplusRow` show it is what the source lays out |
| Phases.ConstraintRow | app/linear-programming/LinearProgramming.tsx:88-117 | constraint row r over `cols` columns plus the RHS: `cols + 1` entries |
| Phases.ConstraintRows | app/linear-programming/LinearProgramming.tsx:88-117 | the first k constraint rows, each `cols + 1` entries long |
| Phases.Basis | app/linear-programming/LinearProgramming.tsx:99-113 | one basic column per row laid out; `Phases.BasicColumnUnit` shows each is its row's unit column |
| Phases.InsertZeroColumn | app/linear-programming/LinearProgramming.tsx:76 | inserting a zero column right of a row's own columns turns it into the same row over one more column |
| Phases.InsertZeroColumnRows | app/linear-programming/LinearProgramming.tsx:76 | the same for all rows laid out so far |
| Phases.SlackRow | app/linear-programming/LinearProgramming.tsx:99-103 | `A[i]` padded, a 1 in its slack column, then `b[i]`, is constraint row i |
| Phases.SurplusRow | app/linear-programming/LinearProgramming.tsx:93-113 | `-A[i]` padded, -1 in the surplus column, 1 in the artificial column, then `-b[i]`, is constraint row i |
| Phases.BasicColumnUnit | app/linear-programming/LinearProgramming.tsx:99-113 | row r's basic column lies past the decision columns, is 1 in row r and 0 in every other constraint row, and is artificial iff row r was negated |
| Phases.ArtificialsRange | app/linear-programming/LinearProgramming.tsx:108-111 | every artificial column lies between the decision columns and the RHS |
| Phases.ArtificialsStep | app/linear-programming/LinearProgramming.tsx:111 | a row adds its basic column to the artificial set exactly when it was negated |
| Phases.PhaseIObjective | app/linear-programming/LinearProgramming.tsx:122-134 | the Phase I objective row has the tableau's width; `Phases.ObjectiveOffArtificial` gives its entries |
| Phases.ObjectiveOffArtificial | app/linear-programming/LinearProgramming.tsx:124-134 | outside the artificial columns, the objective entry is minus the column's sum over the negated rows |
| Phases.FlippedRhsNonNegative | app/linear-programming/LinearProgramming.tsx:93-96 | the sum of the negated rows' right-hand sides is >= 0 |
| Phases.FlippedSumSingle | app/linear-programming/LinearProgramming.tsx:128-134 | in a column zero in every row but r, the sum over negated rows is row r's entry if r was negated, else 0 |
| Phases.FlippedSumRhs | app/linear-programming/LinearProgramming.tsx:128-134 | in the RHS column that sum is the total of the negated rows' right-hand sides |
| Phases.PhaseITableau | app/linear-programming/LinearProgramming.tsx:70-137 | the Phase I tableau has `|b| + 1` rows of equal width, one column per decision variable and per added slack, surplus and artificial column, plus the RHS |
| Phases.PhaseIBasicUnit | app/linear-programming/LinearProgramming.tsx:88-136 | each row's basic column is the unit vector of that row in the Phase I tableau, objective row included |
| Phases.PhaseICanonical | app/linear-programming/LinearProgramming.tsx:88-136 | the Phase I tableau is canonical for the slack/artificial basis; artificial columns lie between the decision columns and the RHS |
| Phases.PhaseIRhsNonNegative | app/linear-programming/LinearProgramming.tsx:93-97 | every constraint row's RHS is >= 0 |
| Phases.PhaseIObjectiveRow | app/linear-programming/LinearProgramming.tsx:122-136 | the last row of the Phase I tableau is `PhaseIObjective` of its constraint rows and artificial columns |
| Phases.PhaseIObjectiveRhsEntry | app/linear-programming/LinearProgramming.tsx:122-136 | the objective row's RHS is minus the sum of the negated rows' right-hand sides |
| Phases.PhaseIObjectiveRhs | app/linear-programming/LinearProgramming.tsx:122-136 | the Phase I value compared at line 54 starts at `-sum(-b[i] for b[i] < 0)`, which is <= 0 |
| Phases.CostRow | app/linear-programming/LinearProgramming.tsx:141-144 | `-c` then zeros, over the full width |
| Phases.PricedOut | app/linear-programming/LinearProgramming.tsx:146-153 | the priced-out row has the tableau's width |
| Phases.PricedOutOnBasis | app/linear-programming/LinearProgramming.tsx:146-153 | in a basic column, pricing out adds exactly `c[bv]` to `-c[bv]` once the basic row is passed |
| Phases.PricedOutCanonical | app/linear-programming/LinearProgramming.tsx:146-162 | after pricing out, every basic column has reduced cost 0, so the canonicalise loop finds nothing to do |
| Phases.PricedOutValueUpTo | app/linear-programming/LinearProgramming.tsx:146-153 | after rows below i, the RHS entry is `c . x` for the solution read off those rows |
| Phases.PricedOutValueStep | app/linear-programming/LinearProgramming.tsx:146-153 | adding row i-1 keeps the RHS entry equal to `c . x` for the solution read off the rows below i |
| Phases.PricedOutValue | app/linear-programming/LinearProgramming.tsx:146-153 | the Phase II objective's RHS is `c . x` for the basic solution x |
| Phases.PivotOut | app/linear-programming/LinearProgramming.tsx:171-187 | the pivot-out loop from row i on, skip after a deletion included: the width is kept and rows are never added |
| Phases.PivotOutCanonical | app/linear-programming/LinearProgramming.tsx:171-187 | the pivot-out loop keeps canonical form |
| Phases.Compact | app/linear-programming/LinearProgramming.tsx:189-202 | the column removal and basis remap: the row count is kept |
| Phases.CompactFacts | app/linear-programming/LinearProgramming.tsx:189-202 | on a canonical state with artificials between the decision columns and the RHS, the result is canonical, narrower by the number of artificials, with the decision columns and every RHS unchanged and each basic index -1 or left of the RHS |
| Phases.CompactOf | app/linear-programming/LinearProgramming.tsx:189-202 | `Compact` keeps exactly the columns `KeptColumns` lists: the tableau is compacted by them and the basis remapped through them |
| Phases.DropArtificials | app/linear-programming/LinearProgramming.tsx:168-203 | the state left by `dropArtificial`: unchanged without artificials, otherwise the pivot-out loop then the column removal; never more rows |
| Phases.DropArtificialsFacts | app/linear-programming/LinearProgramming.tsx:168-203 | from a canonical state the result is canonical and narrower by the number of artificials; its decision columns and right-hand sides are those after the pivot-out loop; each basic index is -1 or left of the RHS |
| Phases.PhaseIIStart | app/linear-programming/LinearProgramming.tsx:140-165 | the state Phase II starts from: the same basis and constraint rows, with the objective row replaced by the priced-out cost row |
| Phases.PhaseIIStartFacts | app/linear-programming/LinearProgramming.tsx:140-165 | from a canonical state, Phase II starts canonical, with reduced cost 0 in every basic column and RHS `c . x` for the basic solution |
| Simplex.Record | app/linear-programming/LinearProgramming.tsx:217-220 | the step pushed for a state: its basic solution over the n decision variables, its objective RHS and the flag |
| Simplex.ExtendRow | app/linear-programming/LinearProgramming.tsx:80-82 | pads with zeros up to `upto`, and leaves a longer row alone |
| Simplex.SimplexSolver.constructor | app/linear-programming/LinearProgramming.tsx:40-45 | the solver holds the Phase I tableau, the slack/artificial basis and the artificial set, in a valid state |
| Simplex.SimplexSolver.BuildPhaseI | app/linear-programming/LinearProgramming.tsx:70-137 | the tableau becomes exactly the Phase I tableau, with basis and artificial set to match |
| Simplex.SimplexSolver.AddColumn | app/linear-programming/LinearProgramming.tsx:73-78 | every row laid out so far gets a zero column at `idx`; nothing else changes |
| Simplex.SimplexSolver.AddConstraintRow | app/linear-programming/LinearProgramming.tsx:88-117 | lays out row i: afterwards the tableau, the basis and the artificial set are those of the first i + 1 rows |
| Simplex.SimplexSolver.AddSlackRow | app/linear-programming/LinearProgramming.tsx:99-103 | a `<=` row gains one slack column that is basic in it |
| Simplex.SimplexSolver.AddSurplusRow | app/linear-programming/LinearProgramming.tsx:104-113 | a negated row gains a surplus column and an artificial column; the artificial is basic and joins the artificial set |
| Simplex.SimplexSolver.ArtificialIndicator | app/linear-programming/LinearProgramming.tsx:124-125 | 1 in every artificial column and 0 elsewhere |
| Simplex.SimplexSolver.AppendPhaseIObjective | app/linear-programming/LinearProgramming.tsx:122-136 | subtracting every artificial-basic row once gives the reference Phase I objective row `PhaseIObjective`, and the tableau becomes valid |
| Simplex.SimplexSolver.Solution | app/linear-programming/LinearProgramming.tsx:224-231 | the basic solution: n entries, basic decision variables at their row's RHS, the rest 0 |
| Simplex.SimplexSolver.ColHasPositive | app/linear-programming/LinearProgramming.tsx:233-236 | true iff some constraint row has an entry above 1e-12 in the column |
| Simplex.SimplexSolver.Entering | app/linear-programming/LinearProgramming.tsx:238-247 | the reference entering column: -1 iff every eligible reduced cost is >= -1e-12; otherwise an eligible column below -1e-12 and within 1e-12 of the most negative |
| Simplex.SimplexSolver.Leaving | app/linear-programming/LinearProgramming.tsx:249-260 | the reference leaving row: -1 iff no row is eligible; otherwise an eligible row whose ratio no eligible row beats by more than 1e-12 |
| Simplex.SimplexSolver.Pivot | app/linear-programming/LinearProgramming.tsx:262-271 | the tableau becomes `Pivoted(old, e, l)` and `basicVars[l] := e`; column e is a unit vector; m, the width, the artificial set and the status are unchanged |
| Simplex.SimplexSolver.RecordStep | app/linear-programming/LinearProgramming.tsx:273 | the step built from `solution()` and `objective()` is the record of the current state |
| Simplex.SimplexSolver.RunSimplex | app/linear-programming/LinearProgramming.tsx:206-221 | the new state is iterate k of the old one, for some k <= maxIter; the k steps appended first record iterates 1 to k, not optimal; one more step records the final state with `status == Optimal`; below the cap no pivot is possible and the status is Optimal exactly when no column enters, else Unbounded; at the cap the status is unchanged |
| Simplex.SimplexSolver.Iteration | app/linear-programming/LinearProgramming.tsx:209-218 | one pass of the loop: either it pivots, giving the next iterate and extending the record by its step with the status unchanged, or it changes nothing, no pivot is possible and the status is set as at lines 211 and 215 |
| Simplex.SimplexSolver.PivotAndRecord | app/linear-programming/LinearProgramming.tsx:216-218 | pivoting on the entering column and its leaving row gives the next iterate, and its step extends the record |
| Simplex.SimplexSolver.RecordFinal | app/linear-programming/LinearProgramming.tsx:220 | the final push: the record of iterates is kept and the last step records the current state with `status == Optimal` |
| Simplex.SimplexSolver.PivotOutArtificials | app/linear-programming/LinearProgramming.tsx:171-187 | the new state is `PivotOut` of the old one; m drops by the number of rows deleted; at most that many rows keep an artificial basic variable |
| Simplex.SimplexSolver.PivotOutRow | app/linear-programming/LinearProgramming.tsx:173-186 | one pass of the loop at row i: at most one row deleted; the rest of the loop from i + 1 reaches the state the loop from i would reach |
| Simplex.SimplexSolver.DeleteRow | app/linear-programming/LinearProgramming.tsx:183-185 | removes row i and its basic entry, decrements m, keeps canonical form |
| Simplex.SimplexSolver.RemoveArtificialColumns | app/linear-programming/LinearProgramming.tsx:189-202 | keeps exactly the non-artificial columns in their order with the RHS last; the width shrinks by the number of artificials; decision columns keep their indices; each basic index maps to the new position of the same old column; the artificial set becomes empty |
| Simplex.SimplexSolver.DropArtificial | app/linear-programming/LinearProgramming.tsx:168-203 | the new state is `DropArtificials` of the old one; without artificials nothing changes; otherwise the state after the pivot-out loop keeps at most as many artificials basic as rows were deleted, and the result is its compaction by the kept columns, with the decision columns first and every RHS unchanged |
| Simplex.SimplexSolver.DropColumns | app/linear-programming/LinearProgramming.tsx:189-202 | after the pivot-out loop, removes the artificial columns: the state becomes `DropArtificials` of the one before the loop, narrower by the number of artificials, with the decision columns first, every RHS unchanged and no artificials left |
| Simplex.SimplexSolver.PricedObjective | app/linear-programming/LinearProgramming.tsx:140-153 | changes nothing and returns `-c` plus `c[bv]` times every row whose basic variable is a decision variable, that is `PricedOut` over all rows |
| Simplex.SimplexSolver.BuildPhaseIIObjective | app/linear-programming/LinearProgramming.tsx:140-165 | only the objective row changes: the new state is `PhaseIIStart` of the old one, with reduced cost 0 in every basic column and `objective()` equal to `c . x` for the basic solution |
| Simplex.SimplexSolver.PhaseII | app/linear-programming/LinearProgramming.tsx:59-64 | Phase II starts from `PhaseIIStart(DropArtificials(...))` and ends at its iterate `pivots`, recording every iterate and the final state; Searching exactly when all maxIter pivots were used, Optimal exactly when below the cap no column enters |
| Simplex.SimplexSolver.Solve | app/linear-programming/LinearProgramming.tsx:48-67 | steps 0 to `pivotsI - 1` record the Phase I iterates after each pivot, and step `pivotsI` is the final record of the last one, flagged optimal exactly when Phase I ended with status `statusI == Optimal`; below the cap `statusI` is Optimal or Unbounded, Optimal exactly when no column enters, and at the cap it is the status Phase I started with; `phaseIValue` is the objective RHS of the last Phase I iterate, which is `steps[pivotsI].obj`; above 1e-8 the result is Infeasible with only those steps, ending with that final record, and the Phase I state kept; otherwise Phase II starts from `PhaseIIStart(DropArtificials(...))` of the Phase I state, its steps follow, and the status is Optimal, Unbounded or Searching as for `PhaseII` |
| Simplex.TraceAt | app/linear-programming/LinearProgramming.tsx:216-217 | in a record of k iterations, each step before the k-th follows a possible pivot and records the next iterate, not optimal |
| Simplex.TraceExtend | app/linear-programming/LinearProgramming.tsx:216-218 | pushing the record of the next iterate after a possible pivot extends a record of k iterations to k + 1 |
| Geometry.Meet | app/linear-programming/LinearProgramming.tsx:282-285 | Cramer's rule: the point lies on both boundary lines |
| Geometry.MeetOnBoth | app/linear-programming/LinearProgramming.tsx:282-285 | the Cramer's-rule point satisfies both line equations exactly |
| Geometry.RowPoints | app/linear-programming/LinearProgramming.tsx:279-290 | the points the inner loop pushes for first index i; characterised by `Geometry.RowPointsMembers` and `Geometry.RowPointsCount` |
| Geometry.PointsUpTo | app/linear-programming/LinearProgramming.tsx:278-291 | the points both loops push for first indices below `rows`; characterised by `Geometry.PointsUpToMembers` and `Geometry.PointsUpToCount` |
| Geometry.Survivors | app/linear-programming/LinearProgramming.tsx:277-291 | all the points pushed; characterised by `Geometry.SurvivorsMembers` and `Geometry.SurvivorsCount` |
| Geometry.RowPointsMembers | app/linear-programming/LinearProgramming.tsx:279-290 | the points found for first index i are exactly the feasible meeting points of the pairs (i, j) that are not parallel |
| Geometry.PointsUpToMembers | app/linear-programming/LinearProgramming.tsx:278-291 | the same over all first indices below `rows` |
| Geometry.SurvivorsMembers | app/linear-programming/LinearProgramming.tsx:278-291 | a point is found iff some pair i < j with determinant magnitude >= 1e-9 meets in it and it satisfies every constraint within 1e-9 |
| Geometry.SurvivorsOnBoundaries | app/linear-programming/LinearProgramming.tsx:282-289 | every found point satisfies all constraints within 1e-9 and lies on the boundaries of a pair with determinant magnitude >= 1e-9 |
| Geometry.RowPointsCount | app/linear-programming/LinearProgramming.tsx:279-290 | at most one point per pair (i, j) |
| Geometry.PointsUpToCount | app/linear-programming/LinearProgramming.tsx:278-291 | at most one point for each pair whose first index is below `rows` |
| Geometry.SurvivorsCount | app/linear-programming/LinearProgramming.tsx:278-291 | at most n(n-1)/2 points |
| Geometry.Centroid | app/linear-programming/LinearProgramming.tsx:293 | the mean of the points, the centre `HullFromConstraints` orders them around |
| Geometry.InsertByKey | app/linear-programming/LinearProgramming.tsx:294 | insertion adds exactly the one point |
| Geometry.InsertSorted | app/linear-programming/LinearProgramming.tsx:294 | insertion keeps a sequence sorted by angle |
| Geometry.SortedSnoc | app/linear-programming/LinearProgramming.tsx:294 | a point whose angle is no smaller than every angle of a sorted sequence can go at its end |
| Geometry.SortByKey | app/linear-programming/LinearProgramming.tsx:294 | the comparator sort: a permutation, sorted by angle about the centre |
| Geometry.SatisfiesAll | app/linear-programming/LinearProgramming.tsx:287-288 | true iff the point satisfies every constraint within 1e-9 |
| Geometry.PairIntersection | app/linear-programming/LinearProgramming.tsx:280-289 | nothing for near-parallel lines (|D| < 1e-9) or an infeasible meeting point, else the meeting point |
| Geometry.RowIntersections | app/linear-programming/LinearProgramming.tsx:279-290 | the inner loop for first index i collects exactly `RowPoints` for i |
| Geometry.Intersections | app/linear-programming/LinearProgramming.tsx:277-291 | the points collected are exactly the survivors, in pair-loop order |
| Geometry.HullFromConstraints | app/linear-programming/LinearProgramming.tsx:276-295 | empty when nothing survives; otherwise the survivors sorted by angle about their centroid; always a permutation of the survivors with at most n(n-1)/2 points |
| Geometry.MinOf | app/linear-programming/LinearProgramming.tsx:299-300 | `Math.min`: an element no larger than any other |
| Geometry.MaxOf | app/linear-programming/LinearProgramming.tsx:299-300 | `Math.max`: an element no smaller than any other |
| Geometry.Extent | app/linear-programming/LinearProgramming.tsx:301 | the extent `hi - lo`, or 1 when it is 0, so always positive |
| Geometry.BoundingBox | app/linear-programming/LinearProgramming.tsx:298-300 | a box containing every point, each side attained by some point |
| Geometry.MinRatio | app/linear-programming/LinearProgramming.tsx:302 | `Math.min` of the two ratios: no larger than either and equal to one |
| Geometry.Origin | app/linear-programming/LinearProgramming.tsx:303 | `origin.x + minX * scale == pad` and `origin.y - minY * scale == height - pad` |
| Geometry.FitBox | app/linear-programming/LinearProgramming.tsx:301-304 | the scale is the smaller ratio of padded canvas to box extent, and the origin puts the box's lower-left corner at (pad, height - pad) |
| Geometry.FitToCanvas | app/linear-programming/LinearProgramming.tsx:297-305 | the same, for the points' own bounding box |
| Geometry.ToCanvas | app/linear-programming/LinearProgramming.tsx:421-424 | the component's `toCanvas`: right by `x * scale` and up by `y * scale` from the origin; `Geometry.FitInside` states where it lands |
| Geometry.FitScaleNonNegative | app/linear-programming/LinearProgramming.tsx:302 | when `2 pad` fits both dimensions, the fitted scale is >= 0 and no larger than either ratio |
| Geometry.PlaceInside | app/linear-programming/LinearProgramming.tsx:421-424 | with such a scale and the fitted origin, a point of the box lands inside the padded canvas |
| Geometry.FitBoxInside | app/linear-programming/LinearProgramming.tsx:297-305 | a point in the box, drawn right by x and up by y from the origin, lands inside the padded canvas when `2 pad` fits both dimensions |
| Geometry.FitInside | app/linear-programming/LinearProgramming.tsx:297-305 | every point of the fitted set lands inside the padded canvas when `2 pad` fits both dimensions |

## Left out

- `tween` is not part of this model. It is animation timing over `requestAnimationFrame`, `performance.now` and a Promise.
- The `LinearProgramming` React component is not part of this model: canvas drawing, hooks, `randomise` (`Math.random`, trigonometry) and the async driver with its logging. Only its point-to-canvas mapping appears, as `Geometry.ToCanvas`, so that `FitInside` can be stated.
- Floating point: the model computes over exact reals.
  - `Infinity`, `NaN` and rounding are not modelled.
  - The `isFinite` guard of `hullFromConstraints` is dropped, since over reals it always passes once `|D| >= 1e-9`.
- `Math.atan2` is a parameter `angle`; the model does not compute it.
  - `HullFromConstraints` sorts by `angle(y - cy, x - cx)` for whatever `angle` is given.
  - The built-in comparator sort is modelled as a stable insertion sort.
- The `v ?? 0` pass at line 120 is the identity in the model: `ExtendRow` pads every row in full, so no entry is ever missing.
- Default arguments: `maxIter = 1000` in `solve` and `pad = 30` in `fitToCanvas` are explicit parameters. The `eps` of `colHasPositive` is fixed at its default `1e-12`, since no caller passes another value.
- The pivot-out loop is modelled as written, skip included. Deleting row i inside the forward loop means the row shifted into place i is never examined. Such a row's artificial later maps to -1 (`undefined`) in `RemoveArtificialColumns`.
- Simplex.SimplexSolver.constructor: requires at least one constraint row and rows of exactly n entries. With no rows the source throws when it reads `tableau[0]` at line 123. It also requires `b` to have one entry per row of `A`. The source accepts a shorter `b`: the missing `b[i]` is `undefined`, so the row takes the `<=` branch and line 120 turns its right-hand side into 0. Entries of a longer `b` are never read. The component always builds `A` and `b` from the same list of constraints.
- Simplex.SimplexSolver.Pivot: requires a non-zero pivot entry. Every caller already guarantees one: the leaving row has an entry > 1e-12, and the artificial pivot has one > 1e-10.
- Simplex.SimplexSolver.BuildPhaseIIObjective: the canonicalise loop (lines 156-162) is kept, but over exact reals its subtraction branch is unreachable. `Phases.PricedOutCanonical` shows every basic reduced cost is already 0, and the branch holds only `assert false`.
- Simplex.SimplexSolver.Solve: states the infeasibility branch only as written. The value compared is minus the sum of the artificials, which `Phases.PhaseIObjectiveRhs` shows is <= 0 at construction. No claim is made that infeasible problems are reported as `Infeasible`.
- Simplex.SimplexSolver.RunSimplex: states the new state and every step through `Iterate`, but does not relate the recorded objective values to `c . x` after Phase II pivots. It also makes no claim about LP optimality or unboundedness beyond the entering and leaving tests.
- Geometry.FitToCanvas: requires a non-empty point list. `Math.min()` of no arguments is `Infinity`, which the model does not represent; every caller passes at least the origin point.
- Geometry.Centroid: no property is proved beyond its use as the centre of the angular order.
