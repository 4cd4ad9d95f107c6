/**
 * `HEOMSolver.steady_state`: the linear system whose first equation is replaced by the
 * normalisation `trace(rho) == 1`, and the density matrix and ADO state read back from its
 * solution. The numeric value of `rhs(0)` and the sparse solve are parameters.
 */
module SteadyState {
  import opened Wrappers
  import opened Errors
  import opened ComplexNumbers
  import opened Hierarchy
  import opened Gather
  import opened Solver
  import opened Layout

  /** The system `L x = b` handed to the sparse solver. */
  datatype LinearSystem = LinearSystem(lhs: Matrix, rhs: seq<Complex>)

  /** Position `p` of the state vector holds a diagonal entry `(i, i)` of `rho`. */
  predicate IsDiagonalPosition(n: nat, p: nat)
  {
    n > 0 && p < n * n && p % n == p / n
  }

  /** The row that sums the diagonal of `rho`: one at each diagonal position, zero elsewhere. */
  function TraceRow(n: nat, size: nat): seq<Complex>
  {
    seq(size, p requires 0 <= p < size => if IsDiagonalPosition(n, p) then One else Zero)
  }

  /**
   * The linear system of `steady_state`: a time-dependent system raises ValueError; `b` is
   * zero but for a one at position 0 (an empty state raises IndexError there); row 0 of the
   * constant right-hand side `rhs0` is zeroed and ones are added at columns `num*(n+1)`.
   */
  function SteadyStateSystem(s: HEOMSolver, rhs0: Matrix): (r: Result<LinearSystem, Error>)
    requires IsSquare(rhs0, StateSize(s))
    ensures !s.lSysConstant ==> r == Err(TimeDependentSystem)
    ensures s.lSysConstant ==> (r.Ok? <==> StateSize(s) > 0)
    ensures s.lSysConstant && StateSize(s) == 0 ==> r == Err(IndexError)
    ensures r.Ok? ==> IsSquare(r.value.lhs, StateSize(s))
    ensures r.Ok? ==> r.value.lhs[0] == TraceRow(s.sysShape, StateSize(s))
    ensures r.Ok? ==> forall i :: 1 <= i < StateSize(s) ==> r.value.lhs[i] == rhs0[i]
    ensures r.Ok? ==> |r.value.rhs| == StateSize(s) && r.value.rhs[0] == One
    ensures r.Ok? ==> forall p :: 1 <= p < |r.value.rhs| ==> r.value.rhs[p] == Zero
  {
    var n, size := s.sysShape, StateSize(s);
    if !s.lSysConstant then Err(TimeDependentSystem)
    else if size == 0 then Err(IndexError)
    else
      var lhs := [NormalisationRow(n, size)] + rhs0[1..];
      assert forall i :: 1 <= i < size ==> lhs[i] == rhs0[i];
      Ok(LinearSystem(lhs, UnitVector(size)))
  }

  /**
   * `steady_state` up to the solve, statement by statement: `b_mat` zeroed and its entry 0
   * set, row 0 of `L` overwritten with zeros, then the sparse matrix of ones at
   * `(0, num*(n+1))` added to `L`.
   */
  method BuildSteadyStateSystem(s: HEOMSolver, rhs0: Matrix) returns (r: Result<LinearSystem, Error>)
    requires IsSquare(rhs0, StateSize(s))
    ensures r == SteadyStateSystem(s, rhs0)
  {
    if !s.lSysConstant {
      return Err(TimeDependentSystem);
    }
    var n := s.sysShape;
    var size := n * n * s.NAdos();
    var b := Repeat(Zero, size);
    if size == 0 {
      return Err(IndexError);
    }
    b := b[0 := One];
    var lhs := rhs0;
    lhs := lhs[0 := Repeat(Zero, size)];
    var cols := DiagonalColumns(n);
    var ones := seq(size, p requires 0 <= p < size => if p in cols then One else Zero);
    lhs := lhs[0 := seq(size, p requires 0 <= p < size => Add(lhs[0][p], ones[p]))];
    assert lhs[0] == NormalisationRow(n, size) by {
      forall p | 0 <= p < size
        ensures lhs[0][p] == NormalisationRow(n, size)[p]
      {
      }
    }
    assert lhs == [NormalisationRow(n, size)] + rhs0[1..] by {
      forall i | 1 <= i < size
        ensures lhs[i] == ([NormalisationRow(n, size)] + rhs0[1..])[i]
      {
      }
    }
    return Ok(LinearSystem(lhs, b));
  }

  /** `b_mat`: zeros with `b_mat[0] = 1.0`. */
  function UnitVector(size: nat): (b: seq<Complex>)
    requires size > 0
    ensures |b| == size && b[0] == One
    ensures forall p :: 1 <= p < size ==> b[p] == Zero
  {
    Repeat(Zero, size)[0 := One]
  }

  /** `[num * (n + 1) for num in range(n)]`. */
  function DiagonalColumns(n: nat): (cols: seq<nat>)
    ensures |cols| == n
  {
    seq(n, num requires 0 <= num < n => num * (n + 1))
  }

  /** Row 0 after `L[0, :] = 0` and the addition of ones at the columns `num*(n+1)`. */
  function NormalisationRow(n: nat, size: nat): (row: seq<Complex>)
    ensures row == TraceRow(n, size)
  {
    var row := seq(size, p requires 0 <= p < size => Add(Zero, if p in DiagonalColumns(n) then One else Zero));
    assert row == TraceRow(n, size) by {
      forall p | 0 <= p < size
        ensures row[p] == TraceRow(n, size)[p]
      {
        DiagonalColumnsAreDiagonal(n, p);
      }
    }
    row
  }

  /** The columns `num*(n+1)` for `num < n` are exactly the diagonal positions. */
  lemma DiagonalColumnsAreDiagonal(n: nat, p: nat)
    ensures p in DiagonalColumns(n) <==> IsDiagonalPosition(n, p)
  {
    var diagonal := DiagonalColumns(n);
    if p in diagonal {
      var num :| 0 <= num < n && diagonal[num] == p;
      assert p == num * n + num;
      BlockLayout(n, num, num);
      FlatBound(num, n, num, n);
    }
    if IsDiagonalPosition(n, p) {
      FlatSplit(p, n);
      var num := p / n;
      assert p == num * n + num;
      assert diagonal[num] == p;
    }
  }

  // ---------------------------------------------------------------------------------------
  // What the system means for its solution

  /** The sum of the first `k` products `a[p] * x[p]`. */
  function DotUpTo(a: seq<Complex>, x: seq<Complex>, k: nat): Complex
    requires k <= |a| && k <= |x|
  {
    if k == 0 then Zero else Add(DotUpTo(a, x, k - 1), Mul(a[k - 1], x[k - 1]))
  }

  function Dot(a: seq<Complex>, x: seq<Complex>): Complex
    requires |a| == |x|
  {
    DotUpTo(a, x, |a|)
  }

  /** The sum of the first `k` diagonal entries. */
  function TraceUpTo(m: Matrix, n: nat, k: nat): Complex
    requires IsSquare(m, n) && k <= n
  {
    if k == 0 then Zero else Add(TraceUpTo(m, n, k - 1), m[k - 1][k - 1])
  }

  function Trace(m: Matrix, n: nat): Complex
    requires IsSquare(m, n)
  {
    TraceUpTo(m, n, n)
  }

  /** `x` solves `L x = b`. */
  predicate Solves(sys: LinearSystem, x: seq<Complex>)
  {
    && |sys.rhs| == |sys.lhs| == |x|
    && forall i :: 0 <= i < |sys.lhs| ==> |sys.lhs[i]| == |x| && Dot(sys.lhs[i], x) == sys.rhs[i]
  }

  /** Position `j*n + t` of column `j` is on the diagonal exactly when `t == j`. */
  lemma TraceRowAt(n: nat, size: nat, j: nat, t: nat, p: nat)
    requires n * n <= size && j < n && t < n && p == j * n + t
    ensures p < size && TraceRow(n, size)[p] == if t == j then One else Zero
  {
    FlatBound(t, n, j, n);
    BlockLayout(n, j, t);
  }

  /** Within column `j` of `rho`, starting at `base == j*n`, the trace row picks up exactly the diagonal entry `(j, j)`. */
  lemma {:induction false} TraceRowInColumn(n: nat, size: nat, x: seq<Complex>, j: nat, base: nat, t: nat)
    requires |x| == size && n * n <= size && j < n && t <= n
    requires base == j * n && base + n <= size
    ensures DotUpTo(TraceRow(n, size), x, base + t) ==
              Add(DotUpTo(TraceRow(n, size), x, base), if t > j then x[base + j] else Zero)
  {
    if t > 0 {
      TraceRowInColumn(n, size, x, j, base, t - 1);
      TraceRowAt(n, size, j, t - 1, base + t - 1);
    }
  }

  /** The trace row reads the first `j` columns of `rho` as the sum of their diagonal entries. */
  lemma {:induction false} TraceRowColumns(n: nat, size: nat, x: seq<Complex>, j: nat)
    requires |x| == size && n * n <= size && j <= n
    ensures j * n <= size
    ensures DotUpTo(TraceRow(n, size), x, j * n) == TraceUpTo(ReshapeF(x, n), n, j)
  {
    ColumnStart(j, n);
    if j > 0 {
      var row, f, k := TraceRow(n, size), ReshapeF(x, n), (j - 1) * n;
      ColumnStart(j - 1, n);
      assert k + (j - 1) < |x| && f[j - 1][j - 1] == x[k + (j - 1)] by {
        ReshapeFAt(x, n, j - 1, j - 1);
      }
      assert DotUpTo(row, x, k + n) == Add(DotUpTo(row, x, k), x[k + (j - 1)]) by {
        TraceRowInColumn(n, size, x, j - 1, k, n);
      }
      assert DotUpTo(row, x, k) == TraceUpTo(f, n, j - 1) by {
        TraceRowColumns(n, size, x, j - 1);
      }
    }
  }

  /** Column `j` starts at `j*n` and the next one `n` positions later, within the `n*n` block. */
  lemma ColumnStart(j: nat, n: nat)
    requires j <= n
    ensures j * n + n == (j + 1) * n
    ensures j * n <= n * n
    ensures j < n ==> j * n + n <= n * n
  {
    MulLe(j, n, n);
    if j < n {
      MulLe(j + 1, n, n);
    }
  }

  /** Past the system block the trace row is zero. */
  lemma {:induction false} TraceRowTail(n: nat, size: nat, x: seq<Complex>, k: nat)
    requires |x| == size && n * n <= k <= size
    ensures DotUpTo(TraceRow(n, size), x, k) == DotUpTo(TraceRow(n, size), x, n * n)
  {
    if k > n * n {
      TraceRowTail(n, size, x, k - 1);
    }
  }

  /** Row 0 of the system applied to a state vector is `trace(rho)`. */
  lemma TraceRowIsTrace(n: nat, size: nat, x: seq<Complex>)
    requires |x| == size && n * n <= size
    ensures Dot(TraceRow(n, size), x) == Trace(ReshapeF(x, n), n)
  {
    TraceRowTail(n, size, x, size);
    TraceRowColumns(n, size, x, n);
  }

  /**
   * A solution of the system is normalised, `trace(rho) == 1`, and satisfies every other
   * equation of the HEOM: row `i >= 1` of the right-hand side maps it to zero.
   */
  lemma SolutionIsNormalised(s: HEOMSolver, rhs0: Matrix, x: seq<Complex>)
    requires IsSquare(rhs0, StateSize(s))
    requires SteadyStateSystem(s, rhs0).Ok? && Solves(SteadyStateSystem(s, rhs0).value, x)
    ensures |x| == StateSize(s) && s.sysShape * s.sysShape <= |x|
    ensures Trace(ReshapeF(x, s.sysShape), s.sysShape) == One
    ensures forall i :: 1 <= i < |x| ==> Dot(rhs0[i], x) == Zero
  {
    var sys := SteadyStateSystem(s, rhs0).value;
    SystemBlockFits(s);
    assert Dot(sys.lhs[0], x) == sys.rhs[0];
    TraceRowIsTrace(s.sysShape, StateSize(s), x);
    forall i | 1 <= i < |x|
      ensures Dot(rhs0[i], x) == Zero
    {
      assert Dot(sys.lhs[i], x) == sys.rhs[i];
    }
  }

  // ---------------------------------------------------------------------------------------
  // Reading the solution back

  predicate Hermitian(m: Matrix, n: nat)
    requires IsSquare(m, n)
  {
    forall i, j :: 0 <= i < n && 0 <= j < n ==> m[i][j] == Conj(m[j][i])
  }

  /**
   * The density matrix as `steady_state` reads it back: `solution[:n**2].reshape((n, n))`
   * in C order, then `(data + data.conj()) * 0.5` with the elementwise conjugate.
   */
  function SteadyRhoAsWritten(v: seq<Complex>, n: nat): (m: Matrix)
    requires |v| >= n * n
    ensures IsSquare(m, n)
  {
    var d := ReshapeC(v, n);
    seq(n, i requires 0 <= i < n => seq(n, j requires 0 <= j < n => ScaleReal(0.5, Add(d[i][j], Conj(d[i][j])))))
  }

  /**
   * The density matrix read back in the layout `_prepare_state` and `_restore_state` use:
   * the column-major reshape, then `(data + data.adjoint()) * 0.5`.
   */
  function SteadyRho(v: seq<Complex>, n: nat): (m: Matrix)
    requires |v| >= n * n
    ensures IsSquare(m, n)
  {
    var d := ReshapeF(v, n);
    seq(n, i requires 0 <= i < n => seq(n, j requires 0 <= j < n => ScaleReal(0.5, Add(d[i][j], Conj(d[j][i])))))
  }

  /** The pair `steady_state` returns: the system state and the full ADO state. */
  function SteadyStateResult(s: HEOMSolver, solution: seq<Complex>): (r: (Qobj, AdoState))
    requires |solution| == StateSize(s)
    ensures r.0.dims == s.sysDims && IsSquare(r.0.data, s.sysShape) && Hermitian(r.0.data, s.sysShape)
    ensures r.1.rho == r.0 && r.1.ados == s.ados
    ensures WellFormed(r.1.adoState) && r.1.adoState.shape == HierarchyShape(s)
  {
    SystemBlockFits(s);
    var rho := Qobj(s.sysDims, SteadyRho(solution, s.sysShape));
    forall i, j | 0 <= i < s.sysShape && 0 <= j < s.sysShape
      ensures rho.data[i][j] == Conj(rho.data[j][i])
    {
      SteadyRhoSymmetric(solution, s.sysShape, i, j);
    }
    (rho, AdoState(rho, s.ados, RestoreState(s, solution).adoState))
  }

  /** `steady_state` as written, with the C-order reshape and the elementwise conjugate. */
  function SteadyStateResultAsWritten(s: HEOMSolver, solution: seq<Complex>): (r: (Qobj, AdoState))
    requires |solution| == StateSize(s)
    ensures r.0.dims == s.sysDims && IsSquare(r.0.data, s.sysShape)
    ensures r.1.rho == r.0 && r.1.ados == s.ados
    ensures WellFormed(r.1.adoState) && r.1.adoState.shape == HierarchyShape(s)
  {
    SystemBlockFits(s);
    var rho := Qobj(s.sysDims, SteadyRhoAsWritten(solution, s.sysShape));
    (rho, AdoState(rho, s.ados, RestoreState(s, solution).adoState))
  }

  /** The symmetrised matrix is Hermitian whatever the solution. */
  lemma SteadyRhoSymmetric(v: seq<Complex>, n: nat, i: nat, j: nat)
    requires |v| >= n * n && i < n && j < n
    ensures SteadyRho(v, n)[i][j] == Conj(SteadyRho(v, n)[j][i])
  {
  }

  /** A Hermitian system block is read back unchanged, and it is what `_restore_state` reads. */
  lemma SteadyRhoOfHermitian(s: HEOMSolver, v: seq<Complex>)
    requires |v| == StateSize(s)
    requires Hermitian(RestoreState(s, v).rho.data, s.sysShape)
    ensures (SystemBlockFits(s); SteadyRho(v, s.sysShape) == RestoreState(s, v).rho.data)
  {
    var n := s.sysShape;
    SystemBlockFits(s);
    var f := ReshapeF(v, n);
    assert RestoreState(s, v).rho.data == f;
    forall i | 0 <= i < n
      ensures SteadyRho(v, n)[i] == f[i]
    {
      forall j | 0 <= j < n
        ensures SteadyRho(v, n)[i][j] == f[i][j]
      {
        assert f[i][j] == Conj(f[j][i]);
      }
    }
  }

  /**
   * With a Hermitian system block the two values `steady_state` returns agree:
   * `steady_ados.extract(0)` is `steady_state`.
   */
  lemma SteadyStateExtractsRho(s: HEOMSolver, v: seq<Complex>)
    requires |v| == StateSize(s)
    requires Hermitian(RestoreState(s, v).rho.data, s.sysShape)
    ensures var r := SteadyStateResult(s, v);
            Extract(r.1, ByIndex(0)) == Ok(r.0)
  {
    var r := SteadyStateResult(s, v);
    var st := RestoreState(s, v);
    ExtractSystemIsRho(s, v);
    SteadyRhoOfHermitian(s, v);
    assert r.1.adoState == st.adoState && r.1.rho.dims == st.rho.dims;
    assert Extract(r.1, ByIndex(0)) == Extract(st, ByIndex(0));
  }

  /**
   * As written, entry `(i, j)` of the returned state is the real part of position `i*n + j`:
   * for a Hermitian block that is the real part of `rho[i][j]`, the imaginary part is lost.
   */
  lemma SteadyRhoAsWrittenIsRealPart(s: HEOMSolver, v: seq<Complex>, i: nat, j: nat)
    requires |v| == StateSize(s) && i < s.sysShape && j < s.sysShape
    requires Hermitian(RestoreState(s, v).rho.data, s.sysShape)
    ensures var rho := RestoreState(s, v).rho.data;
            (SystemBlockFits(s); SteadyRhoAsWritten(v, s.sysShape)[i][j] == Complex(rho[i][j].re, 0.0))
  {
    var n := s.sysShape;
    SystemBlockFits(s);
    var f := ReshapeF(v, n);
    assert RestoreState(s, v).rho.data == f;
    SteadyRhoAsWrittenAt(v, n, i, j, i * n + j);
    ReshapeFAt(v, n, j, i);
    assert f[i][j] == Conj(f[j][i]);
  }

  /** The solution vector of `rho = [[0.5, -0.5j], [0.5j, 0.5]]`, column-major. */
  function CoherentSolution(): seq<Complex>
  {
    [Complex(0.5, 0.0), Complex(0.0, 0.5), Complex(0.0, -0.5), Complex(0.5, 0.0)]
  }

  /** The column-major reading of `CoherentSolution()`. */
  lemma CoherentBlock()
    ensures ReshapeF(CoherentSolution(), 2) ==
              [[Complex(0.5, 0.0), Complex(0.0, -0.5)], [Complex(0.0, 0.5), Complex(0.5, 0.0)]]
  {
    var v, f := CoherentSolution(), ReshapeF(CoherentSolution(), 2);
    ReshapeFAt(v, 2, 0, 0);
    ReshapeFAt(v, 2, 0, 1);
    ReshapeFAt(v, 2, 1, 0);
    ReshapeFAt(v, 2, 1, 1);
    assert f[0] == [v[0], v[2]] && f[1] == [v[1], v[3]];
  }

  /** As written, entry `(i, j)` is the real part of position `i*n + j`. */
  lemma SteadyRhoAsWrittenAt(v: seq<Complex>, n: nat, i: nat, j: nat, p: nat)
    requires |v| >= n * n && i < n && j < n && p == i * n + j
    ensures p < |v| && SteadyRhoAsWritten(v, n)[i][j] == Complex(v[p].re, 0.0)
  {
    FlatBound(j, n, i, n);
  }

  /**
   * As written, the two values `steady_state` returns disagree wherever the Hermitian system
   * block has an entry with a nonzero imaginary part: `steady_state[i, j]` is real, while
   * `steady_ados.extract(0)[i, j]` is that entry.
   */
  lemma SteadyStateAsWrittenDisagrees(s: HEOMSolver, v: seq<Complex>, i: nat, j: nat)
    requires |v| == StateSize(s) && i < s.sysShape && j < s.sysShape
    requires Hermitian(RestoreState(s, v).rho.data, s.sysShape)
    requires RestoreState(s, v).rho.data[i][j].im != 0.0
    ensures var r := SteadyStateResultAsWritten(s, v);
            && Extract(r.1, ByIndex(0)) == Ok(RestoreState(s, v).rho)
            && r.0.data[i][j] != RestoreState(s, v).rho.data[i][j]
  {
    var r := SteadyStateResultAsWritten(s, v);
    var st := RestoreState(s, v);
    ExtractSystemIsRho(s, v);
    assert r.1.adoState == st.adoState && r.1.rho.dims == st.rho.dims;
    assert Extract(r.1, ByIndex(0)) == Extract(st, ByIndex(0));
    SteadyRhoAsWrittenIsRealPart(s, v, i, j);
  }

  /**
   * For a one-ADO solver of a qubit whose solution is `CoherentSolution()`, the state
   * `steady_state` returns as written has a zero at `(0, 1)`, while the ADO state it returns
   * beside it gives `extract(0) == [[0.5, -0.5j], [0.5j, 0.5]]`.
   */
  lemma SteadyStateAsWrittenLosesCoherence(s: HEOMSolver)
    requires s.sysShape == 2 && s.NAdos() == 1
    ensures StateSize(s) == |CoherentSolution()|
    ensures var r := SteadyStateResultAsWritten(s, CoherentSolution());
            && Extract(r.1, ByIndex(0)).Ok?
            && Extract(r.1, ByIndex(0)).value.data ==
                 [[Complex(0.5, 0.0), Complex(0.0, -0.5)], [Complex(0.0, 0.5), Complex(0.5, 0.0)]]
            && |r.0.data| == 2 && |r.0.data[0]| == 2
            && r.0.data[0][1] == Zero
  {
    var v := CoherentSolution();
    var st := RestoreState(s, v);
    CoherentBlock();
    var f := st.rho.data;
    assert f == ReshapeF(v, 2);
    assert Hermitian(f, 2) by {
      forall i, j | 0 <= i < 2 && 0 <= j < 2
        ensures f[i][j] == Conj(f[j][i])
      {
        assert f[0][0] == Complex(0.5, 0.0) && f[1][1] == Complex(0.5, 0.0);
      }
    }
    SteadyStateAsWrittenDisagrees(s, v, 0, 1);
    SteadyRhoAsWrittenIsRealPart(s, v, 0, 1);
  }
}
