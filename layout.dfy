/**
 * The layout of the HEOM state vector: `_prepare_state` writes the system density matrix
 * column-major (`ravel('F')`) into the first `n*n` entries and zeros after it, or takes a
 * whole ADO array of shape `(nhe, n, n)`; `_restore_state` reads the vector back, and
 * `HierarchyADOsState.extract` returns one ADO as the transpose of its C-order block.
 */
module Layout {
  import opened Wrappers
  import opened Errors
  import opened ComplexNumbers
  import opened Labels
  import opened Hierarchy
  import opened Gather
  import opened Solver

  /** A dense matrix, row by row. */
  type Matrix = seq<seq<Complex>>

  predicate IsSquare(m: Matrix, n: nat)
  {
    |m| == n && forall i :: 0 <= i < n ==> |m[i]| == n
  }

  /** A `Qobj`: its `dims` and its dense data. */
  datatype Qobj = Qobj(dims: seq<nat>, data: Matrix)

  /** A numpy array: its `shape` and its entries in C order. */
  datatype NdArray = NdArray(shape: seq<nat>, flat: seq<Complex>)

  function Product(shape: seq<nat>): nat
  {
    if |shape| == 0 then 1 else shape[0] * Product(shape[1..])
  }

  /** numpy keeps exactly `prod(shape)` entries. */
  predicate WellFormed(a: NdArray)
  {
    |a.flat| == Product(a.shape)
  }

  /** `HierarchyADOsState(rho, ados, ado_state)`. */
  datatype AdoState = AdoState(rho: Qobj, ados: HierarchyADOs, adoState: NdArray)

  /** What `_prepare_state` may be given: a `Qobj`, a `HierarchyADOsState`, an array-like, or anything else. */
  datatype InitialState =
    | RhoInit(rho: Qobj)
    | AdoStateInit(state: AdoState)
    | ArrayInit(arrayLike: NdArray)
    | OtherInit

  /** `hierarchy_shape = (nhe, n, n)`. */
  function HierarchyShape(s: HEOMSolver): seq<nat>
  {
    [s.NAdos(), s.sysShape, s.sysShape]
  }

  /** `n ** 2 * nhe`, the length of the state vector. */
  function StateSize(s: HEOMSolver): nat
  {
    s.sysShape * s.sysShape * s.NAdos()
  }

  // ---------------------------------------------------------------------------------------
  // Index arithmetic for row-major and column-major layouts

  lemma {:induction false} MulLe(a: nat, b: nat, c: nat)
    requires a <= b
    ensures a * c <= b * c
  {
    if a < b {
      MulLe(a, b - 1, c);
      assert b * c == (b - 1) * c + c;
    }
  }

  /** Entry `i` of row `j` in `m` rows of width `n` lies inside the `m*n` entries. */
  lemma FlatBound(i: nat, n: nat, j: nat, m: nat)
    requires i < n && j < m
    ensures j * n + i < m * n
  {
    MulLe(j, m - 1, n);
    assert (m - 1) * n == m * n - n;
  }

  /** Splitting a position below `n*n` into its offset and its quotient by `n`. */
  lemma FlatSplit(p: nat, n: nat)
    requires p < n * n
    ensures n > 0 && p % n < n && p / n < n && p == p / n * n + p % n
  {
    if p / n >= n {
      MulLe(n, p / n, n);
    }
  }

  /** `m.ravel('F')`: position `p` holds entry `(p % n, p / n)`. */
  function RavelF(m: Matrix, n: nat): (v: seq<Complex>)
    requires IsSquare(m, n)
    ensures |v| == n * n
  {
    seq(n * n, p requires 0 <= p < n * n => FlatSplit(p, n); m[p % n][p / n])
  }

  /** `ravel('F')` puts entry `(i, j)` at position `i + j*n`. */
  lemma RavelFAt(m: Matrix, n: nat, i: nat, j: nat)
    requires IsSquare(m, n) && i < n && j < n
    ensures j * n + i < n * n && RavelF(m, n)[j * n + i] == m[i][j]
  {
    FlatBound(i, n, j, n);
    BlockLayout(n, j, i);
  }

  lemma Product3(p: nat, q: nat, w: nat)
    ensures Product([p, q, w]) == p * q * w
  {
    assert [p, q, w][1..] == [q, w] && [q, w][1..] == [w];
    assert Product([w]) == w;
  }

  /** `v[:n**2].reshape((n, n), order='F')`: entry `(i, j)` from position `i + j*n`. */
  function ReshapeF(v: seq<Complex>, n: nat): (m: Matrix)
    requires |v| >= n * n
    ensures IsSquare(m, n)
  {
    seq(n, i requires 0 <= i < n => seq(n, j requires 0 <= j < n => FlatBound(i, n, j, n); v[j * n + i]))
  }

  lemma ReshapeFAt(v: seq<Complex>, n: nat, i: nat, j: nat)
    requires |v| >= n * n && i < n && j < n
    ensures j * n + i < |v| && ReshapeF(v, n)[i][j] == v[j * n + i]
  {
    FlatBound(i, n, j, n);
  }

  /** `v[:n**2].reshape((n, n))`: entry `(i, j)` from position `i*n + j`. */
  function ReshapeC(v: seq<Complex>, n: nat): (m: Matrix)
    requires |v| >= n * n
    ensures IsSquare(m, n)
  {
    seq(n, i requires 0 <= i < n => seq(n, j requires 0 <= j < n => FlatBound(j, n, i, n); v[i * n + j]))
  }

  // ---------------------------------------------------------------------------------------
  // _prepare_state

  /** The ADO array an array-like or a `HierarchyADOsState` initial state supplies. */
  function AdoArrayOf(state: InitialState): NdArray
    requires state.AdoStateInit? || state.ArrayInit?
  {
    if state.AdoStateInit? then state.state.adoState else state.arrayLike
  }

  /** The initial states `_prepare_state` can be handed: arrays keep `prod(shape)` entries, and a `Qobj` with the system dims is `n` by `n`. */
  predicate ValidInitial(s: HEOMSolver, state: InitialState)
  {
    && ((state.AdoStateInit? || state.ArrayInit?) ==> WellFormed(AdoArrayOf(state)))
    && (state.RhoInit? && state.rho.dims == s.sysDims ==> IsSquare(state.rho.data, s.sysShape))
  }

  /** The state vector `_prepare_state` returns, or the exception it raises. */
  function PreparedState(s: HEOMSolver, state: InitialState): (r: Result<seq<Complex>, Error>)
    requires ValidInitial(s, state)
  {
    var n := s.sysShape;
    match state
    case OtherInit => Err(TypeError)
    case RhoInit(rho) =>
      if rho.dims != s.sysDims then Err(WrongSystemDims)
      else
        SystemBlockFits(s);
        Ok(RavelF(rho.data, n) + Repeat(Zero, StateSize(s) - n * n))
    case _ =>
      var a := AdoArrayOf(state);
      if a.shape != HierarchyShape(s) then Err(WrongHierarchyShape) else Ok(a.flat)
  }

  /** The system block fits in the state vector: there is always at least one ADO. */
  lemma SystemBlockFits(s: HEOMSolver)
    ensures s.NAdos() >= 1
    ensures s.sysShape * s.sysShape <= StateSize(s)
  {
    FirstLabelIsSystem(s.ados);
    MulAtLeast(s.NAdos(), s.sysShape * s.sysShape);
  }

  /** `_prepare_state`: a zero vector with `rho.ravel('F')` assigned to its first `n*n` entries, or the ADO array flattened. */
  method PrepareState(s: HEOMSolver, state: InitialState) returns (r: Result<seq<Complex>, Error>)
    requires ValidInitial(s, state)
    ensures r == PreparedState(s, state)
  {
    var n := s.sysShape;
    if state.OtherInit? {
      return Err(TypeError);
    }
    if !state.RhoInit? {
      var a := AdoArrayOf(state);
      if a.shape != HierarchyShape(s) {
        return Err(WrongHierarchyShape);
      }
      return Ok(a.flat);
    }
    var rho := state.rho;
    if rho.dims != s.sysDims {
      return Err(WrongSystemDims);
    }
    SystemBlockFits(s);
    var size := StateSize(s);
    var column := RavelF(rho.data, n);
    var v := new Complex[size](_ => Zero);
    for p := 0 to n * n
      invariant forall q :: 0 <= q < p ==> v[q] == column[q]
      invariant forall q :: p <= q < size ==> v[q] == Zero
    {
      v[p] := column[p];
    }
    assert v[..] == column + Repeat(Zero, size - n * n);
    return Ok(v[..]);
  }

  // ---------------------------------------------------------------------------------------
  // _restore_state and extract

  /**
   * `_restore_state`: `rho` from the first `n*n` entries read column-major, and the whole
   * vector reshaped to `(nhe, n, n)`.
   */
  function RestoreState(s: HEOMSolver, v: seq<Complex>): (st: AdoState)
    requires |v| == StateSize(s)
    ensures WellFormed(st.adoState) && st.adoState.shape == HierarchyShape(s)
    ensures st.rho.dims == s.sysDims && IsSquare(st.rho.data, s.sysShape)
  {
    SystemBlockFits(s);
    Product3(s.NAdos(), s.sysShape, s.sysShape);
    assert s.NAdos() * s.sysShape * s.sysShape == StateSize(s);
    AdoState(Qobj(s.sysDims, ReshapeF(v, s.sysShape)), s.ados, NdArray(HierarchyShape(s), v))
  }

  /** `extract` takes an index or a label. */
  datatype AdoSelector = ByIndex(i: int) | ByLabel(l: Label)

  /** Block `b` of a `(p, q, w)` array in C order: entry `(r, c)` at position `(b*q + r)*w + c`. */
  function Block(a: NdArray, b: nat): (m: Matrix)
    requires WellFormed(a) && |a.shape| == 3 && b < a.shape[0]
    ensures |m| == a.shape[1] && forall r :: 0 <= r < |m| ==> |m[r]| == a.shape[2]
  {
    var q, w := a.shape[1], a.shape[2];
    assert a.shape == [a.shape[0], q, w];
    Product3(a.shape[0], q, w);
    seq(q, r requires 0 <= r < q =>
      seq(w, c requires 0 <= c < w =>
        FlatBound(r, q, b, a.shape[0]); FlatBound(c, w, b * q + r, a.shape[0] * q); a.flat[(b * q + r) * w + c]))
  }

  /** `ado_state[idx, :]` for every `idx`, in order: Python indexing on the first axis picks one of these. */
  function Blocks(a: NdArray): (bs: seq<Matrix>)
    requires WellFormed(a) && |a.shape| == 3
    ensures |bs| == a.shape[0]
  {
    seq(a.shape[0], b requires 0 <= b < a.shape[0] => Block(a, b))
  }

  /** The transpose of a `q` by `w` matrix. */
  function TransposeRect(m: Matrix, q: nat, w: nat): (t: Matrix)
    requires |m| == q && forall r :: 0 <= r < q ==> |m[r]| == w
    ensures |t| == w && forall c :: 0 <= c < w ==> |t[c]| == q
    ensures forall c, r :: 0 <= c < w && 0 <= r < q ==> t[c][r] == m[r][c]
  {
    seq(w, c requires 0 <= c < w => seq(q, r requires 0 <= r < q => m[r][c]))
  }

  /**
   * `extract(idx_or_label)`: an int indexes the ADO array directly (negative indices count
   * from the end, others raise IndexError); a label is looked up with `idx` (KeyError when
   * unknown); the ADO is the transpose of its block, with the dims of `rho`.
   */
  function Extract(st: AdoState, which: AdoSelector): (r: Result<Qobj, Error>)
    requires WellFormed(st.adoState) && |st.adoState.shape| == 3
    ensures which.ByIndex? ==> (r.Ok? <==> -st.adoState.shape[0] <= which.i < st.adoState.shape[0])
    ensures which.ByLabel? ==> (r.Ok? <==> st.ados.Idx(which.l).Ok? && st.ados.Idx(which.l).value < st.adoState.shape[0])
    ensures r.Ok? ==> r.value.dims == st.rho.dims
  {
    var a := st.adoState;
    var idx :- if which.ByIndex? then Ok(which.i) else st.ados.Idx(which.l);
    var block :- PyIndex(Blocks(a), idx);
    Ok(Qobj(st.rho.dims, TransposeRect(block, a.shape[1], a.shape[2])))
  }

  // ---------------------------------------------------------------------------------------
  // Properties

  /** A `Qobj` with the system dims is accepted, and the state vector has the full length. */
  lemma PreparedRhoSize(s: HEOMSolver, rho: Qobj)
    requires ValidInitial(s, RhoInit(rho)) && rho.dims == s.sysDims
    ensures PreparedState(s, RhoInit(rho)).Ok?
    ensures |PreparedState(s, RhoInit(rho)).value| == StateSize(s)
  {
    var n := s.sysShape;
    SystemBlockFits(s);
    var size, square := StateSize(s), n * n;
    var column := RavelF(rho.data, n);
    var zeros := Repeat(Zero, size - square);
    assert |column| == square && |zeros| == size - square;
    assert PreparedState(s, RhoInit(rho)) == Ok(column + zeros);
  }

  /** Entry `(i, j)` of `rho` is at position `i + j*n` of the state vector. */
  lemma PreparedRhoAt(s: HEOMSolver, rho: Qobj, i: nat, j: nat)
    requires ValidInitial(s, RhoInit(rho)) && rho.dims == s.sysDims
    requires i < s.sysShape && j < s.sysShape
    ensures PreparedState(s, RhoInit(rho)).Ok?
    ensures var v, n := PreparedState(s, RhoInit(rho)).value, s.sysShape;
            j * n + i < |v| && v[j * n + i] == rho.data[i][j]
  {
    var n := s.sysShape;
    PreparedRhoSize(s, rho);
    RavelFAt(rho.data, n, i, j);
    SystemBlockFits(s);
    PrefixAt(RavelF(rho.data, n), Repeat(Zero, StateSize(s) - n * n), j * n + i);
  }

  /** Every position after the first `n*n` of the state vector is zero. */
  lemma PreparedZeroAt(s: HEOMSolver, rho: Qobj, p: nat)
    requires ValidInitial(s, RhoInit(rho)) && rho.dims == s.sysDims
    requires s.sysShape * s.sysShape <= p < StateSize(s)
    ensures PreparedState(s, RhoInit(rho)).Ok?
    ensures PreparedState(s, RhoInit(rho)).value[p] == Zero
  {
    var n := s.sysShape;
    PreparedRhoSize(s, rho);
    SuffixAt(RavelF(rho.data, n), Repeat(Zero, StateSize(s) - n * n), p);
  }

  lemma PrefixAt<T>(a: seq<T>, b: seq<T>, p: nat)
    requires p < |a|
    ensures (a + b)[p] == a[p]
  {
  }

  lemma SuffixAt<T>(a: seq<T>, b: seq<T>, p: nat)
    requires |a| <= p < |a| + |b|
    ensures (a + b)[p] == b[p - |a|]
  {
  }

  /** The exceptions of `_prepare_state`, each under its own condition. */
  lemma PreparedStateErrors(s: HEOMSolver, state: InitialState)
    requires ValidInitial(s, state)
    ensures PreparedState(s, state) == Err(TypeError) <==> state.OtherInit?
    ensures PreparedState(s, state) == Err(WrongSystemDims) <==> state.RhoInit? && state.rho.dims != s.sysDims
    ensures PreparedState(s, state) == Err(WrongHierarchyShape) <==>
              (state.AdoStateInit? || state.ArrayInit?) && AdoArrayOf(state).shape != HierarchyShape(s)
    ensures PreparedState(s, state).Ok? ==> |PreparedState(s, state).value| == StateSize(s)
  {
    if state.RhoInit? && state.rho.dims == s.sysDims {
      PreparedRhoSize(s, state.rho);
    }
    if (state.AdoStateInit? || state.ArrayInit?) && AdoArrayOf(state).shape == HierarchyShape(s) {
      Product3(s.NAdos(), s.sysShape, s.sysShape);
    }
  }

  /** Restoring a prepared `Qobj` gives it back. */
  lemma RestorePreparedRho(s: HEOMSolver, rho: Qobj)
    requires ValidInitial(s, RhoInit(rho)) && rho.dims == s.sysDims
    ensures PreparedState(s, RhoInit(rho)).Ok?
    ensures RestoreState(s, PreparedState(s, RhoInit(rho)).value).rho == rho
  {
    var n := s.sysShape;
    PreparedRhoSize(s, rho);
    var v := PreparedState(s, RhoInit(rho)).value;
    var back := RestoreState(s, v).rho.data;
    forall i | 0 <= i < n
      ensures back[i] == rho.data[i]
    {
      forall j | 0 <= j < n
        ensures back[i][j] == rho.data[i][j]
      {
        PreparedRhoAt(s, rho, i, j);
        ReshapeFAt(v, n, i, j);
      }
    }
  }

  /** Flattening an ADO array of the hierarchy's shape and reshaping it back gives the same array. */
  lemma RestorePreparedArray(s: HEOMSolver, state: InitialState)
    requires ValidInitial(s, state) && (state.AdoStateInit? || state.ArrayInit?)
    requires AdoArrayOf(state).shape == HierarchyShape(s)
    ensures PreparedState(s, state).Ok?
    ensures var v := PreparedState(s, state).value;
            |v| == StateSize(s) && RestoreState(s, v).adoState == AdoArrayOf(state)
  {
    Product3(s.NAdos(), s.sysShape, s.sysShape);
  }

  /** Entry `(i, j)` of `extract(idx)` is entry `(j, i)` of block `idx`, that is position `(idx*q + j)*w + i`. */
  lemma ExtractAt(st: AdoState, b: nat, i: nat, j: nat)
    requires WellFormed(st.adoState) && |st.adoState.shape| == 3 && b < st.adoState.shape[0]
    requires i < st.adoState.shape[2] && j < st.adoState.shape[1]
    ensures Extract(st, ByIndex(b)).Ok?
    ensures var a, x := st.adoState, Extract(st, ByIndex(b)).value.data;
            var q, w := a.shape[1], a.shape[2];
            && |x| == w && |x[i]| == q
            && (b * q + j) * w + i < |a.flat|
            && x[i][j] == a.flat[(b * q + j) * w + i]
  {
    var a := st.adoState;
    var q, w := a.shape[1], a.shape[2];
    assert a.shape == [a.shape[0], q, w];
    Product3(a.shape[0], q, w);
    FlatBound(j, q, b, a.shape[0]);
    FlatBound(i, w, b * q + j, a.shape[0] * q);
    var block := Blocks(a)[b];
    assert block == Block(a, b);
    assert block[j][i] == a.flat[(b * q + j) * w + i];
    assert Extract(st, ByIndex(b)) == Ok(Qobj(st.rho.dims, TransposeRect(block, q, w)));
  }

  /** After `_restore_state`, `extract(0)` is `rho` again. */
  lemma ExtractSystemIsRho(s: HEOMSolver, v: seq<Complex>)
    requires |v| == StateSize(s)
    ensures Extract(RestoreState(s, v), ByIndex(0)) == Ok(RestoreState(s, v).rho)
  {
    var st := RestoreState(s, v);
    var n := s.sysShape;
    SystemBlockFits(s);
    assert st.adoState.shape == [s.NAdos(), n, n];
    var x := Extract(st, ByIndex(0)).value;
    var rho := st.rho.data;
    if n > 0 {
      ExtractAt(st, 0, 0, 0);
    } else {
      assert |x.data| == 0 by { assert x.data == TransposeRect(Blocks(st.adoState)[0], n, n); }
    }
    forall i | 0 <= i < n
      ensures x.data[i] == rho[i]
    {
      forall j | 0 <= j < n
        ensures x.data[i][j] == rho[i][j]
      {
        ExtractAt(st, 0, i, j);
        ReshapeFAt(v, n, i, j);
      }
      ExtractAt(st, 0, i, 0);
    }
    assert x.data == rho;
  }

  /** Extracting by label is extracting at the label's index; the all-zero label gives `extract(0)`. */
  lemma ExtractByLabel(st: AdoState, i: nat)
    requires WellFormed(st.adoState) && |st.adoState.shape| == 3
    requires i < |st.ados.Labels()| && i < st.adoState.shape[0]
    ensures Extract(st, ByLabel(st.ados.Labels()[i])) == Extract(st, ByIndex(i))
    ensures i == 0 ==> Extract(st, ByLabel(Zeros(|st.ados.exponents|))) == Extract(st, ByIndex(0))
  {
    IdxOfLabel(st.ados, i);
    FirstLabelIsSystem(st.ados);
  }
}
