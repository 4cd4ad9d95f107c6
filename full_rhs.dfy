/**
 * `HEOMSolver._calculate_rhs`: the matrix of `_rhs` with the system Liouvillian added to
 * every diagonal block, `kron(identity(nhe), L_sys)`, when `L_sys` is constant; otherwise the
 * matrix of `_rhs` alone, to which the time-dependent Liouvillian is added block-diagonally.
 */
module FullRhs {
  import opened Wrappers
  import opened Errors
  import opened ComplexNumbers
  import opened Labels
  import opened Hierarchy
  import opened Superops
  import opened Gradients
  import opened Gather
  import opened Solver
  import opened Assembly

  /** The coefficient of atom `a` in block `key` of `m`; zero where no block was recorded. */
  function BlockCoef(m: BlockMatrix, key: (nat, nat), a: Atom): Complex
  {
    if key in m.blocks then Coef(m.blocks[key], a) else Zero
  }

  /** The coefficient of atom `a` in `L_sys` itself. */
  function SystemCoef(a: Atom): Complex
  {
    if a == ASystem then One else Zero
  }

  /** Block `key` lies on the block diagonal of an `nBlocks`-block matrix. */
  predicate OnDiagonal(nBlocks: nat, key: (nat, nat))
  {
    key.0 == key.1 && key.0 < nBlocks
  }

  /** A diagonal block after `L_sys` was added to it. */
  function WithSystem(m: BlockMatrix, key: (nat, nat)): Op
  {
    if key in m.blocks then Sum(m.blocks[key], SystemLiouvillian) else SystemLiouvillian
  }

  /**
   * `rhs_mat += kron(identity(nhe), L_sys)`: every diagonal block gains `L_sys` (a block where
   * none was recorded becomes `L_sys`); every other block stays as it was.
   */
  function AddSystem(m: BlockMatrix): (r: BlockMatrix)
    ensures r.nBlocks == m.nBlocks && r.blockSize == m.blockSize
    ensures forall key :: key in r.blocks <==> key in m.blocks || OnDiagonal(m.nBlocks, key)
    ensures forall key :: key in m.blocks && !OnDiagonal(m.nBlocks, key) ==> r.blocks[key] == m.blocks[key]
  {
    var diag := set i | 0 <= i < m.nBlocks :: (i, i);
    assert forall key :: OnDiagonal(m.nBlocks, key) ==> key in diag;
    var blocks := map key | key in m.blocks.Keys + diag ::
      if OnDiagonal(m.nBlocks, key) then WithSystem(m, key) else m.blocks[key];
    BlockMatrix(m.nBlocks, m.blockSize, blocks)
  }

  /** On the diagonal, every coefficient of the new block is the old one plus that of `L_sys`. */
  lemma AddSystemOnDiagonal(m: BlockMatrix, key: (nat, nat), a: Atom)
    requires OnDiagonal(m.nBlocks, key)
    ensures BlockCoef(AddSystem(m), key, a) == Add(BlockCoef(m, key, a), SystemCoef(a))
  {
    var r := AddSystem(m);
    assert key in r.blocks && r.blocks[key] == WithSystem(m, key);
    var c := Coef(WithSystem(m, key), a);
    assert BlockCoef(r, key, a) == c;
    if key in m.blocks {
      assert c == Add(Coef(m.blocks[key], a), Coef(SystemLiouvillian, a));
      assert BlockCoef(m, key, a) == Coef(m.blocks[key], a);
    } else {
      var z := SystemCoef(a);
      assert c == z;
      assert BlockCoef(m, key, a) == Zero;
      assert Add(Zero, z) == Complex(z.re, z.im) == z;
    }
  }

  /** The operator `_calculate_rhs` returns, with the time-dependent part of `L_sys` left symbolic. */
  datatype RhsOperator =
    | ConstantRhs(matrix: BlockMatrix)
    | TimeDependentRhs(constantPart: BlockMatrix)

  /** `_calculate_rhs`. */
  method CalculateRhs(s: HEOMSolver) returns (r: Result<RhsOperator, Error>)
    ensures RhsMatrix(s).Err? ==> r == Err(RhsMatrix(s).error)
    ensures RhsMatrix(s).Ok? && s.lSysConstant ==> r == Ok(ConstantRhs(AddSystem(RhsMatrix(s).value)))
    ensures RhsMatrix(s).Ok? && !s.lSysConstant ==> r == Ok(TimeDependentRhs(RhsMatrix(s).value))
  {
    var rhsMat := Rhs(s);
    if rhsMat.Err? {
      return Err(rhsMat.error);
    }
    if s.lSysConstant {
      return Ok(ConstantRhs(AddSystem(rhsMat.value)));
    }
    return Ok(TimeDependentRhs(rhsMat.value));
  }

  // ---------------------------------------------------------------------------------------
  // Properties

  /**
   * With a constant `L_sys`, the diagonal block of ADO `l` is `L_sys - (sum_k n_k vk_k) * 1`:
   * coefficient one on the system Liouvillian, minus the decay rate on the identity, and
   * nothing on any `spre` or `spost`.
   */
  lemma ConstantDiagonalBlock(s: HEOMSolver, l: Label)
    requires RhsMatrix(s).Ok?
    requires l in s.ados.Labels()
    ensures var h := s.ados;
            var m := AddSystem(RhsMatrix(s).value);
            var i := h.LabelIdx()[l];
            && |l| == |h.exponents|
            && (i, i) in m.blocks
            && Coef(m.blocks[(i, i)], ASystem) == One
            && Coef(m.blocks[(i, i)], AIdentity) == Neg(DecayRate(h, l))
            && forall a :: a != ASystem && a != AIdentity ==> Coef(m.blocks[(i, i)], a) == Zero
  {
    var h := s.ados;
    RhsDiagonal(s, l);
    DiagonalBlockOf(h, RhsMatrix(s).value, l, h.LabelIdx()[l]);
  }

  /** The diagonal block `_grad_n(l)` of label `l` at `(i, i)`, once `L_sys` was added. */
  lemma DiagonalBlockOf(h: HierarchyADOs, m0: BlockMatrix, l: Label, i: nat)
    requires |l| == |h.exponents| && i < m0.nBlocks
    requires HasBlock(m0, (i, i), GradN(h, l))
    ensures var m := AddSystem(m0);
            && (i, i) in m.blocks
            && Coef(m.blocks[(i, i)], ASystem) == One
            && Coef(m.blocks[(i, i)], AIdentity) == Neg(DecayRate(h, l))
            && forall a :: a != ASystem && a != AIdentity ==> Coef(m.blocks[(i, i)], a) == Zero
  {
    var g := GradN(h, l);
    var m := AddSystem(m0);
    assert (i, i) in m.blocks;
    assert Coef(m.blocks[(i, i)], ASystem) == One by {
      AddSystemOnDiagonal(m0, (i, i), ASystem);
    }
    assert Coef(m.blocks[(i, i)], AIdentity) == Neg(DecayRate(h, l)) by {
      AddSystemOnDiagonal(m0, (i, i), AIdentity);
    }
    forall a | a != ASystem && a != AIdentity
      ensures Coef(m.blocks[(i, i)], a) == Zero
    {
      AddSystemOnDiagonal(m0, (i, i), a);
    }
  }

  /** The diagonal block of every label, as `_rhs` leaves it. */
  lemma RhsDiagonal(s: HEOMSolver, l: Label)
    requires RhsMatrix(s).Ok?
    requires l in s.ados.Labels()
    ensures var h := s.ados;
            var m0 := RhsMatrix(s).value;
            && l in h.LabelIdx() && |l| == |h.exponents| && h.LabelIdx()[l] < m0.nBlocks
            && HasBlock(m0, (h.LabelIdx()[l], h.LabelIdx()[l]), GradN(h, l))
  {
    RhsBlocks(s);
    IdxFindsLabel(s.ados, l);
  }
}
