/**
 * The parts of `HEOMSolver.__init__` the rest of the model reads: the combined bath
 * exponents, the hierarchy built from them, the system shape and dims, and whether the system
 * Liouvillian is constant. The superoperator caches are the symbolic forms of `Superops`.
 */
module Solver {
  import opened Wrappers
  import opened Errors
  import opened Exponents
  import opened Hierarchy

  /**
   * A constructed solver. `sysShape` is `n`, the side of the system density matrix; the
   * Liouvillian, and so every block, is `n*n` square. `lSysConstant` is `L_sys.isconstant`.
   */
  datatype HEOMSolver = HEOMSolver(ados: HierarchyADOs, sysShape: nat, sysDims: seq<nat>, lSysConstant: bool)
  {
    /** `_sup_shape`, the side of one block. */
    function SupShape(): nat { sysShape * sysShape }

    /** `_n_ados`. */
    function NAdos(): nat { |ados.Labels()| }
  }

  /** The exponents of the baths, one bath after the other. */
  function Concat(baths: seq<Bath>): (exps: seq<BathExponent>)
    ensures |baths| == 0 ==> exps == []
  {
    if |baths| == 0 then [] else Concat(baths[..|baths| - 1]) + baths[|baths| - 1].exponents
  }

  /** `all(exp.Q.dims == exponents[0].Q.dims for exp in exponents)`; true for no exponents. */
  predicate SameCouplingDims(exps: seq<BathExponent>)
  {
    forall i :: 0 <= i < |exps| ==> exps[i].qDims == exps[0].qDims
  }

  /** `_combine_bath_exponents`: a single bath gives its own exponents, a list their concatenation. */
  method CombineBathExponents(bath: BathArgument) returns (r: Result<seq<BathExponent>, Error>)
    ensures var exps := if bath.SingleBath? then bath.bath.exponents else Concat(bath.baths);
            && (SameCouplingDims(exps) ==> r == Ok(exps))
            && (!SameCouplingDims(exps) ==> r == Err(MixedCouplingDims))
  {
    var exponents: seq<BathExponent>;
    if bath.SingleBath? {
      exponents := bath.bath.exponents;
    } else {
      exponents := [];
      for i := 0 to |bath.baths|
        invariant exponents == Concat(bath.baths[..i])
      {
        assert bath.baths[..i + 1][..i] == bath.baths[..i];
        exponents := exponents + bath.baths[i].exponents;
      }
      assert bath.baths[..|bath.baths|] == bath.baths;
    }
    if !SameCouplingDims(exponents) {
      return Err(MixedCouplingDims);
    }
    return Ok(exponents);
  }

  /**
   * The core of `HEOMSolver.__init__`: combine the exponents and build the hierarchy. The
   * Liouvillian itself is represented by its shape, its dims and its constancy.
   */
  method NewHEOMSolver(bath: BathArgument, maxDepth: nat, sysShape: nat, sysDims: seq<nat>, lSysConstant: bool)
    returns (r: Result<HEOMSolver, Error>)
    ensures var exps := if bath.SingleBath? then bath.bath.exponents else Concat(bath.baths);
            && (SameCouplingDims(exps) ==>
                  r == Ok(HEOMSolver(HierarchyADOs(exps, maxDepth), sysShape, sysDims, lSysConstant)))
            && (!SameCouplingDims(exps) ==> r == Err(MixedCouplingDims))
  {
    var exps := CombineBathExponents(bath);
    if exps.Err? {
      return Err(exps.error);
    }
    return Ok(HEOMSolver(HierarchyADOs(exps.value, maxDepth), sysShape, sysDims, lSysConstant));
  }

  // ---------------------------------------------------------------------------------------
  // Properties

  /** The combined list holds bath `b`'s exponents in order, after all exponents of the earlier baths. */
  lemma {:induction false} ConcatPositions(baths: seq<Bath>, b: nat, i: nat)
    requires b < |baths| && i < |baths[b].exponents|
    ensures |Concat(baths[..b])| + i < |Concat(baths)|
    ensures Concat(baths)[|Concat(baths[..b])| + i] == baths[b].exponents[i]
  {
    var n := |baths|;
    assert baths[..n - 1] == baths[..n][..n - 1];
    if b == n - 1 {
      assert baths[..b] == baths[..n - 1];
    } else {
      assert baths[..n - 1][..b] == baths[..b];
      ConcatPositions(baths[..n - 1], b, i);
    }
  }

  /** The combined list holds exactly the exponents of the baths. */
  lemma {:induction false} ConcatMembers(baths: seq<Bath>, e: BathExponent)
    ensures e in Concat(baths) <==> exists b :: 0 <= b < |baths| && e in baths[b].exponents
  {
    if |baths| > 0 {
      var n := |baths|;
      ConcatMembers(baths[..n - 1], e);
      if e in Concat(baths[..n - 1]) {
        var b :| 0 <= b < n - 1 && e in baths[..n - 1][b].exponents;
        assert e in baths[b].exponents;
      }
      if exists b :: 0 <= b < n && e in baths[b].exponents {
        var b :| 0 <= b < n && e in baths[b].exponents;
        if b < n - 1 {
          assert e in baths[..n - 1][b].exponents;
        }
      }
    }
  }
}
