/**
 * The gradient blocks of `HEOMSolver`: the diagonal decay block `_grad_n`, the blocks towards
 * the previous label `_grad_prev_*` and towards the next label `_grad_next_*`, for bosonic
 * and fermionic exponents. Each block is stated by its coefficients on `spre`/`spost` of the
 * exponent's coupling operator `Q` or its adjoint.
 */
module Gradients {
  import opened Wrappers
  import opened Errors
  import opened ComplexNumbers
  import opened Exponents
  import opened Labels
  import opened Hierarchy
  import opened Superops

  /** `vk_sum = sum(he_n[i] * vk[i] for i in range(len(vk)))`, over the first `n` exponents. */
  function RateSum(exps: seq<BathExponent>, l: Label, n: nat): Complex
    requires n <= |exps| && n <= |l|
  {
    if n == 0 then Zero else Add(RateSum(exps, l, n - 1), Scale(l[n - 1], exps[n - 1].vk))
  }

  /** The decay rate of an ADO: its excitations weighted by the exponents' frequencies. */
  function DecayRate(h: HierarchyADOs, l: Label): Complex
    requires |l| == |h.exponents|
  {
    RateSum(h.exponents, l, |l|)
  }

  /** `_grad_n`: the identity scaled by `-vk_sum`. */
  function GradN(h: HierarchyADOs, l: Label): (op: Op)
    requires |l| == |h.exponents|
    ensures Coef(op, AIdentity) == Neg(DecayRate(h, l))
    ensures forall a :: a != AIdentity ==> Coef(op, a) == Zero
  {
    Scaled(Identity, Neg(DecayRate(h, l)))
  }

  /** `(-1) ** e`. */
  function NegOnePow(e: nat): (s: int)
    ensures s == if e % 2 == 0 then 1 else -1
  {
    if e == 0 then 1 else -NegOnePow(e - 1)
  }

  /** `he_fermionic_n`: the excitations of the fermionic exponents, zero for the others (`int(exp.fermionic)` is 1 or 0). */
  function FermionicExcitations(h: HierarchyADOs, l: Label): (f: seq<nat>)
    requires |l| == |h.exponents|
    ensures |f| == |l|
  {
    seq(|l|, i requires 0 <= i < |l| => if h.exponents[i].fermionic then l[i] else 0)
  }

  /** `sign1 = (-1) ** (n_excite + 1)`, with `n_excite` all fermionic excitations of the label. */
  function Sign1(h: HierarchyADOs, l: Label): int
    requires |l| == |h.exponents|
  {
    NegOnePow(Level(FermionicExcitations(h, l)) + 1)
  }

  /** `sign2 = (-1) ** n_excite_before_m`, counting the fermionic excitations before exponent `k`. */
  function Sign2(h: HierarchyADOs, l: Label, k: nat): int
    requires |l| == |h.exponents| && k < |l|
  {
    NegOnePow(Level(FermionicExcitations(h, l)[..k]))
  }

  /** `_grad_prev_bosonic`; the factors are written in the order the source multiplies them. */
  function GradPrevBosonic(h: HierarchyADOs, l: Label, k: nat): Result<Op, Error>
    requires |l| == |h.exponents| && k < |l|
  {
    var e := h.exponents[k];
    var n := l[k];
    match e.typ
    case R => Ok(Scaled(PreMinusPost(Q, k), TimesNegI(Scale(n, e.ck))))
    case I => Ok(Scaled(PrePlusPost(Q, k), TimesI(TimesNegI(Scale(n, e.ck)))))
    case RI =>
      if e.ck2.None? then Err(TypeError)
      else Ok(Sum(Scaled(PreMinusPost(Q, k), TimesNegI(Scale(n, e.ck))),
                  Scaled(PrePlusPost(Q, k), Scale(n, e.ck2.value))))
    case _ => Err(UnsupportedType(k))
  }

  /** `_grad_prev_fermionic`, with the partner coefficient `ck[k + sigma_bar_k_offset[k]]`. */
  function GradPrevFermionic(h: HierarchyADOs, l: Label, k: nat): Result<Op, Error>
    requires |l| == |h.exponents| && k < |l|
  {
    var e := h.exponents[k];
    var sign1 := Sign1(h, l);
    var sign2 := Sign2(h, l, k);
    if e.sigmaBarKOffset.None? then Err(TypeError)
    else
      var sigmaBarK := k + e.sigmaBarKOffset.value;
      var c := if e.typ == Plus then QDag else Q;
      if e.typ != Plus && e.typ != Minus then Err(UnsupportedType(k))
      else
        match PyIndex(h.Ck(), sigmaBarK)
        case Err(err) => Err(err)
        case Ok(partner) =>
          Ok(Difference(
               Scaled(SPre(c, k), TimesNegI(Scale(sign2, e.ck))),
               Scaled(SPost(c, k), TimesNegI(Scale(sign1, Scale(sign2, Conj(partner)))))))
  }

  /** `_grad_prev`: dispatch on the statistics of exponent `k`. */
  function GradPrev(h: HierarchyADOs, l: Label, k: nat): Result<Op, Error>
    requires |l| == |h.exponents| && k < |l|
  {
    if h.exponents[k].fermionic then GradPrevFermionic(h, l, k) else GradPrevBosonic(h, l, k)
  }

  /** `_grad_next_bosonic`: the difference form scaled by `-1j`, whatever the label. */
  function GradNextBosonic(h: HierarchyADOs, l: Label, k: nat): Op
    requires |l| == |h.exponents| && k < |l|
  {
    Scaled(PreMinusPost(Q, k), NegImagUnit)
  }

  /** `_grad_next_fermionic`. */
  function GradNextFermionic(h: HierarchyADOs, l: Label, k: nat): Result<Op, Error>
    requires |l| == |h.exponents| && k < |l|
  {
    var e := h.exponents[k];
    var sign2 := FromInt(Sign2(h, l, k));
    if e.typ != Plus && e.typ != Minus then Err(UnsupportedType(k))
    else
      var c := if e.typ == Plus then Q else QDag;
      if Sign1(h, l) == -1 then Ok(Scaled(PreMinusPost(c, k), TimesNegI(sign2)))
      else Ok(Scaled(PrePlusPost(c, k), TimesNegI(sign2)))
  }

  /** `_grad_next`: dispatch on the statistics of exponent `k`. */
  function GradNext(h: HierarchyADOs, l: Label, k: nat): Result<Op, Error>
    requires |l| == |h.exponents| && k < |l|
  {
    if h.exponents[k].fermionic then GradNextFermionic(h, l, k) else Ok(GradNextBosonic(h, l, k))
  }

  // ---------------------------------------------------------------------------------------
  // The diagonal block

  lemma {:induction false} RateSumOfZeros(exps: seq<BathExponent>, n: nat)
    requires n <= |exps|
    ensures RateSum(exps, Zeros(|exps|), n) == Zero
  {
    if n > 0 { RateSumOfZeros(exps, n - 1); }
  }

  /** The system label `(0, ..., 0)` has no decay: its diagonal block is the zero operator. */
  lemma GradNOfSystemLabel(h: HierarchyADOs)
    ensures forall a :: Coef(GradN(h, Zeros(|h.exponents|)), a) == Zero
  {
    RateSumOfZeros(h.exponents, |h.exponents|);
  }

  lemma {:induction false} RateSumOfIncrement(exps: seq<BathExponent>, l: Label, k: nat, n: nat)
    requires |l| == |exps| && k < |l| && n <= |l|
    ensures RateSum(exps, l[k := l[k] + 1], n) ==
            (if k < n then Add(RateSum(exps, l, n), exps[k].vk) else RateSum(exps, l, n))
  {
    if n > 0 { RateSumOfIncrement(exps, l, k, n - 1); }
  }

  /** One more excitation of exponent `k` adds that exponent's frequency `vk[k]` to the decay rate. */
  lemma DecayRateOfNext(h: HierarchyADOs, l: Label, k: nat)
    requires |l| == |h.exponents| && k < |l|
    requires h.Next(l, k).Some?
    ensures DecayRate(h, h.Next(l, k).value) == Add(DecayRate(h, l), h.exponents[k].vk)
  {
    assert h.Next(l, k).value == l[k := l[k] + 1];
    RateSumOfIncrement(h.exponents, l, k, |l|);
  }

  // ---------------------------------------------------------------------------------------
  // Bosonic blocks

  /** `_grad_next_bosonic` is `-1j * (spre(Q) - spost(Q))` for every label. */
  lemma GradNextBosonicCoefficients(h: HierarchyADOs, l: Label, k: nat)
    requires |l| == |h.exponents| && k < |l|
    ensures forall a :: Coef(GradNextBosonic(h, l, k), a) ==
              if a == APre(Q, k) then NegImagUnit
              else if a == APost(Q, k) then ImagUnit
              else Zero
  {
  }

  /**
   * `_grad_prev_bosonic`, per exponent type, with `n = l[k]`: R gives `-1j*n*ck (spre - spost)`,
   * I gives the real-scaled `n*ck (spre + spost)`, RI the sum of the R form and
   * `n*ck2 (spre + spost)`; a fermionic type, or an RI exponent without `ck2`, raises.
   */
  lemma GradPrevBosonicCoefficients(h: HierarchyADOs, l: Label, k: nat)
    requires |l| == |h.exponents| && k < |l|
    ensures var e := h.exponents[k];
            var r := GradPrevBosonic(h, l, k);
            var n := l[k];
            && (r.Err? <==> e.typ in {Plus, Minus} || (e.typ == RI && e.ck2.None?))
            && (r.Err? ==> r.error == if e.typ == RI then TypeError else UnsupportedType(k))
            && (e.typ == R ==>
                  forall a :: Coef(r.value, a) ==
                    if a == APre(Q, k) then Scale(n, TimesNegI(e.ck))
                    else if a == APost(Q, k) then Scale(n, TimesI(e.ck))
                    else Zero)
            && (e.typ == I ==>
                  forall a :: Coef(r.value, a) ==
                    if a == APre(Q, k) || a == APost(Q, k) then Scale(n, e.ck) else Zero)
            && (e.typ == RI && e.ck2.Some? ==>
                  forall a :: Coef(r.value, a) ==
                    if a == APre(Q, k) then Add(Scale(n, TimesNegI(e.ck)), Scale(n, e.ck2.value))
                    else if a == APost(Q, k) then Add(Scale(n, TimesI(e.ck)), Scale(n, e.ck2.value))
                    else Zero)
  {
    var e := h.exponents[k];
    match e.typ
    case R => PreMinusPostNegI(k, l[k], e.ck);
    case I => PrePlusPostReal(k, l[k], e.ck);
    case RI =>
      if e.ck2.Some? {
        PreMinusPostNegI(k, l[k], e.ck);
        PrePlusPostScaled(k, l[k], e.ck2.value);
      }
    case _ =>
  }

  /** The R form: `-1j*n*ck (spre - spost)`. */
  lemma PreMinusPostNegI(k: nat, n: nat, ck: Complex)
    ensures forall a :: Coef(Scaled(PreMinusPost(Q, k), TimesNegI(Scale(n, ck))), a) ==
              if a == APre(Q, k) then Scale(n, TimesNegI(ck))
              else if a == APost(Q, k) then Scale(n, TimesI(ck))
              else Zero
  {
  }

  /** The I form: `1j * -1j*n*ck (spre + spost)`, which is `n*ck` on both. */
  lemma PrePlusPostReal(k: nat, n: nat, ck: Complex)
    ensures forall a :: Coef(Scaled(PrePlusPost(Q, k), TimesI(TimesNegI(Scale(n, ck)))), a) ==
              if a == APre(Q, k) || a == APost(Q, k) then Scale(n, ck) else Zero
  {
  }

  /** The ck2 part of the RI form: `n*ck2 (spre + spost)`. */
  lemma PrePlusPostScaled(k: nat, n: nat, ck2: Complex)
    ensures forall a :: Coef(Scaled(PrePlusPost(Q, k), Scale(n, ck2)), a) ==
              if a == APre(Q, k) || a == APost(Q, k) then Scale(n, ck2) else Zero
  {
  }

  // ---------------------------------------------------------------------------------------
  // Fermionic blocks

  /** `-1j` times the sign `(-1) ** e`: `-1j` for even `e`, `1j` for odd. */
  function SignedNegI(e: nat, z: Complex): Complex
  {
    if e % 2 == 0 then TimesNegI(z) else TimesI(z)
  }

  /**
   * `_grad_prev_fermionic`: with `f` the fermionic excitations of the label, `b` those before
   * exponent `k` and `partner = ck[k + offset]` (Python indexing), the block is
   * `-1j*sign2*ck[k] spre(c) + 1j*sign2*sign1*conj(partner) spost(c)`, on `c = Q.dag()` for a "+"
   * exponent and `c = Q` for a "-" exponent; `sign2 = (-1)**b` and `sign1 = (-1)**(f+1)`. A missing
   * offset raises TypeError, a bosonic type ValueError, a partner index outside the list IndexError.
   */
  lemma GradPrevFermionicCoefficients(h: HierarchyADOs, l: Label, k: nat)
    requires |l| == |h.exponents| && k < |l|
    ensures var e := h.exponents[k];
            var r := GradPrevFermionic(h, l, k);
            var f := Level(FermionicExcitations(h, l));
            var b := Level(FermionicExcitations(h, l)[..k]);
            && (e.sigmaBarKOffset.None? ==> r == Err(TypeError))
            && (e.sigmaBarKOffset.Some? && e.typ !in {Plus, Minus} ==> r == Err(UnsupportedType(k)))
            && (e.sigmaBarKOffset.Some? && e.typ in {Plus, Minus} ==>
                  (r.Ok? <==> -|h.exponents| <= k + e.sigmaBarKOffset.value < |h.exponents|) &&
                  (r.Err? ==> r.error == IndexError))
            && (r.Ok? ==>
                  var p := k + e.sigmaBarKOffset.value;
                  var partner := h.exponents[if p >= 0 then p else |h.exponents| + p].ck;
                  var c := if e.typ == Plus then QDag else Q;
                  forall a :: Coef(r.value, a) ==
                    if a == APre(c, k) then SignedNegI(b, e.ck)
                    else if a == APost(c, k) then SignedNegI(b + f, Conj(partner))
                    else Zero)
  {
    var e := h.exponents[k];
    var f := Level(FermionicExcitations(h, l));
    var b := Level(FermionicExcitations(h, l)[..k]);
    if e.sigmaBarKOffset.Some? && e.typ in {Plus, Minus} {
      var p := k + e.sigmaBarKOffset.value;
      var c := if e.typ == Plus then QDag else Q;
      var r := GradPrevFermionic(h, l, k);
      if r.Ok? {
        var partner := h.Ck()[if p >= 0 then p else |h.exponents| + p];
        var x := TimesNegI(Scale(Sign2(h, l, k), e.ck));
        var y := TimesNegI(Scale(Sign1(h, l), Scale(Sign2(h, l, k), Conj(partner))));
        assert r.value == Difference(Scaled(SPre(c, k), x), Scaled(SPost(c, k), y));
        SignTimesNegI(b, e.ck);
        SignPairTimesI(b, f, Conj(partner));
        DifferenceCoefficients(c, k, x, y);
      }
    }
  }

  /** `-1j * (-1)**b * z` is `SignedNegI(b, z)`. */
  lemma SignTimesNegI(b: nat, z: Complex)
    ensures TimesNegI(Scale(NegOnePow(b), z)) == SignedNegI(b, z)
  {
  }

  /** `-(-1j * (-1)**(f+1) * (-1)**b * z)`, i.e. `1j*sign2*sign1*z`, is `SignedNegI(b + f, z)`. */
  lemma SignPairTimesI(b: nat, f: nat, z: Complex)
    ensures Neg(TimesNegI(Scale(NegOnePow(f + 1), Scale(NegOnePow(b), z)))) == SignedNegI(b + f, z)
  {
  }

  /** `sub(mul(spre(c), x), mul(spost(c), y))` has coefficient `x` on `spre(c)` and `-y` on `spost(c)`. */
  lemma DifferenceCoefficients(c: Coupling, k: nat, x: Complex, y: Complex)
    ensures forall a :: Coef(Difference(Scaled(SPre(c, k), x), Scaled(SPost(c, k), y)), a) ==
              if a == APre(c, k) then x else if a == APost(c, k) then Neg(y) else Zero
  {
  }

  /**
   * `_grad_next_fermionic`: a "+" exponent uses `Q`, a "-" exponent `Q.dag()`; the difference
   * form is chosen exactly when `sign1 == -1`, i.e. when the label's fermionic excitations are
   * even in number, and either way the block is `-1j*sign2 (spre(c) + sign1*spost(c))`.
   * A bosonic type raises.
   */
  lemma GradNextFermionicCoefficients(h: HierarchyADOs, l: Label, k: nat)
    requires |l| == |h.exponents| && k < |l|
    ensures var e := h.exponents[k];
            var r := GradNextFermionic(h, l, k);
            var f := Level(FermionicExcitations(h, l));
            var b := Level(FermionicExcitations(h, l)[..k]);
            && (e.typ !in {Plus, Minus} ==> r == Err(UnsupportedType(k)))
            && (e.typ in {Plus, Minus} ==>
                  var c := if e.typ == Plus then Q else QDag;
                  && r.Ok? && r.value.Scaled?
                  && (r.value.form == PreMinusPost(c, k) <==> f % 2 == 0)
                  && (r.value.form == PrePlusPost(c, k) <==> f % 2 == 1)
                  && forall a :: Coef(r.value, a) ==
                       if a == APre(c, k) then SignedNegI(b, One)
                       else if a == APost(c, k) then SignedNegI(b + f + 1, One)
                       else Zero)
  {
  }

  // ---------------------------------------------------------------------------------------
  // Dispatch

  /**
   * Which blocks raise. `_grad_next` raises only for a fermionic exponent of a bosonic type.
   * `_grad_prev` raises for a bosonic exponent of a fermionic type or an RI exponent without
   * `ck2`, and for a fermionic exponent without an offset, of a bosonic type, or whose
   * partner index `k + offset` lies outside the exponent list.
   */
  lemma GradientsRaise(h: HierarchyADOs, l: Label, k: nat)
    requires |l| == |h.exponents| && k < |l|
    ensures var e := h.exponents[k];
            GradNext(h, l, k).Err? <==> e.fermionic && e.typ !in {Plus, Minus}
    ensures var e := h.exponents[k];
            GradPrev(h, l, k).Err? <==>
              if e.fermionic then
                e.sigmaBarKOffset.None? || e.typ !in {Plus, Minus} ||
                !(-|h.exponents| <= k + e.sigmaBarKOffset.value < |h.exponents|)
              else e.typ in {Plus, Minus} || (e.typ == RI && e.ck2.None?)
  {
    if h.exponents[k].fermionic {
      GradPrevFermionicCoefficients(h, l, k);
    } else {
      GradPrevBosonicCoefficients(h, l, k);
    }
  }
}
