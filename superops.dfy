/**
 * Symbolic superoperator blocks. The solver precomputes, for every exponent `k`, the forms
 * `spre(Q)`, `spost(Q)`, their difference and their sum, and the same for `Q.dag()`; every
 * block it builds is a scaled form or a sum or difference of such. Blocks stay symbolic here:
 * an `Op` records which `_data.mul`, `_data.add` and `_data.sub` calls produced it, and
 * `Coef` reads off its coefficient on each independent piece.
 */
module Superops {
  import opened ComplexNumbers

  datatype Coupling = Q | QDag

  /** `_sId`, `_spreQ[k]`, `_spostQ[k]`, `_s_pre_minus_post_Q[k]`, `_s_pre_plus_post_Q[k]` (and the `dag` ones). */
  datatype Form =
    | Identity
    | SPre(c: Coupling, k: nat)
    | SPost(c: Coupling, k: nat)
    | PreMinusPost(c: Coupling, k: nat)
    | PrePlusPost(c: Coupling, k: nat)

  /** `_data.mul(form, factor)`, `_data.add(a, b)`, `_data.sub(a, b)`, and the system Liouvillian. */
  datatype Op =
    | Scaled(form: Form, factor: Complex)
    | Sum(a: Op, b: Op)
    | Difference(a: Op, b: Op)
    | SystemLiouvillian

  /** The independent pieces: the identity, `spre`/`spost` of `Q` or `Q.dag()` of exponent `k`, `L_sys`. */
  datatype Atom = AIdentity | APre(c: Coupling, k: nat) | APost(c: Coupling, k: nat) | ASystem

  /** How a cached form decomposes: the difference form is `spre - spost`, the sum form `spre + spost`. */
  function FormWeight(f: Form, a: Atom): int
  {
    match f
    case Identity => if a == AIdentity then 1 else 0
    case SPre(c, k) => if a == APre(c, k) then 1 else 0
    case SPost(c, k) => if a == APost(c, k) then 1 else 0
    case PreMinusPost(c, k) => if a == APre(c, k) then 1 else if a == APost(c, k) then -1 else 0
    case PrePlusPost(c, k) => if a == APre(c, k) || a == APost(c, k) then 1 else 0
  }

  /** The coefficient of atom `a` in the linear combination `op` denotes. */
  function Coef(op: Op, a: Atom): Complex
  {
    match op
    case Scaled(f, z) => Scale(FormWeight(f, a), z)
    case Sum(x, y) => Add(Coef(x, a), Coef(y, a))
    case Difference(x, y) => Sub(Coef(x, a), Coef(y, a))
    case SystemLiouvillian => if a == ASystem then One else Zero
  }
}
