/** Bath exponents as the bath-model collaborator supplies them; no behaviour lives here. */
module Exponents {
  import opened Wrappers
  import opened ComplexNumbers

  /** `BathExponent.types`: the bosonic R, I and RI kinds and the fermionic "+" and "-". */
  datatype ExponentType = R | I | RI | Plus | Minus

  /**
   * One term of a bath correlation function. `dim` is `None` for an uncapped exponent;
   * `ck2` is only set for RI exponents and `sigmaBarKOffset` only for fermionic ones;
   * `qDims` stands for the dims of the coupling operator `Q`.
   */
  datatype BathExponent = BathExponent(
    typ: ExponentType,
    fermionic: bool,
    dim: Option<nat>,
    vk: Complex,
    ck: Complex,
    ck2: Option<Complex>,
    sigmaBarKOffset: Option<int>,
    tag: int,
    qDims: seq<nat>)

  datatype Bath = Bath(exponents: seq<BathExponent>)

  /** The `bath` argument of the solver: one bath, or a list or tuple of baths. */
  datatype BathArgument = SingleBath(bath: Bath) | BathList(baths: seq<Bath>)
}
