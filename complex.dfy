/** Exact complex numbers as pairs of reals, with the operations the gradient factors use. */
module ComplexNumbers {

  datatype Complex = Complex(re: real, im: real)

  const Zero := Complex(0.0, 0.0)
  const One := Complex(1.0, 0.0)
  /** Python's `1j`. */
  const ImagUnit := Complex(0.0, 1.0)
  /** Python's `-1j`. */
  const NegImagUnit := Complex(0.0, -1.0)

  function FromInt(n: int): Complex { Complex(n as real, 0.0) }

  function Add(a: Complex, b: Complex): Complex { Complex(a.re + b.re, a.im + b.im) }

  function Sub(a: Complex, b: Complex): Complex { Complex(a.re - b.re, a.im - b.im) }

  function Neg(a: Complex): Complex { Complex(-a.re, -a.im) }

  /** Multiplication by the integer `n` (a multiplicity or a sign). */
  function Scale(n: int, a: Complex): Complex { Complex(n as real * a.re, n as real * a.im) }

  /** Multiplication by `1j`. */
  function TimesI(a: Complex): Complex { Complex(-a.im, a.re) }

  /** Multiplication by `-1j`. */
  function TimesNegI(a: Complex): Complex { Complex(a.im, -a.re) }

  function Mul(a: Complex, b: Complex): Complex
  {
    Complex(a.re * b.re - a.im * b.im, a.re * b.im + a.im * b.re)
  }

  function Conj(a: Complex): Complex { Complex(a.re, -a.im) }

  /** Multiplication by the real `r` (0.5 in the steady-state symmetrisation). */
  function ScaleReal(r: real, a: Complex): Complex { Complex(r * a.re, r * a.im) }
}
