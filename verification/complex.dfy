/** Complex numbers as pairs of exact reals: the idealisation of numpy's complex128. */
module ComplexNumbers {

  datatype Complex = Complex(re: real, im: real)

  const Zero: Complex := Complex(0.0, 0.0)

  /** The squared modulus |z|^2. */
  function NormSq(z: Complex): real {
    z.re * z.re + z.im * z.im
  }
}
