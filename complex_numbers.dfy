/** `std::complex<long double>` over the reals: the arithmetic the map templates are
    instantiated with. */
module ComplexNumbers {
  datatype Complex = Complex(re: real, im: real)

  /** `T{n}` for a real constant n: the complex number n + 0i */
  function Real(x: real): Complex { Complex(x, 0.0) }

  const Zero: Complex := Real(0.0)
  const One: Complex := Real(1.0)
  const Two: Complex := Real(2.0)

  function Add(a: Complex, b: Complex): Complex
  {
    Complex(a.re + b.re, a.im + b.im)
  }

  function Sub(a: Complex, b: Complex): Complex
  {
    Complex(a.re - b.re, a.im - b.im)
  }

  function Mul(a: Complex, b: Complex): Complex
  {
    Complex(a.re * b.re - a.im * b.im, a.re * b.im + a.im * b.re)
  }

  /** Complex multiplication is associative. */
  lemma MulAssoc(a: Complex, b: Complex, c: Complex)
    ensures Mul(Mul(a, b), c) == Mul(a, Mul(b, c))
  {
  }

  /** Multiplication distributes over subtraction. */
  lemma MulDistSub(a: Complex, b: Complex, c: Complex)
    ensures Mul(a, Sub(b, c)) == Sub(Mul(a, b), Mul(a, c))
  {
  }

  /** The two left factors of a product may be swapped. */
  lemma MulLeftComm(a: Complex, b: Complex, c: Complex)
    ensures Mul(a, Mul(b, c)) == Mul(b, Mul(a, c))
  {
  }
}
