/** The logistic map and its derivative, generic in the source over the number type and
    instantiated with complex numbers. */
module Maps {
  import opened ComplexNumbers

  /** `logmap(x, r) = r * x * (1 - x)` */
  function LogMap(x: Complex, r: Complex): Complex
  {
    Mul(Mul(r, x), Sub(One, x))
  }

  /** `logmap_der(x, r) = r * (1 - 2x)` */
  function LogMapDer(x: Complex, r: Complex): Complex
  {
    Mul(r, Sub(One, Mul(Two, x)))
  }

  /** On real arguments the map is the real polynomial r x (1 - x). */
  lemma LogMapOnReals(x: real, r: real)
    ensures LogMap(Real(x), Real(r)) == Real(r * x * (1.0 - x))
  {
  }

  /** On real arguments the derivative is the real polynomial r (1 - 2x). */
  lemma LogMapDerOnReals(x: real, r: real)
    ensures LogMapDer(Real(x), Real(r)) == Real(r * (1.0 - 2.0 * x))
  {
  }

  /** 0 and 1 are the two roots of the map, for every parameter r. */
  lemma LogMapRoots(r: Complex)
    ensures LogMap(Zero, r) == Zero
    ensures LogMap(One, r) == Zero
  {
  }

  /** The map is symmetric about 1/2: x and 1 - x have the same image. */
  lemma LogMapSymmetric(x: Complex, r: Complex)
    ensures LogMap(x, r) == LogMap(Sub(One, x), r)
  {
  }

  /** The derivative vanishes at the critical point 1/2. */
  lemma LogMapDerCritical(r: Complex)
    ensures LogMapDer(Real(0.5), r) == Zero
  {
    assert Mul(Two, Real(0.5)) == One;
    assert Sub(One, One) == Zero;
    assert Mul(r, Zero) == Zero;
  }

  /** The parameter-free part of the expansion:
      (x + h)(1 - x - h) - x(1 - x) = h(1 - 2x) - h^2. */
  lemma QuadraticExpansion(x: Complex, h: Complex)
    ensures Sub(Mul(Add(x, h), Sub(One, Add(x, h))), Mul(x, Sub(One, x)))
            == Sub(Mul(h, Sub(One, Mul(Two, x))), Mul(h, h))
  {
    RealPartExpansion(x, h);
    ImagPartExpansion(x, h);
  }

  /** The real part of the parameter-free expansion. */
  lemma RealPartExpansion(x: Complex, h: Complex)
    ensures Sub(Mul(Add(x, h), Sub(One, Add(x, h))), Mul(x, Sub(One, x))).re
            == Sub(Mul(h, Sub(One, Mul(Two, x))), Mul(h, h)).re
  {
  }

  /** The imaginary part of the parameter-free expansion. */
  lemma ImagPartExpansion(x: Complex, h: Complex)
    ensures Sub(Mul(Add(x, h), Sub(One, Add(x, h))), Mul(x, Sub(One, x))).im
            == Sub(Mul(h, Sub(One, Mul(Two, x))), Mul(h, h)).im
  {
  }

  /** `logmap_der` is the derivative of `logmap`: the exact second-order expansion
      logmap(x + h) - logmap(x) = h * logmap_der(x) - r * h^2. */
  lemma LogMapExpansion(x: Complex, h: Complex, r: Complex)
    ensures Sub(LogMap(Add(x, h), r), LogMap(x, r)) == Sub(Mul(h, LogMapDer(x, r)), Mul(r, Mul(h, h)))
  {
    QuadraticExpansion(x, h);
    MulAssoc(r, Add(x, h), Sub(One, Add(x, h)));
    MulAssoc(r, x, Sub(One, x));
    MulDistSub(r, Mul(Add(x, h), Sub(One, Add(x, h))), Mul(x, Sub(One, x)));
    MulDistSub(r, Mul(h, Sub(One, Mul(Two, x))), Mul(h, h));
    MulLeftComm(r, h, Sub(One, Mul(Two, x)));
  }
}
