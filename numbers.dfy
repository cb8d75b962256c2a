/**
 * The numbers the evaluator computes with (expr.cpp, Float and Dual).
 *
 * A C++ double is modelled as an exact `real`. The C math library is not
 * modelled: its functions are the fields of a `MathLib` value that every
 * evaluation receives, so each result proved here holds for whatever values
 * sin, cos, exp, log, sqrt and pow return. What is modelled exactly is where
 * the floating-point exception check of `checked` fires: a division by zero,
 * the logarithm of a non-positive number, the square root of a negative one,
 * and pow at a pole or with a negative base and a fractional exponent.
 */
module Numbers {
  import opened Common

  datatype MathLib = MathLib(
    sin: real -> real,
    cos: real -> real,
    exp: real -> real,
    log: real -> real,
    sqrt: real -> real,
    pow: (real, real) -> real)

  predicate IsInteger(x: real) {
    x.Floor as real == x
  }

  /** std::pow raises neither FE_DIVBYZERO nor FE_INVALID. */
  predicate PowDefined(x: real, y: real) {
    !(x < 0.0 && !IsInteger(y)) && !(x == 0.0 && y < 0.0)
  }

  /** ediv: x / y, or a domain error when the division traps. */
  function EDiv(x: real, y: real): (r: Result<real, MathError>)
    ensures r.Failure? <==> y == 0.0
    ensures r.Failure? ==> r.error == DomainError
    ensures r.Success? ==> r.value * y == x && r.value == x / y
  {
    if y == 0.0 then Failure(DomainError) else Success(x / y)
  }

  /** epow */
  function EPow(lib: MathLib, x: real, y: real): (r: Result<real, MathError>)
    ensures r.Failure? <==> !PowDefined(x, y)
    ensures r.Failure? ==> r.error == DomainError
    ensures r.Success? ==> r.value == lib.pow(x, y)
  {
    if PowDefined(x, y) then Success(lib.pow(x, y)) else Failure(DomainError)
  }

  /** elog: the natural logarithm is defined for positive arguments only. */
  function ELog(lib: MathLib, x: real): (r: Result<real, MathError>)
    ensures r.Failure? <==> x <= 0.0
    ensures r.Failure? ==> r.error == DomainError
    ensures r.Success? ==> r.value == lib.log(x)
  {
    if x > 0.0 then Success(lib.log(x)) else Failure(DomainError)
  }

  /** esqrt: the square root is defined for non-negative arguments only. */
  function ESqrt(lib: MathLib, x: real): (r: Result<real, MathError>)
    ensures r.Failure? <==> x < 0.0
    ensures r.Failure? ==> r.error == DomainError
    ensures r.Success? ==> r.value == lib.sqrt(x)
  {
    if x >= 0.0 then Success(lib.sqrt(x)) else Failure(DomainError)
  }

  // ---------------------------------------------------------------------------
  // Dual numbers for forward-mode differentiation: a value, its derivative and
  // a flag telling whether the number is a constant.

  datatype Dual = Dual(val: real, deriv: real, cons: bool)

  /** Dual(double): a constant. */
  function DualConst(v: real): Dual {
    Dual(v, 0.0, true)
  }

  function DualAdd(x: Dual, y: Dual): Dual {
    Dual(x.val + y.val, x.deriv + y.deriv, x.cons && y.cons)
  }

  function DualSub(x: Dual, y: Dual): Dual {
    Dual(x.val - y.val, x.deriv - y.deriv, x.cons && y.cons)
  }

  function DualMul(x: Dual, y: Dual): Dual {
    Dual(x.val * y.val, x.deriv * y.val + x.val * y.deriv, x.cons && y.cons)
  }

  lemma SquareNonZero(y: real)
    requires y != 0.0
    ensures y * y > 0.0
  {
    if y < 0.0 {
      assert y * y == (-y) * (-y);
    }
  }

  lemma ZeroOverSquare(y: real)
    requires y != 0.0
    ensures 0.0 / (y * y) == 0.0
  {
    SquareNonZero(y);
  }

  /** The quotient rule gives derivative zero for two constants. */
  lemma QuotientOfConstants(x: Dual, y: Dual)
    requires y.val != 0.0 && x.deriv == 0.0 && y.deriv == 0.0
    ensures (x.deriv * y.val - x.val * y.deriv) / (y.val * y.val) == 0.0
  {
    ZeroOverSquare(y.val);
    assert x.deriv * y.val - x.val * y.deriv == 0.0;
  }

  /**
   * The quotient rule. The first ediv traps exactly when y.val is zero; the
   * second divides by y.val * y.val, which is then non-zero, so it never traps.
   */
  function DualDiv(x: Dual, y: Dual): (r: Result<Dual, MathError>)
    ensures r.Failure? <==> y.val == 0.0
    ensures r.Failure? ==> r.error == DomainError
    ensures r.Success? ==> r.value.val * y.val == x.val && r.value.cons == (x.cons && y.cons)
    ensures r.Success? ==> r.value.val == x.val / y.val
    ensures r.Success? ==>
      r.value.deriv == (x.deriv * y.val - x.val * y.deriv) / (y.val * y.val)
    ensures r.Success? && x.deriv == 0.0 && y.deriv == 0.0 ==> r.value.deriv == 0.0
  {
    var v :- EDiv(x.val, y.val);
    SquareNonZero(y.val);
    assert x.deriv == 0.0 && y.deriv == 0.0 ==>
      (x.deriv * y.val - x.val * y.deriv) / (y.val * y.val) == 0.0 by {
      if x.deriv == 0.0 && y.deriv == 0.0 {
        QuotientOfConstants(x, y);
      }
    }
    Success(Dual(v, (x.deriv * y.val - x.val * y.deriv) / (y.val * y.val), x.cons && y.cons))
  }

  /**
   * The derivative part of Dual::pow, as written: a constant exponent equal
   * to 1 yields the literal 1.0, whatever the base's derivative; another
   * constant exponent k gives k * x^(k-1) * dx; a varying exponent gives the
   * generalised rule x^y * (dy * ln x + dx * y / x). In that last case ediv
   * cannot trap, because the logarithm before it succeeded only for x > 0.
   */
  function PowDeriv(lib: MathLib, x: Dual, y: Dual): (r: Result<real, MathError>)
    ensures r.Success? ==> PowDefined(x.val, y.val)
    ensures r.Failure? ==> r.error == DomainError
  {
    if y.cons then
      if y.val == 1.0 then Success(1.0)
      else
        var p :- EPow(lib, x.val, y.val - 1.0);
        assert IsInteger(y.val - 1.0) ==> IsInteger(y.val) by {
          if IsInteger(y.val - 1.0) {
            assert (y.val - 1.0).Floor == y.val.Floor - 1;
          }
        }
        Success(y.val * p * x.deriv)
    else
      var p :- EPow(lib, x.val, y.val);
      var l :- ELog(lib, x.val);
      Success(p * (y.deriv * l + x.deriv * y.val / x.val))
  }

  /**
   * Dual::pow. The derivative is computed first; the source then evaluates
   * epow(x.val, y.val), which cannot trap once the derivative exists.
   */
  function DualPow(lib: MathLib, x: Dual, y: Dual): (r: Result<Dual, MathError>)
    ensures r.Success? <==>
      if y.cons then y.val == 1.0 || PowDefined(x.val, y.val - 1.0)
      else PowDefined(x.val, y.val) && x.val > 0.0
    ensures r.Success? ==> PowDefined(x.val, y.val)
    ensures r.Success? ==> r.value.val == lib.pow(x.val, y.val) && r.value.cons == (x.cons && y.cons)
    ensures r.Failure? ==> r.error == DomainError
  {
    var d :- PowDeriv(lib, x, y);
    Success(Dual(lib.pow(x.val, y.val), d, x.cons && y.cons))
  }

  function DualNeg(x: Dual): Dual {
    Dual(-x.val, -x.deriv, x.cons)
  }

  function DualSin(lib: MathLib, x: Dual): Dual {
    Dual(lib.sin(x.val), lib.cos(x.val) * x.deriv, x.cons)
  }

  function DualCos(lib: MathLib, x: Dual): Dual {
    Dual(lib.cos(x.val), -lib.sin(x.val) * x.deriv, x.cons)
  }

  /**
   * Traps for a non-positive argument. The division dx / x of the source cannot
   * trap once the logarithm succeeded.
   */
  function DualLn(lib: MathLib, x: Dual): (r: Result<Dual, MathError>)
    ensures r.Failure? <==> x.val <= 0.0
    ensures r.Failure? ==> r.error == DomainError
    ensures r.Success? ==> r.value.val == lib.log(x.val) && r.value.deriv * x.val == x.deriv
    ensures r.Success? ==> r.value.cons == x.cons
  {
    var v :- ELog(lib, x.val);
    Success(Dual(v, x.deriv / x.val, x.cons))
  }

  function DualExp(lib: MathLib, x: Dual): Dual {
    Dual(lib.exp(x.val), lib.exp(x.val) * x.deriv, x.cons)
  }

  /** Traps for a negative argument, and also where the square root is zero. */
  function DualSqrt(lib: MathLib, x: Dual): (r: Result<Dual, MathError>)
    ensures r.Failure? <==> x.val < 0.0 || lib.sqrt(x.val) == 0.0
    ensures r.Failure? ==> r.error == DomainError
    ensures r.Success? ==> r.value.val == lib.sqrt(x.val) && r.value.cons == x.cons
    ensures r.Success? ==> r.value.deriv * (2.0 * lib.sqrt(x.val)) == x.deriv
  {
    var s :- ESqrt(lib, x.val);
    var d :- EDiv(x.deriv, 2.0 * s);
    Success(Dual(s, d, x.cons))
  }
}
