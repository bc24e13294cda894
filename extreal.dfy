/** The floats of the dynamic programs: a real number or negative infinity (log 0). */
module ExtReal {

  datatype Ext = NegInf | Fin(val: real)

  /** Float addition where one side may be -inf; weights are finite, so +inf never arises. */
  function Plus(a: Ext, b: Ext): (c: Ext)
    ensures c.NegInf? <==> a.NegInf? || b.NegInf?
    ensures c.Fin? ==> c.val == a.val + b.val
  {
    if a.NegInf? || b.NegInf? then NegInf else Fin(a.val + b.val)
  }

  /** Python's strict `a > b` on such floats: nothing is greater than itself, -inf is greater than nothing. */
  predicate Greater(a: Ext, b: Ext) {
    match a
    case NegInf => false
    case Fin(x) => b.NegInf? || x > b.val
  }

  /**
   * A Python float built as a sum of products: its finite part and which of
   * +inf, -inf and nan have entered it.  Without rounding, float addition of
   * such terms is commutative, so this determines the float (see `IsNaN`).
   */
  datatype Float = Float(finite: real, posInf: bool, negInf: bool, nan: bool)
  {
    /** nan: a nan term, or +inf added to -inf. */
    predicate IsNaN() {
      nan || (posInf && negInf)
    }

    /** A real number, `finite` itself: no infinity and no nan has entered. */
    predicate IsReal() {
      !posInf && !negInf && !nan
    }
  }

  /** The float of a real number. */
  function Num(x: real): Float {
    Float(x, false, false, false)
  }

  /** The float 0.0, the value of a missing feature. */
  const Zero := Float(0.0, false, false, false)

  /** Python's float `+`: finite parts add, and a special value, once in, stays in. */
  function Add(a: Float, b: Float): Float {
    Float(a.finite + b.finite, a.posInf || b.posInf, a.negInf || b.negInf, a.nan || b.nan)
  }

  /** Python's `k * v` for a factor k that may be -inf and a finite value v: -inf times 0 is nan. */
  function Times(k: Ext, v: real): Float {
    match k
    case Fin(x) => Float(x * v, false, false, false)
    case NegInf => Float(0.0, v < 0.0, v > 0.0, v == 0.0)
  }

  lemma GreaterIsStrictTotalOrder(a: Ext, b: Ext, c: Ext)
    ensures !Greater(a, a)
    ensures Greater(a, b) ==> !Greater(b, a)
    ensures a != b ==> Greater(a, b) || Greater(b, a)
    ensures Greater(a, b) && Greater(b, c) ==> Greater(a, c)
  {}
}
