/** Double-precision values without rounding: the reals, the two infinities and
    NaN, with the comparisons of IEEE 754 (every comparison with NaN is false). */
module Floats {
  datatype Float = NaN | NegInf | Fin(r: real) | PosInf {
    predicate IsFinite() {
      Fin?
    }

    predicate Lt(that: Float) {
      match (this, that)
      case (NaN, _) => false
      case (_, NaN) => false
      case (Fin(a), Fin(b)) => a < b
      case (NegInf, _) => that != NegInf
      case (_, PosInf) => this != PosInf
      case _ => false
    }

    predicate Ge(that: Float) {
      this != NaN && that != NaN && !Lt(that)
    }

    function Minus(that: Float): Float {
      match (this, that)
      case (NaN, _) => NaN
      case (_, NaN) => NaN
      case (Fin(a), Fin(b)) => Fin(a - b)
      case (Fin(_), PosInf) => NegInf
      case (Fin(_), NegInf) => PosInf
      case (PosInf, PosInf) => NaN
      case (NegInf, NegInf) => NaN
      case (PosInf, _) => PosInf
      case (NegInf, _) => NegInf
    }
  }

  function MinReal(a: real, b: real): real {
    if a < b then a else b
  }

  function MaxReal(a: real, b: real): real {
    if a < b then b else a
  }
}
