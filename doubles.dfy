/**
 * The few IEEE-754 double behaviours the matcher can run into: a division
 * by zero gives an infinity (or NaN for 0/0), and every comparison with NaN
 * is false. Finite values are exact reals; rounding and signed zero are not
 * modelled.
 */
module Doubles {

  /** A double that is a finite real, an infinity, or NaN. */
  datatype Ext = Fin(v: real) | PosInf | NegInf | NaN

  /** `x / y` on doubles whose operands are finite. */
  function Quot(x: real, y: real): (r: Ext)
    ensures y != 0.0 ==> r == Fin(x / y)
    ensures y == 0.0 ==> (r == NaN <==> x == 0.0)
    ensures y == 0.0 && x > 0.0 ==> r == PosInf
    ensures y == 0.0 && x < 0.0 ==> r == NegInf
  {
    if y != 0.0 then Fin(x / y)
    else if x > 0.0 then PosInf
    else if x < 0.0 then NegInf
    else NaN
  }

  /** `e + x` for a finite `x`. */
  function AddReal(e: Ext, x: real): Ext
  {
    match e
    case Fin(v) => Fin(v + x)
    case _ => e
  }

  /** `e - x` for a finite `x`. */
  function SubReal(e: Ext, x: real): Ext
  {
    match e
    case Fin(v) => Fin(v - x)
    case _ => e
  }

  /** `e / k` for a positive finite divisor `k`. */
  function DivPos(e: Ext, k: real): Ext
    requires k > 0.0
  {
    match e
    case Fin(v) => Fin(v / k)
    case _ => e
  }

  /** `1 / e`; a zero denominator is taken as +0, so it gives +infinity. */
  function Recip(e: Ext): Ext
  {
    match e
    case Fin(v) => if v == 0.0 then PosInf else Fin(1.0 / v)
    case PosInf => Fin(0.0)
    case NegInf => Fin(0.0)
    case NaN => NaN
  }

  /** The double comparison `a > b`: false whenever either side is NaN. */
  predicate Gt(a: Ext, b: Ext)
  {
    match (a, b)
    case (NaN, _) => false
    case (_, NaN) => false
    case (PosInf, _) => b != PosInf
    case (_, PosInf) => false
    case (NegInf, _) => false
    case (_, NegInf) => true
    case (Fin(x), Fin(y)) => x > y
  }

  /** `a >= b` among values that are not NaN. */
  predicate Ge(a: Ext, b: Ext)
  {
    Gt(a, b) || (a == b && a != NaN)
  }

  /** On values other than NaN, `Gt` is a strict total order. */
  lemma GtTotalOrder(a: Ext, b: Ext, c: Ext)
    requires a != NaN && b != NaN && c != NaN
    ensures !Gt(a, a)
    ensures Gt(a, b) ==> !Gt(b, a)
    ensures Gt(a, b) || Gt(b, a) || a == b
    ensures Gt(a, b) && Gt(b, c) ==> Gt(a, c)
  {
  }

  /** NaN is incomparable: it is neither above nor below anything. */
  lemma NaNUnordered(a: Ext)
    ensures !Gt(NaN, a) && !Gt(a, NaN)
  {
  }
}
