/** The integer expressions the two facility programs build for their objectives: a
    scalar product of constant coefficients with the 0/1 `open` variables, an `element`
    of a constant row indexed by an assignment variable, and sums of those. */
module CpExpr {
  import opened SeqMath

  datatype Expr =
    | ScalProdOpen(coefs: seq<int>)
    | Element(values: seq<int>, index: nat)
    | Plus(left: Expr, right: Expr)

  /** The expression has a value for the assignment `assign` and the `open` vector. */
  predicate Defined(e: Expr, assign: seq<int>, open: seq<int>)
  {
    match e
    case ScalProdOpen(coefs) => |coefs| == |open|
    case Element(values, index) => index < |assign| && 0 <= assign[index] < |values|
    case Plus(l, r) => Defined(l, assign, open) && Defined(r, assign, open)
  }

  function Eval(e: Expr, assign: seq<int>, open: seq<int>): int
    requires Defined(e, assign, open)
  {
    match e
    case ScalProdOpen(coefs) => ScalProd(open, coefs)
    case Element(values, index) => values[assign[index]]
    case Plus(l, r) => Eval(l, assign, open) + Eval(r, assign, open)
  }
}
