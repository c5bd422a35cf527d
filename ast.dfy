/** The syntax tree (`Node`, `Number`, `BinOp`) and its reference meaning as
    32-bit two's-complement arithmetic. */
module Ast {
  import opened Wrappers
  import opened Int32

  /** `Number(value)` or `BinOp(left, right, op)`. The operator name is the
      token the parser read, whatever it was; only the code generator decides
      whether it names an operation. */
  datatype Expr =
    | Number(value: int)
    | BinOp(left: Expr, right: Expr, op: string)

  /** The operator names of the tree in post-order: left subtree, right
      subtree, then the node itself. */
  function PostOrderOps(e: Expr): seq<string> {
    match e
    case Number(_) => []
    case BinOp(l, r, op) => PostOrderOps(l) + PostOrderOps(r) + [op]
  }

  /** Every literal is representable as an `i32`. */
  predicate LiteralsFit(e: Expr) {
    match e
    case Number(v) => InRange(v)
    case BinOp(l, r, _) => LiteralsFit(l) && LiteralsFit(r)
  }

  /** The four operator names the code generator knows. */
  predicate IsKnownOperator(op: string) {
    op == "add" || op == "sub" || op == "mul" || op == "div"
  }

  /** Reference evaluation over `i32`: `add`, `sub` and `mul` wrap around,
      `div` truncates toward zero. None where the value is not defined: a
      literal outside `i32`, an unknown operator, a division by zero or
      INT_MIN / -1. */
  function Eval(e: Expr): Option<I32> {
    match e
    case Number(v) => if InRange(v) then Some(v) else None
    case BinOp(l, r, op) =>
      match (Eval(l), Eval(r))
      case (Some(a), Some(b)) =>
        if op == "add" then Some(Add(a, b))
        else if op == "sub" then Some(Sub(a, b))
        else if op == "mul" then Some(Mul(a, b))
        else if op == "div" then Div(a, b)
        else None
      case _ => None
  }

  /** A tree has a value only if all its literals fit and all its operator
      names are known. */
  lemma {:induction false} EvalDefined(e: Expr)
    requires Eval(e).Some?
    ensures LiteralsFit(e)
    ensures forall i :: 0 <= i < |PostOrderOps(e)| ==> IsKnownOperator(PostOrderOps(e)[i])
  {
    match e
    case Number(_) =>
    case BinOp(l, r, op) =>
      EvalDefined(l);
      EvalDefined(r);
      var ops, opsL, opsR := PostOrderOps(e), PostOrderOps(l), PostOrderOps(r);
      forall i | 0 <= i < |ops| ensures IsKnownOperator(ops[i]) {
        if i < |opsL| {
          assert ops[i] == opsL[i];
        } else if i < |opsL| + |opsR| {
          assert ops[i] == opsR[i - |opsL|];
        } else {
          assert ops[i] == op;
        }
      }
  }
}
