/** Runtime values of the query executor and the binary operators on them. */
module Values {
  import opened Prelude

  /** `Float` stands for finite floating-point numbers; rounding is not modelled. */
  datatype Value =
    | Str(s: string)
    | Int(i: int)
    | Float(r: real)
    | Bool(b: bool)
    | Null
    | NodeRef(id: nat)

  /** A row under construction: variables and `variable.property` keys. */
  type Tuple = map<string, Value>

  datatype BinOp =
    | Eq | Ne | Lt | Le | Gt | Ge
    | And | Or
    | Add | Sub | Mul | Div

  /** Integer division that truncates toward zero, as the engine's machine integers do. */
  function TruncDiv(l: int, r: int): (q: int)
    requires r != 0
    ensures 0 <= l ==> 0 <= l - q * r
    ensures l <= 0 ==> l - q * r <= 0
    ensures -(if r < 0 then -r else r) < l - q * r < (if r < 0 then -r else r)
  {
    if 0 <= l then l / r else -((-l) / r)
  }

  function CompareInts(l: int, op: BinOp, r: int): Result<Value> {
    match op
    case Eq => Ok(Bool(l == r))
    case Ne => Ok(Bool(l != r))
    case Lt => Ok(Bool(l < r))
    case Le => Ok(Bool(l <= r))
    case Gt => Ok(Bool(l > r))
    case Ge => Ok(Bool(l >= r))
    case _ => Err(InvalidArgument("invalid int op"))
  }

  function IntOp(l: int, op: BinOp, r: int): Result<Value> {
    match op
    case Add => Ok(Int(l + r))
    case Sub => Ok(Int(l - r))
    case Mul => Ok(Int(l * r))
    case Div => if r == 0 then Err(InvalidArgument("division by zero")) else Ok(Int(TruncDiv(l, r)))
    case _ => CompareInts(l, op, r)
  }

  function RealOp(l: real, op: BinOp, r: real): Result<Value> {
    match op
    case Add => Ok(Float(l + r))
    case Sub => Ok(Float(l - r))
    case Mul => Ok(Float(l * r))
    case Div => if r == 0.0 then Err(InvalidArgument("division by zero")) else Ok(Float(l / r))
    case Eq => Ok(Bool(l == r))
    case Ne => Ok(Bool(l != r))
    case Lt => Ok(Bool(l < r))
    case Le => Ok(Bool(l <= r))
    case Gt => Ok(Bool(l > r))
    case Ge => Ok(Bool(l >= r))
    case _ => Err(InvalidArgument("invalid float op"))
  }

  function BoolOp(l: bool, op: BinOp, r: bool): Result<Value> {
    match op
    case And => Ok(Bool(l && r))
    case Or => Ok(Bool(l || r))
    case Eq => Ok(Bool(l == r))
    case Ne => Ok(Bool(l != r))
    case _ => Err(InvalidArgument("invalid bool op"))
  }

  function StringOp(l: string, op: BinOp, r: string): Result<Value> {
    match op
    case Eq => Ok(Bool(l == r))
    case Ne => Ok(Bool(l != r))
    case _ => Err(InvalidArgument("invalid string op"))
  }

  /** Both operands are already evaluated: AND and OR do not short-circuit. */
  function EvalBinaryOp(l: Value, op: BinOp, r: Value): Result<Value> {
    match (l, r)
    case (Int(a), Int(b)) => IntOp(a, op, b)
    case (Float(a), Float(b)) => RealOp(a, op, b)
    case (Int(a), Float(b)) => RealOp(a as real, op, b)
    case (Float(a), Int(b)) => RealOp(a, op, b as real)
    case (Bool(a), Bool(b)) => BoolOp(a, op, b)
    case (Str(a), Str(b)) => StringOp(a, op, b)
    case _ => Err(InvalidArgument("type mismatch in binary op"))
  }

  predicate IsTrue(r: Result<Value>) {
    r == Ok(Bool(true))
  }
}
