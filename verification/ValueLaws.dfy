/** What the binary operators mean, in terms of numbers and truth values. */
module ValueLaws {
  import opened Prelude
  import opened Values

  predicate Numeric(v: Value) {
    v.Int? || v.Float?
  }

  function Number(v: Value): real
    requires Numeric(v)
  {
    if v.Int? then v.i as real else v.r
  }

  predicate Comparison(op: BinOp) {
    op in {BinOp.Eq, BinOp.Ne, BinOp.Lt, BinOp.Le, BinOp.Gt, BinOp.Ge}
  }

  predicate Arithmetic(op: BinOp) {
    op in {BinOp.Add, BinOp.Sub, BinOp.Mul, BinOp.Div}
  }

  /** `d` on top of `x` makes `y`. */
  predicate Makes(x: real, d: real, y: real) {
    x + d == y
  }

  ghost predicate Below(x: real, y: real) {
    exists d: real :: d > 0.0 && Makes(x, d, y)
  }

  lemma BelowIsLess(x: real, y: real)
    ensures Below(x, y) <==> x < y
  {
    if x < y {
      assert Makes(x, y - x, y);
    }
  }

  predicate Yes(l: Value, op: BinOp, r: Value) {
    IsTrue(EvalBinaryOp(l, op, r))
  }

  // ---------- comparisons ----------

  /** On numbers, whole or not, every comparison answers. One number is below another exactly when something
      positive on top of it makes the other; the other comparisons follow from that. */
  lemma NumbersCompare(l: Value, r: Value)
    requires Numeric(l) && Numeric(r)
    ensures forall op :: Comparison(op) ==> EvalBinaryOp(l, op, r) == Ok(Bool(Yes(l, op, r)))
    ensures Yes(l, BinOp.Eq, r) <==> Number(l) == Number(r)
    ensures Yes(l, BinOp.Lt, r) <==> Below(Number(l), Number(r))
    ensures Yes(l, BinOp.Le, r) <==> Yes(l, BinOp.Lt, r) || Yes(l, BinOp.Eq, r)
    ensures Yes(l, BinOp.Gt, r) <==> Yes(r, BinOp.Lt, l)
    ensures Yes(l, BinOp.Ge, r) <==> Yes(r, BinOp.Le, l)
    ensures Yes(l, BinOp.Ne, r) <==> !Yes(l, BinOp.Eq, r)
  {
    hide Below;
    BelowIsLess(Number(l), Number(r));
    BelowIsLess(Number(r), Number(l));
    forall op | Comparison(op) ensures EvalBinaryOp(l, op, r) == Ok(Bool(Yes(l, op, r))) {}
  }

  /** Two strings, or two truth values, are equal exactly when they are the same, and unequal otherwise; nothing
      else compares them. */
  lemma SameKindCompares(l: Value, op: BinOp, r: Value)
    requires (l.Str? && r.Str?) || (l.Bool? && r.Bool?)
    ensures op == BinOp.Eq ==> EvalBinaryOp(l, op, r) == Ok(Bool(l == r))
    ensures op == BinOp.Ne ==> EvalBinaryOp(l, op, r) == Ok(Bool(l != r))
    ensures op in {BinOp.Lt, BinOp.Le, BinOp.Gt, BinOp.Ge} ==> EvalBinaryOp(l, op, r).Err?
  {
  }

  // ---------- arithmetic ----------

  predicate Whole(l: Value, r: Value) {
    l.Int? && r.Int?
  }

  /** Sums and products are those of the numbers, and whole when both operands are. A difference makes the left
      operand when the right one is added to it. */
  lemma NumbersAdd(l: Value, r: Value)
    requires Numeric(l) && Numeric(r)
    ensures forall op :: Arithmetic(op) && op != BinOp.Div ==>
      EvalBinaryOp(l, op, r).Ok? && Numeric(EvalBinaryOp(l, op, r).value) && (EvalBinaryOp(l, op, r).value.Int? <==> Whole(l, r))
    ensures Number(EvalBinaryOp(l, BinOp.Add, r).value) == Number(l) + Number(r)
    ensures Number(EvalBinaryOp(EvalBinaryOp(l, BinOp.Sub, r).value, BinOp.Add, r).value) == Number(l)
    ensures Number(EvalBinaryOp(l, BinOp.Mul, r).value) == Number(l) * Number(r)
  {
    hide EvalBinaryOp;
    forall op | Arithmetic(op) && op != BinOp.Div
      ensures EvalBinaryOp(l, op, r).Ok? && Numeric(EvalBinaryOp(l, op, r).value) && (EvalBinaryOp(l, op, r).value.Int? <==> Whole(l, r))
    {
      NumbersStayNumbers(l, op, r);
    }
    SumIs(l, r);
    SumIs(EvalBinaryOp(l, BinOp.Sub, r).value, r);
    DifferenceIs(l, r);
    ProductIs(l, r);
  }

  lemma NumbersStayNumbers(l: Value, op: BinOp, r: Value)
    requires Numeric(l) && Numeric(r) && Arithmetic(op) && op != BinOp.Div
    ensures EvalBinaryOp(l, op, r).Ok? && Numeric(EvalBinaryOp(l, op, r).value) && (EvalBinaryOp(l, op, r).value.Int? <==> Whole(l, r))
  {
  }

  lemma SumIs(l: Value, r: Value)
    requires Numeric(l) && Numeric(r)
    ensures EvalBinaryOp(l, BinOp.Add, r).Ok? && Numeric(EvalBinaryOp(l, BinOp.Add, r).value)
    ensures Number(EvalBinaryOp(l, BinOp.Add, r).value) == Number(l) + Number(r)
  {
  }

  lemma DifferenceIs(l: Value, r: Value)
    requires Numeric(l) && Numeric(r)
    ensures EvalBinaryOp(l, BinOp.Sub, r).Ok? && Numeric(EvalBinaryOp(l, BinOp.Sub, r).value)
    ensures Number(EvalBinaryOp(l, BinOp.Sub, r).value) + Number(r) == Number(l)
  {
  }

  lemma ProductIs(l: Value, r: Value)
    requires Numeric(l) && Numeric(r)
    ensures EvalBinaryOp(l, BinOp.Mul, r).Ok? && Numeric(EvalBinaryOp(l, BinOp.Mul, r).value)
    ensures Number(EvalBinaryOp(l, BinOp.Mul, r).value) == Number(l) * Number(r)
  {
    if Whole(l, r) {
      ProductOfWhole(l.i, r.i);
    }
  }

  lemma {:induction false} ProductOfWhole(a: int, b: int)
    ensures (a * b) as real == a as real * b as real
    decreases if b < 0 then -b else b
  {
    if b > 0 {
      ProductOfWhole(a, b - 1);
      assert a * b == a * (b - 1) + a;
    } else if b < 0 {
      ProductOfWhole(a, b + 1);
      assert a * b == a * (b + 1) - a;
    }
  }

  /** A quotient times its divisor is the dividend, but for a rest between two whole numbers: it is smaller than
      the divisor and has the sign of the dividend. Nothing is divided by zero. */
  lemma NumbersDivide(l: Value, r: Value)
    requires Numeric(l) && Numeric(r)
    ensures EvalBinaryOp(l, BinOp.Div, r).Ok? <==> Number(r) != 0.0
    ensures Number(r) != 0.0 && !Whole(l, r) ==>
      EvalBinaryOp(l, BinOp.Div, r).value.Float? && EvalBinaryOp(l, BinOp.Div, r).value.r * Number(r) == Number(l)
    ensures Number(r) != 0.0 && Whole(l, r) ==>
      EvalBinaryOp(l, BinOp.Div, r).value.Int? && Quotient(l.i, EvalBinaryOp(l, BinOp.Div, r).value.i, r.i)
  {
    if Number(r) != 0.0 && Whole(l, r) {
      var q := TruncDiv(l.i, r.i);
      assert EvalBinaryOp(l, BinOp.Div, r) == Ok(Int(q));
      assert Quotient(l.i, q, r.i);
    }
  }

  predicate Quotient(l: int, q: int, r: int) {
    var rest := l - q * r;
    -Size(r) < rest < Size(r) && (l >= 0 ==> rest >= 0) && (l <= 0 ==> rest <= 0)
  }

  function Size(i: int): int {
    if i < 0 then -i else i
  }

  // ---------- truth values, and what fails ----------

  /** AND holds exactly when both sides do, OR exactly when one does. */
  lemma TruthTables(a: bool, b: bool)
    ensures EvalBinaryOp(Bool(a), BinOp.And, Bool(b)) == Ok(Bool(a && b))
    ensures EvalBinaryOp(Bool(a), BinOp.Or, Bool(b)) == Ok(Bool(a || b))
  {
  }

  /** The operands that an operator takes. */
  predicate Takes(l: Value, op: BinOp, r: Value) {
    if Numeric(l) && Numeric(r) then op != BinOp.And && op != BinOp.Or && (op == BinOp.Div ==> Number(r) != 0.0)
    else if l.Str? && r.Str? then op == BinOp.Eq || op == BinOp.Ne
    else l.Bool? && r.Bool? && op in {BinOp.Eq, BinOp.Ne, BinOp.And, BinOp.Or}
  }

  /** Everything else is an error: in particular NULL compares with nothing, itself included. */
  lemma FailsExactly(l: Value, op: BinOp, r: Value)
    ensures EvalBinaryOp(l, op, r).Ok? <==> Takes(l, op, r)
  {
  }
}
