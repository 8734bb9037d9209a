/** The expression tree of the tree engine and its post-order evaluator. */
module Expression {
  import opened Common
  import opened Numeric

  /** The six binary node kinds. */
  datatype Op = Add | Sub | Mul | Div | ExactDiv | Mod

  /** `Expr`: a literal or a binary node owning its two children. */
  datatype Expr = Lit(n: Num) | Bin(op: Op, lhs: Expr, rhs: Expr)

  /** The `Num` operation each node kind applies in `Expr::eval`: `Mod`
      calls `exact_div`, exactly like `ExactDiv`. */
  function Apply(op: Op, a: Num, b: Num): Result<Num, Fault>
  {
    match op
    case Add => NumAdd(a, b)
    case Sub => NumSub(a, b)
    case Mul => NumMul(a, b)
    case Div => NumDiv(a, b)
    case ExactDiv => Numeric.ExactDiv(a, b)
    case Mod => Numeric.ExactDiv(a, b)
  }

  /** `Expr::eval`: the left child, then the right child, then the node.
      A fault anywhere (a Rust panic) aborts with no partial result. */
  function Eval(e: Expr): (r: Result<Num, Fault>)
    ensures e.Lit? ==> r == Ok(e.n)
    ensures e.Bin? && r.Ok? ==> Eval(e.lhs).Ok? && Eval(e.rhs).Ok?
    ensures e.Bin? && Eval(e.lhs).Err? ==> r == Eval(e.lhs)
    ensures e.Bin? && Eval(e.lhs).Ok? && Eval(e.rhs).Err? ==> r == Eval(e.rhs)
    ensures e.Bin? && e.op == Div && r.Ok? ==> r.value.Float?
  {
    match e
    case Lit(n) => Ok(n)
    case Bin(op, l, r) =>
      match Eval(l)
      case Err(f) => Err(f)
      case Ok(a) =>
        match Eval(r)
        case Err(f) => Err(f)
        case Ok(b) => Apply(op, a, b)
  }

  /** No node of the tree is a `Mod` node. */
  predicate ModFree(e: Expr)
  {
    match e
    case Lit(_) => true
    case Bin(op, l, r) => op != Mod && ModFree(l) && ModFree(r)
  }

  /** Every Integer literal of the tree is a genuine `i128`. */
  predicate LiteralsWellFormed(e: Expr)
  {
    match e
    case Lit(n) => WellFormed(n)
    case Bin(_, l, r) => LiteralsWellFormed(l) && LiteralsWellFormed(r)
  }

  /** The tree has a Float literal or a true-division node: the two sources
      of a Float value. */
  predicate FloatSource(e: Expr)
  {
    match e
    case Lit(n) => n.Float?
    case Bin(op, l, r) => op == Div || FloatSource(l) || FloatSource(r)
  }

  /** `Mod(a, b)` and `ExactDiv(a, b)` always evaluate to the same result. */
  lemma EvalModIsExactDiv(l: Expr, r: Expr)
    ensures Eval(Bin(Mod, l, r)) == Eval(Bin(ExactDiv, l, r))
  {
  }

  /** Promotion, lifted to whole trees: a successful evaluation is a Float
      exactly when the tree holds a Float literal or a `/` node; otherwise
      it is an Integer. */
  lemma {:induction false} FloatExactlyFromFloatSource(e: Expr)
    requires Eval(e).Ok?
    ensures Eval(e).value.Float? <==> FloatSource(e)
  {
    match e
    case Lit(_) =>
    case Bin(op, l, r) =>
      FloatExactlyFromFloatSource(l);
      FloatExactlyFromFloatSource(r);
  }

  /** Unbounded integer meaning of a tree without Float sources, with
      truncating division (also for `Mod`, as the evaluator does); `None`
      for a zero divisor. */
  function ExactValue(e: Expr): Option<int>
    requires !FloatSource(e)
  {
    match e
    case Lit(n) => Some(n.i)
    case Bin(op, l, r) =>
      match ExactValue(l)
      case None => None
      case Some(a) =>
        match ExactValue(r)
        case None => None
        case Some(b) => ExactStep(op, a, b)
  }

  /** The unbounded value of one node over the values of its children. */
  function ExactStep(op: Op, a: int, b: int): Option<int>
    requires op != Div
  {
    match op
    case Add => Some(a + b)
    case Sub => Some(a - b)
    case Mul => Some(a * b)
    case ExactDiv => if b == 0 then None else Some(TruncDiv(a, b))
    case Mod => if b == 0 then None else Some(TruncDiv(a, b))
  }

  /** One node over two Integers: a successful Integer result is the
      unbounded value of the node, and lies in the `i128` range. */
  lemma IntegerApply(op: Op, a: int, b: int, v: int)
    requires op != Div && Apply(op, Integer(a), Integer(b)) == Ok(Integer(v))
    ensures ExactStep(op, a, b) == Some(v) && InRange(v, I128)
  {
  }

  /** The `i128` evaluator never wraps around: whenever it returns an
      Integer, that Integer is the exact mathematical value of the tree and
      lies in the `i128` range. */
  lemma {:induction false} IntegerEvalIsExact(e: Expr)
    requires LiteralsWellFormed(e)
    requires Eval(e).Ok? && Eval(e).value.Integer?
    ensures !FloatSource(e)
    ensures ExactValue(e) == Some(Eval(e).value.i)
    ensures InRange(Eval(e).value.i, I128)
  {
    FloatExactlyFromFloatSource(e);
    match e
    case Lit(_) =>
    case Bin(op, l, r) =>
      FloatExactlyFromFloatSource(l);
      FloatExactlyFromFloatSource(r);
      IntegerEvalIsExact(l);
      IntegerEvalIsExact(r);
      var a, b := Eval(l).value, Eval(r).value;
      assert Eval(e) == Apply(op, a, b);
      IntegerApply(op, a.i, b.i, Eval(e).value.i);
  }

  /** A fault is only ever raised by Integer arithmetic: a tree whose every
      operand is a Float evaluates without fault. */
  lemma {:induction false} AllFloatNeverFaults(e: Expr)
    requires AllFloat(e)
    ensures Eval(e).Ok? && Eval(e).value.Float?
  {
    match e
    case Lit(_) =>
    case Bin(_, l, r) =>
      AllFloatNeverFaults(l);
      AllFloatNeverFaults(r);
  }

  /** Every literal of the tree is a Float. */
  predicate AllFloat(e: Expr)
  {
    match e
    case Lit(n) => n.Float?
    case Bin(_, l, r) => AllFloat(l) && AllFloat(r)
  }

  /** `6 / 3` evaluates to a Float, never to `Integer(2)`. */
  lemma SixDividedByThree()
    ensures Eval(Bin(Div, Lit(Integer(6)), Lit(Integer(3)))) == Ok(Float(FDiv(OfInt(6), OfInt(3))))
  {
  }
}
