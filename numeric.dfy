/** Fixed-width Rust integer arithmetic (with its panics made explicit) and
    the tagged `Num` value of the tree engine. */
module Numeric {
  import opened Common

  /** The two Rust integer types the calculators use. */
  datatype Width = I32 | I128

  function MinOf(w: Width): int
  {
    match w
    case I32 => -0x8000_0000
    case I128 => -0x8000_0000_0000_0000_0000_0000_0000_0000
  }

  function MaxOf(w: Width): int
  {
    match w
    case I32 => 0x7fff_ffff
    case I128 => 0x7fff_ffff_ffff_ffff_ffff_ffff_ffff_ffff
  }

  predicate InRange(x: int, w: Width) { MinOf(w) <= x <= MaxOf(w) }

  /** What makes a Rust integer operation panic. */
  datatype Fault = Overflow | DivideByZero

  /** The four integer operators of the calculators. */
  datatype IntOp = Plus | Minus | Times | Quot

  /** Rust's integer `/`: the quotient truncated toward zero (Dafny's own
      `/` is Euclidean, so the magnitudes are divided and the sign put back). */
  function TruncDiv(a: int, b: int): (q: int)
    requires b != 0
    ensures q == 0 <==> (if a < 0 then -a else a) < (if b < 0 then -b else b)
    ensures q > 0 <==> q != 0 && (a < 0) == (b < 0)
  {
    var (ma, mb) := (if a < 0 then -a else a, if b < 0 then -b else b);
    QuotientZero(ma, mb);
    var q := ma / mb;
    if (a < 0) == (b < 0) then q else -q
  }

  /** A quotient of naturals is zero exactly when the dividend is the
      smaller. */
  lemma QuotientZero(ma: nat, mb: nat)
    requires mb > 0
    ensures ma / mb >= 0 && (ma / mb == 0 <==> ma < mb)
  {
    assert ma == mb * (ma / mb) + ma % mb;
    if ma / mb != 0 {
      assert mb * (ma / mb) >= mb;
    }
  }

  /** Truncating division leaves a remainder smaller than the divisor that
      takes the sign of the dividend: the quotient is rounded toward zero. */
  lemma TruncDivRemainder(a: int, b: int)
    requires b != 0
    ensures var r := a - TruncDiv(a, b) * b;
      (if r < 0 then -r else r) < (if b < 0 then -b else b) && (r == 0 || (r < 0 <==> a < 0))
  {
    var ma := if a < 0 then -a else a;
    var mb := if b < 0 then -b else b;
    var q := ma / mb;
    var m := ma % mb;
    assert ma == q * mb + m && 0 <= m < mb;
    var t := TruncDiv(a, b);
    var p := q * mb;
    if b < 0 {
      NegatedProduct(t, mb);
    }
    if (a < 0) != (b < 0) {
      NegatedProduct(q, mb);
    }
    assert t * b == (if a < 0 then -p else p);
  }

  /** Negating one factor negates the product. */
  lemma NegatedProduct(x: int, y: int)
    ensures (-x) * y == -(x * y) && x * (-y) == -(x * y)
  {
  }

  /** The exact, unbounded value of an integer operation. */
  function ExactInt(op: IntOp, a: int, b: int): int
    requires op == Quot ==> b != 0
  {
    match op
    case Plus => a + b
    case Minus => a - b
    case Times => a * b
    case Quot => TruncDiv(a, b)
  }

  /** A `w`-bit Rust integer operation: the exact result when it fits, and
      otherwise the panic Rust raises (divide by zero, or overflow, which
      includes `MIN / -1`). */
  function CheckedInt(op: IntOp, a: int, b: int, w: Width): (r: Result<int, Fault>)
    ensures r.Ok? <==> (op == Quot ==> b != 0) && InRange(ExactInt(op, a, b), w)
    ensures r.Ok? ==> r.value == ExactInt(op, a, b)
    ensures r == Err(DivideByZero) <==> op == Quot && b == 0
  {
    if op == Quot && b == 0 then Err(DivideByZero)
    else
      var x := ExactInt(op, a, b);
      if InRange(x, w) then Ok(x) else Err(Overflow)
  }

  /** An IEEE-754 double, kept symbolic: the literal text it was read from,
      the conversion of an integer, or an operation on two doubles. Only
      which variant a computation produces is reasoned about. */
  datatype F64 =
    | Parsed(text: string)
    | OfInt(i: int)
    | FAdd(l: F64, r: F64)
    | FSub(l: F64, r: F64)
    | FMul(l: F64, r: F64)
    | FDiv(l: F64, r: F64)

  /** The tree engine's numeric value: `Integer(i128)` or `Float(f64)`. */
  datatype Num = Integer(i: int) | Float(f: F64)

  /** A `Num` whose Integer payload is a genuine `i128`. */
  predicate WellFormed(n: Num) { n.Integer? ==> InRange(n.i, I128) }

  /** The `as f64` widening of an operand. */
  function AsF64(n: Num): F64
  {
    match n
    case Integer(i) => OfInt(i)
    case Float(f) => f
  }

  /** Shared shape of `Add`, `Sub`, `Mul` and `exact_div`: two Integers give
      the checked `i128` result, anything else gives a Float. */
  function Promote(op: IntOp, a: Num, b: Num, float: (F64, F64) -> F64): (r: Result<Num, Fault>)
    ensures r.Ok? ==> (r.value.Integer? <==> a.Integer? && b.Integer?)
    ensures r.Err? ==> a.Integer? && b.Integer?
    ensures a.Integer? && b.Integer? ==>
      r == (match CheckedInt(op, a.i, b.i, I128)
            case Ok(x) => Ok(Integer(x))
            case Err(e) => Err(e))
    ensures a.Float? || b.Float? ==> r == Ok(Float(float(AsF64(a), AsF64(b))))
  {
    if a.Integer? && b.Integer? then
      match CheckedInt(op, a.i, b.i, I128)
      case Ok(x) => Ok(Integer(x))
      case Err(e) => Err(e)
    else Ok(Float(float(AsF64(a), AsF64(b))))
  }

  /** `impl Add for Num`. */
  function NumAdd(a: Num, b: Num): (r: Result<Num, Fault>)
    ensures a.Integer? && b.Integer? && InRange(a.i + b.i, I128) ==> r == Ok(Integer(a.i + b.i))
    ensures a.Integer? && b.Integer? && !InRange(a.i + b.i, I128) ==> r == Err(Overflow)
    ensures a.Float? || b.Float? ==> r == Ok(Float(FAdd(AsF64(a), AsF64(b))))
  {
    Promote(Plus, a, b, (x, y) => FAdd(x, y))
  }

  /** `impl Sub for Num`. */
  function NumSub(a: Num, b: Num): (r: Result<Num, Fault>)
    ensures a.Integer? && b.Integer? && InRange(a.i - b.i, I128) ==> r == Ok(Integer(a.i - b.i))
    ensures a.Integer? && b.Integer? && !InRange(a.i - b.i, I128) ==> r == Err(Overflow)
    ensures a.Float? || b.Float? ==> r == Ok(Float(FSub(AsF64(a), AsF64(b))))
  {
    Promote(Minus, a, b, (x, y) => FSub(x, y))
  }

  /** `impl Mul for Num`. */
  function NumMul(a: Num, b: Num): (r: Result<Num, Fault>)
    ensures a.Integer? && b.Integer? && InRange(a.i * b.i, I128) ==> r == Ok(Integer(a.i * b.i))
    ensures a.Integer? && b.Integer? && !InRange(a.i * b.i, I128) ==> r == Err(Overflow)
    ensures a.Float? || b.Float? ==> r == Ok(Float(FMul(AsF64(a), AsF64(b))))
  {
    Promote(Times, a, b, (x, y) => FMul(x, y))
  }

  /** `impl Div for Num`: true division, always a Float, even for two
      Integers and for a zero divisor (IEEE gives an infinity or NaN). */
  function NumDiv(a: Num, b: Num): (r: Result<Num, Fault>)
    ensures r == Ok(Float(FDiv(AsF64(a), AsF64(b))))
  {
    match a
    case Integer(x) =>
      (match b
       case Integer(y) => Ok(Float(FDiv(OfInt(x), OfInt(y))))
       case Float(g) => Ok(Float(FDiv(OfInt(x), g))))
    case Float(f) =>
      (match b
       case Integer(y) => Ok(Float(FDiv(f, OfInt(y))))
       case Float(g) => Ok(Float(FDiv(f, g))))
  }

  /** `Num::exact_div`: truncating integer division for two Integers
      (panicking on a zero divisor or on `MIN / -1`), a Float quotient
      otherwise. */
  function ExactDiv(a: Num, b: Num): (r: Result<Num, Fault>)
    ensures a.Integer? && b.Integer? && b.i != 0 && InRange(TruncDiv(a.i, b.i), I128) ==>
      r == Ok(Integer(TruncDiv(a.i, b.i)))
    ensures a.Integer? && b.Integer? && b.i != 0 && !InRange(TruncDiv(a.i, b.i), I128) ==> r == Err(Overflow)
    ensures a.Integer? && b.Integer? && b.i == 0 ==> r == Err(DivideByZero)
    ensures a.Float? || b.Float? ==> r == Ok(Float(FDiv(AsF64(a), AsF64(b))))
    ensures r.Ok? ==> (r.value.Integer? <==> a.Integer? && b.Integer?)
  {
    Promote(Quot, a, b, (x, y) => FDiv(x, y))
  }

  /** `Num::modulus`. Its body is the body of `exact_div`: it divides and
      never takes a remainder. */
  function Modulus(a: Num, b: Num): (r: Result<Num, Fault>)
    ensures a.Integer? && b.Integer? && b.i != 0 && InRange(TruncDiv(a.i, b.i), I128) ==>
      r == Ok(Integer(TruncDiv(a.i, b.i)))
    ensures a.Integer? && b.Integer? && b.i != 0 && !InRange(TruncDiv(a.i, b.i), I128) ==> r == Err(Overflow)
    ensures a.Integer? && b.Integer? && b.i == 0 ==> r == Err(DivideByZero)
    ensures a.Float? || b.Float? ==> r == Ok(Float(FDiv(AsF64(a), AsF64(b))))
  {
    Promote(Quot, a, b, (x, y) => FDiv(x, y))
  }

  /** `modulus` and `exact_div` agree on every pair of operands; in
      particular `7 % 2` gives 3, not the remainder 1. */
  lemma ModulusIsExactDiv(a: Num, b: Num)
    ensures Modulus(a, b) == ExactDiv(a, b)
    ensures Modulus(Integer(7), Integer(2)) == Ok(Integer(3))
  {
    assert TruncDiv(7, 2) == 3;
  }

  /** Every successful operation on well-formed operands yields a
      well-formed value: no Integer result leaves the `i128` range. */
  lemma ResultsStayInRange(a: Num, b: Num)
    ensures NumAdd(a, b).Ok? ==> WellFormed(NumAdd(a, b).value)
    ensures NumSub(a, b).Ok? ==> WellFormed(NumSub(a, b).value)
    ensures NumMul(a, b).Ok? ==> WellFormed(NumMul(a, b).value)
    ensures ExactDiv(a, b).Ok? ==> WellFormed(ExactDiv(a, b).value)
  {
  }
}
