/** The two-stack calculator (`library/calc/src/stack_based.rs`): numbers
    and operators are pushed one at a time; pushing an operator first
    reduces every stacked operator of equal or higher priority, and the
    final result is forced by pushing the lowest operator, `Eval`. */
module StackCalc {
  import opened Common
  import opened Numeric
  import opened Combinators

  /** `ErrKind`: the refusals the calculator reports. */
  datatype ErrKind = UnExpectedOperator | UnExpectedNumber | MoreParamRequired | InvalidExpression

  /** Why an operation stopped: a reported refusal, or a panic of the
      `i128` arithmetic (overflow, division by zero). */
  datatype Halt = Refused(kind: ErrKind) | Panicked(fault: Fault)

  datatype Operator = Eval | Add | Subtract | Multiply | Divide

  /** `Operator::priority`. */
  function Priority(op: Operator): (p: nat)
    ensures p <= 2 && (p == 0 <==> op == Eval)
  {
    match op
    case Add => 1
    case Subtract => 1
    case Multiply => 2
    case Divide => 2
    case Eval => 0
  }

  /** `Operator::excepted_param_count`: how many numbers it consumes. */
  function ExpectedParamCount(op: Operator): (k: nat)
    ensures 1 <= k <= 2 && (k == 1 <==> op == Eval)
  {
    if op == Eval then 1 else 2
  }

  /** `Operator::is_param_enough`. */
  predicate IsParamEnough(op: Operator, len: nat)
    ensures IsParamEnough(op, len) ==> len >= 1
    ensures op != Eval ==> (IsParamEnough(op, len) <==> len >= 2)
  {
    ExpectedParamCount(op) <= len
  }

  /** Rust's `Ordering`. */
  datatype Ordering = Less | Equal | Greater

  /** `Ord::cmp` (and `partial_cmp`) of operators: by priority only. */
  function Cmp(a: Operator, b: Operator): (o: Ordering)
    ensures o == Equal <==> Priority(a) == Priority(b)
    ensures o == Less <==> Priority(a) < Priority(b)
  {
    if Priority(a) < Priority(b) then Less
    else if Priority(a) == Priority(b) then Equal
    else Greater
  }

  /** `PartialEq` of operators: equal priority. */
  predicate SamePriority(a: Operator, b: Operator)
  {
    Cmp(a, b) == Equal
  }

  /** The comparisons are a total preorder: `cmp` is antisymmetric and
      transitive, and `==` is the equivalence it induces, under which `Add`
      equals `Subtract` and `Multiply` equals `Divide`, the two additive
      operators are below the two multiplicative ones, and `Eval` is below
      everything else. */
  lemma OperatorOrder(a: Operator, b: Operator, c: Operator)
    ensures Cmp(a, b) == Less <==> Cmp(b, a) == Greater
    ensures Cmp(a, b) != Greater && Cmp(b, c) != Greater ==> Cmp(a, c) != Greater
    ensures SamePriority(a, b) <==> Cmp(a, b) == Equal && Cmp(b, a) == Equal
    ensures SamePriority(Add, Subtract) && SamePriority(Multiply, Divide)
    ensures a in {Add, Subtract} && b in {Multiply, Divide} ==> Cmp(a, b) == Less
    ensures a != Eval ==> Cmp(Eval, a) == Less
  {
  }

  /** The integer operation of a binary operator. */
  function IntOpOf(op: Operator): IntOp
    requires op != Eval
  {
    match op
    case Add => Plus
    case Subtract => Minus
    case Multiply => Times
    case Divide => Quot
  }

  /** The number stack after `calculate` and the value it returns. */
  datatype Popped = Popped(rest: seq<int>, value: Result<int, Halt>)

  /** `Operator::calculate` on a number stack: too few numbers is
      `MoreParamRequired` with nothing popped; `Eval` pops and returns the
      top; a binary operator pops the right operand, then the left one, and
      applies the checked `i128` operation to them. */
  function Applied(op: Operator, numbers: seq<int>): (p: Popped)
    ensures !IsParamEnough(op, |numbers|) ==> p == Popped(numbers, Err(Refused(MoreParamRequired)))
    ensures IsParamEnough(op, |numbers|) ==> p.rest == numbers[..|numbers| - ExpectedParamCount(op)]
    ensures p.value.Ok? ==> IsParamEnough(op, |numbers|) && (op == Eval || InRange(p.value.value, I128))
    ensures op == Eval && numbers != [] ==> p.value == Ok(numbers[|numbers| - 1])
    ensures op != Eval && |numbers| >= 2 ==>
              var (left, right) := (numbers[|numbers| - 2], numbers[|numbers| - 1]);
              (p.value.Ok? <==> (op == Divide ==> right != 0) && InRange(ExactInt(IntOpOf(op), left, right), I128))
              && (p.value.Ok? ==> p.value.value == ExactInt(IntOpOf(op), left, right))
              && (p.value.Err? ==> p.value == Err(Panicked(if op == Divide && right == 0 then DivideByZero else Overflow)))
  {
    var n := |numbers|;
    if !IsParamEnough(op, n) then Popped(numbers, Err(Refused(MoreParamRequired)))
    else if op == Eval then Popped(numbers[..n - 1], Ok(numbers[n - 1]))
    else
      match CheckedInt(IntOpOf(op), numbers[n - 2], numbers[n - 1], I128)
      case Ok(v) => Popped(numbers[..n - 2], Ok(v))
      case Err(f) => Popped(numbers[..n - 2], Err(Panicked(f)))
  }

  /** The whole state of a `Calculator`. */
  datatype CalcState = CalcState(numbers: seq<int>, operators: seq<Operator>, canAcceptNumber: bool)

  /** `Calculator::default`. */
  const Initial := CalcState([], [], true)

  /** The state after an operation and what the operation returned. */
  datatype Outcome = Outcome(state: CalcState, status: Result<(), Halt>)

  /** `append_number`: accepted only where a number is expected. */
  function AppendNumberSpec(st: CalcState, n: int): (o: Outcome)
    ensures o.status.Ok? <==> st.canAcceptNumber
    ensures !st.canAcceptNumber ==> o == Outcome(st, Err(Refused(UnExpectedNumber)))
    ensures st.canAcceptNumber ==> o.state == CalcState(st.numbers + [n], st.operators, false)
  {
    if st.canAcceptNumber then Outcome(CalcState(st.numbers + [n], st.operators, false), Ok(()))
    else Outcome(st, Err(Refused(UnExpectedNumber)))
  }

  /** The stacks after the reduction loop of `append_operator` and whether
      it ended normally. */
  datatype Reduced = Reduced(numbers: seq<int>, operators: seq<Operator>, status: Result<(), Halt>)

  /** The reduction loop of `append_operator` for the incoming `op`: while
      the top operator's priority is at least `op`'s, pop it and push what
      it computes; an empty operator stack over an empty number stack is
      `UnExpectedOperator`; a failed calculation stops the loop with the
      operator already popped. */
  function Reduce(op: Operator, numbers: seq<int>, operators: seq<Operator>): (r: Reduced)
    ensures |r.operators| <= |operators| && r.operators == operators[..|r.operators|]
    ensures r.status.Ok? ==> r.operators == [] || Priority(r.operators[|r.operators| - 1]) < Priority(op)
    decreases |operators|
  {
    if operators == [] then
      if numbers == [] then Reduced(numbers, operators, Err(Refused(UnExpectedOperator)))
      else Reduced(numbers, operators, Ok(()))
    else
      var top := operators[|operators| - 1];
      if Priority(op) <= Priority(top) then
        var p := Applied(top, numbers);
        var below := operators[..|operators| - 1];
        match p.value
        case Err(h) => Reduced(p.rest, below, Err(h))
        case Ok(v) =>
          var r := Reduce(op, p.rest + [v], below);
          assert below[..|r.operators|] == operators[..|r.operators|];
          r
      else Reduced(numbers, operators, Ok(()))
  }

  /** `append_operator`: refused where a number is expected; otherwise the
      reduction loop, and after it `op` is pushed and a number is expected
      again. A failure inside the loop leaves the stacks as the loop left
      them. */
  function AppendOperatorSpec(st: CalcState, op: Operator): (o: Outcome)
    ensures st.canAcceptNumber ==> o == Outcome(st, Err(Refused(UnExpectedOperator)))
    ensures o.status.Ok? ==>
              o.state.canAcceptNumber && o.state.operators != [] && o.state.operators[|o.state.operators| - 1] == op
  {
    if st.canAcceptNumber then Outcome(st, Err(Refused(UnExpectedOperator)))
    else
      var r := Reduce(op, st.numbers, st.operators);
      if r.status.Err? then Outcome(CalcState(r.numbers, r.operators, false), r.status)
      else Outcome(CalcState(r.numbers, r.operators + [op], true), Ok(()))
  }

  /** The state after `get_final_result` and what it returned. */
  datatype Final = Final(state: CalcState, result: Result<int, Halt>)

  /** `get_final_result`: push `Eval`, then succeed with the only number
      exactly when one number and one `Eval`-priority operator remain. */
  function FinalResultSpec(st: CalcState): (f: Final)
    ensures f.state == AppendOperatorSpec(st, Eval).state
    ensures f.result.Ok? <==>
              AppendOperatorSpec(st, Eval).status.Ok? && |f.state.numbers| == 1 && f.state.operators == [Eval]
    ensures f.result.Ok? ==> f.result.value == f.state.numbers[0]
    ensures f.result.Err? && AppendOperatorSpec(st, Eval).status.Ok? ==> f.result == Err(Refused(InvalidExpression))
  {
    var o := AppendOperatorSpec(st, Eval);
    if o.status.Err? then Final(o.state, Err(o.status.error))
    else
      var s := o.state;
      if |s.numbers| != 1 || |s.operators| != 1 || !SamePriority(s.operators[0], Eval) then
        Final(s, Err(Refused(InvalidExpression)))
      else Final(s, Ok(s.numbers[0]))
  }

  /** Operator priorities strictly increase from the bottom of the stack to
      its top. */
  predicate Increasing(operators: seq<Operator>)
  {
    forall i, j :: 0 <= i < j < |operators| ==> Priority(operators[i]) < Priority(operators[j])
  }

  /** The calculator's invariant: one number more than operators while an
      operator is expected, as many while a number is expected, and
      strictly increasing operator priorities. */
  predicate Valid(st: CalcState)
  {
    |st.numbers| == |st.operators| + (if st.canAcceptNumber then 0 else 1)
    && Increasing(st.operators)
  }

  lemma InitialValid()
    ensures Valid(Initial)
  {
  }

  /** The reduction loop over stacks with one number more than operators
      never runs short of numbers and never finds both stacks empty: it
      ends normally or on an arithmetic panic. Ending normally, it keeps
      the balance and the ordering of the stacks. `Eval` may sit at the
      bottom of the stack, but then `op` must not be `Eval`, which would
      pop it with a single number and upset the balance. */
  lemma {:induction false} ReduceBalanced(op: Operator, numbers: seq<int>, operators: seq<Operator>)
    requires |numbers| == |operators| + 1 && Increasing(operators)
    requires op != Eval || Eval !in operators
    ensures var r := Reduce(op, numbers, operators);
      (r.status.Ok? || r.status.error.Panicked?)
      && (r.status.Ok? ==> |r.numbers| == |r.operators| + 1 && Increasing(r.operators))
    decreases |operators|
  {
    if operators != [] {
      var top := operators[|operators| - 1];
      if Priority(op) <= Priority(top) {
        var p := Applied(top, numbers);
        var below := operators[..|operators| - 1];
        if p.value.Ok? {
          assert Eval in operators ==> Eval in below by {
            if Eval in operators {
              var k :| 0 <= k < |operators| && operators[k] == Eval;
              assert k < |operators| - 1;
              assert below[k] == Eval;
            }
          }
          ReduceBalanced(op, p.rest + [p.value.value], below);
        }
      }
    }
  }

  /** `append_operator` keeps the invariant and, on a valid calculator,
      only ever refuses an operator where a number is expected (leaving the
      state alone): `MoreParamRequired` and the empty-stack refusal are
      unreachable. The proviso excludes a second `Eval`, which only a
      calculator reused after `get_final_result` could receive. */
  lemma AppendOperatorKeepsValid(st: CalcState, op: Operator)
    requires Valid(st)
    requires op != Eval || Eval !in st.operators
    ensures var o := AppendOperatorSpec(st, op);
      (o.status.Ok? ==> Valid(o.state))
      && (o.status.Err? ==> o.status.error.Panicked? || (st.canAcceptNumber && o.state == st))
  {
    if !st.canAcceptNumber {
      ReduceBalanced(op, st.numbers, st.operators);
      var r := Reduce(op, st.numbers, st.operators);
      if r.status.Ok? {
        var ops := r.operators + [op];
        forall i, j | 0 <= i < j < |ops|
          ensures Priority(ops[i]) < Priority(ops[j])
        {
          if j == |ops| - 1 && i < j - 1 {
            assert Priority(ops[i]) < Priority(ops[j - 1]);
          }
        }
      }
    }
  }

  /** `append_number` keeps the invariant. */
  lemma AppendNumberKeepsValid(st: CalcState, n: int)
    requires Valid(st)
    ensures Valid(AppendNumberSpec(st, n).state)
  {
  }

  /** On a valid calculator that has just received a number and holds no
      `Eval`, `get_final_result` reduces every operator and returns a
      value unless the arithmetic panics. */
  lemma FinalResultOfValid(st: CalcState)
    requires Valid(st) && !st.canAcceptNumber && Eval !in st.operators
    ensures var f := FinalResultSpec(st);
      f.result.Ok? || f.result.error.Panicked?
  {
    ReduceBalanced(Eval, st.numbers, st.operators);
  }

  /** An independent reading of a stack segment `n0 o1 n1 ... ok nk`: the
      operators applied from the top of the stack down, each to the number
      below it and the value of everything above it, with the first
      arithmetic panic met on the way. */
  function Grouped(numbers: seq<int>, operators: seq<Operator>): (r: Result<int, Halt>)
    requires |numbers| == |operators| + 1 && Eval !in operators
    ensures r.Err? ==> r.error.Panicked?
    ensures operators == [] ==> r == Ok(numbers[0])
    decreases |operators|
  {
    if operators == [] then Ok(numbers[0])
    else
      match Grouped(numbers[1..], operators[1..])
      case Err(h) => Err(h)
      case Ok(v) =>
        match CheckedInt(IntOpOf(operators[0]), numbers[0], v, I128)
        case Ok(w) => Ok(w)
        case Err(f) => Err(Panicked(f))
  }

  /** Replacing the two top numbers of a segment by the value of its top
      operator on them leaves the segment's value unchanged. */
  lemma {:induction false} GroupedCollapseTop(numbers: seq<int>, operators: seq<Operator>, v: int)
    requires |numbers| == |operators| + 1 && |operators| >= 1 && Eval !in operators
    requires CheckedInt(IntOpOf(operators[|operators| - 1]), numbers[|numbers| - 2], numbers[|numbers| - 1], I128) == Ok(v)
    ensures Grouped(numbers[..|numbers| - 2] + [v], operators[..|operators| - 1]) == Grouped(numbers, operators)
    decreases |operators|
  {
    var n := |numbers|;
    if |operators| > 1 {
      var tail := numbers[1..];
      assert tail[..|tail| - 2] + [v] == (numbers[..n - 2] + [v])[1..];
      assert operators[1..][..|operators| - 2] == operators[..|operators| - 1][1..];
      GroupedCollapseTop(tail, operators[1..], v);
    } else {
      assert numbers[..n - 2] + [v] == [v];
    }
  }

  /** `r` ended the reduction of a balanced stack by popping exactly the
      operators above its stopping point and evaluating that top segment
      as `Grouped` does: on success the segment's numbers are replaced by
      its value, and a panic is the first panic of that evaluation. */
  ghost predicate EvaluatesTop(numbers: seq<int>, operators: seq<Operator>, r: Reduced)
    requires |numbers| == |operators| + 1 && Eval !in operators && |r.operators| <= |operators|
  {
    var k := |r.operators|;
    (r.status.Ok? ==> |r.numbers| == k + 1 && r.numbers[..k] == numbers[..k]
                      && Grouped(numbers[k..], operators[k..]) == Ok(r.numbers[k]))
    && (r.status.Err? ==> Grouped(numbers[k..], operators[k..]) == Err(r.status.error))
  }

  /** A successful pop hands the collapsed stack to the rest of the loop. */
  lemma ReducePops(op: Operator, numbers: seq<int>, operators: seq<Operator>, v: int)
    requires |numbers| == |operators| + 1 && |operators| >= 1 && Eval !in operators
    requires Priority(op) <= Priority(operators[|operators| - 1])
    requires CheckedInt(IntOpOf(operators[|operators| - 1]), numbers[|numbers| - 2], numbers[|numbers| - 1], I128) == Ok(v)
    ensures Reduce(op, numbers, operators) == Reduce(op, numbers[..|numbers| - 2] + [v], operators[..|operators| - 1])
  {
    assert Applied(operators[|operators| - 1], numbers) == Popped(numbers[..|numbers| - 2], Ok(v));
  }

  /** One successful pop: what the rest of the loop does to the collapsed
      stack is what the whole loop does to the original one. */
  lemma ReducePopStep(op: Operator, numbers: seq<int>, operators: seq<Operator>, v: int)
    requires |numbers| == |operators| + 1 && |operators| >= 1 && Eval !in operators
    requires Priority(op) <= Priority(operators[|operators| - 1])
    requires CheckedInt(IntOpOf(operators[|operators| - 1]), numbers[|numbers| - 2], numbers[|numbers| - 1], I128) == Ok(v)
    requires EvaluatesTop(numbers[..|numbers| - 2] + [v], operators[..|operators| - 1],
                          Reduce(op, numbers[..|numbers| - 2] + [v], operators[..|operators| - 1]))
    ensures EvaluatesTop(numbers, operators, Reduce(op, numbers, operators))
  {
    var n := |numbers|;
    var below := operators[..|operators| - 1];
    var ns := numbers[..n - 2] + [v];
    ReducePops(op, numbers, operators, v);
    var r := Reduce(op, ns, below);
    var k := |r.operators|;
    assert k <= n - 2;
    var segN, segO := numbers[k..], operators[k..];
    assert Eval !in segO by {
      assert forall x :: x in segO ==> x in operators;
    }
    assert segO[|segO| - 1] == operators[|operators| - 1];
    assert segN[|segN| - 2] == numbers[n - 2] && segN[|segN| - 1] == numbers[n - 1];
    assert segN[..|segN| - 2] + [v] == ns[k..];
    assert segO[..|segO| - 1] == below[k..];
    GroupedCollapseTop(segN, segO, v);
    assert ns[..k] == numbers[..k];
    EvaluatesTopTransfer(numbers, operators, ns, below, r);
  }

  /** Two balanced stacks that agree below position `k` and whose segments
      above it have the same value are evaluated alike by a reduction that
      stops at `k`. */
  lemma EvaluatesTopTransfer(numbers: seq<int>, operators: seq<Operator>, ns: seq<int>, below: seq<Operator>, r: Reduced)
    requires |numbers| == |operators| + 1 && Eval !in operators
    requires |ns| == |below| + 1 && Eval !in below
    requires |r.operators| <= |below| && |r.operators| <= |operators|
    requires ns[..|r.operators|] == numbers[..|r.operators|]
    requires Grouped(ns[|r.operators|..], below[|r.operators|..]) == Grouped(numbers[|r.operators|..], operators[|r.operators|..])
    requires EvaluatesTop(ns, below, r)
    ensures EvaluatesTop(numbers, operators, r)
  {
  }

  /** The reduction loop over a balanced stack evaluates its top segment. */
  lemma {:induction false} ReduceEvaluatesTop(op: Operator, numbers: seq<int>, operators: seq<Operator>)
    requires |numbers| == |operators| + 1 && Eval !in operators
    ensures EvaluatesTop(numbers, operators, Reduce(op, numbers, operators))
    decreases |operators|
  {
    if operators != [] && Priority(op) <= Priority(operators[|operators| - 1]) {
      var m := |operators| - 1;
      var n := |numbers|;
      var c := CheckedInt(IntOpOf(operators[m]), numbers[n - 2], numbers[n - 1], I128);
      if c.Ok? {
        ReduceEvaluatesTop(op, numbers[..n - 2] + [c.value], operators[..m]);
        ReducePopStep(op, numbers, operators, c.value);
      } else {
        assert numbers[m..][1..] == [numbers[n - 1]];
        assert operators[m..] == [operators[m]];
      }
    }
  }

  /** On a valid calculator that has just received a number, the final
      result is the value of the whole stack read as `Grouped` does:
      operators of strictly increasing priority are applied from the top
      down, so each is applied before every weaker one below it. */
  lemma FinalResultIsGrouped(st: CalcState)
    requires Valid(st) && !st.canAcceptNumber && Eval !in st.operators
    ensures FinalResultSpec(st).result == Grouped(st.numbers, st.operators)
  {
    ReduceEvaluatesTop(Eval, st.numbers, st.operators);
    ReduceBalanced(Eval, st.numbers, st.operators);
    var r := Reduce(Eval, st.numbers, st.operators);
    var k := |r.operators|;
    if r.status.Ok? {
      assert r.operators == [];
      assert st.numbers[0..] == st.numbers && st.operators[0..] == st.operators;
      assert Grouped(st.numbers, st.operators) == Ok(r.numbers[0]);
    } else {
      GroupedPanicSpreads(st.numbers, st.operators, k);
    }
  }

  /** A panic in the top part of a segment is the panic of the whole
      segment. */
  lemma {:induction false} GroupedPanicSpreads(numbers: seq<int>, operators: seq<Operator>, k: nat)
    requires |numbers| == |operators| + 1 && Eval !in operators && k <= |operators|
    requires Grouped(numbers[k..], operators[k..]).Err?
    ensures Grouped(numbers, operators) == Grouped(numbers[k..], operators[k..])
    decreases k
  {
    if k > 0 {
      assert numbers[1..][k - 1..] == numbers[k..] && operators[1..][k - 1..] == operators[k..];
      GroupedPanicSpreads(numbers[1..], operators[1..], k - 1);
    }
  }

  /** The mutable calculator. */
  class Calculator {
    var numbers: seq<int>
    var operators: seq<Operator>
    var canAcceptNumber: bool

    function State(): CalcState
      reads this
    {
      CalcState(numbers, operators, canAcceptNumber)
    }

    /** `Calculator::default`. */
    constructor ()
      ensures State() == Initial
    {
      numbers := [];
      operators := [];
      canAcceptNumber := true;
    }

    /** `Operator::calculate` on this calculator's number stack. */
    method Calculate(op: Operator) returns (r: Result<int, Halt>)
      modifies this
      ensures numbers == Applied(op, old(numbers)).rest && r == Applied(op, old(numbers)).value
      ensures operators == old(operators) && canAcceptNumber == old(canAcceptNumber)
    {
      if !IsParamEnough(op, |numbers|) {
        return Err(Refused(MoreParamRequired));
      }
      if op == Eval {
        var top := numbers[|numbers| - 1];
        numbers := numbers[..|numbers| - 1];
        return Ok(top);
      }
      var right := numbers[|numbers| - 1];
      numbers := numbers[..|numbers| - 1];
      var left := numbers[|numbers| - 1];
      numbers := numbers[..|numbers| - 1];
      match CheckedInt(IntOpOf(op), left, right, I128)
      case Ok(v) => r := Ok(v);
      case Err(f) => r := Err(Panicked(f));
    }

    /** `Calculator::append_number`. */
    method AppendNumber(n: int) returns (r: Result<(), Halt>)
      modifies this
      ensures State() == AppendNumberSpec(old(State()), n).state
      ensures r == AppendNumberSpec(old(State()), n).status
    {
      if canAcceptNumber {
        numbers := numbers + [n];
        canAcceptNumber := false;
        return Ok(());
      }
      return Err(Refused(UnExpectedNumber));
    }

    /** `Calculator::append_operator`: the pop-reduce loop, then the push. */
    method AppendOperator(op: Operator) returns (r: Result<(), Halt>)
      modifies this
      ensures State() == AppendOperatorSpec(old(State()), op).state
      ensures r == AppendOperatorSpec(old(State()), op).status
    {
      if canAcceptNumber {
        return Err(Refused(UnExpectedOperator));
      }
      ghost var goal := Reduce(op, numbers, operators);
      while true
        invariant !canAcceptNumber
        invariant Reduce(op, numbers, operators) == goal
        invariant goal == Reduce(op, old(numbers), old(operators))
        decreases |operators|
      {
        if operators == [] {
          if numbers == [] {
            return Err(Refused(UnExpectedOperator));
          }
          break;
        }
        var top := operators[|operators| - 1];
        if Priority(op) <= Priority(top) {
          operators := operators[..|operators| - 1];
          var v := Calculate(top);
          if v.Err? {
            return Err(v.error);
          }
          numbers := numbers + [v.value];
        } else {
          break;
        }
      }
      operators := operators + [op];
      canAcceptNumber := true;
      return Ok(());
    }

    /** `Calculator::get_final_result`. */
    method GetFinalResult() returns (r: Result<int, Halt>)
      modifies this
      ensures State() == FinalResultSpec(old(State())).state
      ensures r == FinalResultSpec(old(State())).result
    {
      var pushed := AppendOperator(Eval);
      if pushed.Err? {
        return Err(pushed.error);
      }
      if |numbers| != 1 || |operators| != 1 || !SamePriority(operators[|operators| - 1], Eval) {
        return Err(Refused(InvalidExpression));
      }
      return Ok(numbers[0]);
    }
  }

  /** The calculator's worked example, `8 + 2 - 4 * 5 / 2`, step by step
      (this lemma and the four after it): a second number or a second
      operator in a row is refused and changes nothing, and `+` waits for
      `2`. */
  lemma ExampleFirstSteps()
    ensures AppendNumberSpec(CalcState([8], [], false), 8) == Outcome(CalcState([8], [], false), Err(Refused(UnExpectedNumber)))
    ensures AppendOperatorSpec(CalcState([8], [], false), Add) == Outcome(CalcState([8], [Add], true), Ok(()))
    ensures AppendOperatorSpec(CalcState([8], [Add], true), Add) == Outcome(CalcState([8], [Add], true), Err(Refused(UnExpectedOperator)))
  {
    assert Reduce(Add, [8], []) == Reduced([8], [], Ok(()));
  }

  /** `-` reduces `8 + 2`. */
  lemma ExampleMinus()
    ensures AppendOperatorSpec(CalcState([8, 2], [Add], false), Subtract) == Outcome(CalcState([10], [Subtract], true), Ok(()))
  {
    assert Applied(Add, [8, 2]) == Popped([], Ok(10));
    assert Reduce(Subtract, [10], []) == Reduced([10], [], Ok(()));
    assert Reduce(Subtract, [8, 2], [Add]) == Reduced([10], [], Ok(()));
  }

  /** `*` is pushed above `-` without reducing it. */
  lemma ExampleTimes()
    ensures AppendOperatorSpec(CalcState([10, 4], [Subtract], false), Multiply)
         == Outcome(CalcState([10, 4], [Subtract, Multiply], true), Ok(()))
  {
  }

  /** `/` reduces `4 * 5` and stops at `-`. */
  lemma ExampleDivide()
    ensures AppendOperatorSpec(CalcState([10, 4, 5], [Subtract, Multiply], false), Divide)
         == Outcome(CalcState([10, 20], [Subtract, Divide], true), Ok(()))
  {
    assert Applied(Multiply, [10, 4, 5]) == Popped([10], Ok(20));
  }

  /** The final `Eval` reduces `20 / 2`, then `10 - 10`: the result is 0. */
  lemma ExampleFinal()
    ensures FinalResultSpec(CalcState([10, 20, 2], [Subtract, Divide], false)) == Final(CalcState([0], [Eval], true), Ok(0))
  {
    assert Applied(Divide, [10, 20, 2]) == Popped([10], Ok(10));
    assert Applied(Subtract, [10, 10]) == Popped([], Ok(0));
    assert Reduce(Eval, [0], []) == Reduced([0], [], Ok(()));
    assert Reduce(Eval, [10, 10], [Subtract]) == Reduced([0], [], Ok(()));
  }

  /** An item of the token stream. */
  datatype Item = Number(n: int) | Op(op: Operator)

  /** `num`: a run of digits (no sign) read as an `i128`; the `unwrap` of
      the conversion panics on a run too large for `i128`. */
  function NumToken(s: string): (r: PResult<Item>)
    ensures r.Done? ==>
              |r.rest| < |s| && r.rest == s[|s| - |r.rest|..] && r.value.Number? && 0 <= r.value.n <= MaxOf(I128)
    ensures r.Error? <==> s == [] || !IsDigit(s[0])
  {
    var n := DigitsEnd(s, 0);
    if n == 0 then Error([])
    else
      DigitsEndPrefix(s);
      var v := DecimalValue(s[..n]);
      if v > MaxOf(I128) then Panic else Done(s[n..], Number(v))
  }

  /** `num` reads an unsigned run of digits only: a leading `+` or `-` is
      not part of a number, so `"+123"` and `"-123"` are not numbers (the
      sign is left to `operator`). */
  lemma UnsignedNumbers()
    ensures NumToken("123") == Done("", Number(123))
    ensures NumToken("+123").Error? && NumToken("-123").Error?
  {
    DigitsEndAt("123", 0, 3);
    assert "123"[..3] == "123" && "123"[..2] == "12" && "12"[..1] == "1" && "1"[..0] == "";
    assert DecimalValue("123") == 123;
  }

  /** `operator`: one of `+ - * /`. */
  function OperatorToken(s: string): (r: PResult<Item>)
    ensures r.Done? ==> s != [] && r.rest == s[1..] && r.value.Op? && r.value.op != Eval
    ensures r.Error? <==> !(s != [] && s[0] in "+-*/")
    ensures !r.Failure? && !r.Panic?
  {
    if s == [] then Error([])
    else if s[0] == '+' then Done(s[1..], Op(Add))
    else if s[0] == '-' then Done(s[1..], Op(Subtract))
    else if s[0] == '*' then Done(s[1..], Op(Multiply))
    else if s[0] == '/' then Done(s[1..], Op(Divide))
    else Error([])
  }

  /** What `parse` ends with: the unread input and the calculator, or an
      abort by a panic (a number too large, or an `unwrap` of a refusal). */
  datatype Folded = Stopped(rest: string, state: CalcState) | Aborted

  /** Feeding one item to the calculator, as `parse`'s fold does. */
  function Feed(st: CalcState, item: Item): (o: Outcome)
    ensures o.status.Ok? ==> o.state.canAcceptNumber == item.Op?
    ensures item.Number? && o.status.Ok? ==> o.state.numbers == st.numbers + [item.n]
    ensures st.canAcceptNumber != item.Number? ==>
              o == Outcome(st, Err(Refused(if item.Number? then UnExpectedNumber else UnExpectedOperator)))
  {
    match item
    case Number(n) => AppendNumberSpec(st, n)
    case Op(op) => AppendOperatorSpec(st, op)
  }

  /** The `fold_many0` of `parse` from calculator `st`: read a number or
      else an operator and feed it, until neither matches; a refused item
      aborts. */
  function ParseFrom(s: string, st: CalcState): (r: Folded)
    ensures r.Stopped? ==> |r.rest| <= |s|
    ensures r.Stopped? ==> r.rest == [] || !(IsDigit(r.rest[0]) || r.rest[0] in "+-*/")
    ensures s == [] ==> r == Stopped([], st)
    decreases |s|
  {
    var n := NumToken(s);
    var t := if n.Error? then OperatorToken(s) else n;
    match t
    case Done(rest, item) =>
      var o := Feed(st, item);
      if o.status.Err? then Aborted
      else ParseFrom(rest, o.state)
    case Panic => Aborted
    case Error(_) => Stopped(s, st)
    case Failure(_) => Aborted
  }

  /** `parse`: the fold from a fresh calculator. */
  function Parse(s: string): (r: Folded)
    ensures r.Stopped? ==> |r.rest| <= |s|
    ensures r.Stopped? ==> r.rest == [] || !(IsDigit(r.rest[0]) || r.rest[0] in "+-*/")
  {
    ParseFrom(s, Initial)
  }

  /** Whatever `parse` feeds a calculator keeps it valid: items come from
      `num` and `operator`, never `Eval`. */
  lemma {:induction false} ParseKeepsValid(s: string, st: CalcState)
    requires Valid(st) && Eval !in st.operators
    ensures ParseFrom(s, st).Stopped? ==> Valid(ParseFrom(s, st).state) && Eval !in ParseFrom(s, st).state.operators
    decreases |s|
  {
    var n := NumToken(s);
    var t := if n.Error? then OperatorToken(s) else n;
    if t.Done? {
      var o := Feed(st, t.value);
      if o.status.Ok? {
        if t.value.Number? {
          AppendNumberKeepsValid(st, t.value.n);
        } else {
          AppendOperatorKeepsValid(st, t.value.op);
          ReduceNoEval(t.value.op, st.numbers, st.operators);
        }
        ParseKeepsValid(t.rest, o.state);
      }
    }
  }

  /** The reduction loop only pops, so it adds no `Eval`. */
  lemma ReduceNoEval(op: Operator, numbers: seq<int>, operators: seq<Operator>)
    requires Eval !in operators
    ensures Eval !in Reduce(op, numbers, operators).operators
  {
  }

  /** A lone digit before a non-digit is one number token fed to the
      calculator; a refusal aborts the parse. */
  lemma DigitStep(s: string, st: CalcState)
    requires |s| >= 1 && IsDigit(s[0]) && (|s| == 1 || !IsDigit(s[1]))
    ensures ParseFrom(s, st)
         == if st.canAcceptNumber then ParseFrom(s[1..], CalcState(st.numbers + [s[0] as int - '0' as int], st.operators, false))
            else Aborted
  {
    DigitsEndAt(s, 0, 1);
    assert s[..1][..0] == [];
    assert DecimalValue(s[..1]) == s[0] as int - '0' as int;
    assert NumToken(s) == Done(s[1..], Number(s[0] as int - '0' as int));
  }

  /** An operator character is one operator token fed to the calculator; a
      refusal or a panic aborts the parse. */
  lemma OperatorStep(s: string, st: CalcState)
    requires |s| >= 1 && s[0] in "+-*/"
    ensures var o := AppendOperatorSpec(st, OperatorToken(s).value.op);
      ParseFrom(s, st) == if o.status.Err? then Aborted else ParseFrom(s[1..], o.state)
  {
    assert NumToken(s).Error?;
  }
}
