/** The first, `i32`-only calculator parser (`library/calc/src/parser.rs`):
    unsigned `i32` literals, parentheses, `*` `/` over `+` `-`, and a
    post-order evaluator with `i32` arithmetic. As written, both folds
    start from `Num(0)` instead of the operand parsed before them; `Seed`
    selects that behaviour or the evidently intended one. */
module Prototype {
  import opened Common
  import opened Numeric
  import opened Combinators
  import opened TreeParser

  /** `Expr` of the prototype: an `i32` literal or a binary node. */
  datatype Tree = Num(n: int) | Bin(op: IntOp, lhs: Tree, rhs: Tree)

  /** What a fold starts from: `Zero` is `Num(0)`, as written;
      `FirstOperand` is the operand parsed just before the fold. */
  datatype Seed = Zero | FirstOperand

  /** The accumulator a fold starts from, given the operand before it. */
  function Start(seed: Seed, first: Tree): Tree
  {
    match seed
    case Zero => Num(0)
    case FirstOperand => first
  }

  /** `eval`: the left child, the right child, then the `i32` operation;
      overflow and division by zero panic. */
  function Eval(t: Tree): (r: Result<int, Fault>)
    ensures r.Ok? && t.Bin? ==> InRange(r.value, I32)
  {
    match t
    case Num(n) => Ok(n)
    case Bin(op, l, rt) =>
      match Eval(l)
      case Err(f) => Err(f)
      case Ok(a) =>
        match Eval(rt)
        case Err(f) => Err(f)
        case Ok(b) => CheckedInt(op, a, b, I32)
  }

  /** `parse_num`: blanks, a digit run read as an `i32`, blanks. A missing
      digit run or a value above `i32::MAX` is a recoverable error. */
  function ParseNum(s: string): (r: PResult<Tree>)
    ensures r.Done? ==> SuffixOf(r.rest, s) && r.value.Num? && 0 <= r.value.n <= MaxOf(I32)
    ensures r.Done? || r.Error?
  {
    var w := SkipBlanks(s);
    var n := DigitsEnd(w, 0);
    if n == 0 then Error([])
    else
      DigitsEndPrefix(w);
      var v := DecimalValue(w[..n]);
      if v > MaxOf(I32) then Error([])
      else
        SuffixTrans(w[n..], w, s);
        SuffixTrans(SkipBlanks(w[n..]), w[n..], s);
        Done(SkipBlanks(w[n..]), Num(v))
  }

  /** A tree every Zero-seeded parse produces: its leftmost leaf is
      `Num(0)`, the right operand of `+` and `-` is again such a tree, and
      the right operand of `*` and `/` is an `i32` literal or such a tree. */
  predicate ZeroTree(t: Tree)
  {
    match t
    case Num(n) => n == 0
    case Bin(op, l, rt) =>
      ZeroTree(l)
      && (if op == Plus || op == Minus then ZeroTree(rt) else (rt.Num? && InRange(rt.n, I32)) || ZeroTree(rt))
  }

  /** A factor of a Zero-seeded parse: an `i32` literal or a parenthesised
      Zero-seeded expression. */
  predicate Operand(t: Tree)
  {
    (t.Num? && InRange(t.n, I32)) || ZeroTree(t)
  }

  /** The leftmost leaf of a tree: the first operand of a left fold. */
  function Leftmost(t: Tree): (r: Tree)
    ensures r.Num?
  {
    match t
    case Num(_) => t
    case Bin(_, l, _) => Leftmost(l)
  }

  /** What every parser of this module guarantees: only recoverable errors
      occur, and a success leaves a suffix of its input. */
  predicate Sound(r: PResult<Tree>, s: string)
  {
    (r.Done? || r.Error?)
    && (r.Done? ==> SuffixOf(r.rest, s))
  }

  /** `parse_parens`: `(`, an expression and `)`, each bracket with blanks
      around it. */
  function ParseParens(seed: Seed, s: string): (r: PResult<Tree>)
    ensures Sound(r, s)
    ensures r.Done? && seed == Zero ==> ZeroTree(r.value)
    decreases |s|, 0
  {
    match Bracket(s, '(')
    case None => Error([])
    case Some(inner) =>
      var e := ParseExpr(seed, inner);
      if !e.Done? then e
      else
        match Bracket(e.rest, ')')
        case None => Error([])
        case Some(v) =>
          SuffixTrans(e.rest, inner, s);
          SuffixTrans(v, e.rest, s);
          Done(v, e.value)
  }

  /** `parse_factor`: a number, or else a parenthesised expression. */
  function ParseFactor(seed: Seed, s: string): (r: PResult<Tree>)
    ensures Sound(r, s)
    ensures r.Done? && seed == Zero ==> Operand(r.value)
    decreases |s|, 1
  {
    var n := ParseNum(s);
    if n.Error? then ParseParens(seed, s) else n
  }

  /** The operator at the head of the input that the term fold accepts. */
  function TermOpAt(s: string): (op: Option<IntOp>)
    ensures op.Some? ==> s != [] && (op.value == Times || op.value == Quot)
  {
    if s != [] && s[0] == '*' then Some(Times)
    else if s != [] && s[0] == '/' then Some(Quot)
    else None
  }

  /** The operator at the head of the input that the expression fold
      accepts. */
  function ExprOpAt(s: string): (op: Option<IntOp>)
    ensures op.Some? ==> s != [] && (op.value == Plus || op.value == Minus)
  {
    if s != [] && s[0] == '+' then Some(Plus)
    else if s != [] && s[0] == '-' then Some(Minus)
    else None
  }

  /** The `fold_many0` of `parse_term`: `*` or `/` and a factor extend the
      accumulator as its new left child; an error in the factor ends the
      fold before the operator. */
  function FoldTerm(seed: Seed, s: string, acc: Tree): (r: PResult<Tree>)
    ensures Sound(r, s)
    ensures r.Done? ==> Leftmost(r.value) == Leftmost(acc)
    ensures r.Done? && seed == Zero && ZeroTree(acc) ==> ZeroTree(r.value)
    decreases |s|, 2
  {
    match TermOpAt(s)
    case None => Done(s, acc)
    case Some(op) =>
      var f := ParseFactor(seed, s[1..]);
      if !f.Done? then Done(s, acc)
      else
        SuffixTrans(f.rest, s[1..], s);
        var r := FoldTerm(seed, f.rest, Bin(op, acc, f.value));
        if r.Done? then
          SuffixTrans(r.rest, f.rest, s);
          r
        else r
  }

  /** `parse_term`: a factor, then the term fold started from `seed`. */
  function ParseTerm(seed: Seed, s: string): (r: PResult<Tree>)
    ensures Sound(r, s)
    ensures r.Done? && seed == Zero ==> ZeroTree(r.value)
    ensures r.Done? && seed == FirstOperand ==>
      ParseFactor(seed, s).Done? && Leftmost(r.value) == Leftmost(ParseFactor(seed, s).value)
    decreases |s|, 3
  {
    var f := ParseFactor(seed, s);
    if !f.Done? then f
    else
      var r := FoldTerm(seed, f.rest, Start(seed, f.value));
      if r.Done? then
        SuffixTrans(r.rest, f.rest, s);
        r
      else r
  }

  /** The `fold_many0` of `parse_expr`: `+` or `-` and a term extend the
      accumulator. */
  function FoldExpr(seed: Seed, s: string, acc: Tree): (r: PResult<Tree>)
    ensures Sound(r, s)
    ensures r.Done? ==> Leftmost(r.value) == Leftmost(acc)
    ensures r.Done? && seed == Zero && ZeroTree(acc) ==> ZeroTree(r.value)
    decreases |s|, 4
  {
    match ExprOpAt(s)
    case None => Done(s, acc)
    case Some(op) =>
      var t := ParseTerm(seed, s[1..]);
      if !t.Done? then Done(s, acc)
      else
        SuffixTrans(t.rest, s[1..], s);
        var r := FoldExpr(seed, t.rest, Bin(op, acc, t.value));
        if r.Done? then
          SuffixTrans(r.rest, t.rest, s);
          r
        else r
  }

  /** `parse_expr`: a term, then the expression fold started from `seed`.
      Input after the last term is returned with the tree. */
  function ParseExpr(seed: Seed, s: string): (r: PResult<Tree>)
    ensures Sound(r, s)
    ensures r.Done? && seed == Zero ==> ZeroTree(r.value)
    ensures r.Done? && seed == FirstOperand ==>
      ParseTerm(seed, s).Done? && Leftmost(r.value) == Leftmost(ParseTerm(seed, s).value)
    decreases |s|, 5
  {
    var t := ParseTerm(seed, s);
    if !t.Done? then t
    else
      var r := FoldExpr(seed, t.rest, Start(seed, t.value));
      if r.Done? then
        SuffixTrans(r.rest, t.rest, s);
        r
      else r
  }

  /** A Zero-seeded tree evaluates to 0, or panics, and then only by a
      division by zero: its left operands are all 0, so no operation can
      overflow. */
  lemma {:induction false} ZeroTreeEvaluatesToZero(t: Tree)
    requires ZeroTree(t)
    ensures Eval(t) == Ok(0) || Eval(t) == Err(DivideByZero)
  {
    match t
    case Num(_) =>
    case Bin(op, l, rt) =>
      ZeroTreeEvaluatesToZero(l);
      if ZeroTree(rt) {
        ZeroTreeEvaluatesToZero(rt);
      }
      if Eval(l) == Ok(0) && Eval(rt).Ok? && op == Quot && Eval(rt).value != 0 {
        ZeroQuotient(Eval(rt).value);
      }
  }

  /** Zero divided by anything non-zero is zero. */
  lemma ZeroQuotient(b: int)
    requires b != 0
    ensures TruncDiv(0, b) == 0
  {
  }

  /** Whatever the input, the prototype as written computes 0 when it
      computes anything: every tree it parses evaluates to 0 or panics on a
      division by zero. */
  lemma ParsedValueIsZero(s: string)
    requires ParseExpr(Zero, s).Done?
    ensures var v := Eval(ParseExpr(Zero, s).value);
      v == Ok(0) || v == Err(DivideByZero)
  {
    ZeroTreeEvaluatesToZero(ParseExpr(Zero, s).value);
  }

  /** A lone literal `v` (blanks around it, nothing but a non-operator
      after it) parses, as written, to `Num(0)`, which evaluates to 0 even
      when `v` is not 0; with the first operand as the seed it parses to
      `Num(v)`. */
  lemma LoneLiteral(seed: Seed, s: string, b: nat, i: nat)
    requires b < i <= |s| && AllBlank(s[..b]) && AllDigits(s[b..i])
    requires i == |s| || !IsDigit(s[i])
    requires DecimalValue(s[b..i]) <= MaxOf(I32)
    requires var r := SkipBlanks(s[i..]); TermOpAt(r) == None && ExprOpAt(r) == None
    ensures ParseExpr(seed, s) == Done(SkipBlanks(s[i..]),
      if seed == Zero then Num(0) else Num(DecimalValue(s[b..i])))
  {
    var r, v := SkipBlanks(s[i..]), Num(DecimalValue(s[b..i]));
    LiteralNum(s, b, i);
    assert ParseFactor(seed, s) == Done(r, v);
    FoldTermStops(seed, r, Start(seed, v));
    assert ParseTerm(seed, s) == Done(r, Start(seed, v));
    FoldExprStops(seed, r, Start(seed, v));
  }

  /** `parse_num` on blanks, an `i32` digit run and a non-digit. */
  lemma LiteralNum(s: string, b: nat, i: nat)
    requires b < i <= |s| && AllBlank(s[..b]) && AllDigits(s[b..i])
    requires i == |s| || !IsDigit(s[i])
    requires DecimalValue(s[b..i]) <= MaxOf(I32)
    ensures ParseNum(s) == Done(SkipBlanks(s[i..]), Num(DecimalValue(s[b..i])))
  {
    var w, n := s[b..], i - b;
    SkipBlanksAt(s, b);
    SliceOfSlice(s, b, i);
    DigitsEndOf(w, n);
  }

  /** Without `*` or `/` at its head the term fold returns its accumulator. */
  lemma FoldTermStops(seed: Seed, s: string, acc: Tree)
    requires TermOpAt(s) == None
    ensures FoldTerm(seed, s, acc) == Done(s, acc)
  {
  }

  /** Without `+` or `-` at its head the expression fold returns its
      accumulator. */
  lemma FoldExprStops(seed: Seed, s: string, acc: Tree)
    requires ExprOpAt(s) == None
    ensures FoldExpr(seed, s, acc) == Done(s, acc)
  {
  }

  /** One step of the term fold: `*` or `/` and the factor after it become
      a node whose left child is the accumulator and whose right child is
      that factor. */
  lemma FoldTermStep(seed: Seed, s: string, acc: Tree)
    requires TermOpAt(s).Some? && ParseFactor(seed, s[1..]).Done?
    ensures var f := ParseFactor(seed, s[1..]);
      FoldTerm(seed, s, acc) == FoldTerm(seed, f.rest, Bin(TermOpAt(s).value, acc, f.value))
  {
  }

  /** An operator without a factor after it ends the term fold before the
      operator, which stays unread. */
  lemma FoldTermBacktracks(seed: Seed, s: string, acc: Tree)
    requires TermOpAt(s).Some? && !ParseFactor(seed, s[1..]).Done?
    ensures FoldTerm(seed, s, acc) == Done(s, acc)
  {
  }

  /** One step of the expression fold: `+` or `-` and the term after it
      become a node whose left child is the accumulator and whose right
      child is that term. */
  lemma FoldExprStep(seed: Seed, s: string, acc: Tree)
    requires ExprOpAt(s).Some? && ParseTerm(seed, s[1..]).Done?
    ensures var t := ParseTerm(seed, s[1..]);
      FoldExpr(seed, s, acc) == FoldExpr(seed, t.rest, Bin(ExprOpAt(s).value, acc, t.value))
  {
  }

  /** An operator without a term after it ends the expression fold before
      the operator, which stays unread. */
  lemma FoldExprBacktracks(seed: Seed, s: string, acc: Tree)
    requires ExprOpAt(s).Some? && !ParseTerm(seed, s[1..]).Done?
    ensures FoldExpr(seed, s, acc) == Done(s, acc)
  {
  }

  /** `a*b` for two `i32` digit runs: as written the term is
      `Mul(Num(0), b)`, the first factor being dropped, and the expression
      around it is `Num(0)`, the term being dropped in turn; seeded with
      the first operand both are `Mul(a, b)`. */
  lemma ProductOfLiterals(seed: Seed, a: string, b: string, x: string)
    requires |a| > 0 && AllDigits(a) && DecimalValue(a) <= MaxOf(I32)
    requires |b| > 0 && AllDigits(b) && DecimalValue(b) <= MaxOf(I32)
    requires x == [] || (!IsDigit(x[0]) && !IsBlank(x[0]))
    requires TermOpAt(x) == None
    ensures var t := Bin(Times, Start(seed, Num(DecimalValue(a))), Num(DecimalValue(b)));
      ParseTerm(seed, a + "*" + b + x) == Done(x, t)
      && (ExprOpAt(x) == None ==> ParseExpr(seed, a + "*" + b + x) == Done(x, Start(seed, t)))
  {
    var bx := b + x;
    var r, s := "*" + bx, a + "*" + b + x;
    assert s == a + r && r[1..] == bx;
    LiteralFactor(seed, a, r);
    LiteralFactor(seed, b, x);
    ProductRound(seed, s, r, Num(DecimalValue(a)), x, Num(DecimalValue(b)));
  }

  /** `parse_term` over a factor, `*`, a factor and no further operator. */
  lemma ProductRound(seed: Seed, s: string, r: string, va: Tree, x: string, vb: Tree)
    requires ParseFactor(seed, s) == Done(r, va)
    requires |r| > 0 && r[0] == '*' && ParseFactor(seed, r[1..]) == Done(x, vb)
    requires TermOpAt(x) == None
    ensures ParseTerm(seed, s) == Done(x, Bin(Times, Start(seed, va), vb))
    ensures ExprOpAt(x) == None ==> ParseExpr(seed, s) == Done(x, Start(seed, Bin(Times, Start(seed, va), vb)))
  {
    var t := Bin(Times, Start(seed, va), vb);
    FoldTermStep(seed, r, Start(seed, va));
    FoldTermStops(seed, x, t);
    TermRound(seed, s, r, va);
    TermThenExpr(seed, s, x, t);
  }

  /** `parse_term` unfolded: its factor, then the fold from the seed. */
  lemma TermRound(seed: Seed, s: string, r: string, v: Tree)
    requires ParseFactor(seed, s) == Done(r, v)
    ensures ParseTerm(seed, s) == FoldTerm(seed, r, Start(seed, v))
  {
  }

  /** A term that leaves no `+` or `-` is the expression, seeded. */
  lemma TermThenExpr(seed: Seed, s: string, x: string, t: Tree)
    requires ParseTerm(seed, s) == Done(x, t)
    ensures ExprOpAt(x) == None ==> ParseExpr(seed, s) == Done(x, Start(seed, t))
  {
    if ExprOpAt(x) == None {
      FoldExprStops(seed, x, Start(seed, t));
    }
  }

  /** An `i32` digit run followed by a non-digit, non-blank rest is a
      factor. */
  lemma LiteralFactor(seed: Seed, a: string, x: string)
    requires |a| > 0 && AllDigits(a) && DecimalValue(a) <= MaxOf(I32)
    requires x == [] || (!IsDigit(x[0]) && !IsBlank(x[0]))
    ensures ParseFactor(seed, a + x) == Done(x, Num(DecimalValue(a)))
  {
    var s := a + x;
    assert s[..|a|] == a && s[|a|..] == x && s[..0] == [];
    LiteralNum(s, 0, |a|);
    SkipBlanksAt(x, 0);
  }

  /** A bracketed expression is a factor: `(`, the tree the inner text
      parses to, `)`, and the blanks after it. */
  lemma ParenthesisedFactor(seed: Seed, u: string, e: Tree, x: string)
    requires ParseExpr(seed, SkipBlanks(u)) == Done(")" + x, e)
    ensures ParseParens(seed, "(" + u) == Done(SkipBlanks(x), e)
    ensures ParseFactor(seed, "(" + u) == Done(SkipBlanks(x), e)
  {
    OpeningBracket(u);
    ClosingBracket(x);
    NoNumberAtParen("(" + u);
    ParensRound(seed, "(" + u, SkipBlanks(u), ")" + x, SkipBlanks(x));
  }

  /** An expression after `(` that is not followed, past blanks, by `)` is
      a recoverable error of the bracketed factor. */
  lemma MissingClosingBracket(seed: Seed, u: string, e: Tree, x: string)
    requires ParseExpr(seed, SkipBlanks(u)) == Done(x, e)
    requires SkipBlanks(x) == [] || SkipBlanks(x)[0] != ')'
    ensures ParseParens(seed, "(" + u) == Error([])
    ensures ParseFactor(seed, "(" + u) == Error([])
  {
    OpeningBracket(u);
    NoNumberAtParen("(" + u);
    assert Bracket(x, ')') == None;
    ParensUnclosed(seed, "(" + u, SkipBlanks(u), x);
  }

  /** `parse_factor` unfolded at a bracket: no number, the opening
      bracket, an expression, the closing bracket. */
  lemma ParensRound(seed: Seed, s: string, inner: string, r: string, v: string)
    requires ParseNum(s).Error? && Bracket(s, '(') == Some(inner)
    requires ParseExpr(seed, inner).Done? && ParseExpr(seed, inner).rest == r && Bracket(r, ')') == Some(v)
    ensures ParseParens(seed, s) == Done(v, ParseExpr(seed, inner).value)
    ensures ParseFactor(seed, s) == ParseParens(seed, s)
  {
  }

  /** `parse_factor` unfolded at a bracket whose expression is not
      closed. */
  lemma ParensUnclosed(seed: Seed, s: string, inner: string, r: string)
    requires ParseNum(s).Error? && Bracket(s, '(') == Some(inner)
    requires ParseExpr(seed, inner).Done? && ParseExpr(seed, inner).rest == r && Bracket(r, ')') == None
    ensures ParseParens(seed, s) == Error([])
    ensures ParseFactor(seed, s) == ParseParens(seed, s)
  {
  }

  /** No number of the prototype starts with `(`. */
  lemma NoNumberAtParen(s: string)
    requires |s| > 0 && s[0] == '('
    ensures ParseNum(s).Error?
  {
    SkipBlanksAt(s, 0);
    DigitsEndAt(s, 0, 0);
  }
}
