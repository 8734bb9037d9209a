# rust-toolkit arithmetic engine, in Dafny

A Dafny model of the arithmetic engine in `library/calc` of the rust-toolkit
repository, and of three small pure components from the same repository.

The calculator library comes in several variants:

- **The stack calculator** (`stack_based.rs`, module `StackCalc`). It reduces two stacks by operator priority over `i128`.
  - The class `Calculator` keeps its number stack, its operator stack and its `can_accept_number` flag as fields.
  - Its methods update those fields in place. Each method is proved against a specification function on a `CalcState` value.
  - The invariant kept across calls: the number stack is balanced against the operator stack, and operator priorities strictly increase toward the top.
- **The tagged numbers and the tree evaluator** (`ast_based/expression.rs`, modules `Numeric` and `Expression`).
  - `Num` is `Integer(i128)` or `Float(f64)`. The promotion rules decide which variant a result has.
  - An `f64` is kept symbolic: the literal text it came from, or the operation that produced it.
  - `i128` overflow and integer division by zero are explicit `Fault` results, the model's form of a Rust panic.
- **The recursive-descent parser** (`ast_based/parser.rs`, module `TreeParser`, built on `Combinators`).
  - nom parsers become total functions returning `Done`, `Error` (recoverable), `Failure` (committed by `cut`) or `Panic` (a panic inside a fold closure).
  - The monolithic copy in `ast_based.rs` differs from this parser only in having no `%` term operator. It is the same parser with a `Dialect` parameter.
  - A third dialect, `Repaired`, is the split parser with the `%` arm its closure lacks.
- **The tree printers** (`ast_based/pretty.rs` as `Pretty`; `Expr::pretty` and `Debug` of `ast_based.rs` as `MonoPretty`).
- **The `i32` prototype** (`parser.rs`, module `Prototype`). Its folds start from `Num(0)` and drop the first operand.

The three smaller components are:

- **The Markdown element recognisers** of `playground/examples/md_parser.rs` (module `Markdown`).
- **The line filters** of `minegrep.rs` (module `Grep`).
- **The command line of `mdtoc`** (module `Mdtoc`):
  - The option loop is a method proved equal to a recursive scan.
  - It also covers `verify`, the error display, the exit codes and the choice of the markdown source.

`Common` holds the shared string helpers: digit runs, decimal value, search for a pattern, and Rust's `str::trim` on Unicode White_Space.

The code has been followed wherever a comment or a test in the repository says something else:

- `num` of the stack calculator reads unsigned digit runs only, because its sign branch is commented out. The signed expectations of its test do not hold (`StackCalc.UnsignedNumbers`).
- `parse_float` requires a dot, so `1e10` is not a float literal (`Combinators.FloatExampleNoDot`). It is then read as the integer `1` followed by unread input.
- `not_line_ending` fails on a `'\r'` that does not start `"\r\n"`. So `parse_paragraph` does not match every input (`Markdown.LoneCarriageReturn`).

## Model

| member | source | states |
|---|---|---|
| Common.Trim | playground/examples/md_parser.rs:26-50 | `str::trim` leaves text that is empty or starts and ends with a character outside Unicode White_Space |
| Common.TrimmedAlready | playground/examples/md_parser.rs:26-50 | text with no White_Space at either end is its own trim |
| Numeric.TruncDivRemainder | library/calc/src/ast_based/expression.rs:119-130 | Rust's integer `/` rounds toward zero: the remainder is smaller than the divisor and has the dividend's sign |
| Numeric.TruncDiv | library/calc/src/ast_based/expression.rs:119-130 | the truncated quotient is 0 exactly when the dividend is smaller in magnitude than the divisor, and positive exactly when it is non-zero and the signs agree |
| Numeric.CheckedInt | library/calc/src/stack_based.rs:53-97 | an `i128` or `i32` operation succeeds exactly when the divisor is non-zero and the exact result fits; it then gives that result, and division by zero is a fault of its own |
| Numeric.Promote | library/calc/src/ast_based/expression.rs:41-90 | two Integers give the checked `i128` result; any Float operand gives a Float; only Integer arithmetic can fault |
| Numeric.NumAdd | library/calc/src/ast_based/expression.rs:41-56 | Integer + Integer is the exact sum when it fits `i128` and a fault otherwise; a Float operand makes a Float sum |
| Numeric.NumSub | library/calc/src/ast_based/expression.rs:58-73 | the same for subtraction |
| Numeric.NumMul | library/calc/src/ast_based/expression.rs:75-90 | the same for multiplication |
| Numeric.NumDiv | library/calc/src/ast_based/expression.rs:92-107 | `/` always yields a Float, also for two Integers and a zero divisor |
| Numeric.ExactDiv | library/calc/src/ast_based/expression.rs:119-130 | two Integers give the truncated quotient, or a fault for a zero divisor or an out-of-range quotient; a Float operand gives a Float quotient |
| Numeric.Modulus | library/calc/src/ast_based/expression.rs:131-142 | `modulus` gives the truncated quotient of two Integers, a fault for a zero divisor or an out-of-range quotient, and a Float for a Float operand |
| Numeric.ModulusIsExactDiv | library/calc/src/ast_based/expression.rs:131-142 | `modulus` equals `exact_div` on every pair of operands, so `7 % 2` is 3 |
| Numeric.ResultsStayInRange | library/calc/src/ast_based.rs:82-172 | no successful Integer result of `+ - *` or `exact_div` leaves the `i128` range |
| Expression.Eval | library/calc/src/ast_based/expression.rs:21-33 | a literal is its number; an operator node succeeds only when both children do, the left child's fault comes first, then the right child's; a `/` node is always a Float |
| Expression.EvalModIsExactDiv | library/calc/src/ast_based/expression.rs:29-30 | a `Mod` node and an `ExactDiv` node over the same children evaluate alike |
| Expression.FloatExactlyFromFloatSource | library/calc/src/ast_based/expression.rs:21-33 | a successful evaluation is a Float exactly when the tree holds a Float literal or a `/` node |
| Expression.IntegerEvalIsExact | library/calc/src/ast_based/expression.rs:21-33 | an Integer result is the exact unbounded value of the tree (with truncating division) and lies in the `i128` range; nothing wraps around |
| Expression.AllFloatNeverFaults | library/calc/src/ast_based/expression.rs:41-130 | a tree whose every literal is a Float evaluates to a Float without fault |
| Expression.SixDividedByThree | library/calc/src/ast_based.rs:133-148 | `6 / 3` evaluates to a Float, not to `Integer(2)` |
| Combinators.SignLength | library/calc/src/ast_based/parser.rs:13 | the optional sign is at most the whole input |
| Combinators.MantissaEnd | library/calc/src/ast_based/parser.rs:14-17 | a matched mantissa consumes at least one character and stays inside the input |
| Combinators.ExponentEnd | library/calc/src/ast_based/parser.rs:18-22 | an exponent ends inside the input; a marker without digits is a committed failure |
| Combinators.ParseFloat | library/calc/src/ast_based/parser.rs:11-24 | a recognised float is exactly the consumed prefix of the input, and the rest is returned; it never panics |
| Combinators.FloatHasDot | library/calc/src/ast_based/parser.rs:14-17 | every recognised float literal contains a dot |
| Combinators.NoDotNoFloat | library/calc/src/ast_based/parser.rs:14-17 | text without a dot is never a float literal |
| Combinators.DigitsWithoutDot | library/calc/src/ast_based/parser.rs:14-17 | digits followed by neither a digit nor a dot are a recoverable mismatch |
| Combinators.NoFloatAtHead | library/calc/src/ast_based/parser.rs:13-17 | input that starts with neither a sign, a digit nor a dot is not a float literal, and the mismatch is recoverable |
| Combinators.FloatLiteralAccepted | library/calc/src/ast_based/parser.rs:11-24 | sign, digits, dot, digits and an optional exponent are recognised in full and the rest is left alone |
| Combinators.FloatExamplesUnsigned | library/calc/src/ast_based/parser.rs:14-17 | `3.1`, `.5` and `7.` are float literals |
| Combinators.FloatExamplesSigned | library/calc/src/ast_based/parser.rs:13 | `-0.5` and `+2.0` keep their sign in the literal text |
| Combinators.FloatExampleExponent | library/calc/src/ast_based/parser.rs:18-22 | `1.2E-3x` reads `1.2E-3` and leaves `x` |
| Combinators.ExponentIsCommitted | library/calc/src/ast_based/parser.rs:18-22 | after a complete mantissa, `e`/`E` without digits is a committed failure, not a fallback |
| Combinators.FloatExampleCommitted | library/calc/src/ast_based/parser.rs:18-22 | `1.5e+x` is a committed failure |
| Combinators.FloatExampleNoDot | library/calc/src/ast_based.rs:176-189 | `1e10` is not a float literal |
| TreeParser.FloatNum | library/calc/src/ast_based/parser.rs:31-37 | the float alternative gives a Float literal, consumes input, and never panics |
| TreeParser.IntegerNum | library/calc/src/ast_based/parser.rs:38-44 | the integer alternative gives an Integer literal inside the `i128` range; failing that, a recoverable error |
| TreeParser.ParseNum | library/calc/src/ast_based/parser.rs:26-48 | a parsed number consumes input and is a well-formed literal; `parse_num` never panics |
| TreeParser.TermTag | library/calc/src/ast_based/parser.rs:88-89 | a recognised tag fits in the input; the monolithic engine never recognises `%` |
| TreeParser.TermNode | library/calc/src/ast_based/parser.rs:92-100 | the closure panics exactly on `%` outside the repaired engine; otherwise the node has the accumulator on its left and the factor on its right, and is a `Mod` exactly for `%` |
| TreeParser.ExprTag | library/calc/src/ast_based/parser.rs:119-129 | the expression fold only ever builds `Add` or `Sub`, so its panic arm is unreachable |
| TreeParser.Bracket | library/calc/src/ast_based/parser.rs:50-56 | a bracket consumes at least one character, which is the bracket |
| TreeParser.ParseParens | library/calc/src/ast_based/parser.rs:50-56 | the result leaves a suffix and has well-formed, admissible literals; without `(` it is the `left parentheses` error; only the split engine panics. Which tree it returns (the enclosed expression's) is stated by `TreeParser.ParenthesisedFactor` |
| TreeParser.ParseFactor | library/calc/src/ast_based/parser.rs:69-71 | the result leaves a suffix and has well-formed literals; without `(` a factor is a literal |
| TreeParser.FoldTerm | library/calc/src/ast_based/parser.rs:86-104 | the term fold stays sound; without parentheses it builds a left-nested product of literals |
| TreeParser.ParseTerm | library/calc/src/ast_based/parser.rs:86-104 | a term leaves a suffix; without parentheses it is a left-nested product; only the split engine panics |
| TreeParser.FoldExpr | library/calc/src/ast_based/parser.rs:117-132 | the expression fold stays sound; without parentheses it builds a left-nested sum of products |
| TreeParser.ParseExpr | library/calc/src/ast_based/parser.rs:117-132 | an expression leaves a suffix; without parentheses it is a sum of products, so `* / // %` bind tighter than `+ -` |
| TreeParser.IntegerLiteralRule | library/calc/src/ast_based/parser.rs:26-48 | after blanks, a digit run with no dot is an Integer literal when it fits `i128` and a labelless error when it does not; trailing blanks are consumed |
| TreeParser.FloatLiteralRule | library/calc/src/ast_based/parser.rs:26-48 | after blanks, a float literal becomes a Float carrying its text, and trailing blanks are consumed |
| TreeParser.CommittedFloatAborts | library/calc/src/ast_based/parser.rs:18-33 | a committed float failure aborts `parse_num` and the whole `parse_expr` with the `float` label |
| TreeParser.FoldTermContinues | library/calc/src/ast_based/parser.rs:86-104 | text that starts with a term tag (`*`, `//`, `/` not followed by `/`, or `%` in the repaired engine) followed by a factor is folded on from the node of that tag over the accumulator and the factor |
| TreeParser.FoldExprContinues | library/calc/src/ast_based/parser.rs:117-132 | text that starts with `+` or `-` followed by a term is folded on from the `Add` or `Sub` node over the accumulator and the term |
| TreeParser.DoubleSlashIsExactDiv | library/calc/src/ast_based/parser.rs:89-97 | `//` is one `ExactDiv` node, never two divisions |
| TreeParser.PercentPanics | library/calc/src/ast_based/parser.rs:89-100 | in the split engine, `%` between two factors makes the term and the whole expression panic |
| TreeParser.FoldTermPanics | library/calc/src/ast_based/parser.rs:92-100 | the term fold at `%` followed by a factor panics in the split engine |
| TreeParser.PercentNoTag | library/calc/src/ast_based.rs:219-234 | `%` is neither a monolithic term tag nor an expression tag |
| TreeParser.PercentTag | library/calc/src/ast_based/parser.rs:89 | where `%` is recognised, it is a one-character term tag |
| TreeParser.PercentBuildsMod | library/calc/src/ast_based/parser.rs:86-104 | in the repaired engine, `%` between two factors builds a `Mod` node from them |
| TreeParser.FoldTermMod | library/calc/src/ast_based/parser.rs:92-100 | in the repaired engine, the term fold at `%` continues from a `Mod` node |
| TreeParser.PercentEndsMonolithicParse | library/calc/src/ast_based.rs:219-250 | the monolithic engine stops before `%` and returns it with the rest as unread input |
| TreeParser.FoldTermStops | library/calc/src/ast_based/parser.rs:86-104 | without a term tag, the term fold returns its accumulator and leaves the input alone |
| TreeParser.FoldExprStops | library/calc/src/ast_based/parser.rs:117-132 | without `+` or `-`, the expression fold returns its accumulator and leaves the input alone |
| TreeParser.TrailingInputReturned | library/calc/src/ast_based/parser.rs:117-132 | input after the last term is returned with the tree, not reported |
| TreeParser.LoneIntegerLiteral | library/calc/src/ast_based/parser.rs:26-132 | a lone integer literal followed by a non-operator parses to that literal, and what follows is returned |
| TreeParser.LiteralFactor | library/calc/src/ast_based/parser.rs:26-71 | an integer literal followed by a character that cannot continue it is a factor of that value, in every engine, ending right after it |
| TreeParser.FoldTermOfLinks | library/calc/src/ast_based/parser.rs:86-104 | over tags each followed by a literal, the term fold builds the left fold of the products and stops exactly at what follows |
| TreeParser.ParseTermOfChain | library/calc/src/ast_based/parser.rs:86-104 | a term of literals joined by `*`, `/`, `//` (and `%` in the repaired engine) parses to its products grouped to the left, ending exactly where the term ends |
| TreeParser.FoldExprOfLinks | library/calc/src/ast_based/parser.rs:117-132 | over signs each followed by a term, the expression fold builds the left fold of the sums and stops exactly at what follows |
| TreeParser.ParseExprOfChain | library/calc/src/ast_based/parser.rs:86-132 | an expression of integer literals and operators parses to the reference tree in which every term is grouped before the sums and both levels associate to the left; what follows the expression is returned |
| TreeParser.ParenthesisedFactor | library/calc/src/ast_based/parser.rs:50-71 | `(`, an inner text whose expression stops at `)`, and that `)` form a factor whose tree is the inner expression's, with the blanks after `)` consumed |
| TreeParser.OpeningBracket | library/calc/src/ast_based/parser.rs:26-56 | `(` starts no number and is read together with the blanks after it |
| TreeParser.ClosingBracket | library/calc/src/ast_based/parser.rs:50-56 | `)` is read together with the blanks after it |
| ParseExamples.ProductBindsTighter | library/calc/src/ast_based/parser.rs:86-132 | `2+3*4` parses, in every engine, to `2 + (3 * 4)` and consumes the whole input |
| ParseExamples.SubtractionAssociatesLeft | library/calc/src/ast_based/parser.rs:117-132 | `8-3-2` parses, in every engine, to `(8 - 3) - 2` and consumes the whole input |
| ParseExamples.BracketsGroupFirst | library/calc/src/ast_based/parser.rs:50-104 | `(2+3)*4` parses, in every engine, to `(2 + 3) * 4` and consumes the whole input |
| ParseExamples.ExampleValues | library/calc/src/ast_based/expression.rs:21-90 | the three trees evaluate to 14, 3 and 20 |
| Pretty.ArmGlyph | library/calc/src/ast_based/pretty.rs:48-54 | only the root has an empty arm glyph |
| Pretty.NatText | library/calc/src/ast_based/expression.rs:109-116 | the decimal text of a number is a non-empty digit run |
| Pretty.NatTextRoundTrip | library/calc/src/ast_based/expression.rs:109-116 | reading the decimal text back gives the number |
| Pretty.Lines | library/calc/src/ast_based/pretty.rs:11-46 | every node of the tree produces exactly one line |
| Pretty.Pretty0 | library/calc/src/ast_based/pretty.rs:11-46 | `pretty0` completes exactly from level 1 on, and then writes the lines of `Lines` |
| Pretty.LinesDeeper | library/calc/src/ast_based/pretty.rs:15-17 | drawing a tree one level deeper moves every line one level deeper and changes nothing else |
| Pretty.PrettyAtLevelZero | library/calc/src/ast_based/pretty.rs:11-46 | at level 0 `pretty0` panics after writing exactly the lines above the root's own line, each one level shallower than in the diagram drawn at level 1 |
| Pretty.PrettyOrder | library/calc/src/ast_based/pretty.rs:11-46 | read bottom up, the lines list the nodes in infix order: right subtree, node, left subtree from the top |
| Pretty.PrettyLevel | library/calc/src/ast_based/pretty.rs:15-17 | children are drawn deeper than their parent; exactly one line of a subtree is at its level, and it shows the subtree's root with its arm |
| Pretty.RenderShape | library/calc/src/ast_based/pretty.rs:13-41 | a line is its indentation, the arm glyph, `── ` and the node's text; the root line at level 1 is only `── ` and the text |
| Pretty.Pretty | library/calc/src/ast_based/pretty.rs:56-58 | `pretty` ignores its level, starts at level 0, never completes; before it panics it writes as many lines as the root's right subtree has nodes, and none for a lone number |
| Pretty.PrettyFixed | library/calc/src/ast_based/pretty.rs:56-58 | the repaired entry point writes one line per node |
| Pretty.PrettyFixedLines | library/calc/src/ast_based/pretty.rs:11-58 | in the repaired diagram the lines show the nodes in reverse infix order; the root line is exactly `── ` and its text, and every other line is indented |
| MonoPretty.MonoDiagram | library/calc/src/ast_based.rs:32-61 | `Expr::pretty` writes one line per node |
| MonoPretty.MonoLineShape | library/calc/src/ast_based.rs:32-61 | one rendered line ends with `"── "` and the node text; a line one level below the caller has exactly `level` units of `"   │"` before the connector, a deeper line at least `level + 1` |
| MonoPretty.Debug | library/calc/src/ast_based.rs:25-29 | `Debug` draws the whole tree, one line per node |
| MonoPretty.MonoDiagramLines | library/calc/src/ast_based.rs:32-61 | lines in reverse infix order; the node line has `level` units of `"   │"` before the connector, and every other line at least one unit more |
| Prototype.Eval | library/calc/src/parser.rs:71-79 | an operation that succeeds yields an `i32` |
| Prototype.ParseNum | library/calc/src/parser.rs:21-25 | a number is an unsigned `i32` literal leaving a suffix; failure is always recoverable |
| Prototype.Leftmost | library/calc/src/parser.rs:39-69 | the first operand of a left fold is a literal |
| Prototype.ParseParens | library/calc/src/parser.rs:27-33 | a parenthesised expression leaves a suffix, and as written it is a zero-seeded tree; which tree, and the error without `)`, are stated by `Prototype.ParenthesisedFactor` and `Prototype.MissingClosingBracket` |
| Prototype.ParseFactor | library/calc/src/parser.rs:35-37 | a factor is a literal or a parenthesised zero-seeded tree |
| Prototype.TermOpAt | library/calc/src/parser.rs:43-50 | the term fold accepts only `*` and `/` |
| Prototype.ExprOpAt | library/calc/src/parser.rs:59-66 | the expression fold accepts only `+` and `-` |
| Prototype.FoldTerm | library/calc/src/parser.rs:39-53 | the leftmost leaf never changes; each step builds `Bin(op, acc, factor)`, as stated by `Prototype.FoldTermStep` |
| Prototype.ParseTerm | library/calc/src/parser.rs:39-53 | as written, a term is a zero-seeded tree; seeded with its first operand, its leftmost leaf is that operand |
| Prototype.FoldExpr | library/calc/src/parser.rs:55-69 | the leftmost leaf never changes; each step builds `Bin(op, acc, term)`, as stated by `Prototype.FoldExprStep` |
| Prototype.ParseExpr | library/calc/src/parser.rs:55-69 | as written, an expression is a zero-seeded tree; seeded with its first term, its leftmost leaf is that term's |
| Prototype.ZeroTreeEvaluatesToZero | library/calc/src/parser.rs:71-79 | a zero-seeded tree evaluates to 0 or faults on a division by zero; it never overflows |
| Prototype.ZeroQuotient | library/calc/src/parser.rs:76 | zero divided by anything non-zero is zero |
| Prototype.ParsedValueIsZero | library/calc/src/parser.rs:39-79 | every tree the prototype parses evaluates to 0 or to a division-by-zero fault |
| Prototype.LoneLiteral | library/calc/src/parser.rs:39-69 | a lone literal parses to `Num(0)` as written, and to itself when the fold is seeded with the first operand |
| Prototype.LiteralNum | library/calc/src/parser.rs:21-25 | blanks, an `i32` digit run and a non-digit are that number, with trailing blanks consumed |
| Prototype.FoldTermStops | library/calc/src/parser.rs:39-53 | without `*` or `/`, the term fold returns its accumulator |
| Prototype.FoldExprStops | library/calc/src/parser.rs:55-69 | without `+` or `-`, the expression fold returns its accumulator |
| Prototype.FoldTermStep | library/calc/src/parser.rs:43-51 | `*` or `/` followed by a factor gives the node with the accumulator as left child and that factor as right child, and the fold goes on after the factor |
| Prototype.FoldTermBacktracks | library/calc/src/parser.rs:43-51 | an operator with no factor after it ends the term fold, leaving the operator unread |
| Prototype.FoldExprStep | library/calc/src/parser.rs:59-67 | `+` or `-` followed by a term gives the node with the accumulator as left child and that term as right child, and the fold goes on after the term |
| Prototype.FoldExprBacktracks | library/calc/src/parser.rs:59-67 | an operator with no term after it ends the expression fold, leaving the operator unread |
| Prototype.ProductOfLiterals | library/calc/src/parser.rs:39-69 | `a*b` parses as written to the term `Mul(Num(0), b)` and the expression `Num(0)`; seeded with the first operand, both are `Mul(a, b)` |
| Prototype.LiteralFactor | library/calc/src/parser.rs:21-37 | an `i32` digit run followed by a non-blank, non-digit is a factor ending right after it |
| Prototype.ParenthesisedFactor | library/calc/src/parser.rs:27-37 | `(`, an expression and `)` form a factor carrying the enclosed expression's tree, with the blanks after `)` consumed |
| Prototype.MissingClosingBracket | library/calc/src/parser.rs:27-37 | an expression after `(` not followed by `)` makes the factor a recoverable error |
| StackCalc.Priority | library/calc/src/stack_based.rs:99-105 | priorities are at most 2, and 0 exactly for `Eval` |
| StackCalc.ExpectedParamCount | library/calc/src/stack_based.rs:107-112 | `Eval` takes one number and every binary operator two |
| StackCalc.Cmp | library/calc/src/stack_based.rs:127-137 | operators compare by priority only |
| StackCalc.OperatorOrder | library/calc/src/stack_based.rs:119-137 | the comparison is a total preorder whose `==` is equal priority: `Add == Subtract`, `Multiply == Divide`, additive below multiplicative, `Eval` below all (the compare test at 294-302) |
| StackCalc.IsParamEnough | library/calc/src/stack_based.rs:114-116 | enough numbers means at least one, and for a binary operator at least two |
| StackCalc.Applied | library/calc/src/stack_based.rs:53-97 | too few numbers is `MoreParamRequired` with nothing popped; `Eval` gives the top number; a binary operator pops two and gives the exact result of the operation on them exactly when it fits `i128` (and the divisor is non-zero), else a division-by-zero or overflow panic |
| StackCalc.AppendNumberSpec | library/calc/src/stack_based.rs:157-165 | a number is accepted exactly when one is expected: it is pushed and the flag cleared; otherwise `UnExpectedNumber` and no change |
| StackCalc.Reduce | library/calc/src/stack_based.rs:174-199 | the loop only pops operators; ending normally, the top operator has lower priority than the incoming one |
| StackCalc.Grouped | library/calc/src/stack_based.rs:170-215 | the reference value of a stack segment: an arithmetic failure is always a panic, and a segment without operators is its number |
| StackCalc.GroupedCollapseTop | library/calc/src/stack_based.rs:174-199 | applying the top operator to the two top numbers leaves the value of the segment unchanged |
| StackCalc.ReduceEvaluatesTop | library/calc/src/stack_based.rs:174-199 | the reduction loop replaces the segment above where it stops by that segment's value, or reports the first panic met in evaluating it |
| StackCalc.AppendOperatorSpec | library/calc/src/stack_based.rs:170-201 | where a number is expected, `UnExpectedOperator` and no change; on success the operator is on top and a number is expected |
| StackCalc.FinalResultSpec | library/calc/src/stack_based.rs:203-215 | the state is that of pushing `Eval`; success means that push succeeded with one number and only `Eval` left, and the result is that number; a push that succeeds with anything else left is `InvalidExpression` |
| StackCalc.FinalResultIsGrouped | library/calc/src/stack_based.rs:170-215 | after a number, the final result is the value of the whole stack with each operator applied before every weaker one below it, or the first panic |
| StackCalc.InitialValid | library/calc/src/stack_based.rs:146-154 | a fresh calculator satisfies the invariant |
| StackCalc.ReduceBalanced | library/calc/src/stack_based.rs:174-199 | on balanced, increasing stacks the loop never runs short of numbers and ends normally or on an arithmetic fault, keeping the balance and the order |
| StackCalc.AppendOperatorKeepsValid | library/calc/src/stack_based.rs:55-57 | `append_operator` keeps the invariant and refuses only where a number is expected, so `MoreParamRequired` is unreachable |
| StackCalc.AppendNumberKeepsValid | library/calc/src/stack_based.rs:157-165 | `append_number` keeps the invariant |
| StackCalc.FinalResultOfValid | library/calc/src/stack_based.rs:203-215 | after a number, `get_final_result` reduces everything and returns a value unless the arithmetic faults |
| StackCalc.Calculator.constructor | library/calc/src/stack_based.rs:146-154 | `default` starts with empty stacks, expecting a number |
| StackCalc.Calculator.Calculate | library/calc/src/stack_based.rs:53-97 | pops exactly what `Applied` says and returns its value; the operator stack and the flag are unchanged |
| StackCalc.Calculator.AppendNumber | library/calc/src/stack_based.rs:157-165 | the new state and the status are those of `AppendNumberSpec` |
| StackCalc.Calculator.AppendOperator | library/calc/src/stack_based.rs:170-201 | the pop-reduce-push loop leaves the state and the status of `AppendOperatorSpec` |
| StackCalc.Calculator.GetFinalResult | library/calc/src/stack_based.rs:203-215 | the new state and the result are those of `FinalResultSpec` |
| StackCalc.ExampleFirstSteps | library/calc/src/stack_based.rs:304-316 | a second `8` is `UnExpectedNumber` and a second `+` is `UnExpectedOperator`, both without change |
| StackCalc.ExampleMinus | library/calc/src/stack_based.rs:317-318 | `-` reduces `8 + 2` to 10 |
| StackCalc.ExampleTimes | library/calc/src/stack_based.rs:319-320 | `*` is pushed above `-` without reducing |
| StackCalc.ExampleDivide | library/calc/src/stack_based.rs:321-322 | `/` reduces `4 * 5` and stops at `-` |
| StackCalc.ExampleFinal | library/calc/src/stack_based.rs:323-325 | the final result of `8 + 2 - 4 * 5 / 2` is 0 |
| StackCalc.NumToken | library/calc/src/stack_based.rs:218-225 | `num` fails exactly when no digit leads; a number is an unsigned `i128` read from a consumed prefix |
| StackCalc.UnsignedNumbers | library/calc/src/stack_based.rs:258-272 | `123` is a number; `+123` and `-123` are not |
| StackCalc.OperatorToken | library/calc/src/stack_based.rs:227-235 | `operator` consumes one of `+ - * /` and fails recoverably exactly otherwise; it never yields `Eval` |
| StackCalc.Feed | library/calc/src/stack_based.rs:242-245 | an item of the wrong kind is refused without change; a number fed is pushed and the calculator then expects an operator, an operator fed leaves it expecting a number |
| StackCalc.ParseFrom | library/calc/src/stack_based.rs:237-251 | the fold stops only at the end of the input or at a character that starts neither a number nor an operator, and the empty input changes nothing |
| StackCalc.Parse | library/calc/src/stack_based.rs:237-251 | `parse` stops only at the end of the input or at a character that starts neither a number nor an operator |
| StackCalc.ParseKeepsValid | library/calc/src/stack_based.rs:237-251 | whatever `parse` feeds a calculator keeps its invariant and adds no `Eval` |
| StackCalc.ReduceNoEval | library/calc/src/stack_based.rs:174-199 | the reduction adds no `Eval` |
| StackCalc.DigitStep | library/calc/src/stack_based.rs:237-251 | a digit is fed as a number, and a refusal aborts the parse |
| StackCalc.OperatorStep | library/calc/src/stack_based.rs:237-251 | an operator character is fed as an operator, and a refusal or fault aborts the parse |
| Markdown.BreakAt | playground/examples/md_parser.rs:24 | the first line-break character from a position on, or the end |
| Markdown.LineEnd | playground/examples/md_parser.rs:24 | where `not_line_ending` stops, always at a line break or the end |
| Markdown.LineEndingLength | playground/examples/md_parser.rs:25 | an optional line ending stays inside the input |
| Markdown.After | playground/examples/md_parser.rs:25 | what follows the text and its optional line ending is a suffix of the input |
| Markdown.CharRun | playground/examples/md_parser.rs:22 | the run of `#` ends at a different character or the end |
| Markdown.BlankEnd | playground/examples/md_parser.rs:23 | the run of blanks ends at a non-blank or the end |
| Markdown.ParseHeading | playground/examples/md_parser.rs:20-27 | a heading needs at least one `#` followed by a blank; its level is the count of `#` as a `u8` |
| Markdown.ParseCodeBlock | playground/examples/md_parser.rs:29-33 | a code block matches exactly when the input opens with a fence and has a closing fence after it |
| Markdown.ParseHtmlTag | playground/examples/md_parser.rs:35-39 | an html tag matches exactly when the input starts with `<` and has a `>` after it |
| Markdown.ParseBlockquote | playground/examples/md_parser.rs:41-45 | a blockquote consumes at least its `>` |
| Markdown.ParseParagraph | playground/examples/md_parser.rs:47-51 | a paragraph matches exactly when the line's end can be read, that is unless a lone `'\r'` cuts it |
| Markdown.HtmlHeadingLevel | playground/examples/md_parser.rs:55-62 | an opening `<h1>` to `<h6>` gives a level from 1 to 6 |
| Markdown.ParseHtmlHeading | playground/examples/md_parser.rs:53-70 | an html heading's level is that of its opening tag |
| Markdown.ParseBlock | playground/examples/md_parser.rs:72-81 | whichever recogniser matches, it leaves a suffix |
| Markdown.AfterTail | playground/examples/md_parser.rs:25 | the optional line ending consumed is the one starting the tail |
| Markdown.LineOf | playground/examples/md_parser.rs:24 | the line's text runs up to its line ending |
| Markdown.HeadingOf | playground/examples/md_parser.rs:20-27 | `k` hashes, blanks and a line give a heading of level `k mod 256` with the trimmed text, and the line ending is consumed |
| Markdown.HeadingExample | playground/examples/md_parser.rs:87-93 | `"# Heading 1\n"` is `Heading("Heading 1", 1)` with nothing left |
| Markdown.HeadingExampleParse | playground/examples/md_parser.rs:87-93 | the same heading, before its text is trimmed |
| Markdown.HeadingNeedsBlank | playground/examples/md_parser.rs:23 | hashes without a blank after them are not a heading |
| Markdown.CodeBlockOf | playground/examples/md_parser.rs:29-33 | the block's text runs to the first closing fence, trimmed; a line ending after the fence is consumed |
| Markdown.UnclosedCodeBlock | playground/examples/md_parser.rs:31 | a fence never closed is no code block |
| Markdown.CodeBlockAround | playground/examples/md_parser.rs:29-33 | fences around backquote-free text make a code block of the trimmed text |
| Markdown.CodeBlockExample | playground/examples/md_parser.rs:95-101 | a `#` line inside a fence stays code |
| Markdown.HtmlTagOf | playground/examples/md_parser.rs:35-39 | the tag's text runs to the first `>`, trimmed; only a line ending right after it is consumed |
| Markdown.HtmlTagExample | playground/examples/md_parser.rs:103-109 | `<div>` is a tag and the text after it is left for the next element |
| Markdown.BlockquoteOf | playground/examples/md_parser.rs:41-45 | `>` and the line's text give a blockquote of the trimmed text, with the line ending consumed |
| Markdown.BlockquoteExample | playground/examples/md_parser.rs:111-117 | `"> # Not a heading\n"` is a blockquote of `# Not a heading` |
| Markdown.ParagraphOf | playground/examples/md_parser.rs:47-51 | a line gives a paragraph of its trimmed text, with its line ending consumed |
| Markdown.EmptyParagraph | playground/examples/md_parser.rs:47-51 | the empty input is an empty paragraph that consumes nothing |
| Markdown.LoneCarriageReturn | playground/examples/md_parser.rs:49 | a `'\r'` not followed by `'\n'` makes the paragraph fail |
| Markdown.HtmlHeadingLayout | playground/examples/md_parser.rs:53-70 | where the opening tag, the text, `</` and the closing `>` of an html heading line sit |
| Markdown.HtmlHeadingAt | playground/examples/md_parser.rs:53-70 | the text runs to the first `</`, trimmed, and the input is left at the next `>` without consuming it |
| Markdown.HtmlHeadingExample | playground/examples/md_parser.rs:119-125 | `<h1>HTML Heading 1</h1>\n` gives level 1 and the text, leaving `>\n` |
| Markdown.HtmlHeadingLine | playground/examples/md_parser.rs:53-70 | `<hN>`, a text without `<`, `</`, a name without `>` and `>` give a heading of level `N` with the trimmed text, leaving the input at that `>` |
| Markdown.CodeBlockFirst | playground/examples/md_parser.rs:72-81 | a code block wins the alternation, whatever it holds |
| Markdown.HtmlHeadingShadowed | playground/examples/md_parser.rs:72-81 | every html heading is taken by the html tag rule first; a heading from the alternation always comes from `#` |
| Markdown.BlockStopsAtLoneCarriageReturn | playground/examples/md_parser.rs:72-81 | a line cut by a lone `'\r'` whose first character opens no other element matches no alternative, so the document loop stops there |
| Markdown.BlockTotal | playground/examples/md_parser.rs:72-81 | the alternation matches whenever the line can be read as a paragraph |
| Grep.LineFeedAt | playground/example/mine_grep/minegrep.rs:19 | the first line feed from a position on, or the end |
| Grep.StripCarriageReturn | playground/example/mine_grep/minegrep.rs:19 | a `"\r\n"` ending loses its `'\r'`; nothing else is removed |
| Grep.Lines | playground/example/mine_grep/minegrep.rs:19 | non-empty text has at least one line, and never more lines than characters |
| Grep.Unlines | playground/example/mine_grep/minegrep.rs:19 | written-out lines end in a line feed |
| Grep.LinesHaveNoLineFeed | playground/example/mine_grep/minegrep.rs:19 | no line holds a line feed |
| Grep.LinesCons | playground/example/mine_grep/minegrep.rs:19 | a plain line and a line feed split off as the first line |
| Grep.LinesLast | playground/example/mine_grep/minegrep.rs:19 | a last line needs no line ending |
| Grep.LinesUnlines | playground/example/mine_grep/minegrep.rs:19 | writing plain lines out and splitting them again gives them back |
| Grep.UnlinesLines | playground/example/mine_grep/minegrep.rs:19 | text without `'\r'` that ends in a line feed is the written-out form of its lines |
| Grep.Filter | playground/example/mine_grep/minegrep.rs:20-22 | filtering never adds lines |
| Grep.FilterAppend | playground/example/mine_grep/minegrep.rs:20-22 | filtering goes line by line |
| Grep.FilterMember | playground/example/mine_grep/minegrep.rs:20-22 | a line is kept exactly when it is an input line and the test holds for it |
| Grep.FilterSubsequence | playground/example/mine_grep/minegrep.rs:20-22 | the kept lines are the input lines with some left out, unaltered and in order |
| Grep.FilterAll | playground/example/mine_grep/minegrep.rs:20-22 | a test that holds for every line keeps them all |
| Grep.LowerChar | playground/example/mine_grep/minegrep.rs:26 | only capital ASCII letters change, each to its lowercase letter |
| Grep.Lower | playground/example/mine_grep/minegrep.rs:26 | lowercasing works character by character |
| Grep.LowerIdempotent | playground/example/mine_grep/minegrep.rs:26-29 | no capital is left, and lowercasing twice changes nothing more |
| Grep.ContainsLower | playground/example/mine_grep/minegrep.rs:18-31 | an occurrence stays an occurrence after lowercasing both sides |
| Grep.Search | playground/example/mine_grep/minegrep.rs:18-23 | `search` keeps at most the input lines |
| Grep.SearchCaseInsensitive | playground/example/mine_grep/minegrep.rs:25-31 | `search_case_insensitive` keeps at most the input lines |
| Grep.SearchExactly | playground/example/mine_grep/minegrep.rs:18-23 | a line is found exactly when it contains the query; the found lines are the input lines unaltered and in order |
| Grep.SearchCaseInsensitiveExactly | playground/example/mine_grep/minegrep.rs:25-31 | a line is found exactly when its lowercase form contains the lowercased query; unaltered and in order |
| Grep.SearchWithinCaseInsensitive | playground/example/mine_grep/minegrep.rs:18-31 | every line the exact search keeps, the case-insensitive one keeps too, in the same order |
| Grep.EmptyQuery | playground/example/mine_grep/minegrep.rs:21 | an empty query keeps every line, in both searches |
| Grep.SearchExample | playground/example/mine_grep/minegrep.rs:43-52 | `duct` finds `safe, fast, productive.` only |
| Grep.SearchCaseInsensitiveExample | playground/example/mine_grep/minegrep.rs:54-67 | `rUsT` finds `Rust:` and `Trust me.` only |
| Grep.Run | playground/example/mine_grep/minegrep.rs:5-16 | `run` fails exactly when reading fails, passing the error on; otherwise the printed lines are exactly those of `search` or, when case is ignored, of `search_case_insensitive` |
| Mdtoc.Display | app/mdtoc/src/main.rs:29-37 | an error's display ends with its message |
| Mdtoc.DisplayInjective | app/mdtoc/src/main.rs:29-37 | two errors display alike only when they are the same error |
| Mdtoc.Report | app/mdtoc/src/main.rs:47-55 | `InvalidParam`, `IoErr` and `ClipboardErr` map to exit codes 1, 2 and 3 |
| Mdtoc.Scan | app/mdtoc/src/main.rs:86-121 | the loop stops early only to show usage or version, and fails only for a file option with no file |
| Mdtoc.ParseOptions | app/mdtoc/src/main.rs:86-121 | the `while let` loop over the arguments computes exactly `Scan` from the default configuration |
| Mdtoc.Verify | app/mdtoc/src/main.rs:127-139 | refused exactly for clipboard and file input together, or for no output at all; a refusal is `InvalidParam` |
| Mdtoc.RunCommandLine | app/mdtoc/src/main.rs:79-124 | `main` up to reading the markdown computes `CommandLine` |
| Mdtoc.CommandLine | app/mdtoc/src/main.rs:79-124 | a configuration handed on has passed `verify`, and every error is `InvalidParam` |
| Mdtoc.SelectSource | app/mdtoc/src/main.rs:150-166 | the clipboard when asked for, else the input file, else `InvalidParam` |
| Mdtoc.ScanAppend | app/mdtoc/src/main.rs:86-121 | arguments read to the end carry their configuration on to the rest |
| Mdtoc.StopsAtHelpOrVersion | app/mdtoc/src/main.rs:88-95 | `-h` or `-v` stops the loop at once, whatever follows |
| Mdtoc.HelpSkipsVerify | app/mdtoc/src/main.rs:88-95 | `-h` or `-v` succeeds without `verify` |
| Mdtoc.HelpAlone | app/mdtoc/src/main.rs:88-91 | a lone `-h` succeeds though the empty configuration fails `verify` |
| Mdtoc.FileOptionTakesNext | app/mdtoc/src/main.rs:96-117 | `-f` and `-w` take the next argument as their file, whatever it looks like |
| Mdtoc.FileOptionLast | app/mdtoc/src/main.rs:96-117 | a file option with nothing after it is a parameter error |
| Mdtoc.LastFileWins | app/mdtoc/src/main.rs:96-104 | a repeated `-f` keeps the last file |
| Mdtoc.FlagThenRest | app/mdtoc/src/main.rs:105-119 | a flag without a parameter is applied and the loop goes on |
| Mdtoc.SetFlagOnlyItsField | app/mdtoc/src/main.rs:105-119 | each flag sets its own field and nothing else; unknown arguments change nothing |
| Mdtoc.VerifiedWithoutSource | app/mdtoc/src/main.rs:127-166 | `-tc` alone passes `verify`, yet no source can be chosen |
| Mdtoc.VerifiedSource | app/mdtoc/src/main.rs:127-166 | a verified configuration that names a source reads from exactly the one chosen |
| Mdtoc.ExitCodeAsWritten | app/mdtoc/src/main.rs:79 | as written, the process exits with 0 exactly on success |
| Mdtoc.IoErrorExitsWithOne | app/mdtoc/src/main.rs:47-55 | an I/O error exits with 1, though `report` gives it 2 |
| Mdtoc.ExitCode | app/mdtoc/src/main.rs:47-55 | as intended, 0 on success and `report`'s code for an error |
| Mdtoc.ExitCodeTellsKinds | app/mdtoc/src/main.rs:47-55 | with the intended mapping, the exit code tells the error kinds apart |

## Left out

- `f64` arithmetic, `f64::from_str` and the formatting of a Float are not modelled. A Float is a symbolic term, and only which variant a computation yields is proved. How a Float is written is the parameter `floatText` of the printers.
- Integer overflow is modelled as it behaves in a debug build, as a fault. A release build would wrap around.
- Only the context labels of nom's `VerboseError` are modelled, not its positions or error kinds.
- `parse_markdown`'s whole-document `many0` is not modelled as a function. Only the alternation of one step is (`Markdown.ParseBlock`). The loop ends in one of two ways. A paragraph matches the empty input without consuming anything, and `many0` turns such a step into an error, so a document read to its end ends in that error (`Markdown.EmptyParagraph`). The alternation matches nothing only where a lone `'\r'` cuts the line (`Markdown.BlockTotal`), for example on a line whose first character opens no other element (`Markdown.BlockStopsAtLoneCarriageReturn`). There `many0` stops without error, returning the elements read so far and leaving the rest unread. The whole-document test, which expects `<h1>` as a heading, is contradicted by `Markdown.HtmlHeadingShadowed`.
- The `main` of `md_parser.rs` prints only and is not modelled.
- `search_case_insensitive` lowercases with Unicode case folding. The model lowercases ASCII letters only (`Grep.Lower`).
- Grep.Run: the file read and the printing are outside the model. The file's contents, or the error reading it, are a parameter.
- mdtoc's `handle`, the clipboard and file reads, and the usage and version printing are outside the model. Only the choice of source is modelled (`Mdtoc.SelectSource`).
- The `println!` tracing in the stack calculator's `parse` is not modelled. Its `unwrap`s are modelled as an aborted parse.
- `stack_based.rs`'s `test_parse` only prints and has no expectation to model.
- TreeParser.FoldTerm: its own contract states soundness and the left-nested product shape. The operands and operators it builds are stated by `TreeParser.FoldTermOfLinks` for integer literals joined by term operators without blanks, not for Float literals or blanks between tokens in general.
- TreeParser.ParseTerm: its own contract states soundness and the shape of the tree. The tree it builds is stated by `TreeParser.ParseTermOfChain` for integer literals joined by term operators without blanks, and in worked examples (`ParseExamples`); not for Float literals or blanks in general.
- TreeParser.FoldExpr: its own contract states soundness and the sum-of-products shape. The operands and operators it builds are stated by `TreeParser.FoldExprOfLinks` for chains of integer literals without blanks, not for Float literals or blanks in general.
- TreeParser.ParseExpr: its own contract states soundness and the shape of the tree. Which tree is built is stated separately, for integer literals joined by operators without blanks (`TreeParser.ParseExprOfChain`), for a bracketed expression (`TreeParser.ParenthesisedFactor`) and in worked examples (`ParseExamples`). It is not stated for Float literals or blanks between tokens in general.
- StackCalc.AppendOperatorKeepsValid: proved only when the incoming operator is not a second `Eval`. Only a calculator reused after `get_final_result` could receive one. Its reduction would pop the first `Eval` with a single number and upset the balance.
- The calculators' printing tests (`ast_based.rs` 256-268, the smoke test of `pretty.rs`, the test of `parser.rs`) only print results and have no expectation to model.

## Findings

| source | as written | input that shows it | evidently intended | confidence | as-written member | corrected member |
|---|---|---|---|---|---|---|
| library/calc/src/ast_based/parser.rs:89-100 | `%` is recognised as a term tag, but the fold closure has no arm for it and panics | `"7 % 2"` | `%` builds a `Mod` node, which `eval` already handles | not executed | TreeParser.PercentPanics | TreeParser.PercentBuildsMod |
| library/calc/src/ast_based/pretty.rs:56-58 | `pretty` ignores its `level` and calls `pretty0` at level 0, where `level - 1` underflows a `usize` | any tree, for example `Lit(Integer(1))` | the root drawn at level 1 | not executed | Pretty.Pretty | Pretty.PrettyFixedLines |
| library/calc/src/parser.rs:39-69 | both folds start from `Num(0)` and drop the operand parsed before them | `"3"` parses to `Num(0)` and evaluates to 0 | the fold seeded with the first operand | not executed | Prototype.ParsedValueIsZero | Prototype.LoneLiteral |
| app/mdtoc/src/main.rs:47-55, 79 | `main` returns `Result<(), ErrKind>`, so any error exits with 1 and `report` is never used | an unreadable input file gives `IoErr`, exit code 1 | `IoErr` exits with 2 and `ClipboardErr` with 3 | not executed | Mdtoc.IoErrorExitsWithOne | Mdtoc.ExitCodeTellsKinds |
