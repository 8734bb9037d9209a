// Worked readings of short inputs by `parse_expr`, in every dialect, and
// the values the tree evaluator gives them.
module ParseExamples {
  import opened Common
  import opened Numeric
  import opened Expression
  import opened Combinators
  import opened TreeParser

  /** A single digit is an integer literal of its own value. */
  lemma Digit(c: char)
    requires '0' <= c <= '9'
    ensures IntLiteral([c]) && LitOf([c]) == Lit(Integer(c as int - '0' as int))
  {
    var w := [c];
    assert AllDigits(w);
    assert w[..|w| - 1] == [];
    assert DecimalValue(w) == c as int - '0' as int;
  }

  function I(n: int): Expr { Lit(Integer(n)) }

  /** `2+3*4` as a chain of literals. */
  const SumWithProduct := ExprChain(TermChain("2", []), [(Add, TermChain("3", [(Star, "4")]))])

  /** `8-3-2` as a chain of literals. */
  const TwoDifferences := ExprChain(TermChain("8", []), [(Sub, TermChain("3", [])), (Sub, TermChain("2", []))])

  /** `2+3` as a chain of literals. */
  const PlainSum := ExprChain(TermChain("2", []), [(Add, TermChain("3", []))])

  lemma SumWithProductChain(d: Dialect)
    ensures ExprChainOk(d, SumWithProduct) && ExprThen(SumWithProduct, "") == "2+3*4"
    ensures ExprTree(d, SumWithProduct) == Bin(Add, I(2), Bin(Mul, I(3), I(4)))
  {
    Digit('2'); Digit('3'); Digit('4');
  }

  lemma TwoDifferencesChain(d: Dialect)
    ensures ExprChainOk(d, TwoDifferences) && ExprThen(TwoDifferences, "") == "8-3-2"
    ensures ExprTree(d, TwoDifferences) == Bin(Sub, Bin(Sub, I(8), I(3)), I(2))
  {
    Digit('8'); Digit('3'); Digit('2');
  }

  lemma PlainSumChain(d: Dialect)
    ensures ExprChainOk(d, PlainSum) && ExprThen(PlainSum, ")*4") == "2+3)*4"
    ensures ExprTree(d, PlainSum) == Bin(Add, I(2), I(3))
  {
    Digit('2'); Digit('3');
  }

  /** Nothing, and a closing bracket, end an expression. */
  lemma ExpressionEnds(d: Dialect)
    ensures EndsExpr(d, "") && EndsExpr(d, ")*4")
  {
  }

  /** `2+3*4`: the product is grouped before the sum. */
  lemma ProductBindsTighter(d: Dialect)
    ensures ParseExpr(d, "2+3*4") == Done("", Bin(Add, I(2), Bin(Mul, I(3), I(4))))
  {
    SumWithProductChain(d);
    ExpressionEnds(d);
    ParseExprOfChain(d, SumWithProduct, "");
  }

  /** `8-3-2`: subtraction associates to the left. */
  lemma SubtractionAssociatesLeft(d: Dialect)
    ensures ParseExpr(d, "8-3-2") == Done("", Bin(Sub, Bin(Sub, I(8), I(3)), I(2)))
  {
    TwoDifferencesChain(d);
    ExpressionEnds(d);
    ParseExprOfChain(d, TwoDifferences, "");
  }

  /** The inner expression of `(2+3)*4` stops at the closing bracket. */
  lemma InnerSum(d: Dialect)
    ensures ParseExpr(d, SkipBlanks("2+3)*4")) == Done(")*4", Bin(Add, I(2), I(3)))
  {
    SkipBlanksAt("2+3)*4", 0);
    PlainSumChain(d);
    ExpressionEnds(d);
    ParseExprOfChain(d, PlainSum, ")*4");
  }

  /** The bracketed sum of `(2+3)*4` is its first factor. */
  lemma BracketedFactor(d: Dialect)
    ensures ParseFactor(d, "(2+3)*4") == Done("*4", Bin(Add, I(2), I(3)))
  {
    var u, x := "2+3)*4", "*4";
    assert "(" + u == "(2+3)*4" && ")" + x == ")*4";
    SkipBlanksAt(x, 0);
    InnerSum(d);
    ParenthesisedFactor(d, u, Bin(Add, I(2), I(3)), x);
  }

  /** `*4` multiplies what came before it by 4 and ends the input. */
  lemma TimesFour(d: Dialect, acc: Expr)
    ensures FoldTerm(d, "*4", acc) == Done("", Bin(Mul, acc, I(4)))
  {
    Digit('4');
    assert ProductLinksOk(d, [(Star, "4")]);
    assert ProductLinksThen([(Star, "4")], "") == "*4";
    FoldTermOfLinks(d, [(Star, "4")], acc, "");
  }

  /** `(2+3)*4`: brackets group the sum before the product. */
  lemma BracketsGroupFirst(d: Dialect)
    ensures ParseExpr(d, "(2+3)*4") == Done("", Bin(Mul, Bin(Add, I(2), I(3)), I(4)))
  {
    BracketedFactor(d);
    TimesFour(d, Bin(Add, I(2), I(3)));
    FoldExprStops(d, "", Bin(Mul, Bin(Add, I(2), I(3)), I(4)));
  }

  /** The values of the three readings: 14, 3 and 20. */
  lemma ExampleValues()
    ensures Eval(Bin(Add, I(2), Bin(Mul, I(3), I(4)))) == Ok(Integer(14))
    ensures Eval(Bin(Sub, Bin(Sub, I(8), I(3)), I(2))) == Ok(Integer(3))
    ensures Eval(Bin(Mul, Bin(Add, I(2), I(3)), I(4))) == Ok(Integer(20))
  {
  }
}
