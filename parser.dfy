/** The recursive-descent parser of the tree engine, built from nom
    combinators. The split engine (`ast_based/parser.rs`) and its monolithic
    copy (`ast_based.rs`) share this code; they differ only in whether `%` is
    one of the term operators, which `Dialect` selects. */
module TreeParser {
  import opened Common
  import opened Numeric
  import opened Expression
  import opened Combinators

  /** `Split` recognises `%` as a term operator and then panics on it;
      `Monolithic` does not recognise `%`; `Repaired` is the split engine
      with the `%` arm its term closure is missing, building a `Mod` node. */
  datatype Dialect = Split | Monolithic | Repaired

  /** A suffix of a suffix is a suffix. */
  lemma SuffixTrans(r: string, t: string, s: string)
    requires SuffixOf(r, t) && SuffixOf(t, s)
    ensures SuffixOf(r, s)
  {
    assert s[|s| - |t|..][|t| - |r|..] == s[|s| - |r|..];
  }

  /** The float alternative of `parse_num`: `parse_float` under the context
      "float", its text read as an `f64` (which cannot fail on recognised
      text). */
  function FloatNum(w: string): (r: PResult<Expr>)
    ensures r.Done? ==> SuffixOf(r.rest, w) && |r.rest| < |w|
    ensures r.Done? ==> r.value.Lit? && r.value.n.Float?
    ensures !r.Panic?
  {
    var f := ParseFloat(w);
    if f.Done? then
      FloatHasDot(w);
      Done(f.rest, Lit(Float(Parsed(f.value))))
    else if f.Failure? then Failure(f.labels + ["float"])
    else Error(f.labels + ["float"])
  }

  /** The integer alternative of `parse_num`: `digit1` under the context
      "integer", read as an `i128`; a value out of range is a fresh error
      without labels. */
  function IntegerNum(w: string): (r: PResult<Expr>)
    ensures r.Done? ==> SuffixOf(r.rest, w) && |r.rest| < |w|
    ensures r.Done? ==> r.value.Lit? && r.value.n.Integer? && InRange(r.value.n.i, I128)
    ensures r.Error? || r.Done?
  {
    var n := DigitsEnd(w, 0);
    if n == 0 then Error(["integer"])
    else
      DigitsEndPrefix(w);
      var v := DecimalValue(w[..n]);
      if v > MaxOf(I128) then Error([])
      else Done(w[n..], Lit(Integer(v)))
  }

  /** `parse_num`: blanks, the float alternative or else (after a
      recoverable error only) the integer alternative, then blanks. */
  function ParseNum(s: string): (r: PResult<Expr>)
    ensures r.Done? ==> SuffixOf(r.rest, s) && |r.rest| < |s|
    ensures r.Done? ==> r.value.Lit? && WellFormed(r.value.n)
    ensures !r.Panic?
  {
    var w := SkipBlanks(s);
    var a := FloatNum(w);
    var b := if a.Error? then IntegerNum(w) else a;
    if b.Done? then
      SuffixTrans(b.rest, w, s);
      SuffixTrans(SkipBlanks(b.rest), b.rest, s);
      Done(SkipBlanks(b.rest), b.value)
    else b
  }

  /** The term operators. */
  datatype TermOp = Star | SlashSlash | Slash | Percent

  /** Number of characters of the tag: two for `//`, one otherwise. */
  function TagLength(t: TermOp): nat
  {
    if t == SlashSlash then 2 else 1
  }

  /** The tag at the head of `s` that the term fold recognises, tried in the
      order `*`, `//`, `/` and, in the split dialect, `%`. */
  function TermTag(d: Dialect, s: string): (t: Option<TermOp>)
    ensures t.Some? ==> TagLength(t.value) <= |s|
    ensures d == Monolithic ==> t != Some(Percent)
  {
    if |s| == 0 then None
    else if s[0] == '*' then Some(Star)
    else if s[0] == '/' then (if |s| > 1 && s[1] == '/' then Some(SlashSlash) else Some(Slash))
    else if d != Monolithic && s[0] == '%' then Some(Percent)
    else None
  }

  /** The term fold's closure: the node for a tag, or `None` for `%`
      outside the repaired dialect, where the closure panics
      (`other => panic!`). */
  function TermNode(d: Dialect, t: TermOp, acc: Expr, e: Expr): (r: Option<Expr>)
    ensures r.None? <==> t == Percent && d != Repaired
    ensures r.Some? ==> r.value.Bin? && r.value.lhs == acc && r.value.rhs == e
    ensures r.Some? ==> (r.value.op == Mod <==> t == Percent)
    ensures r.Some? && Admissible(d, acc) && Admissible(d, e) ==> Admissible(d, r.value)
    ensures r.Some? && Product(acc) && e.Lit? ==> Product(r.value)
  {
    match t
    case Star => Some(Bin(Mul, acc, e))
    case Slash => Some(Bin(Div, acc, e))
    case SlashSlash => Some(Bin(ExactDiv, acc, e))
    case Percent => if d == Repaired then Some(Bin(Mod, acc, e)) else None
  }

  /** The node kind for the tag at the head of `s` that the expression fold
      recognises, `+` or `-` (so the closure's panic arm is unreachable). */
  function ExprTag(s: string): (t: Option<Op>)
    ensures t.Some? ==> |s| > 0 && (t.value == Add || t.value == Sub)
  {
    if |s| > 0 && s[0] == '+' then Some(Add)
    else if |s| > 0 && s[0] == '-' then Some(Sub)
    else None
  }

  /** What every parser of the family promises about a successful result:
      it leaves a suffix of its input, and the tree has well-formed literals
      and no `Mod` node. */
  predicate Sound(d: Dialect, r: PResult<Expr>, s: string)
  {
    r.Done? ==> SuffixOf(r.rest, s) && Admissible(d, r.value) && LiteralsWellFormed(r.value)
  }

  /** Only the repaired dialect builds `Mod` nodes. */
  predicate Admissible(d: Dialect, e: Expr)
  {
    d == Repaired || ModFree(e)
  }

  /** `delimited(space0, char(c), space0)`: the input after the bracket
      `c` and the blanks around it, or `None` when `c` is missing. */
  function Bracket(s: string, c: char): (r: Option<string>)
    ensures r.Some? ==> SuffixOf(r.value, s) && |r.value| < |s|
  {
    var w := SkipBlanks(s);
    if w == [] || w[0] != c then None
    else
      SuffixTrans(w[1..], w, s);
      SuffixTrans(SkipBlanks(w[1..]), w[1..], s);
      assert w[0] == s[|s| - |w|];
      Some(SkipBlanks(w[1..]))
  }

  /** `parse_parentheses`: an expression between `(` and `)`, each bracket
      under its own context label. */
  function ParseParens(d: Dialect, s: string): (r: PResult<Expr>)
    ensures Sound(d, r, s)
    ensures '(' !in s ==> r == Error(["left parentheses"])
    ensures d != Split ==> !r.Panic?
    decreases |s|, 0
  {
    match Bracket(s, '(')
    case None => Error(["left parentheses"])
    case Some(inner) =>
      var e := ParseExpr(d, inner);
      if !e.Done? then e
      else
        match Bracket(e.rest, ')')
        case None => Error(["right parentheses"])
        case Some(v) =>
          SuffixTrans(e.rest, inner, s);
          SuffixTrans(v, e.rest, s);
          Done(v, e.value)
  }

  /** `parse_factor`: a number, or else a parenthesised expression; when
      both fail recoverably, the parenthesis error is reported. */
  function ParseFactor(d: Dialect, s: string): (r: PResult<Expr>)
    ensures Sound(d, r, s)
    ensures r.Done? && '(' !in s ==> r.value.Lit?
    ensures d != Split ==> !r.Panic?
    decreases |s|, 1
  {
    var n := ParseNum(s);
    if n.Error? then ParseParens(d, s) else n
  }

  /** The `fold_many0` of `parse_term` from accumulator `acc`: a tag and a
      factor extend the accumulator; a recoverable error in either ends the
      fold with the accumulator and the input from before the attempt. */
  function FoldTerm(d: Dialect, s: string, acc: Expr): (r: PResult<Expr>)
    ensures Admissible(d, acc) && LiteralsWellFormed(acc) ==> Sound(d, r, s)
    ensures r.Done? && '(' !in s && Product(acc) ==> Product(r.value)
    ensures d != Split ==> !r.Panic?
    decreases |s|, 2
  {
    match TermTag(d, s)
    case None => Done(s, acc)
    case Some(tag) =>
      var t := s[TagLength(tag)..];
      var f := ParseFactor(d, t);
      if f.Error? then Done(s, acc)
      else if !f.Done? then f
      else
        match TermNode(d, tag, acc, f.value)
        case None =>
          assert d == Split;
          Panic
        case Some(e) =>
          SuffixTrans(f.rest, t, s);
          NotInSuffix('(', t, s);
          NotInSuffix('(', f.rest, s);
          var r := FoldTerm(d, f.rest, e);
          if r.Done? && Admissible(d, acc) && LiteralsWellFormed(acc) then
            SuffixTrans(r.rest, f.rest, s);
            r
          else r
  }

  /** `parse_term`: a factor, then the term fold. */
  function ParseTerm(d: Dialect, s: string): (r: PResult<Expr>)
    ensures Sound(d, r, s)
    ensures r.Done? && '(' !in s ==> Product(r.value)
    ensures d != Split ==> !r.Panic?
    decreases |s|, 3
  {
    var f := ParseFactor(d, s);
    if !f.Done? then f
    else
      var r := FoldTerm(d, f.rest, f.value);
      NotInSuffix('(', f.rest, s);
      if r.Done? then
        SuffixTrans(r.rest, f.rest, s);
        r
      else r
  }

  /** The `fold_many0` of `parse_expr`: `+` or `-` and a term extend the
      accumulator. */
  function FoldExpr(d: Dialect, s: string, acc: Expr): (r: PResult<Expr>)
    ensures Admissible(d, acc) && LiteralsWellFormed(acc) ==> Sound(d, r, s)
    ensures r.Done? && '(' !in s && SumOfProducts(acc) ==> SumOfProducts(r.value)
    ensures d != Split ==> !r.Panic?
    decreases |s|, 4
  {
    match ExprTag(s)
    case None => Done(s, acc)
    case Some(op) =>
      var t := ParseTerm(d, s[1..]);
      if t.Error? then Done(s, acc)
      else if !t.Done? then t
      else
        SuffixTrans(t.rest, s[1..], s);
        NotInSuffix('(', s[1..], s);
        NotInSuffix('(', t.rest, s);
        var r := FoldExpr(d, t.rest, Bin(op, acc, t.value));
        if r.Done? && Admissible(d, acc) && LiteralsWellFormed(acc) then
          SuffixTrans(r.rest, t.rest, s);
          r
        else r
  }

  /** `parse_expr`: a term, then the expression fold. Input left over after
      the last term is returned, not reported. */
  function ParseExpr(d: Dialect, s: string): (r: PResult<Expr>)
    ensures Sound(d, r, s)
    ensures r.Done? && '(' !in s ==> SumOfProducts(r.value)
    ensures d != Split ==> !r.Panic?
    decreases |s|, 5
  {
    var t := ParseTerm(d, s);
    if !t.Done? then t
    else
      var r := FoldExpr(d, t.rest, t.value);
      NotInSuffix('(', t.rest, s);
      if r.Done? then
        SuffixTrans(r.rest, t.rest, s);
        r
      else r
  }

  /** The integer rule: after blanks, a run of digits that is not followed
      by a digit or a dot is an Integer literal when it fits in `i128` and a
      labelless error when it does not; trailing blanks are consumed. */
  lemma IntegerLiteralRule(s: string, b: nat, i: nat)
    requires b < i <= |s| && AllBlank(s[..b]) && AllDigits(s[b..i])
    requires i == |s| || (!IsDigit(s[i]) && s[i] != '.')
    ensures DecimalValue(s[b..i]) <= MaxOf(I128) ==>
      ParseNum(s) == Done(SkipBlanks(s[i..]), Lit(Integer(DecimalValue(s[b..i]))))
    ensures DecimalValue(s[b..i]) > MaxOf(I128) ==> ParseNum(s) == Error([])
  {
    var w, n := s[b..], i - b;
    assert s[b] == s[b..i][0];
    SkipBlanksAt(s, b);
    SliceOfSlice(s, b, i);
    DigitsWithoutDot(w, n);
    assert FloatNum(w) == Error(["float"]);
    DigitsEndOf(w, n);
    assert IntegerNum(w) == if DecimalValue(s[b..i]) > MaxOf(I128) then Error([])
      else Done(s[i..], Lit(Integer(DecimalValue(s[b..i]))));
  }

  /** The float rule inside `parse_num`: after the blanks `s[..b]`, a float
      literal `w[..e]` becomes a Float literal carrying its text, and the
      blanks after it are consumed. */
  lemma FloatLiteralRule(s: string, b: nat, k: nat, i: nat, j: nat, e: nat)
    requires b <= |s| && AllBlank(s[..b])
    requires FloatLiteralAt(s[b..], k, i, j, e)
    ensures var w := s[b..];
      ParseNum(s) == Done(SkipBlanks(w[e..]), Lit(Float(Parsed(w[..e]))))
  {
    var w := s[b..];
    assert !IsBlank(s[b]) by {
      assert s[b] == w[0];
    }
    SkipBlanksAt(s, b);
    FloatLiteralAccepted(w, k, i, j, e);
  }

  /** A committed float failure is not backtracked: it aborts the whole
      parse instead of falling back to the integer rule. */
  lemma CommittedFloatAborts(d: Dialect, s: string)
    requires ParseFloat(SkipBlanks(s)).Failure?
    ensures ParseNum(s) == Failure(["float"])
    ensures ParseExpr(d, s) == Failure(["float"])
  {
    assert ParseFactor(d, s) == Failure(["float"]);
    assert ParseTerm(d, s) == Failure(["float"]);
  }

  /** The text of a term tag. */
  function TagText(t: TermOp): (w: string)
    ensures |w| == TagLength(t) && w[0] in "*/%"
  {
    match t
    case Star => "*"
    case SlashSlash => "//"
    case Slash => "/"
    case Percent => "%"
  }

  /** The node kind the term closure builds for a tag (`%` only in the
      repaired dialect). */
  function NodeOp(t: TermOp): (op: Op)
    ensures op != Add && op != Sub
  {
    match t
    case Star => Mul
    case SlashSlash => ExactDiv
    case Slash => Div
    case Percent => Mod
  }

  /** The text of an expression tag, `+` or `-`. */
  function SignText(op: Op): string
  {
    if op == Add then "+" else "-"
  }

  /** One round of the term fold: a tag, then a factor, extend the
      accumulator to the node of that tag with the factor as right child,
      and the fold goes on after the factor. A `/` directly followed by `/`
      would be the other tag, and `%` completes a round only in the
      repaired dialect. */
  lemma FoldTermContinues(d: Dialect, tag: TermOp, w: string, acc: Expr)
    requires tag == Percent ==> d == Repaired
    requires tag == Slash ==> w == [] || w[0] != '/'
    requires ParseFactor(d, w).Done?
    ensures var f := ParseFactor(d, w);
      FoldTerm(d, TagText(tag) + w, acc) == FoldTerm(d, f.rest, Bin(NodeOp(tag), acc, f.value))
  {
    TagTextHead(d, tag, w);
    var f := ParseFactor(d, w);
    TermNodeOf(d, tag, acc, f.value);
    FoldTermRound(d, TagText(tag) + w, acc, tag, w, Bin(NodeOp(tag), acc, f.value));
  }

  /** Wherever the closure has an arm for a tag, it builds that tag's node
      over the accumulator and the factor. */
  lemma TermNodeOf(d: Dialect, tag: TermOp, acc: Expr, v: Expr)
    requires tag == Percent ==> d == Repaired
    ensures TermNode(d, tag, acc, v) == Some(Bin(NodeOp(tag), acc, v))
  {
  }

  /** The text of a tag followed by `w` is recognised as that tag, and `w`
      is what follows it. */
  lemma TagTextHead(d: Dialect, tag: TermOp, w: string)
    requires tag == Percent ==> d != Monolithic
    requires tag == Slash ==> w == [] || w[0] != '/'
    ensures TermTag(d, TagText(tag) + w) == Some(tag) && (TagText(tag) + w)[TagLength(tag)..] == w
  {
    var s := TagText(tag) + w;
    match tag {
      case Star => assert s[0] == '*';
      case Slash => assert s[0] == '/' && (|s| == 1 || s[1] != '/');
      case SlashSlash => assert s[0] == '/' && s[1] == '/';
      case Percent => assert s[0] == '%';
    }
  }

  /** The term fold unfolded once, at a recognised tag followed by a
      factor. */
  lemma FoldTermRound(d: Dialect, s: string, acc: Expr, tag: TermOp, w: string, node: Expr)
    requires TermTag(d, s) == Some(tag) && s[TagLength(tag)..] == w
    requires ParseFactor(d, w).Done? && TermNode(d, tag, acc, ParseFactor(d, w).value) == Some(node)
    ensures FoldTerm(d, s, acc) == FoldTerm(d, ParseFactor(d, w).rest, node)
  {
  }

  /** One round of the expression fold: `+` or `-`, then a term, make the
      accumulator the left child of the new node and the term its right
      child, and the fold goes on after the term. */
  lemma FoldExprContinues(d: Dialect, op: Op, w: string, acc: Expr)
    requires op == Add || op == Sub
    requires ParseTerm(d, w).Done?
    ensures var t := ParseTerm(d, w);
      FoldExpr(d, SignText(op) + w, acc) == FoldExpr(d, t.rest, Bin(op, acc, t.value))
  {
    SignTextHead(op, w);
    FoldExprRound(d, SignText(op) + w, acc);
  }

  /** The text of `+` or `-` followed by `w` is recognised as that sign,
      and `w` is what follows it. */
  lemma SignTextHead(op: Op, w: string)
    requires op == Add || op == Sub
    ensures ExprTag(SignText(op) + w) == Some(op) && (SignText(op) + w)[1..] == w
  {
    var s := SignText(op) + w;
    assert s[0] == if op == Add then '+' else '-';
  }

  /** The expression fold unfolded once, at `+` or `-` followed by a
      term. */
  lemma FoldExprRound(d: Dialect, s: string, acc: Expr)
    requires ExprTag(s).Some? && ParseTerm(d, s[1..]).Done?
    ensures var t := ParseTerm(d, s[1..]);
      FoldExpr(d, s, acc) == FoldExpr(d, t.rest, Bin(ExprTag(s).value, acc, t.value))
  {
  }

  /** `//` is one tag, tried before `/`: it extends the fold with an
      `ExactDiv` node, never with two divisions. */
  lemma DoubleSlashIsExactDiv(d: Dialect, s: string, acc: Expr)
    requires |s| >= 2 && s[0] == '/' && s[1] == '/' && ParseFactor(d, s[2..]).Done?
    ensures var f := ParseFactor(d, s[2..]);
      FoldTerm(d, s, acc) == FoldTerm(d, f.rest, Bin(ExactDiv, acc, f.value))
  {
    assert TermTag(d, s) == Some(SlashSlash);
    var f := ParseFactor(d, s[2..]);
    FoldTermRound(d, s, acc, SlashSlash, s[2..], Bin(ExactDiv, acc, f.value));
  }

  /** In the split engine a `%` followed by a factor reaches the closure's
      panic arm, so the whole parse panics. */
  lemma PercentPanics(s: string)
    requires ParseFactor(Split, s).Done?
    requires var r := ParseFactor(Split, s).rest;
      |r| > 0 && r[0] == '%' && ParseFactor(Split, r[1..]).Done?
    ensures ParseTerm(Split, s) == Panic
    ensures ParseExpr(Split, s) == Panic
  {
    var f := ParseFactor(Split, s);
    FoldTermPanics(f.rest, f.value);
  }

  /** The term fold at a `%` followed by a factor, in the split engine. */
  lemma FoldTermPanics(s: string, acc: Expr)
    requires |s| > 0 && s[0] == '%' && ParseFactor(Split, s[1..]).Done?
    ensures FoldTerm(Split, s, acc) == Panic
  {
    PercentTag(Split, s);
  }

  /** `%` is neither a term tag of the monolithic engine nor an
      expression tag. */
  lemma PercentNoTag(s: string)
    requires |s| > 0 && s[0] == '%'
    ensures TermTag(Monolithic, s) == None && ExprTag(s) == None
  {
  }

  /** `%` at the head of the input is a term tag wherever it is recognised. */
  lemma PercentTag(d: Dialect, s: string)
    requires d != Monolithic && |s| > 0 && s[0] == '%'
    ensures TermTag(d, s) == Some(Percent) && TagLength(Percent) == 1
  {
  }

  /** In the repaired engine the same input builds a `Mod` node from the
      factors on either side of `%`. */
  lemma PercentBuildsMod(s: string)
    requires ParseFactor(Repaired, s).Done?
    requires var r := ParseFactor(Repaired, s).rest;
      |r| > 0 && r[0] == '%' && ParseFactor(Repaired, r[1..]).Done?
    ensures var f := ParseFactor(Repaired, s);
      var g := ParseFactor(Repaired, f.rest[1..]);
      ParseTerm(Repaired, s) == FoldTerm(Repaired, g.rest, Bin(Mod, f.value, g.value))
  {
    var f := ParseFactor(Repaired, s);
    FoldTermMod(f.rest, f.value);
  }

  /** The term fold at a `%` followed by a factor, in the repaired engine. */
  lemma FoldTermMod(s: string, acc: Expr)
    requires |s| > 0 && s[0] == '%' && ParseFactor(Repaired, s[1..]).Done?
    ensures var g := ParseFactor(Repaired, s[1..]);
      FoldTerm(Repaired, s, acc) == FoldTerm(Repaired, g.rest, Bin(Mod, acc, g.value))
  {
    PercentTag(Repaired, s);
    var g := ParseFactor(Repaired, s[1..]);
    FoldTermRound(Repaired, s, acc, Percent, s[1..], Bin(Mod, acc, g.value));
  }

  /** The monolithic engine has no `%` tag: the term ends before it, and the
      `%` and everything after it is returned as unconsumed input. */
  lemma PercentEndsMonolithicParse(s: string)
    requires ParseFactor(Monolithic, s).Done?
    requires var r := ParseFactor(Monolithic, s).rest; |r| > 0 && r[0] == '%'
    ensures ParseTerm(Monolithic, s) == ParseFactor(Monolithic, s)
    ensures ParseExpr(Monolithic, s) == ParseFactor(Monolithic, s)
  {
    var f := ParseFactor(Monolithic, s);
    PercentNoTag(f.rest);
    FoldTermStops(Monolithic, f.rest, f.value);
    FoldExprStops(Monolithic, f.rest, f.value);
  }

  /** Without a term tag at its head the term fold returns its accumulator
      and leaves the input alone. */
  lemma FoldTermStops(d: Dialect, s: string, acc: Expr)
    requires TermTag(d, s) == None
    ensures FoldTerm(d, s, acc) == Done(s, acc)
  {
  }

  /** Without `+` or `-` at its head the expression fold returns its
      accumulator and leaves the input alone. */
  lemma FoldExprStops(d: Dialect, s: string, acc: Expr)
    requires ExprTag(s) == None
    ensures FoldExpr(d, s, acc) == Done(s, acc)
  {
  }

  /** Input left over after the last term is returned with the tree, not
      reported as an error. */
  lemma TrailingInputReturned(d: Dialect, s: string)
    requires ParseTerm(d, s).Done? && ExprTag(ParseTerm(d, s).rest) == None
    ensures ParseExpr(d, s) == ParseTerm(d, s)
  {
    var t := ParseTerm(d, s);
    FoldExprStops(d, t.rest, t.value);
  }

  /** A lone integer literal followed by anything that is not an operator
      (for instance an unmatched `)`) parses to that literal, and what
      follows it is returned unconsumed. */
  lemma LoneIntegerLiteral(d: Dialect, s: string, b: nat, i: nat)
    requires b < i <= |s| && AllBlank(s[..b]) && AllDigits(s[b..i])
    requires i == |s| || (!IsDigit(s[i]) && s[i] != '.')
    requires DecimalValue(s[b..i]) <= MaxOf(I128)
    requires var r := SkipBlanks(s[i..]); TermTag(d, r) == None && ExprTag(r) == None
    ensures ParseExpr(d, s) == Done(SkipBlanks(s[i..]), Lit(Integer(DecimalValue(s[b..i]))))
  {
    var r, e := SkipBlanks(s[i..]), Lit(Integer(DecimalValue(s[b..i])));
    IntegerLiteralRule(s, b, i);
    assert ParseFactor(d, s) == Done(r, e);
    FoldTermStops(d, r, e);
    FoldExprStops(d, r, e);
  }

  /** An integer literal as the grammar reads it: a non-empty run of
      digits whose value fits in `i128`. */
  predicate IntLiteral(w: string)
  {
    w != [] && AllDigits(w) && DecimalValue(w) <= MaxOf(I128)
  }

  /** The tree of a digit run. */
  function LitOf(w: string): (e: Expr)
    requires AllDigits(w)
    ensures e.Lit? && e.n.Integer?
  {
    Lit(Integer(DecimalValue(w)))
  }

  /** A term written without blanks or brackets: a literal, then tags each
      followed by a literal. */
  datatype TermChain = TermChain(first: string, links: seq<(TermOp, string)>)

  /** An expression written without blanks or brackets: a term, then `+`
      or `-` each followed by a term. */
  datatype ExprChain = ExprChain(first: TermChain, links: seq<(Op, TermChain)>)

  /** Every link is a tag the dialect folds without panicking, followed by
      an integer literal. */
  predicate ProductLinksOk(d: Dialect, links: seq<(TermOp, string)>)
  {
    forall i :: 0 <= i < |links| ==> IntLiteral(links[i].1) && (links[i].0 == Percent ==> d == Repaired)
  }

  predicate TermChainOk(d: Dialect, t: TermChain)
  {
    IntLiteral(t.first) && ProductLinksOk(d, t.links)
  }

  /** Every link is `+` or `-` followed by a well-formed term. */
  predicate SumLinksOk(d: Dialect, links: seq<(Op, TermChain)>)
  {
    forall i :: 0 <= i < |links| ==> (links[i].0 == Add || links[i].0 == Sub) && TermChainOk(d, links[i].1)
  }

  predicate ExprChainOk(d: Dialect, e: ExprChain)
  {
    TermChainOk(d, e.first) && SumLinksOk(d, e.links)
  }

  /** The text of the links of a term, followed by `x`. */
  function ProductLinksThen(links: seq<(TermOp, string)>, x: string): string
  {
    if links == [] then x else TagText(links[0].0) + (links[0].1 + ProductLinksThen(links[1..], x))
  }

  /** The text of a term, followed by `x`. */
  function TermThen(t: TermChain, x: string): string
  {
    t.first + ProductLinksThen(t.links, x)
  }

  /** The text of the links of an expression, followed by `x`. */
  function SumLinksThen(links: seq<(Op, TermChain)>, x: string): string
  {
    if links == [] then x else SignText(links[0].0) + TermThen(links[0].1, SumLinksThen(links[1..], x))
  }

  /** The text of an expression, followed by `x`. */
  function ExprThen(e: ExprChain, x: string): string
  {
    TermThen(e.first, SumLinksThen(e.links, x))
  }

  /** The reference reading of a term: its literals combined from the left,
      each tag building its node over everything before it. */
  function FoldProducts(acc: Expr, links: seq<(TermOp, string)>): Expr
    requires forall i :: 0 <= i < |links| ==> AllDigits(links[i].1)
    decreases |links|
  {
    if links == [] then acc
    else FoldProducts(Bin(NodeOp(links[0].0), acc, LitOf(links[0].1)), links[1..])
  }

  function TermTree(t: TermChain): Expr
    requires AllDigits(t.first) && forall i :: 0 <= i < |t.links| ==> AllDigits(t.links[i].1)
  {
    FoldProducts(LitOf(t.first), t.links)
  }

  /** The reference reading of an expression: its terms, each read as a
      whole first, combined from the left by `+` and `-`. */
  function FoldSums(d: Dialect, acc: Expr, links: seq<(Op, TermChain)>): Expr
    requires SumLinksOk(d, links)
    decreases |links|
  {
    if links == [] then acc
    else FoldSums(d, Bin(links[0].0, acc, TermTree(links[0].1)), links[1..])
  }

  function ExprTree(d: Dialect, e: ExprChain): Expr
    requires ExprChainOk(d, e)
  {
    FoldSums(d, TermTree(e.first), e.links)
  }

  /** What may follow a literal without joining it: nothing, or a character
      that is not a digit, a dot or a blank. */
  predicate EndsLiteral(x: string)
  {
    x == [] || (!IsDigit(x[0]) && x[0] != '.' && !IsBlank(x[0]))
  }

  /** What may follow a term: it ends the literal and is not a term tag. */
  predicate EndsTerm(d: Dialect, x: string)
  {
    EndsLiteral(x) && TermTag(d, x) == None
  }

  /** What may follow an expression: it ends the term and is not `+` or
      `-`. */
  predicate EndsExpr(d: Dialect, x: string)
  {
    EndsTerm(d, x) && ExprTag(x) == None
  }

  /** An integer literal followed by a character that cannot continue it is
      a factor, in every dialect; the factor ends right after it. */
  lemma LiteralFactor(d: Dialect, w: string, x: string)
    requires IntLiteral(w) && EndsLiteral(x)
    ensures ParseFactor(d, w + x) == Done(x, LitOf(w))
  {
    LiteralNum(w, x);
    NumberIsFactor(d, w + x);
  }

  /** `parse_num` on an integer literal followed by a character that
      cannot continue it. */
  lemma LiteralNum(w: string, x: string)
    requires IntLiteral(w) && EndsLiteral(x)
    ensures ParseNum(w + x) == Done(x, LitOf(w))
  {
    var s := w + x;
    assert s[..0] == [] && s[0..|w|] == w && s[|w|..] == x;
    SkipBlanksAt(x, 0);
    assert SkipBlanks(x) == x;
    IntegerLiteralRule(s, 0, |w|);
  }

  /** A number is a factor. */
  lemma NumberIsFactor(d: Dialect, s: string)
    requires ParseNum(s).Done?
    ensures ParseFactor(d, s) == ParseNum(s)
  {
  }

  /** The text after a term's first literal ends that literal. */
  lemma ProductLinksEndLiteral(d: Dialect, links: seq<(TermOp, string)>, x: string)
    requires EndsTerm(d, x)
    ensures EndsLiteral(ProductLinksThen(links, x))
  {
    if links != [] {
      assert ProductLinksThen(links, x)[0] == TagText(links[0].0)[0];
    }
  }

  /** The text after an expression's first term ends that term. */
  lemma SumLinksEndTerm(d: Dialect, links: seq<(Op, TermChain)>, x: string)
    requires EndsExpr(d, x)
    ensures EndsTerm(d, SumLinksThen(links, x))
  {
    if links != [] {
      assert SumLinksThen(links, x)[0] == SignText(links[0].0)[0];
    }
  }

  lemma ProductLinksTail(d: Dialect, links: seq<(TermOp, string)>)
    requires links != [] && ProductLinksOk(d, links)
    ensures ProductLinksOk(d, links[1..])
  {
    forall i | 0 <= i < |links[1..]|
      ensures IntLiteral(links[1..][i].1) && (links[1..][i].0 == Percent ==> d == Repaired)
    {
      assert links[1..][i] == links[i + 1];
    }
  }

  lemma SumLinksTail(d: Dialect, links: seq<(Op, TermChain)>)
    requires links != [] && SumLinksOk(d, links)
    ensures SumLinksOk(d, links[1..])
  {
    forall i | 0 <= i < |links[1..]|
      ensures (links[1..][i].0 == Add || links[1..][i].0 == Sub) && TermChainOk(d, links[1..][i].1)
    {
      assert links[1..][i] == links[i + 1];
    }
  }

  /** One round of the term fold over a tag and an integer literal. */
  lemma FoldTermLiteralRound(d: Dialect, tag: TermOp, w: string, y: string, acc: Expr)
    requires IntLiteral(w) && EndsLiteral(y) && (tag == Percent ==> d == Repaired)
    ensures FoldTerm(d, TagText(tag) + (w + y), acc) == FoldTerm(d, y, Bin(NodeOp(tag), acc, LitOf(w)))
  {
    LiteralFactor(d, w, y);
    FoldTermContinues(d, tag, w + y, acc);
  }

  /** The term fold over tags and literals builds the left fold of
      `FoldProducts` and stops exactly at the end of the term. */
  lemma {:induction false} FoldTermOfLinks(d: Dialect, links: seq<(TermOp, string)>, acc: Expr, x: string)
    requires ProductLinksOk(d, links) && EndsTerm(d, x)
    ensures FoldTerm(d, ProductLinksThen(links, x), acc) == Done(x, FoldProducts(acc, links))
    decreases |links|
  {
    if links == [] {
      FoldTermStops(d, x, acc);
    } else {
      ProductLinksEndLiteral(d, links[1..], x);
      FoldTermLiteralRound(d, links[0].0, links[0].1, ProductLinksThen(links[1..], x), acc);
      ProductLinksTail(d, links);
      FoldTermOfLinks(d, links[1..], Bin(NodeOp(links[0].0), acc, LitOf(links[0].1)), x);
    }
  }

  /** `parse_term` on a term of literals yields `TermTree`, and the term
      ends right after its last literal. */
  lemma ParseTermOfChain(d: Dialect, t: TermChain, x: string)
    requires TermChainOk(d, t) && EndsTerm(d, x)
    ensures ParseTerm(d, TermThen(t, x)) == Done(x, TermTree(t))
  {
    ProductLinksEndLiteral(d, t.links, x);
    LiteralFactor(d, t.first, ProductLinksThen(t.links, x));
    FoldTermOfLinks(d, t.links, LitOf(t.first), x);
  }

  /** One round of the expression fold over a sign and a term of
      literals. */
  lemma FoldExprChainRound(d: Dialect, op: Op, t: TermChain, y: string, acc: Expr)
    requires (op == Add || op == Sub) && TermChainOk(d, t) && EndsTerm(d, y)
    ensures FoldExpr(d, SignText(op) + TermThen(t, y), acc) == FoldExpr(d, y, Bin(op, acc, TermTree(t)))
  {
    ParseTermOfChain(d, t, y);
    FoldExprContinues(d, op, TermThen(t, y), acc);
  }

  /** The expression fold over signs and terms builds the left fold of
      `FoldSums` and stops exactly at the end of the expression. */
  lemma {:induction false} FoldExprOfLinks(d: Dialect, links: seq<(Op, TermChain)>, acc: Expr, x: string)
    requires SumLinksOk(d, links) && EndsExpr(d, x)
    ensures FoldExpr(d, SumLinksThen(links, x), acc) == Done(x, FoldSums(d, acc, links))
    decreases |links|
  {
    if links == [] {
      FoldExprStops(d, x, acc);
    } else {
      SumLinksEndTerm(d, links[1..], x);
      FoldExprChainRound(d, links[0].0, links[0].1, SumLinksThen(links[1..], x), acc);
      SumLinksTail(d, links);
      FoldExprOfLinks(d, links[1..], Bin(links[0].0, acc, TermTree(links[0].1)), x);
    }
  }

  /** Precedence and associativity: `parse_expr` on integer literals joined
      by operators, with no blanks or brackets, yields the reference tree,
      in which every term is grouped before the sums and both levels
      associate to the left; it reads the whole expression and returns
      what follows it. */
  lemma ParseExprOfChain(d: Dialect, e: ExprChain, x: string)
    requires ExprChainOk(d, e) && EndsExpr(d, x)
    ensures ParseExpr(d, ExprThen(e, x)) == Done(x, ExprTree(d, e))
  {
    SumLinksEndTerm(d, e.links, x);
    ParseTermOfChain(d, e.first, SumLinksThen(e.links, x));
    FoldExprOfLinks(d, e.links, TermTree(e.first), x);
  }

  /** A bracketed expression is a factor: `(`, the expression the inner
      text parses to, `)`, and the blanks after it, in every dialect. */
  lemma ParenthesisedFactor(d: Dialect, u: string, e: Expr, x: string)
    requires ParseExpr(d, SkipBlanks(u)) == Done(")" + x, e)
    ensures ParseParens(d, "(" + u) == Done(SkipBlanks(x), e)
    ensures ParseFactor(d, "(" + u) == Done(SkipBlanks(x), e)
  {
    OpeningBracket(u);
    ClosingBracket(x);
    ParensRound(d, "(" + u, SkipBlanks(u), ")" + x, SkipBlanks(x));
  }

  /** An opening bracket starts no number and is read with the blanks
      after it. */
  lemma OpeningBracket(u: string)
    ensures ParseNum("(" + u).Error? && Bracket("(" + u, '(') == Some(SkipBlanks(u))
  {
    var s := "(" + u;
    assert |s| > 0 && s[0] == '(' && s[1..] == u;
    BracketAtHead('(', s);
    NoNumberAtBracket(s);
  }

  /** A closing bracket is read with the blanks after it. */
  lemma ClosingBracket(x: string)
    ensures Bracket(")" + x, ')') == Some(SkipBlanks(x))
  {
    var r := ")" + x;
    assert |r| > 0 && r[0] == ')' && r[1..] == x;
    BracketAtHead(')', r);
  }

  /** A bracket at the head of the input is read with the blanks after
      it. */
  lemma BracketAtHead(c: char, s: string)
    requires !IsBlank(c) && |s| > 0 && s[0] == c
    ensures Bracket(s, c) == Some(SkipBlanks(s[1..]))
  {
    SkipBlanksAt(s, 0);
  }

  /** `parse_factor` unfolded at a bracket: no number, the opening
      bracket, an expression, the closing bracket. */
  lemma ParensRound(d: Dialect, s: string, inner: string, r: string, v: string)
    requires ParseNum(s).Error? && Bracket(s, '(') == Some(inner)
    requires ParseExpr(d, inner).Done? && ParseExpr(d, inner).rest == r && Bracket(r, ')') == Some(v)
    ensures ParseParens(d, s) == Done(v, ParseExpr(d, inner).value)
    ensures ParseFactor(d, s) == ParseParens(d, s)
  {
  }

  /** No number starts with `(`. */
  lemma NoNumberAtBracket(s: string)
    requires |s| > 0 && s[0] == '('
    ensures ParseNum(s).Error?
  {
    SkipBlanksAt(s, 0);
    assert SkipBlanks(s) == s;
    NoFloatAtHead(s);
    assert FloatNum(s).Error?;
    DigitsEndAt(s, 0, 0);
    assert IntegerNum(s).Error?;
    NeitherNumber(s);
  }

  /** Where neither alternative matches after the blanks, `parse_num`
      fails. */
  lemma NeitherNumber(s: string)
    requires FloatNum(SkipBlanks(s)).Error? && IntegerNum(SkipBlanks(s)).Error?
    ensures ParseNum(s).Error?
  {
  }

  /** A character absent from a text is absent from its suffixes. */
  lemma NotInSuffix(c: char, r: string, s: string)
    requires SuffixOf(r, s)
    ensures c !in s ==> c !in r
  {
    forall x | 0 <= x < |r|
      ensures r[x] in s
    {
      assert r[x] == s[|s| - |r| + x];
    }
  }

  /** A product: literals combined by `*`, `/`, `//` and `%`, folded to
      the left, so every right operand is a literal. */
  predicate Product(e: Expr)
  {
    match e
    case Lit(_) => true
    case Bin(op, l, r) => op != Add && op != Sub && Product(l) && r.Lit?
  }

  /** A sum of products: products combined by `+` and `-`, folded to the
      left, so every right operand is a product. */
  predicate SumOfProducts(e: Expr)
  {
    match e
    case Lit(_) => true
    case Bin(op, l, r) =>
      if op == Add || op == Sub then SumOfProducts(l) && Product(r) else Product(e)
  }

}
