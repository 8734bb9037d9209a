/** The rotated tree diagram of the split tree engine (`pretty0`,
    `get_arm`, `pretty`). The diagram is a list of lines, one per node:
    the right subtree, then the node, then the left subtree, so reading it
    from the bottom up gives the operands and operators in infix order. */
module Pretty {
  import opened Common
  import opened Numeric
  import opened Expression

  /** Which child of its parent a node is drawn as. */
  datatype Arm = Left | Right | Root

  /** `get_arm`: the glyph that joins a node to its parent. */
  function ArmGlyph(arm: Arm): (g: string)
    ensures arm == Root <==> g == ""
  {
    match arm
    case Left => "   ╰"
    case Right => "   ╭"
    case Root => ""
  }

  /** The text of a node kind; `Mod` shows the glyph of `ExactDiv`. */
  function OpGlyph(op: Op): string
  {
    match op
    case Add => "+"
    case Sub => "-"
    case Mul => "*"
    case Div => "/"
    case ExactDiv => "//"
    case Mod => "//"
  }

  /** Decimal text of a natural number, most significant digit first. */
  function NatText(n: nat): (t: string)
    ensures |t| > 0 && AllDigits(t)
  {
    var d := [('0' as int + n % 10) as char];
    if n < 10 then d else NatText(n / 10) + d
  }

  /** Reading the decimal text back gives the number. */
  lemma {:induction false} NatTextRoundTrip(n: nat)
    ensures DecimalValue(NatText(n)) == n
  {
    var t := NatText(n);
    if n >= 10 {
      NatTextRoundTrip(n / 10);
      assert t[..|t| - 1] == NatText(n / 10);
    }
  }

  /** `{}` of an integer: an optional minus sign, then the digits. */
  function IntText(i: int): string
  {
    if i < 0 then "-" + NatText(-i) else NatText(i)
  }

  /** `{}` of a `Num`; how an `f64` is written is the parameter
      `floatText`. */
  function NumText(n: Num, floatText: F64 -> string): string
  {
    match n
    case Integer(i) => IntText(i)
    case Float(f) => floatText(f)
  }

  /** What one line of the diagram shows: a number or an operator. */
  datatype Node = NumNode(n: Num) | OpNode(op: Op)

  /** The node a tree's root shows. */
  function Top(e: Expr): Node
  {
    match e
    case Lit(n) => NumNode(n)
    case Bin(op, _, _) => OpNode(op)
  }

  /** The text of a node: its number or its operator glyph. */
  function NodeText(node: Node, floatText: F64 -> string): string
  {
    match node
    case NumNode(n) => NumText(n, floatText)
    case OpNode(op) => OpGlyph(op)
  }

  /** The nodes of the tree in infix order: left subtree, node, right
      subtree. */
  function InOrder(e: Expr): (s: seq<Node>)
  {
    match e
    case Lit(n) => [NumNode(n)]
    case Bin(op, l, r) => InOrder(l) + [OpNode(op)] + InOrder(r)
  }

  /** The indentation of a line at `level`: `"   |"` repeated
      `level - 1` times. */
  function Indent(level: Level): string
  {
    Repeat("   |", level - 1)
  }

  /** One line of the diagram before it is written out: its level, the arm
      it hangs from and the node it shows. */
  datatype Line = Line(level: Level, arm: Arm, node: Node)

  /** Depth of a line in the diagram; the root is at level 1. */
  type Level = n: nat | n >= 1 witness 1

  /** The written form of a line: the indentation, the arm glyph, the
      connector `"── "` and the node's text. */
  function Render(line: Line, floatText: F64 -> string): string
  {
    Indent(line.level) + (ArmGlyph(line.arm) + ("── " + NodeText(line.node, floatText)))
  }

  /** The lines of `e` drawn as `arm` at `level`: the right subtree one
      level deeper, the node's own line, the left subtree one level
      deeper. */
  function Lines(e: Expr, arm: Arm, level: Level): (r: seq<Line>)
    ensures |r| == |InOrder(e)|
  {
    match e
    case Lit(n) => [Line(level, arm, NumNode(n))]
    case Bin(op, l, rt) => Lines(rt, Right, level + 1) + [Line(level, arm, OpNode(op))] + Lines(l, Left, level + 1)
  }

  /** What `pretty0` writes before it returns or panics: the lines, and
      whether it completed. */
  datatype Drawing = Drawing(lines: seq<Line>, complete: bool)

  /** `pretty0`: each line's indentation is `level - 1` units of a `usize`.
      From level 1 on it draws `Lines`. At level 0 a number's line panics
      at once; an operator's node first draws its right subtree at level 1
      and then panics on its own line, so that subtree's lines are all it
      writes. */
  function Pretty0(e: Expr, arm: Arm, level: nat): (r: Drawing)
    ensures r.complete <==> level >= 1
    ensures r.complete ==> r.lines == Lines(e, arm, level)
  {
    if level >= 1 then Drawing(Lines(e, arm, level), true)
    else if e.Bin? then Drawing(Lines(e.rhs, Right, 1), false)
    else Drawing([], false)
  }

  /** A line moved one level deeper. */
  function Deeper(line: Line): Line
  {
    Line(line.level + 1, line.arm, line.node)
  }

  /** Every line of `lines` moved one level deeper. */
  function DeeperAll(lines: seq<Line>): (r: seq<Line>)
    ensures |r| == |lines|
  {
    seq(|lines|, i requires 0 <= i < |lines| => Deeper(lines[i]))
  }

  /** Drawing a tree one level deeper moves every line one level deeper
      and changes nothing else. */
  lemma {:induction false} LinesDeeper(e: Expr, arm: Arm, level: Level)
    ensures Lines(e, arm, level + 1) == DeeperAll(Lines(e, arm, level))
  {
    match e
    case Lit(n) =>
    case Bin(op, l, rt) =>
      LinesDeeper(rt, Right, level + 1);
      LinesDeeper(l, Left, level + 1);
      var r1, l1 := Lines(rt, Right, level + 1), Lines(l, Left, level + 1);
      DeeperConcat(r1, [Line(level, arm, OpNode(op))], l1);
  }

  /** Moving lines deeper distributes over joining them. */
  lemma DeeperConcat(a: seq<Line>, b: seq<Line>, c: seq<Line>)
    ensures DeeperAll(a + b + c) == DeeperAll(a) + DeeperAll(b) + DeeperAll(c)
  {
  }

  /** What `pretty0` writes at level 0 before it panics is the top of the
      diagram drawn at level 1, down to just above the root's own line,
      with every line one level shallower. */
  lemma PrettyAtLevelZero(e: Expr, arm: Arm)
    ensures var r := Pretty0(e, arm, 0);
      !r.complete && |r.lines| == NodeLine(e) && DeeperAll(r.lines) == Lines(e, arm, 1)[..NodeLine(e)]
  {
    if e.Bin? {
      var right, rest := Lines(e.rhs, Right, 1), [Line(1, arm, OpNode(e.op))] + Lines(e.lhs, Left, 2);
      LinesDeeper(e.rhs, Right, 1);
      assert Lines(e, arm, 1) == DeeperAll(right) + rest;
      assert (DeeperAll(right) + rest)[..|right|] == DeeperAll(right);
    }
  }


  /** Line `i` of the diagram shows the node `j` of the infix order when
      `i` counts from the top as far as `j` counts from the end: read
      bottom up, the diagram lists the nodes in infix order. */
  lemma {:induction false} PrettyOrder(e: Expr, arm: Arm, level: Level, i: nat, j: nat)
    requires i + j + 1 == |InOrder(e)|
    ensures Lines(e, arm, level)[i].node == InOrder(e)[j]
  {
    match e
    case Lit(n) =>
    case Bin(op, l, rt) =>
      var right, left := Lines(rt, Right, level + 1), Lines(l, Left, level + 1);
      var li, ri := InOrder(l), InOrder(rt);
      var x := Line(level, arm, OpNode(op));
      assert Lines(e, arm, level) == right + [x] + left;
      assert InOrder(e) == li + [x.node] + ri;
      Pick(right, x, left, i);
      Pick(li, x.node, ri, j);
      assert |right| == |ri| && |left| == |li|;
      if i < |right| {
        PrettyOrder(rt, Right, level + 1, i, j - |li| - 1);
        assert Lines(e, arm, level)[i] == right[i] && InOrder(e)[j] == ri[j - |li| - 1];
      } else if i > |right| {
        PrettyOrder(l, Left, level + 1, i - |right| - 1, j);
        assert Lines(e, arm, level)[i] == left[i - |right| - 1] && InOrder(e)[j] == li[j];
      }
  }

  /** Position of a tree's own node line in its diagram: after the lines of
      its right subtree. */
  function NodeLine(e: Expr): nat
  {
    if e.Bin? then |InOrder(e.rhs)| else 0
  }

  /** The lines of a subtree drawn at `level` are at that level or deeper;
      exactly one of them, the subtree's own node line, is at `level`, and
      it hangs from `arm` and shows the subtree's root. */
  lemma {:induction false} PrettyLevel(e: Expr, arm: Arm, level: Level, i: nat)
    requires i < |InOrder(e)|
    ensures var lines, k := Lines(e, arm, level), NodeLine(e);
      lines[i].level >= level && (lines[i].level == level <==> i == k)
      && (i == k ==> lines[i].arm == arm && lines[i].node == Top(e))
  {
    match e
    case Lit(n) =>
    case Bin(op, l, rt) =>
      var right, left := Lines(rt, Right, level + 1), Lines(l, Left, level + 1);
      Pick(right, Line(level, arm, OpNode(op)), left, i);
      if i < |right| {
        PrettyLevel(rt, Right, level + 1, i);
      } else if i > |right| {
        PrettyLevel(l, Left, level + 1, i - |right| - 1);
      }
  }

  /** Indexing into `a + [x] + b`. */
  lemma Pick<T>(a: seq<T>, x: T, b: seq<T>, i: nat)
    requires i < |a| + 1 + |b|
    ensures (a + [x] + b)[i] == if i < |a| then a[i] else if i == |a| then x else b[i - |a| - 1]
  {
  }

  /** A written line starts with its level's indentation and ends with the
      connector and its node's text; a root line at level 1 is nothing
      more than that. */
  lemma RenderShape(line: Line, floatText: F64 -> string)
    ensures Indent(line.level) <= Render(line, floatText)
    ensures EndsWith(Render(line, floatText), "── " + NodeText(line.node, floatText))
    ensures line.level == 1 && line.arm == Root ==> Render(line, floatText) == "── " + NodeText(line.node, floatText)
  {
    Layers(Indent(line.level), ArmGlyph(line.arm), "── " + NodeText(line.node, floatText));
  }

  /** The outer layers of `a + (b + c)`. */
  lemma Layers(a: string, b: string, c: string)
    ensures a <= a + (b + c)
    ensures EndsWith(a + (b + c), c)
    ensures a == [] && b == [] ==> a + (b + c) == c
  {
    assert (a + (b + c))[|a + b|..] == c;
  }

  /** `pretty`: ignores its `level` argument and draws the root at level
      0, so it never completes; what it writes first is described by
      `PrettyAtLevelZero`. */
  function Pretty(e: Expr, level: nat): (r: Drawing)
    ensures !r.complete && |r.lines| == NodeLine(e)
  {
    PrettyAtLevelZero(e, Root);
    Pretty0(e, Root, 0)
  }

  /** The entry point as evidently intended: the root drawn at level 1 and
      every line written out. */
  function PrettyFixed(e: Expr, floatText: F64 -> string): (text: seq<string>)
    ensures |text| == |InOrder(e)|
  {
    var lines := Lines(e, Root, 1);
    seq(|lines|, i requires 0 <= i < |lines| => Render(lines[i], floatText))
  }

  /** In the repaired diagram line `i` shows node `j` of the infix order
      when `i` counts from the top as far as `j` from the end; the root's
      line, below the whole right subtree, is exactly `"── "` and the root's
      text, and every other line is indented by at least one unit. */
  lemma PrettyFixedLines(e: Expr, floatText: F64 -> string, i: nat, j: nat)
    requires i + j + 1 == |InOrder(e)|
    ensures var text := PrettyFixed(e, floatText);
      EndsWith(text[i], "── " + NodeText(InOrder(e)[j], floatText))
      && (i == NodeLine(e) ==> text[i] == "── " + NodeText(Top(e), floatText))
      && (i != NodeLine(e) ==> Indent(2) <= text[i])
  {
    var lines := Lines(e, Root, 1);
    PrettyOrder(e, Root, 1, i, j);
    PrettyLevel(e, Root, 1, i);
    RenderShape(lines[i], floatText);
    if i != NodeLine(e) {
      RepeatPrefix("   |", 1, lines[i].level - 1);
      PrefixTrans(Indent(2), Indent(lines[i].level), Render(lines[i], floatText));
    }
  }
}
