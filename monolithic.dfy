/** The diagram of the single-file tree engine (`Expr::pretty` and its
    `Debug` impl). Its trees have no `Mod` node, it starts at level 0 and
    it draws no arm glyphs: a line is `"   │"` repeated `level` times, the
    connector `"── "` and the node's text. Its lines come in the same order
    and at the same depths as those of the split engine's diagram one
    level deeper, so it is written over `Pretty.Lines`. */
module MonoPretty {
  import opened Common
  import opened Numeric
  import opened Expression
  import opened Pretty

  /** A tree of the single-file engine: it has no `Mod` node. */
  type MonoExpr = e: Expr | ModFree(e) witness Lit(Integer(0))

  /** How the single-file engine writes a line drawn at `Pretty` level
      `level + 1`: `level` units of `"   │"`, then the connector. */
  function MonoRender(line: Line, floatText: F64 -> string): string
  {
    Repeat("   │", line.level - 1) + ("── " + NodeText(line.node, floatText))
  }

  /** `Expr::pretty(f, level)`: the right subtree at `level + 1`, the
      node's own line at `level`, the left subtree at `level + 1`. */
  function MonoDiagram(e: MonoExpr, level: nat, floatText: F64 -> string): (text: seq<string>)
    ensures |text| == |InOrder(e)|
  {
    var lines := Lines(e, Root, level + 1);
    seq(|lines|, i requires 0 <= i < |lines| => MonoRender(lines[i], floatText))
  }

  /** `impl Debug for Expr`: the diagram from level 0. */
  function Debug(e: MonoExpr, floatText: F64 -> string): (text: seq<string>)
    ensures |text| == |InOrder(e)|
  {
    MonoDiagram(e, 0, floatText)
  }

  /** Line `i` of the diagram drawn at `level` shows node `j` of the infix
      order when `i` counts from the top as far as `j` from the end. The
      tree's own node line is exactly `level` units of indentation, the
      connector and the root's text; every other line is indented at least
      one unit deeper. */
  lemma MonoDiagramLines(e: MonoExpr, level: nat, floatText: F64 -> string, i: nat, j: nat)
    requires i + j + 1 == |InOrder(e)|
    ensures var text := MonoDiagram(e, level, floatText);
      EndsWith(text[i], "── " + NodeText(InOrder(e)[j], floatText))
      && (i == NodeLine(e) ==> text[i] == Repeat("   │", level) + ("── " + NodeText(Top(e), floatText)))
      && (i != NodeLine(e) ==> Repeat("   │", level + 1) <= text[i])
  {
    var lines := Lines(e, Root, level + 1);
    PrettyOrder(e, Root, level + 1, i, j);
    PrettyLevel(e, Root, level + 1, i);
    MonoLineShape(lines[i], level, floatText);
    assert MonoDiagram(e, level, floatText)[i] == MonoRender(lines[i], floatText);
  }

  /** A written line drawn at `level + 1` or deeper ends with the connector
      and its node's text; at `level + 1` it has exactly `level` units of
      indentation before them, and deeper at least `level + 1` units. */
  lemma MonoLineShape(line: Line, level: nat, floatText: F64 -> string)
    requires line.level >= level + 1
    ensures EndsWith(MonoRender(line, floatText), "── " + NodeText(line.node, floatText))
    ensures line.level == level + 1 ==>
      MonoRender(line, floatText) == Repeat("   │", level) + ("── " + NodeText(line.node, floatText))
    ensures line.level > level + 1 ==> Repeat("   │", level + 1) <= MonoRender(line, floatText)
  {
    var units, tail := Repeat("   │", line.level - 1), "── " + NodeText(line.node, floatText);
    Halves(units, tail);
    if line.level > level + 1 {
      RepeatPrefix("   │", level + 1, line.level - 1);
      PrefixTrans(Repeat("   │", level + 1), units, units + tail);
    }
  }
}
