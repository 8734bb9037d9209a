/** The line-oriented Markdown element recognisers of
    `playground/examples/md_parser.rs`: each reads one element from the
    front of the input and returns the rest. Positions are indices into the
    input. */
module Markdown {
  import opened Common
  import opened Combinators

  /** `MarkdownElement`. A heading's level is a `u8`. */
  datatype Element =
    | Heading(text: string, level: nat)
    | Paragraph(text: string)
    | CodeBlock(text: string)
    | HtmlTag(text: string)
    | Blockquote(text: string)

  /** One recogniser's outcome: the element and the unread input, or no
      match (nom's recoverable error). */
  datatype Step = Matched(rest: string, element: Element) | NoMatch

  predicate IsLineBreak(c: char) { c == '\n' || c == '\r' }

  /** No line-break character in `s`. */
  predicate NoBreak(s: string)
  {
    forall x :: 0 <= x < |s| ==> !IsLineBreak(s[x])
  }

  /** Position of the first line-break character at or after `i`, or the
      end of `s`. */
  function BreakAt(s: string, i: nat): (j: nat)
    requires i <= |s|
    ensures i <= j <= |s| && (j < |s| ==> IsLineBreak(s[j]))
    decreases |s| - i
  {
    if i == |s| || IsLineBreak(s[i]) then i else BreakAt(s, i + 1)
  }

  lemma {:induction false} BreakAtOf(s: string, i: nat, j: nat)
    requires i <= j <= |s| && (j == |s| || IsLineBreak(s[j]))
    requires forall x :: i <= x < j ==> !IsLineBreak(s[x])
    ensures BreakAt(s, i) == j
    decreases j - i
  {
    if i < j {
      BreakAtOf(s, i + 1, j);
    }
  }

  /** `not_line_ending` from `i`: where the line's text ends, before the
      first `"\n"` or `"\r\n"` or at the end of `s`; a `'\r'` that does
      not start `"\r\n"` makes it fail. */
  function LineEnd(s: string, i: nat): (r: Option<nat>)
    requires i <= |s|
    ensures r.Some? ==> i <= r.value <= |s| && (r.value < |s| ==> IsLineBreak(s[r.value]))
  {
    var j := BreakAt(s, i);
    if j < |s| && s[j] == '\r' && !(j + 1 < |s| && s[j + 1] == '\n') then None else Some(j)
  }

  /** `line_ending` under `opt` at `i`: the length of a `"\n"` or `"\r\n"`
      there, else 0. */
  function LineEndingLength(s: string, i: nat): (n: nat)
    requires i <= |s|
    ensures i + n <= |s|
  {
    if i + 1 <= |s| && s[i] == '\n' then 1
    else if i + 2 <= |s| && s[i] == '\r' && s[i + 1] == '\n' then 2
    else 0
  }

  /** The input after position `e` and an optional line ending there. */
  function After(s: string, e: nat): (r: string)
    requires e <= |s|
    ensures SuffixOf(r, s) && |r| <= |s| - e
  {
    s[e + LineEndingLength(s, e)..]
  }

  /** `tail` without the line ending it may start with. */
  function SkipLineEnding(tail: string): string
  {
    After(tail, 0)
  }

  /** What may follow a line's text: the end of the input or a line
      ending. */
  predicate LineTail(tail: string)
  {
    tail == [] || LineEndingLength(tail, 0) > 0
  }

  /** End of the run of `c` starting at `i`. */
  function CharRun(s: string, i: nat, c: char): (j: nat)
    requires i <= |s|
    ensures i <= j <= |s| && (j < |s| ==> s[j] != c)
    decreases |s| - i
  {
    if i < |s| && s[i] == c then CharRun(s, i + 1, c) else i
  }

  lemma {:induction false} CharRunOf(s: string, i: nat, j: nat, c: char)
    requires i <= j <= |s| && (j == |s| || s[j] != c)
    requires forall x :: i <= x < j ==> s[x] == c
    ensures CharRun(s, i, c) == j
    decreases j - i
  {
    if i < j {
      CharRunOf(s, i + 1, j, c);
    }
  }

  /** `space1`'s run: end of the spaces and tabs starting at `i`. */
  function BlankEnd(s: string, i: nat): (j: nat)
    requires i <= |s|
    ensures i <= j <= |s| && (j < |s| ==> !IsBlank(s[j]))
    decreases |s| - i
  {
    if i < |s| && IsBlank(s[i]) then BlankEnd(s, i + 1) else i
  }

  lemma {:induction false} BlankEndOf(s: string, i: nat, j: nat)
    requires i <= j <= |s| && (j == |s| || !IsBlank(s[j]))
    requires forall x :: i <= x < j ==> IsBlank(s[x])
    ensures BlankEnd(s, i) == j
    decreases j - i
  {
    if i < j {
      BlankEndOf(s, i + 1, j);
    }
  }

  /** `parse_heading`: one or more `#` (their count, cast to `u8`, is the
      level), at least one space or tab, then the rest of the line trimmed;
      a line ending after it is consumed. */
  function ParseHeading(s: string): (r: Step)
    ensures r.Matched? ==> SuffixOf(r.rest, s) && r.element.Heading?
    ensures r.Matched? ==> var n := CharRun(s, 0, '#');
      0 < n < |s| && IsBlank(s[n]) && r.element.level == n % 256
  {
    var n := CharRun(s, 0, '#');
    if n == 0 then NoMatch
    else
      var b := BlankEnd(s, n);
      if b == n then NoMatch
      else
        match LineEnd(s, b)
        case None => NoMatch
        case Some(k) => Matched(After(s, k), Heading(Trim(s[b..k]), n % 256))
  }

  /** `parse_code_block`: the text between the opening ```` ``` ```` and
      the next one, trimmed; a line ending after the closing fence is
      consumed. */
  function ParseCodeBlock(s: string): (r: Step)
    ensures r.Matched? ==> SuffixOf(r.rest, s) && r.element.CodeBlock?
    ensures r.Matched? <==> "```" <= s && Find(s, "```", 3).Some?
  {
    if !("```" <= s) then NoMatch
    else
      match Find(s, "```", 3)
      case None => NoMatch
      case Some(k) => Matched(After(s, k + 3), CodeBlock(Trim(s[3..k])))
  }

  /** `parse_html_tag`: the text between `<` and the first `>`, trimmed; a
      line ending right after the `>` is consumed, the rest of the line is
      not. */
  function ParseHtmlTag(s: string): (r: Step)
    ensures r.Matched? ==> SuffixOf(r.rest, s) && r.element.HtmlTag?
    ensures r.Matched? <==> s != [] && s[0] == '<' && Find(s, ">", 1).Some?
  {
    if s == [] || s[0] != '<' then NoMatch
    else
      match Find(s, ">", 1)
      case None => NoMatch
      case Some(k) => Matched(After(s, k + 1), HtmlTag(Trim(s[1..k])))
  }

  /** `parse_blockquote`: `>` and the rest of the line, trimmed. */
  function ParseBlockquote(s: string): (r: Step)
    ensures r.Matched? ==> SuffixOf(r.rest, s) && |r.rest| < |s| && r.element.Blockquote?
  {
    if s == [] || s[0] != '>' then NoMatch
    else
      match LineEnd(s, 1)
      case None => NoMatch
      case Some(k) => Matched(After(s, k), Blockquote(Trim(s[1..k])))
  }

  /** `parse_paragraph`: the rest of the line, trimmed; it fails only on a
      `'\r'` that does not start a `"\r\n"`. */
  function ParseParagraph(s: string): (r: Step)
    ensures r.Matched? ==> SuffixOf(r.rest, s) && r.element.Paragraph?
    ensures r.Matched? <==> LineEnd(s, 0).Some?
  {
    match LineEnd(s, 0)
    case None => NoMatch
    case Some(k) => Matched(After(s, k), Paragraph(Trim(s[..k])))
  }

  /** The level of an opening `<h1>` to `<h6>` tag at the front of `s`. */
  function HtmlHeadingLevel(s: string): (level: Option<nat>)
    ensures level.Some? ==> |s| >= 4 && s[0] == '<' && 1 <= level.value <= 6
  {
    if |s| >= 4 && s[0] == '<' && s[1] == 'h' && '1' <= s[2] <= '6' && s[3] == '>' then
      Some(s[2] as int - '0' as int)
    else None
  }

  /** `parse_html_heading`: an opening `<h1>` to `<h6>` gives the level;
      the content runs to the first `</`, trimmed; the input then skips to
      the next `>` without consuming it. */
  function ParseHtmlHeading(s: string): (r: Step)
    ensures r.Matched? ==> SuffixOf(r.rest, s) && r.element.Heading?
    ensures r.Matched? ==> HtmlHeadingLevel(s).Some? && r.element.level == HtmlHeadingLevel(s).value
  {
    match HtmlHeadingLevel(s)
    case None => NoMatch
    case Some(level) =>
      match Find(s, "</", 4)
      case None => NoMatch
      case Some(k) =>
        match Find(s, ">", k)
        case None => NoMatch
        case Some(m) => Matched(After(s, m), Heading(Trim(s[4..k]), level))
  }

  /** The `alt` inside `parse_markdown`: code block, html tag, blockquote,
      html heading, heading, paragraph, the first that matches. */
  function ParseBlock(s: string): (r: Step)
    ensures r.Matched? ==> SuffixOf(r.rest, s)
  {
    var code := ParseCodeBlock(s);
    if code.Matched? then code
    else
      var tag := ParseHtmlTag(s);
      if tag.Matched? then tag
      else
        var quote := ParseBlockquote(s);
        if quote.Matched? then quote
        else
          var html := ParseHtmlHeading(s);
          if html.Matched? then html
          else
            var heading := ParseHeading(s);
            if heading.Matched? then heading
            else ParseParagraph(s)
  }

  /** The optional line ending after a line's text in `s` is the one that
      starts `tail`. */
  lemma AfterTail(s: string, k: nat, tail: string)
    requires k <= |s| && s[k..] == tail
    ensures After(s, k) == SkipLineEnding(tail)
  {
    assert LineEndingLength(s, k) == LineEndingLength(tail, 0);
    assert s[k + LineEndingLength(s, k)..] == tail[LineEndingLength(tail, 0)..];
  }

  /** The line's text runs from `b` to the start of `tail`. */
  lemma LineOf(s: string, b: nat, line: string, tail: string)
    requires b + |line| + |tail| == |s| && s[b..b + |line|] == line && s[b + |line|..] == tail
    requires NoBreak(line) && LineTail(tail)
    ensures LineEnd(s, b) == Some(b + |line|)
  {
    forall x | b <= x < b + |line|
      ensures !IsLineBreak(s[x])
    {
      assert s[x] == line[x - b];
    }
    assert b + |line| < |s| ==> s[b + |line|] == tail[0];
    BreakAtOf(s, b, b + |line|);
  }

  /** A heading line: `k >= 1` hashes, a run of blanks, the line's text
      and its ending give a heading of level `k` (as a `u8`) with the
      trimmed text, and the ending is consumed. */
  lemma HeadingOf(hashes: string, blanks: string, line: string, tail: string)
    requires hashes != [] && forall x :: 0 <= x < |hashes| ==> hashes[x] == '#'
    requires blanks != [] && AllBlank(blanks)
    requires NoBreak(line) && (line == [] || !IsBlank(line[0]))
    requires LineTail(tail)
    ensures ParseHeading(hashes + blanks + line + tail)
         == Matched(SkipLineEnding(tail), Heading(Trim(line), |hashes| % 256))
  {
    var s := hashes + blanks + line + tail;
    var n, b := |hashes|, |hashes| + |blanks|;
    CharRunOf(s, 0, n, '#');
    assert b < |s| ==> s[b] == (line + tail)[0];
    BlankEndOf(s, n, b);
    assert s[b..b + |line|] == line && s[b + |line|..] == tail;
    LineOf(s, b, line, tail);
    HeadingAt(s, n, b, b + |line|);
    AfterTail(s, b + |line|, tail);
  }

  /** `parse_heading` once the run of hashes, the run of blanks and the end
      of the line are known. */
  lemma HeadingAt(s: string, n: nat, b: nat, k: nat)
    requires n <= |s| && CharRun(s, 0, '#') == n && n > 0
    requires BlankEnd(s, n) == b && b > n
    requires b <= |s| && LineEnd(s, b) == Some(k)
    ensures b <= k <= |s|
    ensures ParseHeading(s) == Matched(After(s, k), Heading(Trim(s[b..k]), n % 256))
  {
  }

  /** The heading of the example, `"# Heading 1\n"`: level 1, text
      `"Heading 1"`. */
  lemma HeadingExample()
    ensures ParseHeading("#" + " " + "Heading 1" + "\n") == Matched("", Heading("Heading 1", 1))
  {
    HeadingExampleParse("Heading 1");
    TrimmedAlready("Heading 1");
  }

  /** The example's heading line, before its text is trimmed. */
  lemma HeadingExampleParse(line: string)
    requires line == "Heading 1"
    ensures ParseHeading("#" + " " + line + "\n") == Matched("", Heading(Trim(line), 1))
  {
    assert NoBreak(line) by {
      assert forall x :: 0 <= x < |line| ==> !IsLineBreak(line[x]);
    }
    HeadingOf("#", " ", line, "\n");
  }

  /** Without a blank after the hashes there is no heading: `"#tag"` is
      not one. */
  lemma HeadingNeedsBlank(hashes: string, rest: string)
    requires hashes != [] && forall x :: 0 <= x < |hashes| ==> hashes[x] == '#'
    requires rest == [] || (rest[0] != '#' && !IsBlank(rest[0]))
    ensures ParseHeading(hashes + rest) == NoMatch
  {
    var s := hashes + rest;
    assert |hashes| < |s| ==> s[|hashes|] == rest[0];
    CharRunOf(s, 0, |hashes|, '#');
  }

  /** A fenced block: the text from the opening fence to the first closing
      fence after it, trimmed; a line ending after the closing fence is
      consumed. */
  lemma CodeBlockOf(s: string, k: nat)
    requires "```" <= s && FirstFrom(s, "```", 3, k)
    ensures ParseCodeBlock(s) == Matched(After(s, k + 3), CodeBlock(Trim(s[3..k])))
  {
    FindFirst(s, "```", 3, k);
  }

  /** An opening fence that is never closed is not a code block. */
  lemma UnclosedCodeBlock(s: string)
    requires "```" <= s
    requires forall j :: 3 <= j <= |s| ==> !("```" <= s[j..])
    ensures ParseCodeBlock(s) == NoMatch
  {
    FindSound(s, "```", 3);
  }

  /** A fence around text without a backquote: the text, trimmed, is a
      code block, and a line ending after the closing fence is consumed. */
  lemma CodeBlockAround(body: string, rest: string)
    requires '`' !in body
    ensures ParseCodeBlock("```" + body + "```" + rest) == Matched(SkipLineEnding(rest), CodeBlock(Trim(body)))
  {
    var fence := "```";
    var w := fence + rest;
    var s := fence + body + fence + rest;
    assert s == fence + (body + w);
    var k := 3 + |body|;
    forall j | 3 <= j < k
      ensures s[j] != '`'
    {
      assert s[j] == body[j - 3];
    }
    assert s[k..] == w;
    assert s[3..k] == body;
    FindAfterGap(s, fence, 3, k);
    AfterTail(s, k + 3, rest);
  }

  /** The text inside the example's fence holds no backquote. */
  lemma NoBackquote(body: string)
    requires body == "\n" + "# Not a heading" + "\n"
    ensures '`' !in body
  {
    assert forall x :: 0 <= x < |body| ==> body[x] != '`';
  }

  /** The fenced code of the example, `"```\n# Not a heading\n```\n"`: a
      heading inside a fence stays code. */
  lemma CodeBlockExample()
    ensures ParseCodeBlock("```" + ("\n" + "# Not a heading" + "\n") + "```" + "\n") == Matched("", CodeBlock("# Not a heading"))
  {
    var body := "\n" + "# Not a heading" + "\n";
    TrimAround("\n", "# Not a heading", "\n");
    assert SkipLineEnding("\n") == "";
    NoBackquote(body);
    CodeBlockAround(body, "\n");
  }

  /** An html tag: the text up to the first `>`, trimmed; only a line
      ending right after the `>` is consumed. */
  lemma HtmlTagOf(name: string, rest: string)
    requires '>' !in name
    ensures ParseHtmlTag("<" + name + ">" + rest) == Matched(SkipLineEnding(rest), HtmlTag(Trim(name)))
  {
    var s := "<" + name + ">" + rest;
    var k := |name| + 1;
    forall j | 1 <= j < k
      ensures !(">" <= s[j..])
    {
      assert s[j..][0] == name[j - 1];
    }
    assert s[k..] == ">" + rest;
    FindFirst(s, ">", 1, k);
    assert s[1..k] == name;
    AfterTail(s, k + 1, rest);
  }

  /** The html tag of the example, `"<div># Not a heading</div>\n"`: the
      text after the tag is left for the next element. */
  lemma HtmlTagExample()
    ensures ParseHtmlTag("<" + "div" + ">" + "# Not a heading</div>\n") == Matched("# Not a heading</div>\n", HtmlTag("div"))
  {
    HtmlTagOf("div", "# Not a heading</div>\n");
    TrimmedAlready("div");
  }

  /** A quoted line: `>` and the line's text, trimmed, with its ending
      consumed. */
  lemma BlockquoteOf(line: string, tail: string)
    requires NoBreak(line) && LineTail(tail)
    ensures ParseBlockquote(">" + line + tail) == Matched(SkipLineEnding(tail), Blockquote(Trim(line)))
  {
    var s := ">" + line + tail;
    assert s[1..1 + |line|] == line && s[1 + |line|..] == tail;
    LineOf(s, 1, line, tail);
    AfterTail(s, 1 + |line|, tail);
  }

  /** The blockquote of the example, `"> # Not a heading\n"`: a heading
      inside a quote is text. */
  lemma BlockquoteExample()
    ensures ParseBlockquote(">" + (" " + "# Not a heading") + "\n") == Matched("", Blockquote("# Not a heading"))
  {
    BlockquoteOf(" " + "# Not a heading", "\n");
    TrimAround(" ", "# Not a heading", "");
    assert " " + "# Not a heading" + "" == " " + "# Not a heading";
  }

  /** A paragraph line: the line's text trimmed, with its ending consumed. */
  lemma ParagraphOf(line: string, tail: string)
    requires NoBreak(line) && LineTail(tail)
    ensures ParseParagraph(line + tail) == Matched(SkipLineEnding(tail), Paragraph(Trim(line)))
  {
    var s := line + tail;
    assert s[0..|line|] == line && s[|line|..] == tail;
    LineOf(s, 0, line, tail);
    assert s[..|line|] == line;
    AfterTail(s, |line|, tail);
  }

  /** A paragraph matches the empty input and consumes nothing, which is
      why `parse_markdown`'s `many0` stops with an error at the end of an
      input, unless a lone `'\r'` has stopped the alternation before
      (`BlockStopsAtLoneCarriageReturn`). */
  lemma EmptyParagraph()
    ensures ParseParagraph("") == Matched("", Paragraph(""))
  {
    assert Trim("") == "";
  }

  /** A `'\r'` that does not start `"\r\n"` ends a paragraph line in
      failure. */
  lemma LoneCarriageReturn(line: string, rest: string)
    requires NoBreak(line) && (rest == [] || rest[0] != '\n')
    ensures ParseParagraph(line + "\r" + rest) == NoMatch
  {
    var s := line + "\r" + rest;
    assert s[|line|] == '\r';
    assert |line| + 1 < |s| ==> s[|line| + 1] == rest[0];
    forall x | 0 <= x < |line|
      ensures !IsLineBreak(s[x])
    {
      assert s[x] == line[x];
    }
    BreakAtOf(s, 0, |line|);
  }

  /** Where the parts of an html heading line sit. */
  lemma HtmlHeadingLayout(digit: char, body: string, closing: string, rest: string)
    requires '1' <= digit <= '6'
    requires '<' !in body && '>' !in closing
    ensures var s, k := ['<', 'h', digit, '>'] + body + "</" + closing + ">" + rest, 4 + |body|;
      var m := k + 2 + |closing|;
      m < |s| && s[0] == '<' && s[1] == 'h' && s[2] == digit && s[3] == '>'
      && s[4..k] == body && "</" <= s[k..] && s[m..] == ">" + rest && ">" <= s[m..]
      && (forall j :: 4 <= j < k ==> s[j] != '<')
      && (forall j :: k <= j < m ==> s[j] != '>')
  {
    var opening := ['<', 'h', digit, '>'];
    var u := "</" + closing;
    var w := ">" + rest;
    var s := opening + body + "</" + closing + ">" + rest;
    assert s == opening + (body + (u + w));
    var k := 4 + |body|;
    var m := k + |u|;
    assert s[k..] == u + w;
    assert s[m..] == w;
    assert s[4..k] == body;
    forall j | 4 <= j < k
      ensures s[j] != '<'
    {
      assert s[j] == body[j - 4];
    }
    forall i | 0 <= i < |u|
      ensures u[i] != '>'
    {
      if i >= 2 {
        assert u[i] == closing[i - 2];
      }
    }
    forall j | k <= j < m
      ensures s[j] != '>'
    {
      assert s[j] == u[j - k];
    }
    assert s[..4] == opening;
  }

  /** `parse_html_heading` on an opening tag whose text holds no `<`
      before the `</` at `k`, and whose closing tag holds no `>` before
      `m`. */
  lemma HtmlHeadingAt(s: string, k: nat, m: nat)
    requires |s| >= 4 && s[0] == '<' && s[1] == 'h' && '1' <= s[2] <= '6' && s[3] == '>'
    requires 4 <= k <= m < |s| && "</" <= s[k..] && ">" <= s[m..]
    requires forall j :: 4 <= j < k ==> s[j] != '<'
    requires forall j :: k <= j < m ==> s[j] != '>'
    ensures ParseHtmlHeading(s) == Matched(After(s, m), Heading(Trim(s[4..k]), s[2] as int - '0' as int))
  {
    FindAfterGap(s, "</", 4, k);
    FindAfterGap(s, ">", k, m);
  }

  /** An html heading line: `<hN>`, a text without `<`, `</`, a closing
      name without `>`, then `>`. The heading has level `N` and the
      trimmed text, and the input is left at the closing `>`. */
  lemma HtmlHeadingLine(digit: char, body: string, closing: string, rest: string)
    requires '1' <= digit <= '6'
    requires '<' !in body && '>' !in closing
    ensures ParseHtmlHeading(['<', 'h', digit, '>'] + body + "</" + closing + ">" + rest)
         == Matched(">" + rest, Heading(Trim(body), digit as int - '0' as int))
  {
    var s := ['<', 'h', digit, '>'] + body + "</" + closing + ">" + rest;
    var k := 4 + |body|;
    var m := k + 2 + |closing|;
    HtmlHeadingLayout(digit, body, closing, rest);
    AfterTail(s, m, ">" + rest);
    assert SkipLineEnding(">" + rest) == ">" + rest;
    HtmlHeadingAt(s, k, m);
  }

  /** The html heading of the example, `"<h1>HTML Heading 1</h1>\n"`, read
      on its own: level 1, and the input is left at the `>` of `</h1>`. */
  lemma HtmlHeadingExample()
    ensures ParseHtmlHeading(['<', 'h', '1', '>'] + "HTML Heading 1" + "</" + "h1" + ">" + "\n")
         == Matched(">" + "\n", Heading("HTML Heading 1", 1))
  {
    var body := "HTML Heading 1";
    assert '<' !in body by {
      assert forall x :: 0 <= x < |body| ==> body[x] != '<';
    }
    TrimmedAlready(body);
    HtmlHeadingLine('1', body, "h1", "\n");
  }

  /** Alternation order: input that opens and closes a fence is always a
      code block, whatever the fence holds (a `#` line inside it is never a
      heading). */
  lemma CodeBlockFirst(s: string)
    requires ParseCodeBlock(s).Matched?
    ensures ParseBlock(s) == ParseCodeBlock(s)
  {
  }

  /** Alternation order: every `<h1>`..`<h6>` line that `parse_html_heading`
      accepts is taken by `parse_html_tag` first, so `parse_markdown` never
      produces an html heading; a `Heading` from it always comes from `#`. */
  lemma HtmlHeadingShadowed(s: string)
    ensures ParseHtmlHeading(s).Matched? ==> ParseBlock(s) == ParseHtmlTag(s)
    ensures ParseBlock(s).Matched? && ParseBlock(s).element.Heading? ==> ParseBlock(s) == ParseHeading(s)
  {
    if HtmlHeadingLevel(s).Some? && Find(s, "</", 4).Some? {
      var k := Find(s, "</", 4).value;
      if Find(s, ">", k).Some? {
        var m := Find(s, ">", k).value;
        FindSound(s, ">", k);
        FindSound(s, ">", 1);
      }
    }
  }

  /** A line cut by a lone `'\r'` and opening no other element matches no
      alternative, so `parse_markdown`'s `many0` ends there without error
      and leaves that line unread. */
  lemma BlockStopsAtLoneCarriageReturn(line: string, rest: string)
    requires NoBreak(line) && (rest == [] || rest[0] != '\n')
    requires line == [] || (line[0] != '#' && line[0] != '`' && line[0] != '<' && line[0] != '>')
    ensures ParseBlock(line + "\r" + rest) == NoMatch
  {
    var s := line + "\r" + rest;
    assert s[0] != '#' && s[0] != '`' && s[0] != '<' && s[0] != '>' by {
      if line != [] {
        assert s[0] == line[0];
      }
    }
    assert !("```" <= s);
    LoneCarriageReturn(line, rest);
  }

  /** `parse_markdown`'s alternation matches whenever the first line can be
      read as a paragraph, that is unless it is cut by a lone `'\r'`. */
  lemma BlockTotal(s: string)
    ensures LineEnd(s, 0).Some? ==> ParseBlock(s).Matched?
    ensures ParseBlock(s).NoMatch? ==> ParseHeading(s).NoMatch? && ParseCodeBlock(s).NoMatch?
  {
  }
}
