/** The line filter of the small grep tool: the lines of a text that
    contain a query, either exactly or ignoring the case of ASCII letters. */
module Grep {
  import opened Common

  /** Position of the first line feed at or after `i`, or the end of `s`. */
  function LineFeedAt(s: string, i: nat): (k: nat)
    requires i <= |s|
    ensures i <= k <= |s| && (k < |s| ==> s[k] == '\n')
    decreases |s| - i
  {
    if i == |s| || s[i] == '\n' then i else LineFeedAt(s, i + 1)
  }

  /** The first line feed from `i` on is at `k` when there is none
      before it. */
  lemma {:induction false} LineFeedAtOf(s: string, i: nat, k: nat)
    requires i <= k <= |s| && (k < |s| ==> s[k] == '\n')
    requires forall j :: i <= j < k ==> s[j] != '\n'
    ensures LineFeedAt(s, i) == k
    decreases k - i
  {
    if i < k {
      LineFeedAtOf(s, i + 1, k);
    }
  }

  /** No line feed lies between `i` and the position `LineFeedAt` finds. */
  lemma {:induction false} LineFeedAtFirst(s: string, i: nat)
    requires i <= |s|
    ensures forall j :: i <= j < LineFeedAt(s, i) ==> s[j] != '\n'
    decreases |s| - i
  {
    if i < |s| && s[i] != '\n' {
      LineFeedAtFirst(s, i + 1);
    }
  }

  /** A line without its `\r` when that `\r` stood just before the line
      feed. */
  function StripCarriageReturn(line: string): (r: string)
    ensures r <= line && |line| - 1 <= |r|
    ensures |r| < |line| <==> line != [] && line[|line| - 1] == '\r'
  {
    if line != [] && line[|line| - 1] == '\r' then line[..|line| - 1] else line
  }

  /** `str::lines`: the text split at each `\n` or `\r\n`; the last line
      needs no line ending, and a line ending at the very end does not
      start an empty last line. A `\r` not followed by `\n` stays in the
      line. */
  function Lines(s: string): (r: seq<string>)
    ensures |r| <= |s|
    ensures s != [] ==> r != []
    decreases |s|
  {
    if s == [] then []
    else
      var k := LineFeedAt(s, 0);
      if k == |s| then [s] else [StripCarriageReturn(s[..k])] + Lines(s[k + 1..])
  }

  /** A line as `Lines` gives it back: no line feed, and no `\r` that a
      following line feed would strip. */
  predicate PlainLine(l: string)
  {
    '\n' !in l && (l == [] || l[|l| - 1] != '\r')
  }

  /** Each line of the text written out with a `\n` after it. */
  function Unlines(ls: seq<string>): (s: string)
    ensures ls != [] ==> s != [] && s[|s| - 1] == '\n'
  {
    if ls == [] then [] else ls[0] + "\n" + Unlines(ls[1..])
  }

  /** No line `Lines` gives holds a line feed. */
  lemma {:induction false} LinesHaveNoLineFeed(s: string)
    ensures forall l :: l in Lines(s) ==> '\n' !in l
    decreases |s|
  {
    if s != [] {
      var k := LineFeedAt(s, 0);
      LineFeedAtFirst(s, 0);
      assert '\n' !in s[..k] by {
        forall x | 0 <= x < k
          ensures s[..k][x] != '\n'
        {
          assert s[..k][x] == s[x];
        }
      }
      if k < |s| {
        LinesHaveNoLineFeed(s[k + 1..]);
        var l := StripCarriageReturn(s[..k]);
        assert forall x :: 0 <= x < |l| ==> l[x] == s[..k][x];
      }
    }
  }

  /** The text starting with a plain line and a line feed: that line, then
      the lines of the rest. */
  lemma LinesCons(l: string, rest: string)
    requires PlainLine(l)
    ensures Lines(l + "\n" + rest) == [l] + Lines(rest)
  {
    var s := l + "\n" + rest;
    forall j | 0 <= j < |l|
      ensures s[j] != '\n'
    {
      assert s[j] == l[j];
    }
    LineFeedAtOf(s, 0, |l|);
    assert s[..|l|] == l;
    assert s[|l| + 1..] == rest;
  }

  /** A last line with no line ending: it is the only line. */
  lemma LinesLast(l: string)
    requires l != [] && '\n' !in l
    ensures Lines(l) == [l]
  {
    LineFeedAtOf(l, 0, |l|);
  }

  /** Writing plain lines out and splitting them again gives them back. */
  lemma {:induction false} LinesUnlines(ls: seq<string>)
    requires forall l :: l in ls ==> PlainLine(l)
    ensures Lines(Unlines(ls)) == ls
  {
    if ls != [] {
      assert PlainLine(ls[0]);
      LinesCons(ls[0], Unlines(ls[1..]));
      LinesUnlines(ls[1..]);
    }
  }

  /** A text with no `\r` that is empty or ends in a line feed is the
      written-out form of its lines. */
  lemma {:induction false} UnlinesLines(s: string)
    requires '\r' !in s && (s == [] || s[|s| - 1] == '\n')
    ensures Unlines(Lines(s)) == s
    decreases |s|
  {
    if s != [] {
      var k := LineFeedAt(s, 0);
      LineFeedAtFirst(s, 0);
      assert k < |s|;
      var l, rest := s[..k], s[k + 1..];
      assert s == l + "\n" + rest;
      assert PlainLine(l) by {
        forall x | 0 <= x < |l|
          ensures l[x] != '\n' && l[x] != '\r'
        {
          assert l[x] == s[x];
        }
      }
      assert '\r' !in rest by {
        forall x | 0 <= x < |rest|
          ensures rest[x] != '\r'
        {
          assert rest[x] == s[k + 1 + x];
        }
      }
      assert rest == [] || rest[|rest| - 1] == '\n' by {
        if rest != [] {
          assert rest[|rest| - 1] == s[|s| - 1];
        }
      }
      LinesCons(l, rest);
      UnlinesLines(rest);
      assert ([l] + Lines(rest))[1..] == Lines(rest);
    }
  }

  /** The lines for which `keep` holds, in their order; the `filter` and
      `collect` of both searches. */
  function Filter(ls: seq<string>, keep: string -> bool): (r: seq<string>)
    ensures |r| <= |ls|
  {
    if ls == [] then []
    else if keep(ls[0]) then [ls[0]] + Filter(ls[1..], keep)
    else Filter(ls[1..], keep)
  }

  /** Filtering goes line by line: the filter of a concatenation is the
      concatenation of the filters. With the single-line case, where a line
      is kept exactly when `keep` holds for it, this fixes the result. */
  lemma {:induction false} FilterAppend(a: seq<string>, b: seq<string>, keep: string -> bool)
    ensures Filter(a + b, keep) == Filter(a, keep) + Filter(b, keep)
  {
    if a != [] {
      assert (a + b)[0] == a[0];
      assert (a + b)[1..] == a[1..] + b;
      FilterAppend(a[1..], b, keep);
      if keep(a[0]) {
        assert Filter(a + b, keep) == [a[0]] + Filter(a[1..] + b, keep);
      } else {
        assert Filter(a + b, keep) == Filter(a[1..] + b, keep);
      }
    } else {
      assert a + b == b;
    }
  }

  /** A line is in the result exactly when it is among the input lines and
      `keep` holds for it, and then it occurs as often as in the input. */
  lemma {:induction false} FilterMember(ls: seq<string>, keep: string -> bool, x: string)
    ensures x in Filter(ls, keep) <==> x in ls && keep(x)
    ensures multiset(Filter(ls, keep))[x] == if keep(x) then multiset(ls)[x] else 0
  {
    if ls != [] {
      FilterMember(ls[1..], keep, x);
      assert ls == [ls[0]] + ls[1..];
      assert multiset(ls) == multiset{ls[0]} + multiset(ls[1..]);
    }
  }

  /** `a` is `b` with some elements left out, the rest in order. */
  predicate Subsequence(a: seq<string>, b: seq<string>)
    decreases |b|
  {
    if a == [] then true
    else if b == [] then false
    else if a[0] == b[0] then Subsequence(a[1..], b[1..])
    else Subsequence(a, b[1..])
  }

  /** A subsequence of `b` is a subsequence of `b` with an element put in
      front. */
  lemma {:induction false} SubsequenceCons(a: seq<string>, b: seq<string>, x: string)
    requires Subsequence(a, b)
    ensures Subsequence(a, [x] + b)
    decreases |b|, 1
  {
    var xb := [x] + b;
    assert xb[1..] == b;
    if a != [] && a[0] == x {
      SubsequenceDrop(a, b);
    }
  }

  /** A subsequence without its first element is still a subsequence. */
  lemma {:induction false} SubsequenceDrop(a: seq<string>, b: seq<string>)
    requires a != [] && Subsequence(a, b)
    ensures Subsequence(a[1..], b)
    decreases |b|, 0
  {
    if a[0] != b[0] {
      SubsequenceDrop(a, b[1..]);
    }
    SubsequenceCons(a[1..], b[1..], b[0]);
    assert [b[0]] + b[1..] == b;
  }

  /** The filtered lines are the input lines with some left out: none is
      altered, duplicated or moved. */
  lemma {:induction false} FilterSubsequence(ls: seq<string>, keep: string -> bool)
    ensures Subsequence(Filter(ls, keep), ls)
  {
    if ls != [] {
      FilterSubsequence(ls[1..], keep);
      if !keep(ls[0]) {
        SubsequenceCons(Filter(ls[1..], keep), ls[1..], ls[0]);
        assert [ls[0]] + ls[1..] == ls;
      }
    }
  }

  /** ASCII lowercasing of one character; every other character is kept. */
  function LowerChar(c: char): (d: char)
    ensures ('A' <= c <= 'Z') <==> d != c
    ensures 'A' <= c <= 'Z' ==> d as int == c as int + 32
  {
    if 'A' <= c <= 'Z' then (c as int + 32) as char else c
  }

  /** `to_lowercase` restricted to ASCII letters, character by character. */
  function Lower(s: string): (r: string)
    ensures |r| == |s| && forall i :: 0 <= i < |s| ==> r[i] == LowerChar(s[i])
  {
    seq(|s|, i requires 0 <= i < |s| => LowerChar(s[i]))
  }

  /** No capital ASCII letter is left after lowercasing, and lowercasing
      twice changes nothing more. */
  lemma LowerIdempotent(s: string)
    ensures forall i :: 0 <= i < |s| ==> !('A' <= Lower(s)[i] <= 'Z')
    ensures Lower(Lower(s)) == Lower(s)
  {
  }

  /** An occurrence of `q` in `s` is an occurrence of the lowercased `q` in
      the lowercased `s`. */
  lemma {:induction false} ContainsLower(s: string, q: string)
    requires Contains(s, q)
    ensures Contains(Lower(s), Lower(q))
    decreases |s|
  {
    if q <= s {
      assert Lower(q) == Lower(s)[..|q|];
    } else {
      ContainsLower(s[1..], q);
      assert Lower(s)[1..] == Lower(s[1..]);
    }
  }

  /** Every string contains the empty string. */
  lemma ContainsEmpty(s: string)
    ensures Contains(s, [])
  {
  }

  /** `search`: the lines of `contents` that contain `query`. */
  function Search(query: string, contents: string): (r: seq<string>)
    ensures |r| <= |Lines(contents)|
  {
    Filter(Lines(contents), l => Contains(l, query))
  }

  /** `search_case_insensitive`: the lines whose lowercase form contains
      the lowercased query. */
  function SearchCaseInsensitive(query: string, contents: string): (r: seq<string>)
    ensures |r| <= |Lines(contents)|
  {
    Filter(Lines(contents), l => Contains(Lower(l), Lower(query)))
  }

  /** `search` keeps exactly the lines that contain the query, and keeps
      them unaltered and in their original order. */
  lemma SearchExactly(query: string, contents: string, x: string)
    ensures x in Search(query, contents) <==> x in Lines(contents) && Contains(x, query)
    ensures multiset(Search(query, contents))[x] == if Contains(x, query) then multiset(Lines(contents))[x] else 0
    ensures Subsequence(Search(query, contents), Lines(contents))
  {
    FilterMember(Lines(contents), l => Contains(l, query), x);
    FilterSubsequence(Lines(contents), l => Contains(l, query));
  }

  /** `search_case_insensitive` keeps exactly the lines whose lowercase form
      contains the lowercased query, unaltered and in order. */
  lemma SearchCaseInsensitiveExactly(query: string, contents: string, x: string)
    ensures x in SearchCaseInsensitive(query, contents) <==> x in Lines(contents) && Contains(Lower(x), Lower(query))
    ensures multiset(SearchCaseInsensitive(query, contents))[x]
         == if Contains(Lower(x), Lower(query)) then multiset(Lines(contents))[x] else 0
    ensures Subsequence(SearchCaseInsensitive(query, contents), Lines(contents))
  {
    FilterMember(Lines(contents), l => Contains(Lower(l), Lower(query)), x);
    FilterSubsequence(Lines(contents), l => Contains(Lower(l), Lower(query)));
  }

  /** Every line the exact search keeps, the case-insensitive search keeps
      too, and in the same order. */
  lemma SearchWithinCaseInsensitive(query: string, contents: string)
    ensures Subsequence(Search(query, contents), SearchCaseInsensitive(query, contents))
  {
    KeptLinesWithin(Lines(contents), query);
  }

  /** `SearchWithinCaseInsensitive` over any list of lines. */
  lemma {:induction false} KeptLinesWithin(ls: seq<string>, query: string)
    ensures Subsequence(Filter(ls, l => Contains(l, query)), Filter(ls, l => Contains(Lower(l), Lower(query))))
  {
    var exact := l => Contains(l, query);
    var loose := l => Contains(Lower(l), Lower(query));
    if ls != [] {
      KeptLinesWithin(ls[1..], query);
      var a, b := Filter(ls[1..], exact), Filter(ls[1..], loose);
      if exact(ls[0]) {
        ContainsLower(ls[0], query);
        assert Filter(ls, exact) == [ls[0]] + a;
        assert Filter(ls, loose) == [ls[0]] + b;
        assert ([ls[0]] + a)[1..] == a && ([ls[0]] + b)[1..] == b;
      } else if loose(ls[0]) {
        SubsequenceCons(a, b, ls[0]);
      }
    }
  }

  /** With an empty query both searches keep every line. */
  lemma EmptyQuery(contents: string)
    ensures Search([], contents) == Lines(contents)
    ensures SearchCaseInsensitive([], contents) == Lines(contents)
  {
    FilterAll(Lines(contents), l => Contains(l, []));
    FilterAll(Lines(contents), l => Contains(Lower(l), Lower([])));
  }

  /** A filter that keeps every line changes nothing. */
  lemma {:induction false} FilterAll(ls: seq<string>, keep: string -> bool)
    requires forall l :: l in ls ==> keep(l)
    ensures Filter(ls, keep) == ls
  {
    if ls != [] {
      assert ls[0] in ls;
      FilterAll(ls[1..], keep);
    }
  }

  /** `q` occurs in `s` where `s` has it as a prefix from `i` on. */
  lemma {:induction false} ContainsAt(s: string, q: string, i: nat)
    requires i <= |s| && q <= s[i..]
    ensures Contains(s, q)
  {
    if i > 0 {
      assert s[1..][i - 1..] == s[i..];
      ContainsAt(s[1..], q, i - 1);
    }
  }

  /** A string in which the first two characters of `q` never stand side by
      side does not contain `q`. */
  lemma {:induction false} NotContains(s: string, q: string)
    requires |q| >= 2
    requires forall i :: 0 <= i && i + 1 < |s| ==> s[i] != q[0] || s[i + 1] != q[1]
    ensures !Contains(s, q)
    decreases |s|
  {
    if |s| >= 2 {
      assert s[0] != q[0] || s[1] != q[1];
    }
    if s != [] {
      var t := s[1..];
      forall i | 0 <= i && i + 1 < |t|
        ensures t[i] != q[0] || t[i + 1] != q[1]
      {
        assert t[i] == s[i + 1] && t[i + 1] == s[i + 2];
      }
      NotContains(s[1..], q);
    }
  }

  /** Three lines, the last without a line ending. */
  lemma ThreeLines(a: string, b: string, c: string)
    requires PlainLine(a) && PlainLine(b) && c != [] && '\n' !in c
    ensures Lines(a + "\n" + (b + "\n" + c)) == [a, b, c]
  {
    var bc := b + "\n" + c;
    assert Lines(bc) == [b, c] by {
      LinesLast(c);
      LinesCons(b, c);
    }
    LinesCons(a, bc);
  }

  /** The exact search of the test: only the line holding `"duct"` is
      kept. */
  lemma SearchExample()
    ensures Search("duct", "Rust:" + "\n" + ("safe, fast, productive." + "\n" + "Pick here.")) == ["safe, fast, productive."]
  {
    var a, b, c := "Rust:", "safe, fast, productive.", "Pick here.";
    ExampleLinesPlain(a, b, c);
    ThreeLines(a, b, c);
    DuctMatches(a, b, c);
    var keep := l => Contains(l, "duct");
    assert Filter([a, b, c], keep) == Filter([b, c], keep);
    assert Filter([b, c], keep) == [b] + Filter([c], keep);
  }

  /** The lines of the test hold no line ending. */
  lemma ExampleLinesPlain(a: string, b: string, c: string)
    requires a == "Rust:" && b == "safe, fast, productive." && c == "Pick here."
    ensures PlainLine(a) && PlainLine(b) && c != [] && '\n' !in c
  {
    assert forall x :: 0 <= x < |b| ==> b[x] != '\n';
  }

  /** Which lines of the test contain `"duct"`. */
  lemma DuctMatches(a: string, b: string, c: string)
    requires a == "Rust:" && b == "safe, fast, productive." && c == "Pick here."
    ensures !Contains(a, "duct") && Contains(b, "duct") && !Contains(c, "duct")
  {
    NotContains(a, "duct");
    ContainsAt(b, "duct", 15);
    NotContains(c, "duct");
  }

  /** Four lines, the last without a line ending. */
  lemma FourLines(a: string, b: string, c: string, d: string)
    requires PlainLine(a) && PlainLine(b) && PlainLine(c) && d != [] && '\n' !in d
    ensures Lines(a + "\n" + (b + "\n" + (c + "\n" + d))) == [a, b, c, d]
  {
    ThreeLines(b, c, d);
    LinesCons(a, b + "\n" + (c + "\n" + d));
  }

  /** The case-insensitive search of the test: `"rUsT"` finds `"Rust:"`
      and `"Trust me."`, and no other line. */
  lemma SearchCaseInsensitiveExample()
    ensures SearchCaseInsensitive("rUsT", "Rust:" + "\n" + ("safe, fast, productive." + "\n" + ("Pick three." + "\n" + "Trust me.")))
         == ["Rust:", "Trust me."]
  {
    var a, b, c, d := "Rust:", "safe, fast, productive.", "Pick three.", "Trust me.";
    ExampleLinesPlain2(a, b, c, d);
    FourLines(a, b, c, d);
    RustMatches(a, b, c, d, "rUsT");
    FilterFirstAndLast(a, b, c, d, l => Contains(Lower(l), Lower("rUsT")));
  }

  /** Of four lines, the filter keeps the first and the last. */
  lemma FilterFirstAndLast(a: string, b: string, c: string, d: string, keep: string -> bool)
    requires keep(a) && !keep(b) && !keep(c) && keep(d)
    ensures Filter([a, b, c, d], keep) == [a, d]
  {
    assert [a, b, c, d][1..] == [b, c, d];
    assert [b, c, d][1..] == [c, d];
    assert [c, d][1..] == [d];
    assert Filter([d], keep) == [d];
    assert Filter([b, c, d], keep) == [d];
    assert Filter([a, b, c, d], keep) == [a] + [d];
  }

  /** The lines of the second test hold no line ending. */
  lemma ExampleLinesPlain2(a: string, b: string, c: string, d: string)
    requires a == "Rust:" && b == "safe, fast, productive." && c == "Pick three." && d == "Trust me."
    ensures PlainLine(a) && PlainLine(b) && PlainLine(c) && d != [] && '\n' !in d
  {
    assert forall x :: 0 <= x < |b| ==> b[x] != '\n';
    assert forall x :: 0 <= x < |c| ==> c[x] != '\n';
  }

  /** Which lines of the second test contain `"rust"` once lowercased. */
  lemma RustMatches(a: string, b: string, c: string, d: string, q: string)
    requires a == "Rust:" && b == "safe, fast, productive." && c == "Pick three." && d == "Trust me."
    requires q == "rUsT"
    ensures Contains(Lower(a), Lower(q)) && !Contains(Lower(b), Lower(q))
    ensures !Contains(Lower(c), Lower(q)) && Contains(Lower(d), Lower(q))
  {
    assert Lower(q) == "rust";
    RustFound(a, "rust:", 0);
    RustFound(d, "trust me.", 1);
    RustInNeitherMiddleLine();
  }

  /** Neither the second nor the third line of the test, lowercased, has a
      `u` right after an `r`. */
  lemma RustInNeitherMiddleLine()
    ensures !Contains(Lower("safe, fast, productive."), "rust")
    ensures !Contains(Lower("Pick three."), "rust")
  {
    RustAbsent("safe, fast, productive.", "safe, fast, productive.");
    RustAbsent("Pick three.", "pick three.");
  }

  /** A line whose lowercase form is `low` holds `"rust"` at `i`. */
  lemma RustFound(line: string, low: string, i: nat)
    requires (line == "Rust:" && low == "rust:" && i == 0) || (line == "Trust me." && low == "trust me." && i == 1)
    ensures Contains(Lower(line), "rust")
  {
    assert Lower(line) == low;
    ContainsAt(low, "rust", i);
  }

  /** A line whose lowercase form is `low` never has `u` right after
      `r`. */
  lemma RustAbsent(line: string, low: string)
    requires |line| == |low| && forall i :: 0 <= i < |line| ==> LowerChar(line[i]) == low[i]
    requires forall i :: 0 <= i && i + 1 < |low| ==> low[i] != 'r' || low[i + 1] != 'u'
    ensures !Contains(Lower(line), "rust")
  {
    assert Lower(line) == low;
    NotContains(low, "rust");
  }

  /** What the tool is asked to do: the query, the file it reads and whether
      the match is exact. */
  datatype Config = Config(query: string, filename: string, caseSensitive: bool)

  /** `run`, with the file's contents, or the error reading it, given as a
      parameter; the lines it would print are the result. */
  function Run<E>(config: Config, read: Result<string, E>): (r: Result<seq<string>, E>)
    ensures r.Ok? <==> read.Ok?
    ensures read.Err? ==> r == Err(read.error)
    ensures r.Ok? ==> Subsequence(r.value, Lines(read.value))
    ensures r.Ok? ==> r.value == if config.caseSensitive then Search(config.query, read.value)
                                 else SearchCaseInsensitive(config.query, read.value)
  {
    match read
    case Err(e) => Err(e)
    case Ok(contents) =>
      if config.caseSensitive then
        SearchExactly(config.query, contents, []);
        Ok(Search(config.query, contents))
      else
        SearchCaseInsensitiveExactly(config.query, contents, []);
        Ok(SearchCaseInsensitive(config.query, contents))
  }
}
