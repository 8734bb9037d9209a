/** Small shared vocabulary: optional values, results and the character and
    string primitives the parsers and line filters are built from. */
module Common {

  datatype Option<+T> = None | Some(value: T)

  datatype Result<+T, +E> = Ok(value: T) | Err(error: E)

  /** ASCII decimal digit, the class nom's `digit1` accepts. */
  predicate IsDigit(c: char) { '0' <= c <= '9' }

  /** Space or tab, the class nom's `space0`/`space1` accept. */
  predicate IsBlank(c: char) { c == ' ' || c == '\t' }

  /** Rust's `char::is_whitespace`: the Unicode White_Space property. */
  predicate IsWhiteSpace(c: char)
  {
    ('\U{9}' <= c <= '\U{D}') || c == ' ' || c == '\U{85}' || c == '\U{A0}'
    || c == '\U{1680}' || ('\U{2000}' <= c <= '\U{200A}') || c == '\U{2028}'
    || c == '\U{2029}' || c == '\U{202F}' || c == '\U{205F}' || c == '\U{3000}'
  }

  predicate AllDigits(s: string) { forall i :: 0 <= i < |s| ==> IsDigit(s[i]) }

  predicate AllBlank(s: string) { forall i :: 0 <= i < |s| ==> IsBlank(s[i]) }

  /** Where the run of digits starting at position `i` of `s` ends. */
  function DigitsEnd(s: string, i: nat): (j: nat)
    requires i <= |s|
    ensures i <= j <= |s|
    ensures j < |s| ==> !IsDigit(s[j])
    decreases |s| - i
  {
    if i == |s| || !IsDigit(s[i]) then i else DigitsEnd(s, i + 1)
  }

  /** Length of the longest prefix of `s` made of spaces and tabs. */
  function BlankRun(s: string): (n: nat)
    ensures n <= |s| && AllBlank(s[..n])
    ensures n < |s| ==> !IsBlank(s[n])
  {
    if s == [] || !IsBlank(s[0]) then 0
    else
      var k := BlankRun(s[1..]);
      assert s[1..][..k] == s[1..k + 1];
      1 + k
  }

  /** `s` with its leading spaces and tabs removed (what `space0` leaves). */
  function SkipBlanks(s: string): (r: string)
    ensures |r| <= |s| && r == s[|s| - |r|..]
    ensures r == [] || !IsBlank(r[0])
  {
    s[BlankRun(s)..]
  }

  /** Slicing a slice. */
  lemma SliceOfSlice(s: string, b: nat, i: nat)
    requires b <= i <= |s|
    ensures s[b..][i - b..] == s[i..]
    ensures s[b..][..i - b] == s[b..i]
  {
  }

  /** The characters `DigitsEnd` passes over are digits. */
  lemma {:induction false} DigitsEndDigits(s: string, i: nat)
    requires i <= |s|
    ensures forall x :: i <= x < DigitsEnd(s, i) ==> IsDigit(s[x])
    decreases |s| - i
  {
    if i < |s| && IsDigit(s[i]) {
      DigitsEndDigits(s, i + 1);
    }
  }

  /** The prefix `DigitsEnd` measures from the start is all digits. */
  lemma DigitsEndPrefix(t: string)
    ensures AllDigits(t[..DigitsEnd(t, 0)])
  {
    DigitsEndDigits(t, 0);
    var n := DigitsEnd(t, 0);
    forall x | 0 <= x < n
      ensures IsDigit(t[..n][x])
    {
      assert t[..n][x] == t[x];
    }
  }

  /** `DigitsEnd` read off by position: digits from `i` up to `j`, then a
      non-digit or the end of the text. */
  lemma {:induction false} DigitsEndAt(s: string, i: nat, j: nat)
    requires i <= j <= |s| && forall x :: i <= x < j ==> IsDigit(s[x])
    requires j == |s| || !IsDigit(s[j])
    ensures DigitsEnd(s, i) == j
    decreases j - i
  {
    if i < j {
      DigitsEndAt(s, i + 1, j);
    }
  }

  /** `BlankRun` read off by position. */
  lemma {:induction false} BlankRunAt(t: string, n: nat)
    requires n <= |t| && forall x :: 0 <= x < n ==> IsBlank(t[x])
    requires n == |t| || !IsBlank(t[n])
    ensures BlankRun(t) == n
  {
    if n > 0 {
      BlankRunAt(t[1..], n - 1);
    }
  }

  /** `SkipBlanks` when the blanks are known to end at `b`. */
  lemma SkipBlanksAt(s: string, b: nat)
    requires b <= |s| && AllBlank(s[..b]) && (b == |s| || !IsBlank(s[b]))
    ensures SkipBlanks(s) == s[b..]
  {
    forall x | 0 <= x < b
      ensures IsBlank(s[x])
    {
      assert s[x] == s[..b][x];
    }
    BlankRunAt(s, b);
  }

  /** `DigitsEnd` from the start of `t` when the digits are known to end
      at `n`. */
  lemma DigitsEndOf(t: string, n: nat)
    requires n <= |t| && AllDigits(t[..n]) && (n == |t| || !IsDigit(t[n]))
    ensures DigitsEnd(t, 0) == n
  {
    forall x | 0 <= x < n
      ensures IsDigit(t[x])
    {
      assert t[x] == t[..n][x];
    }
    DigitsEndAt(t, 0, n);
  }

  lemma {:induction false} BlankRunOfBlanks(w: string, r: string)
    requires AllBlank(w)
    requires r == [] || !IsBlank(r[0])
    ensures BlankRun(w + r) == |w|
  {
    if w != [] {
      assert (w + r)[1..] == w[1..] + r;
      BlankRunOfBlanks(w[1..], r);
    } else {
      assert w + r == r;
    }
  }

  lemma SkipBlanksOfBlanks(w: string, r: string)
    requires AllBlank(w)
    requires r == [] || !IsBlank(r[0])
    ensures SkipBlanks(w + r) == r
  {
    BlankRunOfBlanks(w, r);
    assert (w + r)[|w|..] == r;
  }

  /** Decimal value of a digit string, most significant digit first. */
  function DecimalValue(s: string): nat
    requires AllDigits(s)
  {
    if s == [] then 0 else 10 * DecimalValue(s[..|s| - 1]) + (s[|s| - 1] as int - '0' as int)
  }

  /** `s` repeated `n` times, as Rust's `str::repeat`. */
  function Repeat(s: string, n: nat): (r: string)
    ensures |r| == n * |s|
  {
    if n == 0 then "" else s + Repeat(s, n - 1)
  }

  /** Repeating once more appends one more copy. */
  lemma {:induction false} RepeatSnoc(s: string, n: nat)
    ensures Repeat(s, n + 1) == Repeat(s, n) + s
  {
    if n > 0 {
      RepeatSnoc(s, n - 1);
    }
  }

  /** `s` repeated `m` times is a prefix of `s` repeated `n >= m` times. */
  lemma {:induction false} RepeatPrefix(s: string, m: nat, n: nat)
    requires m <= n
    ensures Repeat(s, m) <= Repeat(s, n)
  {
    if m < n {
      RepeatPrefix(s, m, n - 1);
      RepeatSnoc(s, n - 1);
      assert Repeat(s, n)[..|Repeat(s, n - 1)|] == Repeat(s, n - 1);
      PrefixTrans(Repeat(s, m), Repeat(s, n - 1), Repeat(s, n));
    }
  }

  /** `s` ends with `t`. */
  predicate EndsWith(s: string, t: string)
  {
    |t| <= |s| && s[|s| - |t|..] == t
  }

  /** A concatenation starts with its first part and ends with its last. */
  lemma Halves(a: string, c: string)
    ensures a <= a + c && EndsWith(a + c, c)
  {
    assert (a + c)[|a|..] == c;
  }

  /** `<=` on strings is transitive. */
  lemma PrefixTrans(a: string, b: string, c: string)
    requires a <= b && b <= c
    ensures a <= c
  {
    assert c[..|a|] == b[..|a|];
  }

  /** Rust's `str::contains` for a string needle: `q` occurs in `s` as a
      contiguous substring. */
  predicate Contains(s: string, q: string)
    decreases |s|
  {
    q <= s || (s != [] && Contains(s[1..], q))
  }

  /** The first occurrence of `pat` in `s` at or after `i` starts at `k`. */
  predicate FirstFrom(s: string, pat: string, i: nat, k: nat)
  {
    i <= k <= |s| && pat <= s[k..]
    && forall j :: i <= j < k ==> !(pat <= s[j..])
  }

  /** Position of the first occurrence of `pat` in `s` at or after `i`
      (nom's `take_until` finds this position or fails). */
  function Find(s: string, pat: string, i: nat): (r: Option<nat>)
    requires i <= |s|
    ensures r.Some? ==> i <= r.value && r.value + |pat| <= |s|
    decreases |s| - i
  {
    if pat <= s[i..] then Some(i)
    else if i == |s| then None
    else Find(s, pat, i + 1)
  }

  /** `Find` returns the first occurrence, and `None` only when there is
      none. */
  lemma {:induction false} FindSound(s: string, pat: string, i: nat)
    requires i <= |s|
    ensures Find(s, pat, i).Some? ==> FirstFrom(s, pat, i, Find(s, pat, i).value)
    ensures Find(s, pat, i).None? ==> forall j :: i <= j <= |s| ==> !(pat <= s[j..])
    decreases |s| - i
  {
    if !(pat <= s[i..]) && i < |s| {
      FindSound(s, pat, i + 1);
    }
  }

  /** Where the first occurrence is known, `Find` locates it. */
  lemma FindFirst(s: string, pat: string, i: nat, k: nat)
    requires i <= |s| && FirstFrom(s, pat, i, k)
    ensures Find(s, pat, i) == Some(k)
  {
    FindSound(s, pat, i);
  }

  /** A pattern found at `k` is the first from `i` on when no character
      between `i` and `k` could start it. */
  lemma FindAfterGap(s: string, pat: string, i: nat, k: nat)
    requires i <= k <= |s| && |pat| > 0 && pat <= s[k..]
    requires forall j :: i <= j < k ==> s[j] != pat[0]
    ensures Find(s, pat, i) == Some(k)
  {
    forall j | i <= j < k
      ensures !(pat <= s[j..])
    {
      assert s[j..][0] == s[j];
    }
    FindFirst(s, pat, i, k);
  }

  /** End of the run of White_Space characters starting at `i`. */
  function WhiteSpaceEnd(s: string, i: nat): (j: nat)
    requires i <= |s|
    ensures i <= j <= |s| && (j < |s| ==> !IsWhiteSpace(s[j]))
    decreases |s| - i
  {
    if i < |s| && IsWhiteSpace(s[i]) then WhiteSpaceEnd(s, i + 1) else i
  }

  /** Start of the run of White_Space characters that ends at `j`, looking
      no further back than `lo`. */
  function WhiteSpaceStart(s: string, lo: nat, j: nat): (k: nat)
    requires lo <= j <= |s|
    ensures lo <= k <= j && (k > lo ==> !IsWhiteSpace(s[k - 1]))
    decreases j - lo
  {
    if j > lo && IsWhiteSpace(s[j - 1]) then WhiteSpaceStart(s, lo, j - 1) else j
  }

  /** Rust's `str::trim`: `s` without its leading and trailing White_Space
      characters. */
  function Trim(s: string): (r: string)
    ensures r == [] || (!IsWhiteSpace(r[0]) && !IsWhiteSpace(r[|r| - 1]))
  {
    var a := WhiteSpaceEnd(s, 0);
    var b := WhiteSpaceStart(s, a, |s|);
    assert a < b ==> s[a..b][0] == s[a] && s[a..b][b - a - 1] == s[b - 1];
    s[a..b]
  }

  /** Text with no White_Space at either end is its own trim. */
  lemma TrimmedAlready(s: string)
    requires s == [] || (!IsWhiteSpace(s[0]) && !IsWhiteSpace(s[|s| - 1]))
    ensures Trim(s) == s
  {
    assert s[0..|s|] == s;
  }

  predicate AllWhiteSpace(s: string) { forall i :: 0 <= i < |s| ==> IsWhiteSpace(s[i]) }

  lemma {:induction false} WhiteSpaceEndOf(s: string, i: nat, j: nat)
    requires i <= j <= |s| && (j == |s| || !IsWhiteSpace(s[j]))
    requires forall x :: i <= x < j ==> IsWhiteSpace(s[x])
    ensures WhiteSpaceEnd(s, i) == j
    decreases j - i
  {
    if i < j {
      WhiteSpaceEndOf(s, i + 1, j);
    }
  }

  lemma {:induction false} WhiteSpaceStartOf(s: string, lo: nat, k: nat, j: nat)
    requires lo <= k <= j <= |s| && (k == lo || !IsWhiteSpace(s[k - 1]))
    requires forall x :: k <= x < j ==> IsWhiteSpace(s[x])
    ensures WhiteSpaceStart(s, lo, j) == k
    decreases j - k
  {
    if k < j {
      WhiteSpaceStartOf(s, lo, k, j - 1);
    }
  }

  /** Trimming removes the White_Space around text that neither starts nor
      ends with White_Space. */
  lemma TrimAround(a: string, s: string, b: string)
    requires AllWhiteSpace(a) && AllWhiteSpace(b)
    requires s != [] && !IsWhiteSpace(s[0]) && !IsWhiteSpace(s[|s| - 1])
    ensures Trim(a + s + b) == s
  {
    var t := a + s + b;
    var i, j := |a|, |a| + |s|;
    assert t[i] == s[0] && t[j - 1] == s[|s| - 1];
    WhiteSpaceEndOf(t, 0, i);
    WhiteSpaceStartOf(t, i, j, |t|);
    assert t[i..j] == s;
  }
}
