/** The outcome of a nom-style parser and the float-literal recogniser that
    both tree-engine parsers share. */
module Combinators {
  import opened Common

  /** A parser outcome. `Done` carries the unconsumed input; `Error` is a
      recoverable failure (an `alt` may try its next branch); `Failure` is a
      committed failure raised under `cut`; `Panic` is a Rust panic inside a
      fold closure. The labels are the `context` names the error passed
      through, innermost first. */
  datatype PResult<+T> =
    | Done(rest: string, value: T)
    | Error(labels: seq<string>)
    | Failure(labels: seq<string>)
    | Panic

  /** `rest` is what is left of `s` after consuming a prefix. */
  predicate SuffixOf(rest: string, s: string)
  {
    |rest| <= |s| && rest == s[|s| - |rest|..]
  }

  predicate IsSign(c: char) { c == '+' || c == '-' }

  /** Length of an optional leading sign. */
  function SignLength(s: string): (k: nat)
    ensures k <= |s|
  {
    if |s| > 0 && IsSign(s[0]) then 1 else 0
  }

  /** Where the mantissa starting at `k` ends: `digits '.' digits?` or
      `'.' digits`; `None` when neither alternative matches. */
  function MantissaEnd(s: string, k: nat): (m: Option<nat>)
    requires k <= |s|
    ensures m.Some? ==> k < m.value <= |s|
  {
    var d := DigitsEnd(s, k);
    if d > k then
      if d < |s| && s[d] == '.' then Some(DigitsEnd(s, d + 1)) else None
    else if k < |s| && s[k] == '.' && DigitsEnd(s, k + 1) > k + 1 then Some(DigitsEnd(s, k + 1))
    else None
  }

  /** Where the optional exponent starting at `j` ends:
      `('e'|'E') sign? digits`. Once `e` or `E` is read, missing digits are
      a committed failure (`cut`), reported as `None`. */
  function ExponentEnd(s: string, j: nat): (x: Option<nat>)
    requires j <= |s|
    ensures x.Some? ==> j <= x.value <= |s|
  {
    if j < |s| && (s[j] == 'e' || s[j] == 'E') then
      var p := if j + 1 < |s| && IsSign(s[j + 1]) then j + 2 else j + 1;
      var q := DigitsEnd(s, p);
      if q == p then None else Some(q)
    else Some(j)
  }

  /** `parse_float`: recognises an optional sign, a mantissa and an
      optional exponent, and returns the recognised text. */
  function ParseFloat(s: string): (r: PResult<string>)
    ensures r.Done? ==> SuffixOf(r.rest, s) && r.value == s[..|s| - |r.rest|]
    ensures !r.Panic?
  {
    var m := MantissaEnd(s, SignLength(s));
    if m.None? then Error([])
    else
      var x := ExponentEnd(s, m.value);
      if x.None? then Failure([])
      else Done(s[x.value..], s[..x.value])
  }

  /** Every recognised float literal contains a dot. */
  lemma FloatHasDot(s: string)
    requires ParseFloat(s).Done?
    ensures '.' in ParseFloat(s).value
  {
    var k := SignLength(s);
    var d := DigitsEnd(s, k);
    var p := if d > k then d else k;
    assert s[p] == '.';
    assert ParseFloat(s).value[p] == s[p];
  }

  /** The dot is mandatory: text with no `.` is never a float literal, so
      `12` and `1e5` are rejected by this rule. */
  lemma NoDotNoFloat(s: string)
    requires '.' !in s
    ensures ParseFloat(s).Error?
  {
    var k := SignLength(s);
    var d := DigitsEnd(s, k);
    if d < |s| {
      assert s[d] in s;
    }
    if k < |s| {
      assert s[k] in s;
    }
  }

  /** A float literal starts with a sign, a digit or a dot; any other
      first character is a recoverable error. */
  lemma NoFloatAtHead(s: string)
    requires |s| > 0 && !IsSign(s[0]) && !IsDigit(s[0]) && s[0] != '.'
    ensures ParseFloat(s) == Error([])
  {
    DigitsEndAt(s, 0, 0);
  }

  /** Digits followed by neither a digit nor a dot are not a float
      literal. */
  lemma DigitsWithoutDot(w: string, n: nat)
    requires 0 < n <= |w| && AllDigits(w[..n])
    requires n == |w| || (!IsDigit(w[n]) && w[n] != '.')
    ensures ParseFloat(w) == Error([])
  {
    assert IsDigit(w[..n][0]);
    DigitsEndOf(w, n);
  }

  /** Where the parts of a float literal lie in `s`: the sign before `k`,
      integer digits up to the dot at `i`, fraction digits up to `j`, and
      an exponent up to `e`: `e` or `E`, an optional sign ending at `p`,
      and digits. */
  predicate FloatLiteralAt(s: string, k: nat, i: nat, j: nat, e: nat)
  {
    && k == SignLength(s)
    && k <= i < j <= e <= |s| && (k < i || i + 1 < j) && s[i] == '.'
    && (forall x :: k <= x < i ==> IsDigit(s[x]))
    && (forall x :: i < x < j ==> IsDigit(s[x]))
    && (j == |s| || !IsDigit(s[j]))
    && (e == j ==> j == |s| || (s[j] != 'e' && s[j] != 'E'))
    && (e > j ==>
          && (s[j] == 'e' || s[j] == 'E')
          && var p := if j + 1 < |s| && IsSign(s[j + 1]) then j + 2 else j + 1;
          && p < e
          && (forall x :: p <= x < e ==> IsDigit(s[x]))
          && (e == |s| || !IsDigit(s[e])))
  }

  /** The float literal rule: an optional sign, digits, a dot, digits (at
      least one digit in all) and an optional exponent are recognised in
      full, and the rest of the input is left alone. */
  lemma FloatLiteralAccepted(s: string, k: nat, i: nat, j: nat, e: nat)
    requires FloatLiteralAt(s, k, i, j, e)
    ensures ParseFloat(s) == Done(s[e..], s[..e])
  {
    DigitsEndAt(s, k, i);
    DigitsEndAt(s, i + 1, j);
    if e > j {
      var p := if j + 1 < |s| && IsSign(s[j + 1]) then j + 2 else j + 1;
      DigitsEndAt(s, p, e);
    }
    assert MantissaEnd(s, k) == Some(j);
    assert ExponentEnd(s, j) == Some(e);
  }

  /** Accepted literals: `digits . digits`, `. digits` and a bare
      trailing dot. */
  lemma FloatExamplesUnsigned()
    ensures ParseFloat("3.1") == Done("", "3.1")
    ensures ParseFloat(".5") == Done("", ".5")
    ensures ParseFloat("7.") == Done("", "7.")
  {
    FloatLiteralAccepted("3.1", 0, 1, 3, 3);
    assert "3.1"[3..] == "" && "3.1"[..3] == "3.1";
    FloatLiteralAccepted(".5", 0, 0, 2, 2);
    assert ".5"[2..] == "" && ".5"[..2] == ".5";
    FloatLiteralAccepted("7.", 0, 1, 2, 2);
    assert "7."[2..] == "" && "7."[..2] == "7.";
  }

  /** Signed literals keep their sign in the recognised text. */
  lemma FloatExamplesSigned()
    ensures ParseFloat("-0.5") == Done("", "-0.5")
    ensures ParseFloat("+2.0 ") == Done(" ", "+2.0")
  {
    FloatLiteralAccepted("-0.5", 1, 2, 4, 4);
    assert "-0.5"[4..] == "" && "-0.5"[..4] == "-0.5";
    FloatLiteralAccepted("+2.0 ", 1, 2, 4, 4);
    assert "+2.0 "[4..] == " " && "+2.0 "[..4] == "+2.0";
  }

  /** An exponent is part of the literal; what follows is left alone. */
  lemma FloatExampleExponent()
    ensures ParseFloat("1.2E-3x") == Done("x", "1.2E-3")
  {
    assert "1.2E-3x"[3..6] == "E-3";
    FloatLiteralAccepted("1.2E-3x", 0, 1, 3, 6);
    assert "1.2E-3x"[6..] == "x" && "1.2E-3x"[..6] == "1.2E-3";
  }

  /** After a complete mantissa, an `e` or `E` (and optional sign) without
      digits is a committed failure rather than a fallback. */
  lemma ExponentIsCommitted(s: string, j: nat)
    requires MantissaEnd(s, SignLength(s)) == Some(j)
    requires j < |s| && (s[j] == 'e' || s[j] == 'E')
    requires var p := if j + 1 < |s| && IsSign(s[j + 1]) then j + 2 else j + 1;
      p == |s| || !IsDigit(s[p])
    ensures ParseFloat(s).Failure?
  {
  }

  /** `1.5e+x` is a committed failure: an exponent marker with no digits. */
  lemma FloatExampleCommitted()
    ensures ParseFloat("1.5e+x").Failure?
  {
    var s := "1.5e+x";
    DigitsEndAt(s, 0, 1);
    DigitsEndAt(s, 2, 3);
    ExponentIsCommitted(s, 3);
  }

  /** `1e10` has no dot and is a plain mismatch. */
  lemma FloatExampleNoDot()
    ensures ParseFloat("1e10").Error?
  {
    NoDotNoFloat("1e10");
  }
}
