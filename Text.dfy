/** Character classes and the string helpers the scraper relies on:
    whitespace stripping (Python's zero-argument `str.strip()`) and the
    decimal rendering of a positive index (an f-string `{i + 1}`). */
module Text {

  /** Whitespace as a zero-argument `strip()` removes it, restricted to the
      ASCII and Latin-1 range: tab to carriage return, the four information
      separators U+001C to U+001F, space, NEL (U+0085) and NBSP (U+00A0). */
  predicate IsWhitespace(c: char) {
    var n := c as int;
    (9 <= n <= 13) || (28 <= n <= 32) || n == 0x85 || n == 0xA0
  }

  predicate AllWhitespace(s: string) {
    forall k :: 0 <= k < |s| ==> IsWhitespace(s[k])
  }

  /** Neither end of `s` is whitespace (the empty string qualifies). */
  predicate IsTrimmed(s: string) {
    s == [] || (!IsWhitespace(s[0]) && !IsWhitespace(s[|s| - 1]))
  }

  /** `s` without its longest all-whitespace prefix. */
  function TrimStart(s: string): (r: string)
    ensures |r| <= |s| && r == s[|s| - |r|..]
    ensures AllWhitespace(s[..|s| - |r|])
    ensures r == [] || !IsWhitespace(r[0])
  {
    if s != [] && IsWhitespace(s[0]) then
      var r := TrimStart(s[1..]);
      assert s[..|s| - |r|] == [s[0]] + s[1..][..|s| - 1 - |r|];
      r
    else
      s
  }

  /** `s` without its longest all-whitespace suffix. */
  function TrimEnd(s: string): (r: string)
    ensures |r| <= |s| && r == s[..|r|]
    ensures AllWhitespace(s[|r|..])
    ensures r == [] || !IsWhitespace(r[|r| - 1])
  {
    if s != [] && IsWhitespace(s[|s| - 1]) then
      var r := TrimEnd(s[..|s| - 1]);
      assert s[|r|..] == s[..|s| - 1][|r|..] + [s[|s| - 1]];
      r
    else
      s
  }

  /** Python's `str.strip()`: both whitespace ends removed. */
  function Strip(s: string): (r: string)
    ensures |r| <= |s|
    ensures IsTrimmed(r)
    ensures r == [] <==> AllWhitespace(s)
  {
    var front := TrimStart(s);
    var r := TrimEnd(front);
    assert r != [] ==> r[0] == front[0];
    assert r == [] ==> AllWhitespace(s) by {
      if r == [] {
        AllWhitespaceConcat(s[..|s| - |front|], front[|r|..]);
        assert s == s[..|s| - |front|] + front[|r|..];
      }
    }
    assert front != [] ==> !IsWhitespace(s[|s| - |front|]) by {
      if front != [] { assert front[0] == s[|s| - |front|]; }
    }
    r
  }

  lemma AllWhitespaceConcat(a: string, b: string)
    requires AllWhitespace(a) && AllWhitespace(b)
    ensures AllWhitespace(a + b)
  {
    forall k | 0 <= k < |a + b| ensures IsWhitespace((a + b)[k]) {
      if k < |a| { assert (a + b)[k] == a[k]; } else { assert (a + b)[k] == b[k - |a|]; }
    }
  }

  /** TrimStart removes the whitespace prefix `s[..k]` when `s[k]` is the
      first character that is not whitespace. */
  lemma {:induction false} TrimStartAt(s: string, k: nat)
    requires k <= |s| && AllWhitespace(s[..k])
    requires k == |s| || !IsWhitespace(s[k])
    ensures TrimStart(s) == s[k..]
  {
    var r := TrimStart(s);
    var j := |s| - |r|;
    PrefixWhitespace(s, k);
    PrefixWhitespace(s, j);
    assert j < |s| ==> s[j] == r[0];
  }

  /** TrimEnd removes the whitespace suffix `s[k..]` when `s[k - 1]` is the
      last character that is not whitespace. */
  lemma {:induction false} TrimEndAt(s: string, k: nat)
    requires k <= |s| && AllWhitespace(s[k..])
    requires k == 0 || !IsWhitespace(s[k - 1])
    ensures TrimEnd(s) == s[..k]
  {
    var r := TrimEnd(s);
    var j := |r|;
    SuffixWhitespace(s, k);
    SuffixWhitespace(s, j);
    assert j > 0 ==> s[j - 1] == r[j - 1];
  }

  lemma PrefixWhitespace(s: string, k: nat)
    requires k <= |s| && AllWhitespace(s[..k])
    ensures forall m :: 0 <= m < k ==> IsWhitespace(s[m])
  {
    assert forall m :: 0 <= m < k ==> s[..k][m] == s[m];
  }

  lemma SuffixWhitespace(s: string, k: nat)
    requires k <= |s| && AllWhitespace(s[k..])
    ensures forall m :: k <= m < |s| ==> IsWhitespace(s[m])
  {
    assert forall m :: k <= m < |s| ==> s[k..][m - k] == s[m];
  }

  /** TrimStart removes exactly a whitespace prefix put in front of a string
      that does not start with whitespace. */
  lemma TrimStartPadded(lead: string, rest: string)
    requires AllWhitespace(lead) && (rest == [] || !IsWhitespace(rest[0]))
    ensures TrimStart(lead + rest) == rest
  {
    var s := lead + rest;
    assert s[..|lead|] == lead && s[|lead|..] == rest;
    assert rest != [] ==> s[|lead|] == rest[0];
    TrimStartAt(s, |lead|);
  }

  /** TrimEnd removes exactly a whitespace suffix put after a string that
      does not end with whitespace. */
  lemma TrimEndPadded(rest: string, trail: string)
    requires AllWhitespace(trail) && (rest == [] || !IsWhitespace(rest[|rest| - 1]))
    ensures TrimEnd(rest + trail) == rest
  {
    var s := rest + trail;
    assert s[|rest|..] == trail && s[..|rest|] == rest;
    assert rest != [] ==> s[|rest| - 1] == rest[|rest| - 1];
    TrimEndAt(s, |rest|);
  }

  /** Stripping removes exactly the whitespace padding around a trimmed
      core, and nothing of the core itself. */
  lemma StripPadded(lead: string, core: string, trail: string)
    requires AllWhitespace(lead) && AllWhitespace(trail) && IsTrimmed(core)
    ensures Strip(lead + core + trail) == core
  {
    if core == [] {
      assert lead + core + trail == lead + trail;
      AllWhitespaceConcat(lead, trail);
    } else {
      var back := core + trail;
      assert lead + core + trail == lead + back;
      assert back[0] == core[0];
      TrimStartPadded(lead, back);
      TrimEndPadded(core, trail);
    }
  }

  /** A string with no whitespace at either end is its own strip. */
  lemma StripTrimmed(s: string)
    requires IsTrimmed(s)
    ensures Strip(s) == s
  {
    assert s[..0] == [] && s[0..] == s;
    TrimStartAt(s, 0);
    assert s[|s|..] == [] && s[..|s|] == s;
    TrimEndAt(s, |s|);
  }

  /** `strip()` is idempotent. */
  lemma StripIdempotent(s: string)
    ensures Strip(Strip(s)) == Strip(s)
  {
    StripTrimmed(Strip(s));
  }

  predicate IsDigit(c: char) {
    '0' <= c <= '9'
  }

  predicate AllDigits(s: string) {
    forall k :: 0 <= k < |s| ==> IsDigit(s[k])
  }

  function DigitChar(d: nat): (c: char)
    requires d < 10
    ensures IsDigit(c)
  {
    ('0' as int + d) as char
  }

  function DigitValue(c: char): (d: nat)
    requires IsDigit(c)
    ensures d < 10 && DigitChar(d) == c
  {
    c as int - '0' as int
  }

  /** The decimal rendering of `n`, most significant digit first, as
      Python's `str(n)` writes a non-negative integer. */
  function DecimalString(n: nat): (r: string)
    ensures r != [] && AllDigits(r)
    ensures r[0] == '0' ==> n == 0
  {
    if n < 10 then [DigitChar(n)] else DecimalString(n / 10) + [DigitChar(n % 10)]
  }

  /** The number a string of decimal digits denotes. */
  function ParseDecimal(s: string): nat
    requires AllDigits(s)
  {
    if s == [] then 0 else ParseDecimal(s[..|s| - 1]) * 10 + DigitValue(s[|s| - 1])
  }

  /** Reading back a rendered number gives the number: distinct numbers
      get distinct renderings. */
  lemma {:induction false} ParseDecimalString(n: nat)
    ensures ParseDecimal(DecimalString(n)) == n
  {
    var s := DecimalString(n);
    if n < 10 {
      assert s[..|s| - 1] == [];
    } else {
      ParseDecimalString(n / 10);
      assert s[..|s| - 1] == DecimalString(n / 10);
    }
  }
}
