/**
 * The Java string operations the core relies on: String.trim (behind
 * Bean Validation's @NotBlank), String.join(",", ...) for the `uris`
 * query parameter and its comma-split inverse, and Long.toString for
 * event URIs.
 */
module Text {
  import opened Wrappers

  // ---------------------------------------------------------------------
  // String.trim and @NotBlank
  // ---------------------------------------------------------------------

  /** String.trim removes every character whose code point is at most U+0020. */
  predicate IsTrimmable(c: char) {
    c <= ' '
  }

  /** True when `s` holds a character that String.trim keeps. */
  ghost predicate HasVisible(s: string) {
    exists i :: 0 <= i < |s| && !IsTrimmable(s[i])
  }

  function TrimStart(s: string): string {
    if s != [] && IsTrimmable(s[0]) then TrimStart(s[1..]) else s
  }

  function TrimEnd(s: string): string {
    if s != [] && IsTrimmable(s[|s| - 1]) then TrimEnd(s[..|s| - 1]) else s
  }

  /** String.trim: both ends stripped of trimmable characters. */
  function Trim(s: string): string {
    TrimEnd(TrimStart(s))
  }

  /**
   * Bean Validation's @NotBlank on a String: the reference is not null and
   * the trimmed text is not empty.
   */
  predicate NotBlank(s: Option<string>) {
    s.Some? && |Trim(s.value)| > 0
  }

  lemma {:induction false} TrimStartShape(s: string)
    ensures TrimStart(s) == [] <==> !HasVisible(s)
    ensures TrimStart(s) != [] ==> !IsTrimmable(TrimStart(s)[0])
    decreases |s|
  {
    if s != [] && IsTrimmable(s[0]) {
      TrimStartShape(s[1..]);
      if HasVisible(s) {
        var i :| 0 <= i < |s| && !IsTrimmable(s[i]);
        assert i > 0 && !IsTrimmable(s[1..][i - 1]);
      }
      if HasVisible(s[1..]) {
        var i :| 0 <= i < |s[1..]| && !IsTrimmable(s[1..][i]);
        assert !IsTrimmable(s[i + 1]);
      }
    } else if s != [] {
      assert !IsTrimmable(s[0]);
    }
  }

  lemma {:induction false} TrimEndKeepsVisibleHead(s: string)
    requires s != [] && !IsTrimmable(s[0])
    ensures TrimEnd(s) != []
    decreases |s|
  {
    if IsTrimmable(s[|s| - 1]) {
      assert |s| > 1;
      TrimEndKeepsVisibleHead(s[..|s| - 1]);
    }
  }

  /** @NotBlank holds exactly when the string is present and has a non-whitespace character. */
  lemma NotBlankIffVisible(s: Option<string>)
    ensures NotBlank(s) <==> s.Some? && HasVisible(s.value)
  {
    if s.Some? {
      TrimStartShape(s.value);
      if TrimStart(s.value) != [] {
        TrimEndKeepsVisibleHead(TrimStart(s.value));
      }
    }
  }

  // ---------------------------------------------------------------------
  // String.join(",", ...) and splitting on commas
  // ---------------------------------------------------------------------

  /** String.join(",", xs). */
  function Join(xs: seq<string>): string {
    if |xs| == 0 then ""
    else if |xs| == 1 then xs[0]
    else xs[0] + "," + Join(xs[1..])
  }

  function FirstComma(s: string): (i: nat)
    requires ',' in s
    ensures i < |s| && s[i] == ',' && ',' !in s[..i]
  {
    if s[0] == ',' then 0
    else
      assert ',' in s[1..] by {
        var k :| 0 <= k < |s| && s[k] == ',';
        assert s[1..][k - 1] == ',';
      }
      var j := FirstComma(s[1..]);
      assert s[..j + 1] == [s[0]] + s[1..][..j];
      j + 1
  }

  /** Splits a comma-separated list, keeping empty fields (the inverse of Join). */
  function Split(s: string): (r: seq<string>)
    ensures |r| >= 1
    decreases |s|
  {
    if ',' !in s then [s]
    else
      var i := FirstComma(s);
      [s[..i]] + Split(s[i + 1..])
  }

  ghost predicate CommaFree(xs: seq<string>) {
    forall k :: 0 <= k < |xs| ==> ',' !in xs[k]
  }

  /** Splitting at a comma with none before it: the field before it, then the rest split. */
  lemma SplitAt(s: string, i: nat)
    requires i < |s| && s[i] == ',' && ',' !in s[..i]
    ensures Split(s) == [s[..i]] + Split(s[i + 1..])
  {
  }

  /**
   * Joining a non-empty list of comma-free strings loses nothing. (The empty
   * list is the exception: Join([]) == "" splits back to [""].)
   */
  lemma {:induction false} SplitJoin(xs: seq<string>)
    requires |xs| > 0 && CommaFree(xs)
    ensures Split(Join(xs)) == xs
    decreases |xs|
  {
    if |xs| == 1 {
      assert ',' !in xs[0];
    } else {
      var head, rest := xs[0], xs[1..];
      var tail := Join(rest);
      var s := head + "," + tail;
      assert Join(xs) == s;
      assert ',' !in s[..|head|] by {
        assert s[..|head|] == head;
        assert ',' !in xs[0];
      }
      SplitAt(s, |head|);
      assert s[..|head|] == head && s[|head| + 1..] == tail;
      assert CommaFree(rest) by {
        forall k | 0 <= k < |rest| ensures ',' !in rest[k] {
          assert rest[k] == xs[k + 1];
        }
      }
      SplitJoin(rest);
      assert xs == [head] + rest;
    }
  }

  lemma SplitEmptyJoin()
    ensures Split(Join([])) == [""]
  {
    assert ',' !in "";
  }

  // ---------------------------------------------------------------------
  // Long.toString
  // ---------------------------------------------------------------------

  predicate IsDigit(c: char) {
    '0' <= c <= '9'
  }

  function DigitChar(d: nat): (c: char)
    requires d < 10
    ensures IsDigit(c)
  {
    ('0' as int + d) as char
  }

  function DigitValue(c: char): nat
    requires IsDigit(c)
  {
    c as int - '0' as int
  }

  /** The decimal digits of `n`, most significant first, without leading zeros. */
  function Digits(n: nat): (r: string)
    ensures |r| >= 1
    ensures forall i :: 0 <= i < |r| ==> IsDigit(r[i])
  {
    if n < 10 then [DigitChar(n)] else Digits(n / 10) + [DigitChar(n % 10)]
  }

  predicate AllDigits(s: string) {
    forall i :: 0 <= i < |s| ==> IsDigit(s[i])
  }

  function ParseDigits(s: string): nat
    requires AllDigits(s)
  {
    if s == [] then 0 else ParseDigits(s[..|s| - 1]) * 10 + DigitValue(s[|s| - 1])
  }

  lemma {:induction false} ParseDigitsOfDigits(n: nat)
    ensures ParseDigits(Digits(n)) == n
  {
    var s := Digits(n);
    if n >= 10 {
      assert s[..|s| - 1] == Digits(n / 10);
      ParseDigitsOfDigits(n / 10);
    }
  }

  /** Long.toString: a minus sign for negative values, then the digits. */
  function LongToString(n: int): string {
    if n < 0 then "-" + Digits(-n) else Digits(n)
  }

  /** Reads back what LongToString wrote. */
  function ParseLong(s: string): Option<int> {
    if |s| > 0 && AllDigits(s) then Some(ParseDigits(s))
    else if |s| > 1 && s[0] == '-' && AllDigits(s[1..]) then
      var magnitude: int := ParseDigits(s[1..]);
      Some(-magnitude)
    else None
  }

  lemma LongToStringRoundTrip(n: int)
    ensures ParseLong(LongToString(n)) == Some(n)
  {
    var s := LongToString(n);
    if n < 0 {
      assert !IsDigit(s[0]);
      assert !AllDigits(s);
      assert s[1..] == Digits(-n);
      ParseDigitsOfDigits(-n);
    } else {
      assert AllDigits(s);
      ParseDigitsOfDigits(n);
    }
  }

  /** Different numbers print differently. */
  lemma LongToStringInjective(a: int, b: int)
    requires LongToString(a) == LongToString(b)
    ensures a == b
  {
    LongToStringRoundTrip(a);
    LongToStringRoundTrip(b);
  }
}
