/**
 * The handful of Kotlin string operations the app relies on: prefix tests,
 * `split`, `trim`, `substringAfter`, `lastIndexOf`, decimal rendering of
 * non-negative numbers and `toLongOrNull` / `toIntOrNull`.
 */
module Text {
  import opened Wrappers

  const LONG_MIN: int := -0x8000_0000_0000_0000
  const LONG_MAX: int := 0x7FFF_FFFF_FFFF_FFFF
  const INT_MIN: int := -0x8000_0000
  const INT_MAX: int := 0x7FFF_FFFF

  predicate StartsWith(s: string, prefix: string) {
    |prefix| <= |s| && s[..|prefix|] == prefix
  }

  /** Kotlin's `Char.isWhitespace` on the JVM: `Character.isWhitespace` or a Unicode space separator. */
  predicate IsWhitespace(c: char) {
    c == ' ' || ('\t' <= c <= '\r') || ('\U{1C}' <= c <= '\U{1F}')
    || c == '\U{A0}' || c == '\U{1680}' || ('\U{2000}' <= c <= '\U{200A}')
    || c == '\U{2028}' || c == '\U{2029}' || c == '\U{202F}' || c == '\U{205F}' || c == '\U{3000}'
  }

  /** Drops leading whitespace: the result is the suffix of `s` that starts at its first non-blank. */
  function TrimStart(s: string): (r: string)
    ensures |r| <= |s| && r == s[|s| - |r|..]
    ensures r != [] ==> !IsWhitespace(r[0])
    ensures forall i :: 0 <= i < |s| - |r| ==> IsWhitespace(s[i])
  {
    if s != [] && IsWhitespace(s[0]) then TrimStart(s[1..]) else s
  }

  /** Drops trailing whitespace: the result is the prefix of `s` that ends at its last non-blank. */
  function TrimEnd(s: string): (r: string)
    ensures |r| <= |s| && r == s[..|r|]
    ensures r != [] ==> !IsWhitespace(r[|r| - 1])
    ensures forall i :: |r| <= i < |s| ==> IsWhitespace(s[i])
  {
    if s != [] && IsWhitespace(s[|s| - 1]) then TrimEnd(s[..|s| - 1]) else s
  }

  /** Kotlin's `String.trim()`. */
  function Trim(s: string): string {
    TrimEnd(TrimStart(s))
  }

  /** A string that neither starts nor ends with whitespace is its own trim. */
  lemma TrimUnpadded(s: string)
    requires s != [] ==> !IsWhitespace(s[0]) && !IsWhitespace(s[|s| - 1])
    ensures Trim(s) == s
  {
  }

  /** Position of the first `c` in `s`. */
  function IndexOf(s: string, c: char): (i: nat)
    requires c in s
    ensures i < |s| && s[i] == c && c !in s[..i]
  {
    if s[0] == c then 0
    else
      var j := IndexOf(s[1..], c);
      assert s[..j + 1] == [s[0]] + s[1..][..j];
      j + 1
  }

  /** Kotlin's `lastIndexOf(c)`: the last position of `c`, or -1 when there is none. */
  function LastIndexOf(s: string, c: char): (i: int)
    ensures -1 <= i < |s|
    ensures i >= 0 ==> s[i] == c
    ensures forall j :: i < j < |s| ==> s[j] != c
  {
    if |s| == 0 then -1
    else if s[|s| - 1] == c then |s| - 1
    else LastIndexOf(s[..|s| - 1], c)
  }

  /** Kotlin's `split(sep)`: the pieces between separators, `n` separators giving `n + 1` pieces. */
  function Split(s: string, sep: char): (parts: seq<string>)
    ensures |parts| >= 1
    ensures forall k :: 0 <= k < |parts| ==> sep !in parts[k]
    decreases |s|
  {
    if sep in s then
      var i := IndexOf(s, sep);
      [s[..i]] + Split(s[i + 1..], sep)
    else
      [s]
  }

  /** The pieces glued back together with one separator between neighbours. */
  function Join(parts: seq<string>, sep: char): string {
    if |parts| == 0 then ""
    else if |parts| == 1 then parts[0]
    else parts[0] + [sep] + Join(parts[1..], sep)
  }

  /** Splitting a separator-joined list of separator-free pieces gives the pieces back. */
  lemma {:induction false} SplitJoin(parts: seq<string>, sep: char)
    requires |parts| >= 1
    requires forall k :: 0 <= k < |parts| ==> sep !in parts[k]
    ensures Split(Join(parts, sep), sep) == parts
  {
    if |parts| > 1 {
      var s := Join(parts, sep);
      var n := |parts[0]|;
      assert s == parts[0] + [sep] + Join(parts[1..], sep);
      assert s[n] == sep;
      var i := IndexOf(s, sep);
      assert i == n;
      assert s[..i] == parts[0];
      assert s[i + 1..] == Join(parts[1..], sep);
      SplitJoin(parts[1..], sep);
    }
  }

  /** First position where `d` occurs in `s`. */
  function FindSub(s: string, d: string): (r: Option<nat>)
    ensures r.Some? ==> r.value + |d| <= |s| && s[r.value..r.value + |d|] == d
    decreases |s|
  {
    if StartsWith(s, d) then Some(0)
    else if |s| == 0 then None
    else
      match FindSub(s[1..], d)
      case Some(i) => Some(i + 1)
      case None => None
  }

  /** Kotlin's `substringAfter(d)`: what follows the first `d`, or the whole string when `d` is absent. */
  function SubstringAfter(s: string, d: string): string {
    match FindSub(s, d)
    case Some(i) => s[i + |d|..]
    case None => s
  }

  predicate IsDigit(c: char) {
    '0' <= c <= '9'
  }

  predicate AllDigits(s: string) {
    forall i :: 0 <= i < |s| ==> IsDigit(s[i])
  }

  function DigitChar(d: nat): (c: char)
    requires d < 10
    ensures IsDigit(c)
  {
    ('0' as int + d) as char
  }

  function DigitValue(c: char): (d: nat)
    requires IsDigit(c)
    ensures d < 10
  {
    c as int - '0' as int
  }

  /** Decimal rendering of a non-negative number (Kotlin's and JavaScript's `toString`). */
  function NatToString(n: nat): (s: string)
    ensures |s| >= 1 && AllDigits(s)
  {
    if n < 10 then [DigitChar(n)] else NatToString(n / 10) + [DigitChar(n % 10)]
  }

  /** The number a string of ASCII digits denotes. */
  function DigitsValue(s: string): nat
    requires AllDigits(s)
  {
    if s == [] then 0 else DigitsValue(s[..|s| - 1]) * 10 + DigitValue(s[|s| - 1])
  }

  lemma {:induction false} DigitsValueOfNatToString(n: nat)
    ensures DigitsValue(NatToString(n)) == n
  {
    if n >= 10 {
      var s := NatToString(n);
      assert s[..|s| - 1] == NatToString(n / 10);
      DigitsValueOfNatToString(n / 10);
    }
  }

  /** Distinct numbers render as distinct strings. */
  lemma NatToStringInjective(m: nat, n: nat)
    requires NatToString(m) == NatToString(n)
    ensures m == n
  {
    DigitsValueOfNatToString(m);
    DigitsValueOfNatToString(n);
  }

  /**
   * Kotlin's `toLongOrNull` / `toIntOrNull` with the bounds of the target type:
   * an optional `+` or `-`, then at least one digit and nothing else, and a value in range.
   */
  function ParseInteger(s: string, lo: int, hi: int): (r: Option<int>)
    ensures r.Some? ==> lo <= r.value <= hi
  {
    if |s| == 0 then None
    else
      var start := if s[0] == '-' || s[0] == '+' then 1 else 0;
      var digits := s[start..];
      if |digits| == 0 || !AllDigits(digits) then None
      else
        var v: int := if s[0] == '-' then -(DigitsValue(digits) as int) else DigitsValue(digits);
        if lo <= v <= hi then Some(v) else None
  }

  function ToLongOrNull(s: string): Option<int> {
    ParseInteger(s, LONG_MIN, LONG_MAX)
  }

  function ToIntOrNull(s: string): Option<int> {
    ParseInteger(s, INT_MIN, INT_MAX)
  }

  /** A number rendered by `NatToString` parses back to itself whenever it fits the target type. */
  lemma ParseNatToString(n: nat, lo: int, hi: int)
    requires lo <= n <= hi
    ensures ParseInteger(NatToString(n), lo, hi) == Some(n)
  {
    var s := NatToString(n);
    assert IsDigit(s[0]);
    assert s[0..] == s;
    DigitsValueOfNatToString(n);
  }

  /** Decimal rendering of any number, with a leading `-` when it is negative (Kotlin's `Long.toString`). */
  function IntToString(n: int): (s: string)
    ensures |s| >= 1
    ensures s[0] == '-' <==> n < 0
    ensures n < 0 ==> AllDigits(s[1..])
    ensures n >= 0 ==> AllDigits(s)
  {
    if n < 0 then "-" + NatToString(-n) else NatToString(n)
  }

  /** A signed numeral parses to its value whenever that fits the target type. */
  lemma ParseSigned(n: nat, lo: int, hi: int)
    ensures lo <= -(n as int) <= hi ==> ParseInteger("-" + NatToString(n), lo, hi) == Some(-(n as int))
    ensures lo <= n <= hi ==> ParseInteger("+" + NatToString(n), lo, hi) == Some(n)
  {
    var d := NatToString(n);
    assert ("-" + d)[1..] == d && ("+" + d)[1..] == d;
    DigitsValueOfNatToString(n);
  }

  /** Every number rendered by `IntToString` parses back to itself when it fits (round trip). */
  lemma ParseIntToString(n: int, lo: int, hi: int)
    requires lo <= n <= hi
    ensures ParseInteger(IntToString(n), lo, hi) == Some(n)
  {
    if n < 0 {
      ParseSigned(-n, lo, hi);
    } else {
      ParseNatToString(n, lo, hi);
    }
  }

  /** A first character that is neither a sign nor a digit is rejected. */
  lemma ParseRejectsBadStart(s: string, lo: int, hi: int)
    requires s != [] && s[0] != '-' && s[0] != '+' && !IsDigit(s[0])
    ensures ParseInteger(s, lo, hi) == None
  {
    assert s[0..][0] == s[0];
  }

  /** An empty string, a lone sign or any character other than a sign or digit is rejected. */
  lemma ParseRejectsNonNumbers(s: string, lo: int, hi: int)
    requires s == [] || s == "-" || s == "+" || exists i :: 1 <= i < |s| && !IsDigit(s[i])
    ensures ParseInteger(s, lo, hi) == None
  {
    if s != [] && s != "-" && s != "+" {
      var i :| 1 <= i < |s| && !IsDigit(s[i]);
      var start := if s[0] == '-' || s[0] == '+' then 1 else 0;
      assert s[start..][i - start] == s[i];
    }
  }
}
