/**
 * String helpers that both halves of the application rely on: Python's
 * `str.strip()` / JavaScript's `String.prototype.trim()`, `split(',')`,
 * ASCII lower-casing (`str.lower()` compared against "true"), and decimal
 * conversion (`Number.prototype.toString()` on the client, `int()` on the
 * server and PostgreSQL's integer cast), and the `error || fallback` of the
 * two forms' error toasts.
 */
module Text {
  import opened Wrappers

  // ---------------------------------------------------------------------------
  // Whitespace and stripping
  // ---------------------------------------------------------------------------

  /** The whitespace characters that stripping removes (the ASCII ones). */
  predicate IsSpace(c: char) {
    c == ' ' || c == '\t' || c == '\n' || c == '\r' || c == '\U{000B}' || c == '\U{000C}'
  }

  predicate AllSpace(s: string) {
    forall i :: 0 <= i < |s| ==> IsSpace(s[i])
  }

  /** Neither end of `s` is whitespace (an empty string qualifies). */
  predicate Stripped(s: string) {
    s == [] || (!IsSpace(s[0]) && !IsSpace(s[|s| - 1]))
  }

  /** The first index at or after `i` that is not whitespace (`|s|` if there is none). */
  function SkipSpace(s: string, i: nat): (j: nat)
    requires i <= |s|
    ensures i <= j <= |s|
    ensures forall k :: i <= k < j ==> IsSpace(s[k])
    ensures j < |s| ==> !IsSpace(s[j])
    decreases |s| - i
  {
    if i < |s| && IsSpace(s[i]) then SkipSpace(s, i + 1) else i
  }

  /** The end of `s[lo..hi]` once its trailing whitespace is dropped. */
  function SkipSpaceBack(s: string, lo: nat, hi: nat): (j: nat)
    requires lo <= hi <= |s|
    ensures lo <= j <= hi
    ensures forall k :: j <= k < hi ==> IsSpace(s[k])
    ensures j > lo ==> !IsSpace(s[j - 1])
  {
    if hi > lo && IsSpace(s[hi - 1]) then SkipSpaceBack(s, lo, hi - 1) else hi
  }

  /**
   * `s.strip()`: the result is the infix of `s` left after removing the
   * whitespace at both ends; it is empty exactly when `s` is all whitespace.
   */
  function Strip(s: string): (r: string)
    ensures Stripped(r)
    ensures r == [] <==> AllSpace(s)
  {
    var i := SkipSpace(s, 0);
    var j := SkipSpaceBack(s, i, |s|);
    assert i == j ==> i == |s|;
    s[i..j]
  }

  /** `r` sits in `s` at `i`, with only whitespace before and after it. */
  predicate InfixAmidSpace(s: string, i: int, r: string) {
    0 <= i <= |s| - |r| && s[i..i + |r|] == r && AllSpace(s[..i]) && AllSpace(s[i + |r|..])
  }

  /** Stripping removes only whitespace: the result sits inside `s` between two whitespace runs. */
  lemma StripIsInfix(s: string)
    ensures exists i :: InfixAmidSpace(s, i, Strip(s))
  {
    var i := SkipSpace(s, 0);
    var j := SkipSpaceBack(s, i, |s|);
    assert Strip(s) == s[i..j];
    forall k | 0 <= k < i ensures s[..i][k] == s[k] && IsSpace(s[k]) {
    }
    forall k | 0 <= k < |s| - j ensures s[j..][k] == s[j + k] && IsSpace(s[j + k]) {
    }
    assert InfixAmidSpace(s, i, s[i..j]);
  }

  /** A string without whitespace at either end is left as it is. */
  lemma StripOfStripped(s: string)
    requires Stripped(s)
    ensures Strip(s) == s
  {
    if s != [] {
      assert SkipSpace(s, 0) == 0;
      assert SkipSpaceBack(s, 0, |s|) == |s|;
      assert s[0..|s|] == s;
    }
  }

  /** A string that starts with a non-space character does not strip to nothing. */
  lemma StripNonEmpty(s: string)
    requires s != [] && !IsSpace(s[0])
    ensures Strip(s) != []
  {
    assert !AllSpace(s);
  }

  /** `error || fallback`: a present, non-empty message, or else the fallback. */
  function MessageOr(error: Option<string>, fallback: string): (m: string)
    ensures error.Some? && error.value != "" ==> m == error.value
    ensures error.None? || error.value == "" ==> m == fallback
  {
    if error.Some? && error.value != "" then error.value else fallback
  }

  // ---------------------------------------------------------------------------
  // Splitting on a separator
  // ---------------------------------------------------------------------------

  /**
   * `s.split(sep)` with JavaScript's semantics: always at least one piece
   * (the empty string splits into one empty piece) and no piece holds `sep`.
   */
  function Split(s: string, sep: char): (pieces: seq<string>)
    ensures |pieces| >= 1
  {
    if s == [] then [[]]
    else
      var rest := Split(s[1..], sep);
      if s[0] == sep then [[]] + rest
      else [[s[0]] + rest[0]] + rest[1..]
  }

  /** No piece holds the separator. */
  lemma {:induction false} SplitPiecesLackSep(s: string, sep: char)
    ensures forall i :: 0 <= i < |Split(s, sep)| ==> sep !in Split(s, sep)[i]
  {
    if s != [] {
      var rest := Split(s[1..], sep);
      SplitPiecesLackSep(s[1..], sep);
      if s[0] != sep {
        var first := [s[0]] + rest[0];
        assert sep !in first by {
          forall k | 0 <= k < |first| ensures first[k] != sep {
            if k > 0 { assert first[k] == rest[0][k - 1]; }
          }
        }
      }
    }
  }

  /** `pieces.join(sep)`. */
  function Join(pieces: seq<string>, sep: char): string
    requires |pieces| >= 1
  {
    if |pieces| == 1 then pieces[0] else pieces[0] + [sep] + Join(pieces[1..], sep)
  }

  /** Splitting loses nothing: joining the pieces back gives the original text. */
  lemma {:induction false} JoinSplit(s: string, sep: char)
    ensures Join(Split(s, sep), sep) == s
  {
    if s != [] {
      var rest := Split(s[1..], sep);
      JoinSplit(s[1..], sep);
      if s[0] == sep {
        assert ([[]] + rest)[1..] == rest;
      } else if |rest| == 1 {
        assert Split(s, sep) == [[s[0]] + rest[0]];
        assert s == [s[0]] + s[1..];
      } else {
        var pieces := [[s[0]] + rest[0]] + rest[1..];
        assert pieces[1..] == rest[1..];
        assert Join(rest, sep) == rest[0] + [sep] + Join(rest[1..], sep);
        assert s == [s[0]] + s[1..];
      }
    }
  }

  // ---------------------------------------------------------------------------
  // ASCII lower-casing
  // ---------------------------------------------------------------------------

  function LowerChar(c: char): char {
    if 'A' <= c <= 'Z' then (c as int + 32) as char else c
  }

  /** `s.lower()` on ASCII letters; other characters are left unchanged. */
  function LowerAscii(s: string): (r: string)
    ensures |r| == |s|
  {
    seq(|s|, i requires 0 <= i < |s| => LowerChar(s[i]))
  }

  /** `s.lower() == "true"` holds exactly for the sixteen spellings of "true" in any letter case. */
  lemma LowerIsTrue(s: string)
    ensures LowerAscii(s) == "true" <==>
      |s| == 4 && s[0] in "tT" && s[1] in "rR" && s[2] in "uU" && s[3] in "eE"
  {
    if |s| == 4 {
      var r := LowerAscii(s);
      assert r[0] == LowerChar(s[0]) && r[1] == LowerChar(s[1]);
      assert r[2] == LowerChar(s[2]) && r[3] == LowerChar(s[3]);
    }
  }

  // ---------------------------------------------------------------------------
  // Decimal numerals
  // ---------------------------------------------------------------------------

  predicate IsDigit(c: char) {
    '0' <= c <= '9'
  }

  predicate AllDigits(s: string) {
    forall i :: 0 <= i < |s| ==> IsDigit(s[i])
  }

  function DigitChar(d: nat): (c: char)
    requires d < 10
    ensures IsDigit(c)
  {
    ('0' as int + d) as char
  }

  /** The decimal digits of `n`, most significant first, without leading zeros. */
  function NatDigits(n: nat): (s: string)
    ensures |s| >= 1 && AllDigits(s)
    ensures s[0] == '0' ==> n == 0
  {
    if n < 10 then [DigitChar(n)] else NatDigits(n / 10) + [DigitChar(n % 10)]
  }

  /** The number a string of decimal digits denotes. */
  function DigitsValue(s: string): nat
    requires AllDigits(s)
  {
    if s == [] then 0 else DigitsValue(s[..|s| - 1]) * 10 + (s[|s| - 1] as int - '0' as int)
  }

  lemma {:induction false} DigitsValueOfNatDigits(n: nat)
    ensures DigitsValue(NatDigits(n)) == n
  {
    if n >= 10 {
      var d := NatDigits(n / 10);
      DigitsValueOfNatDigits(n / 10);
      assert (d + [DigitChar(n % 10)])[..|d|] == d;
    }
  }

  /** `n.toString()` / `str(n)` for an integer: an optional '-' and the digits. */
  function IntToString(n: int): string {
    if n < 0 then "-" + NatDigits(-n) else NatDigits(n)
  }

  /**
   * Python's `int(s)` (and PostgreSQL's cast of a text literal to integer):
   * surrounding whitespace is ignored, then an optional sign and at least one
   * digit; anything else fails.
   */
  function ParseInt(s: string): (r: Option<int>)
    ensures r.Some? ==> Strip(s) != []
    ensures AllSpace(s) ==> r == None
  {
    ParseSigned(Strip(s))
  }

  /** An optional sign and at least one digit, with nothing around them. */
  function ParseSigned(t: string): Option<int> {
    if t == [] then None
    else if t[0] == '-' || t[0] == '+' then
      if |t| >= 2 && AllDigits(t[1..]) then
        var v: int := DigitsValue(t[1..]);
        Some(if t[0] == '-' then -v else v)
      else None
    else if AllDigits(t) then Some(DigitsValue(t))
    else None
  }

  /** A decimal numeral has no whitespace at either end, so stripping leaves it alone. */
  lemma IntToStringUnstripped(n: int)
    ensures Strip(IntToString(n)) == IntToString(n)
  {
    var s := IntToString(n);
    var digits := NatDigits(if n < 0 then -n else n);
    assert IsDigit(digits[|digits| - 1]);
    if n < 0 {
      assert s[|s| - 1] == digits[|digits| - 1];
    } else {
      assert IsDigit(digits[0]);
    }
    StripOfStripped(s);
  }

  /** The numeral of an integer, read without stripping, gives the integer back. */
  lemma ParseSignedIntToString(n: int)
    ensures ParseSigned(IntToString(n)) == Some(n)
  {
    var s := IntToString(n);
    if n < 0 {
      var digits := NatDigits(-n);
      DigitsValueOfNatDigits(-n);
      assert s[1..] == digits;
    } else {
      DigitsValueOfNatDigits(n);
      assert IsDigit(s[0]);
    }
  }

  /** What the client prints, the server reads back: decimal printing and parsing round-trip. */
  lemma ParseIntToString(n: int)
    ensures ParseInt(IntToString(n)) == Some(n)
  {
    IntToStringUnstripped(n);
    ParseSignedIntToString(n);
  }
}
