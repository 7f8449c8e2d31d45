/**
 * The parts of JavaScript string handling the scripts rely on: regular-expression
 * character classes, `toLowerCase`, `parseInt` on digit strings, `includes`,
 * `indexOf`, `split` and `replace`.
 */
module Text {
  import opened Wrappers
  import opened Seqs

  /** `\d` */
  predicate IsDigit(c: char) { '0' <= c <= '9' }

  predicate IsUpper(c: char) { 'A' <= c <= 'Z' }

  /** `[A-Z]` under the `i` flag: an ASCII letter of either case */
  predicate IsLetter(c: char) { IsUpper(c) || 'a' <= c <= 'z' }

  /** The characters that `.` does not match and before which `$` cannot stop early */
  predicate IsLineTerminator(c: char)
  {
    c == '\n' || c == '\r' || c == '\U{2028}' || c == '\U{2029}'
  }

  predicate NoLineTerminator(s: string)
  {
    forall i :: 0 <= i < |s| ==> !IsLineTerminator(s[i])
  }

  function LowerChar(c: char): char
  {
    if IsUpper(c) then (c as int + 32) as char else c
  }

  /** `s.toLowerCase()` on ASCII letters; every other character is kept */
  function Lower(s: string): string
  {
    seq(|s|, i requires 0 <= i < |s| => LowerChar(s[i]))
  }

  /** Where a `.*` starting at the beginning of `s` must stop: the first line terminator, or the end */
  function LineEnd(s: string): (k: nat)
    ensures k <= |s|
    ensures forall i :: 0 <= i < k ==> !IsLineTerminator(s[i])
    ensures k < |s| ==> IsLineTerminator(s[k])
  {
    if s == [] || IsLineTerminator(s[0]) then 0 else 1 + LineEnd(s[1..])
  }

  predicate DigitsOnly(s: string)
  {
    forall i :: 0 <= i < |s| ==> IsDigit(s[i])
  }

  /** `^\d+$` */
  predicate AllDigits(s: string)
  {
    |s| > 0 && DigitsOnly(s)
  }

  /** `[A-Z]+` matching all of `s` under the `i` flag */
  predicate AllLetters(s: string)
  {
    |s| > 0 && forall i :: 0 <= i < |s| ==> IsLetter(s[i])
  }

  /** `[A-Z0-9]+` matching all of `s` under the `i` flag */
  predicate AllLettersOrDigits(s: string)
  {
    |s| > 0 && forall i :: 0 <= i < |s| ==> IsLetter(s[i]) || IsDigit(s[i])
  }

  function DigitValue(c: char): nat
    requires IsDigit(c)
  {
    c as int - '0' as int
  }

  /** The number a string of decimal digits denotes, as `parseInt` reads it */
  function DecimalValue(s: string): nat
    requires DigitsOnly(s)
  {
    if s == [] then 0 else 10 * DecimalValue(s[..|s| - 1]) + DigitValue(s[|s| - 1])
  }

  /** The longest run of digits at the start of `s` */
  function LeadingDigits(s: string): (d: string)
    ensures |d| <= |s| && d == s[..|d|] && DigitsOnly(d)
    ensures |d| < |s| ==> !IsDigit(s[|d|])
  {
    if s != [] && IsDigit(s[0]) then [s[0]] + LeadingDigits(s[1..]) else []
  }

  /** The longest run of letters at the start of `s`: what a greedy `[A-Z]+` under `i` takes */
  function LeadingLetters(s: string): (l: string)
    ensures |l| <= |s| && l == s[..|l|]
    ensures forall i :: 0 <= i < |l| ==> IsLetter(l[i])
    ensures |l| < |s| ==> !IsLetter(s[|l|])
  {
    if s != [] && IsLetter(s[0]) then [s[0]] + LeadingLetters(s[1..]) else []
  }

  /** The longest run of digits at the end of `s` */
  function TrailingDigits(s: string): (d: string)
    ensures |d| <= |s| && d == s[|s| - |d|..] && DigitsOnly(d)
    ensures |d| < |s| ==> !IsDigit(s[|s| - |d| - 1])
  {
    if s != [] && IsDigit(s[|s| - 1]) then TrailingDigits(s[..|s| - 1]) + [s[|s| - 1]] else []
  }

  /** The value of the last digit anywhere in `s` */
  function LastDigit(s: string): Option<nat>
  {
    if s == [] then None
    else if IsDigit(s[|s| - 1]) then Some(DigitValue(s[|s| - 1]))
    else LastDigit(s[..|s| - 1])
  }

  /**
   * `parseInt(s)` for a string that does not start with white space, a sign or `0x`:
   * the value of its leading digits; `None` stands for `NaN`
   */
  function ParseInt(s: string): Option<nat>
  {
    var d := LeadingDigits(s);
    if d == [] then None else Some(DecimalValue(d))
  }

  predicate StartsWith(s: string, p: string)
  {
    |p| <= |s| && s[..|p|] == p
  }

  /** `s.includes(t)` */
  predicate Contains(s: string, t: string)
    decreases |s|
  {
    StartsWith(s, t) || (s != [] && Contains(s[1..], t))
  }

  /** `s.indexOf(c)` for one character; `None` stands for -1 */
  function IndexOf(s: string, c: char): (k: Option<nat>)
    ensures k.Some? ==> k.value < |s| && s[k.value] == c && forall i :: 0 <= i < k.value ==> s[i] != c
    ensures k.None? ==> forall i :: 0 <= i < |s| ==> s[i] != c
  {
    if s == [] then None
    else if s[0] == c then Some(0)
    else match IndexOf(s[1..], c)
      case None => None
      case Some(k) => Some(k + 1)
  }

  /** `s.split(c)` for a one-character separator */
  function Split(s: string, c: char): (parts: seq<string>)
    ensures |parts| > 0
    decreases |s|
  {
    match IndexOf(s, c)
    case None => [s]
    case Some(k) => [s[..k]] + Split(s[k + 1..], c)
  }

  /** The index of the first occurrence of `pat` in `s` */
  function FindSubstring(s: string, pat: string): (k: Option<nat>)
    ensures k.Some? ==> k.value + |pat| <= |s| && s[k.value..k.value + |pat|] == pat
    decreases |s|
  {
    if StartsWith(s, pat) then Some(0)
    else if s == [] then None
    else match FindSubstring(s[1..], pat)
      case None => None
      case Some(k) => Some(k + 1)
  }

  /** `s.replace(pat, repl)` with a string pattern: only the first occurrence is replaced */
  function ReplaceFirst(s: string, pat: string, repl: string): string
  {
    match FindSubstring(s, pat)
    case None => s
    case Some(k) => s[..k] + repl + s[k + |pat|..]
  }

  /** A line-terminator-free string is one line: `.*` may run to its end */
  lemma LineEndOfOneLine(s: string)
    requires NoLineTerminator(s)
    ensures LineEnd(s) == |s|
  {
  }

  /** `t` is the end of `s` after its last `c`: a suffix without `c`, preceded by `c` unless it is all of `s` */
  predicate TailAfterLast(t: string, s: string, c: char)
  {
    |t| <= |s| && t == s[|s| - |t|..] &&
    (forall i :: 0 <= i < |t| ==> t[i] != c) &&
    (|t| < |s| ==> s[|s| - |t| - 1] == c)
  }

  /** `s.split(c).pop()` is the text after the last `c`, or all of `s` when there is none */
  lemma {:induction false} LastSplitIsTail(s: string, c: char)
    ensures TailAfterLast(Last(Split(s, c)), s, c)
    decreases |s|
  {
    match IndexOf(s, c)
    case None =>
      assert Split(s, c) == [s];
      assert Last(Split(s, c)) == s;
    case Some(k) =>
      LastSplitIsTail(s[k + 1..], c);
      LastSplitStep(s, c, k);
      TailOfTail(s, k, Last(Split(s[k + 1..], c)), c);
  }

  /** One step of the split: the last part of `s` is the last part of the text after its first `c` */
  lemma LastSplitStep(s: string, c: char, k: nat)
    requires IndexOf(s, c) == Some(k)
    ensures Last(Split(s, c)) == Last(Split(s[k + 1..], c))
  {
    assert Split(s, c) == [s[..k]] + Split(s[k + 1..], c);
  }

  /** A tail after the last `c` of the text after position `k` of `s`, where `s[k]` is `c`, is one of `s` */
  lemma TailOfTail(s: string, k: nat, t: string, c: char)
    requires k < |s| && s[k] == c
    requires TailAfterLast(t, s[k + 1..], c)
    ensures TailAfterLast(t, s, c)
  {
    var rest := s[k + 1..];
    assert rest[|rest| - |t|..] == s[|s| - |t|..];
    if |t| < |rest| {
      assert rest[|rest| - |t| - 1] == s[|s| - |t| - 1];
    }
  }

  /** When `c` occurs in `s`, the text after the last `c` is shorter than `s` */
  lemma LastSplitShorter(s: string, c: char)
    requires Contains(s, [c])
    ensures |Last(Split(s, c))| < |s|
  {
    LastSplitIsTail(s, c);
    ContainsChar(s, c);
  }

  /** No part of a `split` result holds a line terminator */
  predicate PartsOneLine(parts: seq<string>)
  {
    forall i :: 0 <= i < |parts| ==> NoLineTerminator(parts[i])
  }

  /** Every part `split` returns is free of line terminators only if the whole string is */
  lemma {:induction false} SplitKeepsOneLine(s: string, c: char)
    requires !IsLineTerminator(c)
    requires PartsOneLine(Split(s, c))
    ensures NoLineTerminator(s)
    decreases |s|
  {
    var parts := Split(s, c);
    match IndexOf(s, c)
    case None =>
      assert parts[0] == s;
    case Some(k) =>
      var rest := s[k + 1..];
      assert parts == [s[..k]] + Split(rest, c);
      assert PartsOneLine(Split(rest, c)) by {
        forall i | 0 <= i < |Split(rest, c)|
          ensures NoLineTerminator(Split(rest, c)[i])
        {
          assert Split(rest, c)[i] == parts[i + 1];
        }
      }
      SplitKeepsOneLine(rest, c);
      assert NoLineTerminator(parts[0]);
      forall i | 0 <= i < |s|
        ensures !IsLineTerminator(s[i])
      {
        if i < k {
          assert s[i] == parts[0][i];
        } else if i > k {
          assert s[i] == rest[i - k - 1];
        }
      }
  }

  /** When the first part of `split` is not empty, neither is the string */
  lemma SplitFirstNonEmpty(s: string, c: char)
    requires |Split(s, c)[0]| > 0
    ensures |s| > 0
  {
  }

  /** `s.includes(c)` for a one-character string finds `c` at some position */
  lemma {:induction false} ContainsChar(s: string, c: char)
    requires Contains(s, [c])
    ensures exists i :: 0 <= i < |s| && s[i] == c
    decreases |s|
  {
    if !StartsWith(s, [c]) {
      ContainsChar(s[1..], c);
      var i :| 0 <= i < |s[1..]| && s[1..][i] == c;
      assert s[i + 1] == c;
    } else {
      assert s[0] == s[..1][0];
    }
  }

  /** The leading digit run of digits followed by a non-digit (or nothing) is those digits */
  lemma LeadingDigitsBefore(d: string, rest: string)
    requires DigitsOnly(d)
    requires rest == [] || !IsDigit(rest[0])
    ensures LeadingDigits(d + rest) == d
  {
    assert (d + rest)[..|d|] == d;
  }

  /** The leading letter run of letters followed by a non-letter is those letters */
  lemma LeadingLettersBefore(l: string, rest: string)
    requires forall i :: 0 <= i < |l| ==> IsLetter(l[i])
    requires rest == [] || !IsLetter(rest[0])
    ensures LeadingLetters(l + rest) == l
  {
    assert (l + rest)[..|l|] == l;
  }

  lemma DecimalValue5694()
    ensures DecimalValue("5694") == 5694
  {
    assert "5694"[..3] == "569";
    assert "569"[..2] == "56";
    assert "56"[..1] == "5";
    assert "5"[..0] == "";
  }
}
