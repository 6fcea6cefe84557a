/**
 * The string operations of Python's `str` that the pipeline relies on, on ASCII:
 * `strip`, `upper`, `lower`, `title`, `isdigit`, `zfill`, `str(int)`, `int(str)`
 * and the code-point order used to sort strings.
 */
module Text {
  import opened Wrappers

  /** `c.isspace()` for ASCII characters. */
  predicate IsSpace(c: char) {
    c == ' ' || 9 <= c as int <= 13 || 28 <= c as int <= 31
  }

  predicate IsDigit(c: char) {
    '0' <= c <= '9'
  }

  predicate IsLetter(c: char) {
    'a' <= c <= 'z' || 'A' <= c <= 'Z'
  }

  /** `s.isdigit()`: non-empty and made of digits. */
  predicate AllDigits(s: string) {
    |s| > 0 && forall i :: 0 <= i < |s| ==> IsDigit(s[i])
  }

  function StripLeft(s: string): (r: string)
    ensures |r| <= |s|
  {
    if |s| > 0 && IsSpace(s[0]) then StripLeft(s[1..]) else s
  }

  /** `lstrip` cuts a run of whitespace from the front and stops at the first other character. */
  lemma {:induction false} StripLeftSpec(s: string)
    ensures StripLeft(s) == s[|s| - |StripLeft(s)|..]
    ensures StripLeft(s) == [] || !IsSpace(StripLeft(s)[0])
    ensures forall i :: 0 <= i < |s| - |StripLeft(s)| ==> IsSpace(s[i])
  {
    if |s| > 0 && IsSpace(s[0]) {
      StripLeftSpec(s[1..]);
    }
  }

  function StripRight(s: string): (r: string)
    ensures |r| <= |s|
  {
    if |s| > 0 && IsSpace(s[|s| - 1]) then StripRight(s[..|s| - 1]) else s
  }

  /** `rstrip` cuts a run of whitespace from the back and stops at the last other character. */
  lemma {:induction false} StripRightSpec(s: string)
    ensures StripRight(s) == s[..|StripRight(s)|]
    ensures StripRight(s) == [] || !IsSpace(StripRight(s)[|StripRight(s)| - 1])
    ensures forall i :: |StripRight(s)| <= i < |s| ==> IsSpace(s[i])
  {
    if |s| > 0 && IsSpace(s[|s| - 1]) {
      StripRightSpec(s[..|s| - 1]);
    }
  }

  /** `s.strip()`: drop leading and trailing whitespace. */
  function Strip(s: string): string {
    StripRight(StripLeft(s))
  }

  /** Where the stripped text starts in the input. */
  function StripStart(s: string): nat {
    |s| - |StripLeft(s)|
  }

  /** The stripped text is a piece of the input with only whitespace cut away, and has no whitespace at its ends. */
  lemma StripSpec(s: string)
    ensures StripStart(s) + |Strip(s)| <= |s|
    ensures Strip(s) == s[StripStart(s)..StripStart(s) + |Strip(s)|]
    ensures forall i :: 0 <= i < StripStart(s) ==> IsSpace(s[i])
    ensures forall i :: StripStart(s) + |Strip(s)| <= i < |s| ==> IsSpace(s[i])
    ensures Strip(s) == [] || (!IsSpace(Strip(s)[0]) && !IsSpace(Strip(s)[|Strip(s)| - 1]))
  {
    var l := StripLeft(s);
    var r := StripRight(l);
    var a := |s| - |l|;
    StripLeftSpec(s);
    StripRightSpec(l);
    assert r == s[a..a + |r|];
    assert r != [] ==> r[0] == l[0];
  }

  lemma StripIdempotent(s: string)
    ensures Strip(Strip(s)) == Strip(s)
  {
    var r := Strip(s);
    StripSpec(s);
    if |r| > 0 {
      StripTrimmed(r);
    }
  }

  function UpperChar(c: char): char {
    if 'a' <= c <= 'z' then (c as int - 32) as char else c
  }

  function LowerChar(c: char): char {
    if 'A' <= c <= 'Z' then (c as int + 32) as char else c
  }

  /** `s.upper()` on ASCII letters. */
  function Upper(s: string): (r: string)
    ensures |r| == |s| && forall i :: 0 <= i < |s| ==> r[i] == UpperChar(s[i])
  {
    seq(|s|, i requires 0 <= i < |s| => UpperChar(s[i]))
  }

  /** `s.lower()` on ASCII letters. */
  function Lower(s: string): (r: string)
    ensures |r| == |s| && forall i :: 0 <= i < |s| ==> r[i] == LowerChar(s[i])
  {
    seq(|s|, i requires 0 <= i < |s| => LowerChar(s[i]))
  }

  /**
   * `s.title()`: a letter that follows a letter is lower-cased, any other letter is
   * upper-cased; other characters are kept.
   */
  function Title(s: string): (r: string)
    ensures |r| == |s|
  {
    seq(|s|, i requires 0 <= i < |s| =>
      if i > 0 && IsLetter(s[i - 1]) then LowerChar(s[i]) else UpperChar(s[i]))
  }

  lemma CaseChars(c: char)
    ensures IsLetter(UpperChar(c)) == IsLetter(c) && IsLetter(LowerChar(c)) == IsLetter(c)
    ensures IsLetter(c) ==> 'A' <= UpperChar(c) <= 'Z' && 'a' <= LowerChar(c) <= 'z'
    ensures !IsLetter(c) ==> UpperChar(c) == c && LowerChar(c) == c
    ensures UpperChar(UpperChar(c)) == UpperChar(c) && UpperChar(LowerChar(c)) == UpperChar(c)
    ensures LowerChar(LowerChar(c)) == LowerChar(c) && LowerChar(UpperChar(c)) == LowerChar(c)
  {
  }

  /**
   * Title-casing keeps which characters are letters, upper-cases every letter that starts
   * a word, lower-cases every other letter and leaves non-letters alone.
   */
  lemma TitleSpec(s: string)
    ensures forall i :: 0 <= i < |s| ==> IsLetter(Title(s)[i]) == IsLetter(s[i])
    ensures forall i :: 0 <= i < |s| && IsLetter(s[i]) && (i == 0 || !IsLetter(s[i - 1])) ==> 'A' <= Title(s)[i] <= 'Z'
    ensures forall i :: 0 < i < |s| && IsLetter(s[i]) && IsLetter(s[i - 1]) ==> 'a' <= Title(s)[i] <= 'z'
    ensures forall i :: 0 <= i < |s| && !IsLetter(s[i]) ==> Title(s)[i] == s[i]
  {
    forall i | 0 <= i < |s| ensures IsLetter(Title(s)[i]) == IsLetter(s[i]) {
      CaseChars(s[i]);
    }
    forall i | 0 <= i < |s| && IsLetter(s[i]) && (i == 0 || !IsLetter(s[i - 1]))
      ensures 'A' <= Title(s)[i] <= 'Z'
    {
      CaseChars(s[i]);
    }
    forall i | 0 < i < |s| && IsLetter(s[i]) && IsLetter(s[i - 1]) ensures 'a' <= Title(s)[i] <= 'z' {
      CaseChars(s[i]);
    }
    forall i | 0 <= i < |s| && !IsLetter(s[i]) ensures Title(s)[i] == s[i] {
      CaseChars(s[i]);
    }
  }

  /** Title-casing twice is title-casing once. */
  lemma TitleIdempotent(s: string)
    ensures Title(Title(s)) == Title(s)
  {
    TitleSpec(s);
    var t := Title(s);
    forall i | 0 <= i < |s| ensures Title(t)[i] == t[i] {
      CaseChars(s[i]);
      if i > 0 {
        assert IsLetter(t[i - 1]) == IsLetter(s[i - 1]);
      }
    }
  }

  function DigitChar(d: nat): char
    requires d < 10
  {
    ('0' as int + d) as char
  }

  function DigitValue(c: char): nat
    requires IsDigit(c)
  {
    c as int - '0' as int
  }

  /** The decimal digits of `n`, without leading zeros ("0" for zero). */
  function NatToString(n: nat): (r: string)
    ensures AllDigits(r)
    decreases n
  {
    if n < 10 then [DigitChar(n)] else NatToString(n / 10) + [DigitChar(n % 10)]
  }

  /** `str(n)` for a Python int. */
  function IntToString(n: int): string {
    if n < 0 then "-" + NatToString(-n) else NatToString(n)
  }

  /** The number written by a string of decimal digits. */
  function DigitsValue(s: string): nat
    requires forall i :: 0 <= i < |s| ==> IsDigit(s[i])
  {
    if |s| == 0 then 0 else DigitsValue(s[..|s| - 1]) * 10 + DigitValue(s[|s| - 1])
  }

  lemma {:induction false} NatToStringValue(n: nat)
    ensures DigitsValue(NatToString(n)) == n
    decreases n
  {
    var s := NatToString(n);
    if n >= 10 {
      NatToStringValue(n / 10);
      assert s[..|s| - 1] == NatToString(n / 10);
    }
  }

  /** The digits of a Python integer literal with the underscores removed, or None when the text is not one. */
  function Undigits(s: string): Option<string>
  {
    if |s| == 0 then None
    else if !IsDigit(s[0]) then None
    else if |s| == 1 then Some(s)
    else if s[1] == '_' then
      (if |s| >= 3 && IsDigit(s[2]) then
         match Undigits(s[2..]) case Some(t) => Some([s[0]] + t) case None => None
       else None)
    else match Undigits(s[1..]) case Some(t) => Some([s[0]] + t) case None => None
  }

  lemma {:induction false} UndigitsDigits(s: string)
    requires Undigits(s).Some?
    ensures AllDigits(Undigits(s).value)
  {
    if |s| > 1 {
      if s[1] == '_' { UndigitsDigits(s[2..]); } else { UndigitsDigits(s[1..]); }
    }
  }

  /**
   * `int(s)` for a string: surrounding whitespace, an optional sign and decimal digits,
   * single underscores allowed between digits; None where Python raises ValueError.
   */
  function ParseInt(s: string): (r: Option<int>)
  {
    var t := Strip(s);
    if |t| > 0 && (t[0] == '-' || t[0] == '+') then
      match Undigits(t[1..])
      case Some(d) =>
        UndigitsDigits(t[1..]);
        var v: int := DigitsValue(d);
        Some(if t[0] == '-' then -v else v)
      case None => None
    else
      match Undigits(t)
      case Some(d) => UndigitsDigits(t); Some(DigitsValue(d))
      case None => None
  }

  lemma {:induction false} UndigitsOfDigits(s: string)
    requires AllDigits(s)
    ensures Undigits(s) == Some(s)
  {
    if |s| > 1 {
      UndigitsOfDigits(s[1..]);
      assert [s[0]] + s[1..] == s;
    }
  }

  /** Text with no whitespace at either end is its own strip. */
  lemma StripTrimmed(s: string)
    requires |s| > 0 && !IsSpace(s[0]) && !IsSpace(s[|s| - 1])
    ensures Strip(s) == s
  {
  }

  /** `int(str(n)) == n`: printing an integer and parsing it back gives it back. */
  lemma ParseIntOfIntToString(n: int)
    ensures ParseInt(IntToString(n)) == Some(n)
  {
    var d := NatToString(if n < 0 then -n else n);
    NatToStringValue(if n < 0 then -n else n);
    UndigitsOfDigits(d);
    var s := IntToString(n);
    StripTrimmed(s);
    if n < 0 {
      assert s[1..] == d;
    }
  }

  function Zeros(n: nat): (r: string)
    ensures |r| == n && forall i :: 0 <= i < n ==> r[i] == '0'
  {
    seq(n, _ => '0')
  }

  /**
   * `s.zfill(width)`: pad with '0' on the left up to `width` characters, after a leading
   * sign if there is one; strings already that long are returned as they are.
   */
  function ZFill(s: string, width: nat): (r: string)
    ensures |r| == if |s| >= width then |s| else width
  {
    if |s| >= width then s
    else if |s| > 0 && (s[0] == '+' || s[0] == '-') then [s[0]] + Zeros(width - |s|) + s[1..]
    else Zeros(width - |s|) + s
  }

  /** Without a sign, zero-filling only prepends zeros: the text is a suffix of the result. */
  lemma ZFillUnsigned(s: string, width: nat)
    requires s == [] || (s[0] != '+' && s[0] != '-')
    ensures var r := ZFill(s, width);
      && r[|r| - |s|..] == s
      && forall i :: 0 <= i < |r| - |s| ==> r[i] == '0'
  {
  }

  /** With a sign, the sign stays in front and the zeros go after it. */
  lemma ZFillSigned(s: string, width: nat)
    requires |s| > 0 && (s[0] == '+' || s[0] == '-') && |s| < width
    ensures var r := ZFill(s, width);
      && r[0] == s[0]
      && r[|r| - (|s| - 1)..] == s[1..]
      && forall i :: 1 <= i <= width - |s| ==> r[i] == '0'
  {
  }

  /** Python's string order: code points compared lexicographically, a prefix first. */
  predicate StrLe(a: string, b: string) {
    |a| == 0 || (|b| > 0 && (a[0] < b[0] || (a[0] == b[0] && StrLe(a[1..], b[1..]))))
  }

  lemma {:induction false} StrLeTotal(a: string, b: string)
    ensures StrLe(a, b) || StrLe(b, a)
  {
    if |a| > 0 && |b| > 0 && a[0] == b[0] {
      StrLeTotal(a[1..], b[1..]);
    }
  }

  lemma {:induction false} StrLeTransitive(a: string, b: string, c: string)
    requires StrLe(a, b) && StrLe(b, c)
    ensures StrLe(a, c)
  {
    if |a| > 0 && |b| > 0 && |c| > 0 && a[0] == b[0] == c[0] {
      StrLeTransitive(a[1..], b[1..], c[1..]);
    }
  }

  lemma {:induction false} StrLeAntisymmetric(a: string, b: string)
    requires StrLe(a, b) && StrLe(b, a)
    ensures a == b
  {
    if |a| > 0 && |b| > 0 {
      StrLeAntisymmetric(a[1..], b[1..]);
      assert a == [a[0]] + a[1..];
      assert b == [b[0]] + b[1..];
    }
  }
}
