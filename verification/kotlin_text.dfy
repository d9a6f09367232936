/** The pieces of Kotlin's string library the validation rules rely on:
    `Char.isWhitespace`, `String.isBlank`, `String.length` and `Int.toString`.
    A Kotlin `String` is a sequence of UTF-16 code units while a Dafny
    `string` is a sequence of Unicode scalar values, so lengths are converted
    explicitly. */
module KotlinText {

  /** A 32-bit Kotlin `Int`. */
  type Int32 = x: int | -0x8000_0000 <= x <= 0x7fff_ffff

  /** `Char.isWhitespace()` on the JVM: `Character.isWhitespace(c) ||
      Character.isSpaceChar(c)`, i.e. the controls U+0009..U+000D and
      U+001C..U+001F together with every space, line and paragraph separator
      (Unicode categories Zs, Zl, Zp), non-breaking spaces included. Every
      one of them is a single UTF-16 code unit. */
  function IsWhitespace(c: char): (b: bool)
    ensures b <==> c in JvmWhitespace
    ensures b ==> Utf16Units(c) == 1
  {
    || ('\t' <= c <= '\r')
    || ('\U{1C}' <= c <= ' ')
    || c == '\U{A0}'
    || c == '\U{1680}'
    || ('\U{2000}' <= c <= '\U{200A}')
    || c == '\U{2028}'
    || c == '\U{2029}'
    || c == '\U{202F}'
    || c == '\U{205F}'
    || c == '\U{3000}'
  }

  /** The 28 characters the JVM reports as whitespace, one by one: the
      reference the ranges of `IsWhitespace` are checked against. */
  const JvmWhitespace: set<char> := {
    '\t', '\n', '\U{0B}', '\U{0C}', '\r', '\U{1C}', '\U{1D}', '\U{1E}', '\U{1F}', ' ',
    '\U{A0}', '\U{1680}',
    '\U{2000}', '\U{2001}', '\U{2002}', '\U{2003}', '\U{2004}', '\U{2005}',
    '\U{2006}', '\U{2007}', '\U{2008}', '\U{2009}', '\U{200A}',
    '\U{2028}', '\U{2029}', '\U{202F}', '\U{205F}', '\U{3000}'
  }

  /** `CharSequence.isBlank()`: empty, or whitespace only. Whitespace lies
      in the Basic Multilingual Plane, so a blank string's Kotlin length is
      its character count. */
  function IsBlank(s: string): (b: bool)
    ensures b <==> forall c | c in s :: c in JvmWhitespace
    ensures s == [] ==> b
    ensures b ==> Utf16Length(s) == |s|
  {
    var blank := forall i :: 0 <= i < |s| ==> IsWhitespace(s[i]);
    if blank then
      assert IsBmp(s) by {
        forall i | 0 <= i < |s| ensures s[i] as int < 0x1_0000 {
          assert IsWhitespace(s[i]);
        }
      }
      Utf16LengthOfBmp(s);
      blank
    else
      blank
  }

  /** Number of UTF-16 code units needed for one Unicode scalar value. */
  function Utf16Units(c: char): (n: nat)
    ensures n == 1 || n == 2
  {
    if c as int < 0x1_0000 then 1 else 2
  }

  /** Kotlin's `String.length`: the number of UTF-16 code units. */
  function Utf16Length(s: string): (n: nat)
    ensures |s| <= n <= 2 * |s|
    ensures n == 0 <==> s == []
  {
    if s == [] then 0 else Utf16Units(s[0]) + Utf16Length(s[1..])
  }

  /** A string of Basic Multilingual Plane characters only (every ASCII
      string is one). */
  predicate IsBmp(s: string) {
    forall i :: 0 <= i < |s| ==> s[i] as int < 0x1_0000
  }

  /** On Basic Multilingual Plane text Kotlin's length is the character count. */
  lemma {:induction false} Utf16LengthOfBmp(s: string)
    requires IsBmp(s)
    ensures Utf16Length(s) == |s|
  {
    if s != [] {
      assert IsBmp(s[1..]) by {
        forall i | 0 <= i < |s[1..]| ensures s[1..][i] as int < 0x1_0000 {
          assert s[1..][i] == s[i + 1];
        }
      }
      Utf16LengthOfBmp(s[1..]);
    }
  }

  /** Every character outside the Basic Multilingual Plane is a surrogate
      pair, two code units. With `Utf16LengthOfBmp` and `Utf16LengthAppend`
      this fixes the length of every string. */
  lemma {:induction false} Utf16LengthOfSupplementary(s: string)
    requires forall i :: 0 <= i < |s| ==> s[i] as int >= 0x1_0000
    ensures Utf16Length(s) == 2 * |s|
  {
    if s != [] {
      assert forall i :: 0 <= i < |s[1..]| ==> s[1..][i] == s[i + 1];
      Utf16LengthOfSupplementary(s[1..]);
    }
  }

  /** Length is additive over concatenation. */
  lemma {:induction false} Utf16LengthAppend(s: string, t: string)
    ensures Utf16Length(s + t) == Utf16Length(s) + Utf16Length(t)
  {
    if s == [] {
      assert s + t == t;
    } else {
      assert (s + t)[0] == s[0];
      assert (s + t)[1..] == s[1..] + t;
      Utf16LengthAppend(s[1..], t);
    }
  }

  /** Decimal digit characters. */
  predicate IsDigit(c: char) {
    '0' <= c <= '9'
  }

  function DigitChar(d: nat): (c: char)
    requires d < 10
    ensures IsDigit(c)
    ensures c as int - '0' as int == d
  {
    ('0' as int + d) as char
  }

  /** `Int.toString()` for non-negative values: most significant digit
      first, no leading zeros. */
  function NatToString(n: nat): (s: string)
    ensures |s| >= 1
    ensures forall i :: 0 <= i < |s| ==> IsDigit(s[i])
    ensures s[0] == '0' <==> n == 0
    decreases n
  {
    if n < 10 then [DigitChar(n)] else NatToString(n / 10) + [DigitChar(n % 10)]
  }

  /** Decimal text as Kotlin prints it: digits after an optional minus
      sign, no leading zero except in "0" itself, and never "-0". */
  predicate IsCanonicalDecimal(s: string) {
    && |s| >= 1
    && (forall k :: (if s[0] == '-' then 1 else 0) <= k < |s| ==> IsDigit(s[k]))
    && if s[0] == '-' then |s| >= 2 && s[1] != '0' else (|s| > 1 ==> s[0] != '0')
  }

  /** `Int.toString()`: decimal, with a leading minus sign for negative values. */
  function IntToString(i: int): (s: string)
    ensures IsCanonicalDecimal(s)
    ensures s[0] == '-' <==> i < 0
  {
    if i < 0 then "-" + NatToString(-i) else NatToString(i)
  }

  function DigitValue(c: char): (d: nat)
    requires IsDigit(c)
    ensures d < 10
  {
    c as int - '0' as int
  }

  /** Reads back a string of decimal digits (the reference for `NatToString`). */
  function ParseDigits(s: string): (n: nat)
    requires forall i :: 0 <= i < |s| ==> IsDigit(s[i])
  {
    if s == [] then 0
    else ParseDigits(s[..|s| - 1]) * 10 + DigitValue(s[|s| - 1])
  }

  /** Reads back an optionally signed decimal integer. */
  function ParseInt(s: string): (i: int)
    requires |s| >= 1
    requires forall i :: (if s[0] == '-' then 1 else 0) <= i < |s| ==> IsDigit(s[i])
  {
    if s[0] == '-' then 0 - ParseDigits(s[1..]) as int else ParseDigits(s)
  }

  /** `s` is well-formed decimal text denoting `i`. */
  predicate IsDecimalOf(s: string, i: int) {
    && |s| >= 1
    && (forall k :: (if s[0] == '-' then 1 else 0) <= k < |s| ==> IsDigit(s[k]))
    && ParseInt(s) == i
  }

  lemma {:induction false} NatToStringRoundTrip(n: nat)
    ensures ParseDigits(NatToString(n)) == n
    decreases n
  {
    var s := NatToString(n);
    if n >= 10 {
      var prefix := NatToString(n / 10);
      assert s[..|s| - 1] == prefix;
      NatToStringRoundTrip(n / 10);
    }
  }

  /** The decimal text of an `Int` reads back as the same value, so a
      message built from it names the number it was built from. */
  lemma IntToStringRoundTrip(i: int)
    ensures IsDecimalOf(IntToString(i), i)
  {
    var s := IntToString(i);
    if i < 0 {
      assert s[1..] == NatToString(-i);
      NatToStringRoundTrip(-i);
    } else {
      NatToStringRoundTrip(i);
    }
  }

  /** Digit text whose first digit is not zero denotes a positive number. */
  lemma {:induction false} ParseDigitsPositive(s: string)
    requires |s| >= 1 && forall k :: 0 <= k < |s| ==> IsDigit(s[k])
    requires s[0] != '0'
    ensures ParseDigits(s) >= 1
    decreases |s|
  {
    if |s| > 1 {
      ParseDigitsPositive(s[..|s| - 1]);
    }
  }

  /** Digit text without leading zeros is the only such text for its value. */
  lemma {:induction false} CanonicalDigitsUnique(s: string, n: nat)
    requires |s| >= 1 && forall k :: 0 <= k < |s| ==> IsDigit(s[k])
    requires |s| > 1 ==> s[0] != '0'
    requires ParseDigits(s) == n
    ensures s == NatToString(n)
    decreases |s|
  {
    var d := DigitValue(s[|s| - 1]);
    if |s| == 1 {
      assert ParseDigits(s[..0]) == 0;
      assert s == [DigitChar(d)];
    } else {
      var prefix := s[..|s| - 1];
      ParseDigitsPositive(prefix);
      assert n == ParseDigits(prefix) * 10 + d;
      assert n / 10 == ParseDigits(prefix) && n % 10 == d;
      CanonicalDigitsUnique(prefix, n / 10);
      assert s == prefix + [DigitChar(d)];
    }
  }

  /** Canonical decimal text is unique: `IntToString(i)` is the only
      canonical text that reads back as `i`. */
  lemma CanonicalDecimalUnique(s: string, i: int)
    requires IsCanonicalDecimal(s) && IsDecimalOf(s, i)
    ensures s == IntToString(i)
  {
    if s[0] == '-' {
      var digits := s[1..];
      ParseDigitsPositive(digits);
      CanonicalDigitsUnique(digits, -i);
      assert s == "-" + digits;
    } else {
      CanonicalDigitsUnique(s, i);
    }
  }
}
