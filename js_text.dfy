/**
 * The three JavaScript string built-ins the quiz commands rely on:
 * String.prototype.trim, String.prototype.toUpperCase and the global parseInt.
 * Strings are sequences of Unicode scalar values.
 */
module JsText {
  import opened Wrappers

  // ---------------------------------------------------------------------------
  // Whitespace and trim
  // ---------------------------------------------------------------------------

  /** ECMAScript WhiteSpace and LineTerminator code points (what trim and parseInt skip). */
  predicate IsWhitespace(c: char)
  {
    var n := c as int;
    n == 0x09 || n == 0x0A || n == 0x0B || n == 0x0C || n == 0x0D || n == 0x20 ||
    n == 0xA0 || n == 0x1680 || (0x2000 <= n <= 0x200A) || n == 0x2028 || n == 0x2029 ||
    n == 0x202F || n == 0x205F || n == 0x3000 || n == 0xFEFF
  }

  predicate AllWhitespace(s: string)
  {
    forall i :: 0 <= i < |s| ==> IsWhitespace(s[i])
  }

  /** No whitespace at either end. */
  predicate IsTrimmed(s: string)
  {
    s == [] || (!IsWhitespace(s[0]) && !IsWhitespace(s[|s| - 1]))
  }

  /** Drops leading whitespace. */
  function TrimStart(s: string): string
  {
    if s != [] && IsWhitespace(s[0]) then TrimStart(s[1..]) else s
  }

  /** TrimStart keeps a suffix of s, drops only whitespace, and stops at a non-whitespace character. */
  lemma {:induction false} TrimStartSpec(s: string)
    ensures |TrimStart(s)| <= |s| && TrimStart(s) == s[|s| - |TrimStart(s)|..]
    ensures AllWhitespace(s[..|s| - |TrimStart(s)|])
    ensures TrimStart(s) == [] || !IsWhitespace(TrimStart(s)[0])
    decreases |s|
  {
    if s != [] && IsWhitespace(s[0]) {
      TrimStartSpec(s[1..]);
      assert s[..|s| - |TrimStart(s)|] == [s[0]] + s[1..][..|s[1..]| - |TrimStart(s[1..])|];
    }
  }

  /** Drops trailing whitespace. */
  function TrimEnd(s: string): string
  {
    if s != [] && IsWhitespace(s[|s| - 1]) then TrimEnd(s[..|s| - 1]) else s
  }

  /** TrimEnd keeps a prefix of s, drops only whitespace, and stops at a non-whitespace character. */
  lemma {:induction false} TrimEndSpec(s: string)
    ensures |TrimEnd(s)| <= |s| && TrimEnd(s) == s[..|TrimEnd(s)|]
    ensures AllWhitespace(s[|TrimEnd(s)|..])
    ensures TrimEnd(s) == [] || !IsWhitespace(TrimEnd(s)[|TrimEnd(s)| - 1])
    decreases |s|
  {
    if s != [] && IsWhitespace(s[|s| - 1]) {
      TrimEndSpec(s[..|s| - 1]);
      assert s[|TrimEnd(s)|..] == s[..|s| - 1][|TrimEnd(s[..|s| - 1])|..] + [s[|s| - 1]];
    }
  }

  /** String.prototype.trim. */
  function Trim(s: string): string
  {
    TrimEnd(TrimStart(s))
  }

  /** trim removes whitespace only: s is r with whitespace around it, and r has none at its ends. */
  lemma TrimShape(s: string)
    ensures IsTrimmed(Trim(s))
    ensures exists i, j :: 0 <= i <= j <= |s| && Trim(s) == s[i..j] && AllWhitespace(s[..i]) && AllWhitespace(s[j..])
  {
    var t := TrimStart(s);
    var r := TrimEnd(t);
    TrimStartSpec(s);
    TrimEndSpec(t);
    var i := |s| - |t|;
    var j := i + |r|;
    assert t == s[i..];
    assert r == s[i..j];
    assert s[j..] == t[|r|..];
    if r != [] {
      assert r[0] == t[0];
    }
  }

  lemma {:induction false} TrimStartOfTrimmed(s: string)
    requires s == [] || !IsWhitespace(s[0])
    ensures TrimStart(s) == s
  {
  }

  lemma {:induction false} TrimEndOfTrimmed(s: string)
    requires s == [] || !IsWhitespace(s[|s| - 1])
    ensures TrimEnd(s) == s
  {
  }

  /** Trimming a second time changes nothing. */
  lemma TrimIdempotent(s: string)
    ensures Trim(Trim(s)) == Trim(s)
  {
    var r := Trim(s);
    TrimShape(s);
    TrimStartOfTrimmed(r);
    TrimEndOfTrimmed(r);
  }

  lemma {:induction false} TrimStartPadded(w: string, s: string)
    requires AllWhitespace(w)
    ensures TrimStart(w + s) == TrimStart(s)
    decreases |w|
  {
    if w != [] {
      assert (w + s)[1..] == w[1..] + s;
      TrimStartPadded(w[1..], s);
    } else {
      assert w + s == s;
    }
  }

  lemma {:induction false} TrimEndPadded(s: string, w: string)
    requires AllWhitespace(w)
    ensures TrimEnd(s + w) == TrimEnd(s)
    decreases |w|
  {
    if w != [] {
      assert (s + w)[..|s + w| - 1] == s + w[..|w| - 1];
      TrimEndPadded(s, w[..|w| - 1]);
    } else {
      assert s + w == s;
    }
  }

  lemma {:induction false} TrimStartAppend(s: string, w: string)
    ensures TrimStart(s + w) == TrimStart(s) + w || (AllWhitespace(s) && TrimStart(s + w) == TrimStart(w))
    decreases |s|
  {
    if s == [] {
      assert s + w == w;
    } else if IsWhitespace(s[0]) {
      assert (s + w)[1..] == s[1..] + w;
      TrimStartAppend(s[1..], w);
    }
  }

  /** Whitespace around a string does not change what trim returns. */
  lemma TrimIgnoresPadding(w1: string, s: string, w2: string)
    requires AllWhitespace(w1) && AllWhitespace(w2)
    ensures Trim(w1 + s + w2) == Trim(s)
  {
    assert w1 + s + w2 == w1 + (s + w2);
    TrimStartPadded(w1, s + w2);
    TrimStartAppend(s, w2);
    if AllWhitespace(s) && TrimStart(s + w2) == TrimStart(w2) {
      TrimStartPadded(s, []);
      assert s + [] == s;
      TrimStartPadded(w2, []);
      assert w2 + [] == w2;
    } else {
      TrimEndPadded(TrimStart(s), w2);
    }
  }

  // ---------------------------------------------------------------------------
  // toUpperCase
  // ---------------------------------------------------------------------------

  /** Lower-case letters of ASCII and Latin-1 that map to a single upper-case character. */
  predicate IsLowerLetter(c: char)
  {
    var n := c as int;
    (0x61 <= n <= 0x7A) || (0xE0 <= n <= 0xFE && n != 0xF7) || n == 0xFF || n == 0xB5
  }

  function UpperChar(c: char): char
  {
    var n := c as int;
    if (0x61 <= n <= 0x7A) || (0xE0 <= n <= 0xFE && n != 0xF7) then (n - 0x20) as char
    else if n == 0xFF then 0x178 as char   // y with diaeresis
    else if n == 0xB5 then 0x39C as char   // micro sign to capital mu
    else c
  }

  /**
   * Upper-casing a character maps each lower-case letter to its capital (the Latin-1 letters sit
   * 0x20 below their lower-case forms; y with diaeresis goes to U+0178, the micro sign to capital mu),
   * keeps whitespace as it is, yields no lower-case letter, and fixes every other character.
   */
  lemma UpperCharSpec(c: char)
    ensures (0x61 <= c as int <= 0x7A || (0xE0 <= c as int <= 0xFE && c as int != 0xF7)) ==>
      UpperChar(c) as int == c as int - 0x20
    ensures c as int == 0xFF ==> UpperChar(c) as int == 0x178
    ensures c as int == 0xB5 ==> UpperChar(c) as int == 0x39C
    ensures IsWhitespace(UpperChar(c)) <==> IsWhitespace(c)
    ensures !IsLowerLetter(UpperChar(c))
    ensures !IsLowerLetter(c) ==> UpperChar(c) == c
  {
  }

  /** String.prototype.toUpperCase, character by character. */
  function Upper(s: string): string
  {
    seq(|s|, i requires 0 <= i < |s| => UpperChar(s[i]))
  }

  /** Upper-casing keeps a string free of whitespace at its ends, and keeps whitespace there. */
  lemma UpperKeepsTrimmed(s: string)
    ensures IsTrimmed(Upper(s)) <==> IsTrimmed(s)
  {
    if s != [] {
      UpperCharSpec(s[0]);
      UpperCharSpec(s[|s| - 1]);
    }
  }

  lemma UpperIdempotent(s: string)
    ensures Upper(Upper(s)) == Upper(s)
  {
    forall i | 0 <= i < |s| ensures UpperChar(UpperChar(s[i])) == UpperChar(s[i]) {
      UpperCharSpec(s[i]);
      UpperCharSpec(UpperChar(s[i]));
    }
  }

  lemma {:induction false} TrimStartUpper(s: string)
    ensures TrimStart(Upper(s)) == Upper(TrimStart(s))
    decreases |s|
  {
    if s != [] {
      UpperCharSpec(s[0]);
      if IsWhitespace(s[0]) {
        assert Upper(s)[1..] == Upper(s[1..]);
        TrimStartUpper(s[1..]);
      }
    }
  }

  lemma {:induction false} TrimEndUpper(s: string)
    ensures TrimEnd(Upper(s)) == Upper(TrimEnd(s))
    decreases |s|
  {
    if s != [] {
      UpperCharSpec(s[|s| - 1]);
      if IsWhitespace(s[|s| - 1]) {
        assert Upper(s)[..|s| - 1] == Upper(s[..|s| - 1]);
        TrimEndUpper(s[..|s| - 1]);
      }
    }
  }

  /** Upper-casing never creates or removes whitespace, so it commutes with trim. */
  lemma TrimUpper(s: string)
    ensures Trim(Upper(s)) == Upper(Trim(s))
  {
    TrimStartUpper(s);
    TrimEndUpper(TrimStart(s));
  }

  // ---------------------------------------------------------------------------
  // parseInt (one argument, so the radix is 10 unless the digits start with 0x)
  // ---------------------------------------------------------------------------

  /** Digit value of a character in radix up to 36, or 36 when it is no digit at all. */
  function DigitValue(c: char): (d: nat)
    ensures d <= 36
  {
    if '0' <= c <= '9' then c as int - '0' as int
    else if 'a' <= c <= 'z' then c as int - 'a' as int + 10
    else if 'A' <= c <= 'Z' then c as int - 'A' as int + 10
    else 36
  }

  predicate IsDigit(c: char, radix: nat)
  {
    DigitValue(c) < radix
  }

  /** Length of the longest prefix of s made of radix digits. */
  function DigitPrefixLength(s: string, radix: nat): (n: nat)
    ensures n <= |s|
  {
    if s != [] && IsDigit(s[0], radix) then 1 + DigitPrefixLength(s[1..], radix) else 0
  }

  /** The prefix DigitPrefixLength measures is made of digits and is the longest such prefix. */
  lemma {:induction false} DigitPrefixLengthSpec(s: string, radix: nat)
    ensures forall i :: 0 <= i < DigitPrefixLength(s, radix) ==> IsDigit(s[i], radix)
    ensures DigitPrefixLength(s, radix) < |s| ==> !IsDigit(s[DigitPrefixLength(s, radix)], radix)
    decreases |s|
  {
    if s != [] && IsDigit(s[0], radix) {
      DigitPrefixLengthSpec(s[1..], radix);
      forall i | 0 < i < DigitPrefixLength(s, radix) ensures IsDigit(s[i], radix) {
        assert s[i] == s[1..][i - 1];
      }
    }
  }

  /** Positional value of a sequence of digits, most significant first. */
  function DigitsValue(ds: string, radix: nat): (v: nat)
  {
    if ds == [] then 0
    else DigitsValue(ds[..|ds| - 1], radix) * radix + DigitValue(ds[|ds| - 1])
  }

  /** The unsigned part of parseInt: "0x"/"0X" selects radix 16, then the longest digit prefix is read. */
  function ParseMagnitude(u: string): (r: Option<nat>)
  {
    var hex := |u| >= 2 && u[0] == '0' && (u[1] == 'x' || u[1] == 'X');
    var radix := if hex then 16 else 10;
    var body := if hex then u[2..] else u;
    var n := DigitPrefixLength(body, radix);
    if n == 0 then None else Some(DigitsValue(body[..n], radix))
  }

  /** parseInt on text that starts after the leading whitespace: an optional sign, then the magnitude. */
  function ParseSigned(t: string): (r: Option<int>)
  {
    if t != [] && (t[0] == '-' || t[0] == '+') then
      match ParseMagnitude(t[1..])
      case None => None
      case Some(m) => Some(if t[0] == '-' then 0 - m else m)
    else
      ParseMagnitude(t)
  }

  /** parseInt on a string: Some(value of the leading integer), or None where JavaScript gives NaN. */
  function ParseIntPrefix(s: string): (r: Option<int>)
  {
    ParseSigned(TrimStart(s))
  }

  // ---------------------------------------------------------------------------
  // Decimal notation, the inverse of parseInt on plain integers
  // ---------------------------------------------------------------------------

  function DigitChar(d: nat): (c: char)
    requires d < 10
    ensures IsDigit(c, 10) && DigitValue(c) == d
  {
    ('0' as int + d) as char
  }

  /** Decimal digits of a natural number, without leading zeros. */
  function NatToDecimal(n: nat): (s: string)
    ensures |s| > 0
    ensures forall i :: 0 <= i < |s| ==> IsDigit(s[i], 10)
    ensures n > 0 ==> s[0] != '0'
    decreases n
  {
    if n < 10 then [DigitChar(n)] else NatToDecimal(n / 10) + [DigitChar(n % 10)]
  }

  /** Decimal notation of an integer: an optional minus sign, then its digits. */
  function IntToDecimal(n: int): string
  {
    if n < 0 then "-" + NatToDecimal(-n) else NatToDecimal(n)
  }

  lemma {:induction false} NatToDecimalValue(n: nat)
    ensures DigitsValue(NatToDecimal(n), 10) == n
    decreases n
  {
    var s := NatToDecimal(n);
    if n >= 10 {
      assert s[..|s| - 1] == NatToDecimal(n / 10);
      NatToDecimalValue(n / 10);
    }
  }

  lemma {:induction false} DigitPrefixOfDigits(ds: string, rest: string, radix: nat)
    requires forall i :: 0 <= i < |ds| ==> IsDigit(ds[i], radix)
    requires rest == [] || !IsDigit(rest[0], radix)
    ensures DigitPrefixLength(ds + rest, radix) == |ds|
    decreases |ds|
  {
    if ds == [] {
      assert ds + rest == rest;
    } else {
      assert (ds + rest)[1..] == ds[1..] + rest;
      DigitPrefixOfDigits(ds[1..], rest, radix);
    }
  }

  lemma MagnitudeDecimal(m: nat, rest: string)
    requires rest == [] || !IsDigit(rest[0], 10)
    requires m == 0 ==> rest == [] || (rest[0] != 'x' && rest[0] != 'X')
    ensures ParseMagnitude(NatToDecimal(m) + rest) == Some(m)
  {
    var d := NatToDecimal(m);
    var u := d + rest;
    assert u[0] == d[0];
    if |u| >= 2 && u[0] == '0' {
      assert m == 0 && d == "0";
      assert u[1] == rest[0];
    }
    DigitPrefixOfDigits(d, rest, 10);
    assert u[..|d|] == d;
    NatToDecimalValue(m);
  }

  /** parseInt ignores leading whitespace. */
  lemma ParseIntPadded(w: string, t: string)
    requires AllWhitespace(w)
    ensures ParseIntPrefix(w + t) == ParseIntPrefix(t)
  {
    TrimStartPadded(w, t);
  }

  lemma ParseIntSigned(d: string, m: nat, negative: bool)
    requires d != [] && IsDigit(d[0], 10)
    requires ParseMagnitude(d) == Some(m)
    ensures ParseIntPrefix((if negative then "-" else "") + d) == Some(if negative then 0 - m else m)
  {
    var t := (if negative then "-" else "") + d;
    TrimStartOfTrimmed(t);
    if negative {
      assert t[1..] == d;
    } else {
      assert t == d;
    }
  }

  /**
   * parseInt reads back the decimal notation of any integer, after any leading whitespace
   * and before any trailing text that does not continue the number.
   */
  lemma ParseIntDecimal(w: string, n: int, rest: string)
    requires AllWhitespace(w)
    requires rest == [] || !IsDigit(rest[0], 10)
    requires n == 0 ==> rest == [] || (rest[0] != 'x' && rest[0] != 'X')
    ensures ParseIntPrefix(w + IntToDecimal(n) + rest) == Some(n)
  {
    var m: nat := if n < 0 then -n else n;
    var digits := NatToDecimal(m);
    var d := digits + rest;
    assert d[0] == digits[0];
    MagnitudeDecimal(m, rest);
    ParseIntSigned(d, m, n < 0);
    var sign: string := if n < 0 then "-" else "";
    assert IntToDecimal(n) == sign + digits;
    assert w + (sign + digits) + rest == w + (sign + digits + rest);
    assert sign + digits + rest == sign + d;
    assert w + IntToDecimal(n) + rest == w + (sign + d);
    ParseIntPadded(w, sign + d);
    assert (if n < 0 then 0 - m else m) == n;
  }

  /**
   * parseInt is NaN exactly when, after leading whitespace and at most one sign, the text
   * does not start with a decimal digit, or starts with "0x" or "0X" and no hexadecimal digit.
   */
  lemma ParseIntNaN(s: string)
    ensures ParseIntPrefix(s) == None <==>
      var t := TrimStart(s);
      var u := if t != [] && (t[0] == '-' || t[0] == '+') then t[1..] else t;
      u == [] || !IsDigit(u[0], 10) ||
      (|u| >= 2 && u[0] == '0' && (u[1] == 'x' || u[1] == 'X') && (|u| == 2 || !IsDigit(u[2], 16)))
  {
  }
}
