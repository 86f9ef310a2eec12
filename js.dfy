/**
 The parts of JavaScript's built-in behaviour that the components rely on:
 truthiness of optional strings, the `\w` character class of regular
 expressions, `String.prototype.trim`, `Number.prototype.toString` for
 integers and the global `parseInt` with no radix argument.
 Strings are sequences of Unicode scalar values; every character these
 definitions single out lies in the Basic Multilingual Plane, so they agree
 with JavaScript's UTF-16 code units.
 */
module Js {

  datatype Option<T> = None | Some(value: T)

  /** A JavaScript value that is either a number (integers only here) or a string. */
  datatype NumberOrString = Number(n: int) | Text(s: string)

  /** A JavaScript number as `parseInt` can produce it: NaN or an integer. */
  datatype JsNumber = NaN | Int(value: int)

  /** Truthiness of a string-valued prop: `undefined` (None) and "" are falsy. */
  predicate Truthy(s: Option<string>)
  {
    s.Some? && s.value != ""
  }

  /** `\w` of a regular expression without the `u` flag: `[A-Za-z0-9_]`. */
  predicate IsWordChar(c: char)
  {
    ('a' <= c <= 'z') || ('A' <= c <= 'Z') || ('0' <= c <= '9') || c == '_'
  }

  predicate IsDecimalDigit(c: char)
  {
    '0' <= c <= '9'
  }

  /** The WhiteSpace and LineTerminator code points of ECMAScript (sections 12.2
      and 12.3 of ECMA-262): what `trim` removes and what `parseInt` skips. */
  predicate IsWhiteSpace(c: char)
  {
    c == '\t' || c == '\n' || c == '\U{000B}' || c == '\U{000C}' || c == '\r' ||
    c == ' ' || c == '\U{00A0}' || c == '\U{1680}' ||
    ('\U{2000}' <= c <= '\U{200A}') ||
    c == '\U{2028}' || c == '\U{2029}' || c == '\U{202F}' || c == '\U{205F}' ||
    c == '\U{3000}' || c == '\U{FEFF}'
  }

  lemma WordCharIsNotWhiteSpace(c: char)
    requires IsWordChar(c)
    ensures !IsWhiteSpace(c)
  {
  }

  // ---------------------------------------------------------------------------
  // String.prototype.trim

  /** Removes the longest prefix of white space. */
  function TrimStart(s: string): (r: string)
    ensures |r| <= |s| && r == s[|s| - |r|..]
    ensures forall i :: 0 <= i < |s| - |r| ==> IsWhiteSpace(s[i])
    ensures r != [] ==> !IsWhiteSpace(r[0])
  {
    if s != [] && IsWhiteSpace(s[0]) then TrimStart(s[1..]) else s
  }

  /** Removes the longest suffix of white space. */
  function TrimEnd(s: string): (r: string)
    ensures |r| <= |s| && r == s[..|r|]
    ensures forall i :: |r| <= i < |s| ==> IsWhiteSpace(s[i])
    ensures r != [] ==> !IsWhiteSpace(r[|r| - 1])
  {
    if s != [] && IsWhiteSpace(s[|s| - 1]) then TrimEnd(s[..|s| - 1]) else s
  }

  /** `s.trim()`: what lies between a white-space prefix and a white-space
      suffix of `s`, neither starting nor ending with white space; it is empty
      exactly when `s` is nothing but white space. */
  function Trim(s: string): (r: string)
    ensures exists a, b :: 0 <= a <= b <= |s| && r == s[a..b] &&
              (forall i :: 0 <= i < a ==> IsWhiteSpace(s[i])) &&
              (forall i :: b <= i < |s| ==> IsWhiteSpace(s[i]))
    ensures r != [] ==> !IsWhiteSpace(r[0]) && !IsWhiteSpace(r[|r| - 1])
    ensures r == [] <==> forall i :: 0 <= i < |s| ==> IsWhiteSpace(s[i])
  {
    var t := TrimStart(s);
    var r := TrimEnd(t);
    TrimIsSlice(s, t, r);
    assert r != [] ==> r[0] == t[0];
    r
  }

  /** White space removed from both ends leaves a slice of `s` between a
      white-space prefix and a white-space suffix. */
  lemma TrimIsSlice(s: string, t: string, r: string)
    requires |t| <= |s| && t == s[|s| - |t|..]
    requires |r| <= |t| && r == t[..|r|]
    requires forall i :: |r| <= i < |t| ==> IsWhiteSpace(t[i])
    ensures var a := |s| - |t|;
            a + |r| <= |s| && r == s[a..a + |r|] &&
            forall i :: a + |r| <= i < |s| ==> IsWhiteSpace(s[i])
  {
    var a := |s| - |t|;
    SliceOfSlice(s, t, r);
    forall i | a + |r| <= i < |s| ensures IsWhiteSpace(s[i]) {
      assert IsWhiteSpace(t[i - a]);
    }
  }

  /** A prefix of a suffix is a slice. */
  lemma SliceOfSlice(s: string, t: string, r: string)
    requires |t| <= |s| && t == s[|s| - |t|..] && |r| <= |t| && r == t[..|r|]
    ensures var a := |s| - |t|;
            r == s[a..a + |r|] && forall i :: a <= i < |s| ==> s[i] == t[i - a]
  {
  }

  // ---------------------------------------------------------------------------
  // Number.prototype.toString for integers

  function DigitChar(d: nat): (c: char)
    requires d < 10
    ensures IsDecimalDigit(c)
  {
    ('0' as int + d) as char
  }

  /** Decimal digits of `n`, most significant first, with no leading zero. */
  function NatString(n: nat): (r: string)
    ensures |r| >= 1
    ensures forall i :: 0 <= i < |r| ==> IsDecimalDigit(r[i])
    ensures r[0] == '0' ==> n == 0 && r == "0"
  {
    if n < 10 then [DigitChar(n)] else NatString(n / 10) + [DigitChar(n % 10)]
  }

  /** `n.toString()` for an integer `n`: a minus sign exactly when `n` is
      negative, then decimal digits. */
  function DecimalString(n: int): (r: string)
    ensures |r| >= 1 && (r[0] == '-' <==> n < 0)
    ensures forall i :: (if n < 0 then 1 else 0) <= i < |r| ==> IsDecimalDigit(r[i])
    ensures n < 0 ==> |r| >= 2
  {
    if n < 0 then "-" + NatString(-n) else NatString(n)
  }

  // ---------------------------------------------------------------------------
  // parseInt(string) with the radix left undefined (section 19.2.5 of ECMA-262)

  /** The value of `c` as a digit of a radix up to 36, or 36 when `c` is no digit. */
  function DigitValue(c: char): (v: nat)
    ensures v <= 36
    ensures v < 10 <==> IsDecimalDigit(c)
  {
    if '0' <= c <= '9' then c as int - '0' as int
    else if 'a' <= c <= 'z' then c as int - 'a' as int + 10
    else if 'A' <= c <= 'Z' then c as int - 'A' as int + 10
    else 36
  }

  /** The longest prefix of `s` made of digits of `radix`. */
  function DigitPrefix(s: string, radix: nat): (r: string)
    ensures |r| <= |s| && r == s[..|r|]
    ensures forall i :: 0 <= i < |r| ==> DigitValue(r[i]) < radix
    ensures |r| == |s| || DigitValue(s[|r|]) >= radix
  {
    if s != [] && DigitValue(s[0]) < radix then [s[0]] + DigitPrefix(s[1..], radix) else []
  }

  /** The number that the digits `z` denote in `radix`, most significant first. */
  function DigitsValue(z: string, radix: nat): nat
  {
    if z == [] then 0
    else DigitsValue(z[..|z| - 1], radix) * radix + DigitValue(z[|z| - 1])
  }

  predicate HasHexPrefix(u: string)
  {
    |u| >= 2 && u[0] == '0' && (u[1] == 'x' || u[1] == 'X')
  }

  /** The digits after the sign: radix 16 after a `0x` or `0X` prefix, else
      radix 10; NaN when no digit follows. */
  function ParseUnsigned(u: string): JsNumber
  {
    var hex := HasHexPrefix(u);
    var radix := if hex then 16 else 10;
    var z := DigitPrefix(if hex then u[2..] else u, radix);
    if z == [] then NaN else Int(DigitsValue(z, radix))
  }

  function Negate(n: JsNumber): JsNumber
  {
    match n
    case NaN => NaN
    case Int(v) => Int(-v)
  }

  /** `parseInt(s)`: skip leading white space, take an optional sign, then read
      the digits. Nothing but white space gives NaN, and a number needs a
      decimal digit somewhere in `s`. Negative zero is not distinguished from
      zero, and integers are not rounded to double precision. */
  function ParseInt(s: string): (r: JsNumber)
    ensures (forall i :: 0 <= i < |s| ==> IsWhiteSpace(s[i])) ==> r == NaN
    ensures r.Int? ==> exists i :: 0 <= i < |s| && IsDecimalDigit(s[i])
  {
    var t := TrimStart(s);
    var u := if t != [] && (t[0] == '-' || t[0] == '+') then t[1..] else t;
    ParseUnsignedNeedsDigit(u);
    assert u == s[|s| - |u|..];
    var m := ParseUnsigned(u);
    if t != [] && t[0] == '-' then Negate(m) else m
  }

  /** An unsigned reading that yields a number starts with a decimal digit (the
      `0` of `0x` when hexadecimal). */
  lemma ParseUnsignedNeedsDigit(u: string)
    ensures ParseUnsigned(u).Int? ==> u != [] && IsDecimalDigit(u[0])
  {
    if ParseUnsigned(u).Int? && !HasHexPrefix(u) {
      assert DigitPrefix(u, 10)[0] == u[0];
    }
  }

  /** Leading white space is skipped. */
  lemma {:induction false} TrimStartSkipsWhiteSpace(w: string, s: string)
    requires forall i :: 0 <= i < |w| ==> IsWhiteSpace(w[i])
    ensures TrimStart(w + s) == TrimStart(s)
  {
    if w == [] {
      assert w + s == s;
    } else {
      assert (w + s)[0] == w[0];
      assert (w + s)[1..] == w[1..] + s;
      assert forall i :: 0 <= i < |w| - 1 ==> w[1..][i] == w[i + 1];
      TrimStartSkipsWhiteSpace(w[1..], s);
    }
  }

  /** `parseInt` ignores the white space in front of the text it reads. */
  lemma ParseIntSkipsWhiteSpace(w: string, s: string)
    requires forall i :: 0 <= i < |w| ==> IsWhiteSpace(w[i])
    ensures ParseInt(w + s) == ParseInt(s)
  {
    TrimStartSkipsWhiteSpace(w, s);
  }

  /** Nothing to trim before a character that is not white space. */
  lemma TrimStartNoLeadingSpace(s: string)
    requires s != [] && !IsWhiteSpace(s[0])
    ensures TrimStart(s) == s
  {
  }

  /** A string that starts with neither white space nor a sign is read as unsigned. */
  lemma ParseIntUnsigned(s: string)
    requires s != [] && !IsWhiteSpace(s[0]) && s[0] != '-' && s[0] != '+'
    ensures ParseInt(s) == ParseUnsigned(s)
  {
    TrimStartNoLeadingSpace(s);
  }

  /** A leading minus sign negates what follows it. */
  lemma ParseIntNegative(u: string)
    ensures ParseInt("-" + u) == Negate(ParseUnsigned(u))
  {
    var s := "-" + u;
    TrimStartNoLeadingSpace(s);
    assert s[1..] == u;
  }

  lemma DigitValueOfDigitChar(d: nat)
    requires d < 10
    ensures DigitValue(DigitChar(d)) == d
  {
  }

  lemma DigitPrefixOfDigits(s: string)
    requires forall i :: 0 <= i < |s| ==> IsDecimalDigit(s[i])
    ensures DigitPrefix(s, 10) == s
  {
    if s != [] {
      DigitPrefixOfDigits(s[1..]);
    }
  }

  /** Reading back the decimal digits of `n` gives `n`. */
  lemma {:induction false} NatStringValue(n: nat)
    ensures DigitsValue(NatString(n), 10) == n
  {
    if n < 10 {
      DigitValueOfDigitChar(n);
    } else {
      var s := NatString(n / 10);
      var r := s + [DigitChar(n % 10)];
      assert NatString(n) == r;
      assert r[..|r| - 1] == s;
      NatStringValue(n / 10);
      DigitValueOfDigitChar(n % 10);
    }
  }

  lemma DigitsHaveNoHexPrefix(u: string)
    requires forall i :: 0 <= i < |u| ==> IsDecimalDigit(u[i])
    ensures !HasHexPrefix(u)
  {
  }

  /** Round trip: `parseInt(n.toString()) == n` for every integer `n`. */
  lemma {:induction false} ParseIntOfDecimalString(n: int)
    ensures ParseInt(DecimalString(n)) == Int(n)
  {
    var m: nat := if n < 0 then -n else n;
    var digits := NatString(m);
    DigitsHaveNoHexPrefix(digits);
    DigitPrefixOfDigits(digits);
    NatStringValue(m);
    assert ParseUnsigned(digits) == Int(m);
    if n < 0 {
      ParseIntNegative(digits);
    } else {
      WordCharIsNotWhiteSpace(digits[0]);
      ParseIntUnsigned(digits);
    }
  }

  /** `parseInt` reads the leading decimal digits of a string and stops at the
      first character that is not one, unless the string starts with `0x`. */
  lemma {:induction false} ParseIntLeadingDigits(d: string, rest: string)
    requires d != [] && forall i :: 0 <= i < |d| ==> IsDecimalDigit(d[i])
    requires rest == [] || !IsDecimalDigit(rest[0])
    requires !(d == "0" && rest != [] && (rest[0] == 'x' || rest[0] == 'X'))
    ensures ParseInt(d + rest) == Int(DigitsValue(d, 10))
  {
    var s := d + rest;
    assert s[0] == d[0];
    WordCharIsNotWhiteSpace(d[0]);
    ParseIntUnsigned(s);
    assert !HasHexPrefix(s) by {
      if |d| >= 2 { assert s[1] == d[1]; }
    }
    DigitPrefixSplit(d, rest);
  }

  lemma {:induction false} DigitPrefixSplit(d: string, rest: string)
    requires forall i :: 0 <= i < |d| ==> IsDecimalDigit(d[i])
    requires rest == [] || !IsDecimalDigit(rest[0])
    ensures DigitPrefix(d + rest, 10) == d
  {
    if d != [] {
      assert (d + rest)[1..] == d[1..] + rest;
      DigitPrefixSplit(d[1..], rest);
    }
  }
}
