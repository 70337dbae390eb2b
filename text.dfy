/**
 * The pieces of java.lang.String and java.lang.Integer the core relies on:
 * decimal text of integers, Integer.parseInt / Long.parseLong, narrowing to
 * 32 bits, trim, ASCII upper-casing, equalsIgnoreCase, contains / startsWith /
 * endsWith, the [^A-Z0-9] sanitiser, and joining with a separator.
 * Case mapping and digits are ASCII only.
 */
module Text {
  import opened Wrappers

  type int32 = x: int | -0x8000_0000 <= x < 0x8000_0000
  type int64 = x: int | -0x8000_0000_0000_0000 <= x < 0x8000_0000_0000_0000

  /** Java's narrowing of an integral value to `int`: the low 32 bits, read as two's complement. */
  function WrapInt32(n: int): (r: int32)
    ensures -0x8000_0000 <= n < 0x8000_0000 ==> r == n
    ensures (n - r) % 0x1_0000_0000 == 0
  {
    var m := n % 0x1_0000_0000;
    if m < 0x8000_0000 then m else m - 0x1_0000_0000
  }

  /** Java's narrowing of an integral value to `long`. */
  function WrapInt64(n: int): (r: int64)
    ensures -0x8000_0000_0000_0000 <= n < 0x8000_0000_0000_0000 ==> r == n
    ensures (n - r) % 0x1_0000_0000_0000_0000 == 0
  {
    var m := n % 0x1_0000_0000_0000_0000;
    if m < 0x8000_0000_0000_0000 then m else m - 0x1_0000_0000_0000_0000
  }

  // ---------------------------------------------------------------------------
  // Decimal text of integers and its parser

  predicate IsDigit(c: char) { '0' <= c <= '9' }

  predicate AllDigits(s: string) { forall i :: 0 <= i < |s| ==> IsDigit(s[i]) }

  function DigitChar(d: nat): (c: char)
    requires d < 10
    ensures IsDigit(c)
  {
    ('0' as int + d) as char
  }

  /** Decimal digits of a natural number, most significant first, no leading zero. */
  function Digits(n: nat): (s: string)
    ensures |s| > 0 && AllDigits(s)
    decreases n
  {
    if n < 10 then [DigitChar(n)] else Digits(n / 10) + [DigitChar(n % 10)]
  }

  /** The value of a string of decimal digits (leading zeros allowed, as parseInt allows them). */
  function DigitsValue(s: string): nat
    requires AllDigits(s)
  {
    if s == [] then 0 else 10 * DigitsValue(s[..|s| - 1]) + (s[|s| - 1] as int - '0' as int)
  }

  lemma {:induction false} DigitsValueOfDigits(n: nat)
    ensures DigitsValue(Digits(n)) == n
  {
    if n >= 10 {
      DigitsValueOfDigits(n / 10);
      var s := Digits(n);
      assert s[..|s| - 1] == Digits(n / 10);
    }
  }

  /** `String.valueOf(int)`: a minus sign for negative values, then the digits. */
  function IntText(n: int): string
  {
    if n < 0 then "-" + Digits(-n) else Digits(n)
  }

  /**
   * The grammar of `Integer.parseInt` and `Long.parseLong` in radix 10: an
   * optional '+' or '-' followed by at least one digit, nothing else.
   * The range check of each is applied by ParseInt / ParseLong.
   */
  function ParseInteger(s: string): Option<int>
  {
    if |s| == 0 then None
    else if s[0] == '-' || s[0] == '+' then
      if |s| == 1 || !AllDigits(s[1..]) then None
      else if s[0] == '-' then Some(0 - DigitsValue(s[1..]) as int)
      else Some(DigitsValue(s[1..]) as int)
    else if AllDigits(s) then Some(DigitsValue(s) as int)
    else None
  }

  /** `Integer.parseInt(s)`; None stands for the NumberFormatException. */
  function ParseInt(s: string): Option<int32>
  {
    match ParseInteger(s)
    case Some(v) => if -0x8000_0000 <= v < 0x8000_0000 then Some(v) else None
    case None => None
  }

  /** `Long.parseLong(s)`; None stands for the NumberFormatException. */
  function ParseLong(s: string): Option<int64>
  {
    match ParseInteger(s)
    case Some(v) =>
      if -0x8000_0000_0000_0000 <= v < 0x8000_0000_0000_0000 then Some(v) else None
    case None => None
  }

  /** Parsing the decimal text of any integer gives the integer back. */
  lemma ParseIntegerOfIntText(n: int)
    ensures ParseInteger(IntText(n)) == Some(n)
  {
    if n < 0 {
      DigitsValueOfDigits(-n);
      var s := IntText(n);
      assert s[1..] == Digits(-n);
    } else {
      DigitsValueOfDigits(n);
      assert IsDigit(Digits(n)[0]);
    }
  }

  /** `Integer.parseInt(String.valueOf(n)) == n` for every `int` n. */
  lemma ParseIntOfIntText(n: int32)
    ensures ParseInt(IntText(n)) == Some(n)
  {
    ParseIntegerOfIntText(n);
  }

  /** `Long.parseLong(String.valueOf(n)) == n` for every `long` n. */
  lemma ParseLongOfIntText(n: int64)
    ensures ParseLong(IntText(n)) == Some(n)
  {
    ParseIntegerOfIntText(n);
  }

  /** Distinct integers have distinct decimal texts (so numeric dedup keys never collide). */
  lemma IntTextInjective(a: int, b: int)
    ensures IntText(a) == IntText(b) ==> a == b
  {
    ParseIntegerOfIntText(a);
    ParseIntegerOfIntText(b);
  }

  // ---------------------------------------------------------------------------
  // Case, trimming, searching

  function UpperChar(c: char): char
  {
    if 'a' <= c <= 'z' then (c as int - 32) as char else c
  }

  function LowerChar(c: char): char
  {
    if 'A' <= c <= 'Z' then (c as int + 32) as char else c
  }

  /** `String.toUpperCase()` restricted to ASCII letters. */
  function ToUpper(s: string): string
  {
    seq(|s|, i requires 0 <= i < |s| => UpperChar(s[i]))
  }

  /** One position of `String.equalsIgnoreCase`: equal, equal in upper case, or equal in lower case of upper case. */
  predicate CharsEqualIgnoreCase(a: char, b: char)
  {
    a == b || UpperChar(a) == UpperChar(b) || LowerChar(UpperChar(a)) == LowerChar(UpperChar(b))
  }

  /** `String.equalsIgnoreCase`. */
  predicate EqualsIgnoreCase(a: string, b: string)
  {
    |a| == |b| && forall i :: 0 <= i < |a| ==> CharsEqualIgnoreCase(a[i], b[i])
  }

  /** Ignoring case is the same as comparing upper-case forms. */
  lemma EqualsIgnoreCaseIffSameUpper(a: string, b: string)
    ensures EqualsIgnoreCase(a, b) <==> ToUpper(a) == ToUpper(b)
  {
    if |a| == |b| {
      forall i | 0 <= i < |a|
        ensures CharsEqualIgnoreCase(a[i], b[i]) <==> ToUpper(a)[i] == ToUpper(b)[i]
      {
      }
      if EqualsIgnoreCase(a, b) {
        assert forall i :: 0 <= i < |a| ==> ToUpper(a)[i] == ToUpper(b)[i];
      }
    }
  }

  predicate IsBlank(s: string)
  {
    forall i :: 0 <= i < |s| ==> s[i] <= ' '
  }

  /** Drop the leading chars of code at most U+0020. */
  function TrimStart(s: string): (r: string)
    ensures |r| <= |s| && r == s[|s| - |r|..]
    ensures r == [] <==> IsBlank(s)
    ensures r != [] ==> r[0] > ' '
    decreases |s|
  {
    if |s| > 0 && s[0] <= ' ' then TrimStart(s[1..]) else s
  }

  /** Drop the trailing chars of code at most U+0020. */
  function TrimEnd(s: string): (r: string)
    ensures |r| <= |s| && r == s[..|r|]
    ensures r == [] <==> IsBlank(s)
    ensures r != [] ==> r[|r| - 1] > ' '
    decreases |s|
  {
    if |s| > 0 && s[|s| - 1] <= ' ' then TrimEnd(s[..|s| - 1]) else s
  }

  /**
   * `String.trim()`: the result is empty exactly when the input is blank, and
   * otherwise starts and ends with a char above U+0020.
   */
  function Trim(s: string): (r: string)
    ensures r == [] <==> IsBlank(s)
    ensures r != [] ==> r[0] > ' ' && r[|r| - 1] > ' '
  {
    var t := TrimStart(s);
    var r := TrimEnd(t);
    assert r != [] ==> r[0] == t[0];
    r
  }

  predicate StartsWith(s: string, p: string)
  {
    |p| <= |s| && s[..|p|] == p
  }

  predicate EndsWith(s: string, p: string)
  {
    |p| <= |s| && s[|s| - |p|..] == p
  }

  /** `s` has `t` at position `i`. */
  predicate OccursAt(s: string, t: string, i: int)
  {
    0 <= i && i + |t| <= |s| && s[i..i + |t|] == t
  }

  /** `String.contains`: scan the start positions left to right. */
  function Contains(s: string, t: string): bool
    decreases |s|
  {
    StartsWith(s, t) || (|s| > 0 && Contains(s[1..], t))
  }

  lemma {:induction false} ContainsIffOccurs(s: string, t: string)
    ensures Contains(s, t) <==> exists i :: OccursAt(s, t, i)
    decreases |s|
  {
    if StartsWith(s, t) {
      assert OccursAt(s, t, 0);
    } else if |s| > 0 {
      ContainsIffOccurs(s[1..], t);
      if Contains(s[1..], t) {
        var i :| OccursAt(s[1..], t, i);
        assert s[1..][i..i + |t|] == s[i + 1..i + 1 + |t|];
        assert OccursAt(s, t, i + 1);
      }
      if i :| OccursAt(s, t, i) {
        assert i != 0;
        assert s[1..][i - 1..i - 1 + |t|] == s[i..i + |t|];
        assert OccursAt(s[1..], t, i - 1);
      }
    } else {
      assert forall i :: !OccursAt(s, t, i);
    }
  }

  /** A prefix or a suffix is also contained, so `contains` alone decides stage-4 code matches. */
  lemma AffixIsContained(s: string, t: string)
    ensures StartsWith(s, t) || EndsWith(s, t) ==> Contains(s, t)
  {
    ContainsIffOccurs(s, t);
    if EndsWith(s, t) {
      assert OccursAt(s, t, |s| - |t|);
    }
  }

  predicate IsUpperAlnum(c: char)
  {
    'A' <= c <= 'Z' || '0' <= c <= '9'
  }

  /**
   * `replaceAll("[^A-Z0-9]", "")`: keeps exactly the ASCII upper-case letters
   * and digits, and changes nothing exactly when there is nothing else.
   */
  function Sanitize(s: string): (r: string)
    ensures |r| <= |s|
    ensures forall i :: 0 <= i < |r| ==> IsUpperAlnum(r[i])
    ensures r == s <==> forall i :: 0 <= i < |s| ==> IsUpperAlnum(s[i])
    decreases |s|
  {
    if s == [] then []
    else (if IsUpperAlnum(s[0]) then [s[0]] else []) + Sanitize(s[1..])
  }

  /** The parts, with `sep` between consecutive ones (a StringBuilder that appends sep before every part but the first). */
  function Join(parts: seq<string>, sep: string): string
  {
    if |parts| == 0 then ""
    else if |parts| == 1 then parts[0]
    else parts[0] + sep + Join(parts[1..], sep)
  }

  lemma {:induction false} JoinSnoc(parts: seq<string>, sep: string, x: string)
    requires |parts| > 0
    ensures Join(parts + [x], sep) == Join(parts, sep) + sep + x
  {
    if |parts| > 1 {
      assert (parts + [x])[1..] == parts[1..] + [x];
      JoinSnoc(parts[1..], sep, x);
    } else {
      assert (parts + [x])[1..] == [x];
    }
  }
}
