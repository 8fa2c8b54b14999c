/** The ECMAScript built-ins the transformation layer relies on:
    `String.prototype.split` with a one-character separator, `ToString` of
    `undefined`, and the global `parseInt` called without a radix. */
module EcmaScript {
  import opened Wrappers

  /** The text `ToString(undefined)` produces, which is also what a template
      literal inserts for an `undefined` substitution. */
  const UndefinedText: string := "undefined"

  /** `ToString` of a value that is either a string or `undefined`. */
  function ToText(v: Option<string>): string
  {
    match v
    case Some(s) => s
    case None => UndefinedText
  }

  // ---------------------------------------------------------------------
  // String.prototype.split and its inverse, Array.prototype.join
  // ---------------------------------------------------------------------

  /** `parts.join(sep)`: the parts with one separator between neighbours. */
  function Join(parts: seq<string>, sep: char): string
  {
    if |parts| == 0 then ""
    else if |parts| == 1 then parts[0]
    else parts[0] + [sep] + Join(parts[1..], sep)
  }

  /** `s.split(sep)` for a one-character separator: the text between
      consecutive separators, left to right. The empty string splits into one
      empty part, so there is always at least one part. */
  function Split(s: string, sep: char): (parts: seq<string>)
    ensures |parts| >= 1
    ensures forall i :: 0 <= i < |parts| ==> sep !in parts[i]
    decreases |s|
  {
    if s == [] then [""]
    else
      var rest := Split(s[1..], sep);
      if s[0] == sep then [""] + rest
      else [[s[0]] + rest[0]] + rest[1..]
  }

  /** Joining the parts with the separator gives back the text: `Split` loses
      nothing. */
  lemma {:induction false} JoinSplit(s: string, sep: char)
    ensures Join(Split(s, sep), sep) == s
    decreases |s|
  {
    if s != [] {
      var rest := Split(s[1..], sep);
      JoinSplit(s[1..], sep);
      if s[0] == sep {
        assert ([""] + rest)[1..] == rest;
      } else {
        assert ([[s[0]] + rest[0]] + rest[1..])[1..] == rest[1..];
        assert s == [s[0]] + s[1..];
      }
    }
  }

  /** A field without a separator followed by a separator splits off as the
      first part. */
  lemma {:induction false} SplitAfterField(a: string, sep: char, s: string)
    requires sep !in a
    ensures Split(a + [sep] + s, sep) == [a] + Split(s, sep)
    decreases |a|
  {
    var t := a + [sep] + s;
    if a == [] {
      assert t[0] == sep && t[1..] == s;
    } else {
      assert t[0] == a[0] && t[1..] == a[1..] + [sep] + s;
      SplitAfterField(a[1..], sep, s);
      assert [a[0]] + a[1..] == a;
    }
  }

  /** A text without the separator splits into itself alone. */
  lemma {:induction false} SplitWithoutSeparator(a: string, sep: char)
    requires sep !in a
    ensures Split(a, sep) == [a]
    decreases |a|
  {
    if a != [] {
      assert a[0] != sep;
      SplitWithoutSeparator(a[1..], sep);
      assert [a[0]] + a[1..] == a;
    }
  }

  /** Splitting undoes joining separator-free parts: `Split` is the only
      separator-free decomposition of a text. */
  lemma {:induction false} SplitJoin(parts: seq<string>, sep: char)
    requires |parts| >= 1
    requires forall i :: 0 <= i < |parts| ==> sep !in parts[i]
    ensures Split(Join(parts, sep), sep) == parts
    decreases |parts|
  {
    if |parts| == 1 {
      SplitWithoutSeparator(parts[0], sep);
    } else {
      SplitJoin(parts[1..], sep);
      SplitAfterField(parts[0], sep, Join(parts[1..], sep));
      assert [parts[0]] + parts[1..] == parts;
    }
  }

  /** The number of parts is one more than the number of separators. */
  lemma {:induction false} SplitCount(s: string, sep: char)
    ensures |Split(s, sep)| == multiset(s)[sep] + 1
    decreases |s|
  {
    if s != [] {
      SplitCount(s[1..], sep);
      assert s == [s[0]] + s[1..];
      assert multiset(s) == multiset{s[0]} + multiset(s[1..]);
    }
  }

  // ---------------------------------------------------------------------
  // parseInt(string) with the radix left undefined
  // ---------------------------------------------------------------------

  /** ECMAScript WhiteSpace and LineTerminator code points, the characters
      `TrimString(s, start)` removes. */
  predicate IsWhiteSpace(c: char)
  {
    var n := c as int;
    n == 0x09 || n == 0x0A || n == 0x0B || n == 0x0C || n == 0x0D || n == 0x20
    || n == 0xA0 || n == 0x1680 || (0x2000 <= n <= 0x200A) || n == 0x2028
    || n == 0x2029 || n == 0x202F || n == 0x205F || n == 0x3000 || n == 0xFEFF
  }

  /** `TrimString(s, start)`: drop the leading white space. */
  function TrimStart(s: string): (t: string)
    ensures |t| <= |s| && t == s[|s| - |t|..]
    ensures forall i :: 0 <= i < |s| - |t| ==> IsWhiteSpace(s[i])
    ensures t == [] || !IsWhiteSpace(t[0])
    decreases |s|
  {
    if s != [] && IsWhiteSpace(s[0]) then TrimStart(s[1..]) else s
  }

  /** The value of a character as a digit in radices up to 36: `0`-`9` are
      0 to 9, letters of either case are 10 to 35; anything else is 36, a
      digit in no radix. */
  function DigitValue(c: char): nat
  {
    if '0' <= c <= '9' then c as int - '0' as int
    else if 'a' <= c <= 'z' then c as int - 'a' as int + 10
    else if 'A' <= c <= 'Z' then c as int - 'A' as int + 10
    else 36
  }

  /** `c` is a radix-`radix` digit. */
  predicate IsDigit(c: char, radix: nat)
  {
    DigitValue(c) < radix
  }

  /** Every character of `s` is a radix-`radix` digit. */
  predicate AllDigits(s: string, radix: nat)
  {
    forall i :: 0 <= i < |s| ==> IsDigit(s[i], radix)
  }

  /** The longest prefix of `s` made of radix-`radix` digits. */
  function LeadingDigits(s: string, radix: nat): (z: string)
    ensures |z| <= |s| && z == s[..|z|]
    ensures AllDigits(z, radix)
    ensures |z| < |s| ==> !IsDigit(s[|z|], radix)
    decreases |s|
  {
    if s == [] || !IsDigit(s[0], radix) then []
    else
      var z := [s[0]] + LeadingDigits(s[1..], radix);
      assert s == [s[0]] + s[1..];
      z
  }

  /** The mathematical value of a digit string in the given radix, most
      significant digit first. */
  function NumberValue(z: string, radix: nat): nat
    decreases |z|
  {
    if z == [] then 0
    else NumberValue(z[..|z| - 1], radix) * radix + DigitValue(z[|z| - 1])
  }

  /** `parseInt(input)` with no radix argument: skip leading white space,
      take an optional sign, then read the unsigned number; `None` is `NaN`. */
  function ParseInt(input: string): Option<int>
  {
    var s := TrimStart(input);
    var magnitude := ParseUnsigned(AfterSign(s));
    if s != [] && s[0] == '-' then Negate(magnitude) else Widen(magnitude)
  }

  /** The text after an optional leading `+` or `-`. */
  function AfterSign(s: string): string
  {
    if s != [] && (s[0] == '-' || s[0] == '+') then s[1..] else s
  }

  /** The unsigned part of `parseInt`: a `0x`/`0X` prefix selects radix 16,
      otherwise radix 10, and the longest run of digits in that radix is the
      number; `None` (`NaN`) when that run is empty. */
  function ParseUnsigned(u: string): Option<nat>
  {
    var hex := |u| >= 2 && u[0] == '0' && (u[1] == 'x' || u[1] == 'X');
    var radix := if hex then 16 else 10;
    var digits := LeadingDigits(if hex then u[2..] else u, radix);
    if digits == [] then None else Some(NumberValue(digits, radix))
  }

  /** The sign `-` applied to a parsed number (`NaN` stays `NaN`). */
  function Negate(v: Option<nat>): Option<int>
  {
    match v
    case None => None
    case Some(n) => Some(-(n as int))
  }

  /** A parsed number without a sign. */
  function Widen(v: Option<nat>): Option<int>
  {
    match v
    case None => None
    case Some(n) => Some(n)
  }

  /** `parseInt(v)` for a value that is a string or `undefined`. */
  function ParseIntOf(v: Option<string>): Option<int>
  {
    ParseInt(ToText(v))
  }

  /** The decimal numeral of a natural number, without leading zeros. */
  function DecimalText(n: nat): (s: string)
    ensures |s| >= 1 && AllDigits(s, 10)
    decreases n
  {
    var last := ('0' as int + n % 10) as char;
    if n < 10 then [last] else DecimalText(n / 10) + [last]
  }

  /** Leading white space does not change what `TrimStart` leaves. */
  lemma {:induction false} TrimStartSkipsWhiteSpace(w: string, s: string)
    requires forall i :: 0 <= i < |w| ==> IsWhiteSpace(w[i])
    requires s == [] || !IsWhiteSpace(s[0])
    ensures TrimStart(w + s) == s
    decreases |w|
  {
    if w != [] {
      assert (w + s)[0] == w[0] && (w + s)[1..] == w[1..] + s;
      TrimStartSkipsWhiteSpace(w[1..], s);
    }
  }

  /** The digit run stops exactly where the digits stop. */
  lemma {:induction false} LeadingDigitsOfDigits(z: string, rest: string, radix: nat)
    requires AllDigits(z, radix)
    requires rest == [] || !IsDigit(rest[0], radix)
    ensures LeadingDigits(z + rest, radix) == z
    decreases |z|
  {
    if z != [] {
      assert (z + rest)[0] == z[0] && (z + rest)[1..] == z[1..] + rest;
      LeadingDigitsOfDigits(z[1..], rest, radix);
      assert [z[0]] + z[1..] == z;
    } else {
      assert z + rest == rest;
    }
  }

  /** The sign that `parseInt` accepts after the white space. */
  predicate IsSign(sign: string)
  {
    sign == "" || sign == "+" || sign == "-"
  }

  /** Concatenation is associative. */
  lemma Associative(a: string, b: string, c: string)
    ensures a + b + c == a + (b + c)
  {
  }

  /** After white space and a sign, `parseInt` parses the rest unsigned and
      applies the sign; without a sign the rest must not start with more
      white space or a sign character. */
  lemma ParseIntSigned(w: string, sign: string, u: string)
    requires forall i :: 0 <= i < |w| ==> IsWhiteSpace(w[i])
    requires IsSign(sign)
    requires sign == "" ==> u == [] || (!IsWhiteSpace(u[0]) && u[0] != '+' && u[0] != '-')
    ensures ParseInt(w + sign + u)
         == if sign == "-" then Negate(ParseUnsigned(u)) else Widen(ParseUnsigned(u))
  {
    var t := sign + u;
    Associative(w, sign, u);
    TrimStartSkipsWhiteSpace(w, t);
    if sign != "" {
      assert t[0] == sign[0] && t[1..] == u;
    }
    assert AfterSign(t) == u;
  }

  /** Decimal digits followed by anything that does not continue them (and
      does not turn a lone `0` into a `0x` prefix) read as their value. */
  lemma ParseUnsignedDecimal(digits: string, rest: string)
    requires |digits| >= 1 && AllDigits(digits, 10)
    requires rest == [] || !IsDigit(rest[0], 10)
    requires digits == "0" && rest != [] ==> rest[0] != 'x' && rest[0] != 'X'
    ensures ParseUnsigned(digits + rest) == Some(NumberValue(digits, 10))
  {
    var u := digits + rest;
    assert |u| >= 2 ==> u[1] == if |digits| >= 2 then digits[1] else rest[0];
    LeadingDigitsOfDigits(digits, rest, 10);
  }

  /** After a `0x` or `0X` prefix the digits are read in radix 16; with no
      hexadecimal digit there the result is `NaN`. */
  lemma ParseUnsignedHex(prefix: string, digits: string, rest: string)
    requires prefix == "0x" || prefix == "0X"
    requires AllDigits(digits, 16)
    requires rest == [] || !IsDigit(rest[0], 16)
    ensures ParseUnsigned(prefix + digits + rest)
         == if digits == [] then None else Some(NumberValue(digits, 16))
  {
    var u := prefix + digits + rest;
    assert u[0] == '0' && u[1] == prefix[1];
    assert u[2..] == digits + rest;
    LeadingDigitsOfDigits(digits, rest, 16);
  }

  /** White space, an optional sign, decimal digits and then anything that
      does not continue the number: `parseInt` returns the digits' value with
      the sign applied. */
  lemma ParseIntDecimal(w: string, sign: string, digits: string, rest: string)
    requires forall i :: 0 <= i < |w| ==> IsWhiteSpace(w[i])
    requires IsSign(sign)
    requires |digits| >= 1 && AllDigits(digits, 10)
    requires rest == [] || !IsDigit(rest[0], 10)
    requires digits == "0" && rest != [] ==> rest[0] != 'x' && rest[0] != 'X'
    ensures var n := Some(NumberValue(digits, 10));
            ParseInt(w + sign + (digits + rest)) == if sign == "-" then Negate(n) else Widen(n)
  {
    var u := digits + rest;
    assert u[0] == digits[0];
    ParseIntSigned(w, sign, u);
    ParseUnsignedDecimal(digits, rest);
  }

  /** White space, an optional sign, a `0x` or `0X` prefix, hexadecimal digits
      and then anything that does not continue the number: `parseInt` reads
      the digits in radix 16, and returns `NaN` when there are none. */
  lemma ParseIntHex(w: string, sign: string, prefix: string, digits: string, rest: string)
    requires forall i :: 0 <= i < |w| ==> IsWhiteSpace(w[i])
    requires IsSign(sign)
    requires prefix == "0x" || prefix == "0X"
    requires AllDigits(digits, 16)
    requires rest == [] || !IsDigit(rest[0], 16)
    ensures var n := if digits == [] then None else Some(NumberValue(digits, 16));
            ParseInt(w + sign + (prefix + digits + rest)) == if sign == "-" then Negate(n) else Widen(n)
  {
    var u := prefix + digits + rest;
    assert u[0] == '0';
    ParseIntSigned(w, sign, u);
    ParseUnsignedHex(prefix, digits, rest);
  }

  /** When no decimal digit follows the white space and the optional sign,
      `parseInt` returns `NaN`. */
  lemma ParseIntNaN(input: string)
    requires var u := AfterSign(TrimStart(input)); u == [] || !IsDigit(u[0], 10)
    ensures ParseInt(input) == None
  {
  }

  /** `parseInt(undefined)` reads the text "undefined" and gives `NaN`. */
  lemma ParseIntOfUndefined()
    ensures ParseIntOf(None) == None
  {
    assert TrimStart(UndefinedText) == UndefinedText;
    assert AfterSign(UndefinedText) == UndefinedText;
    ParseIntNaN(UndefinedText);
  }

  /** The numeral's digits read back to the number. */
  lemma {:induction false} NumberValueOfDecimalText(n: nat)
    ensures NumberValue(DecimalText(n), 10) == n
    decreases n
  {
    var s := DecimalText(n);
    if n >= 10 {
      NumberValueOfDecimalText(n / 10);
      assert s[..|s| - 1] == DecimalText(n / 10);
    }
  }

  /** Concatenating empty strings changes nothing. */
  lemma EmptyPrefix(sign: string, s: string)
    ensures "" + sign + s == sign + s && s + "" == s
  {
  }

  /** A non-empty string of decimal digits, optionally after a minus sign,
      parses to its value with the sign applied. */
  lemma ParseIntOfDigits(s: string, negative: bool)
    requires |s| >= 1 && AllDigits(s, 10)
    ensures ParseInt(if negative then "-" + s else s)
         == if negative then Negate(Some(NumberValue(s, 10))) else Widen(Some(NumberValue(s, 10)))
  {
    var sign := if negative then "-" else "";
    ParseUnsignedDecimal(s, "");
    ParseIntSigned("", sign, s);
    EmptyPrefix(sign, s);
  }

  /** `parseInt` reads back a natural number written in decimal. */
  lemma DecimalTextRoundTrip(n: nat)
    ensures ParseInt(DecimalText(n)) == Some(n)
  {
    NumberValueOfDecimalText(n);
    ParseIntOfDigits(DecimalText(n), false);
  }

  /** `parseInt` reads back a negative number written in decimal, with a minus
      sign in front of the numeral. */
  lemma NegativeDecimalTextRoundTrip(n: nat)
    ensures ParseInt("-" + DecimalText(n)) == Some(-(n as int))
  {
    NumberValueOfDecimalText(n);
    ParseIntOfDigits(DecimalText(n), true);
  }
}
