/** The pieces of JavaScript's built-in behaviour that the circle page and the indexer banner
    rely on: what counts as white space, String.prototype.trim, the integer-to-text conversion
    of template literals, BigInt applied to a string (StringToBigInt), BigInt applied to a
    number, and timestamp fields as seen through Date.parse. */
module JsSemantics {
  import opened Wrappers

  /** WhiteSpace and LineTerminator of ECMAScript (section 12.2 and 12.3 of ECMA-262): the set
      that `trim`, the regular-expression class `\s` and StringToBigInt all skip. */
  predicate IsJsSpace(c: char) {
    var n := c as int;
    n == 0x09 || n == 0x0A || n == 0x0B || n == 0x0C || n == 0x0D || n == 0x20 || n == 0xA0
    || n == 0x1680 || (0x2000 <= n <= 0x200A) || n == 0x2028 || n == 0x2029 || n == 0x202F
    || n == 0x205F || n == 0x3000 || n == 0xFEFF
  }

  predicate AllSpace(s: string) {
    forall i :: 0 <= i < |s| ==> IsJsSpace(s[i])
  }

  /** How many white-space characters `s` starts with. */
  function LeadingSpace(s: string): (k: nat)
    ensures k <= |s|
    ensures forall i :: 0 <= i < k ==> IsJsSpace(s[i])
    ensures k < |s| ==> !IsJsSpace(s[k])
  {
    if s != [] && IsJsSpace(s[0]) then 1 + LeadingSpace(s[1..]) else 0
  }

  /** How many white-space characters `s` ends with. */
  function TrailingSpace(s: string): (k: nat)
    ensures k <= |s|
    ensures forall i :: |s| - k <= i < |s| ==> IsJsSpace(s[i])
    ensures k < |s| ==> !IsJsSpace(s[|s| - 1 - k])
  {
    if s != [] && IsJsSpace(s[|s| - 1]) then 1 + TrailingSpace(s[..|s| - 1]) else 0
  }

  /** `s.trimStart()`: drops the leading white space and nothing else. */
  function TrimStart(s: string): (r: string)
  {
    s[LeadingSpace(s)..]
  }

  /** `s.trim()`: the longest middle slice of `s` that neither starts nor ends with white space. */
  function Trim(s: string): (r: string)
    ensures LeadingSpace(s) + |r| <= |s|
    ensures r == s[LeadingSpace(s)..LeadingSpace(s) + |r|]
    ensures forall i :: 0 <= i < LeadingSpace(s) ==> IsJsSpace(s[i])
    ensures forall i :: LeadingSpace(s) + |r| <= i < |s| ==> IsJsSpace(s[i])
    ensures r != [] ==> !IsJsSpace(r[0]) && !IsJsSpace(r[|r| - 1])
  {
    var k := LeadingSpace(s);
    var t := s[k..];
    var j := TrailingSpace(t);
    assert forall i :: k + |t| - j <= i < |s| ==> s[i] == t[i - k];
    t[..|t| - j]
  }

  /** Trimming gives the empty string exactly when the whole string is white space. */
  lemma TrimEmptyIff(s: string)
    ensures Trim(s) == [] <==> AllSpace(s)
  {
    var r, k := Trim(s), LeadingSpace(s);
    if r != [] {
      assert s[k] == r[0];
    }
  }

  lemma {:induction false} LeadingSpacePadded(pre: string, x: string)
    requires AllSpace(pre)
    requires x != [] ==> !IsJsSpace(x[0])
    ensures LeadingSpace(pre + x) == |pre|
  {
    if pre != [] {
      assert (pre + x)[1..] == pre[1..] + x;
      LeadingSpacePadded(pre[1..], x);
    } else {
      assert pre + x == x;
    }
  }

  lemma {:induction false} TrailingSpacePadded(x: string, post: string)
    requires AllSpace(post)
    requires x != [] ==> !IsJsSpace(x[|x| - 1])
    ensures TrailingSpace(x + post) == |post|
  {
    if post != [] {
      assert (x + post)[..|x + post| - 1] == x + post[..|post| - 1];
      TrailingSpacePadded(x, post[..|post| - 1]);
    } else {
      assert x + post == x;
    }
  }

  lemma TrimStartPadded(pre: string, x: string)
    requires AllSpace(pre)
    requires x != [] ==> !IsJsSpace(x[0])
    ensures TrimStart(pre + x) == x
  {
    LeadingSpacePadded(pre, x);
  }

  /** A string padded with white space on both sides trims back to itself, when its own ends
      are not white space. */
  lemma TrimPadded(pre: string, t: string, post: string)
    requires AllSpace(pre) && AllSpace(post)
    requires t != [] && !IsJsSpace(t[0]) && !IsJsSpace(t[|t| - 1])
    ensures Trim(pre + t + post) == t
  {
    var s := pre + t + post;
    assert s == pre + (t + post);
    LeadingSpacePadded(pre, t + post);
    assert s[|pre|..] == t + post;
    TrailingSpacePadded(t, post);
  }

  // ---------------------------------------------------------------- decimal text

  function DigitChar(d: nat): (c: char)
    requires d < 10
    ensures '0' <= c <= '9'
  {
    (48 + d) as char
  }

  /** The text JavaScript gives a non-negative integer in a template literal: decimal digits,
      no leading zero. */
  function NatToDecimal(n: nat): (r: string)
    ensures |r| >= 1
    ensures forall i :: 0 <= i < |r| ==> '0' <= r[i] <= '9'
    ensures r[0] == '0' ==> n == 0 && r == "0"
  {
    if n < 10 then [DigitChar(n)] else NatToDecimal(n / 10) + [DigitChar(n % 10)]
  }

  /** The decimal text of any integer, with a leading '-' when negative. */
  function IntToDecimal(i: int): (r: string)
  {
    if i < 0 then "-" + NatToDecimal(-i) else NatToDecimal(i)
  }

  /** The value of a digit character in the given radix (letters a-z stand for 10..35). */
  function DigitValue(c: char, radix: nat): (r: Option<nat>)
    ensures r.Some? ==> r.value < radix
    ensures radix == 10 ==> (r.Some? <==> '0' <= c <= '9')
  {
    var d := if '0' <= c <= '9' then c as int - '0' as int
             else if 'a' <= c <= 'z' then c as int - 'a' as int + 10
             else if 'A' <= c <= 'Z' then c as int - 'A' as int + 10
             else 36;
    if d < radix then Some(d) else None
  }

  predicate AllDigits(s: string, radix: nat) {
    forall i :: 0 <= i < |s| ==> DigitValue(s[i], radix).Some?
  }

  lemma AllDigitsSnoc(s: string, radix: nat)
    requires s != []
    ensures AllDigits(s, radix) <==> AllDigits(s[..|s| - 1], radix) && DigitValue(s[|s| - 1], radix).Some?
  {
    var init := s[..|s| - 1];
    assert forall i :: 0 <= i < |init| ==> init[i] == s[i];
  }

  /** A non-empty run of digits of the given radix, most significant first; None when empty or
      when some character is not a digit. */
  function ParseDigits(s: string, radix: nat): (r: Option<nat>)
    ensures r.Some? <==> s != [] && AllDigits(s, radix)
  {
    if s == [] then None
    else
      AllDigitsSnoc(s, radix);
      if |s| == 1 then DigitValue(s[0], radix)
      else
        var hi := ParseDigits(s[..|s| - 1], radix);
        var lo := DigitValue(s[|s| - 1], radix);
        if hi.Some? && lo.Some? then Some(hi.value * radix + lo.value) else None
  }

  lemma {:induction false} ParseDecimalRoundTrip(n: nat)
    ensures ParseDigits(NatToDecimal(n), 10) == Some(n)
  {
    if n >= 10 {
      var s := NatToDecimal(n);
      ParseDecimalRoundTrip(n / 10);
      assert s[..|s| - 1] == NatToDecimal(n / 10);
      assert s[|s| - 1] == DigitChar(n % 10);
    }
  }

  /** The radix a `0x`, `0o` or `0b` prefix selects (either case). */
  function RadixOfPrefix(c: char): (r: Option<nat>)
    ensures r.Some? ==> r.value in {2, 8, 16}
  {
    if c == 'x' || c == 'X' then Some(16)
    else if c == 'o' || c == 'O' then Some(8)
    else if c == 'b' || c == 'B' then Some(2)
    else None
  }

  function ToIntOption(o: Option<nat>, negate: bool): (r: Option<int>)
    ensures r.Some? <==> o.Some?
    ensures r.Some? ==> r.value == if negate then 0 - o.value as int else o.value as int
  {
    if o.None? then None
    else
      var v: int := o.value;
      Some(if negate then -v else v)
  }

  /** The characters an integer literal can contain at all: hexadecimal digits, the radix
      letters and the two signs. A '.', an exponent sign that is not a hex digit, '_', a
      BigInt suffix 'n' or inner white space is among the rest. */
  predicate IsLiteralChar(c: char) {
    DigitValue(c, 16).Some? || c in {'x', 'X', 'o', 'O', 'b', 'B', '+', '-'}
  }

  /** StrIntegerLiteral of ECMA-262 on text that is not empty and not padded: a decimal integer
      with an optional sign, or an unsigned `0x`/`0o`/`0b` literal. Text with any other
      character, or with a sign after the first position, is rejected. */
  function ParseIntegerLiteral(t: string): (r: Option<int>)
    requires t != []
    ensures r.Some? ==> forall i :: 0 <= i < |t| ==> IsLiteralChar(t[i])
    ensures r.Some? ==> forall i :: 0 < i < |t| ==> t[i] != '+' && t[i] != '-'
    ensures r.Some? && t[0] == '-' ==> r.value <= 0
  {
    if |t| >= 2 && t[0] == '0' && RadixOfPrefix(t[1]).Some? then
      ToIntOption(ParseDigits(t[2..], RadixOfPrefix(t[1]).value), false)
    else if t[0] == '-' then ToIntOption(ParseDigits(t[1..], 10), true)
    else if t[0] == '+' then ToIntOption(ParseDigits(t[1..], 10), false)
    else ToIntOption(ParseDigits(t, 10), false)
  }

  /** StringToBigInt (section 7.1.14 of ECMA-262), which `BigInt(string)` applies: surrounding
      white space is ignored, white space alone is 0, otherwise StrIntegerLiteral; anything
      else is a SyntaxError, here None. */
  function StringToBigInt(s: string): (r: Option<int>)
    ensures AllSpace(s) ==> r == Some(0)
    ensures r.Some? ==> forall i :: 0 <= i < |Trim(s)| ==> IsLiteralChar(Trim(s)[i])
  {
    var t := Trim(s);
    TrimEmptyIff(s);
    if t == [] then Some(0) else ParseIntegerLiteral(t)
  }

  /** Padded text holding a character no integer literal contains (a '.', '_', a BigInt
      suffix 'n', inner white space, ...) is a SyntaxError. */
  lemma StringToBigIntRejectsNonLiteral(pre: string, t: string, post: string, i: nat)
    requires AllSpace(pre) && AllSpace(post)
    requires t != [] && !IsJsSpace(t[0]) && !IsJsSpace(t[|t| - 1])
    requires i < |t| && !IsLiteralChar(t[i])
    ensures StringToBigInt(pre + t + post).None?
  {
    TrimPadded(pre, t, post);
  }

  /** A sign is allowed only before a decimal literal: a signed `0x`/`0o`/`0b` literal is
      rejected. */
  lemma SignedRadixLiteralRejected(u: string)
    requires |u| >= 2 && u[0] == '0' && RadixOfPrefix(u[1]).Some?
    ensures ParseIntegerLiteral("-" + u).None? && ParseIntegerLiteral("+" + u).None?
  {
    assert ("-" + u)[1..] == u && ("+" + u)[1..] == u;
    assert DigitValue(u[1], 10).None?;
  }

  lemma ParseIntegerLiteralOfDecimal(i: int)
    ensures ParseIntegerLiteral(IntToDecimal(i)) == Some(i)
  {
    var n: nat := if i < 0 then -i else i;
    var digits := NatToDecimal(n);
    ParseDecimalRoundTrip(n);
    if i < 0 {
      var d := "-" + digits;
      assert IntToDecimal(i) == d;
      assert d[1..] == digits;
      assert ParseIntegerLiteral(d) == ToIntOption(ParseDigits(digits, 10), true);
    } else {
      assert IntToDecimal(i) == digits;
      assert '0' <= digits[0] <= '9';
      assert !(|digits| >= 2 && digits[0] == '0');
      assert ParseIntegerLiteral(digits) == ToIntOption(ParseDigits(digits, 10), false);
    }
  }

  /** BigInt reads back the decimal text of every integer, whatever white space surrounds it. */
  lemma StringToBigIntOfDecimal(i: int, pre: string, post: string)
    requires AllSpace(pre) && AllSpace(post)
    ensures StringToBigInt(pre + IntToDecimal(i) + post) == Some(i)
  {
    var d := IntToDecimal(i);
    var n: nat := if i < 0 then -i else i;
    var digits := NatToDecimal(n);
    assert d == if i < 0 then "-" + digits else digits;
    assert !IsJsSpace(d[0]) && !IsJsSpace(d[|d| - 1]) by {
      assert d[|d| - 1] == digits[|digits| - 1];
    }
    TrimPadded(pre, d, post);
    var s := pre + d + post;
    assert !AllSpace(s) by { assert s[|pre|] == d[0]; }
    ParseIntegerLiteralOfDecimal(i);
  }

  // ---------------------------------------------------------------- numbers and timestamps

  /** A JavaScript number as far as BigInt is concerned: an integral value, or anything else
      (a fraction, NaN, an infinity). */
  datatype JsNumber = Integral(value: int) | NonIntegral

  /** A value of unknown type, as the mirrored records deliver it. `JsOther` stands for
      undefined, null, booleans, objects and symbols. */
  datatype JsValue = JsBigInt(big: int) | JsNum(num: JsNumber) | JsString(str: string) | JsOther

  /** `BigInt(number)`: the number itself when integral, otherwise a RangeError (None). */
  function NumberToBigInt(x: JsNumber): Option<int> {
    match x
    case Integral(v) => Some(v)
    case NonIntegral => None
  }

  /** An optional ISO-8601 timestamp field as JavaScript sees it: `Unset` when the field is null,
      undefined or the empty string (all falsy), `Set` when it is a non-empty string, carrying
      what `Date.parse` made of it in milliseconds (None for NaN). */
  datatype TimeField = Unset | Set(parsedMs: Option<int>)
}
