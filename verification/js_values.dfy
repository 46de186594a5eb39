/** The JavaScript values request bodies deliver, with the two conversions the
    handlers apply to them: optional `toString()` and `Number.parseInt`. */
module JsValues {

  import opened Common

  /** `Number.MAX_SAFE_INTEGER`, 2^53 - 1. */
  const MaxSafeInteger: int := 0x1F_FFFF_FFFF_FFFF

  /** The integers a JavaScript number holds exactly, each with a neighbour on
      either side. */
  type SafeInteger = n: int | -MaxSafeInteger <= n <= MaxSafeInteger

  /** A field read from a parsed JSON body or form. A missing field is
      `Undefined`; `Other` stands for an object or array and carries the text
      its `toString()` gives. Numbers are the safe integers, and `NaN`. */
  datatype JsValue =
    | Undefined
    | Null
    | Bool(b: bool)
    | Number(n: SafeInteger)
    | NaN
    | Str(s: string)
    | Other(text: string)

  /** A parsed JSON request body whose fields a handler reads. `NullBody` is
      the JSON literal `null`. Any other value is given by its own
      properties; a string, number or boolean has none, so every read of
      it gives `undefined`. */
  datatype JsonBody = NullBody | Fields(fields: map<string, JsValue>)

  /** `body.name`. Reading a property of `null` throws: None. */
  function Property(body: JsonBody, name: string): (v: Option<JsValue>)
    ensures v.None? <==> body.NullBody?
    ensures body.Fields? ==> v.value == (if name in body.fields then body.fields[name] else Undefined)
  {
    match body
    case NullBody => None
    case Fields(fields) => Some(if name in fields then fields[name] else Undefined)
  }

  /** `body?.name`: a `null` body reads as `undefined` instead of throwing. */
  function OptionalProperty(body: JsonBody, name: string): (v: JsValue)
    ensures body.NullBody? ==> v == Undefined
    ensures body.Fields? ==> Some(v) == Property(body, name)
  {
    Property(body, name).GetOr(Undefined)
  }

  predicate IsDecimalDigit(c: char) {
    '0' <= c <= '9'
  }

  function DigitChar(d: nat): (c: char)
    requires d < 10
    ensures IsDecimalDigit(c)
  {
    ('0' as int + d) as char
  }

  /** The decimal numeral of `n`, without leading zeros. */
  function DecimalDigits(n: nat): (s: string)
    ensures 1 <= |s|
    ensures forall i :: 0 <= i < |s| ==> IsDecimalDigit(s[i])
    ensures 2 <= |s| ==> s[0] != '0'
    ensures n < 10 <==> |s| == 1
  {
    if n < 10 then [DigitChar(n)] else DecimalDigits(n / 10) + [DigitChar(n % 10)]
  }

  /** `String(n)` for an integer-valued number. */
  function IntToString(n: int): string {
    if n < 0 then "-" + DecimalDigits(-n) else DecimalDigits(n)
  }

  /** `v?.toString()`: None for undefined and null, otherwise the text the
      value converts to. */
  function OptionalToString(v: JsValue): (r: Option<string>)
    ensures r.None? <==> v.Undefined? || v.Null?
    ensures v.Str? ==> r == Some(v.s)
    ensures v.Number? ==> r.Some? && ParseInt(r.value) == Some(v.n)
  {
    match v
    case Undefined => None
    case Null => None
    case Bool(b) => Some(if b then "true" else "false")
    case Number(n) => IntToStringRoundTrip(n); Some(IntToString(n))
    case NaN => Some("NaN")
    case Str(s) => Some(s)
    case Other(text) => Some(text)
  }

  /** The white space `parseInt` skips: JavaScript's white space and line
      terminators. That is ASCII tab, line feed, vertical tab, form feed,
      carriage return and space; the byte-order mark; the line and paragraph
      separators; and every Unicode space separator. */
  predicate IsWhiteSpace(c: char) {
    || '\t' <= c <= '\r' || c == ' ' || c == '\U{A0}' || c == '\U{1680}' || '\U{2000}' <= c <= '\U{200A}'
    || c == '\U{2028}' || c == '\U{2029}' || c == '\U{202F}' || c == '\U{205F}' || c == '\U{3000}' || c == '\U{FEFF}'
  }

  /** `s` without its leading white space. */
  function TrimStart(s: string): (r: string)
    ensures |r| <= |s| && r == s[|s| - |r|..]
    ensures |r| > 0 ==> !IsWhiteSpace(r[0])
    ensures forall i :: 0 <= i < |s| - |r| ==> IsWhiteSpace(s[i])
  {
    if |s| > 0 && IsWhiteSpace(s[0]) then
      var r := TrimStart(s[1..]);
      assert forall i :: 1 <= i < |s| - |r| ==> s[i] == s[1..][i - 1];
      r
    else
      s
  }

  /** The value of `c` as a digit in base `radix` (10 or 16), if it is one. */
  function DigitValue(c: char, radix: nat): (d: Option<nat>)
    ensures d.Some? ==> d.value < radix
    ensures radix == 10 ==> (d.Some? <==> IsDecimalDigit(c))
    ensures radix == 10 && IsDecimalDigit(c) ==> d == Some(c as int - '0' as int)
  {
    var v: int :=
      if '0' <= c <= '9' then c as int - '0' as int
      else if 'a' <= c <= 'z' then c as int - 'a' as int + 10
      else if 'A' <= c <= 'Z' then c as int - 'A' as int + 10
      else radix;
    if v < radix then Some(v) else None
  }

  predicate AllDigits(s: string, radix: nat) {
    forall i :: 0 <= i < |s| ==> DigitValue(s[i], radix).Some?
  }

  /** The length of the longest prefix of `s` made of digits in base `radix`. */
  function DigitPrefixLength(s: string, radix: nat): (n: nat)
    ensures n <= |s|
    ensures AllDigits(s[..n], radix)
    ensures n < |s| ==> DigitValue(s[n], radix).None?
  {
    if |s| == 0 || DigitValue(s[0], radix).None? then
      0
    else
      var rest := DigitPrefixLength(s[1..], radix);
      assert s[..rest + 1] == [s[0]] + s[1..][..rest];
      rest + 1
  }

  /** The number the digits `s` write in base `radix`. */
  function DigitsValue(s: string, radix: nat): nat
    requires AllDigits(s, radix)
  {
    if |s| == 0 then 0
    else
      assert AllDigits(s[..|s| - 1], radix);
      DigitsValue(s[..|s| - 1], radix) * radix + DigitValue(s[|s| - 1], radix).value
  }

  /** `Number.parseInt(s)` with no radix: leading white space is skipped, one
      sign is read, and the rest is read as an unsigned numeral. None stands
      for `NaN`. */
  function ParseInt(s: string): (r: Option<int>)
  {
    var t := TrimStart(s);
    var negative := |t| > 0 && t[0] == '-';
    var unsigned := if |t| > 0 && (t[0] == '-' || t[0] == '+') then t[1..] else t;
    match ParseUnsigned(unsigned)
    case None => None
    case Some(v) => Some(if negative then -(v as int) else v)
  }

  /** An unsigned numeral: a `0x`/`0X` prefix selects base 16, otherwise base
      10. */
  function ParseUnsigned(s: string): (r: Option<nat>)
  {
    if |s| >= 2 && s[0] == '0' && (s[1] == 'x' || s[1] == 'X') then
      ParseDigits(s[2..], 16)
    else
      ParseDigits(s, 10)
  }

  /** The longest run of digits at the start of `s` is the value; None, the
      answer when no digit is there. */
  function ParseDigits(s: string, radix: nat): (r: Option<nat>)
    ensures r.None? <==> |s| == 0 || DigitValue(s[0], radix).None?
  {
    var n := DigitPrefixLength(s, radix);
    if n == 0 then None else Some(DigitsValue(s[..n], radix))
  }

  lemma {:induction false} DigitPrefixOfDigits(digits: string, rest: string)
    requires forall i :: 0 <= i < |digits| ==> IsDecimalDigit(digits[i])
    requires |rest| == 0 || !IsDecimalDigit(rest[0])
    ensures DigitPrefixLength(digits + rest, 10) == |digits|
  {
    if |digits| > 0 {
      assert (digits + rest)[1..] == digits[1..] + rest;
      DigitPrefixOfDigits(digits[1..], rest);
    } else {
      assert digits + rest == rest;
    }
  }

  lemma {:induction false} DecimalDigitsValue(n: nat)
    ensures AllDigits(DecimalDigits(n), 10)
    ensures DigitsValue(DecimalDigits(n), 10) == n
  {
    var s := DecimalDigits(n);
    if n >= 10 {
      DecimalDigitsValue(n / 10);
      assert s[..|s| - 1] == DecimalDigits(n / 10);
    }
  }

  /** A run of decimal digits reads as the value it writes. */
  lemma ParseDigitsOfDecimal(digits: string)
    requires 0 < |digits| && forall i :: 0 <= i < |digits| ==> IsDecimalDigit(digits[i])
    ensures AllDigits(digits, 10)
    ensures ParseDigits(digits, 10) == Some(DigitsValue(digits, 10))
  {
    DigitPrefixOfDigits(digits, "");
    assert digits + "" == digits;
    assert digits[..|digits|] == digits;
  }

  /** Text that starts with neither white space nor a sign is read as an
      unsigned numeral; after a minus sign, the same numeral negated. */
  lemma ParseIntSign(s: string)
    requires 0 < |s| && !IsWhiteSpace(s[0]) && s[0] != '+'
    ensures s[0] != '-' ==> ParseInt(s) == (match ParseUnsigned(s) case None => None case Some(v) => Some(v as int))
    ensures s[0] == '-' ==> ParseInt(s) == (match ParseUnsigned(s[1..]) case None => None case Some(v) => Some(-(v as int)))
  {
    assert TrimStart(s) == s;
  }

  /** A run of decimal digits is not a hexadecimal numeral. */
  lemma ParseUnsignedOfDecimal(digits: string)
    requires 0 < |digits| && forall i :: 0 <= i < |digits| ==> IsDecimalDigit(digits[i])
    ensures AllDigits(digits, 10)
    ensures ParseUnsigned(digits) == Some(DigitsValue(digits, 10))
  {
    assert ParseUnsigned(digits) == ParseDigits(digits, 10) by {
      if |digits| >= 2 {
        assert IsDecimalDigit(digits[1]);
      }
    }
    ParseDigitsOfDecimal(digits);
  }

  /** `parseInt` reads back the decimal text of every integer. */
  lemma IntToStringRoundTrip(n: int)
    ensures ParseInt(IntToString(n)) == Some(n)
  {
    var m := if n < 0 then -n else n;
    var digits := DecimalDigits(m);
    DecimalDigitsValue(m);
    ParseUnsignedOfDecimal(digits);
    if n < 0 {
      var s := "-" + digits;
      assert s[1..] == digits;
      ParseIntSign(s);
    } else {
      ParseIntSign(digits);
    }
  }
}
