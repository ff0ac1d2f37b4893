/** The JavaScript built-ins the core's string handling relies on:
    the white-space class (`\s`, and what `parseInt` skips), `parseInt` with
    no radix, `toLowerCase` as far as comparisons with lower-case ASCII
    words can observe it, and `encodeURIComponent`. */
module JsText {
  import opened Base

  /** ECMAScript WhiteSpace and LineTerminator code points: the `\s` class
      of a regular expression and the prefix `parseInt` trims. */
  predicate IsJsWhitespace(c: char)
  {
    var n := c as int;
    n == 0x09 || n == 0x0A || n == 0x0B || n == 0x0C || n == 0x0D || n == 0x20
    || n == 0xA0 || n == 0x1680 || (0x2000 <= n <= 0x200A)
    || n == 0x2028 || n == 0x2029 || n == 0x202F || n == 0x205F
    || n == 0x3000 || n == 0xFEFF
  }

  predicate IsDecimalDigit(c: char)
  {
    '0' <= c <= '9'
  }

  function DigitValue(c: char, radix: nat): (r: Option<nat>)
    requires radix == 10 || radix == 16
    ensures r.Some? ==> r.value < radix
  {
    if '0' <= c <= '9' then Some(c as int - 48)
    else if radix == 16 && 'a' <= c <= 'f' then Some(c as int - 87)
    else if radix == 16 && 'A' <= c <= 'F' then Some(c as int - 55)
    else None
  }

  function TrimStart(s: string): (r: string)
    ensures |r| <= |s| && (r == [] || !IsJsWhitespace(r[0]))
  {
    if s != [] && IsJsWhitespace(s[0]) then TrimStart(s[1..]) else s
  }

  /** The longest prefix of radix digits. */
  function DigitPrefix(s: string, radix: nat): (r: string)
    requires radix == 10 || radix == 16
    ensures |r| <= |s| && r == s[..|r|]
    ensures forall i :: 0 <= i < |r| ==> DigitValue(r[i], radix).Some?
  {
    if s != [] && DigitValue(s[0], radix).Some? then [s[0]] + DigitPrefix(s[1..], radix) else []
  }

  /** The number written by a string of radix digits, most significant first. */
  function NumberValue(d: string, radix: nat): nat
    requires radix == 10 || radix == 16
    requires forall i :: 0 <= i < |d| ==> DigitValue(d[i], radix).Some?
  {
    if d == [] then 0
    else NumberValue(d[..|d| - 1], radix) * radix + DigitValue(d[|d| - 1], radix).value
  }

  /** `parseInt(x)` with no radix; `None` is NaN. An absent query parameter
      (`undefined`) converts to the text "undefined", which is NaN as well. */
  function ParseInt(x: Option<string>): (r: Option<int>)
  {
    if x.None? then None
    else
      var t := TrimStart(x.value);
      var sign := if t != [] && t[0] == '-' then -1 else 1;
      var u := if t != [] && (t[0] == '-' || t[0] == '+') then t[1..] else t;
      var radix := if |u| >= 2 && u[0] == '0' && (u[1] == 'x' || u[1] == 'X') then 16 else 10;
      var body := if radix == 16 then u[2..] else u;
      var digits := DigitPrefix(body, radix);
      if digits == [] then None else Some(sign * NumberValue(digits, radix))
  }

  lemma ParseIntNonNumeric(s: string)
    requires s == [] || (!IsJsWhitespace(s[0]) && !IsDecimalDigit(s[0]) && s[0] != '-' && s[0] != '+')
    ensures ParseInt(Some(s)) == None
  {
  }

  /** `parseInt` of a plain run of decimal digits is its decimal value. */
  lemma ParseIntDigits(s: string)
    requires s != [] && forall i :: 0 <= i < |s| ==> IsDecimalDigit(s[i])
    requires !(|s| >= 2 && s[0] == '0' && (s[1] == 'x' || s[1] == 'X'))
    ensures forall i :: 0 <= i < |s| ==> DigitValue(s[i], 10).Some?
    ensures ParseInt(Some(s)) == Some(NumberValue(s, 10))
  {
    assert TrimStart(s) == s;
    DigitPrefixAll(s, 10);
  }

  lemma {:induction false} DigitPrefixAll(s: string, radix: nat)
    requires radix == 10 || radix == 16
    requires forall i :: 0 <= i < |s| ==> DigitValue(s[i], radix).Some?
    ensures DigitPrefix(s, radix) == s
  {
    if s != [] {
      DigitPrefixAll(s[1..], radix);
    }
  }

  /** `toLowerCase` on the ASCII letters. Every other character is left as
      it is; no non-ASCII character lower-cases to a letter of "approved",
      so a comparison against that word sees no difference. */
  function LowerAscii(s: string): (r: string)
    ensures |r| == |s|
    ensures forall i :: 0 <= i < |s| ==> r[i] == (if 'A' <= s[i] <= 'Z' then (s[i] as int + 32) as char else s[i])
  {
    if s == [] then []
    else [if 'A' <= s[0] <= 'Z' then (s[0] as int + 32) as char else s[0]] + LowerAscii(s[1..])
  }

  /** Characters `encodeURIComponent` leaves unescaped. */
  predicate IsUriUnreserved(c: char)
  {
    ('a' <= c <= 'z') || ('A' <= c <= 'Z') || ('0' <= c <= '9')
    || c == '-' || c == '_' || c == '.' || c == '!' || c == '~' || c == '*'
    || c == '\'' || c == '(' || c == ')'
  }

  predicate IsUpperHex(c: char)
  {
    ('0' <= c <= '9') || ('A' <= c <= 'F')
  }

  function UpperHexDigit(n: nat): (c: char)
    requires n < 16
    ensures IsUpperHex(c)
  {
    if n < 10 then (48 + n) as char else (55 + n) as char
  }

  /** The UTF-8 encoding of one code point. */
  function Utf8(c: char): (bytes: seq<nat>)
    ensures 1 <= |bytes| <= 4
    ensures forall i :: 0 <= i < |bytes| ==> bytes[i] < 256
    ensures (c as int < 0x80) <==> bytes == [c as int]
  {
    var n := c as int;
    if n < 0x80 then [n]
    else if n < 0x800 then [0xC0 + n / 64, 0x80 + n % 64]
    else if n < 0x10000 then [0xE0 + n / 4096, 0x80 + (n / 64) % 64, 0x80 + n % 64]
    else [0xF0 + n / 262144, 0x80 + (n / 4096) % 64, 0x80 + (n / 64) % 64, 0x80 + n % 64]
  }

  function PercentBytes(bytes: seq<nat>): (r: string)
    requires forall i :: 0 <= i < |bytes| ==> bytes[i] < 256
    ensures |r| == 3 * |bytes|
    ensures forall i :: 0 <= i < |r| ==> r[i] == '%' || IsUpperHex(r[i])
  {
    if bytes == [] then []
    else ['%', UpperHexDigit(bytes[0] / 16), UpperHexDigit(bytes[0] % 16)] + PercentBytes(bytes[1..])
  }

  function EncodeChar(c: char): string
  {
    if IsUriUnreserved(c) then [c] else PercentBytes(Utf8(c))
  }

  /** `encodeURIComponent`. */
  function EncodeUriComponent(s: string): (r: string)
  {
    if s == [] then [] else EncodeChar(s[0]) + EncodeUriComponent(s[1..])
  }

  /** The encoded text holds only unreserved characters and `%XX` escapes, so
      it contains no '/', '?', '#', '&' or space and stays one URL path
      segment. */
  lemma {:induction false} EncodedIsSafe(s: string)
    ensures forall i :: 0 <= i < |EncodeUriComponent(s)| ==>
      IsUriUnreserved(EncodeUriComponent(s)[i]) || EncodeUriComponent(s)[i] == '%' || IsUpperHex(EncodeUriComponent(s)[i])
  {
    if s != [] {
      EncodedIsSafe(s[1..]);
      var e := EncodeChar(s[0]);
      assert forall i :: 0 <= i < |e| ==> IsUriUnreserved(e[i]) || e[i] == '%' || IsUpperHex(e[i]);
    }
  }

  /** A string of unreserved characters is left as it is. */
  lemma {:induction false} EncodeUnreservedIdentity(s: string)
    requires forall i :: 0 <= i < |s| ==> IsUriUnreserved(s[i])
    ensures EncodeUriComponent(s) == s
  {
    if s != [] {
      EncodeUnreservedIdentity(s[1..]);
    }
  }

  /** A space is written as %20 and a slash as %2F. */
  lemma EncodeSpaceAndSlash()
    ensures EncodeUriComponent(" ") == "%20"
    ensures EncodeUriComponent("/") == "%2F"
  {
    assert EncodeChar(' ') == "%20";
    assert EncodeChar('/') == "%2F";
  }
}
