/** `urlDecode` of `src/wifi/web_server.cpp`: '+' becomes a space and `%XX`
    becomes one byte, in the manner of section 2.1 of RFC 3986 and of the
    application/x-www-form-urlencoded parser of section 5.1 of the WHATWG URL
    Standard, but without their checks: the two characters after '%' are
    handed to `strtol` whatever they are, and a '%' with fewer than two
    characters after it is dropped. */
module UrlDecoding {

  predicate IsHexDigit(c: char) {
    '0' <= c <= '9' || 'a' <= c <= 'f' || 'A' <= c <= 'F'
  }

  function HexValue(c: char): (v: nat)
    requires IsHexDigit(c)
    ensures v < 16
  {
    if '0' <= c <= '9' then c as int - '0' as int
    else if 'a' <= c <= 'f' then c as int - 'a' as int + 10
    else c as int - 'A' as int + 10
  }

  /** The white-space characters of C's `isspace` in the "C" locale. */
  predicate IsCSpace(c: char) {
    c == ' ' || '\t' <= c <= '\r'
  }

  /** `strtol(s, NULL, 16)` on the two-character string `[a, b]`, as section
      7.22.1.4 of ISO C 11 defines it: optional leading white space, an
      optional sign, then the longest run of hex digits; 0 when no digit
      is read. */
  function Strtol16(a: char, b: char): (v: int)
    ensures IsHexDigit(a) && IsHexDigit(b) ==> v == 16 * HexValue(a) + HexValue(b)
    ensures IsHexDigit(a) && !IsHexDigit(b) ==> v == HexValue(a)
    ensures (IsCSpace(a) || a == '+') && IsHexDigit(b) ==> v == HexValue(b)
    ensures a == '-' && IsHexDigit(b) ==> v == -(HexValue(b) as int)
    ensures !IsHexDigit(b) && !IsHexDigit(a) ==> v == 0
    ensures !IsHexDigit(a) && !IsCSpace(a) && a != '+' && a != '-' ==> v == 0
    ensures -15 <= v <= 255
  {
    if IsCSpace(a) || a == '+' then (if IsHexDigit(b) then HexValue(b) else 0)
    else if a == '-' then (if IsHexDigit(b) then -(HexValue(b) as int) else 0)
    else if IsHexDigit(a) then (if IsHexDigit(b) then 16 * HexValue(a) + HexValue(b) else HexValue(a))
    else 0
  }

  /** The byte a `%ab` escape appends: the `strtol` value cast to `char`,
      that is, reduced modulo 256. */
  function EscapeByte(a: char, b: char): (c: char)
    ensures c as int < 256
    ensures IsHexDigit(a) && IsHexDigit(b) ==> c as int == 16 * HexValue(a) + HexValue(b)
  {
    var v := Strtol16(a, b);
    var m := v % 256;
    assert 0 <= m < 256;
    assert IsHexDigit(a) && IsHexDigit(b) ==> m == v by {
      if IsHexDigit(a) && IsHexDigit(b) {
        assert 0 <= v < 256;
      }
    }
    m as char
  }

  /** The decoded text, as a reference definition over the input. */
  function UrlDecode(s: seq<char>): (r: seq<char>)
    decreases |s|
    ensures |r| <= |s|
  {
    if |s| == 0 then []
    else if s[0] == '+' then [' '] + UrlDecode(s[1..])
    else if s[0] == '%' then
      if 2 < |s| then [EscapeByte(s[1], s[2])] + UrlDecode(s[3..])
      else UrlDecode(s[1..])
    else [s[0]] + UrlDecode(s[1..])
  }

  /** `urlDecode` as the firmware writes it: one pass over the input with an
      index that skips the two characters of an escape. */
  method UrlDecodeLoop(str: seq<char>) returns (decoded: seq<char>)
    ensures decoded == UrlDecode(str)
  {
    decoded := [];
    var i := 0;
    while i < |str|
      invariant 0 <= i <= |str|
      invariant decoded + UrlDecode(str[i..]) == UrlDecode(str)
    {
      DecodeAt(str, i);
      if str[i] == '+' {
        AppendDecoded(decoded, [' '], UrlDecode(str[i + 1..]));
        decoded := decoded + [' '];
      } else if str[i] == '%' {
        if i + 2 < |str| {
          var c := EscapeByte(str[i + 1], str[i + 2]);
          AppendDecoded(decoded, [c], UrlDecode(str[i + 3..]));
          decoded := decoded + [c];
          i := i + 2;
        }
      } else {
        AppendDecoded(decoded, [str[i]], UrlDecode(str[i + 1..]));
        decoded := decoded + [str[i]];
      }
      i := i + 1;
    }
  }

  /** Moving decoded output from the rest to the result keeps the sum. */
  lemma AppendDecoded(done: seq<char>, out: seq<char>, rest: seq<char>)
    ensures (done + out) + rest == done + (out + rest)
  {
  }

  /** The decoding of the text from `i` on, by the character at `i`. */
  lemma DecodeAt(s: seq<char>, i: nat)
    requires i < |s|
    ensures s[i] == '+' ==> UrlDecode(s[i..]) == [' '] + UrlDecode(s[i + 1..])
    ensures s[i] == '%' && i + 2 < |s| ==>
              UrlDecode(s[i..]) == [EscapeByte(s[i + 1], s[i + 2])] + UrlDecode(s[i + 3..])
    ensures s[i] == '%' && i + 2 >= |s| ==> UrlDecode(s[i..]) == UrlDecode(s[i + 1..])
    ensures s[i] != '+' && s[i] != '%' ==> UrlDecode(s[i..]) == [s[i]] + UrlDecode(s[i + 1..])
  {
    assert s[i..][1..] == s[i + 1..];
    if i + 2 < |s| {
      assert s[i..][3..] == s[i + 3..];
    }
  }

  /** How each kind of input character is decoded: '+' gives a space, any
      other character except '%' is copied, a '%' with two characters after
      it gives one byte and consumes three characters, and a '%' with fewer
      than two characters after it is dropped. */
  lemma UrlDecodeCases(c: char, a: char, b: char, rest: seq<char>)
    ensures UrlDecode(['+'] + rest) == [' '] + UrlDecode(rest)
    ensures c != '+' && c != '%' ==> UrlDecode([c] + rest) == [c] + UrlDecode(rest)
    ensures UrlDecode(['%', a, b] + rest) == [EscapeByte(a, b)] + UrlDecode(rest)
    ensures UrlDecode(['%']) == [] && UrlDecode(['%', a]) == UrlDecode([a])
  {
    assert (['+'] + rest)[1..] == rest;
    assert ([c] + rest)[1..] == rest;
    assert (['%', a, b] + rest)[3..] == rest;
    assert ['%', a][1..] == [a];
  }

  /** Text with no '+' and no '%' comes back unchanged. */
  lemma {:induction false} PlainTextUnchanged(s: seq<char>)
    requires forall i :: 0 <= i < |s| ==> s[i] != '+' && s[i] != '%'
    ensures UrlDecode(s) == s
    decreases |s|
  {
    if |s| > 0 {
      PlainTextUnchanged(s[1..]);
    }
  }

  /** Upper-case hex digit for a value below 16. */
  function HexDigitChar(v: nat): (c: char)
    requires v < 16
    ensures IsHexDigit(c) && HexValue(c) == v
  {
    if v < 10 then ('0' as int + v) as char else ('A' as int + v - 10) as char
  }

  /** Characters a form encoder leaves as they are: ASCII letters and digits
      and `*-._`. */
  predicate IsFormSafe(c: char) {
    'a' <= c <= 'z' || 'A' <= c <= 'Z' || '0' <= c <= '9'
    || c == '*' || c == '-' || c == '.' || c == '_'
  }

  /** The form encoding of one byte-sized character, as the
      application/x-www-form-urlencoded serializer writes it. */
  function FormEncodeChar(c: char): seq<char>
    requires c as int < 256
  {
    if c == ' ' then "+"
    else if IsFormSafe(c) then [c]
    else ['%', HexDigitChar(c as int / 16), HexDigitChar(c as int % 16)]
  }

  /** Every character of `s` fits in a byte, as in the firmware's `String`. */
  predicate IsByteText(s: seq<char>) {
    forall i :: 0 <= i < |s| ==> s[i] as int < 256
  }

  /** The form encoding of a string of byte-sized characters. */
  function FormEncode(s: seq<char>): seq<char>
    requires IsByteText(s)
  {
    if |s| == 0 then [] else FormEncodeChar(s[0]) + FormEncode(s[1..])
  }

  /** Decoding undoes form encoding, for every string of byte-sized
      characters. */
  lemma {:induction false} DecodeUndoesFormEncode(s: seq<char>)
    requires IsByteText(s)
    ensures UrlDecode(FormEncode(s)) == s
    decreases |s|
  {
    if |s| > 0 {
      var c := s[0];
      var rest := FormEncode(s[1..]);
      DecodeUndoesFormEncode(s[1..]);
      UrlDecodeCases(c, HexDigitChar(c as int / 16), HexDigitChar(c as int % 16), rest);
      assert FormEncode(s) == FormEncodeChar(c) + rest;
      if c == ' ' {
        assert FormEncodeChar(c) + rest == ['+'] + rest;
      } else if IsFormSafe(c) {
        assert FormEncodeChar(c) + rest == [c] + rest;
      } else {
        assert FormEncodeChar(c) + rest
            == ['%', HexDigitChar(c as int / 16), HexDigitChar(c as int % 16)] + rest;
      }
    }
  }
}
