/** The parts of the Arduino `String` class the web layer relies on:
    `indexOf` for a character and for a string, `substring` with its
    unsigned arguments, and the decimal rendering of `String(unsigned long)`.
    Strings are sequences of characters; the model assumes they hold no NUL
    character. */
module ArduinoString {

  /** `s.indexOf(c, from)`: the first index at or after `from` holding `c`,
      or -1. */
  function IndexOfChar(s: seq<char>, c: char, from: nat): (r: int)
    decreases |s| - from
    ensures r == -1 || from <= r < |s|
    ensures r == -1 <==> forall i :: from <= i < |s| ==> s[i] != c
    ensures r != -1 ==> s[r] == c && forall i :: from <= i < r ==> s[i] != c
  {
    if from >= |s| then -1
    else if s[from] == c then from
    else IndexOfChar(s, c, from + 1)
  }

  /** `pat` occurs in `s` starting at index `i`. */
  predicate OccursAt(s: seq<char>, pat: seq<char>, i: int) {
    0 <= i && i + |pat| <= |s| && s[i..i + |pat|] == pat
  }

  /** `s.indexOf(pat, from)`: the first index at or after `from` where `pat`
      occurs, or -1 (also -1 whenever `from` is past the last character). */
  function IndexOfStr(s: seq<char>, pat: seq<char>, from: nat): (r: int)
    decreases |s| - from
    ensures r == -1 || (from <= r < |s| && OccursAt(s, pat, r))
    ensures r != -1 ==> forall i :: from <= i < r ==> !OccursAt(s, pat, i)
    ensures r == -1 ==> forall i :: from <= i < |s| ==> !OccursAt(s, pat, i)
  {
    if from >= |s| then -1
    else if OccursAt(s, pat, from) then from
    else IndexOfStr(s, pat, from + 1)
  }

  /** The first occurrence of `c` at or after `from` is what `indexOf`
      finds. */
  lemma IndexOfCharIs(s: seq<char>, c: char, from: nat, k: int)
    requires from <= k < |s| && s[k] == c
    requires forall i :: from <= i < k ==> s[i] != c
    ensures IndexOfChar(s, c, from) == k
  {
  }

  /** After a run of text free of `c`, the next `c` is the first one
      found from the start of the run. */
  lemma IndexOfCharAfterRun(s: seq<char>, c: char, from: nat, run: seq<char>)
    requires from + |run| < |s| && s[from..from + |run|] == run
    requires c !in run && s[from + |run|] == c
    ensures IndexOfChar(s, c, from) == from + |run|
  {
    forall i | from <= i < from + |run| ensures s[i] != c {
      assert s[i] == run[i - from];
    }
    IndexOfCharIs(s, c, from, from + |run|);
  }

  /** The first occurrence of `pat` at or after `from` is what `indexOf`
      finds. */
  lemma IndexOfStrIs(s: seq<char>, pat: seq<char>, from: nat, k: int)
    requires from <= k < |s| && OccursAt(s, pat, k)
    requires forall i :: from <= i < k ==> !OccursAt(s, pat, i)
    ensures IndexOfStr(s, pat, from) == k
  {
  }

  const UIntModulus: nat := 0x1_0000_0000

  /** The conversion of a C++ `int` argument to the `unsigned int` parameter
      of `substring`: -1 becomes 2^32 - 1. */
  function Unsigned(x: int): (r: nat)
    ensures r < UIntModulus
    ensures 0 <= x < UIntModulus ==> r == x
    ensures x == -1 ==> r == UIntModulus - 1
  {
    x % UIntModulus
  }

  /** `s.substring(left, right)`: swaps reversed bounds, yields the empty
      string when `left` is past the end, and clips `right` to the length. */
  function Substring(s: seq<char>, left: nat, right: nat): (r: seq<char>)
    ensures left <= right <= |s| ==> r == s[left..right]
    ensures left <= |s| <= right ==> r == s[left..]
    ensures |r| <= |s|
  {
    if left > right then Substring(s, right, left)
    else if left > |s| then []
    else s[left..if right > |s| then |s| else right]
  }

  /** The character for a decimal digit. */
  function DigitChar(d: nat): (c: char)
    requires d < 10
    ensures '0' <= c <= '9' && c as int - '0' as int == d
  {
    ('0' as int + d) as char
  }

  predicate IsDigits(s: seq<char>) {
    forall i :: 0 <= i < |s| ==> '0' <= s[i] <= '9'
  }

  /** `String(n)` for an `unsigned long`: decimal digits, no leading zero. */
  function NatToDecimal(n: nat): (r: seq<char>)
    decreases n
    ensures |r| >= 1 && IsDigits(r)
    ensures |r| > 1 ==> r[0] != '0'
  {
    if n < 10 then [DigitChar(n)] else NatToDecimal(n / 10) + [DigitChar(n % 10)]
  }

  /** The number a string of decimal digits denotes. */
  function DecimalValue(s: seq<char>): nat
    requires IsDigits(s)
  {
    if |s| == 0 then 0
    else DecimalValue(s[..|s| - 1]) * 10 + (s[|s| - 1] as int - '0' as int)
  }

  /** Reading back the decimal rendering gives the number rendered. */
  lemma {:induction false} DecimalRoundTrip(n: nat)
    ensures DecimalValue(NatToDecimal(n)) == n
  {
    if n >= 10 {
      DecimalRoundTrip(n / 10);
      var r := NatToDecimal(n);
      assert r[..|r| - 1] == NatToDecimal(n / 10);
    }
  }
}
