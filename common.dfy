/** Vocabulary shared by the route, page and media models: optional values,
    the outcome of a PHP call that may throw, PHP's truthiness of strings,
    `strtolower` on ASCII and decimal rendering of integers. */
module Common {

  datatype Option<+T> = None | Some(value: T)

  /** What a PHP call did: it returned a value, or it threw an exception
      carrying a message. */
  datatype Outcome<+T> = Returned(value: T) | Raised(message: string)

  /** A PHP string in a boolean context: only "" and "0" are false. */
  predicate Truthy(s: string) {
    s != "" && s != "0"
  }

  predicate IsUpper(c: char) {
    'A' <= c <= 'Z'
  }

  /** `strtolower` on one character: ASCII upper-case letters only. */
  function LowerChar(c: char): char {
    if IsUpper(c) then (c as int + 32) as char else c
  }

  /** `strtolower` on a string. */
  function LowerStr(s: string): (r: string)
    ensures |r| == |s|
    ensures forall i :: 0 <= i < |s| ==> r[i] == LowerChar(s[i])
  {
    seq(|s|, i requires 0 <= i < |s| => LowerChar(s[i]))
  }

  /** Lower-casing never produces an upper-case letter, so it is idempotent,
      and it moves no punctuation: in particular not `{`, `}` or `[`. */
  lemma LowerCharFacts(c: char)
    ensures !IsUpper(LowerChar(c))
    ensures LowerChar(LowerChar(c)) == LowerChar(c)
    ensures (LowerChar(c) == '{') == (c == '{')
    ensures (LowerChar(c) == '}') == (c == '}')
    ensures (LowerChar(c) == '[') == (c == '[')
  {
  }

  function DigitChar(d: nat): char
    requires d < 10
  {
    ('0' as int + d) as char
  }

  /** PHP's decimal rendering of a non-negative integer, as used when an
      integer is concatenated onto a string. */
  function NatToString(n: nat): (r: string)
    ensures |r| >= 1
    ensures forall i :: 0 <= i < |r| ==> '0' <= r[i] <= '9'
    ensures (r[0] == '0') == (n == 0)
    decreases n
  {
    if n < 10 then [DigitChar(n)] else NatToString(n / 10) + [DigitChar(n % 10)]
  }

  /** The number a string of decimal digits denotes. */
  function DigitsValue(s: string): nat
    requires forall i :: 0 <= i < |s| ==> '0' <= s[i] <= '9'
  {
    if s == [] then 0
    else DigitsValue(s[..|s| - 1]) * 10 + (s[|s| - 1] as int - '0' as int)
  }

  /** The rendering denotes the number it renders, with no leading zero. */
  lemma {:induction false} NatToStringValue(n: nat)
    ensures DigitsValue(NatToString(n)) == n
    ensures |NatToString(n)| > 1 ==> NatToString(n)[0] != '0'
    decreases n
  {
    var r := NatToString(n);
    if n >= 10 {
      NatToStringValue(n / 10);
      assert r[..|r| - 1] == NatToString(n / 10);
    }
  }

  /** PHP's decimal rendering of any integer. */
  function IntToString(i: int): (r: string)
    ensures |r| >= 1
  {
    if i >= 0 then NatToString(i) else "-" + NatToString(-i)
  }
}
