/**
 * The string rules the two form schemas share: `z.string().min(n)` and the
 * phone rule `z.string().min(10).regex(/^\d+$/).or(z.literal(""))`.
 */
module FormRules {

  /** `\d` of a JavaScript regular expression: an ASCII digit, `[0-9]`. */
  predicate IsDigit(c: char) {
    '0' <= c <= '9'
  }

  /** Every character is a digit, checked left to right. */
  predicate AllDigits(s: string)
    decreases |s|
  {
    s == [] || (IsDigit(s[0]) && AllDigits(s[1..]))
  }

  /** `/^\d+$/.test(s)`: one or more characters, all digits. */
  predicate MatchesDigits(s: string) {
    |s| > 0 && AllDigits(s)
  }

  /** `z.string().min(n)`. */
  predicate MinLength(s: string, n: nat) {
    |s| >= n
  }

  /** The phone schema: at least 10 characters and all digits, or the empty string. */
  predicate PhoneOk(s: string) {
    (MinLength(s, 10) && MatchesDigits(s)) || s == ""
  }

  /** The left-to-right scan accepts exactly the strings made of digits. */
  lemma {:induction false} AllDigitsIff(s: string)
    ensures AllDigits(s) <==> forall i :: 0 <= i < |s| ==> IsDigit(s[i])
    decreases |s|
  {
    if s != [] {
      AllDigitsIff(s[1..]);
      assert forall i :: 1 <= i < |s| ==> s[i] == s[1..][i - 1];
    }
  }

  /** A phone is accepted if and only if it is empty, or has at least 10 characters that are all digits. */
  lemma PhoneRule(s: string)
    ensures PhoneOk(s) <==> s == "" || (|s| >= 10 && forall i :: 0 <= i < |s| ==> IsDigit(s[i]))
  {
    AllDigitsIff(s);
  }
}
