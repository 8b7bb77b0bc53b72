// The custom "phone" binding tag: a phone number is either absent (the
// empty string) or exactly eleven ASCII digits, the regular expression
// ^[0-9]{11}$ anchored at both ends.

module Validators {
  import opened Text

  const PhoneLength: nat := 11

  /** The anchored regular expression ^[0-9]{n}$: n digits and nothing
      more, matched one repetition at a time. */
  predicate MatchesDigits(s: string, n: nat)
  {
    if n == 0 then |s| == 0
    else |s| > 0 && IsAsciiDigit(s[0]) && MatchesDigits(s[1..], n - 1)
  }

  /** validatePhone: the empty string, or a match of ^[0-9]{11}$. */
  predicate ValidPhone(phone: string)
  {
    phone == "" || MatchesDigits(phone, PhoneLength)
  }

  /** The repetition matches exactly the digit strings of length n. */
  lemma {:induction false} MatchesDigitsExactly(s: string, n: nat)
    ensures MatchesDigits(s, n) <==> |s| == n && forall k :: 0 <= k < |s| ==> IsAsciiDigit(s[k])
  {
    if n > 0 && |s| > 0 {
      MatchesDigitsExactly(s[1..], n - 1);
      if IsAsciiDigit(s[0]) && (forall k :: 0 <= k < |s[1..]| ==> IsAsciiDigit(s[1..][k])) {
        forall k | 0 <= k < |s|
          ensures IsAsciiDigit(s[k])
        {
          if k > 0 {
            assert s[k] == s[1..][k - 1];
          }
        }
      }
    }
  }

  /** The four cases of the phone rule: the empty string is accepted, a
      string of eleven digits is accepted, a non-empty string with a
      non-digit is refused, and a digit string of any other non-zero length
      is refused. */
  lemma PhoneRule(phone: string)
    ensures phone == "" ==> ValidPhone(phone)
    ensures |phone| == 11 && (forall k :: 0 <= k < |phone| ==> IsAsciiDigit(phone[k])) ==> ValidPhone(phone)
    ensures (exists k :: 0 <= k < |phone| && !IsAsciiDigit(phone[k])) ==> !ValidPhone(phone)
    ensures phone != "" && |phone| != 11 ==> !ValidPhone(phone)
  {
    MatchesDigitsExactly(phone, PhoneLength);
  }
}
