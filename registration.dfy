/** Customer registration: the mobile-number check and its re-prompting loop. */
module Registration {
  import opened Wrappers

  /** What `\d` matches in a Java regular expression without UNICODE_CHARACTER_CLASS. */
  predicate IsAsciiDigit(c: char)
  {
    '0' <= c <= '9'
  }

  /**
   * Whether the whole of `s` matches the regular expression `\d{n}`, read the
   * way a matcher reads it: one digit at a time, n times, then end of input.
   */
  function MatchesDigits(s: string, n: nat): bool
  {
    if n == 0 then s == []
    else s != [] && IsAsciiDigit(s[0]) && MatchesDigits(s[1..], n - 1)
  }

  lemma {:induction false} MatchesDigitsIff(s: string, n: nat)
    ensures MatchesDigits(s, n) <==> |s| == n && forall i :: 0 <= i < |s| ==> IsAsciiDigit(s[i])
  {
    if n > 0 && s != [] {
      MatchesDigitsIff(s[1..], n - 1);
      assert forall i :: 1 <= i < |s| ==> s[i] == s[1..][i - 1];
    }
  }

  /** `mobileNumber.matches("\\d{10}")`: exactly ten ASCII digits, nothing else. */
  function IsValidMobileNumber(s: string): (ok: bool)
    ensures ok <==> |s| == 10 && forall i :: 0 <= i < |s| ==> IsAsciiDigit(s[i])
  {
    MatchesDigitsIff(s, 10);
    MatchesDigits(s, 10)
  }

  /**
   * Reads `lines` one at a time until one is a valid mobile number.  `used` is
   * how many lines were read.  None means the input ran out first (the program's
   * `nextLine` then throws).
   */
  method GetValidatedMobileNumber(lines: seq<string>) returns (r: Option<string>, used: nat)
    ensures used <= |lines|
    ensures r.Some? ==> 0 < used && r.value == lines[used - 1] && IsValidMobileNumber(r.value)
    ensures forall j :: 0 <= j < used - 1 ==> !IsValidMobileNumber(lines[j])
    ensures r.None? <==> forall j :: 0 <= j < |lines| ==> !IsValidMobileNumber(lines[j])
  {
    used := 0;
    while used < |lines|
      invariant used <= |lines|
      invariant forall j :: 0 <= j < used ==> !IsValidMobileNumber(lines[j])
    {
      var candidate := lines[used];
      used := used + 1;
      if IsValidMobileNumber(candidate) {
        return Some(candidate), used;
      }
    }
    r := None;
  }

  /** The sample inputs: too short, too long, separators, and a good number. */
  lemma SampleNumbers()
    ensures !IsValidMobileNumber("12345")
    ensures !IsValidMobileNumber("12345678901")
    ensures !IsValidMobileNumber("123-456-7890")
    ensures !IsValidMobileNumber("+919876543210")
    ensures IsValidMobileNumber("9876543210")
  {
    var good := "9876543210";
    assert forall i :: 0 <= i < |good| ==> IsAsciiDigit(good[i]) by {
      forall i | 0 <= i < |good| ensures IsAsciiDigit(good[i]) {
        assert good[i] in "0123456789";
      }
    }
  }
}
