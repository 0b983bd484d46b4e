/** The Indian mobile-number pattern `PHONE_REGEX`,
    `(?:(?:\+|00)?91[\s\-]?)?[6-9]\d{9}`, as a whole-string recogniser:
    an optional country code (`+91`, `0091` or `91`, then at most one
    whitespace character or hyphen), then a digit 6 to 9 and nine more
    digits. `PhoneSpec` reads the pattern as "some split of the string
    matches the parts in turn"; `MatchesPhone` decides it left to right. */
module PhonePattern {
  import opened Common

  /** `\d`, restricted to the ASCII digits. */
  predicate IsDigit(c: char)
  {
    '0' <= c <= '9'
  }

  /** `\s` on a `str` pattern: every character Python's `str.isspace`
      accepts. */
  predicate IsWhitespace(c: char)
  {
    var n := c as int;
    (0x09 <= n <= 0x0D) || (0x1C <= n <= 0x20) || n == 0x85 || n == 0xA0 || n == 0x1680
    || (0x2000 <= n <= 0x200A) || n == 0x2028 || n == 0x2029 || n == 0x202F || n == 0x205F
    || n == 0x3000
  }

  /** The character class `[\s\-]`. */
  predicate IsSeparator(c: char)
  {
    IsWhitespace(c) || c == '-'
  }

  /** `[6-9]\d{9}`: exactly ten digits, the first of them 6, 7, 8 or 9. */
  predicate IsMobile(s: string)
  {
    |s| == 10 && '6' <= s[0] <= '9' && forall i | 0 <= i < |s| :: IsDigit(s[i])
  }

  /** `(?:\+|00)?` */
  predicate IsLead(x: string)
  {
    x == "" || x == "+" || x == "00"
  }

  /** `[\s\-]?` */
  predicate IsSep(x: string)
  {
    x == "" || (|x| == 1 && IsSeparator(x[0]))
  }

  /** The split `s[..i]`, `s[i..j]`, `s[j..k]`, `s[k..]` matches the lead,
      the `91`, the optional separator and the mobile number. */
  predicate CountryCodeParse(s: string, i: int, j: int, k: int)
  {
    && 0 <= i <= j <= k <= |s|
    && IsLead(s[..i])
    && s[i..j] == "91"
    && IsSep(s[j..k])
    && IsMobile(s[k..])
  }

  /** The whole string matches the pattern: either the country-code group
      is absent, or some split matches it. */
  ghost predicate PhoneSpec(s: string)
  {
    IsMobile(s) || exists i, j, k :: CountryCodeParse(s, i, j, k)
  }

  /** A left-to-right recogniser: the lead is determined by the first
      character, then `91`, then at most one separator. */
  function MatchesPhone(s: string): bool
  {
    if IsMobile(s) then true
    else
      var lead := if StartsWith(s, "+") then 1 else if StartsWith(s, "00") then 2 else 0;
      var t := s[lead..];
      StartsWith(t, "91")
      && (IsMobile(t[2..]) || (|t| > 2 && IsSeparator(t[2]) && IsMobile(t[3..])))
  }

  /** Every string the recogniser accepts has the shape of the pattern. */
  lemma MatchesPhoneSound(s: string)
    requires MatchesPhone(s)
    ensures PhoneSpec(s)
  {
    if !IsMobile(s) {
      var lead := if StartsWith(s, "+") then 1 else if StartsWith(s, "00") then 2 else 0;
      var t := s[lead..];
      assert s[lead..lead + 2] == t[..2];
      if IsMobile(t[2..]) {
        assert t[2..] == s[lead + 2..];
        assert CountryCodeParse(s, lead, lead + 2, lead + 2);
      } else {
        assert t[2..3] == s[lead + 2..lead + 3];
        assert t[3..] == s[lead + 3..];
        assert CountryCodeParse(s, lead, lead + 2, lead + 3);
      }
    }
  }

  /** Every string of the pattern's shape is accepted: the recogniser's
      greedy choice of prefix is the only one possible. */
  lemma MatchesPhoneComplete(s: string)
    requires PhoneSpec(s)
    ensures MatchesPhone(s)
  {
    if !IsMobile(s) {
      var lead := if StartsWith(s, "+") then 1 else if StartsWith(s, "00") then 2 else 0;
      var t := s[lead..];
      var i, j, k :| CountryCodeParse(s, i, j, k);
      assert s[i] == '9' by { assert s[i..j][0] == s[i]; }
      if i == 1 {
        assert s[..1][0] == s[0];
      } else if i == 2 {
        assert s[..2][0] == s[0] && s[..2][1] == s[1];
        assert !StartsWith(s, "+") by { assert s[..1][0] == s[0]; }
      } else {
        assert !StartsWith(s, "+") by { assert s[..1][0] == s[0]; }
        assert !StartsWith(s, "00") by { assert s[..2][0] == s[0]; }
      }
      assert lead == i;
      assert t[..2] == s[i..j];
      if k == j {
        assert t[2..] == s[k..];
      } else {
        assert t[2] == s[j..k][0];
        assert t[3..] == s[k..];
      }
    }
  }

  /** The recogniser accepts exactly the strings the pattern describes. */
  lemma MatchesPhoneCorrect(s: string)
    ensures MatchesPhone(s) <==> PhoneSpec(s)
  {
    if MatchesPhone(s) {
      MatchesPhoneSound(s);
    }
    if PhoneSpec(s) {
      MatchesPhoneComplete(s);
    }
  }

  /** Ten digits led by 6 to 9 match on their own and behind `+91`, `0091`
      or `91`, with or without a hyphen or space after the country code. */
  lemma AcceptsMobileNumbers(m: string)
    requires IsMobile(m)
    ensures PhoneSpec(m)
    ensures PhoneSpec("+91" + m) && PhoneSpec("0091" + m) && PhoneSpec("91" + m)
    ensures PhoneSpec("+91-" + m) && PhoneSpec("+91 " + m) && PhoneSpec("0091-" + m)
  {
    var s := "+91" + m;
    assert CountryCodeParse(s, 1, 3, 3) by { assert s[..1] == "+" && s[1..3] == "91" && s[3..] == m; }
    s := "0091" + m;
    assert CountryCodeParse(s, 2, 4, 4) by { assert s[..2] == "00" && s[2..4] == "91" && s[4..] == m; }
    s := "91" + m;
    assert CountryCodeParse(s, 0, 2, 2) by { assert s[..0] == "" && s[0..2] == "91" && s[2..] == m; }
    s := "+91-" + m;
    assert CountryCodeParse(s, 1, 3, 4) by { assert s[..1] == "+" && s[1..3] == "91" && s[3..4] == "-" && s[4..] == m; }
    s := "+91 " + m;
    assert CountryCodeParse(s, 1, 3, 4) by { assert s[..1] == "+" && s[1..3] == "91" && s[3..4] == " " && s[4..] == m; }
    s := "0091-" + m;
    assert CountryCodeParse(s, 2, 4, 5) by { assert s[..2] == "00" && s[2..4] == "91" && s[4..5] == "-" && s[5..] == m; }
  }

  /** Every match ends in a mobile number and is 10 to 15 characters long. */
  lemma MatchShape(s: string)
    requires PhoneSpec(s)
    ensures 10 <= |s| <= 15
    ensures IsMobile(s[|s| - 10..])
  {
    if !IsMobile(s) {
      var i, j, k :| CountryCodeParse(s, i, j, k);
      assert i <= 2 by { assert |s[..i]| == i; }
      assert j == i + 2 by { assert |s[i..j]| == j - i; }
      assert k <= j + 1 by { assert |s[j..k]| == k - j; }
      assert |s[k..]| == |s| - k == 10;
      assert s[k..] == s[|s| - 10..];
    } else {
      assert s[|s| - 10..] == s;
    }
  }

  /** A ten-character string whose first digit is 0 to 5 never matches,
      with or without the rest being digits. */
  lemma RejectsLowLeadingDigit(s: string)
    requires |s| == 10 && '0' <= s[0] <= '5'
    ensures !PhoneSpec(s)
  {
  }
}
