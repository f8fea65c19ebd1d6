/**
 * The regular expressions the registration form tests its fields against,
 * each as a predicate over the field's text, next to a description of the
 * strings the expression matches.
 */
module Patterns {
  import opened Wrappers
  import opened JsStrings

  predicate Digits(s: string) {
    forall i | 0 <= i < |s| :: IsDigit(s[i])
  }

  /* ---------- email: /^[^\s@]+@[^\s@]+\.[^\s@]+$/ ---------- */

  /** `[^\s@]` */
  predicate EmailChar(c: char) {
    !IsSpace(c) && c != '@'
  }

  predicate EmailChars(s: string) {
    forall i | 0 <= i < |s| :: EmailChar(s[i])
  }

  /** What the email expression matches: `local@domain.tld`, three non-empty
      runs of `[^\s@]` cut at an `@` and at some later `.` (the domain may hold
      further dots). */
  ghost predicate EmailShape(s: string) {
    exists at, dot | 0 < at && at + 1 < dot && dot + 1 < |s| ::
      && s[at] == '@' && s[dot] == '.'
      && EmailChars(s[..at]) && EmailChars(s[at + 1..dot]) && EmailChars(s[dot + 1..])
  }

  /** Index of the first occurrence of `c` in `s`. */
  function IndexOf(s: string, c: char): (r: Option<nat>)
    ensures r.Some? ==> r.value < |s| && s[r.value] == c && c !in s[..r.value]
    ensures r.None? ==> c !in s
  {
    if s == [] then None
    else if s[0] == c then Some(0)
    else
      match IndexOf(s[1..], c)
      case None => None
      case Some(k) =>
        assert s[..k + 1] == [s[0]] + s[1..][..k];
        Some(k + 1)
  }

  /** A dot with at least one character on either side. */
  predicate HasInnerDot(r: string) {
    exists j | 0 < j < |r| - 1 :: r[j] == '.'
  }

  /** The email check as a scan: no whitespace, a first `@` that is not the
      first character and is the only one, and an inner dot after it. */
  predicate EmailOk(s: string) {
    && NoSpace(s)
    && match IndexOf(s, '@')
       case None => false
       case Some(at) => at > 0 && '@' !in s[at + 1..] && HasInnerDot(s[at + 1..])
  }

  lemma EmailOkIsShape(s: string)
    requires EmailOk(s)
    ensures EmailShape(s)
  {
    var at := IndexOf(s, '@').value;
    var domain := s[at + 1..];
    var j :| 0 < j < |domain| - 1 && domain[j] == '.';
    var dot := at + 1 + j;
    assert s[dot] == '.';
    forall i | 0 <= i < at ensures EmailChar(s[..at][i]) {
      assert s[..at][i] in s[..at];
    }
    var middle, tld := s[at + 1..dot], s[dot + 1..];
    forall i | 0 <= i < |middle| ensures EmailChar(middle[i]) {
      assert middle[i] == domain[i];
      assert domain[i] in domain;
    }
    forall i | 0 <= i < |tld| ensures EmailChar(tld[i]) {
      assert tld[i] == domain[j + 1 + i];
      assert domain[j + 1 + i] in domain;
    }
  }

  lemma EmailShapeIsOk(s: string)
    requires EmailShape(s)
    ensures EmailOk(s)
  {
    var at, dot :| 0 < at && at + 1 < dot && dot + 1 < |s|
      && s[at] == '@' && s[dot] == '.'
      && EmailChars(s[..at]) && EmailChars(s[at + 1..dot]) && EmailChars(s[dot + 1..]);
    forall i | 0 <= i < |s| ensures !IsSpace(s[i]) && (i != at ==> s[i] != '@') {
      if i < at {
        assert s[i] == s[..at][i];
      } else if at < i < dot {
        assert s[i] == s[at + 1..dot][i - at - 1];
      } else if dot < i {
        assert s[i] == s[dot + 1..][i - dot - 1];
      }
    }
    var first := IndexOf(s, '@');
    assert s[at] in s;
    assert first.value == at;
    var domain := s[at + 1..];
    assert '@' !in domain by {
      forall k | 0 <= k < |domain| ensures domain[k] != '@' {
        assert domain[k] == s[at + 1 + k];
      }
    }
    assert domain[dot - at - 1] == '.';
  }

  /** The scan accepts exactly the strings the email expression matches. */
  lemma EmailOkIffShape(s: string)
    ensures EmailOk(s) <==> EmailShape(s)
  {
    if EmailOk(s) { EmailOkIsShape(s); }
    if EmailShape(s) { EmailShapeIsOk(s); }
  }

  /** An accepted email holds exactly one `@`. */
  lemma EmailSingleAt(s: string)
    requires EmailOk(s)
    ensures multiset(s)['@'] == 1
  {
    var at := IndexOf(s, '@').value;
    assert s == s[..at] + [s[at]] + s[at + 1..];
    assert '@' !in multiset(s[..at]);
    assert '@' !in multiset(s[at + 1..]);
    assert multiset(s) == multiset(s[..at]) + multiset([s[at]]) + multiset(s[at + 1..]);
  }

  /* ---------- phone: /^\(\d{3}\) \d{3}-\d{4}$/ ---------- */

  predicate PhoneOk(s: string) {
    && |s| == 14
    && s[0] == '(' && Digits(s[1..4]) && s[4] == ')' && s[5] == ' '
    && Digits(s[6..9]) && s[9] == '-' && Digits(s[10..])
  }

  /** The phone number `(area) exchange-line`. */
  function FormatPhone(area: string, exchange: string, line: string): string {
    "(" + area + ") " + exchange + "-" + line
  }

  ghost predicate PhoneShape(s: string) {
    exists area, exchange, line
      | |area| == 3 && |exchange| == 3 && |line| == 4
        && Digits(area) && Digits(exchange) && Digits(line)
      :: s == FormatPhone(area, exchange, line)
  }

  lemma FormatPhoneSlices(area: string, exchange: string, line: string)
    requires |area| == 3 && |exchange| == 3 && |line| == 4
    ensures var s := FormatPhone(area, exchange, line);
      && |s| == 14 && s[0] == '(' && s[4] == ')' && s[5] == ' ' && s[9] == '-'
      && s[1..4] == area && s[6..9] == exchange && s[10..] == line
  {
  }

  /** The phone check accepts exactly the formatted three-three-four digit numbers. */
  lemma PhoneOkIffShape(s: string)
    ensures PhoneOk(s) <==> PhoneShape(s)
  {
    if PhoneOk(s) {
      var area, exchange, line := s[1..4], s[6..9], s[10..];
      FormatPhoneSlices(area, exchange, line);
      var f := FormatPhone(area, exchange, line);
      assert forall i | 0 <= i < 14 :: f[i] == s[i] by {
        forall i | 0 <= i < 14 ensures f[i] == s[i] {
          if 1 <= i < 4 { assert f[i] == f[1..4][i - 1]; }
          else if 6 <= i < 9 { assert f[i] == f[6..9][i - 6]; }
          else if 10 <= i { assert f[i] == f[10..][i - 10]; }
        }
      }
      assert s == f;
    }
    if PhoneShape(s) {
      var area, exchange, line :| |area| == 3 && |exchange| == 3 && |line| == 4
        && Digits(area) && Digits(exchange) && Digits(line)
        && s == FormatPhone(area, exchange, line);
      FormatPhoneSlices(area, exchange, line);
    }
  }

  lemma PhoneExamples()
    ensures PhoneOk("(703) 982-1400")
    ensures !PhoneOk("703-982-1400")
  {
    assert "(703) 982-1400" == FormatPhone("703", "982", "1400");
  }

  /* ---------- card fields ---------- */

  /** `/^\d{16}$/.test(cardNumber.replace(/\s/g, ''))` */
  predicate CardNumberOk(s: string) {
    var d := StripSpaces(s);
    |d| == 16 && Digits(d)
  }

  /** A card number typed without spaces is accepted exactly at 16 digits;
      in particular 15 digits are refused. */
  lemma CardNumberOfDigits(s: string)
    requires Digits(s)
    ensures CardNumberOk(s) <==> |s| == 16
  {
    StripSpacesNoSpace(s);
  }

  lemma StripSpacesAroundSpace(x: string, y: string)
    ensures StripSpaces(x + " " + y) == StripSpaces(x) + StripSpaces(y)
  {
    StripSpacesAppend(x + " ", y);
    StripSpacesAppend(x, " ");
    assert StripSpaces(" ") == [];
  }

  /** Spaces between the four groups are ignored. */
  lemma CardNumberGroups(a: string, b: string, c: string, d: string)
    requires |a| == |b| == |c| == |d| == 4
    requires Digits(a) && Digits(b) && Digits(c) && Digits(d)
    ensures CardNumberOk(a + " " + b + " " + c + " " + d)
  {
    StripSpacesNoSpace(a);
    StripSpacesNoSpace(b);
    StripSpacesNoSpace(c);
    StripSpacesNoSpace(d);
    StripSpacesAroundSpace(a, b);
    StripSpacesAroundSpace(a + " " + b, c);
    StripSpacesAroundSpace(a + " " + b + " " + c, d);
    var digits := a + b + c + d;
    assert StripSpaces(a + " " + b + " " + c + " " + d) == digits;
    assert forall i | 0 <= i < 16 :: IsDigit(digits[i]) by {
      forall i | 0 <= i < 16 ensures IsDigit(digits[i]) {
        if i < 4 { assert digits[i] == a[i]; }
        else if i < 8 { assert digits[i] == b[i - 4]; }
        else if i < 12 { assert digits[i] == c[i - 8]; }
        else { assert digits[i] == d[i - 12]; }
      }
    }
  }

  /** `/^\d{2}\/\d{2}$/` */
  predicate ExpiryOk(s: string) {
    |s| == 5 && Digits(s[..2]) && s[2] == '/' && Digits(s[3..])
  }

  /** Any two digits, a slash and two digits pass: there is no month range. */
  lemma ExpiryAnyDigits(mm: string, yy: string)
    requires |mm| == 2 && |yy| == 2 && Digits(mm) && Digits(yy)
    ensures ExpiryOk(mm + "/" + yy)
  {
    var s := mm + "/" + yy;
    assert s[..2] == mm && s[3..] == yy;
  }

  /** `/^\d{3,4}$/` */
  predicate CvvOk(s: string) {
    (|s| == 3 || |s| == 4) && Digits(s)
  }

  /** `99/99` passes the expiry check and a one-digit month does not; a CVV
      has three or four digits and nothing else. */
  lemma CardFieldExamples()
    ensures ExpiryOk("99/99") && !ExpiryOk("9/99")
    ensures CvvOk("123") && CvvOk("1234") && !CvvOk("12") && !CvvOk("12345") && !CvvOk("12a")
  {
    ExpiryAnyDigits("99", "99");
    assert "99" + "/" + "99" == "99/99";
    assert "12a"[2] == 'a';
  }
}
