/**
 * The field validators of validation.js: the CPF check-digit rule
 * (`validateCPF`) and the minimum-age rule (`validateAge`).
 */
module Validators {
  import opened JsStrings
  import opened Masks

  /* ---------------- CPF ---------------- */

  /** `parseInt(c, 10)` on a single decimal digit. */
  function DigitValue(c: char): (d: int)
    ensures IsDigit(c) ==> 0 <= d <= 9
  {
    c as int - '0' as int
  }

  /** The weighted sum of the first `n` digits of `s`, digit `i` weighted by `t - i`. */
  function WeightedSum(s: string, t: int, n: nat): int
    requires n <= |s|
  {
    if n == 0 then 0 else WeightedSum(s, t, n - 1) + DigitValue(s[n - 1]) * (t - (n - 1))
  }

  /** `calc(t)`: 11 minus the weighted sum of the first `t - 1` digits modulo 11,
      with 10 and 11 mapped to 0. */
  function CheckDigit(s: string, t: nat): (d: int)
    requires 1 <= t <= |s| + 1
    ensures 0 <= d <= 9
  {
    var x := 11 - WeightedSum(s, t, t - 1) % 11;
    if x >= 10 then 0 else x
  }

  /** The same rule in its textbook form: ten times the sum, modulo 11, modulo 10. */
  lemma CheckDigitTextbookForm(s: string, t: nat)
    requires 1 <= t <= |s| + 1
    ensures CheckDigit(s, t) == (10 * WeightedSum(s, t, t - 1)) % 11 % 10
  {
    var w := WeightedSum(s, t, t - 1);
    var q, r := w / 11, w % 11;
    assert w == 11 * q + r;
    assert 10 * w == 110 * q + 10 * r;
    if r == 0 {
      assert (10 * w) % 11 == 0 by { assert 10 * w == 11 * (10 * q); }
    } else {
      assert (10 * w) % 11 == 11 - r by { assert 10 * w == 11 * (10 * q + r - 1) + (11 - r); }
    }
  }

  /** `/^(\d)\1+$/` on an 11-character string: every digit equals the first. */
  predicate AllSame(s: string)
  {
    forall i :: 0 <= i < |s| ==> s[i] == s[0]
  }

  /** `validateCPF`: exactly 11 digits after stripping, not all equal, and digits
      10 and 11 are the check digits of the first 9 and the first 10. */
  function IsValidCPF(raw: string): (r: bool)
    ensures var d := OnlyDigits(raw);
      r <==> && |d| == 11 && !AllSame(d)
             && DigitValue(d[9]) == (10 * WeightedSum(d, 10, 9)) % 11 % 10
             && DigitValue(d[10]) == (10 * WeightedSum(d, 11, 10)) % 11 % 10
  {
    var d := OnlyDigits(raw);
    if |d| == 11 then
      CheckDigitTextbookForm(d, 10);
      CheckDigitTextbookForm(d, 11);
      !AllSame(d) && DigitValue(d[9]) == CheckDigit(d, 10) && DigitValue(d[10]) == CheckDigit(d, 11)
    else false
  }

  /** The `calc` closure: the weighted sum accumulated in a loop. */
  method Calc(cpf: string, t: nat) returns (d: int)
    requires 1 <= t <= |cpf| + 1
    ensures d == CheckDigit(cpf, t)
  {
    var sum := 0;
    var i := 0;
    while i < t - 1
      invariant 0 <= i <= t - 1
      invariant sum == WeightedSum(cpf, t, i)
    {
      sum := sum + DigitValue(cpf[i]) * (t - i);
      i := i + 1;
    }
    d := 11 - sum % 11;
    if d >= 10 {
      d := 0;
    }
  }

  /** `validateCPF` as the script runs it. */
  method ValidateCPF(cpfRaw: string) returns (ok: bool)
    ensures ok == IsValidCPF(cpfRaw)
  {
    var cpf := OnlyDigits(cpfRaw);
    if |cpf| != 11 {
      return false;
    }
    if AllSame(cpf) {
      return false;
    }
    var d1 := Calc(cpf, 10);
    var d2 := Calc(cpf, 11);
    ok := d1 == DigitValue(cpf[9]) && d2 == DigitValue(cpf[10]);
  }

  /** Only the digits matter: a masked and an unmasked form of the same number
      (of at most 11 digits) are judged alike. */
  lemma ValidateCPFIgnoresMask(raw: string)
    requires |OnlyDigits(raw)| <= 11
    ensures IsValidCPF(MaskCPF(raw)) == IsValidCPF(raw)
  {
    MaskCPFDigits(raw);
  }

  /** The weighted sum reads only the first `n` digits. */
  lemma {:induction false} WeightedSumPrefix(s: string, s': string, t: int, n: nat)
    requires n <= |s| && n <= |s'| && s[..n] == s'[..n]
    ensures WeightedSum(s, t, n) == WeightedSum(s', t, n)
  {
    if n > 0 {
      assert s[n - 1] == s[..n][n - 1] == s'[n - 1];
      assert s[..n - 1] == s[..n][..n - 1] == s'[..n - 1];
      WeightedSumPrefix(s, s', t, n - 1);
    }
  }

  /** Changing only the tenth digit, or only the eleventh, of a valid CPF makes it invalid. */
  lemma CheckDigitDetectsChange(s: string, pos: nat, c: char)
    requires AllDigits(s) && IsValidCPF(s)
    requires pos == 9 || pos == 10
    requires IsDigit(c) && c != s[pos]
    ensures !IsValidCPF(s[pos := c])
  {
    var s' := s[pos := c];
    assert AllDigits(s');
    assert OnlyDigits(s) == s && OnlyDigits(s') == s';
    assert s[..pos] == s'[..pos];
    WeightedSumPrefix(s, s', pos + 1, pos);
    assert DigitValue(c) != DigitValue(s[pos]);
  }

  function Repeat(c: char, n: nat): (r: string)
    ensures |r| == n && forall i :: 0 <= i < n ==> r[i] == c
  {
    if n == 0 then [] else Repeat(c, n - 1) + [c]
  }

  /** The sum of the weights `t - i` for `i < n`. */
  function WeightTotal(t: int, n: nat): int
  {
    if n == 0 then 0 else WeightTotal(t, n - 1) + (t - (n - 1))
  }

  /** The weighted sum of a repeated digit is that digit times the sum of the weights. */
  lemma {:induction false} WeightedSumRepeat(c: char, t: int, n: nat)
    ensures WeightedSum(Repeat(c, n), t, n) == DigitValue(c) * WeightTotal(t, n)
  {
    if n > 0 {
      var s := Repeat(c, n);
      assert s[..n - 1] == Repeat(c, n - 1)[..n - 1];
      WeightedSumPrefix(s, Repeat(c, n - 1), t, n - 1);
      WeightedSumRepeat(c, t, n - 1);
      var k := DigitValue(c);
      assert k * WeightTotal(t, n) == k * WeightTotal(t, n - 1) + k * (t - (n - 1));
    }
  }

  /** Eleven equal digits always satisfy both check digits, so the repeated-digit
      test is what rejects them. */
  lemma RepeatedDigitsPassChecksum(c: char)
    requires IsDigit(c)
    ensures var s := Repeat(c, 11);
      && DigitValue(s[9]) == CheckDigit(s, 10)
      && DigitValue(s[10]) == CheckDigit(s, 11)
      && !IsValidCPF(s)
  {
    var s := Repeat(c, 11);
    var k := DigitValue(c);
    WeightedSumPrefix(s, Repeat(c, 9), 10, 9);
    WeightedSumRepeat(c, 10, 9);
    WeightedSumPrefix(s, Repeat(c, 10), 11, 10);
    WeightedSumRepeat(c, 11, 10);
    assert WeightTotal(10, 9) == 54;
    assert WeightTotal(11, 10) == 65;
    assert WeightedSum(s, 10, 9) == 54 * k;
    assert WeightedSum(s, 11, 10) == 65 * k;
    assert (54 * k) % 11 == (if k == 0 then 0 else 11 - k) by {
      if k > 0 { assert 54 * k == 11 * (5 * k - 1) + (11 - k); }
    }
    assert (65 * k) % 11 == (if k == 0 then 0 else 11 - k) by {
      if k > 0 { assert 65 * k == 11 * (6 * k - 1) + (11 - k); }
    }
    assert OnlyDigits(s) == s;
    assert AllSame(s);
  }

  /* ---------------- Age ---------------- */

  /** A calendar date as (year, month, day); the script's `Date` objects are read only
      through these three fields. */
  datatype Date = Date(year: int, month: int, day: int)

  /** `a` falls on or before `b` in calendar order. */
  predicate OnOrBefore(a: Date, b: Date)
  {
    a.year < b.year || (a.year == b.year && (a.month < b.month || (a.month == b.month && a.day <= b.day)))
  }

  /** The date on which someone born on `birth` turns `years` old. */
  function Anniversary(birth: Date, years: int): Date
  {
    Date(birth.year + years, birth.month, birth.day)
  }

  /** Whole years from `birth` to `today`: the year difference, less one while today's
      (month, day) is still before the birth (month, day). */
  function AgeInYears(birth: Date, today: Date): int
  {
    var age := today.year - birth.year;
    var m := today.month - birth.month;
    if m < 0 || (m == 0 && today.day < birth.day) then age - 1 else age
  }

  /** `validateAge(dateString, minAge)` with the clock read as `today` and the date
      parser given as `parse` (`None` for an invalid date). True exactly when the
      string is non-empty, parses, and the `minAge`-th birthday is not after today. */
  function ValidateAge(dateString: string, parse: string -> Option<Date>, today: Date, minAge: int): (r: bool)
    ensures r <==> dateString != "" && parse(dateString).Some?
                   && OnOrBefore(Anniversary(parse(dateString).value, minAge), today)
  {
    if dateString == "" then false
    else match parse(dateString)
      case None => false
      case Some(birth) => AgeInYears(birth, today) >= minAge
  }

  /** Calendar order is transitive. */
  lemma OnOrBeforeTransitive(a: Date, b: Date, c: Date)
    requires OnOrBefore(a, b) && OnOrBefore(b, c)
    ensures OnOrBefore(a, c)
  {
  }

  /** Once old enough, always old enough. */
  lemma ValidateAgeMonotone(dateString: string, parse: string -> Option<Date>, today: Date, later: Date, minAge: int)
    requires ValidateAge(dateString, parse, today, minAge) && OnOrBefore(today, later)
    ensures ValidateAge(dateString, parse, later, minAge)
  {
    OnOrBeforeTransitive(Anniversary(parse(dateString).value, minAge), today, later);
  }

  /** Someone whose `minAge`-th birthday is today passes; one day earlier in the
      (month, day) comparison, with the day lowered by one, they do not. */
  lemma ValidateAgeOnBirthday(dateString: string, parse: string -> Option<Date>, minAge: int)
    requires dateString != "" && parse(dateString).Some?
    ensures var b := parse(dateString).value;
      && ValidateAge(dateString, parse, Anniversary(b, minAge), minAge)
      && !ValidateAge(dateString, parse, Date(b.year + minAge, b.month, b.day - 1), minAge)
  {
  }
}
