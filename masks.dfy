/**
 * The live input masks of validation.js: `onlyDigits` and the three
 * formatting masks for the CPF (Brazilian taxpayer number), the phone
 * number and the CEP (postal code). Each mask is the chain of regular
 * expression replacements the script applies, written as pattern-guarded
 * insertions over the digit string; the `ensures` clauses give the
 * resulting layout by number of digits.
 */
module Masks {
  import opened JsStrings

  predicate IsDigit(c: char)
  {
    '0' <= c <= '9'
  }

  predicate AllDigits(s: string)
  {
    forall i :: 0 <= i < |s| ==> IsDigit(s[i])
  }

  /** `value.replace(/\D/g, '')`: keeps the digits of `s`, in order. */
  function OnlyDigits(s: string): (r: string)
    ensures AllDigits(r)
    ensures |r| <= |s|
    ensures AllDigits(s) ==> r == s
  {
    if s == [] then []
    else (if IsDigit(s[0]) then [s[0]] else []) + OnlyDigits(s[1..])
  }

  /** Stripping distributes over concatenation. */
  lemma {:induction false} OnlyDigitsAppend(a: string, b: string)
    ensures OnlyDigits(a + b) == OnlyDigits(a) + OnlyDigits(b)
  {
    if a == [] {
      assert a + b == b;
    } else {
      assert (a + b)[1..] == a[1..] + b;
      OnlyDigitsAppend(a[1..], b);
    }
  }

  /** A string with no digit strips to the empty string. */
  lemma {:induction false} OnlyDigitsOfSeparators(s: string)
    requires forall i :: 0 <= i < |s| ==> !IsDigit(s[i])
    ensures OnlyDigits(s) == ""
  {
    if s != [] {
      OnlyDigitsOfSeparators(s[1..]);
    }
  }

  /** Stripping is idempotent. */
  lemma OnlyDigitsIdempotent(s: string)
    ensures OnlyDigits(OnlyDigits(s)) == OnlyDigits(s)
  {
  }

  function InsertAt(s: string, k: nat, c: char): (r: string)
    requires k <= |s|
  {
    s[..k] + [c] + s[k..]
  }

  /** `s` ends in a dash. */
  predicate EndsWithDash(s: string)
  {
    s != [] && s[|s| - 1] == '-'
  }

  /* ---------------- CPF: ddd.ddd.ddd-dd ---------------- */

  /** `.replace(/^(\d{3})(\d)/, '$1.$2')` */
  function CpfFirstDot(s: string): string
  {
    if |s| >= 4 && AllDigits(s[..4]) then InsertAt(s, 3, '.') else s
  }

  /** `.replace(/^(\d{3}\.\d{3})(\d)/, '$1.$2')` */
  function CpfSecondDot(s: string): string
  {
    if |s| >= 8 && AllDigits(s[..3]) && s[3] == '.' && AllDigits(s[4..8])
    then InsertAt(s, 7, '.') else s
  }

  /** `.replace(/^(\d{3}\.\d{3}\.\d{3})(\d{0,2})/, '$1-$2')`: the optional group
      keeps whatever follows, so the dash is inserted right after the prefix. */
  function CpfDash(s: string): string
  {
    if |s| >= 11 && AllDigits(s[..3]) && s[3] == '.' && AllDigits(s[4..7])
       && s[7] == '.' && AllDigits(s[8..11])
    then InsertAt(s, 11, '-') else s
  }

  lemma AllDigitsSlice(s: string, i: nat, j: nat)
    requires AllDigits(s) && i <= j <= |s|
    ensures AllDigits(s[i..j])
  {
    assert forall k :: 0 <= k < j - i ==> s[i..j][k] == s[i + k];
  }

  /** The first replacement on a digit string. */
  lemma CpfFirstDotOnDigits(v: string)
    requires AllDigits(v)
    ensures CpfFirstDot(v) == if |v| >= 4 then v[..3] + "." + v[3..] else v
  {
    if |v| >= 4 {
      AllDigitsSlice(v, 0, 4);
    }
  }

  /** The second replacement, after the first has put a dot after digit 3. */
  lemma CpfSecondDotOnDigits(v: string)
    requires AllDigits(v) && |v| >= 4
    ensures var a := v[..3] + "." + v[3..];
      CpfSecondDot(a) == if |v| >= 7 then v[..3] + "." + v[3..6] + "." + v[6..] else a
  {
    var a := v[..3] + "." + v[3..];
    if |v| >= 7 {
      assert a[..3] == v[..3];
      assert a[4..8] == v[3..7];
      AllDigitsSlice(v, 0, 3);
      AllDigitsSlice(v, 3, 7);
      assert a[..7] == v[..3] + "." + v[3..6];
      assert a[7..] == v[6..];
    }
  }

  /** The third replacement, after both dots are in place. */
  lemma CpfDashOnDigits(v: string)
    requires AllDigits(v) && |v| >= 7
    ensures var b := v[..3] + "." + v[3..6] + "." + v[6..];
      CpfDash(b) == if |v| >= 9 then v[..3] + "." + v[3..6] + "." + v[6..9] + "-" + v[9..] else b
  {
    var x := v[..3] + "." + v[3..6] + ".";
    var b := x + v[6..];
    if |v| >= 9 {
      assert |x| == 8;
      assert b[..3] == x[..3] == v[..3];
      assert b[4..7] == x[4..7] == v[3..6];
      assert b[8..11] == v[6..][..3] == v[6..9];
      AllDigitsSlice(v, 0, 3);
      AllDigitsSlice(v, 3, 6);
      AllDigitsSlice(v, 6, 9);
      assert b[..11] == v[..3] + "." + v[3..6] + "." + v[6..9];
      assert b[11..] == v[9..];
    }
  }

  /** The CPF layout by number of digits: a dot after the third digit once there
      are four, after the sixth once there are seven, and a dash after the ninth once
      there are nine. */
  function CpfLayout(v: string): string
  {
    if |v| <= 3 then v
    else if |v| <= 6 then v[..3] + "." + v[3..]
    else if |v| <= 8 then v[..3] + "." + v[3..6] + "." + v[6..]
    else v[..3] + "." + v[3..6] + "." + v[6..9] + "-" + v[9..]
  }

  /** The three replacements together, on a digit string. */
  lemma CpfChainOnDigits(v: string)
    requires AllDigits(v)
    ensures CpfDash(CpfSecondDot(CpfFirstDot(v))) == CpfLayout(v)
  {
    CpfFirstDotOnDigits(v);
    if |v| >= 4 {
      CpfSecondDotOnDigits(v);
    }
    if |v| >= 7 {
      CpfDashOnDigits(v);
    }
  }

  /** The digits of `value`, at most `k` of them: `onlyDigits(value).slice(0, k)`. */
  function FirstDigits(value: string, k: nat): (v: string)
    ensures AllDigits(v) && |v| <= k
    ensures |v| <= |OnlyDigits(value)| && v == OnlyDigits(value)[..|v|]
    ensures |v| == k || v == OnlyDigits(value)
  {
    var d := OnlyDigits(value);
    var v := Take(d, k);
    AllDigitsSlice(d, 0, |v|);
    v
  }

  /** Taking the first digits of a digit string of at most `k` digits gives it back. */
  lemma FirstDigitsOfDigits(v: string, k: nat)
    requires AllDigits(v) && |v| <= k
    ensures FirstDigits(v, k) == v
  {
  }

  /** `maskCPF`: the replacement chain lays the first 11 digits out as
      `ddd.ddd.ddd-dd`, each separator appearing once the digit after it is typed,
      except the dash, which already appears after the ninth digit. */
  function MaskCPF(value: string): (r: string)
    ensures r == CpfLayout(FirstDigits(value, 11))
  {
    var v := FirstDigits(value, 11);
    CpfChainOnDigits(v);
    CpfDash(CpfSecondDot(CpfFirstDot(v)))
  }

  /** Appending a separator adds no digit. */
  lemma OnlyDigitsSeparator(x: string, c: char, y: string)
    requires !IsDigit(c) && AllDigits(y)
    ensures OnlyDigits(x + [c] + y) == OnlyDigits(x) + y
  {
    OnlyDigitsAppend(x + [c], y);
    OnlyDigitsAppend(x, [c]);
  }

  /** Stripping the separators of the CPF layout gives back the digits. */
  lemma CpfSeparatorsDigits(v: string, p1: string, p2: string, p3: string, p4: string)
    requires AllDigits(v) && v == p1 + p2 + p3 + p4
    ensures OnlyDigits(p1 + ['.'] + p2) == p1 + p2
    ensures OnlyDigits(p1 + ['.'] + p2 + ['.'] + p3) == p1 + p2 + p3
    ensures OnlyDigits(p1 + ['.'] + p2 + ['.'] + p3 + ['-'] + p4) == v
  {
    assert p1 == v[..|p1|] && p2 == v[|p1|..|p1| + |p2|];
    assert p3 == v[|p1| + |p2|..|p1| + |p2| + |p3|] && p4 == v[|p1| + |p2| + |p3|..];
    AllDigitsSlice(v, 0, |p1|);
    AllDigitsSlice(v, |p1|, |p1| + |p2|);
    AllDigitsSlice(v, |p1| + |p2|, |p1| + |p2| + |p3|);
    AllDigitsSlice(v, |p1| + |p2| + |p3|, |v|);
    OnlyDigitsSeparator(p1, '.', p2);
    OnlyDigitsSeparator(p1 + ['.'] + p2, '.', p3);
    OnlyDigitsSeparator(p1 + ['.'] + p2 + ['.'] + p3, '-', p4);
  }

  /** The CPF layout of a digit string holds exactly those digits. */
  lemma CpfLayoutDigits(v: string)
    requires AllDigits(v)
    ensures OnlyDigits(CpfLayout(v)) == v
  {
    var n := |v|;
    if 9 <= n {
      CpfSeparatorsDigits(v, v[..3], v[3..6], v[6..9], v[9..]);
      assert v == v[..3] + v[3..6] + v[6..9] + v[9..];
    } else if 7 <= n {
      CpfSeparatorsDigits(v, v[..3], v[3..6], v[6..], []);
      assert v == v[..3] + v[3..6] + v[6..] + [];
    } else if 4 <= n {
      CpfSeparatorsDigits(v, v[..3], v[3..], [], []);
      assert v == v[..3] + v[3..] + [] + [];
    }
  }

  /** The mask keeps exactly the first 11 digits of its input. */
  lemma MaskCPFDigits(value: string)
    ensures OnlyDigits(MaskCPF(value)) == FirstDigits(value, 11)
  {
    CpfLayoutDigits(FirstDigits(value, 11));
  }

  /** Masking an already masked value changes nothing. */
  lemma MaskCPFIdempotent(value: string)
    ensures MaskCPF(MaskCPF(value)) == MaskCPF(value)
  {
    var v := FirstDigits(value, 11);
    MaskCPFDigits(value);
    FirstDigitsOfDigits(v, 11);
  }

  /** At most 14 characters for at most 11 digits, ending in `-` exactly at 9. */
  lemma CpfLayoutShape(v: string)
    requires AllDigits(v) && |v| <= 11
    ensures var r := CpfLayout(v);
      && |r| <= 14
      && (EndsWithDash(r) <==> |v| == 9)
  {
  }

  /** The output is at most 14 characters long, and it ends in `-` exactly when
      the input holds exactly nine digits. */
  lemma MaskCPFShape(value: string)
    ensures |MaskCPF(value)| <= 14
    ensures EndsWithDash(MaskCPF(value)) <==> |OnlyDigits(value)| == 9
  {
    CpfLayoutShape(FirstDigits(value, 11));
  }

  /** The pattern `^\d{3}\.\d{3}\.\d{3}-\d{2}$` of the legacy CPF check. */
  predicate MatchesCpfPattern(s: string)
  {
    && |s| == 14
    && AllDigits(s[..3]) && s[3] == '.' && AllDigits(s[4..7]) && s[7] == '.'
    && AllDigits(s[8..11]) && s[11] == '-' && AllDigits(s[12..])
  }

  /** The layout has the complete legacy format exactly for 11 digits. */
  lemma CpfLayoutPattern(v: string)
    requires AllDigits(v) && |v| <= 11
    ensures MatchesCpfPattern(CpfLayout(v)) <==> |v| == 11
  {
    if |v| == 11 {
      var r := CpfLayout(v);
      assert r[..3] == v[..3] && r[4..7] == v[3..6] && r[8..11] == v[6..9] && r[12..] == v[9..];
      AllDigitsSlice(v, 0, 3);
      AllDigitsSlice(v, 3, 6);
      AllDigitsSlice(v, 6, 9);
      AllDigitsSlice(v, 9, 11);
    }
  }

  /** The mask produces the complete legacy format exactly when at least 11 digits were typed. */
  lemma MaskCPFMatchesPattern(value: string)
    ensures MatchesCpfPattern(MaskCPF(value)) <==> |OnlyDigits(value)| >= 11
  {
    CpfLayoutPattern(FirstDigits(value, 11));
  }

  /* ---------------- Phone: (AA) NNNN-NNNN or (AA) NNNNN-NNNN ---------------- */

  /** `.replace(/^(\d{2})(\d{k})(\d{0,4})/, '($1) $2-$3')` for a first group of `k`
      digits; the optional group keeps whatever follows. */
  function PhoneGroups(s: string, k: nat): string
  {
    if |s| >= 2 + k && AllDigits(s[..2 + k])
    then "(" + s[..2] + ") " + s[2..2 + k] + "-" + s[2 + k..]
    else s
  }

  /** `.replace(/-$/, '')` */
  function DropTrailingDash(s: string): (r: string)
  {
    if s != [] && s[|s| - 1] == '-' then s[..|s| - 1] else s
  }

  /** The grouping replacement on a digit string long enough to match. */
  lemma PhoneGroupsOnDigits(v: string, k: nat)
    requires AllDigits(v) && |v| >= 2 + k
    ensures var g := PhoneGroups(v, k);
      && g == "(" + v[..2] + ") " + v[2..2 + k] + "-" + v[2 + k..]
      && g[0] == '(' && IsDigit(g[|g| - 1]) == (|v| > 2 + k) && !IsWhiteSpace(g[|g| - 1])
  {
    AllDigitsSlice(v, 0, 2 + k);
    var g := PhoneGroups(v, k);
    if |v| > 2 + k {
      assert g[|g| - 1] == v[|v| - 1];
    } else {
      assert g[|g| - 1] == '-';
    }
  }

  /** Too few digits for the grouping: `trim` and dash removal leave them as they are. */
  lemma PhoneChainShort(v: string, k: nat)
    requires AllDigits(v) && |v| < 2 + k
    ensures DropTrailingDash(Trim(PhoneGroups(v, k))) == v
  {
    assert PhoneGroups(v, k) == v;
    assert v == [] || (!IsWhiteSpace(v[0]) && !IsWhiteSpace(v[|v| - 1]));
    TrimNoOp(v);
  }

  /** Enough digits for the grouping: the dash stays only when digits follow it. */
  lemma PhoneChainGrouped(v: string, k: nat)
    requires AllDigits(v) && |v| >= 2 + k
    ensures DropTrailingDash(Trim(PhoneGroups(v, k))) ==
      if |v| == 2 + k then "(" + v[..2] + ") " + v[2..2 + k]
      else "(" + v[..2] + ") " + v[2..2 + k] + "-" + v[2 + k..]
  {
    var g := PhoneGroups(v, k);
    var head := "(" + v[..2] + ") " + v[2..2 + k];
    PhoneGroupsOnDigits(v, k);
    assert g == head + "-" + v[2 + k..];
    assert !IsWhiteSpace(g[0]) && !IsWhiteSpace(g[|g| - 1]);
    TrimNoOp(g);
    assert Trim(g) == g;
    if |v| == 2 + k {
      assert v[2 + k..] == [];
      assert g == head + "-";
      assert EndsWithDash(g) && g[..|g| - 1] == head;
    } else {
      assert g[|g| - 1] == v[|v| - 1];
      assert !EndsWithDash(g);
    }
  }

  /** The phone layout by number of digits: bare below six; from six on, the area
      code in parentheses and a four-digit group, with a dash before any further
      digits; at eleven, a five-digit group. */
  function PhoneLayout(v: string): string
  {
    if |v| < 6 then v
    else if |v| == 6 then "(" + v[..2] + ") " + v[2..6]
    else if |v| <= 10 then "(" + v[..2] + ") " + v[2..6] + "-" + v[6..]
    else "(" + v[..2] + ") " + v[2..7] + "-" + v[7..]
  }

  /** The grouping, `trim` and dash removal together, on at most 11 digits. */
  lemma PhoneChainOnDigits(v: string)
    requires AllDigits(v) && |v| <= 11
    ensures DropTrailingDash(Trim(if |v| <= 10 then PhoneGroups(v, 4) else PhoneGroups(v, 5)))
            == PhoneLayout(v)
  {
    if |v| < 6 {
      PhoneChainShort(v, 4);
    } else if |v| <= 10 {
      PhoneChainGrouped(v, 4);
    } else {
      PhoneChainGrouped(v, 5);
    }
  }

  /** `maskPhone`: the first 11 digits in the phone layout, the four-digit group
      chosen for up to ten digits and the five-digit group for eleven. */
  function MaskPhone(value: string): (r: string)
    ensures r == PhoneLayout(FirstDigits(value, 11))
  {
    var v := FirstDigits(value, 11);
    PhoneChainOnDigits(v);
    if |v| <= 10 then DropTrailingDash(Trim(PhoneGroups(v, 4)))
    else DropTrailingDash(Trim(PhoneGroups(v, 5)))
  }

  /** Appending separators and then digits adds just those digits. */
  lemma {:induction false} OnlyDigitsSeparators(x: string, seps: string, y: string)
    requires (forall i :: 0 <= i < |seps| ==> !IsDigit(seps[i])) && AllDigits(y)
    ensures OnlyDigits(x + seps + y) == OnlyDigits(x) + y
  {
    OnlyDigitsAppend(x + seps, y);
    OnlyDigitsAppend(x, seps);
    OnlyDigitsOfSeparators(seps);
    assert OnlyDigits(x) + [] == OnlyDigits(x);
  }

  /** Stripping the separators of the phone layout gives back the digits. */
  lemma PhoneSeparatorsDigits(v: string, p1: string, p2: string, p3: string)
    requires AllDigits(v) && v == p1 + p2 + p3
    ensures OnlyDigits("(" + p1 + ") " + p2) == p1 + p2
    ensures OnlyDigits("(" + p1 + ") " + p2 + "-" + p3) == v
  {
    assert p1 == v[..|p1|] && p2 == v[|p1|..|p1| + |p2|] && p3 == v[|p1| + |p2|..];
    AllDigitsSlice(v, 0, |p1|);
    AllDigitsSlice(v, |p1|, |p1| + |p2|);
    AllDigitsSlice(v, |p1| + |p2|, |v|);
    var s1 := "(" + p1;
    OnlyDigitsSeparators([], "(", p1);
    assert [] + "(" + p1 == s1;
    var s2 := s1 + ") " + p2;
    OnlyDigitsSeparators(s1, ") ", p2);
    OnlyDigitsSeparators(s2, "-", p3);
  }

  /** The phone layout of a digit string holds exactly those digits. */
  lemma PhoneLayoutDigits(v: string)
    requires AllDigits(v)
    ensures OnlyDigits(PhoneLayout(v)) == v
  {
    var n := |v|;
    if n >= 11 {
      PhoneSeparatorsDigits(v, v[..2], v[2..7], v[7..]);
      assert v == v[..2] + v[2..7] + v[7..];
    } else if n >= 6 {
      PhoneSeparatorsDigits(v, v[..2], v[2..6], v[6..]);
      assert v == v[..2] + v[2..6] + v[6..];
    }
  }

  /** The mask keeps exactly the first 11 digits of its input. */
  lemma MaskPhoneDigits(value: string)
    ensures OnlyDigits(MaskPhone(value)) == FirstDigits(value, 11)
  {
    PhoneLayoutDigits(FirstDigits(value, 11));
  }

  /** Masking an already masked value changes nothing. */
  lemma MaskPhoneIdempotent(value: string)
    ensures MaskPhone(MaskPhone(value)) == MaskPhone(value)
  {
    var v := FirstDigits(value, 11);
    MaskPhoneDigits(value);
    FirstDigitsOfDigits(v, 11);
  }

  /** The phone layout of a digit string never ends in `-`. */
  lemma PhoneLayoutNoTrailingDash(v: string)
    requires AllDigits(v)
    ensures !EndsWithDash(PhoneLayout(v))
  {
    var r := PhoneLayout(v);
    if |v| < 6 {
      assert r == v;
      if v != [] {
        assert IsDigit(v[|v| - 1]);
      }
    } else if |v| == 6 {
      assert r[|r| - 1] == v[5];
    } else {
      assert r[|r| - 1] == v[|v| - 1];
    }
  }

  /** The phone mask never leaves a dangling dash. */
  lemma MaskPhoneNoTrailingDash(value: string)
    ensures !EndsWithDash(MaskPhone(value))
  {
    PhoneLayoutNoTrailingDash(FirstDigits(value, 11));
  }

  /* ---------------- CEP: NNNNN-NNN ---------------- */

  /** `.replace(/^(\d{5})(\d{0,3})/, '$1-$2')` */
  function CepGroups(s: string): string
  {
    if |s| >= 5 && AllDigits(s[..5]) then s[..5] + "-" + s[5..] else s
  }

  /** The CEP layout: bare up to five digits, a dash after the fifth from six on. */
  function CepLayout(v: string): string
  {
    if |v| <= 5 then v else v[..5] + "-" + v[5..]
  }

  /** The grouping and the dash removal together, on a digit string. */
  lemma CepChainOnDigits(v: string)
    requires AllDigits(v)
    ensures DropTrailingDash(CepGroups(v)) == CepLayout(v)
  {
    if |v| >= 5 {
      AllDigitsSlice(v, 0, 5);
      if |v| == 5 {
        assert v[5..] == [];
        assert CepGroups(v) == v + "-";
        assert (v + "-")[..|v|] == v;
      }
    } else if v != [] {
      assert IsDigit(v[|v| - 1]);
    }
  }

  /** `maskCEP`: the first 8 digits in the CEP layout. */
  function MaskCEP(value: string): (r: string)
    ensures r == CepLayout(FirstDigits(value, 8))
  {
    var v := FirstDigits(value, 8);
    CepChainOnDigits(v);
    DropTrailingDash(CepGroups(v))
  }

  /** The CEP layout of a digit string holds exactly those digits. */
  lemma CepLayoutDigits(v: string)
    requires AllDigits(v)
    ensures OnlyDigits(CepLayout(v)) == v
  {
    if |v| > 5 {
      AllDigitsSlice(v, 5, |v|);
      OnlyDigitsSeparator(v[..5], '-', v[5..]);
      assert v[..5] + ['-'] + v[5..] == v[..5] + "-" + v[5..];
      AllDigitsSlice(v, 0, 5);
      assert v[..5] + v[5..] == v;
    }
  }

  /** The mask keeps exactly the first 8 digits of its input. */
  lemma MaskCEPDigits(value: string)
    ensures OnlyDigits(MaskCEP(value)) == FirstDigits(value, 8)
  {
    CepLayoutDigits(FirstDigits(value, 8));
  }

  /** Masking an already masked value changes nothing. */
  lemma MaskCEPIdempotent(value: string)
    ensures MaskCEP(MaskCEP(value)) == MaskCEP(value)
  {
    var v := FirstDigits(value, 8);
    MaskCEPDigits(value);
    FirstDigitsOfDigits(v, 8);
  }

  /** The CEP mask never leaves a dangling dash. */
  lemma MaskCEPNoTrailingDash(value: string)
    ensures !EndsWithDash(MaskCEP(value))
  {
    var v := FirstDigits(value, 8);
    if 0 < |v| {
      assert IsDigit(v[|v| - 1]);
    }
  }
}
