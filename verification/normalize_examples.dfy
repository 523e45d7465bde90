/** The phone formats the matcher meets, for every choice of digits. */
module NormalizeExamples {
  import opened Text
  import opened PyValue
  import opened Normalize

  predicate AllDigits(s: string) {
    forall c :: c in s ==> IsDigit(c)
  }

  /** "(AAA) BBB-CCCC" normalizes to its ten digits. */
  lemma {:induction false} NormalizePhoneLocalFormat(a: string, b: string, c: string)
    requires |a| == 3 && |b| == 3 && |c| == 4
    requires AllDigits(a) && AllDigits(b) && AllDigits(c)
    ensures NormalizePhone(Some("(" + a + ") " + b + "-" + c)) == a + b + c
  {
    DigitsOfLocalFormat(a, b, c);
    assert |a + b + c| == 10;
  }

  lemma {:induction false} DigitsOfLocalFormat(a: string, b: string, c: string)
    requires AllDigits(a) && AllDigits(b) && AllDigits(c)
    ensures Digits("(" + a + ") " + b + "-" + c) == a + b + c
  {
    DigitsOfDigits(a);
    DigitsOfDigits(b);
    DigitsOfDigits(c);
    DigitsOfLiterals();
    DigitsAppend("(", a, "");
    DigitsAppend("(" + a, ") ", a);
    DigitsAppend("(" + a + ") ", b, a);
    DigitsAppend("(" + a + ") " + b, "-", a + b);
    DigitsAppend("(" + a + ") " + b + "-", c, a + b);
  }

  /** "1-AAA-BBB-CCCC" loses its country code. */
  lemma {:induction false} NormalizePhoneCountryCodeFormat(a: string, b: string, c: string)
    requires |a| == 3 && |b| == 3 && |c| == 4
    requires AllDigits(a) && AllDigits(b) && AllDigits(c)
    ensures NormalizePhone(Some("1-" + a + "-" + b + "-" + c)) == a + b + c
  {
    var s := "1-" + a + "-" + b + "-" + c;
    DigitsOfCountryCodeFormat(a, b, c);
    var d := Digits(s);
    assert |d| == 11 && d[0] == '1';
    assert d[1..] == a + b + c;
  }

  lemma {:induction false} DigitsOfCountryCodeFormat(a: string, b: string, c: string)
    requires AllDigits(a) && AllDigits(b) && AllDigits(c)
    ensures Digits("1-" + a + "-" + b + "-" + c) == "1" + a + b + c
  {
    DigitsOfDigits(a);
    DigitsOfDigits(b);
    DigitsOfDigits(c);
    DigitsOfLiterals();
    DigitsAppend("1-", a, "1");
    DigitsAppend("1-" + a, "-", "1" + a);
    DigitsAppend("1-" + a + "-", b, "1" + a);
    DigitsAppend("1-" + a + "-" + b, "-", "1" + a + b);
    DigitsAppend("1-" + a + "-" + b + "-", c, "1" + a + b);
  }

  lemma DigitsOfLiterals()
    ensures Digits("1-") == "1" && Digits("-") == "" && Digits("(") == "" && Digits(") ") == ""
  {}

  lemma DigitsAppend(s: string, t: string, d: string)
    requires Digits(s) == d
    ensures Digits(s + t) == d + Digits(t)
  {
    DigitsConcat(s, t);
  }
}
