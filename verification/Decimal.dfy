/** Decimal integers as fmt's %d prints them and strconv.Atoi reads them. */
module Decimal {
  import opened Prelude

  /** The largest value of Go's 64-bit int. */
  const MAX_INT: int := 0x7fff_ffff_ffff_ffff

  predicate IsDigit(c: char) { '0' <= c <= '9' }

  function DigitValue(c: char): (d: nat)
    requires IsDigit(c)
    ensures d < 10
  {
    (c - '0') as nat
  }

  function DigitChar(d: nat): (c: char)
    requires d < 10
    ensures IsDigit(c) && DigitValue(c) == d
  {
    '0' + d as char
  }

  function Show(n: nat): (s: string)
    ensures |s| >= 1 && forall i :: 0 <= i < |s| ==> IsDigit(s[i])
  {
    if n < 10 then [DigitChar(n)] else Show(n / 10) + [DigitChar(n % 10)]
  }

  predicate AllDigits(s: string) {
    forall i :: 0 <= i < |s| ==> IsDigit(s[i])
  }

  function Value(s: string): nat
    requires AllDigits(s)
  {
    if s == "" then 0 else 10 * Value(s[..|s| - 1]) + DigitValue(s[|s| - 1])
  }

  datatype Parsed = Number(n: int) | Malformed

  /** strconv.Atoi: an optional sign, at least one digit, and a value that fits in 64 bits. */
  function Atoi(s: string): Parsed {
    var signed := s != "" && (s[0] == '-' || s[0] == '+');
    var digits := if signed then s[1..] else s;
    if digits == "" || !AllDigits(digits) then Malformed
    else
      var n: int := if signed && s[0] == '-' then -(Value(digits) as int) else Value(digits);
      if -MAX_INT - 1 <= n <= MAX_INT then Number(n) else Malformed
  }

  lemma {:induction false} ValueShow(n: nat)
    ensures Value(Show(n)) == n
    decreases n
  {
    if n >= 10 {
      ValueShow(n / 10);
      assert Show(n)[..|Show(n)| - 1] == Show(n / 10);
    }
  }

  /** A printed offset is read back as itself. */
  lemma {:induction false} AtoiShow(n: nat)
    requires n <= MAX_INT
    ensures Atoi(Show(n)) == Number(n)
  {
    ValueShow(n);
    assert IsDigit(Show(n)[0]);
  }

  /** So is a printed negative number. */
  lemma {:induction false} AtoiNegative(n: int)
    requires 0 <= n <= MAX_INT
    ensures Atoi("-" + Show(n)) == Number(-n)
  {
    ValueShow(n);
    var s := "-" + Show(n);
    assert s[0] == '-' && s[1..] == Show(n);
  }

  /** Only digits are printed, so no name is a printed number. */
  lemma {:induction false} ShowIsNoName(n: nat)
    ensures Show(n) != "" && Show(n) != "BEG" && Show(n) != "END"
  {
    assert IsDigit(Show(n)[0]) && !IsDigit('B') && !IsDigit('E');
  }

  predicate AllZeros(s: string) {
    forall i :: 0 <= i < |s| ==> s[i] == '0'
  }

  /** A decimal numeral: a sign that fits, leading zeros, and the digits of the number. */
  ghost predicate Spells(s: string, n: int) {
    exists sign: string, zeros: string :: Spelled(s, sign, zeros, n)
  }

  ghost predicate Spelled(s: string, sign: string, zeros: string, n: int) {
    && (if sign == "-" then n <= 0 else (sign == "" || sign == "+") && n >= 0)
    && AllZeros(zeros) && s == sign + (zeros + Show(Abs(n)))
  }

  lemma {:induction false} ZerosAreZero(s: string)
    requires AllZeros(s)
    ensures AllDigits(s) && Value(s) == 0
  {
    if s != "" {
      ZerosAreZero(s[..|s| - 1]);
    }
  }

  lemma {:induction false} LeadingZeros(zeros: string, digits: string)
    requires AllZeros(zeros) && AllDigits(digits)
    ensures AllDigits(zeros + digits) && Value(zeros + digits) == Value(digits)
  {
    if digits == "" {
      assert zeros + digits == zeros;
      ZerosAreZero(zeros);
    } else {
      LeadingZeros(zeros, digits[..|digits| - 1]);
      assert (zeros + digits)[..|zeros + digits| - 1] == zeros + digits[..|digits| - 1];
    }
  }

  /** Digits are leading zeros and the printed value. */
  lemma {:induction false} DigitsSpell(digits: string) returns (zeros: string)
    requires AllDigits(digits) && digits != ""
    ensures AllZeros(zeros) && digits == zeros + Show(Value(digits))
    decreases |digits|
  {
    var last, before := digits[|digits| - 1], digits[..|digits| - 1];
    assert digits == before + [last];
    if before == "" {
      zeros := "";
      ShowOne(last);
      assert digits == [last] && Value(before) == 0;
    } else {
      zeros := DigitsSpell(before);
      zeros := SpellNext(before, last, zeros, Value(before));
    }
  }

  lemma SpellNext(before: string, last: char, lead: string, n: nat) returns (zeros: string)
    requires AllZeros(lead) && before == lead + Show(n) && IsDigit(last)
    ensures AllZeros(zeros) && before + [last] == zeros + Show(10 * n + DigitValue(last))
  {
    if n == 0 {
      assert Show(0) == "0";
      ShowOne(last);
      zeros := before;
    } else {
      ShowNext(n, last);
      Regroup(lead, Show(n), [last]);
      zeros := lead;
    }
  }

  lemma ShowOne(c: char)
    requires IsDigit(c)
    ensures Show(DigitValue(c)) == [c]
  {
  }

  lemma ShowNext(n: nat, c: char)
    requires n > 0 && IsDigit(c)
    ensures Show(10 * n + DigitValue(c)) == Show(n) + [c]
  {
    var m := 10 * n + DigitValue(c);
    assert m / 10 == n && m % 10 == DigitValue(c);
  }

  /** What is read as an integer: exactly the numerals of numbers that fit in 64 bits. */
  lemma AtoiIff(s: string, n: int)
    ensures Atoi(s) == Number(n) <==> -9223372036854775808 <= n <= 9223372036854775807 && Spells(s, n)
  {
    if Atoi(s) == Number(n) {
      NumberSpells(s, n);
    }
    if Spells(s, n) && -9223372036854775808 <= n <= 9223372036854775807 {
      var sign, zeros :| Spelled(s, sign, zeros, n);
      SpelledIsRead(s, sign, zeros, n);
    }
  }

  lemma NumberSpells(s: string, n: int)
    requires Atoi(s) == Number(n)
    ensures Spells(s, n)
  {
    var signed := s[0] == '-' || s[0] == '+';
    var sign, digits := if signed then s[..1] else "", if signed then s[1..] else s;
    assert s == sign + digits;
    var zeros := DigitsSpell(digits);
    assert Value(digits) == Abs(n);
    assert Spelled(s, sign, zeros, n);
  }

  lemma SpelledIsRead(s: string, sign: string, zeros: string, n: int)
    requires Spelled(s, sign, zeros, n) && -9223372036854775808 <= n <= 9223372036854775807
    ensures Atoi(s) == Number(n)
  {
    var digits := zeros + Show(Abs(n));
    LeadingZeros(zeros, Show(Abs(n)));
    ValueShow(Abs(n));
    SignedIsRead(s, sign, digits, n);
  }

  lemma {:induction false} SignedIsRead(s: string, sign: string, digits: string, n: int)
    requires s == sign + digits && digits != "" && AllDigits(digits) && Value(digits) == Abs(n)
    requires if sign == "-" then n <= 0 else (sign == "" || sign == "+") && n >= 0
    requires -9223372036854775808 <= n <= 9223372036854775807
    ensures Atoi(s) == Number(n)
  {
    assert IsDigit(digits[0]);
    if sign == "" {
      assert s == digits;
    } else {
      assert s[0] == sign[0] && s[1..] == digits;
    }
  }

  /** Numbers are printed in base ten. */
  lemma ShowDecimal()
    ensures Show(1907) == "1907"
  {
    ShowOne('1');
    ShowNext(1, '9');
    ShowNext(19, '0');
    ShowNext(190, '7');
  }
}
