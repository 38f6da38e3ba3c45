/** Decimal digit strings: the age check of the profile form and the integer
    parsing of the TEXT column Admins.AdminUserId. Only ASCII digits are modelled. */
module Decimal {
  import opened Types

  predicate IsDigit(c: char) {
    '0' <= c <= '9'
  }

  predicate AllDigits(s: string) {
    forall i :: 0 <= i < |s| ==> IsDigit(s[i])
  }

  /** `s.isdigit()`: non-empty, and every character a digit. */
  predicate IsDigits(s: string) {
    |s| > 0 && AllDigits(s)
  }

  function DigitValue(c: char): nat
    requires IsDigit(c)
  {
    c as int - '0' as int
  }

  function DigitChar(d: nat): char
    requires d < 10
  {
    ('0' as int + d) as char
  }

  /** `int(s)` on a string of digits. */
  function Value(s: string): nat
    requires AllDigits(s)
    decreases |s|
  {
    if s == [] then 0 else Value(s[..|s| - 1]) * 10 + DigitValue(s[|s| - 1])
  }

  /** `str(n)`: the decimal text SQLite stores when an integer is written to a TEXT column. */
  function Show(n: nat): string
    decreases n
  {
    if n < 10 then [DigitChar(n)] else Show(n / 10) + [DigitChar(n % 10)]
  }

  /** Parsing the decimal text of a number gives the number back. */
  lemma {:induction false} ValueOfShow(n: nat)
    ensures IsDigits(Show(n))
    ensures Value(Show(n)) == n
    decreases n
  {
    if n >= 10 {
      ValueOfShow(n / 10);
      var s := Show(n / 10) + [DigitChar(n % 10)];
      assert s[..|s| - 1] == Show(n / 10);
    }
  }

  /** A digit string denotes a positive number iff one of its digits is not '0'. */
  lemma {:induction false} ValuePositive(s: string)
    requires AllDigits(s)
    ensures Value(s) > 0 <==> exists i :: 0 <= i < |s| && s[i] != '0'
    decreases |s|
  {
    if s != [] {
      var init := s[..|s| - 1];
      ValuePositive(init);
      if exists i :: 0 <= i < |init| && init[i] != '0' {
        var i :| 0 <= i < |init| && init[i] != '0';
        assert s[i] == init[i];
      }
      if exists i :: 0 <= i < |s| && s[i] != '0' {
        var i :| 0 <= i < |s| && s[i] != '0';
        if i < |s| - 1 {
          assert init[i] == s[i];
        }
      }
    }
  }

  /** The age check of get_age and update_age:
      `age is not None and age.isdigit() and int(age) > 0`. */
  predicate ValidAge(text: Option<string>) {
    text.Some? && IsDigits(text.value) && Value(text.value) > 0
  }

  /** An age is accepted iff the message has text, the text is all digits, and not all of them
      are zeros; so "0", "00", "", "-3", "4a" and a message without text are all refused. */
  lemma ValidAgeIff(text: Option<string>)
    ensures ValidAge(text) <==>
      text.Some? && |text.value| > 0 && AllDigits(text.value)
      && exists i :: 0 <= i < |text.value| && text.value[i] != '0'
  {
    if text.Some? && AllDigits(text.value) {
      ValuePositive(text.value);
    }
  }

  /** Every positive number, written in decimal, is an accepted age. */
  lemma ShownAgeIsValid(n: nat)
    requires n > 0
    ensures ValidAge(Some(Show(n)))
  {
    ValueOfShow(n);
  }
}
