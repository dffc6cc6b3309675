/** Decimal numbers as `%d` prints them and as `int` reads a run of digits. */
module Decimal {

  predicate IsDigit(c: char) {
    '0' <= c <= '9'
  }

  function Digit(n: nat): (c: char)
    requires n < 10
    ensures IsDigit(c)
  {
    '0' + n as char
  }

  predicate AllDigits(s: string) {
    forall i | 0 <= i < |s| :: IsDigit(s[i])
  }

  function Print(n: nat): (s: string)
    ensures s != "" && AllDigits(s)
  {
    if n < 10 then [Digit(n)] else Print(n / 10) + [Digit(n % 10)]
  }

  function Value(s: string): nat
    requires AllDigits(s)
  {
    if s == "" then 0 else 10 * Value(s[..|s| - 1]) + (s[|s| - 1] as int - '0' as int)
  }

  /** The length of the longest run of digits at the head of s. */
  function DigitRun(s: string): (n: nat)
    ensures n <= |s| && AllDigits(s[..n])
  {
    if s == "" || !IsDigit(s[0]) then 0
    else
      var n := 1 + DigitRun(s[1..]);
      assert forall i | 0 < i < n :: s[..n][i] == s[1..][..n - 1][i - 1];
      n
  }

  lemma {:induction false} ValueOfPrint(n: nat)
    ensures Value(Print(n)) == n
  {
    if n >= 10 {
      ValueOfPrint(n / 10);
      assert Print(n)[..|Print(n)| - 1] == Print(n / 10);
    } else {
      assert Print(n)[..0] == "";
    }
  }

  lemma {:induction false} DigitRunOf(digits: string, rest: string)
    requires AllDigits(digits) && (rest == "" || !IsDigit(rest[0]))
    ensures DigitRun(digits + rest) == |digits|
  {
    if digits == "" {
      assert digits + rest == rest;
    } else {
      assert (digits + rest)[1..] == digits[1..] + rest;
      DigitRunOf(digits[1..], rest);
    }
  }

  // ---------- Place value ----------

  function Pow10(n: nat): nat {
    if n == 0 then 1 else 10 * Pow10(n - 1)
  }

  /** The sum of every digit times the power of ten of its place. */
  function PlaceSum(s: string): nat
    requires AllDigits(s)
  {
    if s == "" then 0 else (s[0] as int - '0' as int) * Pow10(|s| - 1) + PlaceSum(s[1..])
  }

  lemma NextPlace(d: nat, n: nat)
    ensures d * Pow10(n + 1) == 10 * (d * Pow10(n))
  {
  }

  lemma PlaceSumFirst(s: string)
    requires AllDigits(s) && s != ""
    ensures PlaceSum(s) == (s[0] as int - '0' as int) * Pow10(|s| - 1) + PlaceSum(s[1..])
    ensures |s| == 1 ==> PlaceSum(s) == s[0] as int - '0' as int && PlaceSum(s[..0]) == 0
  {
  }

  lemma {:induction false} PlaceSumLast(s: string)
    requires AllDigits(s) && s != ""
    ensures PlaceSum(s) == 10 * PlaceSum(s[..|s| - 1]) + (s[|s| - 1] as int - '0' as int)
  {
    hide PlaceSum, Pow10;
    PlaceSumFirst(s);
    if |s| > 1 {
      var init, tail := s[..|s| - 1], s[1..];
      PlaceSumLast(tail);
      PlaceSumFirst(init);
      assert tail[..|tail| - 1] == init[1..];
      NextPlace(s[0] as int - '0' as int, |init| - 1);
    }
  }

  lemma {:induction false} ValueIsPlaceSum(s: string)
    requires AllDigits(s)
    ensures Value(s) == PlaceSum(s)
  {
    if s != "" {
      ValueIsPlaceSum(s[..|s| - 1]);
      PlaceSumLast(s);
    }
  }

  /** A number prints as digits that have its value, without a zero in front. */
  lemma {:induction false} PrintIsPlain(n: nat)
    ensures PlaceSum(Print(n)) == n
    ensures Print(n)[0] == '0' ==> Print(n) == "0"
  {
    ValueOfPrint(n);
    ValueIsPlaceSum(Print(n));
    if n >= 10 {
      PrintIsPlain(n / 10);
      assert Print(n)[0] == Print(n / 10)[0];
      ValueOfPrint(n / 10);
      assert Value("0") == 0 by { assert "0"[..0] == ""; }
    }
  }
}
