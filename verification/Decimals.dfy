/** Decimal numerals: how %d and %lu print a number and how the digit loop reads it back. */
module Decimals {
  import opened SqlText

  function Decimal(n: nat): (r: string)
    ensures r != ""
  {
    if n < 10 then [('0' as int + n) as char] else Decimal(n / 10) + [('0' as int + n % 10) as char]
  }

  function SignedDecimal(n: int): string {
    if n < 0 then "-" + Decimal(-n) else Decimal(n)
  }

  /** Reading back a number printed at position i of a text gives the number. */
  lemma {:induction false} DigitsOfDecimal(t: string, i: nat, n: nat)
    requires i + |Decimal(n)| <= |t| && t[i..i + |Decimal(n)|] == Decimal(n)
    ensures forall k :: i <= k < i + |Decimal(n)| ==> IsDigit(t[k])
    ensures Digits(t, i, i + |Decimal(n)|) == n
  {
    var d := Decimal(n);
    assert t[i + |d| - 1] == t[i..i + |d|][|d| - 1] == d[|d| - 1];
    if n >= 10 {
      assert t[i..i + |d| - 1] == t[i..i + |d|][..|d| - 1] == Decimal(n / 10);
      DigitsOfDecimal(t, i, n / 10);
    } else {
      assert Digits(t, i, i) == 0;
    }
  }
}
