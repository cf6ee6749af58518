/** Decimal text: what printf's %d and %zu write, and the left-to-right digit loops that read it. */
module Decimal {
  import opened Bytes

  predicate IsDigit(c: byte) {
    48 <= c <= 57
  }

  predicate AllDigits(s: ByteString) {
    forall i | 0 <= i < |s| :: IsDigit(s[i])
  }

  /** The decimal digits of n, without leading zeros. */
  function Digits(n: nat): (s: ByteString)
    ensures AllDigits(s) && s != []
  {
    if n < 10 then [(48 + n) as byte]
    else Digits(n / 10) + [(48 + n % 10) as byte]
  }

  /** Reading digits from the left: multiply by ten, add the digit. */
  function Value(s: ByteString): nat
    requires AllDigits(s)
  {
    if s == [] then 0
    else Value(s[..|s| - 1]) * 10 + (s[|s| - 1] as int - 48)
  }

  lemma {:induction false} ValueOfDigits(n: nat)
    ensures Value(Digits(n)) == n
  {
    if n >= 10 {
      ValueOfDigits(n / 10);
      var s := Digits(n);
      assert s[..|s| - 1] == Digits(n / 10);
    } else {
      assert Digits(n)[..0] == [];
    }
  }
}
