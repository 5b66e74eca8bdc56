/** Decimal printing (`%lu`, `%llu`, `%d`) and the 64-byte scratch buffer it goes through. */
module Numbers {
  import opened Rules
  import opened Connections

  function DigitChar(d: nat): char
    requires d < 10
  {
    '0' + (d as char)
  }

  function Dec(n: nat): (s: string)
    ensures s != [] && IsDecimal(s)
  {
    if n < 10 then [DigitChar(n)] else Dec(n / 10) + [DigitChar(n % 10)]
  }

  function DecInt(i: int): string { if i < 0 then "-" + Dec(-i) else Dec(i) }

  lemma {:induction false} DecValue(n: nat)
    ensures Decimal(Dec(n)) == n
  {
    if n < 10 {
      assert Dec(n)[..0] == [];
    } else {
      DecValue(n / 10);
      assert Dec(n)[..|Dec(n)| - 1] == Dec(n / 10);
    }
  }

  lemma DecIsInjective(m: nat, n: nat)
    requires Dec(m) == Dec(n)
    ensures m == n
  {
    hide Dec, Decimal;
    DecValue(m);
    DecValue(n);
  }

  lemma DecIntIsInjective(i: int, j: int)
    requires DecInt(i) == DecInt(j)
    ensures i == j
  {
    hide Dec;
    var a, b := if i < 0 then -i else i, if j < 0 then -j else j;
    assert i < 0 ==> DecInt(i)[0] == '-' && DecInt(i)[1..] == Dec(a);
    assert j < 0 ==> DecInt(j)[0] == '-' && DecInt(j)[1..] == Dec(b);
    assert Dec(a)[0] in Dec(a) && Dec(b)[0] in Dec(b);
    DecIsInjective(a, b);
  }

  function Pow10(k: nat): nat { if k == 0 then 1 else 10 * Pow10(k - 1) }

  lemma {:induction false} DecLength(n: nat, k: nat)
    requires k > 0 && n < Pow10(k)
    ensures |Dec(n)| <= k
  {
    if n >= 10 {
      DecLength(n / 10, k - 1);
    }
  }

  lemma WordDigits(n: Id)
    ensures 0 < |Dec(n)| <= 20
  {
    assert Pow10(5) == 100000;
    assert Pow10(10) == 10000000000 by { assert Pow10(8) == 100000000; }
    assert Pow10(15) == 1000000000000000 by { assert Pow10(13) == 10000000000000; }
    assert Pow10(20) == 100000000000000000000 by { assert Pow10(18) == 1000000000000000000; }
    DecLength(n, 20);
  }

  /** A 32-bit signed number takes at most eleven bytes. */
  lemma IntDigits(i: int)
    requires -0x8000_0000 <= i < 0x8000_0000
    ensures |DecInt(i)| <= 11
  {
    assert Pow10(5) == 100000;
    assert Pow10(10) == 10000000000 by { assert Pow10(8) == 100000000; }
    DecLength(if i < 0 then -i else i, 10);
  }

  /** `snprintf` into `char numbuf[64]`: all but the first 63 bytes are lost. */
  function Clip(s: string): string { if |s| <= 63 then s else s[..63] }

  /** Losing its last digits divides a printed number by ten each. */
  lemma {:induction false} DecPrefix(n: nat, k: nat)
    requires k < |Dec(n)|
    ensures Dec(n)[..|Dec(n)| - k] == Dec(Shifted(n, k))
    ensures k > 0 ==> Shifted(n, k) < n
  {
    if k > 0 {
      assert n >= 10;
      assert Dec(n)[..|Dec(n)| - 1] == Dec(n / 10);
      DecPrefix(n / 10, k - 1);
      assert Dec(n)[..|Dec(n)| - k] == Dec(n / 10)[..|Dec(n / 10)| - (k - 1)];
    } else {
      assert Dec(n)[..|Dec(n)|] == Dec(n);
    }
  }

  function Shifted(n: nat, k: nat): nat
    decreases k
  {
    if k == 0 then n else Shifted(n / 10, k - 1)
  }
}
